/**
 * From the text of a syntax tree to its expression: lexing and parsing put together
 * (`parse` of examples/data-objects/math/src/mathExpr.ts).
 */
module MathText {
  import opened Common
  import opened MathExpr
  import opened MathLexer
  import opened MathParser
  import opened MathGrammar
  import opened Options

  function OperatorText(op: Operator): string {
    match op
    case ADD => "+"
    case SUB => "-"
    case DIV => "/"
    case EQ => "="
    case IMPLIES => "=>"
    case _ => ""
  }

  function Text(s: Syn): string {
    match s
    case Num(digits) => digits
    case Var(c) => [c]
    case Pat(name, marked, t) => (if marked then "?" + name else name) + (if t.Some? then ":" + t.value else "")
    case Paren(inner) => "(" + Text(inner) + ")"
    case Neg(operand) => "-" + Text(operand)
    case Infix(op, l, r) => Text(l) + OperatorText(op) + Text(r)
  }

  predicate AllDigits(s: string) {
    s != "" && forall i :: 0 <= i < |s| ==> IsDigit(s[i])
  }

  /** The first character of a tree's text. */
  function First(s: Syn): char {
    match s
    case Num(digits) => if digits == "" then '\0' else digits[0]
    case Var(c) => c
    case Pat(name, marked, _) => if marked || name == "" then '?' else name[0]
    case Paren(_) => '('
    case Neg(_) => '-'
    case Infix(_, l, _) => First(l)
  }

  function FirstOf(text: string, next: char): char {
    if text == "" then next else text[0]
  }

  /** No leaf of the tree runs into the text after it, which starts with `next`. */
  predicate Lexable(s: Syn, next: char) {
    match s
    case Num(digits) => AllDigits(digits) && !IsDigit(next)
    case Var(c) => IsLetter(c) && next != ':'
    case Pat(name, marked, t) =>
      && AllLetters(name) && !IsLetter(next)
      && (t.Some? ==> AllLetters(t.value))
      && (!marked ==> |name| == 1 && t.Some?)
    case Paren(inner) => Lexable(inner, ')')
    case Neg(operand) => Lexable(operand, next)
    case Infix(op, l, r) => IsInfixOp(op) && Lexable(l, FirstOf(OperatorText(op), First(r))) && Lexable(r, next)
  }

  // ---------- The items of a tree ----------

  function OperatorItems(op: Operator, rest: Items): Items {
    match op
    case ADD => Then(Punct('+'), rest)
    case SUB => Then(Punct('-'), rest)
    case DIV => Then(Punct('/'), rest)
    case EQ => Then(Equal, rest)
    case IMPLIES => Then(Arrow, rest)
    case _ => rest
  }

  /** The items of the tree's text, followed by `rest`. */
  function ItemsOf(s: Syn, rest: Items): Items
    decreases s
  {
    match s
    case Num(digits) => Then(Number(digits), rest)
    case Var(c) => Then(Letter(c), rest)
    case Pat(name, marked, t) => PatItems(name, marked, if t.Some? then Then(PatType(t.value), rest) else rest)
    case Paren(inner) => Then(Punct('('), ItemsOf(inner, Then(Punct(')'), rest)))
    case Neg(operand) => Then(Punct('-'), ItemsOf(operand, rest))
    case Infix(op, l, r) => ItemsOf(l, OperatorItems(op, ItemsOf(r, rest)))
  }

  function PatItems(name: string, marked: bool, rest: Items): Items {
    if marked then Then(PatName(name), rest)
    else if |name| == 1 then Then(TypedLetter(name[0]), rest)
    else rest
  }

  lemma {:induction false} ItemsOfText(s: Syn, rest: Items, next: char)
    requires Lexable(s, next)
    ensures ItemsText(ItemsOf(s, rest)) == Text(s) + ItemsText(rest)
    decreases s
  {
    hide *;
    ItemsOfIs(s, rest, next);
    if s.Pat? {
      PatText(s, rest, next);
    } else if s.Paren? {
      ThenText(Punct(')'), rest);
      ItemsOfText(s.inner, Then(Punct(')'), rest), ')');
      ThenText(Punct('('), ItemsOf(s.inner, Then(Punct(')'), rest)));
      Concat4("(", Text(s.inner), ")", ItemsText(rest));
    } else if s.Neg? {
      ItemsOfText(s.operand, rest, next);
      ThenText(Punct('-'), ItemsOf(s.operand, rest));
      Associates("-", Text(s.operand), ItemsText(rest));
    } else if s.Infix? {
      ItemsOfText(s.right, rest, next);
      ItemsOfText(s.left, OperatorItems(s.op, ItemsOf(s.right, rest)), FirstOf(OperatorText(s.op), First(s.right)));
      OperatorItemsText(s.op, ItemsOf(s.right, rest));
      Concat4(Text(s.left), OperatorText(s.op), Text(s.right), ItemsText(rest));
    } else {
      LeafText(s, rest, next);
    }
  }

  lemma ThenText(item: Item, rest: Items)
    ensures ItemsText(Then(item, rest)) == ItemText(item) + ItemsText(rest)
    ensures item.Punct? ==> ItemText(item) == [item.c]
  {
    hide ItemsText;
    assert ItemsText(Then(item, rest)) == ItemText(item) + ItemsText(rest) by {
      ThenTextIs(item, rest);
    }
  }

  lemma ThenTextIs(item: Item, rest: Items)
    ensures ItemsText(Then(item, rest)) == ItemText(item) + ItemsText(rest)
  {
    hide ItemText;
  }

  lemma LeafText(s: Syn, rest: Items, next: char)
    requires (s.Num? || s.Var?) && Lexable(s, next)
    ensures ItemsText(ItemsOf(s, rest)) == Text(s) + ItemsText(rest)
  {
  }

  /** The defining equations of a tree's text and items. */
  lemma ItemsOfIs(s: Syn, rest: Items, next: char)
    requires Lexable(s, next)
    ensures s.Paren? ==>
      && Text(s) == "(" + Text(s.inner) + ")" && Lexable(s.inner, ')')
      && ItemsOf(s, rest) == Then(Punct('('), ItemsOf(s.inner, Then(Punct(')'), rest)))
    ensures s.Neg? ==>
      && Text(s) == "-" + Text(s.operand) && Lexable(s.operand, next)
      && ItemsOf(s, rest) == Then(Punct('-'), ItemsOf(s.operand, rest))
    ensures s.Infix? ==>
      && Text(s) == Text(s.left) + OperatorText(s.op) + Text(s.right) && IsInfixOp(s.op)
      && Lexable(s.left, FirstOf(OperatorText(s.op), First(s.right))) && Lexable(s.right, next)
      && ItemsOf(s, rest) == ItemsOf(s.left, OperatorItems(s.op, ItemsOf(s.right, rest)))
  {
    hide OperatorText, OperatorItems, FirstOf, First;
  }

  lemma Concat4<T>(a: seq<T>, b: seq<T>, c: seq<T>, d: seq<T>)
    ensures a + (b + (c + d)) == a + b + c + d
  {
  }

  lemma PatText(s: Syn, rest: Items, next: char)
    requires s.Pat? && Lexable(s, next)
    ensures ItemsText(ItemsOf(s, rest)) == Text(s) + ItemsText(rest)
  {
    if s.pvarType.Some? {
      var more := Then(PatType(s.pvarType.value), rest);
      assert ItemsText(more) == ":" + s.pvarType.value + ItemsText(rest);
      if !s.marked {
        assert s.name == [s.name[0]];
      }
    }
  }

  lemma OperatorItemsText(op: Operator, rest: Items)
    requires IsInfixOp(op)
    ensures ItemsText(OperatorItems(op, rest)) == OperatorText(op) + ItemsText(rest)
  {
  }

  lemma {:induction false} FirstIs(s: Syn, next: char)
    requires Lexable(s, next)
    ensures Text(s) != "" && Text(s)[0] == First(s)
  {
    match s {
      case Paren(inner) => FirstIs(inner, ')');
      case Neg(operand) => FirstIs(operand, next);
      case Infix(op, l, r) => FirstIs(l, FirstOf(OperatorText(op), First(r)));
      case _ =>
    }
  }

  lemma FirstCharOf(s: Syn, rest: Items, next: char)
    requires Lexable(s, next)
    ensures FirstChar(ItemsOf(s, rest), '\0') == First(s)
  {
    ItemsOfText(s, rest, next);
    FirstIs(s, next);
  }

  /** The character after a tree, given the items after it. */
  function NextOf(rest: Items): char {
    FirstChar(rest, '\0')
  }

  lemma {:induction false} ItemsOfFit(cmds: Commands, s: Syn, rest: Items)
    requires Lexable(s, NextOf(rest)) && FitsItems(cmds, rest, '\0')
    ensures FitsItems(cmds, ItemsOf(s, rest), '\0')
    decreases s
  {
    match s {
      case Num(_) =>
      case Var(_) =>
      case Pat(_, _, _) => PatFits(cmds, s, rest);
      case Paren(inner) =>
        PunctNext(')', rest);
        ItemsOfFit(cmds, inner, Then(Punct(')'), rest));
      case Neg(operand) =>
        ItemsOfFit(cmds, operand, rest);
      case Infix(op, l, r) =>
        ItemsOfFit(cmds, r, rest);
        OperatorFits(cmds, op, r, rest);
        ItemsOfFit(cmds, l, OperatorItems(op, ItemsOf(r, rest)));
    }
  }

  lemma PunctNext(c: char, rest: Items)
    ensures NextOf(Then(Punct(c), rest)) == c
  {
    ThenText(Punct(c), rest);
  }

  lemma PatFits(cmds: Commands, s: Syn, rest: Items)
    requires s.Pat? && Lexable(s, NextOf(rest)) && FitsItems(cmds, rest, '\0')
    ensures FitsItems(cmds, ItemsOf(s, rest), '\0')
  {
    if s.pvarType.Some? {
      var more := Then(PatType(s.pvarType.value), rest);
      ThenText(PatType(s.pvarType.value), rest);
      assert FitsItems(cmds, more, '\0');
    }
  }

  lemma OperatorFits(cmds: Commands, op: Operator, r: Syn, rest: Items)
    requires IsInfixOp(op) && Lexable(r, NextOf(rest)) && FitsItems(cmds, ItemsOf(r, rest), '\0')
    ensures FitsItems(cmds, OperatorItems(op, ItemsOf(r, rest)), '\0')
    ensures NextOf(OperatorItems(op, ItemsOf(r, rest))) == FirstOf(OperatorText(op), First(r))
  {
    hide ItemsOf, FitsItems, ItemsText;
    FirstCharOf(r, rest, NextOf(rest));
    FirstNotArrow(r, NextOf(rest));
    OperatorItemsText(op, ItemsOf(r, rest));
    OperatorItemsFit(cmds, op, ItemsOf(r, rest));
  }

  lemma OperatorItemsFit(cmds: Commands, op: Operator, rest: Items)
    requires IsInfixOp(op) && FitsItems(cmds, rest, '\0') && NextOf(rest) != '>'
    ensures FitsItems(cmds, OperatorItems(op, rest), '\0')
  {
    hide ItemsText;
  }

  lemma {:induction false} FirstNotArrow(s: Syn, next: char)
    requires Lexable(s, next)
    ensures First(s) != '>'
  {
    if s.Infix? {
      FirstNotArrow(s.left, FirstOf(OperatorText(s.op), First(s.right)));
    }
  }

  // ---------- The tokens of a tree ----------

  /** Items that give one token each, none of them a space. */
  predicate AllLeaves(items: Items) {
    items.Then? ==> IsLeaf(items.head) && !items.head.Spaces? && AllLeaves(items.tail)
  }

  function LexemesOf(cmds: Commands, items: Items): seq<Lexeme> {
    match items
    case Empty => []
    case Then(head, tail) =>
      var tok := LeafToken(cmds, head, 0);
      [Lexeme(tok.kind, tok.text)] + LexemesOf(cmds, tail)
  }

  lemma {:induction false} TokensAre(cmds: Commands, items: Items, pos: nat, base: nat)
    requires AllLeaves(items)
    ensures var toks := ItemsTokens(cmds, items, pos, base);
      |toks| == |LexemesOf(cmds, items)| && HasAt(toks, 0, LexemesOf(cmds, items))
  {
    if items.Then? {
      var tok := LeafToken(cmds, items.head, pos);
      var rest := ItemsTokens(cmds, items.tail, pos + |ItemText(items.head)|, base + 1);
      TokensAre(cmds, items.tail, pos + |ItemText(items.head)|, base + 1);
      LeafLexeme(cmds, items.head, pos);
      assert ItemsTokens(cmds, items, pos, base) == [tok] + rest;
      ShiftedAt(tok, rest, LexemesOf(cmds, items.tail));
    }
  }

  lemma LeafLexeme(cmds: Commands, item: Item, pos: nat)
    requires IsLeaf(item)
    ensures LeafToken(cmds, item, pos).kind == LeafToken(cmds, item, 0).kind
    ensures LeafToken(cmds, item, pos).text == LeafToken(cmds, item, 0).text
  {
  }

  lemma ShiftedAt(tok: Token, rest: seq<Token>, ls: seq<Lexeme>)
    requires HasAt(rest, 0, ls)
    ensures HasAt([tok] + rest, 0, [Lexeme(tok.kind, tok.text)] + ls)
  {
    forall k | 0 <= k < |ls| ensures ls[k] == Lexeme(([tok] + rest)[1 + k].kind, ([tok] + rest)[1 + k].text) {
      assert ls[k] == Lexeme(rest[0 + k].kind, rest[0 + k].text);
    }
  }

  lemma {:induction false} ItemsOfYield(cmds: Commands, s: Syn, rest: Items, next: char)
    requires Lexable(s, next) && AllLeaves(rest)
    ensures AllLeaves(ItemsOf(s, rest)) && LexemesOf(cmds, ItemsOf(s, rest)) == Yield(s) + LexemesOf(cmds, rest)
    decreases s
  {
    hide *;
    ItemsOfIs(s, rest, next);
    YieldIs(s);
    if s.Pat? {
      PatYield(cmds, s, rest, next);
    } else if s.Paren? {
      ThenYield(cmds, ')', rest);
      ItemsOfYield(cmds, s.inner, Then(Punct(')'), rest), ')');
      ThenYield(cmds, '(', ItemsOf(s.inner, Then(Punct(')'), rest)));
      Concat4([Lexeme(OPAREN, "")], Yield(s.inner), [Lexeme(CPAREN, "")], LexemesOf(cmds, rest));
    } else if s.Neg? {
      ItemsOfYield(cmds, s.operand, rest, next);
      ThenYield(cmds, '-', ItemsOf(s.operand, rest));
      Associates([Lexeme(MINUS, "")], Yield(s.operand), LexemesOf(cmds, rest));
    } else if s.Infix? {
      ItemsOfYield(cmds, s.right, rest, next);
      OperatorYield(cmds, s.op, ItemsOf(s.right, rest));
      ItemsOfYield(cmds, s.left, OperatorItems(s.op, ItemsOf(s.right, rest)),
        FirstOf(OperatorText(s.op), First(s.right)));
      Concat4(Yield(s.left), OperatorLexemes(s.op), Yield(s.right), LexemesOf(cmds, rest));
    } else {
      LeafYield(cmds, s, rest);
    }
  }

  lemma YieldIs(s: Syn)
    ensures s.Paren? ==> Yield(s) == [Lexeme(OPAREN, "")] + Yield(s.inner) + [Lexeme(CPAREN, "")]
    ensures s.Neg? ==> Yield(s) == [Lexeme(MINUS, "")] + Yield(s.operand)
    ensures s.Infix? ==> Yield(s) == Yield(s.left) + OperatorLexemes(s.op) + Yield(s.right)
  {
    hide OperatorLexemes;
  }

  lemma LeafYield(cmds: Commands, s: Syn, rest: Items)
    requires (s.Num? || s.Var?) && AllLeaves(rest)
    ensures AllLeaves(ItemsOf(s, rest)) && LexemesOf(cmds, ItemsOf(s, rest)) == Yield(s) + LexemesOf(cmds, rest)
  {
  }

  lemma ThenYield(cmds: Commands, c: char, rest: Items)
    requires AllLeaves(rest)
    ensures AllLeaves(Then(Punct(c), rest))
    ensures c == '(' || c == ')' || c == '-' ==>
      LexemesOf(cmds, Then(Punct(c), rest))
      == [Lexeme(if c == '(' then OPAREN else if c == ')' then CPAREN else MINUS, "")] + LexemesOf(cmds, rest)
  {
  }

  lemma OperatorYield(cmds: Commands, op: Operator, rest: Items)
    requires IsInfixOp(op) && AllLeaves(rest)
    ensures AllLeaves(OperatorItems(op, rest))
    ensures LexemesOf(cmds, OperatorItems(op, rest)) == OperatorLexemes(op) + LexemesOf(cmds, rest)
  {
  }

  lemma PatYield(cmds: Commands, s: Syn, rest: Items, next: char)
    requires s.Pat? && Lexable(s, next) && AllLeaves(rest)
    ensures AllLeaves(ItemsOf(s, rest)) && LexemesOf(cmds, ItemsOf(s, rest)) == Yield(s) + LexemesOf(cmds, rest)
  {
    if !s.marked {
      assert [s.name[0]] == s.name;
    }
  }

  lemma {:induction false} NoSpaces(toks: seq<Token>)
    requires forall k :: 0 <= k < |toks| ==> toks[k].kind != SPACE
    ensures NotSpaces(toks) == toks
  {
    if toks != [] {
      NoSpaces(toks[1..]);
    }
  }

  lemma {:induction false} YieldHasNoSpace(s: Syn)
    ensures forall k :: 0 <= k < |Yield(s)| ==> Yield(s)[k].kind != SPACE
  {
    match s {
      case Paren(inner) => YieldHasNoSpace(inner);
      case Neg(operand) => YieldHasNoSpace(operand);
      case Infix(op, l, r) => YieldHasNoSpace(l); YieldHasNoSpace(r);
      case _ =>
    }
  }

  /** Parsing the text of a tree that fits the precedences gives back its expression. */
  lemma ParseTextReads(cmds: Commands, s: Syn)
    requires Fits(s) && Lexable(s, '\0')
    ensures ParseText(cmds, Text(s)) == Some(Tree(s))
  {
    hide *;
    LexText(cmds, s);
    var toks := ItemsTokens(cmds, ItemsOf(s, Empty), 0, 0);
    TokensFromStart(toks, s);
    ParseReads(toks, 0, s, NONE);
    ParseTextIs(cmds, Text(s), toks, Tree(s), |toks|);
  }

  /** The text of the tree is lexed into its tokens. */
  lemma LexText(cmds: Commands, s: Syn)
    requires Lexable(s, '\0')
    ensures var toks := ItemsTokens(cmds, ItemsOf(s, Empty), 0, 0);
      && LexMath(cmds, Text(s)) == Some(LexState(|Text(s)|, toks, []))
      && |toks| == |Yield(s)| && HasAt(toks, 0, Yield(s))
  {
    hide *;
    EmptyRest(cmds);
    ItemsOfText(s, Empty, '\0');
    ItemsOfFit(cmds, s, Empty);
    ItemsOfYield(cmds, s, Empty, '\0');
    TokensAre(cmds, ItemsOf(s, Empty), 0, 0);
    NothingAfter(Text(s));
    NothingAfter(Yield(s));
    LexWellFormed(cmds, ItemsOf(s, Empty));
  }

  lemma NothingAfter<T>(a: seq<T>)
    ensures a + [] == a
  {
  }

  lemma EmptyRest(cmds: Commands)
    ensures NextOf(Empty) == '\0' && FitsItems(cmds, Empty, '\0') && AllLeaves(Empty) && ItemsText(Empty) == ""
    ensures LexemesOf(cmds, Empty) == []
  {
  }

  lemma TokensFromStart(toks: seq<Token>, s: Syn)
    requires |toks| == |Yield(s)| && HasAt(toks, 0, Yield(s))
    ensures NotSpaces(toks) == toks && EndsAt(toks, |Yield(s)|, NONE) && Above(s, NONE)
  {
    hide Yield;
    YieldHasNoSpace(s);
    forall k | 0 <= k < |toks| ensures toks[k].kind != SPACE {
      assert Yield(s)[k] == Lexeme(toks[0 + k].kind, toks[0 + k].text);
    }
    NoSpaces(toks);
  }

  lemma ParseTextIs(cmds: Commands, text: string, toks: seq<Token>, e: Expr, j: nat)
    requires LexMath(cmds, text).Some? && LexMath(cmds, text).value.tokens == toks && NotSpaces(toks) == toks
    requires ParseExpr(toks, 0, NONE) == Parsed(e, j)
    ensures ParseText(cmds, text) == Some(e)
  {
    hide LexMath, ParseExpr, NotSpaces;
  }
}
