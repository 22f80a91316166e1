/**
 * The parser undoes the printer for exactly the trees of `Printable`: if the printed text of a tree is
 * read back as the tree, then the tree is printable
 * (`exprToTex` and `parseExpr` of examples/data-objects/math/src/mathExpr.ts).
 *
 * Two things are counted along the printed text: the places where a product is implied, and the minus
 * signs that directly follow a unary minus. What the parser read has as many products as places, and no
 * such minus sign; the printer loses one place for each bad right factor.
 */
module MathRoundTrip {
  import opened MathExpr
  import opened MathLexer
  import opened MathParser
  import opened MathGrammar
  import opened MathText
  import opened MathComplete
  import opened MathPrinter

  // ---------- Lexing any printed text ----------

  predicate IsPlainChar(c: char) {
    IsLetter(c) || IsDigit(c) || c == '+' || c == '-' || c == '=' || c == '(' || c == ')'
  }

  predicate PlainText(t: string) {
    forall i :: 0 <= i < |t| ==> IsPlainChar(t[i])
  }

  function Itemize(t: string): Items
    requires PlainText(t)
    decreases |t|
  {
    if t == "" then Empty
    else if IsDigit(t[0]) then
      var n := SkipDigits(t, 0);
      Then(Number(t[..n]), Itemize(t[n..]))
    else
      Then(if IsLetter(t[0]) then Letter(t[0]) else if t[0] == '=' then Equal else Punct(t[0]), Itemize(t[1..]))
  }

  lemma {:induction false} ItemizeText(t: string)
    requires PlainText(t)
    ensures ItemsText(Itemize(t)) == t
    decreases |t|
  {
    if t != "" {
      var n := if IsDigit(t[0]) then SkipDigits(t, 0) else 1;
      ItemizeText(t[n..]);
      assert t == t[..n] + t[n..];
    }
  }

  lemma {:induction false} ItemizeFits(cmds: Commands, t: string)
    requires PlainText(t)
    ensures FitsItems(cmds, Itemize(t), '\0') && AllLeaves(Itemize(t))
    decreases |t|
  {
    hide *;
    if t == "" {
      NothingFits(cmds);
    } else {
      var n := HeadFits(cmds, t);
      ItemizeFits(cmds, t[n..]);
      ItemizeText(t[n..]);
      ThenFits(cmds, Itemize(t), t[n..]);
    }
  }

  lemma NothingFits(cmds: Commands)
    ensures PlainText("") && FitsItems(cmds, Itemize(""), '\0') && AllLeaves(Itemize(""))
  {
  }

  lemma HeadFits(cmds: Commands, t: string) returns (n: nat)
    requires PlainText(t) && t != ""
    ensures 0 < n <= |t| && PlainText(t[n..])
    ensures Itemize(t).Then? && Itemize(t).tail == Itemize(t[n..])
    ensures FitsItem(cmds, Itemize(t).head, if n < |t| then t[n] else '\0')
    ensures IsLeaf(Itemize(t).head) && !Itemize(t).head.Spaces?
  {
    n := if IsDigit(t[0]) then SkipDigits(t, 0) else 1;
  }

  lemma ThenFits(cmds: Commands, items: Items, rest: string)
    requires items.Then? && ItemsText(items.tail) == rest && FitsItems(cmds, items.tail, '\0') && AllLeaves(items.tail)
    requires FitsItem(cmds, items.head, if rest == "" then '\0' else rest[0])
    requires IsLeaf(items.head) && !items.head.Spaces?
    ensures FitsItems(cmds, items, '\0') && AllLeaves(items)
  {
    hide FitsItem, ItemsText;
  }

  lemma {:induction false} PrintIsPlain(e: Expr, prev: nat, left: bool)
    requires Writable(e)
    ensures PlainText(Print(e, prev, left))
  {
    match e {
      case Integer(n) => DecimalIsNumber(if n < 0 then -n else n);
      case Unop(o) => PrintIsPlain(o, PREC_NEG, false);
      case Binop(op, l, r, _) =>
        PrintIsPlain(l, Precedence(op), true);
        PrintIsPlain(r, Precedence(op), false);
      case _ =>
    }
  }

  // ---------- The tally ----------

  /**
   * After an operator or an opening parenthesis, after a unary minus, or after an operand (which may end in a
   * digit).
   */
  datatype Place = Fresh | Signed | Done(digit: bool)

  /** `low` is the least depth of parentheses so far. */
  datatype Tally = Tally(products: nat, doubles: nat, depth: int, low: int, place: Place)

  const ZERO := Tally(0, 0, 0, 0, Fresh)

  function Joined(t: Tally): nat {
    if t.place.Done? then t.products + 1 else t.products
  }

  function AfterToken(t: Tally, kind: TokenType): Tally {
    match kind
    case INT => t.(products := Joined(t), place := Done(true))
    case VAR => t.(products := Joined(t), place := Done(false))
    case PATTERNVAR => t.(products := Joined(t), place := Done(false))
    case PATTERNTYPE => t
    case OPAREN => t.(products := Joined(t), depth := t.depth + 1, place := Fresh)
    case CPAREN =>
      t.(depth := t.depth - 1, low := if t.depth - 1 < t.low then t.depth - 1 else t.low, place := Done(false))
    case MINUS =>
      if t.place.Done? then t.(place := Fresh)
      else t.(doubles := if t.place.Signed? then t.doubles + 1 else t.doubles, place := Signed)
    case _ => t.(place := Fresh)
  }

  function ScanTokens(t: Tally, ls: seq<Lexeme>): Tally
    decreases ls
  {
    if ls == [] then t else ScanTokens(AfterToken(t, ls[0].kind), ls[1..])
  }

  function KindOf(c: char): TokenType {
    if IsLetter(c) then VAR
    else if IsDigit(c) then INT
    else if c == '+' then PLUS
    else if c == '-' then MINUS
    else if c == '(' then OPAREN
    else if c == ')' then CPAREN
    else EQUALS
  }

  /** A digit after a digit belongs to the same number. */
  function AfterChar(t: Tally, c: char): Tally {
    if IsDigit(c) && t.place == Done(true) then t else AfterToken(t, KindOf(c))
  }

  function ScanText(t: Tally, s: string): Tally
    decreases s
  {
    if s == "" then t else ScanText(AfterChar(t, s[0]), s[1..])
  }

  lemma {:induction false} ScanTokensConcat(t: Tally, a: seq<Lexeme>, b: seq<Lexeme>)
    ensures ScanTokens(t, a + b) == ScanTokens(ScanTokens(t, a), b)
    decreases a
  {
    if a == [] {
      assert a + b == b;
    } else {
      ScanTokensConcat(AfterToken(t, a[0].kind), a[1..], b);
      assert (a + b)[1..] == a[1..] + b;
    }
  }

  lemma {:induction false} ScanTextConcat(t: Tally, a: string, b: string)
    ensures ScanText(t, a + b) == ScanText(ScanText(t, a), b)
    decreases a
  {
    if a == "" {
      assert a + b == b;
    } else {
      ScanTextConcat(AfterChar(t, a[0]), a[1..], b);
      assert (a + b)[1..] == a[1..] + b;
    }
  }

  lemma {:induction false} ScanDigits(t: Tally, digits: string)
    requires AllDigits(digits)
    ensures ScanText(t, digits) == if t.place == Done(true) then t else AfterToken(t, INT)
    decreases |digits|
  {
    if |digits| > 1 {
      ScanDigits(AfterChar(t, digits[0]), digits[1..]);
    } else {
      assert ScanText(AfterChar(t, digits[0]), digits[1..]) == AfterChar(t, digits[0]);
    }
  }

  lemma ScanOne(t: Tally, c: char)
    ensures ScanText(t, [c]) == AfterChar(t, c)
  {
    assert ScanText(AfterChar(t, c), [c][1..]) == AfterChar(t, c);
  }

  /** Along a text and along its tokens the tally is the same. */
  lemma {:induction false} ScansAgree(cmds: Commands, t: Tally, s: string)
    requires PlainText(s) && (s != "" && IsDigit(s[0]) ==> t.place != Done(true))
    ensures ScanText(t, s) == ScanTokens(t, LexemesOf(cmds, Itemize(s)))
    decreases |s|
  {
    if s != "" {
      var n := if IsDigit(s[0]) then SkipDigits(s, 0) else 1;
      var kind := KindOf(s[0]);
      var t' := AfterToken(t, kind);
      if IsDigit(s[0]) {
        ScanDigits(t, s[..n]);
      } else {
        assert s[..n] == [s[0]];
        ScanOne(t, s[0]);
      }
      ScanTextConcat(t, s[..n], s[n..]);
      assert s == s[..n] + s[n..];
      ScansAgree(cmds, t', s[n..]);
      FirstKind(cmds, s, n);
    }
  }

  lemma FirstKind(cmds: Commands, s: string, n: nat)
    requires PlainText(s) && s != "" && n == if IsDigit(s[0]) then SkipDigits(s, 0) else 1
    ensures n <= |s|
    ensures var ls := LexemesOf(cmds, Itemize(s));
      ls != [] && ls[0].kind == KindOf(s[0]) && ls[1..] == LexemesOf(cmds, Itemize(s[n..]))
  {
  }

  lemma {:induction false} LowFalls(t: Tally, ls: seq<Lexeme>)
    ensures ScanTokens(t, ls).low <= t.low
    decreases ls
  {
    if ls != [] {
      LowFalls(AfterToken(t, ls[0].kind), ls[1..]);
    }
  }

  // ---------- The tally of a syntax tree ----------

  function Products(e: Expr): nat {
    match e
    case Unop(o) => Products(o)
    case Binop(op, l, r, _) => Products(l) + Products(r) + if op == MUL then 1 else 0
    case _ => 0
  }

  lemma {:induction false} TreeScan(s: Syn, t: Tally)
    requires Fits(s) && t.low <= t.depth && (t.place.Fresh? || IsPrimary(s))
    ensures ScanTokens(t, Yield(s)).place.Done?
    ensures ScanTokens(t, Yield(s)).(place := Fresh) == t.(products := Joined(t) + Products(Tree(s)), place := Fresh)
    decreases s
  {
    hide Fits, Yield, Tree, Products, ScanTokens, OperatorLexemes;
    InnerFits(s);
    if s.Paren? {
      ScanParen(s, t);
      TreeScan(s.inner, AfterToken(t, OPAREN));
    } else if s.Neg? {
      ScanSign(s, t);
      TreeScan(s.operand, AfterToken(t, MINUS));
    } else if s.Infix? {
      ScanInfix(s, t);
      TreeScan(s.left, t);
      TreeScan(s.right, ScanTokens(ScanTokens(t, Yield(s.left)), OperatorLexemes(s.op)));
    } else {
      ScanLeaf(s, t);
    }
  }

  lemma InnerFits(s: Syn)
    requires Fits(s)
    ensures s.Paren? ==> Fits(s.inner)
    ensures s.Neg? ==> Fits(s.operand) && IsPrimary(s.operand)
    ensures s.Infix? ==> Fits(s.left) && Fits(s.right) && IsInfixOp(s.op) && (s.op == MUL ==> IsPrimary(s.right))
  {
  }

  lemma ScanKind(t: Tally, l: Lexeme)
    ensures ScanTokens(t, [l]) == AfterToken(t, l.kind)
  {
    assert ScanTokens(AfterToken(t, l.kind), [l][1..]) == AfterToken(t, l.kind);
  }

  lemma ScanParen(s: Syn, t: Tally)
    requires s.Paren?
    ensures ScanTokens(t, Yield(s)) == AfterToken(ScanTokens(AfterToken(t, OPAREN), Yield(s.inner)), CPAREN)
    ensures Products(Tree(s)) == Products(Tree(s.inner))
  {
    var before, after := [Lexeme(OPAREN, "")], [Lexeme(CPAREN, "")];
    ScanTokensConcat(t, before + Yield(s.inner), after);
    ScanTokensConcat(t, before, Yield(s.inner));
    ScanKind(t, before[0]);
    ScanKind(ScanTokens(AfterToken(t, OPAREN), Yield(s.inner)), after[0]);
  }

  lemma ScanSign(s: Syn, t: Tally)
    requires s.Neg?
    ensures ScanTokens(t, Yield(s)) == ScanTokens(AfterToken(t, MINUS), Yield(s.operand))
    ensures Products(Tree(s)) == Products(Tree(s.operand))
  {
    ScanTokensConcat(t, [Lexeme(MINUS, "")], Yield(s.operand));
    ScanKind(t, Lexeme(MINUS, ""));
  }

  lemma ScanInfix(s: Syn, t: Tally)
    requires s.Infix?
    ensures ScanTokens(t, Yield(s))
        == ScanTokens(ScanTokens(ScanTokens(t, Yield(s.left)), OperatorLexemes(s.op)), Yield(s.right))
    ensures Products(Tree(s)) == Products(Tree(s.left)) + Products(Tree(s.right)) + if s.op == MUL then 1 else 0
    ensures IsInfixOp(s.op) && ScanTokens(t, Yield(s.left)).place.Done? ==>
      ScanTokens(ScanTokens(t, Yield(s.left)), OperatorLexemes(s.op))
      == if s.op == MUL then ScanTokens(t, Yield(s.left)) else ScanTokens(t, Yield(s.left)).(place := Fresh)
  {
    var os := OperatorLexemes(s.op);
    ScanTokensConcat(t, Yield(s.left) + os, Yield(s.right));
    ScanTokensConcat(t, Yield(s.left), os);
    if os != [] {
      ScanKind(ScanTokens(t, Yield(s.left)), os[0]);
    }
  }

  lemma ScanLeaf(s: Syn, t: Tally)
    requires s.Num? || s.Var? || s.Pat?
    ensures ScanTokens(t, Yield(s)).place.Done?
    ensures ScanTokens(t, Yield(s)).(place := Fresh) == t.(products := Joined(t) + Products(Tree(s)), place := Fresh)
  {
    var head := Yield(s)[0];
    ScanTokensConcat(t, [head], Yield(s)[1..]);
    assert Yield(s) == [head] + Yield(s)[1..];
    ScanKind(t, head);
    if s.Pat? && s.pvarType.Some? {
      ScanKind(AfterToken(t, head.kind), Yield(s)[1]);
      assert Yield(s)[1..] == [Yield(s)[1]];
    }
  }

  // ---------- The tally of printed text ----------

  predicate BadFactor(l: Expr, r: Expr) {
    IsSigned(r) || (r.Integer? && EndsInInteger(l, PREC_MUL, true))
  }

  /** How many products lose their place in the text. */
  function Flaws(e: Expr): nat {
    match e
    case Unop(o) => Flaws(o)
    case Binop(op, l, r, _) => Flaws(l) + Flaws(r) + if op == MUL && BadFactor(l, r) then 1 else 0
    case _ => 0
  }

  /** How many unary minuses stand over something printed with a sign. */
  function Doubles(e: Expr): nat {
    match e
    case Unop(o) => Doubles(o) + if IsSigned(o) then 1 else 0
    case Binop(_, l, r, _) => Doubles(l) + Doubles(r)
    case _ => 0
  }

  predicate Bare(e: Expr, prev: nat, left: bool) {
    e.Binop? && !ShowsParens(e, prev, left)
  }

  /** The text of `e` shows a product with the operand before it. */
  function Joins(t: Tally, e: Expr): nat {
    if t.place.Done? && !IsSigned(e) && !(e.Integer? && t.place.digit) then 1 else 0
  }

  function Repeats(t: Tally, e: Expr): nat {
    if t.place.Signed? && IsSigned(e) then 1 else 0
  }

  /** What printing `e` does to the tally t. */
  predicate PrintsTo(e: Expr, prev: nat, left: bool, t: Tally, t': Tally) {
    && t'.place == Done(EndsInInteger(e, prev, left)) && t'.depth == t.depth && t'.low == t.low
    && t'.products + Flaws(e) == t.products + Products(e) + Joins(t, e)
    && (Flaws(e) == 0 && !(t.place.Done? && IsSigned(e)) ==> t'.doubles == t.doubles + Doubles(e) + Repeats(t, e))
  }

  predicate CanPrint(e: Expr, prev: nat, left: bool, t: Tally) {
    Writable(e) && t.low <= t.depth && (!t.place.Fresh? ==> !Bare(e, prev, left))
  }

  lemma {:induction false} PrintScan(e: Expr, prev: nat, left: bool, t: Tally)
    requires CanPrint(e, prev, left, t)
    ensures PrintsTo(e, prev, left, t, ScanText(t, Print(e, prev, left)))
    decreases e
  {
    hide *;
    if e.Unop? {
      ScanUnop(e, prev, left, t);
      UnopPrints(e, prev, left, t);
      PrintScan(e.operand1, PREC_NEG, false, AfterChar(t, '-'));
      UnopTally(e, prev, left, t, ScanText(t, Print(e, prev, left)));
    } else if e.Binop? {
      BinopScan(e, prev, left, t);
    } else {
      LeafScan(e, prev, left, t);
    }
  }

  lemma ScanUnop(e: Expr, prev: nat, left: bool, t: Tally)
    requires e.Unop? && CanPrint(e, prev, left, t)
    ensures Writable(e) && Writable(e.operand1)
    ensures ScanText(t, Print(e, prev, left)) == ScanText(AfterChar(t, '-'), Print(e.operand1, PREC_NEG, false))
  {
    ScanTextConcat(t, "-", Print(e.operand1, PREC_NEG, false));
    ScanOne(t, '-');
  }

  lemma UnopPrints(e: Expr, prev: nat, left: bool, t: Tally)
    requires e.Unop? && CanPrint(e, prev, left, t)
    ensures CanPrint(e.operand1, PREC_NEG, false, AfterChar(t, '-'))
  {
  }

  lemma UnopTally(e: Expr, prev: nat, left: bool, t: Tally, t': Tally)
    requires e.Unop? && CanPrint(e, prev, left, t) && PrintsTo(e.operand1, PREC_NEG, false, AfterChar(t, '-'), t')
    ensures PrintsTo(e, prev, left, t, t')
  {
    hide Writable, ShowsParens;
  }

  lemma LeafScan(e: Expr, prev: nat, left: bool, t: Tally)
    requires !e.Unop? && !e.Binop? && CanPrint(e, prev, left, t)
    ensures PrintsTo(e, prev, left, t, ScanText(t, Print(e, prev, left)))
  {
    if e.Integer? {
      IntegerScan(e.value, t);
    } else {
      assert e.text == [e.text[0]];
      ScanOne(t, e.text[0]);
    }
  }

  lemma IntegerScan(n: int, t: Tally)
    ensures ScanText(t, IntegerText(n))
      == if n < 0 then AfterToken(AfterToken(t, MINUS), INT)
         else if t.place == Done(true) then t
         else AfterToken(t, INT)
  {
    hide ScanText, AfterToken, Decimal;
    if n < 0 {
      DecimalIsNumber(-n);
      ScanTextConcat(t, "-", Decimal(-n));
      ScanOne(t, '-');
      ScanDigits(AfterToken(t, MINUS), Decimal(-n));
      MinusIsNoDigit(t);
    } else {
      DecimalIsNumber(n);
      ScanDigits(t, Decimal(n));
    }
  }

  lemma MinusIsNoDigit(t: Tally)
    ensures AfterToken(t, MINUS).place != Done(true)
  {
  }

  /** The tally before the left operand, after it, before the right operand and after it. */
  function Opening(e: Expr, prev: nat, left: bool, t: Tally): Tally
    requires e.Binop?
  {
    if ShowsParens(e, prev, left) then AfterToken(t, OPAREN) else t
  }

  function AfterOperator(op: Operator, t: Tally): Tally {
    if op == MUL then t else t.(place := Fresh)
  }

  function Closing(e: Expr, prev: nat, left: bool, t: Tally): Tally
    requires e.Binop?
  {
    if ShowsParens(e, prev, left) then AfterToken(t, CPAREN) else t
  }

  lemma BinopScan(e: Expr, prev: nat, left: bool, t: Tally)
    requires e.Binop? && CanPrint(e, prev, left, t)
    ensures PrintsTo(e, prev, left, t, ScanText(t, Print(e, prev, left)))
    decreases e, 0
  {
    hide *;
    var p := Precedence(e.op);
    var t0 := Opening(e, prev, left, t);
    BinopPrints(e, prev, left, t);
    PrintScan(e.operand1, p, true, t0);
    var t1 := ScanText(t0, Print(e.operand1, p, true));
    var t2 := AfterOperator(e.op, t1);
    RightPrints(e, prev, left, t0, t1);
    PrintScan(e.operand2, p, false, t2);
    var t3 := ScanText(t2, Print(e.operand2, p, false));
    ScanBinop(e, prev, left, t, t1);
    BinopTally(e, prev, left, t, t1, t3);
  }

  lemma BinopPrints(e: Expr, prev: nat, left: bool, t: Tally)
    requires e.Binop? && CanPrint(e, prev, left, t)
    ensures Writable(e) && Writable(e.operand1) && Writable(e.operand2) && Opening(e, prev, left, t).place.Fresh?
    ensures CanPrint(e.operand1, Precedence(e.op), true, Opening(e, prev, left, t))
  {
  }

  lemma RightPrints(e: Expr, prev: nat, left: bool, t0: Tally, t1: Tally)
    requires e.Binop? && Writable(e) && t0.low <= t0.depth && PrintsTo(e.operand1, Precedence(e.op), true, t0, t1)
    ensures CanPrint(e.operand2, Precedence(e.op), false, AfterOperator(e.op, t1)) && t1.place.Done?
  {
    hide Flaws, Doubles, Products, EndsInInteger;
  }

  lemma ScanBinop(e: Expr, prev: nat, left: bool, t: Tally, t1: Tally)
    requires e.Binop? && Writable(e) && Writable(e.operand1) && Writable(e.operand2)
    requires t1 == ScanText(Opening(e, prev, left, t), Print(e.operand1, Precedence(e.op), true)) && t1.place.Done?
    ensures ScanText(t, Print(e, prev, left))
         == Closing(e, prev, left, ScanText(AfterOperator(e.op, t1), Print(e.operand2, Precedence(e.op), false)))
  {
    var p := Precedence(e.op);
    var a, o, b := Print(e.operand1, p, true), OperatorText(e.op), Print(e.operand2, p, false);
    hide Precedence, Opening, Closing, AfterOperator, ScanText, OperatorText, AfterChar, AfterToken;
    ScanParens(e, prev, left, t, a + o + b);
    ScanTextConcat(Opening(e, prev, left, t), a + o, b);
    ScanTextConcat(Opening(e, prev, left, t), a, o);
    ScanOperator(t1, e.op);
  }

  lemma ScanParens(e: Expr, prev: nat, left: bool, t: Tally, text: string)
    requires e.Binop?
    ensures ScanText(t, if ShowsParens(e, prev, left) then "(" + text + ")" else text)
         == Closing(e, prev, left, ScanText(Opening(e, prev, left, t), text))
  {
    ScanTextConcat(t, "(" + text, ")");
    ScanTextConcat(t, "(", text);
    ScanOne(t, '(');
    ScanOne(ScanText(AfterToken(t, OPAREN), text), ')');
  }

  lemma ScanOperator(t: Tally, op: Operator)
    requires t.place.Done? && IsPlainOp(op)
    ensures ScanText(t, OperatorText(op)) == AfterOperator(op, t)
  {
    if op != MUL {
      ScanOne(t, OperatorText(op)[0]);
      assert OperatorText(op) == [OperatorText(op)[0]];
    }
  }

  lemma BinopTally(e: Expr, prev: nat, left: bool, t: Tally, t1: Tally, t3: Tally)
    requires e.Binop? && CanPrint(e, prev, left, t)
    requires PrintsTo(e.operand1, Precedence(e.op), true, Opening(e, prev, left, t), t1)
    requires PrintsTo(e.operand2, Precedence(e.op), false, AfterOperator(e.op, t1), t3)
    ensures PrintsTo(e, prev, left, t, Closing(e, prev, left, t3))
  {
    hide ShowsParens, Precedence, Writable;
    BinopCounts(e, prev, left);
    ProductPrecedence();
  }

  lemma ProductPrecedence()
    ensures Precedence(MUL) == PREC_MUL
  {
  }

  lemma BinopCounts(e: Expr, prev: nat, left: bool)
    requires e.Binop?
    ensures Flaws(e)
      == Flaws(e.operand1) + Flaws(e.operand2) + if e.op == MUL && BadFactor(e.operand1, e.operand2) then 1 else 0
    ensures Doubles(e) == Doubles(e.operand1) + Doubles(e.operand2)
    ensures Products(e) == Products(e.operand1) + Products(e.operand2) + if e.op == MUL then 1 else 0
    ensures EndsInInteger(e, prev, left)
        == (!ShowsParens(e, prev, left) && EndsInInteger(e.operand2, Precedence(e.op), false))
  {
    hide ShowsParens, Precedence, BadFactor;
  }

  // ---------- Exactly the printable trees come back ----------

  predicate NoSignedConstant(e: Expr) {
    match e
    case Unop(o) => !IsConstant(o) && NoSignedConstant(o)
    case Binop(_, l, r, _) => NoSignedConstant(l) && NoSignedConstant(r)
    case _ => true
  }

  lemma {:induction false} TreeSigns(s: Syn)
    ensures NoSignedConstant(Tree(s))
  {
    match s {
      case Paren(inner) => TreeSigns(inner);
      case Neg(operand) => TreeSigns(operand);
      case Infix(_, l, r) => TreeSigns(l); TreeSigns(r);
      case _ =>
    }
  }

  lemma {:induction false} SameShape(v: Expr, e: Expr)
    requires Shape(v) == Shape(e)
    ensures Products(v) == Products(e) && NoSignedConstant(v) == NoSignedConstant(e) && Clean(v) == Clean(e)
    ensures IsConstant(v) == IsConstant(e)
    decreases v
  {
    match v {
      case Unop(o) => SameShape(o, e.operand1);
      case Binop(_, l, r, _) => SameShape(l, e.operand1); SameShape(r, e.operand2);
      case _ => NotInner(v, e);
    }
  }

  lemma NotInner(v: Expr, e: Expr)
    requires !v.Unop? && !v.Binop? && Shape(v) == Shape(e)
    ensures v == e
  {
  }

  lemma {:induction false} WritableIsClean(e: Expr)
    requires Writable(e)
    ensures Clean(e)
  {
    match e {
      case Unop(o) => WritableIsClean(o);
      case Binop(_, l, r, _) => WritableIsClean(l); WritableIsClean(r);
      case _ =>
    }
  }

  lemma {:induction false} PrintableWhen(e: Expr)
    requires Writable(e) && Flaws(e) == 0 && Doubles(e) == 0 && NoSignedConstant(e)
    ensures Printable(e)
  {
    match e {
      case Unop(o) => PrintableWhen(o);
      case Binop(op, l, r, _) => PrintableWhen(l); PrintableWhen(r);
      case _ =>
    }
  }

  // ---------- From the printed text to its syntax tree ----------

  function Lexemes(toks: seq<Token>): seq<Lexeme> {
    seq(|toks|, k requires 0 <= k < |toks| => Lexeme(toks[k].kind, toks[k].text))
  }

  lemma LexemesAre(toks: seq<Token>, ls: seq<Lexeme>)
    requires |toks| == |ls| && HasAt(toks, 0, ls)
    ensures Lexemes(toks) == ls
  {
    forall k | 0 <= k < |ls| ensures Lexemes(toks)[k] == ls[k] {
      assert ls[k] == Lexeme(toks[0 + k].kind, toks[0 + k].text);
    }
  }

  predicate PlainLexeme(l: Lexeme) {
    match l.kind
    case VAR => |l.text| == 1
    case INT => true
    case PLUS => l.text == ""
    case MINUS => l.text == ""
    case EQUALS => l.text == ""
    case OPAREN => l.text == ""
    case CPAREN => l.text == ""
    case _ => false
  }

  lemma {:induction false} PlainLexemes(cmds: Commands, t: string)
    requires PlainText(t)
    ensures forall l :: l in LexemesOf(cmds, Itemize(t)) ==> PlainLexeme(l)
    decreases |t|
  {
    if t != "" {
      var n := if IsDigit(t[0]) then SkipDigits(t, 0) else 1;
      PlainLexemes(cmds, t[n..]);
      FirstPlain(cmds, t, n);
    }
  }

  lemma FirstPlain(cmds: Commands, t: string, n: nat)
    requires PlainText(t) && t != "" && n == if IsDigit(t[0]) then SkipDigits(t, 0) else 1
    ensures n <= |t| && LexemesOf(cmds, Itemize(t)) != [] && PlainLexeme(LexemesOf(cmds, Itemize(t))[0])
    ensures LexemesOf(cmds, Itemize(t)) == [LexemesOf(cmds, Itemize(t))[0]] + LexemesOf(cmds, Itemize(t[n..]))
  {
  }

  lemma LexemeTokens(toks: seq<Token>)
    requires forall l :: l in Lexemes(toks) ==> PlainLexeme(l)
    ensures PlainTokens(toks)
    ensures forall k :: 0 <= k < |toks| ==> toks[k].kind != SPACE && (IsStop(toks[k].kind) ==> toks[k].kind == CPAREN)
  {
    forall k | 0 <= k < |toks|
      ensures PlainToken(toks[k]) && toks[k].kind != SPACE && (IsStop(toks[k].kind) ==> toks[k].kind == CPAREN)
    {
      assert Lexemes(toks)[k] in Lexemes(toks);
    }
  }

  /** Printed text, its tokens and their tally. */
  lemma PrintedTokens(cmds: Commands, e: Expr) returns (toks: seq<Token>)
    requires Writable(e)
    ensures LexMath(cmds, PrintText(e)).Some? && LexMath(cmds, PrintText(e)).value.tokens == toks
    ensures PlainTokens(toks) && NotSpaces(toks) == toks
    ensures forall k :: 0 <= k < |toks| && IsStop(toks[k].kind) ==> toks[k].kind == CPAREN
    ensures PrintsTo(e, 0, false, ZERO, ScanTokens(ZERO, Lexemes(toks)))
  {
    hide *;
    PrintTextIs(e);
    PrintIsPlain(e, 0, false);
    var text := PrintText(e);
    ItemizeText(text);
    ItemizeFits(cmds, text);
    LexWellFormed(cmds, Itemize(text));
    toks := ItemsTokens(cmds, Itemize(text), 0, 0);
    TokensAre(cmds, Itemize(text), 0, 0);
    LexemesAre(toks, LexemesOf(cmds, Itemize(text)));
    PlainLexemes(cmds, text);
    LexemeTokens(toks);
    NoSpaces(toks);
    ZeroPrints(e);
    PrintScan(e, 0, false, ZERO);
    ZeroFresh();
    ScansAgree(cmds, ZERO, text);
  }

  lemma ZeroPrints(e: Expr)
    requires Writable(e)
    ensures CanPrint(e, 0, false, ZERO)
  {
  }

  lemma ZeroFresh()
    ensures ZERO.place != Done(true)
  {
  }

  lemma {:induction false} DepthIs(toks: seq<Token>, j: nat)
    requires j <= |toks|
    ensures ScanTokens(ZERO, Lexemes(toks)[..j]).depth == Excess(toks, 0, j)
  {
    var ls := Lexemes(toks);
    if j > 0 {
      DepthIs(toks, j - 1);
      assert ls[..j] == ls[..j - 1] + [ls[j - 1]];
      ScanTokensConcat(ZERO, ls[..j - 1], [ls[j - 1]]);
      ScanKind(ScanTokens(ZERO, ls[..j - 1]), ls[j - 1]);
    }
  }

  /** A reading of balanced tokens is a reading of all of them. */
  lemma AllRead(toks: seq<Token>, j: nat, v: Expr) returns (s: Syn)
    requires ExprRead(toks, 0, j, v, NONE) && EndsAt(toks, j, NONE)
    requires forall k :: 0 <= k < |toks| && IsStop(toks[k].kind) ==> toks[k].kind == CPAREN
    requires ScanTokens(ZERO, Lexemes(toks)).depth == 0 && ScanTokens(ZERO, Lexemes(toks)).low == 0
    ensures Fits(s) && Tree(s) == v && Yield(s) == Lexemes(toks)
  {
    hide Fits, Tree, Yield, HasAt, Excess, ScanTokens;
    var ls := Lexemes(toks);
    DepthIs(toks, |toks|);
    assert ls[..|toks|] == ls;
    s :| Above(s, NONE) && ReadAs(toks, 0, j, v, s);
    YieldAt(toks, s);
    if j < |toks| {
      NoneEnds(toks, j);
      TreeScan(s, ZERO);
      ScanTokensConcat(ZERO, Yield(s), ls[j..]);
      StopScan(ScanTokens(ZERO, Yield(s)), ls[j..]);
    }
  }

  lemma YieldAt(toks: seq<Token>, s: Syn)
    requires HasAt(toks, 0, Yield(s))
    ensures |Yield(s)| <= |toks| && Lexemes(toks) == Yield(s) + Lexemes(toks)[|Yield(s)|..]
  {
    hide Yield;
    forall k | 0 <= k < |Yield(s)| ensures Yield(s)[k] == Lexemes(toks)[k] {
      assert Yield(s)[k] == Lexeme(toks[0 + k].kind, toks[0 + k].text);
    }
  }

  lemma NoneEnds(toks: seq<Token>, j: nat)
    requires j < |toks| && EndsAt(toks, j, NONE)
    ensures IsStop(toks[j].kind)
  {
  }

  lemma StopScan(t: Tally, ls: seq<Lexeme>)
    requires ls != [] && ls[0].kind == CPAREN && t.depth == 0
    ensures ScanTokens(t, ls).low < 0
  {
    LowFalls(AfterToken(t, CPAREN), ls[1..]);
  }

  lemma ParseTextMeans(cmds: Commands, text: string, toks: seq<Token>) returns (j: nat)
    requires LexMath(cmds, text).Some? && LexMath(cmds, text).value.tokens == toks && NotSpaces(toks) == toks
    requires ParseText(cmds, text).Some?
    ensures ParseExpr(toks, 0, NONE) == Parsed(ParseText(cmds, text).value, j)
  {
    hide LexMath, ParseExpr, NotSpaces;
    j := ParseExpr(toks, 0, NONE).next;
  }

  lemma OnlyPrintable(cmds: Commands, e: Expr)
    requires Writable(e)
    requires ParseText(cmds, PrintText(e)).Some? && Shape(ParseText(cmds, PrintText(e)).value) == Shape(e)
    ensures Printable(e)
  {
    hide LexMath, ParseText, ParseExpr, PrintText, NotSpaces, Shape, Products, Clean, Writable, Printable,
      ScanTokens, Lexemes,
      Yield, Tree, Fits, ExprRead, EndsAt, PlainTokens, Flaws, Doubles, NoSignedConstant, IsSigned, EndsInInteger;
    var v := ParseText(cmds, PrintText(e)).value;
    var toks := PrintedTokens(cmds, e);
    var j := ParseTextMeans(cmds, PrintText(e), toks);
    SameShape(v, e);
    WritableIsClean(e);
    ExprComplete(toks, 0, NONE);
    var s := AllRead(toks, j, v);
    TreeScan(s, ZERO);
    TreeSigns(s);
    PrintableWhen(e);
  }

  /** The parser undoes the printer for the printable trees and for no others. */
  lemma RoundTripExactly(cmds: Commands, e: Expr)
    requires Writable(e)
    ensures Printable(e)
      <==> ParseText(cmds, PrintText(e)).Some? && Shape(ParseText(cmds, PrintText(e)).value) == Shape(e)
  {
    hide *;
    if Printable(e) {
      ParserUndoesPrinter(cmds, e);
    } else if ParseText(cmds, PrintText(e)).Some? && Shape(ParseText(cmds, PrintText(e)).value) == Shape(e) {
      OnlyPrintable(cmds, e);
    }
  }

  /**
   * Trees that come back as something else: a(-b) prints as a-b, 2 times 3 as 23, minus 5 as -5, minus minus a as
   * --a.
   */
  lemma LostTrees()
    ensures !Printable(Bin(MUL, Variable("a"), Unop(Variable("b"))))
    ensures PrintText(Bin(MUL, Variable("a"), Unop(Variable("b")))) == PrintText(Bin(SUB, Variable("a"), Variable("b")))
    ensures !Printable(Bin(MUL, Integer(2), Integer(3)))
        && PrintText(Bin(MUL, Integer(2), Integer(3))) == PrintText(Integer(23))
    ensures !Printable(Unop(Integer(5))) && PrintText(Unop(Integer(5))) == PrintText(Integer(-5))
    ensures !Printable(Unop(Unop(Variable("a")))) && PrintText(Unop(Unop(Variable("a")))) == "--a"
  {
    assert Decimal(23) == Decimal(2) + [DigitChar(3)];
  }
}
