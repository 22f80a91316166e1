/**
 * The parser reads nothing but the grammar: whatever it returns without an error, and without a
 * parenthesis left open at the end of the input, is the expression of a fitting syntax tree over
 * exactly the tokens it consumed (`parsePrimary` and `parseExpr` of
 * examples/data-objects/math/src/mathExpr.ts).
 */
module MathComplete {
  import opened MathExpr
  import opened MathLexer
  import opened MathParser
  import opened MathGrammar
  import opened Options

  predicate Clean(e: Expr) {
    match e
    case Error => false
    case Unop(o) => Clean(o)
    case Binop(_, l, r, _) => Clean(l) && Clean(r)
    case _ => true
  }

  function Weight(kind: TokenType): int {
    if kind == OPAREN then 1 else if kind == CPAREN then -1 else 0
  }

  /** How many more parentheses the tokens from i to j open than they close. */
  function Excess(toks: seq<Token>, i: nat, j: nat): int
    requires j <= |toks|
    decreases j
  {
    if j <= i then 0 else Excess(toks, i, j - 1) + Weight(toks[j - 1].kind)
  }

  lemma {:induction false} ExcessSplit(toks: seq<Token>, i: nat, k: nat, j: nat)
    requires i <= k <= j <= |toks|
    ensures Excess(toks, i, j) == Excess(toks, i, k) + Excess(toks, k, j)
    decreases j
  {
    if k < j {
      ExcessSplit(toks, i, k, j - 1);
    }
  }

  /**
   * Names are single letters (symbols like \alpha are left out of the grammar), and only names and numbers have a
   * text.
   */
  predicate PlainToken(tok: Token) {
    && (tok.kind == VAR ==> |tok.text| == 1)
    && (tok.kind != VAR && tok.kind != INT && tok.kind != PATTERNVAR && tok.kind != PATTERNTYPE ==> tok.text == "")
  }

  predicate PlainTokens(toks: seq<Token>) {
    forall k :: 0 <= k < |toks| ==> PlainToken(toks[k])
  }

  predicate ReadAs(toks: seq<Token>, i: nat, j: nat, e: Expr, s: Syn) {
    Fits(s) && HasAt(toks, i, Yield(s)) && j == i + |Yield(s)| && Tree(s) == e
  }

  /** The input ended inside parentheses. */
  predicate Unclosed(toks: seq<Token>, i: nat, j: nat) {
    i <= j == |toks| && Excess(toks, i, j) > 0
  }

  ghost predicate PrimaryRead(toks: seq<Token>, i: nat, j: nat, e: Expr) {
    Unclosed(toks, i, j) || exists s :: IsPrimary(s) && ReadAs(toks, i, j, e, s)
  }

  ghost predicate ExprRead(toks: seq<Token>, i: nat, j: nat, e: Expr, prec: nat) {
    Unclosed(toks, i, j) || exists s :: Above(s, prec) && ReadAs(toks, i, j, e, s)
  }

  // ---------- Balance ----------

  lemma {:induction false} BalancedTree(toks: seq<Token>, i: nat, s: Syn)
    requires HasAt(toks, i, Yield(s))
    ensures i + |Yield(s)| <= |toks| && Excess(toks, i, i + |Yield(s)|) == 0
    decreases s
  {
    hide *;
    HasAtBound(toks, i, Yield(s));
    if s.Paren? {
      ParenTokens(toks, i, s);
      BalancedTree(toks, i + 1, s.inner);
      ParensBalance(toks, i, i + 1 + |Yield(s.inner)|);
    } else if s.Neg? {
      NegTokens(toks, i, s);
      BalancedTree(toks, i + 1, s.operand);
      FirstWeightless(toks, i, i + |Yield(s)|);
    } else if s.Infix? {
      SplitTokens(toks, i, s);
      var j := i + |Yield(s.left)|;
      var k := j + |OperatorLexemes(s.op)|;
      BalancedTree(toks, i, s.left);
      BalancedTree(toks, k, s.right);
      ExcessSplit(toks, i, j, k);
      ExcessSplit(toks, i, k, k + |Yield(s.right)|);
    } else {
      LeafBalance(toks, i, s);
    }
  }

  lemma ParensBalance(toks: seq<Token>, i: nat, j: nat)
    requires i < j < |toks| && toks[i].kind == OPAREN && toks[j].kind == CPAREN
    ensures Excess(toks, i, j + 1) == Excess(toks, i + 1, j)
  {
    ExcessSplit(toks, i, i + 1, j);
    assert Excess(toks, i, i + 1) == Excess(toks, i, i) + 1;
  }

  lemma FirstWeightless(toks: seq<Token>, i: nat, j: nat)
    requires i < j <= |toks| && Weight(toks[i].kind) == 0
    ensures Excess(toks, i, j) == Excess(toks, i + 1, j)
  {
    ExcessSplit(toks, i, i + 1, j);
    assert Excess(toks, i, i + 1) == Excess(toks, i, i);
  }

  lemma NegTokens(toks: seq<Token>, i: nat, s: Syn)
    requires s.Neg? && HasAt(toks, i, Yield(s))
    ensures |Yield(s)| == 1 + |Yield(s.operand)| && HasAt(toks, i + 1, Yield(s.operand))
    ensures i < |toks| && toks[i].kind == MINUS && Weight(toks[i].kind) == 0
  {
    HasAtConcat(toks, i, [Lexeme(MINUS, "")], Yield(s.operand));
    HeadAt(toks, i, [Lexeme(MINUS, "")]);
  }

  lemma SplitTokens(toks: seq<Token>, i: nat, s: Syn)
    requires s.Infix? && HasAt(toks, i, Yield(s))
    ensures
      var j := i + |Yield(s.left)|;
      var k := j + |OperatorLexemes(s.op)|;
      && HasAt(toks, i, Yield(s.left)) && HasAt(toks, k, Yield(s.right)) && j <= k <= |toks|
      && i + |Yield(s)| == k + |Yield(s.right)| && Excess(toks, j, k) == 0
  {
    hide HasAt, Excess;
    var j := i + |Yield(s.left)|;
    var os := OperatorLexemes(s.op);
    InfixYield(s);
    HasAtConcat(toks, i, Yield(s.left) + os, Yield(s.right));
    HasAtConcat(toks, i, Yield(s.left), os);
    OperatorBalance(toks, j, s.op);
  }

  lemma OperatorBalance(toks: seq<Token>, j: nat, op: Operator)
    requires HasAt(toks, j, OperatorLexemes(op))
    ensures j + |OperatorLexemes(op)| <= |toks| && Excess(toks, j, j + |OperatorLexemes(op)|) == 0
  {
    if OperatorLexemes(op) != [] {
      HeadAt(toks, j, OperatorLexemes(op));
    }
  }

  lemma LeafBalance(toks: seq<Token>, i: nat, s: Syn)
    requires (s.Num? || s.Var? || s.Pat?) && HasAt(toks, i, Yield(s))
    ensures i + |Yield(s)| <= |toks| && Excess(toks, i, i + |Yield(s)|) == 0
  {
    HeadAt(toks, i, Yield(s));
    if s.Pat? && s.pvarType.Some? {
      assert Yield(s)[1] == Lexeme(toks[i + 1].kind, toks[i + 1].text);
      assert Excess(toks, i, i + 2) == Excess(toks, i, i + 1);
    }
    assert Excess(toks, i, i + 1) == Excess(toks, i, i);
  }

  lemma ReadBalance(toks: seq<Token>, i: nat, j: nat, e: Expr, prec: nat)
    requires ExprRead(toks, i, j, e, prec)
    ensures i <= j <= |toks| && Excess(toks, i, j) >= 0
  {
    hide Fits, Tree, Above;
    if !Unclosed(toks, i, j) {
      var s :| Above(s, prec) && ReadAs(toks, i, j, e, s);
      BalancedTree(toks, i, s);
    }
  }

  // ---------- Completeness ----------

  lemma {:induction false} PrimaryComplete(toks: seq<Token>, i: nat)
    requires i <= |toks| && PlainTokens(toks)
    requires ParsePrimary(toks, i).Parsed? && Clean(ParsePrimary(toks, i).e)
    ensures PrimaryRead(toks, i, ParsePrimary(toks, i).next, ParsePrimary(toks, i).e)
    decreases |toks| - i, 0
  {
    hide ParseExpr, PrimaryRead, ExprRead;
    var r := ParsePrimary(toks, i);
    if toks[i].kind == OPAREN {
      var inner := ParseExpr(toks, i + 1, NONE);
      MarkClean(inner.e);
      ExprComplete(toks, i + 1, NONE);
      ParenRead(toks, i, inner.next, inner.e);
    } else {
      LeafRead(toks, i);
    }
  }

  lemma MarkClean(e: Expr)
    ensures Clean(MarkParenthesized(e)) == Clean(e)
  {
  }

  lemma ParenRead(toks: seq<Token>, i: nat, j: nat, e: Expr)
    requires i < j <= |toks| && toks[i].kind == OPAREN && PlainTokens(toks) && ExprRead(toks, i + 1, j, e, NONE)
    ensures j == |toks| ==> PrimaryRead(toks, i, j, e)
    ensures j < |toks| && toks[j].kind == CPAREN ==> PrimaryRead(toks, i, j + 1, MarkParenthesized(e))
  {
    hide Fits, Tree, HasAt, Above, Excess, Yield;
    ReadBalance(toks, i + 1, j, e, NONE);
    if j == |toks| {
      OpenFirst(toks, i, j);
      assert Unclosed(toks, i, j);
    } else if toks[j].kind == CPAREN {
      var s :| Above(s, NONE) && ReadAs(toks, i + 1, j, e, s);
      ParenAround(toks, i, j, s);
      assert ReadAs(toks, i, j + 1, MarkParenthesized(e), Paren(s));
      assert IsPrimary(Paren(s));
    }
  }

  lemma OpenFirst(toks: seq<Token>, i: nat, j: nat)
    requires i < j <= |toks| && toks[i].kind == OPAREN
    ensures Excess(toks, i, j) == 1 + Excess(toks, i + 1, j)
  {
    ExcessSplit(toks, i, i + 1, j);
    assert Excess(toks, i, i + 1) == Excess(toks, i, i) + 1;
  }

  lemma ParenAround(toks: seq<Token>, i: nat, j: nat, s: Syn)
    requires i < j < |toks| && toks[i].kind == OPAREN && toks[j].kind == CPAREN
    requires toks[i].text == "" && toks[j].text == ""
    requires Fits(s) && HasAt(toks, i + 1, Yield(s)) && j == i + 1 + |Yield(s)|
    ensures Fits(Paren(s)) && HasAt(toks, i, Yield(Paren(s))) && |Yield(Paren(s))| == |Yield(s)| + 2
    ensures Tree(Paren(s)) == MarkParenthesized(Tree(s))
  {
    HasAtConcat(toks, i, [Lexeme(OPAREN, "")] + Yield(s), [Lexeme(CPAREN, "")]);
    HasAtConcat(toks, i, [Lexeme(OPAREN, "")], Yield(s));
  }

  lemma LeafRead(toks: seq<Token>, i: nat)
    requires i < |toks| && PlainTokens(toks) && toks[i].kind != OPAREN
    requires ParsePrimary(toks, i).Parsed? && Clean(ParsePrimary(toks, i).e)
    ensures PrimaryRead(toks, i, ParsePrimary(toks, i).next, ParsePrimary(toks, i).e)
  {
    hide Unclosed, PrimaryRead;
    if toks[i].kind == INT {
      LeafIs(toks, i, Syn.Num(toks[i].text));
    } else if toks[i].kind == VAR {
      LeafIs(toks, i, Syn.Var(LetterOf(toks, i)));
    } else if toks[i].kind == PATTERNVAR {
      LeafIs(toks, i, Pat(toks[i].text, true, TypeAfter(toks, i + 1)));
    }
  }

  function LetterOf(toks: seq<Token>, i: nat): (c: char)
    requires i < |toks| && PlainTokens(toks) && toks[i].kind == VAR
    ensures toks[i].text == [c]
  {
    toks[i].text[0]
  }

  function TypeAfter(toks: seq<Token>, i: nat): Option<string> {
    if i < |toks| && toks[i].kind == PATTERNTYPE then Some(toks[i].text) else None
  }

  predicate IsLeafOf(s: Syn, toks: seq<Token>, i: nat)
    requires i < |toks|
  {
    match toks[i].kind
    case INT => s == Syn.Num(toks[i].text)
    case VAR => s.Var? && [s.c] == toks[i].text
    case PATTERNVAR => s == Pat(toks[i].text, true, TypeAfter(toks, i + 1))
    case _ => false
  }

  lemma LeafIs(toks: seq<Token>, i: nat, s: Syn)
    requires i < |toks| && IsLeafOf(s, toks, i)
    ensures ParsePrimary(toks, i).Parsed?
    ensures PrimaryRead(toks, i, ParsePrimary(toks, i).next, ParsePrimary(toks, i).e)
  {
    hide Unclosed;
    assert IsPrimary(s) && ReadAs(toks, i, ParsePrimary(toks, i).next, ParsePrimary(toks, i).e, s);
  }

  /** The operand read so far, when the next token cannot belong to its last operator. */
  predicate Operand(toks: seq<Token>, i: nat, j: nat, left: Expr, prec: nat, s: Syn) {
    Above(s, prec) && ReadAs(toks, i, j, left, s) && (s.Infix? ==> EndsAt(toks, j, Precedence(s.op)))
  }

  ghost predicate OperandRead(toks: seq<Token>, i: nat, j: nat, left: Expr, prec: nat) {
    Unclosed(toks, i, j) || exists s :: Operand(toks, i, j, left, prec, s)
  }

  lemma {:induction false} ExprComplete(toks: seq<Token>, i: nat, prec: nat)
    requires i <= |toks| && PlainTokens(toks)
    requires ParseExpr(toks, i, prec).Parsed? && Clean(ParseExpr(toks, i, prec).e)
    ensures ExprRead(toks, i, ParseExpr(toks, i, prec).next, ParseExpr(toks, i, prec).e, prec)
    ensures EndsAt(toks, ParseExpr(toks, i, prec).next, prec)
    decreases |toks| - i, 1
  {
    hide ParsePrimary, ParseLoop, ExprRead, PrimaryRead, OperandRead, EndsAt, PlainTokens, Negated;
    var usub := i < |toks| && toks[i].kind == MINUS;
    var first := ParsePrimary(toks, if usub then i + 1 else i);
    var left := if usub then Negated(first.e) else first.e;
    var j := first.next;
    ExprIsLoop(toks, i, prec, usub, left, j);
    LoopClean(toks, j, left, prec);
    NegatedClean(first.e);
    NothingAtEnd(toks);
    PrimaryComplete(toks, if usub then i + 1 else i);
    FirstOperand(toks, i, j, first.e, prec, usub);
    LoopComplete(toks, i, j, left, prec);
    LoopEnds(toks, j, left, prec);
  }

  lemma NothingAtEnd(toks: seq<Token>)
    ensures ParsePrimary(toks, |toks|).Parsed? && !Clean(ParsePrimary(toks, |toks|).e)
  {
  }

  lemma ExprIsLoop(toks: seq<Token>, i: nat, prec: nat, usub: bool, left: Expr, j: nat)
    requires i <= |toks| && ParseExpr(toks, i, prec).Parsed? && usub == (i < |toks| && toks[i].kind == MINUS)
    requires ParsePrimary(toks, if usub then i + 1 else i).Parsed? ==>
      ParsePrimary(toks, if usub then i + 1 else i).next == j
      && left == if usub then Negated(ParsePrimary(toks, i + 1).e) else ParsePrimary(toks, i).e
    ensures ParsePrimary(toks, if usub then i + 1 else i).Parsed? && i <= j <= |toks| && (i < |toks| ==> i < j)
    ensures ParseExpr(toks, i, prec) == ParseLoop(toks, j, left, prec)
  {
    hide ParsePrimary, Negated;
  }

  lemma {:induction false} LoopClean(toks: seq<Token>, j: nat, left: Expr, prec: nat)
    requires j <= |toks| && ParseLoop(toks, j, left, prec).Parsed? && Clean(ParseLoop(toks, j, left, prec).e)
    ensures Clean(left)
    decreases |toks| - j
  {
    hide ParseExpr, Precedence;
    if j < |toks| && !IsStop(toks[j].kind) {
      var op := InfixOf(toks[j].kind).value;
      if prec < Precedence(op) {
        var r := ParseExpr(toks, if StartsPrimary(toks[j].kind) then j else j + 1, Precedence(op));
        LoopClean(toks, r.next, Bin(op, left, r.e), prec);
      }
    }
  }

  lemma {:induction false} LoopEnds(toks: seq<Token>, j: nat, left: Expr, prec: nat)
    requires j <= |toks| && ParseLoop(toks, j, left, prec).Parsed?
    ensures EndsAt(toks, ParseLoop(toks, j, left, prec).next, prec)
    decreases |toks| - j
  {
    hide ParseExpr, Precedence;
    if j < |toks| && !IsStop(toks[j].kind) {
      var op := InfixOf(toks[j].kind).value;
      if prec < Precedence(op) {
        var r := ParseExpr(toks, if StartsPrimary(toks[j].kind) then j else j + 1, Precedence(op));
        LoopEnds(toks, r.next, Bin(op, left, r.e), prec);
      }
    }
  }

  lemma NegatedClean(e: Expr)
    ensures Clean(Negated(e)) ==> Clean(e)
  {
  }

  lemma FirstOperand(toks: seq<Token>, i: nat, j: nat, e: Expr, prec: nat, usub: bool)
    requires i <= |toks| && PlainTokens(toks) && usub == (i < |toks| && toks[i].kind == MINUS)
    requires PrimaryRead(toks, if usub then i + 1 else i, j, e)
    ensures OperandRead(toks, i, j, if usub then Negated(e) else e, prec)
  {
    hide Fits, Tree, HasAt, Above, Excess, Yield, EndsAt, Negated;
    var k := if usub then i + 1 else i;
    if Unclosed(toks, k, j) {
      if usub {
        FirstWeightless(toks, i, j);
      }
    } else {
      var s :| IsPrimary(s) && ReadAs(toks, k, j, e, s);
      if usub {
        NegAround(toks, i, s);
        assert Operand(toks, i, j, Negated(e), prec, Neg(s)) by {
          NegAbove(s, prec);
        }
      } else {
        PrimaryAbove(s, prec);
        assert Operand(toks, i, j, e, prec, s);
      }
    }
  }

  lemma NegAbove(s: Syn, prec: nat) ensures Above(Neg(s), prec) {}

  lemma PrimaryAbove(s: Syn, prec: nat) requires IsPrimary(s) ensures Above(s, prec) {}

  lemma NegAround(toks: seq<Token>, i: nat, s: Syn)
    requires i < |toks| && toks[i].kind == MINUS && toks[i].text == "" && IsPrimary(s) && Fits(s)
        && HasAt(toks, i + 1, Yield(s))
    ensures Fits(Neg(s)) && HasAt(toks, i, Yield(Neg(s))) && |Yield(Neg(s))| == 1 + |Yield(s)|
    ensures Tree(Neg(s)) == Negated(Tree(s))
  {
    HasAtConcat(toks, i, [Lexeme(MINUS, "")], Yield(s));
  }

  lemma {:induction false} LoopComplete(toks: seq<Token>, i: nat, j: nat, left: Expr, prec: nat)
    requires i <= j <= |toks| && PlainTokens(toks) && OperandRead(toks, i, j, left, prec)
    requires i < |toks| ==> i < j
    requires ParseLoop(toks, j, left, prec).Parsed? && Clean(ParseLoop(toks, j, left, prec).e)
    ensures ExprRead(toks, i, ParseLoop(toks, j, left, prec).next, ParseLoop(toks, j, left, prec).e, prec)
    decreases |toks| - j, 2
  {
    hide ParseExpr, Precedence, ExprRead, OperandRead, PlainTokens, EndsAt;
    if j == |toks| || IsStop(toks[j].kind) {
      OperandIsRead(toks, i, j, left, prec);
    } else {
      var op := InfixOf(toks[j].kind).value;
      if prec < Precedence(op) {
        var k := if StartsPrimary(toks[j].kind) then j else j + 1;
        var r := ParseExpr(toks, k, Precedence(op));
        LoopClean(toks, r.next, Bin(op, left, r.e), prec);
        ExprComplete(toks, k, Precedence(op));
        NextOperand(toks, i, j, k, r.next, op, left, r.e, prec);
        LoopComplete(toks, i, r.next, Bin(op, left, r.e), prec);
      } else {
        OperandIsRead(toks, i, j, left, prec);
      }
    }
  }

  lemma OperandIsRead(toks: seq<Token>, i: nat, j: nat, left: Expr, prec: nat)
    requires OperandRead(toks, i, j, left, prec)
    ensures ExprRead(toks, i, j, left, prec)
  {
    hide Fits, Tree, HasAt, Above, Excess, Yield, EndsAt;
    if !Unclosed(toks, i, j) {
      var s :| Operand(toks, i, j, left, prec, s);
      assert Above(s, prec) && ReadAs(toks, i, j, left, s);
    }
  }

  lemma NextOperand(toks: seq<Token>, i: nat, j: nat, k: nat, m: nat, op: Operator, left: Expr, right: Expr, prec: nat)
    requires PlainTokens(toks) && OperandRead(toks, i, j, left, prec) && ExprRead(toks, k, m, right, Precedence(op))
    requires OperatorAt(toks, j, k, op) && prec < Precedence(op) && EndsAt(toks, m, Precedence(op))
    ensures OperandRead(toks, i, m, Bin(op, left, right), prec)
  {
    hide Fits, Tree, HasAt, Above, Yield, EndsAt, Precedence, InfixOf, PlainTokens, Excess;
    OperatorWeightless(toks, j, k, op);
    ReadBalance(toks, k, m, right, Precedence(op));
    var s :| Operand(toks, i, j, left, prec, s);
    BalancedTree(toks, i, s);
    if Unclosed(toks, k, m) {
      ExcessSplit(toks, i, j, k);
      ExcessSplit(toks, i, k, m);
    } else {
      var t :| Above(t, Precedence(op)) && ReadAs(toks, k, m, right, t);
      InfixAround(toks, i, j, k, m, op, s, t, prec);
      assert Operand(toks, i, m, Bin(op, left, right), prec, Infix(op, s, t));
    }
  }

  lemma OperatorWeightless(toks: seq<Token>, j: nat, k: nat, op: Operator)
    requires OperatorAt(toks, j, k, op)
    ensures j <= k <= |toks| && Excess(toks, j, k) == 0
  {
    if k == j + 1 {
      assert Excess(toks, j, k) == Excess(toks, j, j) + Weight(toks[j].kind);
    }
  }

  lemma InfixAround(toks: seq<Token>, i: nat, j: nat, k: nat, m: nat, op: Operator, s: Syn, t: Syn, prec: nat)
    requires PlainTokens(toks) && OperatorAt(toks, j, k, op) && prec < Precedence(op)
    requires Fits(s) && HasAt(toks, i, Yield(s)) && j == i + |Yield(s)|
        && (s.Infix? ==> EndsAt(toks, j, Precedence(s.op)))
    requires Fits(t) && HasAt(toks, k, Yield(t)) && m == k + |Yield(t)| && Above(t, Precedence(op))
    ensures Fits(Infix(op, s, t)) && Above(Infix(op, s, t), prec)
    ensures HasAt(toks, i, Yield(Infix(op, s, t))) && m == i + |Yield(Infix(op, s, t))|
    ensures Tree(Infix(op, s, t)) == Bin(op, Tree(s), Tree(t))
  {
    hide HasAt, Yield, Fits;
    RightFits(toks, j, k, op, t);
    InfixFits(toks, j, k, op, s, t);
    InfixYield(Infix(op, s, t));
    OperatorHas(toks, j, k, op);
    HasAtConcat(toks, i, Yield(s), OperatorLexemes(op));
    HasAtConcat(toks, i, Yield(s) + OperatorLexemes(op), Yield(t));
  }

  lemma OperatorHas(toks: seq<Token>, j: nat, k: nat, op: Operator)
    requires PlainTokens(toks) && OperatorAt(toks, j, k, op)
    ensures HasAt(toks, j, OperatorLexemes(op)) && k == j + |OperatorLexemes(op)| && IsInfixOp(op)
  {
    hide HasAt, Precedence, PlainTokens;
    PlainAt(toks, j);
    if StartsPrimary(toks[j].kind) {
      NoLexeme(toks, j);
    } else {
      OneLexeme(toks, j);
    }
  }

  lemma PlainAt(toks: seq<Token>, j: nat)
    requires PlainTokens(toks) && j < |toks|
    ensures PlainToken(toks[j])
  {
  }

  lemma NoLexeme(toks: seq<Token>, j: nat)
    requires j <= |toks|
    ensures HasAt(toks, j, [])
  {
  }

  lemma OneLexeme(toks: seq<Token>, j: nat)
    requires j < |toks|
    ensures HasAt(toks, j, [Lexeme(toks[j].kind, toks[j].text)])
  {
  }

  lemma InfixFits(toks: seq<Token>, j: nat, k: nat, op: Operator, s: Syn, t: Syn)
    requires Fits(s) && Fits(t) && OperatorAt(toks, j, k, op) && IsInfixOp(op)
    requires s.Infix? ==> EndsAt(toks, j, Precedence(s.op))
    requires Above(t, Precedence(op)) && (op == MUL ==> IsPrimary(t))
    ensures Fits(Infix(op, s, t))
  {
    hide Precedence;
  }

  /**
   * A right factor is a primary: nothing binds tighter than a product, and a minus sign would be read as a
   * difference.
   */
  lemma RightFits(toks: seq<Token>, j: nat, k: nat, op: Operator, t: Syn)
    requires OperatorAt(toks, j, k, op) && Fits(t) && HasAt(toks, k, Yield(t)) && Above(t, Precedence(op))
    ensures IsInfixOp(op) && (op == MUL ==> IsPrimary(t))
  {
    if op == MUL && t.Neg? {
      HeadAt(toks, k, Yield(t));
    }
  }
}
