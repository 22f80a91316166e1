/**
 * The printer shows no parentheses that are not called for: what it prints is the shortest text that means the tree
 * and keeps its marks (`exprToTex` of examples/data-objects/math/src/mathExpr.ts, in input mode).
 */
module MathShortest {
  import opened MathExpr
  import opened MathParser
  import opened MathGrammar
  import opened MathText
  import opened MathPrinter

  /** Every number has digits. */
  predicate Spelled(s: Syn) {
    match s
    case Num(digits) => digits != ""
    case Paren(inner) => Spelled(inner)
    case Neg(operand) => Spelled(operand)
    case Infix(_, l, r) => Spelled(l) && Spelled(r)
    case _ => true
  }

  /** Every operation that is marked in e is marked in t. */
  predicate KeepsMarks(t: Expr, e: Expr) {
    match e
    case Binop(_, l, r, par) =>
      t.Binop? && (par ==> t.parenthesized) && KeepsMarks(t.operand1, l) && KeepsMarks(t.operand2, r)
    case Unop(o) => t.Unop? && KeepsMarks(t.operand1, o)
    case _ => true
  }

  predicate Unmarked(e: Expr) {
    match e
    case Binop(_, l, r, par) => !par && Unmarked(l) && Unmarked(r)
    case Unop(o) => Unmarked(o)
    case _ => true
  }

  /** A syntax tree of the grammar that means e and keeps its marks. */
  predicate Spells(s: Syn, e: Expr) {
    Fits(s) && Spelled(s) && Shape(Tree(s)) == Shape(e) && KeepsMarks(Tree(s), e)
  }

  lemma {:induction false} DecimalIsShortest(digits: string)
    requires digits != ""
    ensures |Decimal(ParseDigits(digits))| <= |digits|
  {
    var front := digits[..|digits| - 1];
    var n := ParseDigits(digits);
    assert DigitValue(digits[|digits| - 1]) < 10;
    if n >= 10 {
      assert n / 10 == ParseDigits(front) && front != "";
      DecimalIsShortest(front);
    }
  }

  /** The operation without its own mark, and what its context adds to it. */
  lemma PrintedInside(e: Expr, prev: nat, left: bool)
    requires Writable(e)
    ensures !e.Binop? ==> Print(e, prev, left) == Print(e, NONE, false)
    ensures e.Binop? ==>
      var text := Print(e.(parenthesized := false), NONE, false);
      && Print(e, prev, left) == (if ShowsParens(e, prev, left) then "(" + text + ")" else text)
      && text == Print(e.operand1, Precedence(e.op), true) + OperatorText(e.op)
                 + Print(e.operand2, Precedence(e.op), false)
  {
  }

  /** A marked operation is printed in parentheses, wherever it stands. */
  lemma MarkedInParens(e: Expr, prev: nat, left: bool)
    requires Writable(e) && e.Binop? && e.parenthesized
    ensures Print(e, prev, left) == "(" + Print(e.(parenthesized := false), NONE, false) + ")"
  {
    hide Print;
    PrintedInside(e, prev, left);
  }

  /** A tree that may stand without parentheses where the printer puts none is at least as long. */
  lemma {:induction false} ShortestAt(s: Syn, e: Expr, prev: nat, left: bool)
    requires Writable(e) && Spells(s, e)
    requires s.Infix? && e.Binop? ==> !ShowsParens(e, prev, left)
    ensures |Print(e, prev, left)| <= |Text(s)|
    decreases s
  {
    hide Print, Text, Decimal, Precedence, Spells, ShowsParens;
    match s {
      case Num(digits) => NumberSpells(digits, e, prev, left);
      case Paren(inner) =>
        var e' := if e.Binop? then e.(parenthesized := false) else e;
        ParenSpells(s, e);
        PrintedInside(e, prev, left);
        ShortestAt(inner, e', NONE, false);
      case Neg(operand) =>
        if e.Integer? {
          NegativeSpells(s, e, prev, left);
          ShortestAt(operand, Integer(-e.value), NONE, false);
        } else {
          NegSpells(s, e, prev, left);
          ShortestAt(operand, e.operand1, PREC_NEG, false);
        }
      case Infix(op, l, r) =>
        InfixSpells(s, e);
        PrintedInside(e, prev, left);
        ShortestAt(l, e.operand1, Precedence(op), true);
        ShortestAt(r, e.operand2, Precedence(op), false);
      case _ => LeafSpells(s, e, prev, left);
    }
  }

  lemma NumberSpells(digits: string, e: Expr, prev: nat, left: bool)
    requires Writable(e) && Spells(Syn.Num(digits), e)
    ensures |Print(e, prev, left)| <= |Text(Syn.Num(digits))|
  {
    hide Decimal;
    DecimalIsShortest(digits);
  }

  lemma LeafSpells(s: Syn, e: Expr, prev: nat, left: bool)
    requires (s.Var? || s.Pat?) && Writable(e) && Spells(s, e)
    ensures |Print(e, prev, left)| <= |Text(s)|
  {
  }

  lemma ParenSpells(s: Syn, e: Expr)
    requires s.Paren? && Writable(e) && Spells(s, e)
    ensures var e' := if e.Binop? then e.(parenthesized := false) else e;
      && Writable(e') && Spells(s.inner, e') && |Text(s)| == 2 + |Text(s.inner)|
      && (e'.Binop? ==> !ShowsParens(e', NONE, false))
  {
  }

  lemma NegativeSpells(s: Syn, e: Expr, prev: nat, left: bool)
    requires s.Neg? && e.Integer? && Spells(s, e)
    ensures Spells(s.operand, Integer(-e.value)) && |Text(s)| == 1 + |Text(s.operand)|
    ensures |Print(e, prev, left)| <= 1 + |Print(Integer(-e.value), NONE, false)|
  {
    hide Decimal;
  }

  lemma NegSpells(s: Syn, e: Expr, prev: nat, left: bool)
    requires s.Neg? && Writable(e) && !e.Integer? && Spells(s, e)
    ensures e.Unop? && Spells(s.operand, e.operand1) && !s.operand.Infix?
    ensures |Text(s)| == 1 + |Text(s.operand)|
    ensures |Print(e, prev, left)| == 1 + |Print(e.operand1, PREC_NEG, false)|
  {
  }

  lemma InfixSpells(s: Syn, e: Expr)
    requires s.Infix? && Writable(e) && Spells(s, e)
    ensures e.Binop? && e.op == s.op && Spells(s.left, e.operand1) && Spells(s.right, e.operand2)
    ensures |Text(s)| == |Text(s.left)| + |OperatorText(s.op)| + |Text(s.right)|
    ensures s.left.Infix? && e.operand1.Binop? ==> !ShowsParens(e.operand1, Precedence(s.op), true)
    ensures s.right.Infix? && e.operand2.Binop? ==> !ShowsParens(e.operand2, Precedence(s.op), false)
  {
    hide Precedence;
  }

  /** The printed text is one of those texts. */
  lemma {:induction false} PrintedKeepsMarks(e: Expr, prev: nat, left: bool)
    requires Writable(e) && Printable(e)
    ensures KeepsMarks(Tree(SynOf(e, prev, left)), e)
  {
    hide Decimal, Precedence, EndsInInteger;
    match e {
      case Unop(o) =>
        PrintedKeepsMarks(o, PREC_NEG, false);
        TreeOfPrinted(o, PREC_NEG, false);
      case Binop(op, l, r, _) =>
        PrintedKeepsMarks(l, Precedence(op), true);
        PrintedKeepsMarks(r, Precedence(op), false);
      case _ =>
    }
  }

  lemma {:induction false} PrintedIsSpelled(e: Expr, prev: nat, left: bool)
    requires Writable(e)
    ensures Spelled(SynOf(e, prev, left))
  {
    match e {
      case Integer(n) => DecimalIsNumber(if n < 0 then -n else n);
      case Unop(o) => PrintedIsSpelled(o, PREC_NEG, false);
      case Binop(op, l, r, _) =>
        PrintedIsSpelled(l, Precedence(op), true);
        PrintedIsSpelled(r, Precedence(op), false);
      case _ =>
    }
  }

  /** Whatever the tree, no text that means it and keeps its marks is shorter than what is printed. */
  lemma PrintedIsShortest(e: Expr, s: Syn)
    requires Writable(e) && Spells(s, e)
    ensures |PrintText(e)| <= |Text(s)|
  {
    hide Print, Text, Spells;
    NotMarked(s, e);
    ShortestAt(s, e, NONE, false);
  }

  lemma NotMarked(s: Syn, e: Expr)
    requires Spells(s, e)
    ensures s.Infix? && e.Binop? ==> !ShowsParens(e, NONE, false)
  {
  }

  lemma {:induction false} UnmarkedIsKept(t: Expr, e: Expr)
    requires Shape(t) == Shape(e) && Unmarked(e)
    ensures KeepsMarks(t, e)
  {
    match e {
      case Unop(o) => UnmarkedIsKept(t.operand1, o);
      case Binop(_, l, r, _) =>
        UnmarkedIsKept(t.operand1, l);
        UnmarkedIsKept(t.operand2, r);
      case _ =>
    }
  }

  /** Without marks every parenthesis is one that the grammar calls for. */
  lemma MinimalParentheses(e: Expr, s: Syn)
    requires Writable(e) && Unmarked(e) && Fits(s) && Spelled(s) && Shape(Tree(s)) == Shape(e)
    ensures |PrintText(e)| <= |Text(s)|
  {
    hide Print, Text, Tree, Fits, Shape;
    UnmarkedIsKept(Tree(s), e);
    PrintedIsShortest(e, s);
  }

  /** And for the trees that can be read back the printed text is one of them. */
  lemma PrintedSpells(e: Expr)
    requires Writable(e) && Printable(e)
    ensures Spells(SynOf(e, NONE, false), e) && PrintText(e) == Text(SynOf(e, NONE, false))
  {
    hide SynOf, Print, Text, Tree, Fits, Shape, KeepsMarks, Printable, Writable;
    PrintIsText(e, NONE, false);
    PrintableFits(e, NONE, false);
    PrintedIsSpelled(e, NONE, false);
    TreeOfPrinted(e, NONE, false);
    PrintedKeepsMarks(e, NONE, false);
  }
}
