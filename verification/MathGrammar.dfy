/**
 * The grammar behind the parser: concrete syntax trees, the text and the tokens they stand for and
 * the expression they mean. The parser reads every tree that fits the precedences, and whatever it
 * reads without an error is such a tree (`parseExpr` of
 * examples/data-objects/math/src/mathExpr.ts).
 */
module MathGrammar {
  import opened MathExpr
  import opened MathLexer
  import opened MathParser
  import opened Options

  /** `Pat` is a pattern variable: `?name`, `?name:type` or, for one letter, `c:type`. */
  datatype Syn =
    | Num(digits: string)
    | Var(c: char)
    | Pat(name: string, marked: bool, pvarType: Option<string>)
    | Paren(inner: Syn)
    | Neg(operand: Syn)
    | Infix(op: Operator, left: Syn, right: Syn)

  predicate IsInfixOp(op: Operator) {
    op == ADD || op == SUB || op == MUL || op == DIV || op == EQ || op == IMPLIES
  }

  predicate IsPrimary(s: Syn) {
    s.Num? || s.Var? || s.Pat? || s.Paren?
  }

  /** The tree is what the precedences make of its tokens. */
  predicate Fits(s: Syn) {
    match s
    case Num(_) => true
    case Var(_) => true
    case Pat(_, _, _) => true
    case Paren(inner) => Fits(inner)
    case Neg(operand) => IsPrimary(operand) && Fits(operand)
    case Infix(op, l, r) =>
      && IsInfixOp(op) && Fits(l) && Fits(r)
      && (l.Infix? ==> Precedence(op) <= Precedence(l.op))
      && (r.Infix? ==> Precedence(op) < Precedence(r.op))
      && (op == MUL ==> IsPrimary(r))
  }

  function Tree(s: Syn): Expr {
    match s
    case Num(digits) => Integer(ParseDigits(digits))
    case Var(c) => Variable([c])
    case Pat(name, _, t) => PatternVar(name, if t.Some? then TypeNamed(t.value) else Any)
    case Paren(inner) => MarkParenthesized(Tree(inner))
    case Neg(operand) => Negated(Tree(operand))
    case Infix(op, l, r) => Bin(op, Tree(l), Tree(r))
  }

  // ---------- Tokens ----------

  /** A token without its position. */
  datatype Lexeme = Lexeme(kind: TokenType, text: string)

  function OperatorLexemes(op: Operator): seq<Lexeme> {
    match op
    case ADD => [Lexeme(PLUS, "")]
    case SUB => [Lexeme(MINUS, "")]
    case DIV => [Lexeme(SLASH, "")]
    case EQ => [Lexeme(EQUALS, "")]
    case IMPLIES => [Lexeme(IMPLY, "")]
    case _ => []
  }

  function Yield(s: Syn): (r: seq<Lexeme>)
    ensures r != []
  {
    match s
    case Num(digits) => [Lexeme(INT, digits)]
    case Var(c) => [Lexeme(VAR, [c])]
    case Pat(name, _, t) => [Lexeme(PATTERNVAR, name)] + if t.Some? then [Lexeme(PATTERNTYPE, t.value)] else []
    case Paren(inner) => [Lexeme(OPAREN, "")] + Yield(inner) + [Lexeme(CPAREN, "")]
    case Neg(operand) => [Lexeme(MINUS, "")] + Yield(operand)
    case Infix(op, l, r) => Yield(l) + OperatorLexemes(op) + Yield(r)
  }

  predicate HasAt(toks: seq<Token>, i: nat, ls: seq<Lexeme>) {
    i + |ls| <= |toks| && forall k :: 0 <= k < |ls| ==> ls[k] == Lexeme(toks[i + k].kind, toks[i + k].text)
  }

  lemma HasAtConcat(toks: seq<Token>, i: nat, ls: seq<Lexeme>, ms: seq<Lexeme>)
    ensures HasAt(toks, i, ls + ms) <==> HasAt(toks, i, ls) && HasAt(toks, i + |ls|, ms)
  {
    if HasAt(toks, i, ls + ms) {
      assert forall k :: 0 <= k < |ls| ==> ls[k] == (ls + ms)[k];
      assert forall k :: 0 <= k < |ms| ==> ms[k] == (ls + ms)[|ls| + k];
    }
  }

  /** The token at j, if any, cannot extend an operand that was read at precedence p. */
  predicate EndsAt(toks: seq<Token>, j: nat, p: nat) {
    j >= |toks| || IsStop(toks[j].kind)
    || (toks[j].kind != COMMAND && InfixOf(toks[j].kind).Some? && Precedence(InfixOf(toks[j].kind).value) <= p)
  }

  /** The token after a tree must not extend its last operand. */
  predicate Closed(toks: seq<Token>, j: nat, s: Syn) {
    && (s.Infix? ==> EndsAt(toks, j, Precedence(s.op)))
    && (j < |toks| ==> toks[j].kind != PATTERNTYPE)
  }

  predicate Above(s: Syn, prec: nat) {
    s.Infix? ==> prec < Precedence(s.op)
  }

  // ---------- Every fitting tree is read ----------

  lemma HeadAt(toks: seq<Token>, i: nat, ls: seq<Lexeme>)
    requires HasAt(toks, i, ls) && ls != []
    ensures i < |toks| && ls[0] == Lexeme(toks[i].kind, toks[i].text)
  {
    assert ls[0] == Lexeme(toks[i + 0].kind, toks[i + 0].text);
  }

  lemma {:induction false} PrimaryReads(toks: seq<Token>, i: nat, s: Syn)
    requires IsPrimary(s) && Fits(s) && HasAt(toks, i, Yield(s))
    requires i + |Yield(s)| < |toks| ==> toks[i + |Yield(s)|].kind != PATTERNTYPE
    ensures ParsePrimary(toks, i) == Parsed(Tree(s), i + |Yield(s)|)
    decreases s, 0
  {
    if s.Paren? {
      var j := i + 1 + |Yield(s.inner)|;
      assert Fits(s.inner);
      hide Yield, ParseExpr, ParsePrimary, Tree, Fits, HasAt;
      ParenTokens(toks, i, s);
      ParseReads(toks, i + 1, s.inner, NONE);
      ParenPrimary(toks, i, Tree(s.inner), j);
    } else if s.Pat? {
      PatReads(toks, i, s);
    } else {
      HeadAt(toks, i, Yield(s));
    }
  }

  lemma ParenTokens(toks: seq<Token>, i: nat, s: Syn)
    requires s.Paren? && HasAt(toks, i, Yield(s))
    ensures var j := i + 1 + |Yield(s.inner)|;
      && |Yield(s)| == |Yield(s.inner)| + 2
      && HasAt(toks, i + 1, Yield(s.inner)) && j < |toks| && toks[j].kind == CPAREN && toks[i].kind == OPAREN
      && Tree(s) == MarkParenthesized(Tree(s.inner))
  {
    var inner := Yield(s.inner);
    HasAtConcat(toks, i, [Lexeme(OPAREN, "")] + inner, [Lexeme(CPAREN, "")]);
    HasAtConcat(toks, i, [Lexeme(OPAREN, "")], inner);
    HeadAt(toks, i, [Lexeme(OPAREN, "")]);
    HeadAt(toks, i + 1 + |inner|, [Lexeme(CPAREN, "")]);
  }

  lemma ParenPrimary(toks: seq<Token>, i: nat, e: Expr, j: nat)
    requires i < j < |toks| && toks[i].kind == OPAREN && toks[j].kind == CPAREN
    requires ParseExpr(toks, i + 1, NONE) == Parsed(e, j)
    ensures ParsePrimary(toks, i) == Parsed(MarkParenthesized(e), j + 1)
  {
    hide ParseExpr;
  }

  lemma PatReads(toks: seq<Token>, i: nat, s: Syn)
    requires s.Pat? && HasAt(toks, i, Yield(s))
    requires i + |Yield(s)| < |toks| ==> toks[i + |Yield(s)|].kind != PATTERNTYPE
    ensures ParsePrimary(toks, i) == Parsed(Tree(s), i + |Yield(s)|)
  {
    HeadAt(toks, i, Yield(s));
    if s.pvarType.Some? {
      assert Yield(s)[1] == Lexeme(toks[i + 1].kind, toks[i + 1].text);
    }
  }

  /** The tree stands at token i, where it may be read at precedence `prec`. */
  predicate Readable(toks: seq<Token>, i: nat, s: Syn, prec: nat) {
    Fits(s) && HasAt(toks, i, Yield(s)) && Above(s, prec) && Closed(toks, i + |Yield(s)|, s)
  }

  /** Reading the tree leaves the loop with its expression as the operand read so far. */
  predicate ReadsOn(toks: seq<Token>, i: nat, j: nat, e: Expr, prec: nat) {
    i <= j <= |toks| && ParseExpr(toks, i, prec) == ParseLoop(toks, j, e, prec)
  }

  lemma {:induction false} TreeReads(toks: seq<Token>, i: nat, s: Syn, prec: nat)
    requires Readable(toks, i, s, prec)
    ensures ReadsOn(toks, i, i + |Yield(s)|, Tree(s), prec)
    decreases s, 2
  {
    hide *;
    if s.Neg? {
      NegReads(toks, i, s, prec);
    } else if s.Infix? {
      InfixReads(toks, i, s, prec);
    } else {
      AloneIsPrimary(s);
      PrimaryAlone(toks, i, s, prec);
    }
  }

  lemma AloneIsPrimary(s: Syn)
    requires !s.Neg? && !s.Infix?
    ensures IsPrimary(s)
  {
  }

  lemma PrimaryAlone(toks: seq<Token>, i: nat, s: Syn, prec: nat)
    requires IsPrimary(s) && Readable(toks, i, s, prec)
    ensures ReadsOn(toks, i, i + |Yield(s)|, Tree(s), prec)
    decreases s, 1
  {
    hide Fits, Yield, Tree, HasAt, ParsePrimary, Precedence, InfixOf;
    PrimaryNotMinus(toks, i, s, prec);
    PrimaryReads(toks, i, s);
  }

  lemma PrimaryNotMinus(toks: seq<Token>, i: nat, s: Syn, prec: nat)
    requires IsPrimary(s) && Readable(toks, i, s, prec)
    ensures i + |Yield(s)| <= |toks| && toks[i].kind != MINUS
  {
    hide Precedence, InfixOf;
    HeadAt(toks, i, Yield(s));
  }

  lemma NegReads(toks: seq<Token>, i: nat, s: Syn, prec: nat)
    requires s.Neg? && Readable(toks, i, s, prec)
    ensures ReadsOn(toks, i, i + |Yield(s)|, Tree(s), prec)
    decreases s, 1
  {
    hide Fits, Yield, Tree, HasAt, ParsePrimary, Precedence, InfixOf;
    NegReadable(toks, i, s, prec);
    PrimaryReads(toks, i + 1, s.operand);
  }

  lemma NegReadable(toks: seq<Token>, i: nat, s: Syn, prec: nat)
    requires s.Neg? && Readable(toks, i, s, prec)
    ensures
      var operand := s.operand;
      && |Yield(s)| == 1 + |Yield(operand)| && Tree(s) == Negated(Tree(operand))
      && i + |Yield(s)| <= |toks| && toks[i].kind == MINUS
      && IsPrimary(operand) && Fits(operand) && HasAt(toks, i + 1, Yield(operand))
  {
    hide Precedence, InfixOf;
    HasAtConcat(toks, i, [Lexeme(MINUS, "")], Yield(s.operand));
    HeadAt(toks, i, [Lexeme(MINUS, "")]);
  }

  lemma InfixReads(toks: seq<Token>, i: nat, s: Syn, prec: nat)
    requires s.Infix? && Readable(toks, i, s, prec)
    ensures ReadsOn(toks, i, i + |Yield(s)|, Tree(s), prec)
    decreases s, 1
  {
    hide *;
    var j := i + |Yield(s.left)|;
    var k := j + |OperatorLexemes(s.op)|;
    InfixReadable(toks, i, s, prec);
    TreeReads(toks, i, s.left, prec);
    TreeReads(toks, k, s.right, Precedence(s.op));
    LoopReads(toks, i, j, k, k + |Yield(s.right)|, s.op, Tree(s.left), Tree(s.right), prec);
  }

  predicate OperatorAt(toks: seq<Token>, j: nat, k: nat, op: Operator) {
    && j < |toks| && InfixOf(toks[j].kind) == Some(op) && !IsStop(toks[j].kind) && toks[j].kind != COMMAND
    && toks[j].kind != PATTERNTYPE
    && k == if StartsPrimary(toks[j].kind) then j else j + 1
  }

  predicate LoopContext(toks: seq<Token>, i: nat, j: nat, k: nat, m: nat, op: Operator, prec: nat) {
    i <= j < m <= |toks| && OperatorAt(toks, j, k, op) && prec < Precedence(op) && EndsAt(toks, m, Precedence(op))
  }

  lemma InfixReadable(toks: seq<Token>, i: nat, s: Syn, prec: nat)
    requires s.Infix? && Readable(toks, i, s, prec)
    ensures
      var j := i + |Yield(s.left)|;
      var k := j + |OperatorLexemes(s.op)|;
      && Readable(toks, i, s.left, prec) && Readable(toks, k, s.right, Precedence(s.op))
      && LoopContext(toks, i, j, k, k + |Yield(s.right)|, s.op, prec)
      && i + |Yield(s)| == k + |Yield(s.right)|
      && Tree(s) == Bin(s.op, Tree(s.left), Tree(s.right))
  {
    hide *;
    var j := i + |Yield(s.left)|;
    var k := j + |OperatorLexemes(s.op)|;
    ReadableMeans(toks, i, s, prec);
    InfixParts(s);
    InfixTokens(toks, i, s);
    InfixContext(toks, i, j, k, k + |Yield(s.right)|, s, prec);
    MakeReadable(toks, i, s.left, prec);
    MakeReadable(toks, k, s.right, Precedence(s.op));
  }

  lemma ReadableMeans(toks: seq<Token>, i: nat, s: Syn, prec: nat)
    requires Readable(toks, i, s, prec)
    ensures Fits(s) && HasAt(toks, i, Yield(s)) && Above(s, prec) && Closed(toks, i + |Yield(s)|, s)
    ensures i + |Yield(s)| <= |toks|
  {
  }

  lemma MakeReadable(toks: seq<Token>, i: nat, s: Syn, prec: nat)
    requires Fits(s) && HasAt(toks, i, Yield(s)) && Above(s, prec) && Closed(toks, i + |Yield(s)|, s)
    ensures Readable(toks, i, s, prec)
  {
  }

  /** What may stand after the operands of an infix tree. */
  lemma InfixContext(toks: seq<Token>, i: nat, j: nat, k: nat, m: nat, s: Syn, prec: nat)
    requires s.Infix? && Above(s, prec) && Closed(toks, m, s)
    requires s.left.Infix? ==> Precedence(s.op) <= Precedence(s.left.op)
    requires s.right.Infix? ==> Precedence(s.op) < Precedence(s.right.op)
    requires OperatorAt(toks, j, k, s.op) && i <= j < m <= |toks|
    ensures Closed(toks, j, s.left) && Above(s.left, prec)
    ensures Closed(toks, m, s.right) && Above(s.right, Precedence(s.op))
    ensures LoopContext(toks, i, j, k, m, s.op, prec)
  {
    hide Precedence, InfixOf, IsStop, StartsPrimary;
  }

  lemma InfixParts(s: Syn)
    requires s.Infix? && Fits(s)
    ensures Fits(s.left) && Fits(s.right) && Tree(s) == Bin(s.op, Tree(s.left), Tree(s.right))
    ensures s.left.Infix? ==> Precedence(s.op) <= Precedence(s.left.op)
    ensures s.right.Infix? ==> Precedence(s.op) < Precedence(s.right.op)
  {
  }

  /** Where the operator and the operands of an infix tree stand. */
  lemma InfixTokens(toks: seq<Token>, i: nat, s: Syn)
    requires s.Infix? && Fits(s) && HasAt(toks, i, Yield(s))
    ensures
      var j := i + |Yield(s.left)|;
      var k := j + |OperatorLexemes(s.op)|;
      && HasAt(toks, i, Yield(s.left)) && HasAt(toks, k, Yield(s.right))
      && k + |Yield(s.right)| == i + |Yield(s)| <= |toks|
      && OperatorAt(toks, j, k, s.op)
  {
    hide *;
    var os := OperatorLexemes(s.op);
    InfixYield(s);
    HasAtConcat(toks, i, Yield(s.left) + os, Yield(s.right));
    HasAtConcat(toks, i, Yield(s.left), os);
    HasAtBound(toks, i + |Yield(s.left)| + |os|, Yield(s.right));
    OperatorStands(toks, i + |Yield(s.left)|, s);
  }

  lemma InfixYield(s: Syn)
    requires s.Infix?
    ensures Yield(s) == Yield(s.left) + OperatorLexemes(s.op) + Yield(s.right)
  {
  }

  lemma HasAtBound(toks: seq<Token>, i: nat, ls: seq<Lexeme>)
    requires HasAt(toks, i, ls)
    ensures i + |ls| <= |toks|
  {
  }

  lemma OperatorStands(toks: seq<Token>, j: nat, s: Syn)
    requires s.Infix? && Fits(s)
    requires HasAt(toks, j, OperatorLexemes(s.op)) && HasAt(toks, j + |OperatorLexemes(s.op)|, Yield(s.right))
    ensures OperatorAt(toks, j, j + |OperatorLexemes(s.op)|, s.op)
  {
    hide Precedence, Tree, HasAt;
    if s.op == MUL {
      PrimaryStarts(s.right);
      HeadAt(toks, j, Yield(s.right));
    } else {
      HeadAt(toks, j, OperatorLexemes(s.op));
    }
  }

  lemma LoopReads(toks: seq<Token>, i: nat, j: nat, k: nat, m: nat, op: Operator, left: Expr, right: Expr, prec: nat)
    requires LoopContext(toks, i, j, k, m, op, prec)
    requires ReadsOn(toks, i, j, left, prec) && ReadsOn(toks, k, m, right, Precedence(op))
    ensures ReadsOn(toks, i, m, Bin(op, left, right), prec)
  {
    hide ParseExpr, Precedence, InfixOf;
    assert ParseLoop(toks, m, right, Precedence(op)) == Parsed(right, m);
  }

  lemma PrimaryStarts(s: Syn)
    requires IsPrimary(s)
    ensures StartsPrimary(Yield(s)[0].kind)
  {
  }

  /** The parser reads exactly the tree, and gives back its expression. */
  lemma {:induction false} ParseReads(toks: seq<Token>, i: nat, s: Syn, prec: nat)
    requires Fits(s) && HasAt(toks, i, Yield(s)) && Above(s, prec)
    requires EndsAt(toks, i + |Yield(s)|, prec)
    ensures ParseExpr(toks, i, prec) == Parsed(Tree(s), i + |Yield(s)|)
    decreases s, 3
  {
    hide Yield, ParseExpr, Fits, HasAt, Precedence, Tree;
    HasAtBound(toks, i, Yield(s));
    EndsNotType(toks, i + |Yield(s)|, prec);
    assert Readable(toks, i, s, prec);
    TreeReads(toks, i, s, prec);
  }

  lemma EndsNotType(toks: seq<Token>, j: nat, p: nat)
    requires EndsAt(toks, j, p)
    ensures j < |toks| ==> toks[j].kind != PATTERNTYPE
  {
    hide Precedence;
  }

  // ---------- How operators nest ----------

  /** Implication is the loosest, then come equality, sums and products. */
  predicate BindsTighter(op: Operator, than: Operator) {
    match than
    case IMPLIES => op != IMPLIES
    case EQ => op == ADD || op == SUB || op == MUL || op == DIV
    case ADD => op == MUL || op == DIV
    case SUB => op == MUL || op == DIV
    case _ => false
  }

  function Chain(x: Syn, p: Operator, y: Syn, q: Operator, z: Syn): seq<Lexeme> {
    Yield(x) + OperatorLexemes(p) + Yield(y) + OperatorLexemes(q) + Yield(z)
  }

  function Nested(x: Syn, p: Operator, y: Syn, q: Operator, z: Syn): Syn {
    if BindsTighter(q, p) then Infix(p, x, Infix(q, y, z)) else Infix(q, Infix(p, x, y), z)
  }

  lemma NestedFits(x: Syn, p: Operator, y: Syn, q: Operator, z: Syn)
    requires IsPrimary(x) && IsPrimary(y) && IsPrimary(z) && Fits(x) && Fits(y) && Fits(z)
    requires IsInfixOp(p) && IsInfixOp(q)
    ensures Fits(Nested(x, p, y, q, z)) && Above(Nested(x, p, y, q, z), NONE)
  {
    assert Fits(Infix(p, x, y)) && Fits(Infix(q, y, z));
  }

  lemma NestedYield(x: Syn, p: Operator, y: Syn, q: Operator, z: Syn)
    ensures Yield(Nested(x, p, y, q, z)) == Chain(x, p, y, q, z)
  {
    var ps, qs := OperatorLexemes(p), OperatorLexemes(q);
    if BindsTighter(q, p) {
      assert Yield(Infix(q, y, z)) == Yield(y) + qs + Yield(z);
    } else {
      assert Yield(Infix(p, x, y)) == Yield(x) + ps + Yield(y);
    }
  }

  lemma NestedTree(x: Syn, p: Operator, y: Syn, q: Operator, z: Syn)
    ensures Tree(Nested(x, p, y, q, z)) ==
      if BindsTighter(q, p) then Bin(p, Tree(x), Bin(q, Tree(y), Tree(z)))
      else Bin(q, Bin(p, Tree(x), Tree(y)), Tree(z))
  {
  }

  lemma NothingAfter(toks: seq<Token>, prec: nat)
    ensures EndsAt(toks, |toks|, prec)
  {
  }

  /** Of two operators between three operands the second takes the middle one if and only if it binds tighter. */
  lemma OperatorsNest(toks: seq<Token>, x: Syn, p: Operator, y: Syn, q: Operator, z: Syn)
    requires IsPrimary(x) && IsPrimary(y) && IsPrimary(z) && Fits(x) && Fits(y) && Fits(z)
    requires IsInfixOp(p) && IsInfixOp(q)
    requires |toks| == |Chain(x, p, y, q, z)| && HasAt(toks, 0, Chain(x, p, y, q, z))
    ensures ParseExpr(toks, 0, NONE) ==
      Parsed(if BindsTighter(q, p) then Bin(p, Tree(x), Bin(q, Tree(y), Tree(z)))
             else Bin(q, Bin(p, Tree(x), Tree(y)), Tree(z)), |toks|)
  {
    hide *;
    NestedFits(x, p, y, q, z);
    NestedYield(x, p, y, q, z);
    NestedTree(x, p, y, q, z);
    NothingAfter(toks, NONE);
    ParseReads(toks, 0, Nested(x, p, y, q, z), NONE);
  }
}
