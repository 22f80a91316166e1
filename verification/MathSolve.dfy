/**
 * Solving a linear equation: `solve` normalizes it, reads off its coefficients and simplifies the quotient that is
 * its root (`solve`, `extractCoefficients`, `isSumOfProducts`, `isTerm` and `isFactor` of
 * examples/data-objects/math/src/mathExpr.ts).
 */
module MathSolve {
  import opened MathExpr
  import opened MathMatch
  import opened MathPoly
  import opened MathRules
  import opened MathSimplify
  import opened Options

  // ---------- Sums of products ----------

  predicate LooksLikeFactor(e: Expr) {
    || e.Variable? || IsConstant(e)
    || (e.Unop? && LooksLikeFactor(e.operand1))
    || (e.Binop? && e.op == EXP && e.operand1.Variable? && e.operand2.Integer?)
  }

  /** A product nests to the left, and a power is no term. */
  predicate LooksLikeTerm(e: Expr) {
    match e
    case Binop(op, l, r, _) => op == MUL && LooksLikeTerm(l) && LooksLikeFactor(r)
    case Unop(o) => LooksLikeTerm(o)
    case _ => LooksLikeFactor(e)
  }

  /** None where the source calls itself with the same argument and never returns: on a minus sign or a fraction. */
  function SumOfProducts(e: Expr): Option<bool> {
    match e
    case Binop(op, l, r, _) =>
      if op == EQ || op == ADD || op == SUB then
        if SumOfProducts(l) == Some(true) then SumOfProducts(r) else SumOfProducts(l)
      else if op == MUL then Some(LooksLikeTerm(e))
      else if op == EXP then Some(LooksLikeFactor(e))
      else None
    case Unop(_) => None
    case _ => Some(LooksLikeFactor(e))
  }

  // ---------- solve ----------

  /** `extractCoefficients` fills the gaps below the highest slot with 0 and leaves empty slots undefined. */
  function Slot(poly: Poly, d: int): Option<Expr> {
    if d in poly then poly[d]
    else if exists i :: i in poly && i > d then Some(Integer(0))
    else None
  }

  /**
   * `Answered` carries the equation that is handed back and the rules that fired on the way; `NoAnswer` stands for
   * `undefined`, and `Lost` for a run that does not end or leaves the model (see `MathSimplify.Outcome`).
   */
  datatype Answer = Answered(equation: Expr, fired: seq<Firing>) | NoAnswer | Lost

  /** The quotient that `solve` hands to the simplifier. */
  function RootTree(c0: Expr, c1: Expr): (r: Expr)
    requires IsConstant(c0) && IsConstant(c1)
    ensures Plain(r)
  {
    assert Plain(Mul(Integer(-1), c0));
    Div(Mul(Integer(-1), c0), c1)
  }

  function SolvePoly(poly: Poly, v: string, fired: seq<Firing>, fuel: nat): Answer
    requires ConstantPoly(poly)
  {
    var c0, c1 := Slot(poly, 0), Slot(poly, 1);
    if c0.None? then Answered(Eq(V(v), Integer(0)), fired)
    else if c1.None? || MatchConstant(Integer(0), c1.value) then NoAnswer
    else
      match Simplify(RootTree(c0.value, c1.value), fuel)
      case Done(root, _, more) => Answered(Eq(V(v), root), fired + more)
      case _ => Lost
  }

  function Solve(eqn: Expr, v: string, fuel: nat): Answer
    requires Plain(eqn)
  {
    match Normalize(eqn, fuel)
    case Done(norm, _, fired) => (
      match SumOfProducts(norm)
      case Some(true) => SolvePoly(Accum(norm, v, map[], false), v, fired, fuel)
      case Some(false) => Answered(norm, fired)
      case None => Lost)
    case _ => Lost
  }

  // ---------- The root ----------

  function RootOf(c0: real, c1: real): real
    requires c1 != 0.0
  {
    -c0 / c1
  }

  lemma LinearRoot(c0: real, c1: real, x: real)
    requires c1 != 0.0
    ensures Monomial(c0, x, 0) + Monomial(c1, x, 1) == 0.0 <==> x == RootOf(c0, c1)
  {
    var r := -c0 / c1;
    assert r * c1 == -c0;
    assert RPow(x, 1) == x * RPow(x, 0) == x;
    if c0 + c1 * x == 0.0 {
      assert (x - r) * c1 == 0.0;
    }
  }

  lemma ValueOfLinear(poly: Poly, x: real)
    requires ConstantPoly(poly)
    ensures MathPoly.Value(poly, 2, x) == Monomial(Coefficient(poly, 0), x, 0) + Monomial(Coefficient(poly, 1), x, 1)
  {
    hide Monomial, Coefficient;
    assert MathPoly.Value(poly, 2, x) == MathPoly.Value(poly, 1, x) + Monomial(Coefficient(poly, 1), x, 1);
    assert MathPoly.Value(poly, 1, x) == MathPoly.Value(poly, 0, x) + Monomial(Coefficient(poly, 0), x, 0);
  }

  lemma RootTreeValue(c0: Expr, c1: Expr, n0: real, n1: real, val: Valuation)
    requires IsConstant(c0) && IsConstant(c1) && ConstantValue(c0) == Num(n0) && ConstantValue(c1) == Num(n1)
        && n1 != 0.0
    ensures Eval(RootTree(c0, c1), val) == Num(RootOf(n0, n1))
  {
    assert Eval(Integer(-1), val) == Num(-1.0) && Eval(c0, val) == Num(n0) && Eval(c1, val) == Num(n1);
    assert Eval(Mul(Integer(-1), c0), val) == Num(-1.0 * n0);
    assert -1.0 * n0 == -n0;
  }

  /** The slots of a polynomial with a slope. */
  lemma Slots(poly: Poly)
    requires IsPoly(poly) && Coefficient(poly, 1) != 0.0
    ensures Slot(poly, 1).Some? && IsConstant(Slot(poly, 1).value) && Plain(Slot(poly, 1).value)
    ensures ConstantValue(Slot(poly, 1).value) == Num(Coefficient(poly, 1))
    ensures !MatchConstant(Integer(0), Slot(poly, 1).value)
    ensures Slot(poly, 0).None? ==> Coefficient(poly, 0) == 0.0
    ensures Slot(poly, 0).Some? ==>
      && IsConstant(Slot(poly, 0).value) && Plain(Slot(poly, 0).value)
      && ConstantValue(Slot(poly, 0).value) == Num(Coefficient(poly, 0))
  {
    assert 1 in poly && 1 > 0;
    var c1 := poly[1].value;
    if MatchConstant(Integer(0), c1) {
      MatchConstantValue(Integer(0), c1);
    }
  }

  /** When the polynomial has a slope, the right side of the answer is the root, whatever the variables stand for. */
  lemma SolvePolyFindsRoot(poly: Poly, v: string, fired: seq<Firing>, fuel: nat, val: Valuation)
    requires IsPoly(poly) && Coefficient(poly, 1) != 0.0
    ensures var a := SolvePoly(poly, v, fired, fuel);
      && !a.NoAnswer?
      && (a.Answered? && AllSafe(a.fired) ==>
            && AllSafe(fired) && a.equation.Binop? && a.equation == Eq(V(v), a.equation.operand2)
            && Eval(a.equation.operand2, val) == Num(RootOf(Coefficient(poly, 0), Coefficient(poly, 1))))
  {
    hide Simplify, AllSafe, Slot, Coefficient, MatchConstant, ConstantValue, Eval, RootOf, IsPoly;
    Slots(poly);
    IsConstantPoly(poly);
    var c0, c1 := Slot(poly, 0), Slot(poly, 1);
    var n0, n1 := Coefficient(poly, 0), Coefficient(poly, 1);
    if c0.None? {
      ZeroRoot(n1, val);
    } else {
      var tree := RootTree(c0.value, c1.value);
      RootTreeValue(c0.value, c1.value, n0, n1, val);
      SimplifyPreserves(tree, fuel);
      var r := Simplify(tree, fuel);
      if r.Done? && AllSafe(fired + r.fired) {
        AllSafeConcat(fired, r.fired);
        assert Preserves(tree, r.result);
      }
    }
  }

  lemma IsConstantPoly(poly: Poly)
    requires IsPoly(poly)
    ensures ConstantPoly(poly)
  {
  }

  lemma ZeroRoot(n1: real, val: Valuation)
    requires n1 != 0.0
    ensures Eval(Integer(0), val) == Num(RootOf(0.0, n1))
  {
  }

  // ---------- Linear equations ----------

  /** Both sides are sums of products in v of degree below 2 that are read exactly. */
  predicate BelowSquares(e: Expr, v: string) {
    && e.Binop? && e.op == EQ && IsSum(e.operand1, v) && IsSum(e.operand2, v)
    && DegreesBelow(e.operand1, v, 2) && DegreesBelow(e.operand2, v, 2)
    && Lossless(e.operand1, v, false) && Lossless(e.operand2, v, true)
  }

  /** And there is a slope. */
  predicate LinearEquation(e: Expr, v: string) {
    BelowSquares(e, v) && Coefficient(Accum(e, v, map[], false), 1) != 0.0
  }

  /** A linear equation is true exactly where v is its root. */
  lemma LinearEquationValue(e: Expr, v: string, val: Valuation)
    requires LinearEquation(e, v)
    ensures IsPoly(Accum(e, v, map[], false))
    ensures var poly := Accum(e, v, map[], false);
      Eval(e, val) == Truth(val(v) == RootOf(Coefficient(poly, 0), Coefficient(poly, 1)))
  {
    var l, r, x := e.operand1, e.operand2, val(v);
    var poly := Accum(e, v, map[], false);
    hide Accum, IsSum, DegreesBelow, At, Lossless, Coefficient, MathPoly.Value, Monomial, RootOf, Eval, IsPoly;
    EquationValue(l, r, v, e.parenthesized, 2, x);
    IsConstantPoly(poly);
    ValueOfLinear(poly, x);
    LinearRoot(Coefficient(poly, 0), Coefficient(poly, 1), x);
    SumValue(l, v, val);
    SumValue(r, v, val);
    EvalEquation(e, val);
  }

  lemma EvalEquation(e: Expr, val: Valuation)
    requires e.Binop? && e.op == EQ
    ensures Eval(e, val) == Operate(EQ, Eval(e.operand1, val), Eval(e.operand2, val))
  {
  }

  lemma EvalVariable(v: string, val: Valuation)
    ensures Eval(V(v), val) == Num(val(v))
  {
  }

  /**
   * Whenever `solve` ends, every rule fired safely and the normalized equation is linear in v, the answer is true
   * exactly where the equation that was given is true, wherever that has a value; and an answer that is not the
   * normalized equation itself is v = root, with a right side that does not depend on any variable.
   */
  lemma SolveAnswers(eqn: Expr, v: string, fuel: nat, val: Valuation)
    requires Plain(eqn) && Solve(eqn, v, fuel).Answered? && AllSafe(Solve(eqn, v, fuel).fired)
    requires LinearEquation(Normalize(eqn, fuel).result, v)
    ensures
      var a := Solve(eqn, v, fuel).equation;
      var norm := Normalize(eqn, fuel).result;
      var poly := Accum(norm, v, map[], false);
      && (Eval(eqn, val) != Undefined ==> Eval(a, val) == Eval(eqn, val))
      && (SumOfProducts(norm) == Some(true) ==>
            && a.Binop? && a == Eq(V(v), a.operand2)
            && Eval(a.operand2, val) == Num(RootOf(Coefficient(poly, 0), Coefficient(poly, 1))))
  {
    var n := Normalize(eqn, fuel);
    var poly := Accum(n.result, v, map[], false);
    hide Normalize, SumOfProducts, SolvePoly, LinearEquation, AllSafe, Eval, Coefficient, RootOf, Accum, IsPoly;
    HasSlope(n.result, v);
    LinearEquationValue(n.result, v, val);
    SolvePolyFindsRoot(poly, v, n.fired, fuel, val);
    NormalizePreserves(eqn, fuel);
    assert AllSafe(n.fired);
    assert Preserves(eqn, n.result);
    if SumOfProducts(n.result) == Some(true) {
      var a := Solve(eqn, v, fuel).equation;
      EvalEquation(a, val);
      EvalVariable(v, val);
    }
  }

  lemma HasSlope(e: Expr, v: string)
    requires LinearEquation(e, v)
    ensures Coefficient(Accum(e, v, map[], false), 1) != 0.0
  {
  }

  /** With a slope there is an answer, unless the run does not end: `solve` never says that there is none. */
  lemma LinearHasAnswer(eqn: Expr, v: string, fuel: nat)
    requires Plain(eqn) && Normalize(eqn, fuel).Done? && LinearEquation(Normalize(eqn, fuel).result, v)
    ensures !Solve(eqn, v, fuel).NoAnswer?
  {
    var n := Normalize(eqn, fuel);
    var poly := Accum(n.result, v, map[], false);
    hide Normalize, SumOfProducts, SolvePoly, LinearEquation, Coefficient, Accum, IsPoly;
    HasSlope(n.result, v);
    LinearEquationValue(n.result, v, _ => 0.0);
    SolvePolyFindsRoot(poly, v, n.fired, fuel, _ => 0.0);
  }
}
