/**
 * What `solve` answers, told by the shape of the normalized equation: the root as a number, the equation itself, or
 * nothing (`solve` and `isSumOfProducts` of examples/data-objects/math/src/mathExpr.ts).
 */
module MathRoots {
  import opened MathExpr
  import opened MathConstants
  import opened MathMatch
  import opened MathClash
  import opened MathPoly
  import opened MathRules
  import opened MathSimplify
  import opened MathSettled
  import opened MathSolve
  import opened Options

  // ---------- The simplified quotient is a number ----------

  function MultiplyByOneRules(): seq<Rule> { UnitRules()[..2] }

  function DivideByOneRule(): Rule { UnitRules()[2] }

  function DivideZeroRules(): seq<Rule> { UnitRules()[3..] }

  /** The table behind the unit rules. */
  function OtherRules(): seq<Rule> {
    NegativeConstantRules() + ProductRules() + ConstantFirstRules() + NegativeFactorRules() + MinusRules() + SumRules()
      + LikeTermRules() + FoldRules() + BothSidesRules()
  }

  lemma TableIs()
    ensures SimplifierRules() == MultiplyByOneRules() + ([DivideByOneRule()] + (DivideZeroRules() + OtherRules()))
  {
    hide NegativeConstantRules, ProductRules, ConstantFirstRules, NegativeFactorRules, MinusRules, SumRules,
      LikeTermRules, FoldRules, BothSidesRules;
    assert UnitRules() == MultiplyByOneRules() + [DivideByOneRule()] + DivideZeroRules();
  }

  predicate IsQuotient(e: Expr) {
    e.Binop? && e.op == DIV && !IsConstant(e.operand1) && IsConstant(e.operand2)
  }

  predicate IsByOne(e: Expr) {
    IsQuotient(e) && MatchConstant(Integer(1), e.operand2)
  }

  lemma NegativeConstantClash(e: Expr)
    requires IsQuotient(e)
    ensures AllClash(NegativeConstantRules(), e)
  {
    hide Clash, AllClash;
    OtherRootsClash(NegativeConstantRules(), e);
  }

  lemma ProductClash(e: Expr)
    requires IsQuotient(e)
    ensures AllClash(ProductRules(), e)
  {
    hide Clash, AllClash;
    OtherRootsClash(ProductRules(), e);
  }

  lemma ConstantFirstClash(e: Expr)
    requires IsQuotient(e)
    ensures AllClash(ConstantFirstRules(), e)
  {
    hide Clash, AllClash;
    OtherRootsClash(ConstantFirstRules(), e);
  }

  lemma NegativeFactorClash(e: Expr)
    requires IsQuotient(e)
    ensures AllClash(NegativeFactorRules(), e)
  {
    hide Clash, AllClash;
    OtherRootsClash(NegativeFactorRules(), e);
  }

  lemma MinusClash(e: Expr)
    requires IsQuotient(e)
    ensures AllClash(MinusRules(), e)
  {
    hide Clash, AllClash;
    OtherRootsClash(MinusRules(), e);
  }

  lemma SumClash(e: Expr)
    requires IsQuotient(e)
    ensures AllClash(SumRules(), e)
  {
    hide Clash, AllClash;
    OtherRootsClash(SumRules(), e);
  }

  lemma LikeTermClash(e: Expr)
    requires IsQuotient(e)
    ensures AllClash(LikeTermRules(), e)
  {
    hide Clash, AllClash;
    OtherRootsClash(LikeTermRules(), e);
  }

  lemma FoldClash(e: Expr)
    requires IsQuotient(e)
    ensures AllClash(FoldRules(), e)
  {
    hide Clash, AllClash;
    OtherRootsClash(FoldRules(), e);
  }

  lemma BothSidesClash(e: Expr)
    requires IsQuotient(e)
    ensures AllClash(BothSidesRules(), e)
  {
    hide Clash, AllClash, LinearSide;
    OtherRootsClash(BothSidesRules(), e);
  }

  lemma OthersClash(e: Expr)
    requires IsQuotient(e)
    ensures AllClash(OtherRules(), e)
  {
    hide *;
    NegativeConstantClash(e);
    ProductClash(e);
    ConstantFirstClash(e);
    NegativeFactorClash(e);
    MinusClash(e);
    SumClash(e);
    LikeTermClash(e);
    FoldClash(e);
    BothSidesClash(e);
    OtherRulesAre();
    var rules := NegativeConstantRules() + ProductRules() + ConstantFirstRules();
    ClashConcat(NegativeConstantRules(), ProductRules(), e);
    ClashConcat(NegativeConstantRules() + ProductRules(), ConstantFirstRules(), e);
    ClashConcat(rules, NegativeFactorRules(), e);
    ClashConcat(rules + NegativeFactorRules(), MinusRules(), e);
    ClashConcat(rules + NegativeFactorRules() + MinusRules(), SumRules(), e);
    ClashConcat(rules + NegativeFactorRules() + MinusRules() + SumRules(), LikeTermRules(), e);
    ClashConcat(rules + NegativeFactorRules() + MinusRules() + SumRules() + LikeTermRules(), FoldRules(), e);
    ClashConcat(rules + NegativeFactorRules() + MinusRules() + SumRules() + LikeTermRules() + FoldRules(),
      BothSidesRules(), e);
  }

  lemma OtherRulesAre()
    ensures OtherRules() == NegativeConstantRules() + ProductRules() + ConstantFirstRules() + NegativeFactorRules()
      + MinusRules() + SumRules() + LikeTermRules() + FoldRules() + BothSidesRules()
  {
    hide NegativeConstantRules, ProductRules, ConstantFirstRules, NegativeFactorRules, MinusRules, SumRules,
      LikeTermRules, FoldRules, BothSidesRules;
  }

  lemma UnitsClash(e: Expr)
    requires IsQuotient(e)
    ensures AllClash(MultiplyByOneRules(), e) && AllClash(DivideZeroRules(), e)
    ensures !IsByOne(e) ==> AllClash([DivideByOneRule()], e)
  {
    hide MatchConstant;
    NotNumber(Integer(0), e.operand1);
  }

  lemma NotNumber(c: Expr, e: Expr)
    requires IsConstant(c) && !IsConstant(e)
    ensures !MatchConstant(c, e)
  {
  }

  /** A quotient by 1 loses it; no rule applies to any other quotient of an operation by a number. */
  lemma QuotientFires(e: Expr)
    requires Plain(e) && IsQuotient(e)
    ensures IsByOne(e) ==>
      BuildIfMatch(SimplifierRules(), e) == Some(Firing(DivideByOneRule(), map["a" := e.operand1], e.operand1))
    ensures !IsByOne(e) ==> BuildIfMatch(SimplifierRules(), e) == None
  {
    hide *;
    TableIs();
    UnitsClash(e);
    OthersClash(e);
    var rest := DivideZeroRules() + OtherRules();
    PassedOver(MultiplyByOneRules(), [DivideByOneRule()] + rest, e);
    if IsByOne(e) {
      DividesByOne(e);
      FirstFires(DivideByOneRule(), rest, e);
    } else {
      PassedOver([DivideByOneRule()], rest, e);
      PassedOver(DivideZeroRules(), OtherRules(), e);
      PassedOver(OtherRules(), [], e);
      assert OtherRules() + [] == OtherRules();
      NoRules(e);
    }
  }

  lemma DividesByOne(e: Expr)
    requires Plain(e) && IsByOne(e)
    ensures ApplyRule(DivideByOneRule(), e) == Some(Firing(DivideByOneRule(), map["a" := e.operand1], e.operand1))
  {
    var none: Env := map[];
    var env: Env := map["a" := e.operand1];
    assert none["a" := e.operand1] == env;
    assert DivideByOneRule() == Rule(Div(V("a"), Integer(1)), V("a"), NoExec);
    NameMatches(e.operand1);
    OneMatches(e.operand2, env);
    MatchBinop(Div(V("a"), Integer(1)), e, none);
    hide Match, MatchConstant, Plain, DivideByOneRule;
  }

  lemma NameMatches(e: Expr)
    requires Plain(e)
    ensures var (ok, env) := Match(V("a"), e, map[], false); ok && env == map["a" := e]
  {
  }

  lemma OneMatches(e: Expr, env: Env)
    requires PlainEnv(env) && Plain(e) && MatchConstant(Integer(1), e)
    ensures Match(Integer(1), e, env, false) == (true, env)
  {
    hide MatchConstant;
  }

  lemma DivideByOneIsSafe(e: Expr)
    ensures AllSafe([Firing(DivideByOneRule(), map["a" := e], e)])
  {
    assert Names(DivideByOneRule().pattern) == multiset{"a"};
  }

  /** A number is simplified to one of its value. */
  lemma NumberSimplifies(c: Expr, fuel: nat)
    requires IsProper(c) && fuel > 0
    ensures var r := Simplify(c, fuel);
      r.Done? && r.fired == [] && IsProper(r.result) && ConstantValue(r.result) == ConstantValue(c)
  {
    hide SimplifyRational;
    if c.Rational? {
      SimplifyKeepsValue(c.a, c.b);
    }
  }

  predicate NumberOutcome(r: Outcome) {
    r.Done? && AllSafe(r.fired) && IsProper(r.result) && IsLowest(r.result)
  }

  lemma AgainNumber(e: Expr, fired: seq<Firing>, fuel: nat)
    requires Plain(e) && fuel > 0 && AllSafe(fired) && NumberOutcome(Simplify(e, fuel - 1))
    ensures NumberOutcome(Again(e, fired, fuel))
  {
    hide Simplify, AllSafe, IsProper;
    AllSafeConcat(fired, Simplify(e, fuel - 1).fired);
  }

  lemma NothingFired()
    ensures AllSafe([])
  {
  }

  predicate NonzeroQuotient(e: Expr) {
    && IsQuotient(e) && e.operand1.Binop? && e.operand1.op == MUL
    && IsProper(e.operand1.operand1) && IsProper(e.operand1.operand2)
    && IsProper(e.operand2) && ConstantValue(e.operand2) != Num(0.0)
  }

  /** A quotient of a product of two numbers by a number other than zero is simplified to a number. */
  lemma QuotientSimplifies(e: Expr, fuel: nat)
    requires NonzeroQuotient(e) && fuel >= 2
    ensures Plain(e) && NumberOutcome(Simplify(e, fuel))
  {
    hide SimplifierRules, BuildIfMatch, Simplify, AllSafe, MatchConstant, ConstantValue, Again, SimplifyOperands;
    NumbersFold(e.operand1, fuel - 1);
    NothingFired();
    QuotientFires(e);
    RoundIs(e, fuel);
    if IsByOne(e) {
      DivideByOneIsSafe(e.operand1);
      AgainNumber(e.operand1, [Firing(DivideByOneRule(), map["a" := e.operand1], e.operand1)], fuel);
    } else {
      NumberSimplifies(e.operand2, fuel - 1);
      OperandsOf(DIV, e.operand1, e.operand2, e.parenthesized, fuel);
      var k, c := Simplify(e.operand1, fuel - 1).result, Simplify(e.operand2, fuel - 1).result;
      NumbersFold(Bin(DIV, k, c), fuel - 1);
      var none: seq<Firing> := [];
      assert none + none == none;
      AgainNumber(Bin(DIV, k, c), none + none, fuel);
    }
  }

  /** The quotient that solves an equation is simplified to a number in lowest terms, which is the root. */
  lemma RootSimplifies(c0: Expr, c1: Expr, fuel: nat)
    requires IsProper(c0) && IsProper(c1) && ConstantValue(c1) != Num(0.0) && fuel >= 2
    ensures var r := Simplify(RootTree(c0, c1), fuel);
      NumberOutcome(r) && ConstantValue(r.result) == Num(RootOf(ConstantValue(c0).r, ConstantValue(c1).r))
  {
    hide Simplify, AllSafe, ConstantValue, RootOf, Preserves;
    var tree, val: Valuation := RootTree(c0, c1), _ => 0.0;
    RootIsQuotient(c0, c1);
    QuotientSimplifies(tree, fuel);
    SimplifyPreserves(tree, fuel);
    RootTreeValue(c0, c1, ConstantValue(c0).r, ConstantValue(c1).r, val);
    NumberPreserves(tree, Simplify(tree, fuel).result, val);
  }

  lemma RootIsQuotient(c0: Expr, c1: Expr)
    requires IsProper(c0) && IsProper(c1) && ConstantValue(c1) != Num(0.0)
    ensures NonzeroQuotient(RootTree(c0, c1))
    ensures ConstantValue(c0).Num? && ConstantValue(c1).Num? && ConstantValue(c1).r != 0.0
  {
  }

  lemma NumberPreserves(e: Expr, c: Expr, val: Valuation)
    requires IsConstant(c) && Preserves(e, c) && Eval(e, val) != Undefined
    ensures ConstantValue(c) == Eval(e, val)
  {
    assert Eval(c, val) == ConstantValue(c);
    hide ConstantValue;
  }

  // ---------- Sums of products, by their summands ----------

  /** The summands of both sides of an equation, from left to right. */
  function Summands(e: Expr): seq<Expr> {
    if e.Binop? && (e.op == EQ || e.op == ADD || e.op == SUB) then Summands(e.operand1) + Summands(e.operand2)
    else [e]
  }

  function Unsigned(e: Expr): Expr {
    if e.Unop? then Unsigned(e.operand1) else e
  }

  /** The factors of a product that nests to the left, without their signs. */
  function FactorsOf(e: Expr): seq<Expr> {
    match e
    case Binop(op, l, r, _) => if op == MUL then FactorsOf(l) + [Unsigned(r)] else [e]
    case Unop(o) => FactorsOf(o)
    case _ => [e]
  }

  predicate IsLetterOrNumber(e: Expr) {
    e.Variable? || e.Integer? || e.Rational? || e.Real?
  }

  predicate IsLetterPower(e: Expr) {
    e.Binop? && e.op == EXP && e.operand1.Variable? && e.operand2.Integer?
  }

  /** A letter, a number, a power of a letter, or a product of these that nests to the left and starts with no power. */
  predicate IsTidy(s: Expr) {
    || IsLetterOrNumber(s) || IsLetterPower(s)
    || (s.Binop? && s.op == MUL
        && var fs := FactorsOf(s);
           IsLetterOrNumber(fs[0]) && forall k :: 0 < k < |fs| ==> IsLetterOrNumber(fs[k]) || IsLetterPower(fs[k]))
  }

  /** On a minus sign, a fraction and the like the test calls itself for ever. */
  predicate IsNeverJudged(s: Expr) {
    s.Unop? || (s.Binop? && s.op != MUL && s.op != EXP)
  }

  lemma {:induction false} FactorIs(e: Expr)
    ensures LooksLikeFactor(e) <==> IsLetterOrNumber(Unsigned(e)) || IsLetterPower(Unsigned(e))
  {
    if e.Unop? {
      FactorIs(e.operand1);
    }
  }

  predicate GoodFactors(fs: seq<Expr>) {
    && fs != [] && IsLetterOrNumber(fs[0])
    && forall k :: 0 < k < |fs| ==> IsLetterOrNumber(fs[k]) || IsLetterPower(fs[k])
  }

  lemma GoodFactorsStep(fs: seq<Expr>, f: Expr)
    requires fs != []
    ensures GoodFactors(fs + [f]) <==> GoodFactors(fs) && (IsLetterOrNumber(f) || IsLetterPower(f))
  {
    hide IsLetterOrNumber, IsLetterPower;
    var gs := fs + [f];
    assert gs[0] == fs[0] && gs[|fs|] == f;
    assert forall k :: 0 <= k < |fs| ==> gs[k] == fs[k];
  }

  lemma {:induction false} TermIs(e: Expr)
    ensures FactorsOf(e) != [] && (LooksLikeTerm(e) <==> GoodFactors(FactorsOf(e)))
  {
    match e {
      case Binop(op, l, r, _) =>
        if op == MUL {
          hide GoodFactors, IsLetterOrNumber, IsLetterPower, LooksLikeFactor;
          TermIs(l);
          FactorIs(r);
          GoodFactorsStep(FactorsOf(l), Unsigned(r));
        }
      case Unop(o) => TermIs(o);
      case _ =>
    }
  }

  /** What the test makes of one summand. */
  lemma SummandIs(s: Expr)
    requires !(s.Binop? && (s.op == EQ || s.op == ADD || s.op == SUB))
    ensures SumOfProducts(s) == if IsTidy(s) then Some(true) else if IsNeverJudged(s) then None else Some(false)
  {
    TermIs(s);
    hide LooksLikeTerm;
    if !s.Unop? {
      FactorIs(s);
    }
  }

  /** The first summand that is not tidy decides. */
  function Judged(ss: seq<Expr>): Option<bool> {
    if ss == [] then Some(true)
    else if IsTidy(ss[0]) then Judged(ss[1..])
    else if IsNeverJudged(ss[0]) then None
    else Some(false)
  }

  lemma {:induction false} JudgedConcat(a: seq<Expr>, b: seq<Expr>)
    ensures Judged(a + b) == if Judged(a) == Some(true) then Judged(b) else Judged(a)
  {
    if a == [] {
      assert a + b == b;
    } else {
      assert (a + b)[0] == a[0] && (a + b)[1..] == a[1..] + b;
      hide IsTidy, IsNeverJudged;
      JudgedConcat(a[1..], b);
    }
  }

  lemma {:induction false} SumOfProductsIs(e: Expr)
    ensures SumOfProducts(e) == Judged(Summands(e))
  {
    hide IsTidy, IsNeverJudged;
    if e.Binop? && (e.op == EQ || e.op == ADD || e.op == SUB) {
      SumOfProductsIs(e.operand1);
      SumOfProductsIs(e.operand2);
      JudgedConcat(Summands(e.operand1), Summands(e.operand2));
    } else {
      SummandIs(e);
      assert [e][1..] == [];
    }
  }

  // ---------- Linear equations ----------

  /** The answer v = root, with the one number for v at which the equation is true, in lowest terms. */
  ghost predicate IsRootOf(answer: Expr, norm: Expr, v: string) {
    && answer.Binop? && answer == Eq(V(v), answer.operand2)
    && IsProper(answer.operand2) && IsLowest(answer.operand2)
    && forall val: Valuation :: Eval(norm, val) == Truth(Num(val(v)) == ConstantValue(answer.operand2))
  }

  /** What `solve` does with a linear equation, by its summands. */
  lemma SolveExactly(eqn: Expr, v: string, fuel: nat)
    requires Plain(eqn) && fuel >= 2
    ensures !Normalize(eqn, fuel).Done? ==> Solve(eqn, v, fuel) == Lost
    ensures Normalize(eqn, fuel).Done? && LinearEquation(Normalize(eqn, fuel).result, v) ==>
      var norm := Normalize(eqn, fuel);
      match Judged(Summands(norm.result))
      case Some(true) =>
        var a := Solve(eqn, v, fuel);
        && a.Answered? && IsRootOf(a.equation, norm.result, v)
        && (AllSafe(norm.fired) ==> AllSafe(a.fired))
      case Some(false) => Solve(eqn, v, fuel) == Answered(norm.result, norm.fired)
      case None => Solve(eqn, v, fuel) == Lost
  {
    hide Normalize, SumOfProducts, Judged, SolvePoly, LinearEquation, AllSafe, IsRootOf;
    var norm := Normalize(eqn, fuel);
    if norm.Done? {
      SumOfProductsIs(norm.result);
      if LinearEquation(norm.result, v) && Judged(Summands(norm.result)) == Some(true) {
        LinearPoly(norm.result, v);
        LinearAnswer(norm.result, v, norm.fired, fuel);
      }
    }
  }

  lemma LinearPoly(norm: Expr, v: string)
    requires LinearEquation(norm, v)
    ensures var poly := Accum(norm, v, map[], false); IsPoly(poly) && Coefficient(poly, 1) != 0.0
  {
    LinearEquationValue(norm, v, _ => 0.0);
    hide Accum;
  }

  lemma LinearAnswer(norm: Expr, v: string, fired: seq<Firing>, fuel: nat)
    requires LinearEquation(norm, v) && fuel >= 2
    requires IsPoly(Accum(norm, v, map[], false)) && Coefficient(Accum(norm, v, map[], false), 1) != 0.0
    ensures var a := SolvePoly(Accum(norm, v, map[], false), v, fired, fuel);
      a.Answered? && IsRootOf(a.equation, norm, v) && (AllSafe(fired) ==> AllSafe(a.fired))
  {
    hide Accum, LinearEquation, Coefficient, RootOf, AllSafe, IsPoly, SolvePoly, Eval, ConstantValue;
    var poly := Accum(norm, v, map[], false);
    var a := SolvePoly(poly, v, fired, fuel);
    SolvePolyAnswers(poly, v, fired, fuel);
    forall val: Valuation
      ensures Eval(norm, val) == Truth(Num(val(v)) == ConstantValue(a.equation.operand2))
    {
      LinearEquationValue(norm, v, val);
    }
  }

  /** With a slope the answer is the root, as a number. */
  lemma SolvePolyAnswers(poly: Poly, v: string, fired: seq<Firing>, fuel: nat)
    requires IsPoly(poly) && Coefficient(poly, 1) != 0.0 && fuel >= 2
    ensures var a := SolvePoly(poly, v, fired, fuel);
      && a.Answered? && a.equation.Binop? && a.equation == Eq(V(v), a.equation.operand2)
      && IsProper(a.equation.operand2) && IsLowest(a.equation.operand2)
      && ConstantValue(a.equation.operand2) == Num(RootOf(Coefficient(poly, 0), Coefficient(poly, 1)))
      && (AllSafe(fired) ==> AllSafe(a.fired))
  {
    hide Simplify, AllSafe, Slot, Coefficient, MatchConstant, ConstantValue, RootOf, IsPoly;
    Slots(poly);
    IsConstantPoly(poly);
    var c0, c1 := Slot(poly, 0), Slot(poly, 1);
    if c0.None? {
      ZeroIsRoot(Coefficient(poly, 1));
    } else {
      NumbersAreProper(c0.value, c1.value, Coefficient(poly, 0), Coefficient(poly, 1));
      RootSimplifies(c0.value, c1.value, fuel);
      AllSafeConcat(fired, Simplify(RootTree(c0.value, c1.value), fuel).fired);
    }
  }

  lemma ZeroIsRoot(n1: real)
    requires n1 != 0.0
    ensures ConstantValue(Integer(0)) == Num(RootOf(0.0, n1))
  {
  }

  lemma NumbersAreProper(c0: Expr, c1: Expr, n0: real, n1: real)
    requires IsConstant(c0) && IsConstant(c1) && ConstantValue(c0) == Num(n0) && ConstantValue(c1) == Num(n1)
    ensures IsProper(c0) && IsProper(c1) && ConstantValue(c0).r == n0 && ConstantValue(c1).r == n1
  {
  }

  // ---------- Equations without a slope ----------

  /** Every slot holds a number, and there is none from n on. */
  predicate Filled(poly: Poly, n: nat) {
    IsPoly(poly) && forall d :: d in poly ==> poly[d].Some? && d < n
  }

  lemma AddTermFills(poly: Poly, degree: nat, term: Option<Expr>, n: nat)
    requires Filled(poly, n) && degree < n && term.Some? && IsProper(term.value)
    ensures Filled(AddTerm(poly, degree, term), n) && degree in AddTerm(poly, degree, term)
  {
    hide ApplyBinop;
    if degree in poly {
      ApplyBinopExact(ADD, poly[degree].value, term.value, Bin(ADD, poly[degree].value, term.value));
    }
  }

  lemma FactorTerm(e: Expr, v: string, negate: bool)
    requires IsFactor(e, v)
    ensures var c := if IsConstant(e) then Some(if negate then Negate(e) else e) else UnitCoefficient(negate);
      IsProper(c.value) && forall poly: Poly :: ConstantPoly(poly) ==>
        Accum(e, v, poly, negate) == AddTerm(poly, Degree(e), c)
  {
    hide AddTerm;
  }

  lemma ProductFills(e: Expr, v: string, poly: Poly, negate: bool, n: nat)
    requires IsProduct(e, v) && Filled(poly, n) && Degree(e) < n && !IsLost(e, negate)
    ensures Filled(Accum(e, v, poly, negate), n) && exists d :: d in Accum(e, v, poly, negate)
  {
    if e.Binop? && e.op == MUL {
      var start := Factors(if negate then Some(Integer(-1)) else None, 0);
      var factors := Walk(e, v, start);
      assert Accum(e, v, poly, negate) == AddTerm(poly, factors.degree, factors.constPart);
      hide Walk, Accum, AddTerm, Filled, Degree, HasNumber;
      WalkProduct(e, v, start, 0.0);
      AddTermFills(poly, factors.degree, factors.constPart, n);
    } else {
      hide Accum, AddTerm, Filled, Degree, Negate;
      assert IsFactor(e, v);
      FactorTerm(e, v, negate);
      FilledIsConstant(poly, n);
      var c := if IsConstant(e) then Some(if negate then Negate(e) else e) else UnitCoefficient(negate);
      AddTermFills(poly, Degree(e), c, n);
    }
  }

  lemma FilledIsConstant(poly: Poly, n: nat)
    requires Filled(poly, n)
    ensures ConstantPoly(poly)
  {
  }

  /** A sum without lost products leaves a number in each slot it touches, and it touches one. */
  lemma {:induction false} AccumFills(e: Expr, v: string, poly: Poly, negate: bool, n: nat)
    requires IsSum(e, v) && Filled(poly, n) && DegreesBelow(e, v, n) && Lossless(e, v, negate)
    ensures Filled(Accum(e, v, poly, negate), n) && exists d :: d in Accum(e, v, poly, negate)
  {
    hide IsProduct, Degree, Walk, AddTerm, HasNumber, Filled;
    if IsProduct(e, v) {
      ProductFills(e, v, poly, negate, n);
    } else if e.Unop? {
      AccumFills(e.operand1, v, poly, !negate, n);
    } else {
      FilledIsConstant(poly, n);
      AccumFills(e.operand1, v, poly, negate, n);
      AccumFills(e.operand2, v, Accum(e.operand1, v, poly, negate), if e.op == SUB then !negate else negate, n);
    }
  }

  lemma EquationFills(e: Expr, v: string)
    requires BelowSquares(e, v)
    ensures Filled(Accum(e, v, map[], false), 2) && exists d :: d in Accum(e, v, map[], false)
  {
    var none: Poly := map[];
    assert Filled(none, 2);
    assert Accum(e, v, none, false) == Accum(e.operand2, v, Accum(e.operand1, v, none, false), true);
    hide Accum, Filled, IsSum, DegreesBelow;
    AccumFills(e.operand1, v, none, false, 2);
    AccumFills(e.operand2, v, Accum(e.operand1, v, none, false), true, 2);
  }

  /** Dividing by a number that is zero but not written as one is undefined. */
  lemma ZeroQuotient(c0: Expr, c1: Expr, fuel: nat)
    requires IsProper(c0) && IsProper(c1) && ConstantValue(c1) == Num(0.0) && !MatchConstant(Integer(0), c1)
    ensures !Simplify(RootTree(c0, c1), fuel).Done?
  {
    hide SimplifierRules, BuildIfMatch, Simplify, MatchConstant, Again, SimplifyOperands;
    NoFuel(RootTree(c0, c1));
    if fuel > 0 {
      var tree := RootTree(c0, c1);
      NoFuel(tree.operand1);
      ZeroIsFraction(c1);
      QuotientFires(tree);
      RoundIs(tree, fuel);
      OperandsOf(DIV, tree.operand1, c1, false, fuel);
      if fuel > 1 {
        NumbersFold(tree.operand1, fuel - 1);
        ZeroFractionSimplifies(c1, fuel - 1);
        DividedByZero(Simplify(tree.operand1, fuel - 1).result, fuel);
      }
    }
  }

  lemma NoFuel(e: Expr)
    requires Plain(e)
    ensures Simplify(e, 0) == OutOfFuel
  {
  }

  lemma ZeroIsFraction(c1: Expr)
    requires IsProper(c1) && ConstantValue(c1) == Num(0.0) && !MatchConstant(Integer(0), c1)
    ensures c1.Rational? && c1.a == 0 && !MatchConstant(Integer(1), c1)
  {
    if c1.Rational? {
      QuotientsEqual(c1.a, c1.b, 0, 1);
    }
  }

  lemma ZeroFractionSimplifies(c1: Expr, fuel: nat)
    requires c1.Rational? && c1.a == 0 && c1.b != 0 && fuel > 0
    ensures Simplify(c1, fuel) == Done(Integer(0), true, [])
  {
  }

  lemma DividedByZero(k: Expr, fuel: nat)
    requires IsProper(k) && fuel > 0
    ensures !Again(Bin(DIV, k, Integer(0)), [] + [], fuel).Done?
  {
    hide SimplifierRules, BuildIfMatch;
  }

  /** Without a slope there is no answer, unless the equation is handed back. */
  lemma NoSlopeNoAnswer(eqn: Expr, v: string, fuel: nat)
    requires Plain(eqn) && Normalize(eqn, fuel).Done? && BelowSquares(Normalize(eqn, fuel).result, v)
    requires Coefficient(Accum(Normalize(eqn, fuel).result, v, map[], false), 1) == 0.0
    requires Judged(Summands(Normalize(eqn, fuel).result)) == Some(true)
    ensures !Solve(eqn, v, fuel).Answered?
  {
    hide Normalize, SumOfProducts, Judged, SolvePoly, BelowSquares, Accum, Filled, Coefficient;
    var norm := Normalize(eqn, fuel).result;
    SumOfProductsIs(norm);
    EquationFills(norm, v);
    FilledIsConstant(Accum(norm, v, map[], false), 2);
    FlatHasNoAnswer(Accum(norm, v, map[], false), v, Normalize(eqn, fuel).fired, fuel);
  }

  lemma FlatHasNoAnswer(poly: Poly, v: string, fired: seq<Firing>, fuel: nat)
    requires Filled(poly, 2) && (exists d :: d in poly) && Coefficient(poly, 1) == 0.0
    ensures !SolvePoly(poly, v, fired, fuel).Answered?
  {
    FlatSlots(poly);
    FilledIsConstant(poly, 2);
    hide Filled, Coefficient, Slot, Simplify, MatchConstant, ConstantValue, IsProper;
    var c0, c1 := Slot(poly, 0), Slot(poly, 1);
    if c1.Some? && !MatchConstant(Integer(0), c1.value) {
      ZeroQuotient(c0.value, c1.value, fuel);
    }
  }

  lemma FlatSlots(poly: Poly)
    requires Filled(poly, 2) && (exists d :: d in poly) && Coefficient(poly, 1) == 0.0
    ensures Slot(poly, 0).Some? && IsProper(Slot(poly, 0).value)
    ensures Slot(poly, 1).Some? ==> IsProper(Slot(poly, 1).value) && ConstantValue(Slot(poly, 1).value) == Num(0.0)
  {
    var d :| d in poly;
    assert d == 0 || d == 1;
  }
}
