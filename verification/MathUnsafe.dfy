/**
 * A firing that is not safe: through the table of `simplifyExpr`, 3(2p) + 3(2q) becomes 6(2p) and in the end 12p
 * (`match`, `buildIfMatch` and `simplifyExpr` of examples/data-objects/math/src/mathExpr.ts).
 */
module MathUnsafe {
  import opened MathExpr
  import opened MathConstants
  import opened MathMatch
  import opened MathClash
  import opened MathRules
  import opened MathSimplify
  import opened MathSettled
  import opened Options

  /** The table, up to the reassociation of products, up to the like terms, and to its end. */
  function BeforeProducts(): seq<Rule> { UnitRules() + NegativeConstantRules() }

  function ProductsToSums(): seq<Rule> {
    ProductRules() + ConstantFirstRules() + NegativeFactorRules() + MinusRules() + SumRules()
  }

  function AfterSums(): seq<Rule> { LikeTermRules() + FoldRules() + BothSidesRules() }

  lemma TableIs()
    ensures SimplifierRules() == BeforeProducts() + (ProductsToSums() + AfterSums())
    ensures ProductsToSums() + AfterSums() == [ProductRules()[0]] + (ProductRules()[1..] + ConstantFirstRules()
      + NegativeFactorRules() + MinusRules() + SumRules() + AfterSums())
    ensures AfterSums() == [LikeTermRule()] + (LikeTermRules()[1..] + FoldRules() + BothSidesRules())
  {
    hide UnitRules, NegativeConstantRules, ConstantFirstRules, NegativeFactorRules, MinusRules, SumRules, FoldRules,
      BothSidesRules, LikeTermRule;
    assert ProductRules() == [ProductRules()[0]] + ProductRules()[1..];
    assert LikeTermRules() == [LikeTermRule()] + LikeTermRules()[1..];
  }

  // ---------- The sum ----------

  function Twice(x: string): Expr {
    Mul(Integer(2), V(x))
  }

  /** 3(2p) + 3(2q) */
  function TwoProducts(): Expr {
    Add(Mul(Integer(3), Twice("p")), Mul(Integer(3), Twice("q")))
  }

  /** What the like-term pattern is bound to: the second product only matched because q was bound to p. */
  function TwoProductsEnv(): Env {
    map["a" := Integer(3), "x" := Twice("p"), "b" := Integer(3), "p" := V("q")]
  }

  /** Below the product the match is no longer literal, so it binds p to q. */
  lemma TwiceMatchesTwice(env: Env)
    requires "p" !in env && PlainEnv(env)
    ensures Match(Twice("p"), Twice("q"), env, true) == (true, env["p" := V("q")])
  {
    assert Match(Integer(2), Integer(2), env, false) == (true, env);
    assert Match(V("p"), V("q"), env, false) == (true, env["p" := V("q")]);
  }

  lemma TermMatches(name: string, e: Expr, env: Env)
    requires name !in env && name != "x" && Plain(e) && PlainEnv(env)
    ensures Match(Mul(C(name), P("x")), Mul(Integer(3), e), env, false)
         == Bind(env[name := Integer(3)], "x", Any, e)
  {
    assert Match(C(name), Integer(3), env, false) == (true, env[name := Integer(3)]);
  }

  lemma TwoProductsMatch()
    ensures Plain(TwoProducts())
    ensures Match(LikeTermRule().pattern, TwoProducts(), map[], false) == (true, TwoProductsEnv())
  {
    var none: Env := map[];
    var env1: Env := map["a" := Integer(3), "x" := Twice("p")];
    FirstTermMatches();
    SecondTermMatches();
    hide Match, Bind, TwoProductsEnv;
    MatchBinop(LikeTermRule().pattern, TwoProducts(), none);
  }

  lemma FirstTermMatches()
    ensures Match(Mul(C("a"), P("x")), Mul(Integer(3), Twice("p")), map[], false)
         == (true, map["a" := Integer(3), "x" := Twice("p")])
  {
    assert Plain(Twice("p"));
    hide Match, Bind, Twice;
    var none: Env := map[];
    TermMatches("a", Twice("p"), none);
    BindMeans(none["a" := Integer(3)], "x", Twice("p"));
    assert none["a" := Integer(3)]["x" := Twice("p")] == map["a" := Integer(3), "x" := Twice("p")];
  }

  lemma SecondTermMatches()
    ensures Match(Mul(C("b"), P("x")), Mul(Integer(3), Twice("q")), map["a" := Integer(3), "x" := Twice("p")], false)
         == (true, TwoProductsEnv())
  {
    assert Plain(Twice("p")) && Plain(Twice("q"));
    hide Match, Bind, Twice;
    var env1: Env := map["a" := Integer(3), "x" := Twice("p")];
    var env2: Env := env1["b" := Integer(3)];
    TermMatches("b", Twice("q"), env1);
    BindMeans(env2, "x", Twice("q"));
    TwiceMatchesTwice(env2);
    assert env2["p" := V("q")] == map["a" := Integer(3), "x" := Twice("p"), "b" := Integer(3), "p" := V("q")];
  }

  lemma BindMeans(env: Env, x: string, e: Expr)
    requires Plain(e) && PlainEnv(env)
    ensures Bind(env, x, Any, e) == if x in env then Match(env[x], e, env, true) else (true, env[x := e])
  {
  }

  lemma TwoProductsExec()
    ensures var rule := LikeTermRule();
      && RunExec(rule.exec, TwoProductsEnv()) == Some(TwoProductsEnv()["c" := Integer(6)])
      && Subst(rule.template, TwoProductsEnv()["c" := Integer(6)]) == Mul(Integer(6), Twice("p"))
  {
    assert ApplyBinop(ADD, Integer(3), Integer(3), Bin(ADD, Integer(3), Integer(3))) == Some(Integer(6));
  }

  lemma RepeatedName(op: Operator, l: Expr, r: Expr, x: string)
    requires x in Names(l) && x in Names(r)
    ensures x in Names(Bin(op, l, r)) && Names(Bin(op, l, r))[x] >= 2
  {
  }

  lemma TwoProductsUnsafe()
    ensures !RepeatsAreSafe(LikeTermRule().pattern, map[], TwoProductsEnv())
  {
    var l, r := Mul(C("a"), P("x")), Mul(C("b"), P("x"));
    assert Mentions(l, "x") && Mentions(r, "x") && Mentions(V("p"), "p");
    assert TwoProductsEnv()["x"] == Mul(Integer(2), V("p"));
    hide Mentions, TwoProductsEnv;
    MentionsIsIn(l, "x");
    MentionsIsIn(r, "x");
    MentionsIsIn(V("p"), "p");
    hide Names;
    RepeatedName(ADD, l, r, "x");
    assert !LiteralSafe(Mul(Integer(2), V("p")));
    hide LiteralSafe;
  }

  lemma TwelveValue()
    ensures !Preserves(TwoProducts(), Twelve())
  {
    var val: Valuation := x => if x == "p" then 1.0 else 0.0;
    assert Eval(Twice("p"), val) == Num(2.0);
    assert Eval(Twice("q"), val) == Num(0.0);
    assert Eval(Mul(Integer(3), Twice("p")), val) == Num(6.0);
    assert Eval(Mul(Integer(3), Twice("q")), val) == Num(0.0);
    assert Eval(TwoProducts(), val) == Num(6.0);
    assert Eval(Twelve(), val) == Num(12.0);
  }

  /** No rule before the like terms matches the sum. */
  lemma SumPassedOver()
    ensures AllClash(BeforeProducts(), TwoProducts()) && AllClash(ProductsToSums(), TwoProducts())
  {
    hide AllClash;
    var e := TwoProducts();
    SumClash1(e);
    SumClash2(e);
    SumClash3(e);
    ClashConcat(UnitRules(), NegativeConstantRules(), e);
    ClashConcat(ProductRules(), ConstantFirstRules(), e);
    ClashConcat(ProductRules() + ConstantFirstRules(), NegativeFactorRules(), e);
    ClashConcat(ProductRules() + ConstantFirstRules() + NegativeFactorRules(), MinusRules(), e);
    ClashConcat(ProductRules() + ConstantFirstRules() + NegativeFactorRules() + MinusRules(), SumRules(), e);
  }

  lemma SumClash1(e: Expr)
    requires e.Binop? && e.op == ADD && !IsConstant(e.operand2)
    ensures AllClash(UnitRules(), e) && AllClash(NegativeConstantRules(), e)
  {
    hide Clash;
    NameClash("b", Const, e.operand2);
    RightClash(V("a"), C("b"), e);
    RootsClash(e);
  }

  lemma SumClash2(e: Expr)
    requires e.Binop? && e.op == ADD
    ensures AllClash(ProductRules(), e) && AllClash(ConstantFirstRules(), e) && AllClash(NegativeFactorRules(), e)
  {
    hide Clash;
    OtherRootsClash(ProductRules(), e);
    OtherRootsClash(ConstantFirstRules(), e);
    OtherRootsClash(NegativeFactorRules(), e);
  }

  lemma SumClash3(e: Expr)
    requires e.Binop? && e.op == ADD && e.operand1.Binop? && e.operand2.Binop? && e.operand2.op == MUL
    requires e.operand2.operand1.Integer? && e.operand2.operand1.value >= 0
    ensures AllClash(MinusRules(), e) && AllClash(SumRules(), e)
  {
    hide Clash;
    var a, b, c := V("a"), V("b"), V("c");
    RootClash(Unop(b), e.operand2);
    RightClash(a, Unop(b), e);
    NoMinusClash(b, e.operand2.operand1);
    LeftClash(Unop(b), c, e.operand2);
    RightClash(a, Mul(Unop(b), c), e);
    RootClash(Par(Add(b, c)), e.operand2);
    RightClash(a, Par(Add(b, c)), e);
    RootClash(Par(Sub(b, c)), e.operand2);
    RightClash(a, Par(Sub(b, c)), e);
    RootClash(Unop(a), e.operand1);
    LeftClash(Unop(a), b, e);
    RootsClash(e);
  }

  lemma SumFires()
    ensures Plain(TwoProducts())
    ensures BuildIfMatch(SimplifierRules(), TwoProducts()) == ApplyRule(LikeTermRule(), TwoProducts())
    ensures ApplyRule(LikeTermRule(), TwoProducts()).Some?
    ensures ApplyRule(LikeTermRule(), TwoProducts()).value.result == Mul(Integer(6), Twice("p"))
    ensures ApplyRule(LikeTermRule(), TwoProducts()).value.env == TwoProductsEnv()
  {
    TwoProductsMatch();
    TwoProductsExec();
    hide Match, Subst, RunExec, LikeTermRule, TwoProducts, SimplifierRules, BeforeProducts, ProductsToSums, AfterSums,
      BuildIfMatch, AllClash, Twice, Mul, TwoProductsEnv;
    SumPassedOver();
    TableIs();
    PassedOver(BeforeProducts(), ProductsToSums() + AfterSums(), TwoProducts());
    PassedOver(ProductsToSums(), AfterSums(), TwoProducts());
    FirstFires(LikeTermRule(), LikeTermRules()[1..] + FoldRules() + BothSidesRules(), TwoProducts());
  }

  // ---------- What becomes of 6(2p) ----------

  /** 6(2p), then (6*2)p, then 12p */
  function Six(): Expr { Mul(Integer(6), Twice("p")) }

  function SixTwo(): Expr { Mul(Mul(Integer(6), Integer(2)), V("p")) }

  function Twelve(): Expr { Mul(Integer(12), V("p")) }

  lemma SixClash(e: Expr)
    requires e.Binop? && e.op == MUL && e.operand1 == Integer(6) && e.operand2.Binop?
    ensures AllClash(UnitRules(), e) && AllClash(NegativeConstantRules(), e)
  {
    hide Clash;
    ConstantClash(Integer(1), e.operand1);
    LeftClash(Integer(1), V("a"), e);
    ConstantClash(Integer(1), e.operand2);
    RightClash(V("a"), Integer(1), e);
    RootsClash(e);
  }

  lemma SixFires()
    ensures Plain(Six()) && BuildIfMatch(SimplifierRules(), Six()).Some?
    ensures BuildIfMatch(SimplifierRules(), Six()).value.result == SixTwo()
  {
    Reassociates();
    hide Match, Subst, RunExec, ApplyRule, SimplifierRules, BeforeProducts, ProductsToSums, AfterSums, BuildIfMatch,
      AllClash, ProductRules, SixTwo;
    SixClash(Six());
    ClashConcat(UnitRules(), NegativeConstantRules(), Six());
    BeforeProductsIs();
    TableIs();
    PassedOver(BeforeProducts(), ProductsToSums() + AfterSums(), Six());
    FirstFires(ProductRules()[0], ProductRules()[1..] + ConstantFirstRules()
      + NegativeFactorRules() + MinusRules() + SumRules() + AfterSums(), Six());
  }

  lemma BeforeProductsIs()
    ensures BeforeProducts() == UnitRules() + NegativeConstantRules() && ProductRules() != []
  {
  }

  lemma Reassociates()
    ensures Plain(Six())
    ensures var f := ApplyRule(ProductRules()[0], Six()); f.Some? && f.value.result == SixTwo()
  {
    var rule := ProductRules()[0];
    var none: Env := map[];
    var e2 := none["a" := Integer(6)];
    assert Plain(Twice("p"));
    assert Match(V("a"), Integer(6), none, false) == (true, e2);
    assert Match(V("b"), Integer(2), e2, false) == (true, e2["b" := Integer(2)]);
    assert Match(V("c"), V("p"), e2["b" := Integer(2)], false) == (true, e2["b" := Integer(2)]["c" := V("p")]);
    ReassociatedParts(rule, e2);
  }

  lemma ReassociatedParts(rule: Rule, e2: Env)
    requires rule == ProductRules()[0] && e2 == map["a" := Integer(6)] && Plain(Six()) && Plain(Twice("p"))
    requires Match(V("a"), Integer(6), map[], false) == (true, e2)
    requires Match(V("b"), Integer(2), e2, false) == (true, e2["b" := Integer(2)])
    requires Match(V("c"), V("p"), e2["b" := Integer(2)], false) == (true, e2["b" := Integer(2)]["c" := V("p")])
    ensures var f := ApplyRule(rule, Six()); f.Some? && f.value.result == SixTwo()
  {
    hide Match;
    var env := e2["b" := Integer(2)]["c" := V("p")];
    MatchBinop(rule.pattern.operand2, Twice("p"), e2);
    MatchBinop(rule.pattern, Six(), map[]);
    assert Match(rule.pattern, Six(), map[], false) == (true, env);
    SubstitutedParts(env);
  }

  lemma SubstitutedParts(env: Env)
    requires env == map["a" := Integer(6), "b" := Integer(2), "c" := V("p")]
    ensures Subst(ProductRules()[0].template, env) == SixTwo()
  {
    assert Subst(Mul(V("a"), V("b")), env) == Mul(Integer(6), Integer(2));
    assert Subst(V("c"), env) == V("p");
  }

  /** Products of a number, written as one or as 6*2, and a variable: no rule matches. */
  predicate IsNumberTimesP(e: Expr) {
    e == SixTwo() || e == Twelve()
  }

  /** What the rules for products look at in such a product. */
  lemma NumberShape(e: Expr)
    requires IsNumberTimesP(e)
    ensures e.Binop? && e.op == MUL && e.operand2 == V("p") && !e.operand1.Variable? && !e.operand1.Unop?
    ensures !MatchConstant(Integer(1), e.operand1) && !MatchConstant(Integer(-1), e.operand1)
    ensures e.operand1.Binop? ==> e.operand1.op == MUL && IsConstant(e.operand1.operand2)
    ensures IsConstant(e.operand1) || e.operand1.Binop?
  {
  }

  lemma UnitClash(e: Expr)
    requires IsNumberTimesP(e)
    ensures AllClash(UnitRules(), e)
  {
    NumberShape(e);
    hide IsNumberTimesP;
  }

  lemma NegativeConstantClash(e: Expr)
    requires IsNumberTimesP(e)
    ensures AllClash(NegativeConstantRules(), e)
  {
    NumberShape(e);
    hide IsNumberTimesP, Clash;
    OtherRootsClash(NegativeConstantRules(), e);
  }

  lemma ProductClash(e: Expr)
    requires IsNumberTimesP(e)
    ensures AllClash(ProductRules(), e)
  {
    hide IsNumberTimesP, Clash, MatchConstant;
    NumberShape(e);
    var a, b, c := V("a"), V("b"), V("c");
    LeafClash(Par(Mul(b, c)), e.operand2);
    RightClash(a, Par(Mul(b, c)), e);
    LeafClash(Par(Add(b, c)), e.operand2);
    RightClash(a, Par(Add(b, c)), e);
    LeafClash(Par(Sub(b, c)), e.operand2);
    RightClash(a, Par(Sub(b, c)), e);
    SumInProductClash(Par(Add(a, b)), e.operand1);
    LeftClash(Par(Add(a, b)), c, e);
    SumInProductClash(Par(Sub(a, b)), e.operand1);
    LeftClash(Par(Sub(a, b)), c, e);
  }

  lemma ConstantFirstClash(e: Expr)
    requires IsNumberTimesP(e)
    ensures AllClash(ConstantFirstRules(), e) && AllClash(NegativeFactorRules(), e)
  {
    hide IsNumberTimesP, Clash, MatchConstant;
    NumberShape(e);
    NameClash("c", Const, e.operand2);
    RightClash(PatternVar("v", Var), C("c"), e);
    RightClash(E("e"), C("c"), e);
    NameClash("cb", Const, e.operand2);
    RightClash(Par(Mul(C("ca"), E("e"))), C("cb"), e);
    LeafClash(Par(Mul(C("cb"), E("e"))), e.operand2);
    RightClash(C("ca"), Par(Mul(C("cb"), E("e"))), e);
    NoMinusClash(C("cb"), e.operand2);
    RightClash(C("ca"), Unop(C("cb")), e);
    NoMinusClash(V("b"), e.operand2);
    RightClash(V("a"), Unop(V("b")), e);
  }

  lemma MinusClash(e: Expr)
    requires e.Binop? && e.op == MUL
    ensures AllClash(MinusRules(), e)
  {
    hide Clash, AllClash;
    OtherRootsClash(MinusRules(), e);
  }

  lemma SumClash(e: Expr)
    requires IsNumberTimesP(e)
    ensures AllClash(SumRules(), e)
  {
    hide IsNumberTimesP, Clash, MatchConstant;
    NumberShape(e);
    ConstantClash(Integer(-1), e.operand1);
    LeftClash(Integer(-1), V("a"), e);
    RootsClash(e);
  }

  lemma LikeTermClash(e: Expr)
    requires e.Binop? && e.op == MUL
    ensures AllClash(LikeTermRules(), e)
  {
    hide Clash, AllClash;
    OtherRootsClash(LikeTermRules(), e);
  }

  lemma FoldClash(e: Expr)
    requires e.Binop? && e.op == MUL
    ensures AllClash(FoldRules(), e)
  {
    hide Clash, AllClash;
    OtherRootsClash(FoldRules(), e);
  }

  lemma BothSidesClash(e: Expr)
    requires e.Binop? && e.op == MUL
    ensures AllClash(BothSidesRules(), e)
  {
    hide Clash, AllClash, LinearSide;
    OtherRootsClash(BothSidesRules(), e);
  }

  lemma LateClash(e: Expr)
    requires IsNumberTimesP(e)
    ensures AllClash(AfterSums(), e)
  {
    hide IsNumberTimesP, Clash, MatchConstant, AllClash, LikeTermRules, FoldRules, BothSidesRules;
    NumberShape(e);
    LikeTermClash(e);
    FoldClash(e);
    BothSidesClash(e);
    ClashConcat(LikeTermRules(), FoldRules(), e);
    ClashConcat(LikeTermRules() + FoldRules(), BothSidesRules(), e);
  }

  lemma NumberRests(e: Expr)
    requires IsNumberTimesP(e)
    ensures Plain(e) && BuildIfMatch(SimplifierRules(), e).None?
  {
    hide *;
    NumberPlain(e);
    UnitClash(e);
    NegativeConstantClash(e);
    BeforeProductsIs();
    ClashConcat(UnitRules(), NegativeConstantRules(), e);
    ProductClash(e);
    ConstantFirstClash(e);
    NumberShape(e);
    MinusClash(e);
    SumClash(e);
    ProductsToSumsIs();
    var rules := ProductRules() + ConstantFirstRules();
    ClashConcat(ProductRules(), ConstantFirstRules(), e);
    ClashConcat(rules, NegativeFactorRules(), e);
    ClashConcat(rules + NegativeFactorRules(), MinusRules(), e);
    ClashConcat(rules + NegativeFactorRules() + MinusRules(), SumRules(), e);
    LateClash(e);
    TableIs();
    PassedOver(BeforeProducts(), ProductsToSums() + AfterSums(), e);
    PassedOver(ProductsToSums(), AfterSums(), e);
    PassedOver(AfterSums(), [], e);
    assert AfterSums() + [] == AfterSums();
    NoRules(e);
  }

  lemma ProductsToSumsIs()
    ensures ProductsToSums()
        == ProductRules() + ConstantFirstRules() + NegativeFactorRules() + MinusRules() + SumRules()
  {
    hide ProductRules, ConstantFirstRules, NegativeFactorRules, MinusRules, SumRules;
  }

  lemma NumberPlain(e: Expr)
    requires IsNumberTimesP(e)
    ensures Plain(e)
  {
    assert Plain(Mul(Integer(6), Integer(2))) && Plain(V("p"));
  }

  lemma TwelveRests(fuel: nat)
    requires fuel > 1
    ensures Plain(Twelve()) && Simplify(Twelve(), fuel) == Done(Twelve(), false, [])
  {
    hide SimplifierRules, BuildIfMatch;
    NumberRests(Twelve());
    RoundIs(Twelve(), fuel);
    assert Simplify(Integer(12), fuel - 1) == Done(Integer(12), false, []);
    assert Simplify(V("p"), fuel - 1) == Done(V("p"), false, []);
  }

  lemma SixTwoFolds(fuel: nat)
    requires fuel > 2
    ensures Plain(SixTwo()) && Simplify(SixTwo(), fuel) == Done(Twelve(), true, [])
  {
    hide SimplifierRules, BuildIfMatch;
    NumberRests(SixTwo());
    RoundIs(SixTwo(), fuel);
    TwelveRests(fuel - 1);
    assert Plain(Mul(Integer(6), Integer(2)));
    assert ApplyBinop(MUL, Integer(6), Integer(2), Mul(Integer(6), Integer(2))) == Some(Integer(12));
    assert Simplify(Mul(Integer(6), Integer(2)), fuel - 1) == Done(Integer(12), true, []);
    assert Simplify(V("p"), fuel - 1) == Done(V("p"), false, []);
  }

  /**
   * The like-term rule takes 2q for another 2p, because below a product `match` forgets that it compares literally:
   * the simplifier ends with 12p for 3(2p) + 3(2q), which is another value, and the firing that did it was not safe.
   */
  lemma UnsafeFiringLosesValue(fuel: nat)
    requires fuel >= 5
    ensures Plain(TwoProducts())
    ensures var r := Simplify(TwoProducts(), fuel);
      && r.Done? && r.result == Twelve() && !Preserves(TwoProducts(), r.result)
      && |r.fired| == 2 && r.fired[0].rule == LikeTermRule() && r.fired[0].result == Six() && !SafeFiring(r.fired[0])
  {
    hide SimplifierRules, BuildIfMatch, ApplyRule, Simplify, RepeatsAreSafe, Preserves, LikeTermRule, TwoProductsEnv,
      Twice;
    SumFires();
    RoundIs(TwoProducts(), fuel);
    SixFires();
    SixIs();
    RoundIs(Six(), fuel - 1);
    SixTwoFolds(fuel - 2);
    TwoProductsUnsafe();
    TwelveValue();
    FiredRule(LikeTermRule(), TwoProducts());
  }

  lemma SixIs()
    ensures Six().Binop? && !IsConstant(Six().operand2) && Six() == Mul(Integer(6), Twice("p"))
  {
  }

  lemma FiredRule(rule: Rule, e: Expr)
    requires Plain(e) && ApplyRule(rule, e).Some?
    ensures ApplyRule(rule, e).value.rule == rule
  {
  }
}
