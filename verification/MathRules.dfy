/**
 * The rewrite rules of the simplifier and the normalizer, and what running them keeps
 * (`simplifyExpr`, `normalize`, `buildIfMatch` and the exec steps of
 * examples/data-objects/math/src/mathExpr.ts).
 */
module MathRules {
  import opened MathExpr
  import opened MathConstants
  import opened MathMatch
  import opened Options

  /** What happens between a successful match and the substitution. */
  datatype Exec =
    | NoExec
    | NegateIfNegative
    | FoldConstants(op: Operator, reverse: bool)
    | CombineCoeffs(negateLeft: bool, negateRight: bool)

  datatype Rule = Rule(pattern: Expr, template: Expr, exec: Exec)

  function V(x: string): Expr { Variable(x) }
  function P(x: string): Expr { PatternVar(x, Any) }
  function C(x: string): Expr { PatternVar(x, Const) }
  function E(x: string): Expr { PatternVar(x, PatternVarType.Expr) }
  function Add(l: Expr, r: Expr): Expr { Bin(ADD, l, r) }
  function Sub(l: Expr, r: Expr): Expr { Bin(SUB, l, r) }
  function Mul(l: Expr, r: Expr): Expr { Bin(MUL, l, r) }
  function Div(l: Expr, r: Expr): Expr { Bin(DIV, l, r) }
  function Eq(l: Expr, r: Expr): Expr { Bin(EQ, l, r) }
  function Par(e: Expr): Expr { if e.Binop? then e.(parenthesized := true) else e }

  // ---------- The table ----------

  function UnitRules(): seq<Rule> {
    [ Rule(Mul(Integer(1), V("a")), V("a"), NoExec),
      Rule(Mul(V("a"), Integer(1)), V("a"), NoExec),
      Rule(Div(V("a"), Integer(1)), V("a"), NoExec),
      Rule(Div(Integer(0), V("a")), Integer(0), NoExec) ]
  }

  function NegativeConstantRules(): seq<Rule> {
    [ Rule(Unop(C("b")), P("n"), NegateIfNegative),
      Rule(Sub(V("a"), Unop(V("b"))), Add(V("a"), V("b")), NoExec),
      Rule(Sub(V("a"), C("b")), Add(V("a"), P("n")), NegateIfNegative),
      Rule(Add(V("a"), C("b")), Sub(V("a"), P("n")), NegateIfNegative),
      Rule(Sub(V("a"), Mul(C("b"), P("c"))), Add(V("a"), Mul(P("n"), P("c"))), NegateIfNegative) ]
  }

  function ProductRules(): seq<Rule> {
    [ Rule(Mul(V("a"), Par(Mul(V("b"), V("c")))), Mul(Par(Mul(V("a"), V("b"))), V("c")), NoExec),
      Rule(Mul(V("a"), Par(Add(V("b"), V("c")))), Add(Mul(V("a"), V("b")), Mul(V("a"), V("c"))), NoExec),
      Rule(Mul(V("a"), Par(Sub(V("b"), V("c")))), Sub(Mul(V("a"), V("b")), Mul(V("a"), V("c"))), NoExec),
      Rule(Mul(Par(Add(V("a"), V("b"))), V("c")), Add(Mul(V("a"), V("c")), Mul(V("b"), V("c"))), NoExec),
      Rule(Mul(Par(Sub(V("a"), V("b"))), V("c")), Sub(Mul(V("a"), V("c")), Mul(V("b"), V("c"))), NoExec) ]
  }

  function ConstantFirstRules(): seq<Rule> {
    [ Rule(Mul(PatternVar("v", Var), C("c")), Mul(P("c"), P("v")), NoExec),
      Rule(Mul(Par(Mul(C("ca"), E("e"))), C("cb")), Mul(Par(Mul(P("ca"), P("cb"))), P("e")), NoExec),
      Rule(Mul(C("ca"), Par(Mul(C("cb"), E("e")))), Mul(Par(Mul(P("ca"), P("cb"))), P("e")), NoExec),
      Rule(Mul(E("e"), C("c")), Mul(P("c"), P("e")), NoExec) ]
  }

  function NegativeFactorRules(): seq<Rule> {
    [ Rule(Mul(C("ca"), Unop(C("cb"))), Mul(Mul(Integer(-1), P("ca")), P("cb")), NoExec),
      Rule(Mul(V("a"), Unop(V("b"))), Mul(Mul(Integer(-1), V("a")), V("b")), NoExec) ]
  }

  function MinusRules(): seq<Rule> {
    [ Rule(Add(V("a"), Unop(V("b"))), Sub(V("a"), V("b")), NoExec),
      Rule(Sub(V("a"), Mul(Unop(V("b")), V("c"))), Add(V("a"), Mul(V("b"), V("c"))), NoExec),
      Rule(Sub(V("a"), Unop(Par(Mul(V("b"), V("c"))))), Add(V("a"), Mul(V("b"), V("c"))), NoExec),
      Rule(Add(V("a"), Mul(Unop(V("b")), V("c"))), Sub(V("a"), Mul(V("b"), V("c"))), NoExec),
      Rule(Sub(V("a"), Par(Sub(V("b"), V("c")))), Sub(Add(V("a"), V("c")), V("b")), NoExec),
      Rule(Unop(Par(Sub(V("a"), V("b")))), Sub(V("b"), V("a")), NoExec) ]
  }

  function SumRules(): seq<Rule> {
    [ Rule(Add(V("a"), Par(Add(V("b"), V("c")))), Add(Add(V("a"), V("b")), V("c")), NoExec),
      Rule(Sub(V("a"), Par(Add(V("b"), V("c")))), Sub(Sub(V("a"), V("b")), V("c")), NoExec),
      Rule(Add(V("a"), Par(Sub(V("b"), V("c")))), Sub(Add(V("a"), V("b")), V("c")), NoExec),
      Rule(Mul(Integer(-1), V("a")), Unop(V("a")), NoExec),
      Rule(Add(Unop(V("a")), V("b")), Sub(V("b"), V("a")), NoExec) ]
  }

  function LikeTermRule(): Rule {
    Rule(Add(Mul(C("a"), P("x")), Mul(C("b"), P("x"))), Mul(P("c"), P("x")), FoldConstants(ADD, false))
  }

  function LikeTermRules(): seq<Rule> {
    [ LikeTermRule(),
      Rule(Add(Sub(Mul(C("a"), P("x")), C("d")), Mul(C("b"), P("x"))), Sub(Mul(P("c"), P("x")), P("d")),
        FoldConstants(ADD, false)) ]
  }

  function FoldRules(): seq<Rule> {
    [ Rule(Add(Add(E("e"), C("a")), C("b")), Add(P("e"), P("c")), FoldConstants(ADD, false)),
      Rule(Sub(Add(E("e"), C("a")), C("b")), Add(P("e"), P("c")), FoldConstants(SUB, false)),
      Rule(Add(Sub(E("e"), C("a")), C("b")), Add(P("e"), P("c")), FoldConstants(SUB, true)),
      Rule(Sub(Sub(E("e"), C("a")), C("b")), Sub(P("e"), P("c")), FoldConstants(ADD, false)),
      Rule(Sub(Add(C("a"), E("e")), C("b")), Add(P("e"), P("c")), FoldConstants(SUB, false)),
      Rule(Add(Add(C("a"), E("e")), C("b")), Add(P("e"), P("c")), FoldConstants(ADD, false)) ]
  }

  function LinearSide(op: Operator, coefficient: string, offset: string): Expr {
    Bin(op, Mul(C(coefficient), P("x")), C(offset))
  }

  /** Collects a linear equation in x; the exec step gives each offset its sign. */
  function BothSidesRule(l: Operator, r: Operator): Rule {
    Rule(Eq(LinearSide(l, "al", "bl"), LinearSide(r, "ar", "br")), Eq(Mul(P("as"), P("x")), P("bs")),
         CombineCoeffs(l == SUB, r == SUB))
  }

  /** The sgn parameter 0..3 of the source is written out as which offsets change their signs. */
  function BothSidesRules(): seq<Rule> {
    [ BothSidesRule(SUB, SUB), BothSidesRule(SUB, ADD), BothSidesRule(ADD, SUB), BothSidesRule(ADD, ADD) ]
  }

  /** The table of `simplifyExpr`, in the order in which the rules are tried. */
  function SimplifierRules(): seq<Rule> {
    UnitRules() + NegativeConstantRules() + ProductRules() + ConstantFirstRules() + NegativeFactorRules()
      + MinusRules() + SumRules()
    + LikeTermRules() + FoldRules() + BothSidesRules()
  }

  /** The table of `normalize`. */
  function NormalizerRules(): seq<Rule> {
    [ Rule(Eq(Div(V("a"), V("b")), Div(V("c"), V("d"))), Eq(Mul(V("a"), V("d")), Mul(V("b"), V("c"))), NoExec),
      Rule(Eq(Div(V("a"), V("b")), V("c")), Eq(V("a"), Mul(V("b"), V("c"))), NoExec),
      Rule(Eq(V("a"), Div(V("c"), V("d"))), Eq(Mul(V("a"), V("d")), V("c")), NoExec) ]
  }

  // ---------- Applying one rule ----------

  predicate BoundToConstant(env: Env, x: string) {
    x in env && IsConstant(env[x])
  }

  function SignedConstant(env: Env, x: string, negate: bool): Expr
    requires BoundToConstant(env, x)
  {
    if negate then Negate(env[x]) else env[x]
  }

  /** None when the exec step refuses the match, or the arithmetic is `undefined`. */
  function RunExec(exec: Exec, env: Env): Option<Env> {
    match exec
    case NoExec => Some(env)
    case NegateIfNegative =>
      if BoundToConstant(env, "b") && IsNegative(env["b"]) then Some(env["n" := Negate(env["b"])]) else None
    case FoldConstants(op, reverse) =>
      if !BoundToConstant(env, "a") || !BoundToConstant(env, "b") then None
      else
        var (o1, o2) := if reverse then (env["b"], env["a"]) else (env["a"], env["b"]);
        var folded := ApplyBinop(op, o1, o2, Bin(op, o1, o2));
        if folded.Some? then Some(env["c" := folded.value]) else None
    case CombineCoeffs(negateLeft, negateRight) =>
      if !BoundToConstant(env, "al") || !BoundToConstant(env, "ar") || !BoundToConstant(env, "bl")
        || !BoundToConstant(env, "br")
      then None
      else
        var bLeft, bRight := SignedConstant(env, "bl", negateLeft), SignedConstant(env, "br", negateRight);
        var coefficient := ApplyBinop(SUB, env["al"], env["ar"], Bin(SUB, env["al"], env["ar"]));
        var offset := ApplyBinop(SUB, bRight, bLeft, Bin(SUB, bRight, bLeft));
        if coefficient.Some? && offset.Some? then Some(env["as" := coefficient.value]["bs" := offset.value]) else None
  }

  /** A rule that fired: what its pattern was bound to and what came out. */
  datatype Firing = Firing(rule: Rule, env: Env, result: Expr)

  function ApplyRule(rule: Rule, e: Expr): Option<Firing>
    requires Plain(e)
  {
    var (matched, env) := Match(rule.pattern, e, map[], false);
    if !matched then None
    else
      var env' := RunExec(rule.exec, env);
      if env'.Some? then Some(Firing(rule, env, Subst(rule.template, env'.value))) else None
  }

  /** The first rule of the table that applies. */
  function BuildIfMatch(rules: seq<Rule>, e: Expr): Option<Firing>
    requires Plain(e)
  {
    if rules == [] then None
    else
      var f := ApplyRule(rules[0], e);
      if f.Some? then f else BuildIfMatch(rules[1..], e)
  }

  /** Names that the pattern repeats are bound to expressions that literal matching can compare. */
  predicate SafeFiring(f: Firing) {
    RepeatsAreSafe(f.rule.pattern, map[], f.env)
  }

  // ---------- What makes a rule sound ----------

  /** What the names set by the exec step stand for. */
  predicate ExecMeaning(exec: Exec, names: Assignment) {
    match exec
    case NoExec => true
    case NegateIfNegative => names("n") == Negative(names("b"))
    case FoldConstants(op, reverse) =>
      names("c") == if reverse then Operate(op, names("b"), names("a")) else Operate(op, names("a"), names("b"))
    case CombineCoeffs(negateLeft, negateRight) =>
      && names("as") == Operate(SUB, names("al"), names("ar"))
      && names("bs") == Operate(SUB, if negateRight then Negative(names("br")) else names("br"),
                                     if negateLeft then Negative(names("bl")) else names("bl"))
  }

  /** The template means what the pattern means, wherever the pattern has a value. */
  predicate Holds(rule: Rule, names: Assignment) {
    ExecMeaning(rule.exec, names) && EvalWith(rule.pattern, names) != Undefined
    ==> EvalWith(rule.template, names) == EvalWith(rule.pattern, names)
  }

  // Laws of arithmetic with an absorbing undefined value.

  lemma RealDistributes(x: real, y: real, z: real)
    ensures x * (y + z) == x * y + x * z
    ensures x * (y - z) == x * y - x * z
  {
  }

  lemma ProductLaws(u: Value, v: Value, w: Value)
    ensures Operate(MUL, u, v) == Operate(MUL, v, u)
    ensures Operate(MUL, u, Operate(MUL, v, w)) == Operate(MUL, Operate(MUL, u, v), w)
  {
    hide RPow, IsNatural;
    if u.Num? && v.Num? {
      RealCommutes(u.r, v.r);
      if w.Num? {
        RealAssociates(u.r, v.r, w.r);
      }
    }
  }

  lemma RealCommutes(x: real, y: real)
    ensures x * y == y * x
  {
  }

  lemma RealAssociates(x: real, y: real, z: real)
    ensures x * (y * z) == (x * y) * z
  {
  }

  lemma DistributiveLaws(u: Value, v: Value, w: Value)
    ensures Operate(MUL, u, Operate(ADD, v, w)) == Operate(ADD, Operate(MUL, u, v), Operate(MUL, u, w))
    ensures Operate(MUL, u, Operate(SUB, v, w)) == Operate(SUB, Operate(MUL, u, v), Operate(MUL, u, w))
  {
    hide RPow, IsNatural;
    if u.Num? && v.Num? && w.Num? {
      RealDistributes(u.r, v.r, w.r);
    }
  }

  lemma MinusOneLaw(v: Value)
    ensures Operate(MUL, ConstantValue(Integer(-1)), v) == Negative(v)
  {
  }

  lemma NegativeProductLaw(u: Value, v: Value)
    ensures Operate(MUL, u, Negative(v)) == Operate(MUL, Negative(u), v)
    ensures Operate(MUL, Negative(u), v) == Negative(Operate(MUL, u, v))
  {
    hide RPow, IsNatural;
  }

  lemma SignLaws(u: Value, v: Value, w: Value)
    ensures Operate(SUB, u, Negative(v)) == Operate(ADD, u, v)
    ensures Operate(ADD, u, Negative(v)) == Operate(SUB, u, v)
    ensures Operate(ADD, Negative(u), v) == Operate(SUB, v, u)
    ensures Operate(SUB, u, Operate(SUB, v, w)) == Operate(SUB, Operate(ADD, u, w), v)
    ensures Operate(SUB, u, Operate(ADD, v, w)) == Operate(SUB, Operate(SUB, u, v), w)
    ensures Operate(ADD, u, Operate(ADD, v, w)) == Operate(ADD, Operate(ADD, u, v), w)
    ensures Operate(ADD, u, Operate(SUB, v, w)) == Operate(SUB, Operate(ADD, u, v), w)
    ensures Operate(ADD, Operate(SUB, u, v), w) == Operate(SUB, Operate(ADD, u, w), v)
    ensures Negative(Operate(SUB, u, v)) == Operate(SUB, v, u)
    ensures Operate(ADD, u, v) == Operate(ADD, v, u)
  {
    hide RPow, IsNatural;
  }

  lemma UnitRulesHold(names: Assignment)
    ensures forall r :: r in UnitRules() ==> Holds(r, names)
  {
    hide RPow, IsNatural;
  }

  lemma NegativeConstantRulesHold(names: Assignment)
    ensures forall r :: r in NegativeConstantRules() ==> Holds(r, names)
  {
    hide RPow, IsNatural;
    var n, b, c := names("n"), names("b"), names("c");
    if n == Negative(b) {
      NegativeProductLaw(b, c);
    }
  }

  lemma ProductRulesHold(names: Assignment)
    ensures forall r :: r in ProductRules() ==> Holds(r, names)
  {
    hide Operate, ConstantValue;
    var a, b, c := names("a"), names("b"), names("c");
    ProductLaws(a, b, c);
    ProductLaws(a, c, b);
    ProductLaws(b, c, a);
    DistributiveLaws(a, b, c);
    DistributiveLaws(c, a, b);
    ProductLaws(Operate(ADD, a, b), c, a);
    ProductLaws(Operate(SUB, a, b), c, a);
  }

  lemma ConstantFirstRulesHold(names: Assignment)
    ensures forall r :: r in ConstantFirstRules() ==> Holds(r, names)
  {
    hide Operate, ConstantValue, Negative;
    ProductLaws(names("v"), names("c"), names("e"));
    ProductLaws(names("ca"), names("cb"), names("e"));
    ProductLaws(names("ca"), names("e"), names("cb"));
    ProductLaws(names("e"), names("cb"), names("ca"));
    ProductLaws(names("e"), names("c"), names("a"));
  }

  lemma NegativeFactorRulesHold(names: Assignment)
    ensures forall r :: r in NegativeFactorRules() ==> Holds(r, names)
  {
    hide Operate, ConstantValue, Negative;
    MinusOneLaw(names("ca"));
    NegativeProductLaw(names("ca"), names("cb"));
    MinusOneLaw(names("a"));
    NegativeProductLaw(names("a"), names("b"));
  }

  lemma MinusRulesHold(names: Assignment)
    ensures forall r :: r in MinusRules() ==> Holds(r, names)
  {
    hide Operate, ConstantValue, Negative;
    var a, b, c := names("a"), names("b"), names("c");
    SignLaws(a, b, c);
    SignLaws(a, Operate(MUL, b, c), c);
    NegativeProductLaw(b, c);
  }

  lemma SumRulesHold(names: Assignment)
    ensures forall r :: r in SumRules() ==> Holds(r, names)
  {
    hide Operate, ConstantValue, Negative;
    SignLaws(names("a"), names("b"), names("c"));
    MinusOneLaw(names("a"));
  }

  lemma LikeTermRulesHold(names: Assignment)
    ensures forall r :: r in LikeTermRules() ==> Holds(r, names)
  {
    hide Operate;
    var a, b, c, d, x := names("a"), names("b"), names("c"), names("d"), names("x");
    DistributiveLaws(x, a, b);
    ProductLaws(a, x, b);
    ProductLaws(b, x, a);
    ProductLaws(c, x, a);
    SignLaws(Operate(MUL, a, x), d, Operate(MUL, b, x));
  }

  lemma FoldRulesHold(names: Assignment)
    ensures forall r :: r in FoldRules() ==> Holds(r, names)
  {
    hide RPow, IsNatural;
  }

  /** What the offset of a linear side contributes once it has its sign. */
  function Offset(op: Operator, offset: Value): Value {
    if op == SUB then Negative(offset) else offset
  }

  lemma RealBalance(al: real, bl: real, ar: real, br: real, x: real)
    ensures al * x + bl == ar * x + br <==> (al - ar) * x == br - bl
  {
    RealDistributes(x, al, ar);
  }

  lemma OffsetSum(l: Operator, u: Value, b: Value)
    requires l == ADD || l == SUB
    ensures Operate(l, u, b) == Operate(ADD, u, Offset(l, b))
  {
    hide RPow, IsNatural;
  }

  lemma LinearBalance(al: Value, bl: Value, ar: Value, br: Value, x: Value)
    ensures
      var before := Operate(EQ, Operate(ADD, Operate(MUL, al, x), bl), Operate(ADD, Operate(MUL, ar, x), br));
      before != Undefined ==> Operate(EQ, Operate(MUL, Operate(SUB, al, ar), x), Operate(SUB, br, bl)) == before
  {
    hide RPow, IsNatural;
    if al.Num? && bl.Num? && ar.Num? && br.Num? && x.Num? {
      RealBalance(al.r, bl.r, ar.r, br.r, x.r);
    }
  }

  lemma SideMeaning(op: Operator, coefficient: string, offset: string, names: Assignment)
    ensures EvalWith(LinearSide(op, coefficient, offset), names)
         == Operate(op, Operate(MUL, names(coefficient), names("x")), names(offset))
  {
    hide Operate;
    assert EvalWith(Mul(C(coefficient), P("x")), names) == Operate(MUL, names(coefficient), names("x"));
  }

  lemma EquationMeaning(l: Expr, r: Expr, names: Assignment)
    ensures EvalWith(Eq(l, r), names) == Operate(EQ, EvalWith(l, names), EvalWith(r, names))
  {
    hide Operate;
  }

  lemma BothSidesRuleHolds(l: Operator, r: Operator, names: Assignment)
    requires l == ADD || l == SUB
    requires r == ADD || r == SUB
    ensures Holds(BothSidesRule(l, r), names)
  {
    hide Operate, Negative, LinearSide;
    SideMeaning(l, "al", "bl", names);
    SideMeaning(r, "ar", "br", names);
    EquationMeaning(LinearSide(l, "al", "bl"), LinearSide(r, "ar", "br"), names);
    EquationMeaning(Mul(P("as"), P("x")), P("bs"), names);
    assert EvalWith(Mul(P("as"), P("x")), names) == Operate(MUL, names("as"), names("x"));
    hide EvalWith;
    OffsetSum(l, Operate(MUL, names("al"), names("x")), names("bl"));
    OffsetSum(r, Operate(MUL, names("ar"), names("x")), names("br"));
    LinearBalance(names("al"), Offset(l, names("bl")), names("ar"), Offset(r, names("br")), names("x"));
  }

  lemma BothSidesRulesHold(names: Assignment)
    ensures forall r :: r in BothSidesRules() ==> Holds(r, names)
  {
    hide Holds;
    BothSidesRuleHolds(SUB, SUB, names);
    BothSidesRuleHolds(SUB, ADD, names);
    BothSidesRuleHolds(ADD, SUB, names);
    BothSidesRuleHolds(ADD, ADD, names);
  }

  lemma CrossMultiply(a: real, b: real, c: real, d: real)
    requires b != 0.0 && d != 0.0
    ensures a / b == c / d <==> a * d == b * c
  {
    var p, q := a / b, c / d;
    assert p * b == a && q * d == c;
    assert a * d == p * (b * d) && b * c == q * (b * d);
    RealProductNonzero(b, d);
    if a * d == b * c {
      assert (p - q) * (b * d) == 0.0;
    }
  }

  lemma CrossMultiplyBoth(a: Value, b: Value, c: Value, d: Value)
    ensures
      var before := Operate(EQ, Operate(DIV, a, b), Operate(DIV, c, d));
      before != Undefined ==> Operate(EQ, Operate(MUL, a, d), Operate(MUL, b, c)) == before
  {
    hide RPow, IsNatural;
    if a.Num? && b.Num? && c.Num? && d.Num? && b.r != 0.0 && d.r != 0.0 {
      CrossMultiply(a.r, b.r, c.r, d.r);
    }
  }

  lemma DivideByOne(v: Value)
    ensures v.Num? ==>
      Operate(DIV, v, Num(1.0)) == v && Operate(MUL, v, Num(1.0)) == v && Operate(MUL, Num(1.0), v) == v
  {
  }

  lemma NumericEquation(v: Value, w: Value)
    ensures Operate(EQ, v, w) != Undefined ==> v.Num? && w.Num?
    ensures Operate(DIV, v, w).Num? ==> v.Num?
  {
  }

  lemma NormalizerRulesHold(names: Assignment)
    ensures forall r :: r in NormalizerRules() ==> Holds(r, names)
  {
    hide Operate;
    var a, b, c, d := names("a"), names("b"), names("c"), names("d");
    var one := Num(1.0);
    NumericEquation(Operate(DIV, a, b), c);
    NumericEquation(a, Operate(DIV, c, d));
    NumericEquation(a, b);
    NumericEquation(c, d);
    DivideByOne(a);
    DivideByOne(c);
    CrossMultiplyBoth(a, b, c, d);
    CrossMultiplyBoth(a, b, c, one);
    CrossMultiplyBoth(a, one, c, d);
  }

  // ---------- A rule that fires keeps the value ----------

  predicate IsExecName(exec: Exec, x: string) {
    match exec
    case NoExec => false
    case NegateIfNegative => x == "n"
    case FoldConstants(_, _) => x == "c"
    case CombineCoeffs(_, _) => x == "as" || x == "bs"
  }

  predicate Mentions(e: Expr, x: string) {
    match e
    case Variable(y) => x == y
    case PatternVar(y, _) => x == y
    case Unop(l) => Mentions(l, x)
    case Binop(_, l, r, _) => Mentions(l, x) || Mentions(r, x)
    case _ => false
  }

  lemma {:induction false} MentionsIsIn(e: Expr, x: string)
    ensures Mentions(e, x) <==> x in Names(e)
  {
    match e {
      case Unop(l) => MentionsIsIn(l, x);
      case Binop(_, l, r, _) =>
        MentionsIsIn(l, x);
        MentionsIsIn(r, x);
      case _ =>
    }
  }

  /** Every name of `t` is one of the pattern or is set by the exec step. */
  predicate Covered(t: Expr, rule: Rule) {
    match t
    case Variable(x) => Mentions(rule.pattern, x) || IsExecName(rule.exec, x)
    case PatternVar(x, _) => Mentions(rule.pattern, x) || IsExecName(rule.exec, x)
    case Unop(l) => Covered(l, rule)
    case Binop(_, l, r, _) => Covered(l, rule) && Covered(r, rule)
    case _ => true
  }

  predicate Disjoint(p: Expr, exec: Exec) {
    match p
    case Variable(x) => !IsExecName(exec, x)
    case PatternVar(x, _) => !IsExecName(exec, x)
    case Unop(l) => Disjoint(l, exec)
    case Binop(_, l, r, _) => Disjoint(l, exec) && Disjoint(r, exec)
    case _ => true
  }

  /** The exec step sets names the pattern does not use, and the template uses no other names. */
  predicate WellNamed(rule: Rule) {
    && Disjoint(rule.pattern, rule.exec)
    && Covered(rule.template, rule)
    && (rule.exec.FoldConstants? ==> IsArithmetic(rule.exec.op))
  }

  ghost predicate SoundRule(rule: Rule) {
    WellNamed(rule) && forall names: Assignment :: Holds(rule, names)
  }

  lemma UnitRulesNamed() ensures forall r :: r in UnitRules() ==> WellNamed(r) {}
  lemma NegativeConstantRulesNamed() ensures forall r :: r in NegativeConstantRules() ==> WellNamed(r) {}
  lemma ProductRulesNamed() ensures forall r :: r in ProductRules() ==> WellNamed(r) {}
  lemma ConstantFirstRulesNamed() ensures forall r :: r in ConstantFirstRules() ==> WellNamed(r) {}
  lemma NegativeFactorRulesNamed() ensures forall r :: r in NegativeFactorRules() ==> WellNamed(r) {}
  lemma MinusRulesNamed() ensures forall r :: r in MinusRules() ==> WellNamed(r) {}
  lemma SumRulesNamed() ensures forall r :: r in SumRules() ==> WellNamed(r) {}
  lemma LikeTermRulesNamed() ensures forall r :: r in LikeTermRules() ==> WellNamed(r) {}
  lemma FoldRulesNamed() ensures forall r :: r in FoldRules() ==> WellNamed(r) {}

  lemma BothSidesRulesNamed()
    ensures forall r :: r in BothSidesRules() ==> WellNamed(r)
  {
    hide WellNamed, BothSidesRule;
    BothSidesRuleNamed(SUB, SUB);
    BothSidesRuleNamed(SUB, ADD);
    BothSidesRuleNamed(ADD, SUB);
    BothSidesRuleNamed(ADD, ADD);
  }

  lemma BothSidesRuleNamed(l: Operator, r: Operator)
    ensures WellNamed(BothSidesRule(l, r))
  {
    hide LinearSide, Disjoint, Covered, Mentions;
    var rule := BothSidesRule(l, r);
    SideDisjoint(l, "al", "bl", rule.exec);
    SideDisjoint(r, "ar", "br", rule.exec);
    SideMentions(l, "al", "bl");
    SolvedCovered(LinearSide(l, "al", "bl"), LinearSide(r, "ar", "br"), rule);
  }

  lemma SolvedCovered(l: Expr, r: Expr, rule: Rule)
    requires rule.pattern == Eq(l, r) && rule.exec.CombineCoeffs? && Mentions(l, "x")
    ensures Covered(Eq(Mul(P("as"), P("x")), P("bs")), rule)
    ensures Disjoint(rule.pattern, rule.exec) <==> Disjoint(l, rule.exec) && Disjoint(r, rule.exec)
  {
    var x := "x";
    assert Mentions(rule.pattern, x);
    assert Covered(P(x), rule);
    assert Covered(P("as"), rule);
    assert Covered(Mul(P("as"), P("x")), rule);
  }

  lemma SideDisjoint(op: Operator, coefficient: string, offset: string, exec: Exec)
    requires !IsExecName(exec, coefficient) && !IsExecName(exec, offset) && !IsExecName(exec, "x")
    ensures Disjoint(LinearSide(op, coefficient, offset), exec)
  {
    hide IsExecName;
    var x := P("x");
    assert Disjoint(C(coefficient), exec) && Disjoint(x, exec) && Disjoint(C(offset), exec);
    DisjointBinop(MUL, C(coefficient), x, exec);
    DisjointBinop(op, Mul(C(coefficient), x), C(offset), exec);
  }

  lemma DisjointBinop(op: Operator, l: Expr, r: Expr, exec: Exec)
    requires Disjoint(l, exec) && Disjoint(r, exec)
    ensures Disjoint(Bin(op, l, r), exec)
  {
  }

  lemma SideMentions(op: Operator, coefficient: string, offset: string)
    ensures Mentions(LinearSide(op, coefficient, offset), "x")
  {
    assert Mentions(Mul(C(coefficient), P("x")), "x");
  }

  lemma NormalizerRulesNamed() ensures forall r :: r in NormalizerRules() ==> WellNamed(r) {}
}
