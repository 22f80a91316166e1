/**
 * Running the rewrite rules: one firing, any chain of firings at any subterm, and the whole of
 * `simplifyExpr` and `normalize` keep the value of the expression
 * (examples/data-objects/math/src/mathExpr.ts).
 */
module MathSimplify {
  import opened MathExpr
  import opened MathConstants
  import opened MathMatch
  import opened MathRules
  import opened Options

  // ---------- One firing ----------

  lemma TablesAreSound()
    ensures forall r :: r in SimplifierRules() ==> SoundRule(r)
    ensures forall r :: r in NormalizerRules() ==> SoundRule(r)
  {
    hide *;
    TablesAreNamed();
    forall r, names: Assignment | r in SimplifierRules() || r in NormalizerRules() ensures Holds(r, names) {
      TablesHold(names);
    }
    SoundFromParts();
  }

  lemma SoundFromParts()
    requires forall r :: r in SimplifierRules() || r in NormalizerRules() ==> WellNamed(r)
    requires forall r, names: Assignment :: r in SimplifierRules() || r in NormalizerRules() ==> Holds(r, names)
    ensures forall r :: r in SimplifierRules() || r in NormalizerRules() ==> SoundRule(r)
  {
    hide SimplifierRules, NormalizerRules, WellNamed, Holds;
  }

  lemma TablesAreNamed()
    ensures forall r :: r in SimplifierRules() || r in NormalizerRules() ==> WellNamed(r)
  {
    hide UnitRules, NegativeConstantRules, ProductRules, ConstantFirstRules, NegativeFactorRules, MinusRules, SumRules,
      LikeTermRules, FoldRules, BothSidesRules, NormalizerRules, WellNamed;
    UnitRulesNamed();
    NegativeConstantRulesNamed();
    ProductRulesNamed();
    ConstantFirstRulesNamed();
    NegativeFactorRulesNamed();
    MinusRulesNamed();
    SumRulesNamed();
    LikeTermRulesNamed();
    FoldRulesNamed();
    BothSidesRulesNamed();
    NormalizerRulesNamed();
  }

  lemma TablesHold(names: Assignment)
    ensures forall r :: r in SimplifierRules() || r in NormalizerRules() ==> Holds(r, names)
  {
    hide UnitRules, NegativeConstantRules, ProductRules, ConstantFirstRules, NegativeFactorRules, MinusRules, SumRules,
      LikeTermRules, FoldRules, BothSidesRules, NormalizerRules, Holds;
    UnitRulesHold(names);
    NegativeConstantRulesHold(names);
    ProductRulesHold(names);
    ConstantFirstRulesHold(names);
    NegativeFactorRulesHold(names);
    MinusRulesHold(names);
    SumRulesHold(names);
    LikeTermRulesHold(names);
    FoldRulesHold(names);
    BothSidesRulesHold(names);
    NormalizerRulesHold(names);
  }

  lemma ConstantMeaning(env: Env, x: string, val: Valuation)
    requires BoundToConstant(env, x)
    ensures Meaning(env, val)(x) == ConstantValue(env[x])
  {
  }

  /** The exec step gives its names the meaning the rules rely on and leaves the others alone. */
  lemma ExecSound(exec: Exec, env: Env, val: Valuation)
    requires RunExec(exec, env).Some?
    requires exec.FoldConstants? ==> IsArithmetic(exec.op)
    ensures var env' := RunExec(exec, env).value;
      && ExecMeaning(exec, Meaning(env', val))
      && (forall x :: !IsExecName(exec, x) ==> (x in env' <==> x in env) && (x in env ==> env'[x] == env[x]))
      && (forall x :: IsExecName(exec, x) ==> x in env')
  {
    match exec {
      case NoExec =>
      case NegateIfNegative => NegateExecSound(env, val);
      case FoldConstants(op, reverse) => FoldExecSound(op, reverse, env, val);
      case CombineCoeffs(negateLeft, negateRight) => CombineExecSound(negateLeft, negateRight, env, val);
    }
  }

  lemma NegateExecSound(env: Env, val: Valuation)
    requires RunExec(NegateIfNegative, env).Some?
    ensures ExecMeaning(NegateIfNegative, Meaning(RunExec(NegateIfNegative, env).value, val))
  {
    var env' := RunExec(NegateIfNegative, env).value;
    NegateValue(env["b"]);
    ConstantMeaning(env', "b", val);
    ConstantMeaning(env', "n", val);
  }

  lemma FoldExecSound(op: Operator, reverse: bool, env: Env, val: Valuation)
    requires IsArithmetic(op)
    requires RunExec(FoldConstants(op, reverse), env).Some?
    ensures ExecMeaning(FoldConstants(op, reverse), Meaning(RunExec(FoldConstants(op, reverse), env).value, val))
  {
    hide ApplyBinop, ConstantValue, Operate, Meaning;
    var env' := RunExec(FoldConstants(op, reverse), env).value;
    var (o1, o2) := if reverse then (env["b"], env["a"]) else (env["a"], env["b"]);
    ApplyBinopExact(op, o1, o2, Bin(op, o1, o2));
    ConstantMeaning(env', "a", val);
    ConstantMeaning(env', "b", val);
    ConstantMeaning(env', "c", val);
  }

  lemma SignedMeaning(env: Env, x: string, negate: bool)
    requires BoundToConstant(env, x)
    ensures IsConstant(SignedConstant(env, x, negate))
    ensures ConstantValue(SignedConstant(env, x, negate))
      == if negate then Negative(ConstantValue(env[x])) else ConstantValue(env[x])
  {
    NegateValue(env[x]);
  }

  lemma CombineExecSound(negateLeft: bool, negateRight: bool, env: Env, val: Valuation)
    requires RunExec(CombineCoeffs(negateLeft, negateRight), env).Some?
    ensures ExecMeaning(CombineCoeffs(negateLeft, negateRight),
        Meaning(RunExec(CombineCoeffs(negateLeft, negateRight), env).value, val))
  {
    var exec := CombineCoeffs(negateLeft, negateRight);
    var env' := RunExec(exec, env).value;
    SignedMeaning(env, "bl", negateLeft);
    SignedMeaning(env, "br", negateRight);
    var bLeft, bRight := SignedConstant(env, "bl", negateLeft), SignedConstant(env, "br", negateRight);
    hide ApplyBinop, ConstantValue, Operate, SignedConstant, Negative, Meaning;
    ApplyBinopExact(SUB, env["al"], env["ar"], Bin(SUB, env["al"], env["ar"]));
    ApplyBinopExact(SUB, bRight, bLeft, Bin(SUB, bRight, bLeft));
    ConstantMeaning(env', "al", val);
    ConstantMeaning(env', "ar", val);
    ConstantMeaning(env', "bl", val);
    ConstantMeaning(env', "br", val);
    ConstantMeaning(env', "as", val);
    ConstantMeaning(env', "bs", val);
  }

  lemma {:induction false} DisjointNames(p: Expr, exec: Exec, x: string)
    requires Disjoint(p, exec) && x in Names(p)
    ensures !IsExecName(exec, x)
  {
    match p {
      case Unop(l) => DisjointNames(l, exec, x);
      case Binop(_, l, r, _) =>
        if x in Names(l) {
          DisjointNames(l, exec, x);
        } else {
          DisjointNames(r, exec, x);
        }
      case _ =>
    }
  }

  /** A sound rule that fires safely keeps the value. */
  lemma FiringSound(rule: Rule, e: Expr, val: Valuation)
    requires Plain(e) && SoundRule(rule)
    requires ApplyRule(rule, e).Some? && SafeFiring(ApplyRule(rule, e).value)
    ensures Eval(e, val) != Undefined ==> Eval(ApplyRule(rule, e).value.result, val) == Eval(e, val)
  {
    var env := Match(rule.pattern, e, map[], false).1;
    var env' := RunExec(rule.exec, env).value;
    var result := ApplyRule(rule, e).value.result;
    hide Match, RunExec, Names, EvalWith, Subst, Plain, Size, ExecMeaning, Covered, Disjoint, IsExecName, Eval,
      Meaning, LiteralSafe;
    MatchSound(rule.pattern, e, map[], val);
    ExecSound(rule.exec, env, val);
    forall x | x in Names(rule.pattern) ensures Meaning(env, val)(x) == Meaning(env', val)(x) {
      DisjointNames(rule.pattern, rule.exec, x);
      SameMeaning(env, env', x, val);
    }
    EvalAgrees(rule.pattern, Meaning(env, val), Meaning(env', val));
    assert Holds(rule, Meaning(env', val));
    SubstMeaning(rule.template, env', val);
  }

  lemma SameMeaning(env: Env, env': Env, x: string, val: Valuation)
    requires x in env && x in env' && env[x] == env'[x]
    ensures Meaning(env, val)(x) == Meaning(env', val)(x)
  {
  }

  /** What fires is a rule of the table, applied to the expression. */
  lemma {:induction false} BuildIfMatchIsFiring(rules: seq<Rule>, e: Expr)
    requires Plain(e)
    ensures var f := BuildIfMatch(rules, e); f.Some? ==> f.value.rule in rules && ApplyRule(f.value.rule, e) == f
  {
    if rules != [] {
      BuildIfMatchIsFiring(rules[1..], e);
    }
  }

  lemma {:induction false} CoveredNames(t: Expr, rule: Rule, x: string)
    requires Covered(t, rule) && x in Names(t)
    ensures x in Names(rule.pattern) || IsExecName(rule.exec, x)
  {
    match t {
      case Unop(l) => CoveredNames(l, rule, x);
      case Binop(_, l, r, _) =>
        if x in Names(l) {
          CoveredNames(l, rule, x);
        } else {
          CoveredNames(r, rule, x);
        }
      case _ => MentionsIsIn(rule.pattern, x);
    }
  }

  lemma ExecKeepsPlain(exec: Exec, env: Env)
    requires PlainEnv(env) && RunExec(exec, env).Some?
    requires exec.FoldConstants? ==> IsArithmetic(exec.op)
    ensures PlainEnv(RunExec(exec, env).value)
  {
    match exec {
      case FoldConstants(op, reverse) =>
        var (o1, o2) := if reverse then (env["b"], env["a"]) else (env["a"], env["b"]);
        hide ApplyBinop;
        ApplyBinopExact(op, o1, o2, Bin(op, o1, o2));
      case CombineCoeffs(negateLeft, negateRight) =>
        var bLeft, bRight := SignedConstant(env, "bl", negateLeft), SignedConstant(env, "br", negateRight);
        hide ApplyBinop;
        ApplyBinopExact(SUB, env["al"], env["ar"], Bin(SUB, env["al"], env["ar"]));
        ApplyBinopExact(SUB, bRight, bLeft, Bin(SUB, bRight, bLeft));
      case _ =>
    }
  }

  lemma FiringPlain(rule: Rule, e: Expr)
    requires Plain(e) && WellNamed(rule) && ApplyRule(rule, e).Some?
    ensures Plain(ApplyRule(rule, e).value.result)
  {
    var (matched, env) := Match(rule.pattern, e, map[], false);
    var env' := RunExec(rule.exec, env).value;
    var val: Valuation := _ => 0.0;
    hide Match, RunExec, Names, Subst, Plain, Size, Covered, Disjoint, IsExecName, ExecMeaning;
    BoundNames(rule.pattern, e, map[]);
    ExecSound(rule.exec, env, val);
    ExecKeepsPlain(rule.exec, env);
    forall x | x in Names(rule.template) ensures x in env' {
      CoveredNames(rule.template, rule, x);
    }
    SubstPlain(rule.template, env');
  }

  // ---------- Any chain of firings, at any subterm ----------

  predicate InTables(rule: Rule) {
    rule in SimplifierRules() || rule in NormalizerRules()
  }

  predicate FiresTo(rule: Rule, e: Expr, e': Expr)
    requires Plain(e)
  {
    var f := ApplyRule(rule, e);
    InTables(rule) && f.Some? && SafeFiring(f.value) && f.value.result == e'
  }

  predicate FoldsTo(e: Expr, e': Expr) {
    || (e.Rational? && e.b != 0 && e' == SimplifyRational(e.a, e.b))
    || (e.Unop? && IsConstant(e.operand1) && e' == Negate(e.operand1))
    || (e.Binop? && IsConstant(e.operand1) && IsConstant(e.operand2)
        && ApplyBinop(e.op, e.operand1, e.operand2, e) == Some(e'))
  }

  /** One rewrite: a rule fires safely, or constants are folded, at the root or at some subterm. */
  ghost predicate RewritesTo(e: Expr, e': Expr)
    requires Plain(e)
    decreases e
  {
    || FoldsTo(e, e')
    || (exists rule :: FiresTo(rule, e, e'))
    || (e.Unop? && e'.Unop? && RewritesTo(e.operand1, e'.operand1))
    || (e.Binop? && e'.Binop? && e.op == e'.op && (
          || (e.operand2 == e'.operand2 && RewritesTo(e.operand1, e'.operand1))
          || (e.operand1 == e'.operand1 && RewritesTo(e.operand2, e'.operand2))))
  }

  ghost predicate IsRun(run: seq<Expr>) {
    && run != []
    && (forall i :: 0 <= i < |run| ==> Plain(run[i]))
    && forall i :: 0 <= i < |run| - 1 ==> RewritesTo(run[i], run[i + 1])
  }

  lemma BinopPreserves(op: Operator, l: Expr, r: Expr, l': Expr, r': Expr, par: bool, par': bool)
    requires Preserves(l, l') && Preserves(r, r')
    ensures Preserves(Binop(op, l, r, par), Binop(op, l', r', par'))
  {
    var e, e' := Binop(op, l, r, par), Binop(op, l', r', par');
    forall val: Valuation | Eval(e, val) != Undefined ensures Eval(e', val) == Eval(e, val) {
      assert Eval(l, val) != Undefined && Eval(r, val) != Undefined;
      assert Eval(l', val) == Eval(l, val) && Eval(r', val) == Eval(r, val);
    }
  }

  lemma UnopPreserves(l: Expr, l': Expr)
    requires Preserves(l, l')
    ensures Preserves(Unop(l), Unop(l'))
  {
    forall val: Valuation | Eval(Unop(l), val) != Undefined ensures Eval(Unop(l'), val) == Eval(Unop(l), val) {
      assert Eval(l, val) != Undefined;
      assert Eval(l', val) == Eval(l, val);
    }
  }

  /** Every arithmetic fold keeps the value; the other operators only give the operation back. */
  lemma ApplyBinopPreserves(e: Expr, r: Expr)
    requires e.Binop? && IsConstant(e.operand1) && IsConstant(e.operand2)
    requires ApplyBinop(e.op, e.operand1, e.operand2, e) == Some(r)
    ensures r == e || IsConstant(r)
    ensures Preserves(e, r)
  {
    hide ApplyBinop, ConstantValue, Operate;
    if IsArithmetic(e.op) || e.op == EXP {
      ApplyBinopExact(e.op, e.operand1, e.operand2, e);
      forall val: Valuation ensures Eval(e, val) == Eval(r, val) {
        EvalConstantBinop(e, val);
        assert Eval(r, val) == ConstantValue(r);
      }
    } else {
      OtherOperatorGivesBack(e);
      PreservesSelf(e);
    }
  }

  lemma EvalConstantBinop(e: Expr, val: Valuation)
    requires e.Binop? && IsConstant(e.operand1) && IsConstant(e.operand2)
    ensures Eval(e, val) == Operate(e.op, ConstantValue(e.operand1), ConstantValue(e.operand2))
  {
    hide ConstantValue, Operate;
    assert Eval(e.operand1, val) == ConstantValue(e.operand1);
    assert Eval(e.operand2, val) == ConstantValue(e.operand2);
  }

  lemma OtherOperatorGivesBack(e: Expr)
    requires e.Binop? && IsConstant(e.operand1) && IsConstant(e.operand2)
    requires !IsArithmetic(e.op) && e.op != EXP
    ensures var r := ApplyBinop(e.op, e.operand1, e.operand2, e); r.Some? ==> r.value == e
  {
    hide Lcd;
  }

  lemma FoldPreserves(e: Expr, e': Expr)
    requires FoldsTo(e, e')
    ensures Preserves(e, e')
  {
    hide SimplifyRational, ApplyBinop;
    if e.Rational? {
      SimplifyKeepsValue(e.a, e.b);
    } else if e.Unop? {
      NegateValue(e.operand1);
      forall val: Valuation | Eval(e, val) != Undefined ensures Eval(e', val) == Eval(e, val) {
        assert Eval(e.operand1, val) == ConstantValue(e.operand1);
        assert Eval(e', val) == ConstantValue(e');
      }
    } else {
      ApplyBinopPreserves(e, e');
    }
  }

  lemma FiringPreserves(rule: Rule, e: Expr)
    requires Plain(e) && InTables(rule)
    requires ApplyRule(rule, e).Some? && SafeFiring(ApplyRule(rule, e).value)
    ensures Preserves(e, ApplyRule(rule, e).value.result)
    ensures Plain(ApplyRule(rule, e).value.result)
  {
    hide *;
    assert SoundRule(rule) && WellNamed(rule) by {
      RuleIsSound(rule);
    }
    PreservesFromFiring(rule, e);
    FiringPlain(rule, e);
  }

  lemma RuleIsSound(rule: Rule)
    requires InTables(rule)
    ensures SoundRule(rule) && WellNamed(rule)
  {
    hide SimplifierRules, NormalizerRules, WellNamed, Holds;
    TablesAreSound();
  }

  lemma PreservesFromFiring(rule: Rule, e: Expr)
    requires Plain(e) && SoundRule(rule)
    requires ApplyRule(rule, e).Some? && SafeFiring(ApplyRule(rule, e).value)
    ensures Preserves(e, ApplyRule(rule, e).value.result)
  {
    hide ApplyRule, SafeFiring, SoundRule, Eval;
    forall val: Valuation | Eval(e, val) != Undefined
      ensures Eval(ApplyRule(rule, e).value.result, val) == Eval(e, val)
    {
      FiringSound(rule, e, val);
    }
  }

  lemma {:induction false} RewritePreserves(e: Expr, e': Expr)
    requires Plain(e) && RewritesTo(e, e')
    ensures Preserves(e, e')
    decreases e
  {
    hide Preserves, FoldsTo, InTables, ApplyRule, SafeFiring;
    if FoldsTo(e, e') {
      FoldPreserves(e, e');
    } else if exists rule :: FiresTo(rule, e, e') {
      var rule :| FiresTo(rule, e, e');
      FiringPreserves(rule, e);
    } else if e.Unop? {
      RewritePreserves(e.operand1, e'.operand1);
      UnopPreserves(e.operand1, e'.operand1);
    } else {
      if e.operand2 == e'.operand2 && RewritesTo(e.operand1, e'.operand1) {
        RewritePreserves(e.operand1, e'.operand1);
        PreservesSelf(e.operand2);
      } else {
        RewritePreserves(e.operand2, e'.operand2);
        PreservesSelf(e.operand1);
      }
      BinopPreserves(e.op, e.operand1, e.operand2, e'.operand1, e'.operand2, e.parenthesized, e'.parenthesized);
    }
  }

  lemma PreservesSelf(e: Expr)
    ensures Preserves(e, e)
  {
  }

  /** Any finite chain of rewrites, each at any subterm, keeps the value of the expression. */
  lemma {:induction false} RunPreserves(run: seq<Expr>)
    requires IsRun(run)
    ensures Preserves(run[0], run[|run| - 1])
    decreases |run|
  {
    hide Preserves, RewritesTo, Plain;
    if |run| == 1 {
      PreservesSelf(run[0]);
    } else {
      var rest := run[1..];
      assert RewritesTo(run[0], run[1]);
      assert forall i :: 0 <= i < |rest| ==> rest[i] == run[i + 1];
      assert IsRun(rest);
      RunPreserves(rest);
      RewritePreserves(run[0], run[1]);
      PreservesTransitive(run[0], run[1], run[|run| - 1]);
    }
  }

  // ---------- simplifyExpr and normalize ----------

  /**
   * `changed` tells whether the source hands back a different object than it was given; `fired`
   * lists the rules that fired on the way. `Undefinable` stands for results outside this model
   * (see `ApplyBinop`), and `OutOfFuel` for a run that has not come to an end.
   */
  datatype Outcome =
    | Done(result: Expr, changed: bool, fired: seq<Firing>)
    | Undefinable
    | OutOfFuel

  function Simplify(e: Expr, fuel: nat): (r: Outcome)
    requires Plain(e)
    ensures r.Done? ==> Plain(r.result)
    decreases fuel
  {
    if fuel == 0 then OutOfFuel
    else
      match e
      case Rational(a, b) =>
        if b == 0 then Undefinable
        else
          SimplifyKeepsValue(a, b);
          var r := SimplifyRational(a, b);
          Done(r, r != e, [])
      case Unop(o) => SimplifyUnop(o, fuel)
      case Binop(op, o1, o2, par) =>
        if IsConstant(o1) && IsConstant(o2) then
          var r := ApplyBinop(op, o1, o2, e);
          if r.None? then Undefinable
          else
            ApplyBinopPreserves(e, r.value);
            Done(r.value, r.value != e, [])
        else
          var f := BuildIfMatch(SimplifierRules(), e);
          if f.Some? then
            FirstFiringPlain(e);
            Again(f.value.result, [f.value], fuel)
          else SimplifyOperands(op, o1, o2, par, fuel)
      case _ => Done(e, false, [])
  }

  /** The loop goes round with a new expression. */
  function Again(e: Expr, fired: seq<Firing>, fuel: nat): (r: Outcome)
    requires Plain(e) && fuel > 0
    ensures r.Done? ==> Plain(r.result)
    decreases fuel, 0
  {
    match Simplify(e, fuel - 1)
    case Done(r, _, more) => Done(r, true, fired + more)
    case other => other
  }

  function SimplifyUnop(o: Expr, fuel: nat): (r: Outcome)
    requires Plain(o) && fuel > 0
    ensures r.Done? ==> Plain(r.result)
    decreases fuel, 1
  {
    if IsConstant(o) then Done(Negate(o), true, [])
    else
      match Simplify(o, fuel - 1)
      case Done(o', changed, fired) =>
        if changed then Again(Unop(o'), fired, fuel) else Done(Unop(o), false, fired)
      case other => other
  }

  function SimplifyOperands(op: Operator, o1: Expr, o2: Expr, par: bool, fuel: nat): (r: Outcome)
    requires Plain(o1) && Plain(o2) && fuel > 0
    ensures r.Done? ==> Plain(r.result)
    decreases fuel, 1
  {
    match Simplify(o1, fuel - 1)
    case Done(o1', changed1, fired1) => (
      match Simplify(o2, fuel - 1)
      case Done(o2', changed2, fired2) =>
        if changed1 || changed2 then Again(Bin(op, o1', o2'), fired1 + fired2, fuel)
        else Done(Binop(op, o1, o2, par), false, fired1 + fired2)
      case other => other)
    case other => other
  }

  lemma FirstFiringPlain(e: Expr)
    requires Plain(e) && BuildIfMatch(SimplifierRules(), e).Some?
    ensures Plain(BuildIfMatch(SimplifierRules(), e).value.result)
  {
    hide SimplifierRules, BuildIfMatch, ApplyRule, Plain, WellNamed;
    BuildIfMatchIsFiring(SimplifierRules(), e);
    TablesAreSound();
    FiringPlain(BuildIfMatch(SimplifierRules(), e).value.rule, e);
  }

  predicate AllSafe(fired: seq<Firing>) {
    forall i :: 0 <= i < |fired| ==> SafeFiring(fired[i])
  }

  lemma AllSafeConcat(fs: seq<Firing>, gs: seq<Firing>)
    ensures AllSafe(fs + gs) <==> AllSafe(fs) && AllSafe(gs)
  {
    hide SafeFiring;
    if AllSafe(fs + gs) {
      assert forall i :: 0 <= i < |fs| ==> (fs + gs)[i] == fs[i];
      assert forall i :: 0 <= i < |gs| ==> (fs + gs)[|fs| + i] == gs[i];
    }
  }

  ghost predicate GoodOutcome(e: Expr, r: Outcome) {
    r.Done? && AllSafe(r.fired) ==> Preserves(e, r.result)
  }

  /** Whenever the simplifier ends, and every rule fired safely, it kept the value of the expression. */
  lemma {:induction false} SimplifyPreserves(e: Expr, fuel: nat)
    requires Plain(e)
    ensures GoodOutcome(e, Simplify(e, fuel))
    decreases fuel, 2
  {
    hide Preserves, AllSafe, SimplifierRules, BuildIfMatch, SimplifyRational, ApplyBinop, Again, SimplifyUnop,
      SimplifyOperands;
    if fuel > 0 {
      match e {
        case Rational(a, b) => if b != 0 { FoldPreserves(e, SimplifyRational(a, b)); }
        case Unop(o) => SimplifyUnopPreserves(o, fuel);
        case Binop(op, o1, o2, par) =>
          if IsConstant(o1) && IsConstant(o2) {
            var r := ApplyBinop(op, o1, o2, e);
            if r.Some? {
              ApplyBinopPreserves(e, r.value);
            }
          } else {
            var f := BuildIfMatch(SimplifierRules(), e);
            if f.Some? {
              FirstFiringPlain(e);
              FirstFiringPreserves(e, fuel);
            } else {
              SimplifyOperandsPreserves(op, o1, o2, par, fuel);
            }
          }
        case _ => PreservesSelf(e);
      }
    }
  }

  lemma FirstFiringPreserves(e: Expr, fuel: nat)
    requires Plain(e) && fuel > 0
    requires BuildIfMatch(SimplifierRules(), e).Some?
    requires Plain(BuildIfMatch(SimplifierRules(), e).value.result)
    ensures var f := BuildIfMatch(SimplifierRules(), e).value; GoodOutcome(e, Again(f.result, [f], fuel))
    decreases fuel, 1
  {
    hide SimplifierRules, BuildIfMatch, ApplyRule, Plain, Preserves, SafeFiring, GoodOutcome, Again;
    var f := BuildIfMatch(SimplifierRules(), e).value;
    BuildIfMatchIsFiring(SimplifierRules(), e);
    if AllSafe([f]) {
      assert SafeFiring([f][0]);
      FiringPreserves(f.rule, e);
    }
    AgainPreserves(e, f.result, [f], fuel);
  }

  /** Going round the loop with an expression that kept the value so far. */
  lemma AgainPreserves(e: Expr, e': Expr, fired: seq<Firing>, fuel: nat)
    requires Plain(e') && fuel > 0
    requires AllSafe(fired) ==> Preserves(e, e')
    ensures GoodOutcome(e, Again(e', fired, fuel))
    decreases fuel, 0
  {
    hide Preserves, AllSafe, Simplify;
    SimplifyPreserves(e', fuel - 1);
    match Simplify(e', fuel - 1) {
      case Done(r, _, more) =>
        AllSafeConcat(fired, more);
        if AllSafe(fired + more) {
          PreservesTransitive(e, e', r);
        }
      case _ =>
    }
  }

  lemma SimplifyUnopPreserves(o: Expr, fuel: nat)
    requires Plain(o) && fuel > 0
    ensures GoodOutcome(Unop(o), SimplifyUnop(o, fuel))
    decreases fuel, 1
  {
    hide Preserves, AllSafe, Simplify, Again;
    if IsConstant(o) {
      FoldPreserves(Unop(o), Negate(o));
    } else {
      SimplifyPreserves(o, fuel - 1);
      match Simplify(o, fuel - 1) {
        case Done(o', changed, fired) =>
          if AllSafe(fired) {
            UnopPreserves(o, o');
          }
          if changed {
            AgainPreserves(Unop(o), Unop(o'), fired, fuel);
          } else {
            PreservesSelf(Unop(o));
          }
        case _ =>
      }
    }
  }

  lemma SimplifyOperandsPreserves(op: Operator, o1: Expr, o2: Expr, par: bool, fuel: nat)
    requires Plain(o1) && Plain(o2) && fuel > 0
    ensures GoodOutcome(Binop(op, o1, o2, par), SimplifyOperands(op, o1, o2, par, fuel))
    decreases fuel, 1
  {
    hide Preserves, AllSafe, Simplify, Again;
    var e := Binop(op, o1, o2, par);
    SimplifyPreserves(o1, fuel - 1);
    SimplifyPreserves(o2, fuel - 1);
    var r1, r2 := Simplify(o1, fuel - 1), Simplify(o2, fuel - 1);
    if r1.Done? && r2.Done? {
      AllSafeConcat(r1.fired, r2.fired);
      if AllSafe(r1.fired + r2.fired) {
        BinopPreserves(op, o1, o2, r1.result, r2.result, par, false);
      }
      if r1.changed || r2.changed {
        AgainPreserves(e, Bin(op, r1.result, r2.result), r1.fired + r2.fired, fuel);
      } else {
        PreservesSelf(e);
      }
    }
  }

  /** The normalizer clears the denominators of an equation, then simplifies. */
  function Normalize(eqn: Expr, fuel: nat): Outcome
    requires Plain(eqn)
  {
    var f := BuildIfMatch(NormalizerRules(), eqn);
    if f.None? then Simplify(eqn, fuel)
    else
      NormalizerFiringPlain(eqn);
      match Simplify(f.value.result, fuel)
      case Done(r, _, more) => Done(r, true, [f.value] + more)
      case other => other
  }

  lemma NormalizerFiringPlain(e: Expr)
    requires Plain(e) && BuildIfMatch(NormalizerRules(), e).Some?
    ensures Plain(BuildIfMatch(NormalizerRules(), e).value.result)
  {
    hide NormalizerRules, BuildIfMatch, ApplyRule, Plain, WellNamed;
    BuildIfMatchIsFiring(NormalizerRules(), e);
    TablesAreSound();
    FiringPlain(BuildIfMatch(NormalizerRules(), e).value.rule, e);
  }

  lemma NormalizePreserves(eqn: Expr, fuel: nat)
    requires Plain(eqn)
    ensures GoodOutcome(eqn, Normalize(eqn, fuel))
  {
    hide NormalizerRules, BuildIfMatch, ApplyRule, Plain, Preserves, SafeFiring, Simplify;
    var f := BuildIfMatch(NormalizerRules(), eqn);
    if f.None? {
      SimplifyPreserves(eqn, fuel);
    } else {
      NormalizerFiringPlain(eqn);
      BuildIfMatchIsFiring(NormalizerRules(), eqn);
      SimplifyPreserves(f.value.result, fuel);
      match Simplify(f.value.result, fuel) {
        case Done(r, _, more) =>
          AllSafeConcat([f.value], more);
          if AllSafe([f.value] + more) {
            assert SafeFiring([f.value][0]);
            FiringPreserves(f.value.rule, eqn);
            PreservesTransitive(eqn, f.value.result, r);
          }
        case _ =>
      }
    }
  }
}
