/**
 * What a simplified expression looks like: nothing is left that could be folded and no rule of the table applies
 * (`simplifyExpr` and `buildIfMatch` of examples/data-objects/math/src/mathExpr.ts).
 */
module MathSettled {
  import opened MathExpr
  import opened MathConstants
  import opened MathMatch
  import opened MathInstances
  import opened MathRules
  import opened MathSimplify
  import opened Options

  // ---------- When a rule fires ----------

  predicate IsNumber(env: Env, x: string) {
    x in env && (env[x].Integer? || env[x].Rational? || env[x].Real?) && ConstantValue(env[x]).Num?
  }

  /** What the exec step of a rule asks of the names it reads; those are numbers. */
  predicate ExecWants(exec: Exec, env: Env) {
    match exec
    case NoExec => true
    case NegateIfNegative => IsNumber(env, "b") && ConstantValue(env["b"]).r < 0.0
    case FoldConstants(_, _) => IsNumber(env, "a") && IsNumber(env, "b")
    case CombineCoeffs(_, _) =>
      IsNumber(env, "al") && IsNumber(env, "ar") && IsNumber(env, "bl") && IsNumber(env, "br")
  }

  lemma ExecRuns(exec: Exec, env: Env)
    requires ExecWants(exec, env) && (exec.FoldConstants? ==> exec.op == ADD || exec.op == SUB)
    ensures RunExec(exec, env).Some?
  {
    hide ApplyBinop;
    match exec {
      case NoExec =>
      case NegateIfNegative => IsNegativeValue(env["b"]);
      case FoldConstants(op, reverse) =>
        var (o1, o2) := if reverse then (env["b"], env["a"]) else (env["a"], env["b"]);
        ApplyBinopExact(op, o1, o2, Bin(op, o1, o2));
      case CombineCoeffs(negateLeft, negateRight) => CombineRuns(negateLeft, negateRight, env);
    }
  }

  lemma CombineRuns(negateLeft: bool, negateRight: bool, env: Env)
    requires ExecWants(CombineCoeffs(negateLeft, negateRight), env)
    ensures RunExec(CombineCoeffs(negateLeft, negateRight), env).Some?
  {
    hide ApplyBinop;
    NegateValue(env["bl"]);
    NegateValue(env["br"]);
    var bLeft, bRight := SignedConstant(env, "bl", negateLeft), SignedConstant(env, "br", negateRight);
    ApplyBinopExact(SUB, env["al"], env["ar"], Bin(SUB, env["al"], env["ar"]));
    ApplyBinopExact(SUB, bRight, bLeft, Bin(SUB, bRight, bLeft));
  }

  /** A rule fires on every instance of its pattern that its exec step wants. */
  lemma RuleFires(rule: Rule, env: Env)
    requires PlainEnv(env) && WithoutErrors(rule.pattern) && Typed(rule.pattern, env)
    requires (forall x :: x in env ==> x in Names(rule.pattern)) && RepeatsCompare(rule.pattern, map[], env)
    requires ExecWants(rule.exec, env) && (rule.exec.FoldConstants? ==> rule.exec.op == ADD || rule.exec.op == SUB)
    ensures Plain(Subst(rule.pattern, env)) && RunExec(rule.exec, env).Some?
    ensures ApplyRule(rule, Subst(rule.pattern, env))
      == Some(Firing(rule, env, Subst(rule.template, RunExec(rule.exec, env).value)))
  {
    hide Match, RunExec, ExecWants, Typed, Names, RepeatsCompare, Subst, WithoutErrors, Plain;
    InstanceMatches(rule.pattern, env);
    ExecRuns(rule.exec, env);
  }

  lemma {:induction false} NothingFires(rules: seq<Rule>, e: Expr)
    requires Plain(e)
    ensures BuildIfMatch(rules, e).None? <==> forall r :: r in rules ==> ApplyRule(r, e).None?
  {
    hide ApplyRule;
    if rules != [] {
      NothingFires(rules[1..], e);
      assert forall r :: r in rules <==> r == rules[0] || r in rules[1..];
    }
  }

  /** The first rule of the table that applies is the one that fires. */
  lemma {:induction false} FirstRuleFires(rules: seq<Rule>, i: nat, e: Expr)
    requires Plain(e) && i < |rules| && ApplyRule(rules[i], e).Some?
    requires forall j :: 0 <= j < i ==> ApplyRule(rules[j], e).None?
    ensures BuildIfMatch(rules, e) == ApplyRule(rules[i], e)
  {
    hide ApplyRule;
    if i > 0 {
      assert forall j :: 0 <= j < i - 1 ==> rules[1..][j] == rules[j + 1];
      FirstRuleFires(rules[1..], i - 1, e);
    }
  }

  // ---------- What a result looks like ----------

  /** A comparison of two integers or with a real is left as it is. */
  predicate Comparison(op: Operator, l: Expr, r: Expr) {
    && op != ADD && op != SUB && op != MUL && op != DIV && op != EXP
    && ((l.Integer? && r.Integer?) || (IsProper(l) && IsProper(r) && (l.Real? || r.Real?)))
  }

  predicate NoRuleApplies(e: Expr)
    requires Plain(e)
  {
    forall r :: r in SimplifierRules() ==> ApplyRule(r, e).None?
  }

  /** Nothing in the expression can be folded or rewritten, and its fractions are in lowest terms. */
  predicate Settled(e: Expr)
    requires Plain(e)
  {
    match e
    case Rational(_, _) => IsLowest(e)
    case Unop(o) => !IsConstant(o) && Settled(o)
    case Binop(op, l, r, _) =>
      if IsConstant(l) && IsConstant(r) then Comparison(op, l, r)
      else NoRuleApplies(e) && Settled(l) && Settled(r)
    case _ => true
  }

  ghost predicate Finished(e: Expr, r: Outcome) {
    r.Done? ==>
      && Plain(r.result)
      && (IsConstant(r.result) || Settled(r.result))
      && (!r.changed ==> r == Done(e, false, []) && Plain(e) && Settled(e))
  }

  lemma LowestTermsStay(a: int, b: int)
    requires b != 0
    ensures SimplifyRational(a, b) == Rational(a, b) <==> IsLowest(Rational(a, b))
  {
    hide Rem, Gcd;
    SimplifyIsLowest(a, b);
  }

  /** The operators that leave two constants as they are. */
  lemma UnfoldedIsComparison(e: Expr)
    requires e.Binop? && IsConstant(e.operand1) && IsConstant(e.operand2)
    ensures ApplyBinop(e.op, e.operand1, e.operand2, e) == Some(e) <==> Comparison(e.op, e.operand1, e.operand2)
  {
    var op, l, r := e.op, e.operand1, e.operand2;
    if IsArithmetic(op) || op == EXP {
      ApplyBinopExact(op, l, r, e);
    } else if IsProper(l) && IsProper(r) {
      OtherOperator(op, l, r, e);
    }
  }

  lemma OtherOperator(op: Operator, l: Expr, r: Expr, e: Expr)
    requires IsProper(l) && IsProper(r) && !IsArithmetic(op) && op != EXP
    ensures ApplyBinop(op, l, r, e) == if Comparison(op, l, r) then Some(e) else None
  {
    hide Lcd;
  }

  // ---------- Whatever the simplifier returns is settled ----------

  /** The result of a run is a number or settled, and it is the expression itself unless something has changed. */
  lemma {:induction false} SimplifySettles(e: Expr, fuel: nat)
    requires Plain(e)
    ensures Finished(e, Simplify(e, fuel))
    decreases fuel, 2
  {
    hide SimplifierRules, BuildIfMatch, SimplifyRational, ApplyBinop, Again, SimplifyUnop, SimplifyOperands, Finished;
    NotDone(e);
    if fuel > 0 {
      match e {
        case Rational(a, b) => if b != 0 { RationalSettles(a, b); }
        case Unop(o) => UnopSettles(o, fuel);
        case Binop(op, o1, o2, par) =>
          if IsConstant(o1) && IsConstant(o2) {
            ConstantsSettle(e);
          } else {
            var f := BuildIfMatch(SimplifierRules(), e);
            if f.Some? {
              FirstFiringPlain(e);
              AgainSettles(e, f.value.result, [f.value], fuel);
            } else {
              NothingFires(SimplifierRules(), e);
              OperandsSettle(op, o1, o2, par, fuel);
            }
          }
        case _ => LeafSettles(e);
      }
    }
  }

  lemma NotDone(e: Expr)
    ensures Finished(e, OutOfFuel) && Finished(e, Undefinable)
  {
  }

  lemma LeafSettles(e: Expr)
    requires Plain(e) && !e.Rational? && !e.Unop? && !e.Binop?
    ensures Finished(e, Done(e, false, []))
  {
  }

  lemma RationalSettles(a: int, b: int)
    requires b != 0
    ensures var r := SimplifyRational(a, b); Finished(Rational(a, b), Done(r, r != Rational(a, b), []))
  {
    hide SimplifyRational, Rem, Gcd;
    SimplifyKeepsValue(a, b);
    LowestTermsStay(a, b);
  }

  lemma ConstantsSettle(e: Expr)
    requires e.Binop? && IsConstant(e.operand1) && IsConstant(e.operand2)
    ensures var r := ApplyBinop(e.op, e.operand1, e.operand2, e);
      r.Some? ==> Finished(e, Done(r.value, r.value != e, []))
  {
    hide ApplyBinop, Finished, Comparison;
    var r := ApplyBinop(e.op, e.operand1, e.operand2, e);
    if r.Some? {
      ApplyBinopPreserves(e, r.value);
      UnfoldedIsComparison(e);
      if r.value == e {
        ComparisonSettles(e);
      } else {
        NumberSettles(e, r.value);
      }
    }
  }

  lemma ComparisonSettles(e: Expr)
    requires e.Binop? && IsConstant(e.operand1) && IsConstant(e.operand2) && Comparison(e.op, e.operand1, e.operand2)
    ensures Finished(e, Done(e, false, []))
  {
  }

  lemma NumberSettles(e: Expr, c: Expr)
    requires IsConstant(c)
    ensures Finished(e, Done(c, true, []))
  {
  }

  lemma AgainSettles(e: Expr, e': Expr, fired: seq<Firing>, fuel: nat)
    requires Plain(e') && fuel > 0
    ensures Finished(e, Again(e', fired, fuel))
    decreases fuel, 0
  {
    hide Settled, Simplify;
    SimplifySettles(e', fuel - 1);
  }

  lemma UnopSettles(o: Expr, fuel: nat)
    requires Plain(o) && fuel > 0
    ensures Finished(Unop(o), SimplifyUnop(o, fuel))
    decreases fuel, 1
  {
    hide Simplify, Again;
    if IsConstant(o) {
      NegateValue(o);
    } else {
      SimplifySettles(o, fuel - 1);
      match Simplify(o, fuel - 1) {
        case Done(o', changed, fired) =>
          if changed {
            AgainSettles(Unop(o), Unop(o'), fired, fuel);
          }
        case _ =>
      }
    }
  }

  lemma OperandsSettle(op: Operator, o1: Expr, o2: Expr, par: bool, fuel: nat)
    requires Plain(o1) && Plain(o2) && fuel > 0 && !(IsConstant(o1) && IsConstant(o2))
    requires NoRuleApplies(Binop(op, o1, o2, par))
    ensures Finished(Binop(op, o1, o2, par), SimplifyOperands(op, o1, o2, par, fuel))
    decreases fuel, 1
  {
    hide Simplify, Again, NoRuleApplies;
    SimplifySettles(o1, fuel - 1);
    SimplifySettles(o2, fuel - 1);
    var r1, r2 := Simplify(o1, fuel - 1), Simplify(o2, fuel - 1);
    if r1.Done? && r2.Done? && (r1.changed || r2.changed) {
      AgainSettles(Binop(op, o1, o2, par), Bin(op, r1.result, r2.result), r1.fired + r2.fired, fuel);
    }
  }

  /** One round of the simplifier on an operation that is not one of two constants. */
  lemma RoundIs(e: Expr, fuel: nat)
    requires Plain(e) && e.Binop? && !(IsConstant(e.operand1) && IsConstant(e.operand2)) && fuel > 0
    ensures Plain(e.operand1) && Plain(e.operand2)
    ensures var f := BuildIfMatch(SimplifierRules(), e);
      && (f.Some? ==> Plain(f.value.result) && Simplify(e, fuel) == Again(f.value.result, [f.value], fuel))
      && (f.None? ==> Simplify(e, fuel) == SimplifyOperands(e.op, e.operand1, e.operand2, e.parenthesized, fuel))
  {
    hide SimplifierRules, BuildIfMatch, Again, SimplifyOperands;
    if BuildIfMatch(SimplifierRules(), e).Some? {
      FirstFiringPlain(e);
    }
  }

  /** A rule that applies to the whole is used before anything inside, and its result takes the place of the whole. */
  lemma OutermostFirst(e: Expr, i: nat, fuel: nat)
    requires Plain(e) && e.Binop? && !(IsConstant(e.operand1) && IsConstant(e.operand2)) && fuel > 0
    requires i < |SimplifierRules()| && ApplyRule(SimplifierRules()[i], e).Some?
    requires forall j :: 0 <= j < i ==> ApplyRule(SimplifierRules()[j], e).None?
    ensures var f := ApplyRule(SimplifierRules()[i], e).value;
      && Plain(f.result)
      && match Simplify(f.result, fuel - 1) {
           case Done(r, _, fired) => Simplify(e, fuel) == Done(r, true, [f] + fired)
           case other => Simplify(e, fuel) == other
         }
  {
    hide SimplifierRules, BuildIfMatch, ApplyRule, Simplify;
    FirstRuleFires(SimplifierRules(), i, e);
    RoundIs(e, fuel);
  }

  /** When none applies the operands are simplified, and the whole again if one of them has changed. */
  lemma OperandsNext(e: Expr, fuel: nat)
    requires Plain(e) && e.Binop? && !(IsConstant(e.operand1) && IsConstant(e.operand2)) && fuel > 0
    requires NoRuleApplies(e)
    requires Plain(e.operand1) && Plain(e.operand2)
    requires Simplify(e.operand1, fuel - 1).Done? && Simplify(e.operand2, fuel - 1).Done?
    ensures var r1, r2 := Simplify(e.operand1, fuel - 1), Simplify(e.operand2, fuel - 1);
      var e' := Bin(e.op, r1.result, r2.result);
      && Plain(e')
      && match Simplify(e', fuel - 1) {
           case Done(r, _, fired) =>
             if r1.changed || r2.changed then Simplify(e, fuel) == Done(r, true, r1.fired + r2.fired + fired)
             else Simplify(e, fuel) == Done(e, false, r1.fired + r2.fired)
           case other => if r1.changed || r2.changed then Simplify(e, fuel) == other
                         else Simplify(e, fuel) == Done(e, false, r1.fired + r2.fired)
         }
  {
    hide SimplifierRules, BuildIfMatch, ApplyRule, Simplify, SimplifyOperands;
    NothingFires(SimplifierRules(), e);
    RoundIs(e, fuel);
    OperandsOf(e.op, e.operand1, e.operand2, e.parenthesized, fuel);
  }

  // ---------- A settled expression stays ----------

  function Height(e: Expr): nat {
    match e
    case Unop(o) => 1 + Height(o)
    case Binop(_, l, r, _) => 1 + if Height(l) < Height(r) then Height(r) else Height(l)
    case _ => 0
  }

  /** Simplifying it again gives it back. */
  lemma {:induction false} SettledStays(e: Expr, fuel: nat)
    requires Plain(e) && Settled(e) && fuel > Height(e)
    ensures Simplify(e, fuel) == Done(e, false, [])
    decreases fuel
  {
    hide SimplifierRules, BuildIfMatch, SimplifyRational, ApplyBinop, ApplyRule, Rem, Gcd;
    match e {
      case Rational(a, b) => LowestTermsStay(a, b);
      case Unop(o) => SettledStays(o, fuel - 1);
      case Binop(op, o1, o2, par) =>
        if IsConstant(o1) && IsConstant(o2) {
          UnfoldedIsComparison(e);
        } else {
          NothingFires(SimplifierRules(), e);
          SettledStays(o1, fuel - 1);
          SettledStays(o2, fuel - 1);
        }
      case _ =>
    }
  }

  /** Two numbers are folded at once, into a number of exactly their value. */
  lemma NumbersFold(e: Expr, fuel: nat)
    requires e.Binop? && IsArithmetic(e.op) && IsProper(e.operand1) && IsProper(e.operand2) && fuel > 0
    requires e.op == DIV ==> ConstantValue(e.operand2) != Num(0.0)
    ensures Plain(e)
    ensures var r := Simplify(e, fuel);
      && r.Done? && r.changed && r.fired == [] && IsProper(r.result)
      && ConstantValue(r.result) == Operate(e.op, ConstantValue(e.operand1), ConstantValue(e.operand2))
      && HasForm(e.op, e.operand1, e.operand2, r.result)
  {
    hide ApplyBinop, Operate, ConstantValue, HasForm;
    ApplyBinopExact(e.op, e.operand1, e.operand2, e);
    ApplyBinopForm(e.op, e.operand1, e.operand2, e);
  }

  // ---------- More fuel changes nothing ----------

  /** A run that has ended ends in the same way with a larger bound. */
  lemma {:induction false} MoreFuel(e: Expr, fuel: nat)
    requires Plain(e) && Simplify(e, fuel) != OutOfFuel
    ensures Simplify(e, fuel + 1) == Simplify(e, fuel)
    decreases fuel, 2
  {
    hide SimplifierRules, BuildIfMatch, SimplifyRational, ApplyBinop, Again, SimplifyUnop, SimplifyOperands;
    match e {
      case Unop(o) => UnopMoreFuel(o, fuel);
      case Binop(op, o1, o2, par) =>
        if !(IsConstant(o1) && IsConstant(o2)) {
          var f := BuildIfMatch(SimplifierRules(), e);
          if f.Some? {
            FirstFiringPlain(e);
            AgainMoreFuel(f.value.result, [f.value], fuel);
          } else {
            OperandsMoreFuel(op, o1, o2, par, fuel);
          }
        }
      case _ =>
    }
  }

  lemma AgainMoreFuel(e: Expr, fired: seq<Firing>, fuel: nat)
    requires Plain(e) && fuel > 0 && Again(e, fired, fuel) != OutOfFuel
    ensures Again(e, fired, fuel + 1) == Again(e, fired, fuel)
    decreases fuel, 0
  {
    hide Simplify;
    MoreFuel(e, fuel - 1);
  }

  lemma UnopMoreFuel(o: Expr, fuel: nat)
    requires Plain(o) && fuel > 0 && SimplifyUnop(o, fuel) != OutOfFuel
    ensures SimplifyUnop(o, fuel + 1) == SimplifyUnop(o, fuel)
    decreases fuel, 1
  {
    hide Simplify, Again;
    if !IsConstant(o) {
      MoreFuel(o, fuel - 1);
      match Simplify(o, fuel - 1) {
        case Done(o', changed, fired) =>
          if changed {
            AgainMoreFuel(Unop(o'), fired, fuel);
          }
        case _ =>
      }
    }
  }

  lemma OperandsMoreFuel(op: Operator, o1: Expr, o2: Expr, par: bool, fuel: nat)
    requires Plain(o1) && Plain(o2) && fuel > 0 && SimplifyOperands(op, o1, o2, par, fuel) != OutOfFuel
    ensures SimplifyOperands(op, o1, o2, par, fuel + 1) == SimplifyOperands(op, o1, o2, par, fuel)
    decreases fuel, 1
  {
    hide Simplify, Again, SimplifyOperands;
    var r1 := Simplify(o1, fuel - 1);
    OperandsOf(op, o1, o2, par, fuel);
    OperandsOf(op, o1, o2, par, fuel + 1);
    MoreFuel(o1, fuel - 1);
    if r1.Done? {
      MoreFuel(o2, fuel - 1);
      var r2 := Simplify(o2, fuel - 1);
      if r2.Done? && (r1.changed || r2.changed) {
        AgainMoreFuel(Bin(op, r1.result, r2.result), r1.fired + r2.fired, fuel);
      }
    }
  }

  lemma OperandsOf(op: Operator, o1: Expr, o2: Expr, par: bool, fuel: nat)
    requires Plain(o1) && Plain(o2) && fuel > 0
    ensures var r1, r2 := Simplify(o1, fuel - 1), Simplify(o2, fuel - 1);
      && (r1.Done? && r2.Done? ==> Plain(Bin(op, r1.result, r2.result)))
      && SimplifyOperands(op, o1, o2, par, fuel) ==
           if !r1.Done? then r1
           else if !r2.Done? then r2
           else if r1.changed || r2.changed then Again(Bin(op, r1.result, r2.result), r1.fired + r2.fired, fuel)
           else Done(Binop(op, o1, o2, par), false, r1.fired + r2.fired)
  {
    hide Simplify, Again;
  }
}
