/**
 * The normalizer clears the fractions of an equation, whatever its sides are, and simplifies the rest (`normalize` of
 * examples/data-objects/math/src/mathExpr.ts).
 */
module MathNormalize {
  import opened MathExpr
  import opened MathMatch
  import opened MathClash
  import opened MathRules
  import opened MathSimplify
  import opened MathSettled
  import opened Options

  predicate IsFraction(e: Expr) {
    e.Binop? && e.op == DIV
  }

  /** The equation multiplied by the denominators of its sides. */
  function Cleared(e: Expr): Expr {
    if !(e.Binop? && e.op == EQ) then e
    else
      var l, r := e.operand1, e.operand2;
      if IsFraction(l) && IsFraction(r) then Eq(Mul(l.operand1, r.operand2), Mul(l.operand2, r.operand1))
      else if IsFraction(l) then Eq(l.operand1, Mul(l.operand2, r))
      else if IsFraction(r) then Eq(Mul(l, r.operand2), r.operand1)
      else e
  }

  function LeftPattern(): Expr { Div(V("a"), V("b")) }

  function RightPattern(): Expr { Div(V("c"), V("d")) }

  lemma FractionMatches(x: string, y: string, e: Expr, env: Env)
    requires IsFraction(e) && Plain(e) && PlainEnv(env) && x !in env && y !in env && x != y
    ensures Match(Div(V(x), V(y)), e, env, false) == (true, env[x := e.operand1][y := e.operand2])
  {
    NameMatches(x, e.operand1, env);
    NameMatches(y, e.operand2, env[x := e.operand1]);
    MatchBinop(Div(V(x), V(y)), e, env);
    hide Match, Plain;
  }

  lemma NameMatches(x: string, e: Expr, env: Env)
    requires Plain(e) && PlainEnv(env) && x !in env
    ensures Match(V(x), e, env, false) == (true, env[x := e])
  {
  }

  lemma FractionClash(pattern: Expr, e: Expr)
    requires IsFraction(pattern) && !IsFraction(e)
    ensures Clash(pattern, e)
  {
  }

  function BothRule(): Rule { Rule(Eq(LeftPattern(), RightPattern()), BothCleared(), NoExec) }

  function BothCleared(): Expr { Eq(Mul(V("a"), V("d")), Mul(V("b"), V("c"))) }

  function LeftRule(): Rule { Rule(Eq(LeftPattern(), V("c")), Eq(V("a"), Mul(V("b"), V("c"))), NoExec) }

  function RightRule(): Rule { Rule(Eq(V("a"), RightPattern()), Eq(Mul(V("a"), V("d")), V("c")), NoExec) }

  lemma NormalizerIs()
    ensures NormalizerRules() == [BothRule()] + ([LeftRule()] + ([RightRule()] + []))
  {
  }

  lemma Fires(rule: Rule, e: Expr, env: Env)
    requires Plain(e) && rule.exec.NoExec? && Match(rule.pattern, e, map[], false) == (true, env)
    ensures ApplyRule(rule, e) == Some(Firing(rule, env, Subst(rule.template, env)))
  {
    hide Match, Plain, Subst;
  }

  /** An equation that has a fraction on the left or not, and one on the right or not. */
  predicate SidesAre(e: Expr, left: bool, right: bool) {
    e.Binop? && e.op == EQ && IsFraction(e.operand1) == left && IsFraction(e.operand2) == right
  }

  lemma ProductIs(x: string, y: string, env: Env)
    requires x in env && y in env
    ensures Subst(Mul(V(x), V(y)), env) == Mul(env[x], env[y])
  {
  }

  lemma EquationIs(l: Expr, r: Expr, env: Env)
    ensures Subst(Eq(l, r), env) == Eq(Subst(l, env), Subst(r, env))
  {
  }

  lemma NameIs(x: string, env: Env)
    requires x in env
    ensures Subst(V(x), env) == env[x]
  {
  }

  /** Both sides are fractions, or the left one, or the right one. */
  lemma BothFire(e: Expr)
    requires Plain(e) && SidesAre(e, true, true)
    ensures ApplyRule(BothRule(), e).Some? && ApplyRule(BothRule(), e).value.result == Cleared(e)
  {
    hide Match, Plain, Subst, Mul, ApplyRule;
    var l, r, none: Env := e.operand1, e.operand2, map[];
    PartsPlain(e);
    var mid := none["a" := l.operand1]["b" := l.operand2];
    var env := mid["c" := r.operand1]["d" := r.operand2];
    FractionMatches("a", "b", l, none);
    FractionMatches("c", "d", r, mid);
    MatchBinop(BothRule().pattern, e, none);
    Fires(BothRule(), e, env);
    EquationIs(Mul(V("a"), V("d")), Mul(V("b"), V("c")), env);
    ProductIs("a", "d", env);
    ProductIs("b", "c", env);
  }

  lemma PartsPlain(e: Expr)
    requires Plain(e) && e.Binop?
    ensures Plain(e.operand1) && Plain(e.operand2)
    ensures e.operand1.Binop? ==> Plain(e.operand1.operand1) && Plain(e.operand1.operand2)
    ensures e.operand2.Binop? ==> Plain(e.operand2.operand1) && Plain(e.operand2.operand2)
  {
  }

  lemma LeftFires(e: Expr)
    requires Plain(e) && SidesAre(e, true, false)
    ensures Clash(BothRule().pattern, e)
    ensures ApplyRule(LeftRule(), e).Some? && ApplyRule(LeftRule(), e).value.result == Cleared(e)
  {
    hide Match, Plain, Subst, Mul, ApplyRule, Clash;
    var l, r, none: Env := e.operand1, e.operand2, map[];
    PartsPlain(e);
    var mid := none["a" := l.operand1]["b" := l.operand2];
    var env := mid["c" := r];
    FractionClash(RightPattern(), r);
    RightClash(LeftPattern(), RightPattern(), e);
    FractionMatches("a", "b", l, none);
    NameMatches("c", r, mid);
    MatchBinop(LeftRule().pattern, e, none);
    Fires(LeftRule(), e, env);
    EquationIs(V("a"), Mul(V("b"), V("c")), env);
    NameIs("a", env);
    ProductIs("b", "c", env);
  }

  lemma RightFires(e: Expr)
    requires Plain(e) && SidesAre(e, false, true)
    ensures Clash(BothRule().pattern, e) && Clash(LeftRule().pattern, e)
    ensures ApplyRule(RightRule(), e).Some? && ApplyRule(RightRule(), e).value.result == Cleared(e)
  {
    hide Match, Plain, Subst, Mul, ApplyRule, Clash;
    var l, r, none: Env := e.operand1, e.operand2, map[];
    PartsPlain(e);
    var mid := none["a" := l];
    var env := mid["c" := r.operand1]["d" := r.operand2];
    FractionClash(LeftPattern(), l);
    LeftClash(LeftPattern(), RightPattern(), e);
    LeftClash(LeftPattern(), V("c"), e);
    NameMatches("a", l, none);
    FractionMatches("c", "d", r, mid);
    MatchBinop(RightRule().pattern, e, none);
    Fires(RightRule(), e, env);
    EquationIs(Mul(V("a"), V("d")), V("c"), env);
    NameIs("c", env);
    ProductIs("a", "d", env);
  }

  lemma NoneFires(e: Expr)
    requires !SidesAre(e, true, true) && !SidesAre(e, true, false) && !SidesAre(e, false, true)
    ensures Clash(BothRule().pattern, e) && Clash(LeftRule().pattern, e) && Clash(RightRule().pattern, e)
    ensures Cleared(e) == e
  {
    if e.Binop? && e.op == EQ {
      FractionClash(LeftPattern(), e.operand1);
      FractionClash(RightPattern(), e.operand2);
      hide IsFraction;
    }
  }

  /** Normalizing is clearing the fractions and simplifying. */
  lemma NormalizeClears(eqn: Expr, fuel: nat)
    requires Plain(eqn)
    ensures Plain(Cleared(eqn))
    ensures var n := Normalize(eqn, fuel);
      match Simplify(Cleared(eqn), fuel)
      case Done(r, _, _) => n.Done? && n.result == r
      case other => n == other
  {
    hide Simplify, BuildIfMatch, NormalizerRules, IsFraction, Cleared;
    ClearedPlain(eqn);
    ClearedFires(eqn);
  }

  lemma ClearedPlain(e: Expr)
    requires Plain(e)
    ensures Plain(Cleared(e))
  {
  }

  lemma ClashesOver(rule: Rule, rules: seq<Rule>, e: Expr)
    requires Plain(e) && Clash(rule.pattern, e)
    ensures BuildIfMatch([rule] + rules, e) == BuildIfMatch(rules, e)
  {
    hide Clash, BuildIfMatch;
    assert AllClash([rule], e);
    PassedOver([rule], rules, e);
  }

  lemma ClearedFires(e: Expr)
    requires Plain(e)
    ensures var f := BuildIfMatch(NormalizerRules(), e); Cleared(e) == if f.Some? then f.value.result else e
  {
    hide *;
    NormalizerIs();
    NoRules(e);
    var last := [RightRule()] + [];
    if SidesAre(e, true, true) {
      BothFire(e);
      FirstFires(BothRule(), [LeftRule()] + last, e);
    } else if SidesAre(e, true, false) {
      LeftFires(e);
      ClashesOver(BothRule(), [LeftRule()] + last, e);
      FirstFires(LeftRule(), last, e);
    } else if SidesAre(e, false, true) {
      RightFires(e);
      ClashesOver(BothRule(), [LeftRule()] + last, e);
      ClashesOver(LeftRule(), last, e);
      FirstFires(RightRule(), [], e);
    } else {
      NoneFires(e);
      ClashesOver(BothRule(), [LeftRule()] + last, e);
      ClashesOver(LeftRule(), last, e);
      ClashesOver(RightRule(), [], e);
    }
  }

  /** So a normalized equation is settled as well. */
  lemma NormalizeSettles(eqn: Expr, fuel: nat)
    requires Plain(eqn) && Normalize(eqn, fuel).Done?
    ensures Plain(Normalize(eqn, fuel).result)
    ensures IsConstant(Normalize(eqn, fuel).result) || Settled(Normalize(eqn, fuel).result)
  {
    hide Simplify, Normalize, Cleared, Settled;
    NormalizeClears(eqn, fuel);
    SimplifySettles(Cleared(eqn), fuel);
  }
}
