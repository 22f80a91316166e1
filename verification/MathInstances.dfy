/**
 * Which expressions a pattern matches, and what its names are bound to: matching finds every substitution that fits
 * the types of the names (`match` and `bind` of examples/data-objects/math/src/mathExpr.ts).
 */
module MathInstances {
  import opened MathExpr
  import opened MathConstants
  import opened MathMatch

  /**
   * Two fractions are the same when they are written in the same way, an integer and a fraction when that is over 1,
   * and a real is the same as whatever has its value.
   */
  predicate SameNumber(c: Expr, e: Expr)
    requires IsConstant(c) && IsConstant(e)
  {
    if c.Real? || e.Real? then ConstantValue(c).Num? && ConstantValue(c) == ConstantValue(e)
    else
      match c
      case Integer(n) => if e.Integer? then e.value == n else e.a == n && e.b == 1
      case Rational(a, b) => if e.Integer? then a == e.value && b == 1 else e.a == a && e.b == b
  }

  /** A constant of a pattern matches the same number, and nothing else. */
  lemma MatchConstantIff(c: Expr, e: Expr)
    requires IsConstant(c)
    ensures MatchConstant(c, e) <==> IsConstant(e) && SameNumber(c, e)
  {
    if IsProper(c) && IsProper(e) {
      PromoteKeepsValues(c, e);
    }
  }

  /** What a name of each type may stand for. */
  predicate Suits(t: PatternVarType, e: Expr) {
    match t
    case Const => e.Integer? || e.Rational? || e.Real?
    case Var => e.Variable?
    case Expr => !e.Integer? && !e.Rational? && !e.Real?
    case Any => true
  }

  /** Every name of the pattern is bound to an expression of its type. */
  predicate Typed(pattern: Expr, env: Env) {
    match pattern
    case Variable(x) => x in env
    case PatternVar(x, t) => x in env && Suits(t, env[x])
    case Unop(p) => Typed(p, env)
    case Binop(_, p1, p2, _) => Typed(p1, env) && Typed(p2, env)
    case _ => true
  }

  predicate WithoutErrors(e: Expr) {
    match e
    case Error => false
    case Unop(l) => WithoutErrors(l)
    case Binop(_, l, r, _) => WithoutErrors(l) && WithoutErrors(r)
    case _ => true
  }

  /** Every name that is met twice is bound to an expression that literal matching can compare. */
  predicate RepeatsCompare(pattern: Expr, before: Env, env: Env) {
    forall x :: x in Names(pattern) && (x in before || Names(pattern)[x] >= 2) ==>
      x in env && LiteralSafe(env[x]) && Complete(env[x])
  }

  lemma {:induction false} AlikeSelf(t: Expr)
    requires Complete(t)
    ensures Alike(t, t)
  {
    match t {
      case Unop(l) => AlikeSelf(l);
      case Binop(_, l, r, _) =>
        AlikeSelf(l);
        AlikeSelf(r);
      case _ =>
    }
  }

  lemma {:induction false} TypedNames(pattern: Expr, env: Env)
    requires Typed(pattern, env)
    ensures forall x :: x in Names(pattern) ==> x in env
  {
    match pattern {
      case Unop(p) => TypedNames(p, env);
      case Binop(_, p1, p2, _) =>
        TypedNames(p1, env);
        TypedNames(p2, env);
      case _ =>
    }
  }

  // ---------- Every instance is found ----------

  /** What is bound once the pattern has been met. */
  function Taken(pattern: Expr, before: Env, env: Env): Env {
    map x | x in env && (x in before || x in Names(pattern)) :: env[x]
  }

  /**
   * An instance of the pattern matches it and binds its names to what was put in for them, whatever part of that was
   * bound before.
   */
  lemma {:induction false} InstanceFound(pattern: Expr, before: Env, env: Env)
    requires PlainEnv(env) && PlainEnv(before) && Extends(before, env)
    requires WithoutErrors(pattern) && Typed(pattern, env) && RepeatsCompare(pattern, before, env)
    ensures Plain(Subst(pattern, env))
    ensures Match(pattern, Subst(pattern, env), before, false) == (true, Taken(pattern, before, env))
  {
    TypedNames(pattern, env);
    SubstPlain(pattern, env);
    hide Match, RepeatsCompare, Taken, LiteralSafe;
    match pattern {
      case PatternVar(x, t) => NameFound(pattern, x, t, before, env);
      case Variable(x) => NameFound(pattern, x, Any, before, env);
      case Unop(p) =>
        UnopNames(pattern, before, env);
        InstanceFound(p, before, env);
        MatchUnop(p, Subst(p, env), before);
      case Binop(_, p1, p2, _) =>
        var mid := Taken(p1, before, env);
        TakenExtends(p1, before, env);
        LeftCompare(pattern, before, env);
        InstanceFound(p1, before, env);
        RightCompare(pattern, before, env);
        InstanceFound(p2, mid, env);
        TakenBinop(pattern, before, env);
        MatchBinop(pattern, Subst(pattern, env), before);
      case _ => ConstantFound(pattern, before, env);
    }
  }

  lemma ConstantFound(pattern: Expr, before: Env, env: Env)
    requires IsConstant(pattern) && PlainEnv(before) && Extends(before, env)
    ensures Match(pattern, pattern, before, false) == (true, Taken(pattern, before, env))
  {
    assert Taken(pattern, before, env) == before;
  }

  lemma NameFound(pattern: Expr, x: string, t: PatternVarType, before: Env, env: Env)
    requires pattern == PatternVar(x, t) || (pattern == Variable(x) && t == Any)
    requires PlainEnv(env) && PlainEnv(before) && Extends(before, env)
    requires Typed(pattern, env) && RepeatsCompare(pattern, before, env)
    ensures Match(pattern, env[x], before, false) == (true, Taken(pattern, before, env))
  {
    TakenName(pattern, x, before, env);
    hide Taken, Extends;
    assert x in Names(pattern);
    if x in before {
      AlikeSelf(env[x]);
      AlikeMatches(env[x], env[x], before, true);
    }
  }

  lemma TakenName(pattern: Expr, x: string, before: Env, env: Env)
    requires (pattern.PatternVar? || pattern.Variable?) && pattern.text == x && x in env && Extends(before, env)
    ensures Taken(pattern, before, env) == before[x := env[x]]
    ensures x in before ==> before[x] == env[x] && Taken(pattern, before, env) == before
  {
  }

  lemma UnopNames(pattern: Expr, before: Env, env: Env)
    requires pattern.Unop?
    ensures RepeatsCompare(pattern, before, env) ==> RepeatsCompare(pattern.operand1, before, env)
    ensures Taken(pattern, before, env) == Taken(pattern.operand1, before, env)
  {
  }

  lemma MatchUnop(p: Expr, e: Expr, env: Env)
    requires Plain(e) && PlainEnv(env)
    ensures Match(Unop(p), Unop(e), env, false) == Match(p, e, env, false)
  {
    hide MatchConstant, Bind, Negate, IsNegative, Size, Plain, PlainEnv;
  }

  lemma TakenExtends(pattern: Expr, before: Env, env: Env)
    requires PlainEnv(env) && Extends(before, env)
    ensures PlainEnv(Taken(pattern, before, env)) && Extends(Taken(pattern, before, env), env)
  {
  }

  lemma TakenBinop(pattern: Expr, before: Env, env: Env)
    requires pattern.Binop?
    ensures Taken(pattern.operand2, Taken(pattern.operand1, before, env), env) == Taken(pattern, before, env)
  {
    NamesOfBinop(pattern);
    hide Names;
  }

  lemma LeftCompare(pattern: Expr, before: Env, env: Env)
    requires pattern.Binop? && RepeatsCompare(pattern, before, env)
    ensures RepeatsCompare(pattern.operand1, before, env)
  {
    hide LiteralSafe, Complete;
    forall x | x in Names(pattern.operand1)
      ensures x in Names(pattern) && Names(pattern.operand1)[x] <= Names(pattern)[x]
    {
    }
  }

  lemma RightCompare(pattern: Expr, before: Env, env: Env)
    requires pattern.Binop? && RepeatsCompare(pattern, before, env)
    ensures RepeatsCompare(pattern.operand2, Taken(pattern.operand1, before, env), env)
  {
    hide LiteralSafe, Complete;
    forall x | x in Names(pattern.operand2)
      ensures x in Names(pattern) && Names(pattern.operand2)[x] <= Names(pattern)[x]
      ensures x in Names(pattern.operand1) ==> Names(pattern)[x] >= 2
    {
    }
  }

  /**
   * Whatever is put in for the names of a pattern, each of its type and repeated ones comparable: matching the result
   * succeeds and binds exactly that.
   */
  lemma InstanceMatches(pattern: Expr, env: Env)
    requires PlainEnv(env) && WithoutErrors(pattern) && Typed(pattern, env)
    requires forall x :: x in env ==> x in Names(pattern)
    requires RepeatsCompare(pattern, map[], env)
    ensures Plain(Subst(pattern, env))
    ensures Match(pattern, Subst(pattern, env), map[], false) == (true, env)
  {
    hide Match, RepeatsCompare, Names, Subst;
    TypedNames(pattern, env);
    InstanceFound(pattern, map[], env);
    assert Taken(pattern, map[], env) == env;
  }

  // ---------- Every match is an instance ----------

  /** What a match has bound: the names of the pattern and no others, each to an expression of its type. */
  ghost predicate Bound(pattern: Expr, e: Expr, before: Env, after: Env) {
    && Extends(before, after)
    && (forall x :: x in after <==> x in before || x in Names(pattern))
    && Typed(pattern, after)
    && (Complete(e) ==> Alike(Subst(pattern, after), e))
  }

  lemma {:induction false} MatchBinds(pattern: Expr, e: Expr, before: Env)
    requires Plain(e) && PlainEnv(before) && NoRepeats(pattern)
    requires forall x :: x in Names(pattern) ==> x !in before
    requires Match(pattern, e, before, false).0
    ensures Bound(pattern, e, before, Match(pattern, e, before, false).1)
    decreases pattern
  {
    hide Bound, MatchConstant, Negate, IsNegative, NoRepeats;
    match pattern {
      case PatternVar(x, t) => NameBound(pattern, x, t, e, before);
      case Variable(x) => NameBound(pattern, x, Any, e, before);
      case Unop(p) =>
        var e' := if e.Unop? then e.operand1 else Negate(e);
        var after := Match(pattern, e, before, false).1;
        if !e.Unop? {
          NegateIsPlain(e);
        }
        assert Match(p, e', before, false) == (true, after);
        UnopRepeats(pattern);
        MatchBinds(p, e', before);
        hide Match;
        UnopBound(pattern, e, before, after);
      case Binop(_, p1, p2, _) =>
        var mid := Match(p1, e.operand1, before, false).1;
        var after := Match(p2, e.operand2, mid, false).1;
        assert Match(pattern, e, before, false) == (true, after);
        assert Match(p1, e.operand1, before, false).0 && Match(p2, e.operand2, mid, false).0;
        hide Match, Names;
        BinopRepeats(pattern);
        MatchBinds(p1, e.operand1, before);
        BoundNamesAre(p1, e.operand1, before, mid);
        MatchBinds(p2, e.operand2, mid);
        BinopBound(pattern, e, before, mid, after);
      case _ => ConstantBound(pattern, e, before);
    }
  }

  lemma BoundNamesAre(pattern: Expr, e: Expr, before: Env, after: Env)
    requires Bound(pattern, e, before, after)
    ensures forall x :: x in after <==> x in before || x in Names(pattern)
  {
  }

  lemma ConstantBound(pattern: Expr, e: Expr, before: Env)
    requires IsConstant(pattern) && MatchConstant(pattern, e)
    ensures Bound(pattern, e, before, before)
  {
  }

  lemma NameBound(pattern: Expr, x: string, t: PatternVarType, e: Expr, before: Env)
    requires pattern == PatternVar(x, t) || (pattern == Variable(x) && t == Any)
    requires Plain(e) && PlainEnv(before) && x !in before && Bind(before, x, t, e).0
    ensures Bound(pattern, e, before, Bind(before, x, t, e).1)
  {
    if Complete(e) {
      AlikeSelf(e);
    }
  }

  lemma UnopRepeats(pattern: Expr)
    requires pattern.Unop? && NoRepeats(pattern)
    ensures NoRepeats(pattern.operand1) && Names(pattern) == Names(pattern.operand1)
  {
    assert Names(pattern) == Names(pattern.operand1);
  }

  lemma NegateIsPlain(e: Expr)
    requires IsConstant(e)
    ensures Plain(Negate(e))
  {
  }

  lemma UnopBound(pattern: Expr, e: Expr, before: Env, after: Env)
    requires pattern.Unop? && (e.Unop? || (IsConstant(e) && IsNegative(e)))
    requires Bound(pattern.operand1, if e.Unop? then e.operand1 else Negate(e), before, after)
    ensures Bound(pattern, e, before, after)
  {
    assert Names(pattern) == Names(pattern.operand1);
  }

  lemma BinopRepeats(pattern: Expr)
    requires pattern.Binop? && NoRepeats(pattern)
    ensures NoRepeats(pattern.operand1) && NoRepeats(pattern.operand2)
    ensures forall x :: x in Names(pattern.operand1) ==> x in Names(pattern) && x !in Names(pattern.operand2)
    ensures forall x :: x in Names(pattern.operand2) ==> x in Names(pattern)
  {
    var l, r := Names(pattern.operand1), Names(pattern.operand2);
    assert Names(pattern) == l + r;
    forall x | x in l || x in r ensures (l + r)[x] == l[x] + r[x] {
    }
  }

  lemma BinopBound(pattern: Expr, e: Expr, before: Env, mid: Env, after: Env)
    requires pattern.Binop? && e.Binop? && pattern.op == e.op
    requires Bound(pattern.operand1, e.operand1, before, mid) && Bound(pattern.operand2, e.operand2, mid, after)
    ensures Bound(pattern, e, before, after)
  {
    hide Alike, Names, Typed, Subst;
    var p1 := pattern.operand1;
    NamesOfBinop(pattern);
    TypedNames(p1, mid);
    TypedGrows(p1, mid, after);
    SubstGrows(p1, mid, after);
    BinopTyped(pattern, after);
    if Complete(e) {
      BinopAlike(pattern, e, after);
    }
  }

  lemma BinopTyped(pattern: Expr, env: Env)
    requires pattern.Binop? && Typed(pattern.operand1, env) && Typed(pattern.operand2, env)
    ensures Typed(pattern, env)
  {
  }

  lemma BinopAlike(pattern: Expr, e: Expr, env: Env)
    requires pattern.Binop? && e.Binop? && pattern.op == e.op
    requires Alike(Subst(pattern.operand1, env), e.operand1) && Alike(Subst(pattern.operand2, env), e.operand2)
    ensures Alike(Subst(pattern, env), e)
  {
    assert Subst(pattern, env) == Bin(pattern.op, Subst(pattern.operand1, env), Subst(pattern.operand2, env));
    hide Subst;
  }

  lemma {:induction false} TypedGrows(pattern: Expr, env: Env, env': Env)
    requires Typed(pattern, env) && Extends(env, env')
    ensures Typed(pattern, env')
  {
    match pattern {
      case Unop(p) => TypedGrows(p, env, env');
      case Binop(_, p1, p2, _) =>
        TypedGrows(p1, env, env');
        TypedGrows(p2, env, env');
      case _ =>
    }
  }

  lemma {:induction false} SubstGrows(pattern: Expr, env: Env, env': Env)
    requires Typed(pattern, env) && Extends(env, env')
    ensures Subst(pattern, env') == Subst(pattern, env)
  {
    match pattern {
      case Unop(p) => SubstGrows(p, env, env');
      case Binop(_, p1, p2, _) =>
        SubstGrows(p1, env, env');
        SubstGrows(p2, env, env');
      case _ =>
    }
  }

  /**
   * A pattern without repeated names that matches binds exactly its names, each to an expression of its type, and
   * the expression is that instance of the pattern, up to how constants are written.
   */
  lemma MatchIsInstance(pattern: Expr, e: Expr)
    requires Plain(e) && NoRepeats(pattern) && Match(pattern, e, map[], false).0
    ensures var env := Match(pattern, e, map[], false).1;
      && Typed(pattern, env) && (forall x :: x in env <==> x in Names(pattern))
      && (Complete(e) ==> Alike(Subst(pattern, env), e))
  {
    hide Match, Plain, NoRepeats, Typed, Subst, Alike, Complete, Names;
    MatchBinds(pattern, e, map[]);
  }
}
