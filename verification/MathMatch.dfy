/**
 * Matching an expression against a pattern and substituting what the pattern's names were bound to
 * (`match`, `bind` and `subst` of examples/data-objects/math/src/mathExpr.ts).
 */
module MathMatch {
  import opened MathExpr
  import opened MathConstants

  type Env = map<string, Expr>

  /** User expressions: no pattern variables, so that matching against a bound one terminates. */
  predicate Plain(e: Expr) {
    match e
    case PatternVar(_, _) => false
    case Unop(l) => Plain(l)
    case Binop(_, l, r, _) => Plain(l) && Plain(r)
    case _ => true
  }

  predicate PlainEnv(env: Env) {
    forall x :: x in env ==> Plain(env[x])
  }

  function Size(e: Expr): nat {
    match e
    case Unop(l) => 1 + Size(l)
    case Binop(_, l, r, _) => 1 + Size(l) + Size(r)
    case _ => 0
  }

  predicate MatchConstant(c: Expr, e: Expr)
    requires IsConstant(c)
  {
    && IsConstant(e)
    && if c.Rational? && e.Rational? then c == e
       else IsProper(c) && IsProper(e) && var (p, q) := Promote(c, e); p == q
  }

  predicate Admits(t: PatternVarType, e: Expr) {
    match t
    case Const => IsConstant(e)
    case Var => e.Variable?
    case Expr => !IsConstant(e)
    case Any => true
  }

  /** Whether the binding succeeds, and the environment afterwards. */
  function Bind(env: Env, name: string, t: PatternVarType, e: Expr): (r: (bool, Env))
    requires Plain(e) && PlainEnv(env)
    ensures PlainEnv(r.1)
    decreases Size(e), 1
  {
    if !Admits(t, e) then (false, env)
    else if name in env then Match(env[name], e, env, true)
    else (true, env[name := e])
  }

  /** Whether the match succeeds, and the environment afterwards (also after a failure). */
  function Match(pattern: Expr, e: Expr, env: Env, literal: bool): (r: (bool, Env))
    requires Plain(e) && PlainEnv(env) && (literal ==> Plain(pattern))
    ensures PlainEnv(r.1)
    decreases Size(e), if literal then 0 else 2, pattern
  {
    if IsConstant(pattern) then (MatchConstant(pattern, e), env)
    else
      match pattern
      case PatternVar(x, t) => Bind(env, x, t, e)
      case Variable(x) =>
        if literal then (e.Variable? && x == e.text, env) else Bind(env, x, Any, e)
      case Unop(p) =>
        if e.Unop? then Match(p, e.operand1, env, literal)
        else if IsConstant(e) && IsNegative(e) then Match(p, Negate(e), env, literal)
        else (false, env)
      case Binop(op, p1, p2, _) =>
        // The source does not pass `literal` on to the operands.
        if e.Binop? && e.op == op then
          var (ok, env1) := Match(p1, e.operand1, env, false);
          if ok then Match(p2, e.operand2, env1, false) else (false, env1)
        else (false, env)
      case _ => (false, env)
  }

  function Subst(e: Expr, env: Env): Expr {
    match e
    case Variable(x) => if x in env then env[x] else e
    case PatternVar(x, _) => if x in env then env[x] else e
    case Unop(l) => Unop(Subst(l, env))
    case Binop(op, l, r, _) => Bin(op, Subst(l, env), Subst(r, env))
    case _ => e
  }

  // ---------- The object the source matches into ----------

  class Environment {
    var bindings: Env

    constructor ()
      ensures bindings == map[]
    {
      bindings := map[];
    }

    method BindName(name: string, t: PatternVarType, e: Expr) returns (matched: bool)
      requires Plain(e) && PlainEnv(bindings)
      modifies this
      ensures (matched, bindings) == Bind(old(bindings), name, t, e)
      decreases Size(e), 1
    {
      if !Admits(t, e) {
        return false;
      }
      if name in bindings {
        matched := MatchInto(bindings[name], e, true);
      } else {
        bindings := bindings[name := e];
        matched := true;
      }
    }

    method MatchInto(pattern: Expr, e: Expr, literal: bool) returns (matched: bool)
      requires Plain(e) && PlainEnv(bindings) && (literal ==> Plain(pattern))
      modifies this
      ensures (matched, bindings) == Match(pattern, e, old(bindings), literal)
      decreases Size(e), if literal then 0 else 2, pattern
    {
      if IsConstant(pattern) {
        return MatchConstant(pattern, e);
      }
      match pattern {
        case PatternVar(x, t) =>
          matched := BindName(x, t, e);
        case Variable(x) =>
          if literal {
            return e.Variable? && x == e.text;
          }
          matched := BindName(x, Any, e);
        case Unop(p) =>
          if e.Unop? {
            matched := MatchInto(p, e.operand1, literal);
          } else if IsConstant(e) && IsNegative(e) {
            matched := MatchInto(p, Negate(e), literal);
          } else {
            matched := false;
          }
        case Binop(op, p1, p2, _) =>
          matched := false;
          if e.Binop? && e.op == op {
            matched := MatchInto(p1, e.operand1, false);
            if matched {
              matched := MatchInto(p2, e.operand2, false);
            }
          }
        case _ =>
          matched := false;
      }
    }
  }

  // ---------- Meaning of a substitution ----------

  /** What the names of a pattern stand for once they are bound. */
  function Meaning(env: Env, val: Valuation): Assignment {
    x => if x in env then Eval(env[x], val) else Num(val(x))
  }

  lemma {:induction false} SubstMeaning(e: Expr, env: Env, val: Valuation)
    ensures Eval(Subst(e, env), val) == EvalWith(e, Meaning(env, val))
  {
    match e {
      case Unop(l) => SubstMeaning(l, env, val);
      case Binop(_, l, r, _) =>
        SubstMeaning(l, env, val);
        SubstMeaning(r, env, val);
      case _ =>
    }
  }

  /** The names in a pattern, with repetitions. */
  function Names(e: Expr): multiset<string> {
    match e
    case Variable(x) => multiset{x}
    case PatternVar(x, _) => multiset{x}
    case Unop(l) => Names(l)
    case Binop(_, l, r, _) => Names(l) + Names(r)
    case _ => multiset{}
  }

  lemma {:induction false} SubstPlain(t: Expr, env: Env)
    requires PlainEnv(env) && forall x :: x in Names(t) ==> x in env
    ensures Plain(Subst(t, env))
  {
    match t {
      case Unop(l) => SubstPlain(l, env);
      case Binop(_, l, r, _) =>
        SubstPlain(l, env);
        SubstPlain(r, env);
      case Variable(x) => assert x in Names(t);
      case PatternVar(x, _) => assert x in Names(t);
      case _ =>
    }
  }

  lemma {:induction false} EvalAgrees(e: Expr, names: Assignment, names': Assignment)
    requires forall x :: x in Names(e) ==> names(x) == names'(x)
    ensures EvalWith(e, names) == EvalWith(e, names')
  {
    match e {
      case Unop(l) => EvalAgrees(l, names, names');
      case Binop(_, l, r, _) =>
        EvalAgrees(l, names, names');
        EvalAgrees(r, names, names');
      case _ =>
    }
  }

  // ---------- Literal matching ----------

  /** No variable lies below a binary operator: there the source forgets that the match is literal. */
  predicate LiteralSafe(t: Expr) {
    match t
    case Unop(l) => LiteralSafe(l)
    case Binop(_, l, r, _) => Names(l) == multiset{} && Names(r) == multiset{}
    case _ => true
  }

  /** The same tree, up to how a constant and its sign are written. */
  predicate Alike(t: Expr, e: Expr)
    decreases t
  {
    if IsConstant(t) then MatchConstant(t, e)
    else
      match t
      case Variable(x) => e.Variable? && e.text == x
      case Unop(l) =>
        if e.Unop? then Alike(l, e.operand1)
        else IsConstant(e) && IsNegative(e) && Alike(l, Negate(e))
      case Binop(op, l, r, _) => e.Binop? && e.op == op && Alike(l, e.operand1) && Alike(r, e.operand2)
      case _ => false
  }

  lemma MatchConstantValue(c: Expr, e: Expr)
    requires IsConstant(c) && MatchConstant(c, e)
    ensures ConstantValue(c) == ConstantValue(e)
  {
    if !(c.Rational? && e.Rational?) {
      PromoteKeepsValues(c, e);
    }
  }

  lemma NegativeConstantValue(c: Expr)
    requires IsConstant(c) && IsNegative(c)
    ensures Negative(ConstantValue(Negate(c))) == ConstantValue(c)
  {
    NegateValue(c);
    assert ConstantValue(c).Num?;
  }

  lemma {:induction false} AlikeValue(t: Expr, e: Expr, val: Valuation)
    requires Alike(t, e)
    ensures Eval(t, val) == Eval(e, val)
    decreases t
  {
    if IsConstant(t) {
      MatchConstantValue(t, e);
    } else if t.Unop? {
      if e.Unop? {
        AlikeValue(t.operand1, e.operand1, val);
      } else {
        AlikeValue(t.operand1, Negate(e), val);
        NegativeConstantValue(e);
      }
    } else if t.Binop? {
      AlikeValue(t.operand1, e.operand1, val);
      AlikeValue(t.operand2, e.operand2, val);
    }
  }

  /** A safe literal match binds nothing and accepts only the same tree. */
  lemma {:induction false} LiteralMatchSound(t: Expr, e: Expr, env: Env, literal: bool)
    requires Plain(t) && Plain(e) && PlainEnv(env)
    requires if literal then LiteralSafe(t) else Names(t) == multiset{}
    ensures Match(t, e, env, literal).1 == env
    ensures Match(t, e, env, literal).0 ==> Alike(t, e)
    decreases t
  {
    if !IsConstant(t) {
      match t {
        case Unop(p) =>
          if e.Unop? {
            LiteralMatchSound(p, e.operand1, env, literal);
          } else if IsConstant(e) && IsNegative(e) {
            LiteralMatchSound(p, Negate(e), env, literal);
          }
        case Binop(op, p1, p2, _) =>
          if e.Binop? && e.op == op {
            assert Names(p1) == multiset{} == Names(p2);
            LiteralMatchSound(p1, e.operand1, env, false);
            LiteralMatchSound(p2, e.operand2, env, false);
          }
        case Variable(x) => assert !literal ==> x in Names(t);
        case _ =>
      }
    }
  }

  /** And it accepts every expression alike the tree. */
  lemma {:induction false} AlikeMatches(t: Expr, e: Expr, env: Env, literal: bool)
    requires Plain(t) && Plain(e) && PlainEnv(env) && Alike(t, e)
    requires if literal then LiteralSafe(t) else Names(t) == multiset{}
    ensures Match(t, e, env, literal) == (true, env)
    decreases t
  {
    if !IsConstant(t) {
      match t {
        case Unop(p) => AlikeMatches(p, if e.Unop? then e.operand1 else Negate(e), env, literal);
        case Binop(_, p1, p2, _) =>
          assert Names(p1) == multiset{} == Names(p2);
          AlikeMatches(p1, e.operand1, env, false);
          AlikeMatches(p2, e.operand2, env, false);
        case Variable(x) => assert !literal ==> x in Names(t);
        case _ =>
      }
    }
  }

  /** The tree with every variable below a binary operator replaced by 0. */
  function Zeroed(t: Expr, below: bool): Expr {
    match t
    case Variable(_) => if below then Integer(0) else t
    case Unop(l) => Unop(Zeroed(l, below))
    case Binop(op, l, r, par) => Binop(op, Zeroed(l, true), Zeroed(r, true), par)
    case _ => t
  }

  predicate Complete(t: Expr) {
    match t
    case Error => false
    case PatternVar(_, _) => false
    case Unop(l) => Complete(l)
    case Binop(_, l, r, _) => Complete(l) && Complete(r)
    case _ => true
  }

  predicate AllZero(env: Env) {
    forall x :: x in env ==> env[x] == Integer(0)
  }

  lemma {:induction false} CompleteIsPlain(t: Expr, below: bool)
    requires Complete(t)
    ensures Plain(t) && Plain(Zeroed(t, below))
  {
    match t {
      case Unop(l) => CompleteIsPlain(l, below);
      case Binop(_, l, r, _) =>
        CompleteIsPlain(l, true);
        CompleteIsPlain(r, true);
      case _ =>
    }
  }

  lemma {:induction false} ZeroedMatches(t: Expr, env: Env, literal: bool)
    requires Complete(t) && AllZero(env)
    ensures Plain(t) && Plain(Zeroed(t, !literal)) && PlainEnv(env)
    ensures var (ok, env') := Match(t, Zeroed(t, !literal), env, literal); ok && AllZero(env')
  {
    CompleteIsPlain(t, !literal);
    match t {
      case Unop(l) => ZeroedMatches(l, env, literal);
      case Binop(_, l, r, _) =>
        ZeroedMatches(l, env, false);
        ZeroedMatches(r, Match(l, Zeroed(l, true), env, false).1, false);
      case _ =>
    }
  }

  lemma {:induction false} ZeroedUnlike(t: Expr, below: bool)
    requires Complete(t)
    requires if below then Names(t) != multiset{} else !LiteralSafe(t)
    ensures !Alike(t, Zeroed(t, below))
  {
    match t {
      case Unop(l) => ZeroedUnlike(l, below);
      case Binop(_, l, r, _) =>
        if Names(l) != multiset{} {
          ZeroedUnlike(l, true);
        } else {
          ZeroedUnlike(r, true);
        }
      case _ =>
    }
  }

  ghost predicate LiteralMatchIsEquality(t: Expr)
    requires Plain(t)
  {
    forall e: Expr, env: Env | Plain(e) && PlainEnv(env) :: Match(t, e, env, true).0 <==> Alike(t, e)
  }

  /**
   * Matching against an already bound expression tests equality exactly when that expression has no
   * variable below a binary operator.
   */
  lemma LiteralMatchExact(t: Expr)
    requires Complete(t)
    ensures Plain(t)
    ensures LiteralMatchIsEquality(t) <==> LiteralSafe(t)
  {
    CompleteIsPlain(t, false);
    if LiteralSafe(t) {
      forall e: Expr, env: Env | Plain(e) && PlainEnv(env)
        ensures Match(t, e, env, true).0 <==> Alike(t, e)
      {
        LiteralMatchSound(t, e, env, true);
        if Alike(t, e) {
          AlikeMatches(t, e, env, true);
        }
      }
    } else {
      var nothing: Env := map[];
      ZeroedMatches(t, nothing, true);
      ZeroedUnlike(t, false);
      assert Match(t, Zeroed(t, false), nothing, true).0;
    }
  }

  // ---------- Soundness of matching ----------

  /** Every name that the match meets twice is bound to a tree that literal matching can compare. */
  predicate RepeatsAreSafe(pattern: Expr, before: Env, after: Env) {
    forall x :: x in Names(pattern) && (x in before || Names(pattern)[x] >= 2) ==> x in after && LiteralSafe(after[x])
  }

  predicate Extends(env: Env, env': Env) {
    forall x :: x in env ==> x in env' && env'[x] == env[x]
  }

  /** A match never rebinds a name. */
  lemma {:induction false} MatchExtends(pattern: Expr, e: Expr, env: Env, literal: bool)
    requires Plain(e) && PlainEnv(env) && (literal ==> Plain(pattern))
    ensures Extends(env, Match(pattern, e, env, literal).1)
    decreases Size(e), if literal then 0 else 2, pattern
  {
    if !IsConstant(pattern) {
      match pattern {
        case PatternVar(x, t) => BindExtends(env, x, t, e);
        case Variable(x) => if !literal { BindExtends(env, x, Any, e); }
        case Unop(p) =>
          if e.Unop? {
            MatchExtends(p, e.operand1, env, literal);
          } else if IsConstant(e) && IsNegative(e) {
            MatchExtends(p, Negate(e), env, literal);
          }
        case Binop(op, p1, p2, _) =>
          if e.Binop? && e.op == op {
            MatchExtends(p1, e.operand1, env, false);
            MatchExtends(p2, e.operand2, Match(p1, e.operand1, env, false).1, false);
          }
        case _ =>
      }
    }
  }

  lemma {:induction false} BindExtends(env: Env, name: string, t: PatternVarType, e: Expr)
    requires Plain(e) && PlainEnv(env)
    ensures Extends(env, Bind(env, name, t, e).1)
    decreases Size(e), 1
  {
    if Admits(t, e) && name in env {
      MatchExtends(env[name], e, env, true);
    }
  }

  /** What a successful match establishes. */
  ghost predicate Matched(pattern: Expr, e: Expr, env: Env, env': Env, val: Valuation) {
    && Extends(env, env')
    && (forall x :: x in env' <==> x in env || x in Names(pattern))
    && EvalWith(pattern, Meaning(env', val)) == Eval(e, val)
  }

  lemma BindSound(env: Env, name: string, t: PatternVarType, e: Expr, val: Valuation)
    requires Plain(e) && PlainEnv(env)
    requires Bind(env, name, t, e).0
    requires name in env ==> LiteralSafe(env[name])
    ensures var env' := Bind(env, name, t, e).1;
      && Extends(env, env')
      && (forall x :: x in env' <==> x in env || x == name)
      && Eval(env'[name], val) == Eval(e, val)
  {
    if name in env {
      LiteralMatchSound(env[name], e, env, true);
      AlikeValue(env[name], e, val);
    }
  }

  /**
   * If a match succeeds, and literal matching can be trusted for the names it met twice, the pattern
   * means what the expression means, whatever the variables of the expression stand for.
   */
  lemma {:induction false} MatchSound(pattern: Expr, e: Expr, env: Env, val: Valuation)
    requires Plain(e) && PlainEnv(env)
    requires Match(pattern, e, env, false).0
    requires RepeatsAreSafe(pattern, env, Match(pattern, e, env, false).1)
    ensures Matched(pattern, e, env, Match(pattern, e, env, false).1, val)
    decreases pattern
  {
    hide MatchConstant, LiteralSafe, Operate, Negate, IsNegative, Plain, Size, Admits, Matched, Eval, RepeatsAreSafe;
    if IsConstant(pattern) {
      MatchSoundConstant(pattern, e, env, val);
    } else if pattern.PatternVar? {
      MatchSoundName(pattern, pattern.text, pattern.pvarType, e, env, val);
    } else if pattern.Variable? {
      MatchSoundName(pattern, pattern.text, Any, e, env, val);
    } else if pattern.Unop? {
      MatchSoundUnop(pattern, e, env, val);
    } else {
      MatchSoundBinop(pattern, e, env, val);
    }
  }

  lemma MatchSoundConstant(pattern: Expr, e: Expr, env: Env, val: Valuation)
    requires IsConstant(pattern) && MatchConstant(pattern, e)
    ensures Matched(pattern, e, env, env, val)
  {
    MatchConstantValue(pattern, e);
  }

  lemma MatchSoundName(pattern: Expr, x: string, t: PatternVarType, e: Expr, env: Env, val: Valuation)
    requires (pattern.Variable? || pattern.PatternVar?) && pattern.text == x
    requires Plain(e) && PlainEnv(env) && Bind(env, x, t, e).0
    requires RepeatsAreSafe(pattern, env, Bind(env, x, t, e).1)
    ensures Matched(pattern, e, env, Bind(env, x, t, e).1, val)
  {
    hide LiteralSafe, Bind;
    assert x in Names(pattern);
    BindExtends(env, x, t, e);
    BindSound(env, x, t, e, val);
    NameMeaning(pattern, Bind(env, x, t, e).1, val);
  }

  lemma NameMeaning(pattern: Expr, env: Env, val: Valuation)
    requires (pattern.Variable? || pattern.PatternVar?) && pattern.text in env
    ensures EvalWith(pattern, Meaning(env, val)) == Eval(env[pattern.text], val)
  {
  }

  lemma MatchSoundUnop(pattern: Expr, e: Expr, env: Env, val: Valuation)
    requires pattern.Unop? && Plain(e) && PlainEnv(env)
    requires Match(pattern, e, env, false).0
    requires RepeatsAreSafe(pattern, env, Match(pattern, e, env, false).1)
    ensures Matched(pattern, e, env, Match(pattern, e, env, false).1, val)
    decreases pattern, 0
  {
    var p := pattern.operand1;
    var e' := if e.Unop? then e.operand1 else Negate(e);
    var env' := Match(pattern, e, env, false).1;
    assert Match(p, e', env, false) == (true, env');
    assert Names(p) == Names(pattern);
    assert Negative(Eval(e', val)) == Eval(e, val) by {
      if !e.Unop? {
        NegativeConstantValue(e);
      }
    }
    hide Match, LiteralSafe, Plain, Names, Eval;
    MatchSound(p, e', env, val);
    UnopMeaning(pattern, Meaning(env', val));
  }

  lemma UnopMeaning(pattern: Expr, names: Assignment)
    requires pattern.Unop?
    ensures EvalWith(pattern, names) == Negative(EvalWith(pattern.operand1, names))
  {
  }

  lemma MatchSoundBinop(pattern: Expr, e: Expr, env: Env, val: Valuation)
    requires pattern.Binop? && Plain(e) && PlainEnv(env)
    requires Match(pattern, e, env, false).0
    requires RepeatsAreSafe(pattern, env, Match(pattern, e, env, false).1)
    ensures Matched(pattern, e, env, Match(pattern, e, env, false).1, val)
    decreases pattern, 0
  {
    var p1, p2 := pattern.operand1, pattern.operand2;
    var env1 := Match(p1, e.operand1, env, false).1;
    var env2 := Match(p2, e.operand2, env1, false).1;
    assert Match(pattern, e, env, false).1 == env2;
    MatchExtends(p2, e.operand2, env1, false);
    BoundNames(p1, e.operand1, env);
    hide Match, LiteralSafe, RepeatsAreSafe, Names, Eval, EvalWith, Meaning, Plain, Size;
    RepeatsLeft(pattern, env, env1, env2);
    MatchSound(p1, e.operand1, env, val);
    RepeatsRight(pattern, env, env1, env2);
    MatchSound(p2, e.operand2, env1, val);
    hide Matched;
    MatchedBinop(pattern, e, env, env1, env2, val);
  }

  lemma MatchBinop(pattern: Expr, e: Expr, env: Env)
    requires pattern.Binop? && e.Binop? && pattern.op == e.op && Plain(e) && PlainEnv(env)
    ensures Match(pattern, e, env, false) ==
      var (ok, env1) := Match(pattern.operand1, e.operand1, env, false);
      if ok then Match(pattern.operand2, e.operand2, env1, false) else (false, env1)
  {
  }

  lemma MatchedBinop(pattern: Expr, e: Expr, env: Env, env1: Env, env2: Env, val: Valuation)
    requires pattern.Binop? && e.Binop? && pattern.op == e.op
    requires Matched(pattern.operand1, e.operand1, env, env1, val)
    requires Matched(pattern.operand2, e.operand2, env1, env2, val)
    ensures Matched(pattern, e, env, env2, val)
  {
    NamesOfBinop(pattern);
    MeaningGrows(pattern.operand1, env1, env2, val);
    EvalBinop(pattern, e, env2, val);
  }

  lemma MeaningGrows(p: Expr, env1: Env, env2: Env, val: Valuation)
    requires Extends(env1, env2)
    requires forall x :: x in Names(p) ==> x in env1
    ensures EvalWith(p, Meaning(env1, val)) == EvalWith(p, Meaning(env2, val))
  {
    hide EvalWith, Names, Eval;
    forall x | x in Names(p) ensures Meaning(env1, val)(x) == Meaning(env2, val)(x) {
      assert x in env1 && x in env2 && env1[x] == env2[x];
    }
    EvalAgrees(p, Meaning(env1, val), Meaning(env2, val));
  }

  lemma NamesOfBinop(pattern: Expr)
    requires pattern.Binop?
    ensures forall x :: x in Names(pattern) <==> x in Names(pattern.operand1) || x in Names(pattern.operand2)
  {
  }

  lemma EvalBinop(pattern: Expr, e: Expr, env: Env, val: Valuation)
    requires pattern.Binop? && e.Binop? && pattern.op == e.op
    requires EvalWith(pattern.operand1, Meaning(env, val)) == Eval(e.operand1, val)
    requires EvalWith(pattern.operand2, Meaning(env, val)) == Eval(e.operand2, val)
    ensures EvalWith(pattern, Meaning(env, val)) == Eval(e, val)
  {
  }

  lemma RepeatsLeft(pattern: Expr, env: Env, env1: Env, env2: Env)
    requires pattern.Binop? && Extends(env1, env2) && RepeatsAreSafe(pattern, env, env2)
    requires forall x :: x in Names(pattern.operand1) ==> x in env1
    ensures RepeatsAreSafe(pattern.operand1, env, env1)
  {
    hide LiteralSafe;
    forall x | x in Names(pattern.operand1)
      ensures x in Names(pattern) && Names(pattern.operand1)[x] <= Names(pattern)[x] && env2[x] == env1[x]
    {
    }
  }

  lemma RepeatsRight(pattern: Expr, env: Env, env1: Env, env2: Env)
    requires pattern.Binop? && RepeatsAreSafe(pattern, env, env2)
    requires forall x :: x in env1 <==> x in env || x in Names(pattern.operand1)
    ensures RepeatsAreSafe(pattern.operand2, env1, env2)
  {
    hide LiteralSafe;
    forall x | x in Names(pattern.operand2)
      ensures x in Names(pattern) && Names(pattern.operand2)[x] <= Names(pattern)[x]
      ensures x in Names(pattern.operand1) ==> Names(pattern)[x] >= 2
    {
    }
  }

  /** A successful match binds every name of the pattern. */
  lemma {:induction false} BoundNames(pattern: Expr, e: Expr, env: Env)
    requires Plain(e) && PlainEnv(env)
    requires Match(pattern, e, env, false).0
    ensures forall x :: x in Names(pattern) ==> x in Match(pattern, e, env, false).1
    decreases pattern
  {
    if !IsConstant(pattern) {
      match pattern {
        case PatternVar(x, t) => BindExtends(env, x, t, e);
        case Variable(x) => BindExtends(env, x, Any, e);
        case Unop(p) =>
          if e.Unop? {
            BoundNames(p, e.operand1, env);
          } else {
            BoundNames(p, Negate(e), env);
          }
        case Binop(op, p1, p2, _) =>
          var env1 := Match(p1, e.operand1, env, false).1;
          BoundNames(p1, e.operand1, env);
          BoundNames(p2, e.operand2, env1);
          MatchExtends(p2, e.operand2, env1, false);
        case _ =>
      }
    }
  }

  predicate NoRepeats(pattern: Expr) {
    forall x :: x in Names(pattern) ==> Names(pattern)[x] == 1
  }

  /** Match then substitute gives back the value of the expression, for every pattern without repeated names. */
  lemma MatchThenSubst(pattern: Expr, e: Expr, val: Valuation)
    requires Plain(e) && NoRepeats(pattern)
    requires Match(pattern, e, map[], false).0
    ensures Eval(Subst(pattern, Match(pattern, e, map[], false).1), val) == Eval(e, val)
  {
    hide Match, EvalWith, Subst, Plain, Size, LiteralSafe, Names, Meaning;
    var env := Match(pattern, e, map[], false).1;
    MatchSound(pattern, e, map[], val);
    SubstMeaning(pattern, env, val);
  }
}
