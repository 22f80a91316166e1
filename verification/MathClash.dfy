/**
 * Rules that cannot match are passed over (`match` and `buildIfMatch` of
 * examples/data-objects/math/src/mathExpr.ts).
 */
module MathClash {
  import opened MathExpr
  import opened MathConstants
  import opened MathMatch
  import opened MathRules

  /** The shapes differ, whatever the names are bound to. */
  predicate Clash(pattern: Expr, e: Expr)
    decreases pattern
  {
    if IsConstant(pattern) then !MatchConstant(pattern, e)
    else
      match pattern
      case PatternVar(_, t) => !Admits(t, e)
      case Unop(p) =>
        if e.Unop? then Clash(p, e.operand1)
        else if IsConstant(e) && IsNegative(e) then Clash(p, Negate(e))
        else true
      case Binop(op, p1, p2, _) =>
        !e.Binop? || e.op != op || Clash(p1, e.operand1) || Clash(p2, e.operand2)
      case _ => false
  }

  lemma {:induction false} ClashNoMatch(pattern: Expr, e: Expr, env: Env)
    requires Plain(e) && PlainEnv(env) && Clash(pattern, e)
    ensures !Match(pattern, e, env, false).0
    decreases pattern
  {
    match pattern {
      case Unop(p) =>
        if e.Unop? {
          ClashNoMatch(p, e.operand1, env);
        } else if IsConstant(e) && IsNegative(e) {
          ClashNoMatch(p, Negate(e), env);
        }
      case Binop(op, p1, p2, _) =>
        if e.Binop? && e.op == op {
          if Clash(p1, e.operand1) {
            ClashNoMatch(p1, e.operand1, env);
          } else {
            ClashNoMatch(p2, e.operand2, Match(p1, e.operand1, env, false).1);
          }
        }
      case _ =>
    }
  }

  predicate AllClash(rules: seq<Rule>, e: Expr) {
    forall r :: r in rules ==> Clash(r.pattern, e)
  }

  /** Rules that cannot match are passed over. */
  lemma {:induction false} PassedOver(before: seq<Rule>, rules: seq<Rule>, e: Expr)
    requires Plain(e) && AllClash(before, e)
    ensures BuildIfMatch(before + rules, e) == BuildIfMatch(rules, e)
  {
    hide Match, Clash, Subst, RunExec;
    if before == [] {
      assert before + rules == rules;
    } else {
      var r := before[0];
      ClashNoMatch(r.pattern, e, map[]);
      PassedOver(before[1..], rules, e);
      assert (before + rules)[1..] == before[1..] + rules;
    }
  }

  lemma FirstFires(rule: Rule, rules: seq<Rule>, e: Expr)
    requires Plain(e) && ApplyRule(rule, e).Some?
    ensures BuildIfMatch([rule] + rules, e) == ApplyRule(rule, e)
  {
    hide ApplyRule;
  }

  lemma ClashConcat(rules: seq<Rule>, more: seq<Rule>, e: Expr)
    ensures AllClash(rules + more, e) <==> AllClash(rules, e) && AllClash(more, e)
  {
    hide Clash;
    if AllClash(rules + more, e) {
      forall r | r in rules ensures r in rules + more {
      }
      forall r | r in more ensures r in rules + more {
      }
    }
  }

  /** A unary minus or another operator where the expression has an operator. */
  predicate OtherRoot(pattern: Expr, e: Expr) {
    e.Binop? && (pattern.Unop? || (pattern.Binop? && pattern.op != e.op))
  }

  lemma RootClash(pattern: Expr, e: Expr)
    requires OtherRoot(pattern, e)
    ensures Clash(pattern, e)
  {
  }

  lemma RootsClash(e: Expr)
    ensures forall pattern :: OtherRoot(pattern, e) ==> Clash(pattern, e)
  {
    hide Clash, OtherRoot;
    forall pattern | OtherRoot(pattern, e) ensures Clash(pattern, e) {
      RootClash(pattern, e);
    }
  }

  lemma OtherRootsClash(rules: seq<Rule>, e: Expr)
    requires forall r :: r in rules ==> OtherRoot(r.pattern, e)
    ensures AllClash(rules, e)
  {
    hide Clash, OtherRoot;
    forall r | r in rules ensures Clash(r.pattern, e) {
      RootClash(r.pattern, e);
    }
  }

  lemma LeftClash(l: Expr, r: Expr, e: Expr)
    requires e.Binop? && Clash(l, e.operand1)
    ensures Clash(Bin(e.op, l, r), e)
  {
  }

  lemma RightClash(l: Expr, r: Expr, e: Expr)
    requires e.Binop? && Clash(r, e.operand2)
    ensures Clash(Bin(e.op, l, r), e)
  {
  }

  lemma NoMinusClash(operand: Expr, e: Expr)
    requires !e.Unop? && (IsConstant(e) ==> !IsNegative(e))
    ensures Clash(Unop(operand), e)
  {
  }

  lemma LeafClash(pattern: Expr, e: Expr)
    requires pattern.Binop? && !e.Binop?
    ensures Clash(pattern, e)
  {
  }

  lemma SumInProductClash(pattern: Expr, e: Expr)
    requires pattern.Binop? && (e.Binop? ==> pattern.op != e.op)
    ensures Clash(pattern, e)
  {
  }

  lemma NameClash(x: string, t: PatternVarType, e: Expr)
    requires !Admits(t, e)
    ensures Clash(PatternVar(x, t), e)
  {
  }

  lemma ConstantClash(c: Expr, e: Expr)
    requires IsConstant(c) && !MatchConstant(c, e)
    ensures Clash(c, e)
  {
  }

  lemma NoRules(e: Expr)
    requires Plain(e)
    ensures BuildIfMatch([], e).None?
  {
  }
}
