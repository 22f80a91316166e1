/**
 * Expression trees of the math engine and what they mean
 * (examples/data-objects/math/src/mathExpr.ts).
 */
module MathExpr {

  datatype Operator =
    | IMPLIES | EQ | LEQ | GEQ | MUL | DIV | ADD | SUB | EXP | UNDER | IN | NOTIN | SUBSET | SETMINUS
    | PLUSMINUS | INTERSECTION | AND | OR | UNION | CONG | SUBSETEQ | VDASH | EQUIV | OWNS | FORALL | EXISTS

  datatype PatternVarType = Const | Var | Expr | Any

  /**
   * `Unop` is always unary minus. `parenthesized` records that the input had parentheses around a
   * binary operation; the flag exists on every source node but only binary operations are ever
   * printed differently because of it.
   */
  datatype Expr =
    | Integer(value: int)
    | Rational(a: int, b: int)
    | Real(val: real)
    | Variable(text: string)
    | PatternVar(text: string, pvarType: PatternVarType)
    | Binop(op: Operator, operand1: Expr, operand2: Expr, parenthesized: bool)
    | Unop(operand1: Expr)
    | Error

  predicate IsConstant(e: Expr) {
    e.Integer? || e.Rational? || e.Real?
  }

  function Bin(op: Operator, l: Expr, r: Expr): Expr {
    Binop(op, l, r, false)
  }

  // ---------- Meaning ----------

  datatype Value = Num(r: real) | Truth(b: bool) | Undefined

  type Valuation = string -> real

  /** What a free name of a pattern stands for. */
  type Assignment = string -> Value

  function RPow(r: real, n: nat): real {
    if n == 0 then 1.0 else r * RPow(r, n - 1)
  }

  predicate IsNatural(r: real) {
    r >= 0.0 && r == r.Floor as real
  }

  /** Operators without an arithmetic reading, zero divisors and non-natural exponents are undefined. */
  function Operate(op: Operator, v: Value, w: Value): Value {
    if !v.Num? || !w.Num? then Undefined
    else
      match op
      case ADD => Num(v.r + w.r)
      case SUB => Num(v.r - w.r)
      case MUL => Num(v.r * w.r)
      case DIV => if w.r == 0.0 then Undefined else Num(v.r / w.r)
      case EXP => if IsNatural(w.r) then Num(RPow(v.r, w.r.Floor)) else Undefined
      case EQ => Truth(v.r == w.r)
      case LEQ => Truth(v.r <= w.r)
      case GEQ => Truth(v.r >= w.r)
      case _ => Undefined
  }

  function Negative(v: Value): Value {
    if v.Num? then Num(-v.r) else Undefined
  }

  function ConstantValue(e: Expr): Value
    requires IsConstant(e)
  {
    match e
    case Integer(n) => Num(n as real)
    case Rational(a, b) => if b == 0 then Undefined else Num(a as real / b as real)
    case Real(r) => Num(r)
  }

  /** The value of a tree whose names, variables and pattern variables alike, stand for values. */
  function EvalWith(e: Expr, names: Assignment): Value {
    if IsConstant(e) then ConstantValue(e)
    else
      match e
      case Variable(x) => names(x)
      case PatternVar(x, _) => names(x)
      case Unop(l) => Negative(EvalWith(l, names))
      case Binop(op, l, r, _) => Operate(op, EvalWith(l, names), EvalWith(r, names))
      case _ => Undefined
  }

  function Numbers(val: Valuation): Assignment {
    x => Num(val(x))
  }

  /** The value of an expression when its variables are numbers. */
  function Eval(e: Expr, val: Valuation): Value {
    EvalWith(e, Numbers(val))
  }

  /** Wherever `e` has a value, `e'` has the same one. */
  ghost predicate Preserves(e: Expr, e': Expr) {
    forall val: Valuation :: Eval(e, val) != Undefined ==> Eval(e', val) == Eval(e, val)
  }

  lemma PreservesTransitive(e: Expr, f: Expr, g: Expr)
    requires Preserves(e, f) && Preserves(f, g)
    ensures Preserves(e, g)
  {
    forall val: Valuation | Eval(e, val) != Undefined ensures Eval(g, val) == Eval(e, val) {
      assert Eval(f, val) == Eval(e, val);
    }
  }
}
