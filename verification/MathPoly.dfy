/**
 * Reading the coefficients of a polynomial in one variable off an expression
 * (`extractTermAndDegree`, `extractVarCoeff`, `accumCoefficients` and `solve` of
 * examples/data-objects/math/src/mathExpr.ts).
 */
module MathPoly {
  import opened MathExpr
  import opened MathConstants
  import opened Options

  /** The sparse coefficient array: a slot may exist without holding a number. */
  type Poly = map<int, Option<Expr>>

  // ---------- What the source computes ----------

  /** The number and the degree collected by a walk over a product. */
  datatype Factors = Factors(constPart: Option<Expr>, degree: int)

  function TimesConstant(constPart: Option<Expr>, c: Expr): Option<Expr>
    requires IsConstant(c) && (constPart.Some? ==> IsConstant(constPart.value))
  {
    if constPart.None? then Some(c) else ApplyBinop(MUL, constPart.value, c, Bin(MUL, constPart.value, c))
  }

  predicate ConstantOrNone(c: Option<Expr>) {
    c.Some? ==> IsConstant(c.value)
  }

  /** The pre-order walk of `extractTermAndDegree`; a power is not entered. */
  function Walk(e: Expr, v: string, acc: Factors): (r: Factors)
    requires ConstantOrNone(acc.constPart)
    ensures ConstantOrNone(r.constPart)
  {
    if IsConstant(e) then
      TimesConstantIsConstant(acc.constPart, e);
      acc.(constPart := TimesConstant(acc.constPart, e))
    else
      match e
      case Variable(x) => if x == v then acc.(degree := acc.degree + 1) else acc
      case Unop(l) => Walk(l, v, acc)
      case Binop(op, l, r, _) =>
        if op == EXP then
          if l == Variable(v) && r.Integer? then acc.(degree := acc.degree + r.value) else acc
        else Walk(r, v, Walk(l, v, acc))
      case _ => acc
  }

  lemma TimesConstantIsConstant(constPart: Option<Expr>, c: Expr)
    requires IsConstant(c) && ConstantOrNone(constPart)
    ensures ConstantOrNone(TimesConstant(constPart, c))
  {
    if constPart.Some? {
      ApplyBinopExact(MUL, constPart.value, c, Bin(MUL, constPart.value, c));
    }
  }

  predicate ConstantPoly(poly: Poly) {
    forall d :: d in poly ==> ConstantOrNone(poly[d])
  }

  function AddTerm(poly: Poly, degree: int, term: Option<Expr>): (r: Poly)
    requires ConstantPoly(poly) && ConstantOrNone(term)
    ensures ConstantPoly(r)
  {
    if degree !in poly then poly[degree := term]
    else if term.None? then poly
    else if poly[degree].None? then poly[degree := term]
    else
      ApplyBinopExact(ADD, poly[degree].value, term.value, Bin(ADD, poly[degree].value, term.value));
      poly[degree := ApplyBinop(ADD, poly[degree].value, term.value, Bin(ADD, poly[degree].value, term.value))]
  }

  function UnitCoefficient(negate: bool): Option<Expr> {
    Some(Integer(if negate then -1 else 1))
  }

  /** `accumCoefficients` for expressions whose only variable is v. */
  function Accum(e: Expr, v: string, poly: Poly, negate: bool): (r: Poly)
    requires ConstantPoly(poly)
    ensures ConstantPoly(r)
  {
    if IsConstant(e) then AddTerm(poly, 0, Some(if negate then Negate(e) else e))
    else if e.Unop? then Accum(e.operand1, v, poly, !negate)
    else if e.Variable? then AddTerm(poly, 1, UnitCoefficient(negate))
    else if e.Binop? then
      var l, r := e.operand1, e.operand2;
      if e.op == ADD || e.op == SUB then
        Accum(r, v, Accum(l, v, poly, negate), if e.op == SUB then !negate else negate)
      else if e.op == EQ then Accum(r, v, Accum(l, v, poly, false), true)
      else if e.op == MUL then
        var factors := Walk(e, v, Factors(if negate then Some(Integer(-1)) else None, 0));
        AddTerm(poly, factors.degree, factors.constPart)
      else if e.op == EXP && l.Variable? && r.Integer? then AddTerm(poly, r.value, UnitCoefficient(negate))
      else AddTerm(poly, 0, None)
    else AddTerm(poly, 0, None)
  }

  /** The array that the source fills in place. */
  class Coefficients {
    var terms: Poly

    constructor ()
      ensures terms == map[]
    {
      terms := map[];
    }

    method AddAt(degree: int, term: Option<Expr>)
      requires ConstantPoly(terms) && ConstantOrNone(term)
      modifies this
      ensures terms == AddTerm(old(terms), degree, term)
    {
      if degree !in terms {
        terms := terms[degree := term];
      } else if term.Some? {
        if terms[degree].Some? {
          terms := terms[degree := ApplyBinop(ADD, terms[degree].value, term.value,
            Bin(ADD, terms[degree].value, term.value))];
        } else {
          terms := terms[degree := term];
        }
      }
    }

    method Accumulate(e: Expr, v: string, negate: bool)
      requires ConstantPoly(terms)
      modifies this
      ensures terms == Accum(e, v, old(terms), negate)
      decreases e
    {
      if IsConstant(e) {
        AddAt(0, Some(if negate then Negate(e) else e));
        return;
      }
      if e.Unop? {
        Accumulate(e.operand1, v, !negate);
      } else if e.Variable? {
        AddAt(1, UnitCoefficient(negate));
      } else if e.Binop? {
        var l, r := e.operand1, e.operand2;
        if e.op == ADD || e.op == SUB {
          Accumulate(l, v, negate);
          Accumulate(r, v, if e.op == SUB then !negate else negate);
        } else if e.op == EQ {
          Accumulate(l, v, false);
          Accumulate(r, v, true);
        } else if e.op == MUL {
          var factors := Walk(e, v, Factors(if negate then Some(Integer(-1)) else None, 0));
          AddAt(factors.degree, factors.constPart);
        } else if e.op == EXP && l.Variable? && r.Integer? {
          AddAt(r.value, UnitCoefficient(negate));
        } else {
          AddAt(0, None);
        }
      } else {
        AddAt(0, None);
      }
    }
  }

  // ---------- The polynomials it is for ----------

  predicate IsPower(e: Expr, v: string) {
    e.Binop? && e.op == EXP && e.operand1 == Variable(v) && e.operand2.Integer? && e.operand2.value >= 0
  }

  /** A number, v or a natural power of v. */
  predicate IsFactor(e: Expr, v: string) {
    IsProper(e) || e == Variable(v) || IsPower(e, v)
  }

  predicate IsProduct(e: Expr, v: string) {
    IsFactor(e, v) || (e.Binop? && e.op == MUL && IsProduct(e.operand1, v) && IsProduct(e.operand2, v))
  }

  /** Sums, differences and negations of products. */
  predicate IsSum(e: Expr, v: string) {
    || IsProduct(e, v)
    || (e.Unop? && IsSum(e.operand1, v))
    || (e.Binop? && (e.op == ADD || e.op == SUB) && IsSum(e.operand1, v) && IsSum(e.operand2, v))
  }

  predicate HasNumber(e: Expr) {
    IsConstant(e) || (e.Binop? && e.op == MUL && (HasNumber(e.operand1) || HasNumber(e.operand2)))
  }

  /** The value of such an expression at v = x. */
  function At(e: Expr, x: real): real {
    if IsConstant(e) then (if ConstantValue(e).Num? then ConstantValue(e).r else 0.0)
    else
      match e
      case Variable(_) => x
      case Unop(l) => -At(l, x)
      case Binop(op, l, r, _) =>
        if op == ADD then At(l, x) + At(r, x)
        else if op == SUB then At(l, x) - At(r, x)
        else if op == MUL then At(l, x) * At(r, x)
        else if op == EXP && r.Integer? && r.value >= 0 then RPow(At(l, x), r.value)
        else 0.0
      case _ => 0.0
  }

  lemma {:induction false} ProductValue(e: Expr, v: string, val: Valuation)
    requires IsProduct(e, v)
    ensures Eval(e, val) == Num(At(e, val(v)))
  {
    hide At, Eval, Operate;
    if IsPower(e, v) {
      PowerValue(e, v, val);
    } else if e.Binop? {
      ProductValue(e.operand1, v, val);
      ProductValue(e.operand2, v, val);
      TimesValue(e, v, val);
    } else {
      LeafValue(e, v, val);
    }
  }

  lemma PowerValue(e: Expr, v: string, val: Valuation)
    requires IsPower(e, v)
    ensures Eval(e, val) == Num(At(e, val(v)))
  {
    var n := e.operand2.value;
    assert (n as real).Floor == n;
    assert Eval(e.operand1, val) == Num(val(v));
    assert Eval(e.operand2, val) == Num(n as real);
  }

  lemma TimesValue(e: Expr, v: string, val: Valuation)
    requires e.Binop? && e.op == MUL
    requires Eval(e.operand1, val) == Num(At(e.operand1, val(v)))
        && Eval(e.operand2, val) == Num(At(e.operand2, val(v)))
    ensures Eval(e, val) == Num(At(e, val(v)))
  {
  }

  lemma LeafValue(e: Expr, v: string, val: Valuation)
    requires IsProper(e) || e == Variable(v)
    ensures Eval(e, val) == Num(At(e, val(v)))
  {
  }

  lemma {:induction false} SumValue(e: Expr, v: string, val: Valuation)
    requires IsSum(e, v)
    ensures Eval(e, val) == Num(At(e, val(v)))
  {
    if IsProduct(e, v) {
      ProductValue(e, v, val);
    } else if e.Unop? {
      SumValue(e.operand1, v, val);
    } else {
      SumValue(e.operand1, v, val);
      SumValue(e.operand2, v, val);
    }
  }

  // ---------- The value of a coefficient array ----------

  predicate IsPoly(poly: Poly) {
    ConstantPoly(poly) && forall d :: d in poly ==> d >= 0 && (poly[d].Some? ==> IsProper(poly[d].value))
  }

  function NumberOf(c: Option<Expr>): real
    requires ConstantOrNone(c)
  {
    if c.Some? && ConstantValue(c.value).Num? then ConstantValue(c.value).r else 0.0
  }

  function Coefficient(poly: Poly, d: int): real
    requires ConstantPoly(poly)
  {
    if d in poly then NumberOf(poly[d]) else 0.0
  }

  function Monomial(c: real, x: real, d: nat): real {
    c * RPow(x, d)
  }

  /** The sum of poly[d] * x^d over the degrees below n. */
  function Value(poly: Poly, n: nat, x: real): real
    requires ConstantPoly(poly)
  {
    if n == 0 then 0.0 else Value(poly, n - 1, x) + Monomial(Coefficient(poly, n - 1), x, n - 1)
  }

  lemma AddTermValue(poly: Poly, degree: nat, term: Option<Expr>, n: nat, x: real)
    requires IsPoly(poly) && degree < n
    requires term.Some? ==> IsProper(term.value)
    ensures IsPoly(AddTerm(poly, degree, term))
    ensures Value(AddTerm(poly, degree, term), n, x) == Value(poly, n, x) + Monomial(NumberOf(term), x, degree)
  {
    var poly' := AddTerm(poly, degree, term);
    CoefficientAdded(poly, degree, term);
    hide AddTerm, Value, Coefficient, NumberOf, Monomial, ConstantPoly;
    ValueChanged(poly, poly', degree, NumberOf(term), n, x);
  }

  lemma CoefficientAdded(poly: Poly, degree: nat, term: Option<Expr>)
    requires IsPoly(poly)
    requires term.Some? ==> IsProper(term.value)
    ensures IsPoly(AddTerm(poly, degree, term))
    ensures Coefficient(AddTerm(poly, degree, term), degree) == Coefficient(poly, degree) + NumberOf(term)
    ensures forall d :: d != degree ==> Coefficient(AddTerm(poly, degree, term), d) == Coefficient(poly, d)
  {
    hide ApplyBinop;
    if degree in poly && poly[degree].Some? && term.Some? {
      ApplyBinopExact(ADD, poly[degree].value, term.value, Bin(ADD, poly[degree].value, term.value));
    }
  }

  lemma {:induction false} ValueChanged(poly: Poly, poly': Poly, degree: nat, delta: real, n: nat, x: real)
    requires ConstantPoly(poly) && ConstantPoly(poly')
    requires forall d :: d != degree ==> Coefficient(poly', d) == Coefficient(poly, d)
    requires Coefficient(poly', degree) == Coefficient(poly, degree) + delta
    ensures Value(poly', n, x) == Value(poly, n, x) + if degree < n then Monomial(delta, x, degree) else 0.0
  {
    if n > 0 {
      ValueChanged(poly, poly', degree, delta, n - 1, x);
      hide Coefficient, Monomial;
      if degree == n - 1 {
        MonomialAdd(Coefficient(poly, degree), delta, x, degree);
      }
    }
  }

  lemma MonomialAdd(a: real, b: real, x: real, d: nat)
    ensures Monomial(a + b, x, d) == Monomial(a, x, d) + Monomial(b, x, d)
  {
  }

  // ---------- Products ----------

  function Degree(e: Expr): nat {
    match e
    case Variable(_) => 1
    case Binop(op, l, r, _) =>
      if op == MUL then Degree(l) + Degree(r)
      else if op == EXP && r.Integer? && r.value >= 0 then r.value
      else 0
    case _ => 0
  }

  function FactorsAt(f: Factors, x: real): real
    requires ConstantOrNone(f.constPart) && f.degree >= 0
  {
    Monomial(if f.constPart.Some? then NumberOf(f.constPart) else 1.0, x, f.degree)
  }

  lemma {:induction false} RPowAdd(x: real, m: nat, n: nat)
    ensures RPow(x, m + n) == RPow(x, m) * RPow(x, n)
  {
    if m > 0 {
      RPowAdd(x, m - 1, n);
      assert m + n - 1 == (m - 1) + n;
      Associate(x, RPow(x, m - 1), RPow(x, n));
    }
  }

  lemma Associate(a: real, b: real, c: real)
    ensures a * (b * c) == (a * b) * c
  {
  }

  function Times(a: real, b: real): real {
    a * b
  }

  lemma TimesAssociate(a: real, b: real, c: real)
    ensures Times(a, Times(b, c)) == Times(Times(a, b), c)
  {
  }

  predicate ProperFactors(f: Factors) {
    f.degree >= 0 && (f.constPart.Some? ==> IsProper(f.constPart.value))
  }

  /** The walk multiplies what it has collected by the product, and finds a number if there is one. */
  lemma {:induction false} WalkProduct(e: Expr, v: string, acc: Factors, x: real)
    requires IsProduct(e, v) && ProperFactors(acc)
    ensures var r := Walk(e, v, acc);
      && ProperFactors(r)
      && r.degree == acc.degree + Degree(e)
      && (r.constPart.None? <==> acc.constPart.None? && !HasNumber(e))
      && FactorsAt(r, x) == Times(FactorsAt(acc, x), At(e, x))
  {
    hide Walk, At, Degree, HasNumber, IsProduct, FactorsAt, ProperFactors, Times;
    ProperIsConstant(acc);
    ProductOrLeaf(e, v);
    if e.Binop? && e.op == MUL {
      var l, r := e.operand1, e.operand2;
      var mid := Walk(l, v, acc);
      ProductIs(e, v, acc, x);
      WalkProduct(l, v, acc, x);
      WalkProduct(r, v, mid, x);
      TimesAssociate(FactorsAt(acc, x), At(l, x), At(r, x));
    } else if IsConstant(e) {
      WalkConstant(e, v, acc, x);
    } else {
      WalkPower(e, v, acc, x);
    }
  }

  lemma ProperIsConstant(f: Factors)
    requires ProperFactors(f)
    ensures ConstantOrNone(f.constPart) && f.degree >= 0
  {
  }

  lemma ProductOrLeaf(e: Expr, v: string)
    requires IsProduct(e, v)
    ensures e.Binop? && e.op == MUL ==> IsProduct(e.operand1, v) && IsProduct(e.operand2, v)
    ensures IsConstant(e) ==> IsProper(e) && HasNumber(e) && Degree(e) == 0
    ensures !(e.Binop? && e.op == MUL) && !IsConstant(e) ==> e == Variable(v) || IsPower(e, v)
  {
  }

  lemma ProductIs(e: Expr, v: string, acc: Factors, x: real)
    requires e.Binop? && e.op == MUL && ConstantOrNone(acc.constPart)
    ensures
      var l, r := e.operand1, e.operand2;
      && Walk(e, v, acc) == Walk(r, v, Walk(l, v, acc))
      && At(e, x) == Times(At(l, x), At(r, x)) && Degree(e) == Degree(l) + Degree(r)
      && (HasNumber(e) <==> HasNumber(l) || HasNumber(r))
  {
    hide TimesConstant;
  }

  lemma WalkPower(e: Expr, v: string, acc: Factors, x: real)
    requires (e == Variable(v) || IsPower(e, v)) && ProperFactors(acc)
    ensures var r := Walk(e, v, acc);
      && ProperFactors(r) && r.degree == acc.degree + Degree(e) && r.constPart == acc.constPart
      && !HasNumber(e)
      && FactorsAt(r, x) == Times(FactorsAt(acc, x), At(e, x))
  {
    var k := Degree(e);
    assert Walk(e, v, acc) == acc.(degree := acc.degree + k);
    PowerAt(e, v, x);
    hide Walk, At, Degree, RPow, NumberOf, Monomial, Times;
    MonomialPower(if acc.constPart.Some? then NumberOf(acc.constPart) else 1.0, x, acc.degree, k);
  }

  lemma MonomialPower(c: real, x: real, m: nat, k: nat)
    ensures Monomial(c, x, m + k) == Times(Monomial(c, x, m), RPow(x, k))
  {
    RPowAdd(x, m, k);
    Associate(c, RPow(x, m), RPow(x, k));
  }

  lemma MonomialScale(a: real, b: real, x: real, d: nat)
    ensures Monomial(Times(a, b), x, d) == Times(Monomial(a, x, d), b)
  {
    Rearrange(a, b, RPow(x, d));
  }

  lemma PowerAt(e: Expr, v: string, x: real)
    requires e == Variable(v) || IsPower(e, v)
    ensures At(e, x) == RPow(x, Degree(e))
  {
    if e == Variable(v) {
      assert RPow(x, 1) == x * RPow(x, 0);
    }
  }

  lemma WalkConstant(e: Expr, v: string, acc: Factors, x: real)
    requires IsProper(e) && ProperFactors(acc)
    ensures var r := Walk(e, v, acc);
      && ProperFactors(r) && r.degree == acc.degree && r.constPart.Some?
      && FactorsAt(r, x) == Times(FactorsAt(acc, x), At(e, x))
  {
    ProductOfConstants(acc.constPart, e, x);
    var c := if acc.constPart.Some? then NumberOf(acc.constPart) else 1.0;
    assert Walk(e, v, acc) == acc.(constPart := TimesConstant(acc.constPart, e));
    hide Monomial, Times, NumberOf, At, Walk, TimesConstant;
    MonomialScale(c, At(e, x), x, acc.degree);
  }

  lemma ProductOfConstants(constPart: Option<Expr>, e: Expr, x: real)
    requires IsProper(e) && (constPart.Some? ==> IsProper(constPart.value))
    ensures var r := TimesConstant(constPart, e);
      && r.Some? && IsProper(r.value)
      && NumberOf(r) == Times(if constPart.Some? then NumberOf(constPart) else 1.0, At(e, x))
  {
    hide ApplyBinop;
    if constPart.Some? {
      ApplyBinopExact(MUL, constPart.value, e, Bin(MUL, constPart.value, e));
    }
  }

  lemma Rearrange(a: real, b: real, p: real)
    ensures (a * b) * p == (a * p) * b
  {
  }

  // ---------- Sums ----------

  predicate DegreesBelow(e: Expr, v: string, n: nat)
    requires IsSum(e, v)
  {
    if IsProduct(e, v) then Degree(e) < n
    else if e.Unop? then DegreesBelow(e.operand1, v, n)
    else DegreesBelow(e.operand1, v, n) && DegreesBelow(e.operand2, v, n)
  }

  /** A product without a number is dropped unless it is negated, which supplies the number -1. */
  predicate IsLost(e: Expr, negate: bool) {
    e.Binop? && e.op == MUL && !negate && !HasNumber(e)
  }

  /** The products that leave an empty slot instead of a coefficient. */
  function Lost(e: Expr, v: string, negate: bool): seq<Expr>
    requires IsSum(e, v)
  {
    if IsProduct(e, v) then (if IsLost(e, negate) then [e] else [])
    else if e.Unop? then Lost(e.operand1, v, !negate)
    else Lost(e.operand1, v, negate) + Lost(e.operand2, v, if e.op == SUB then !negate else negate)
  }

  function SumAt(es: seq<Expr>, x: real): real {
    if es == [] then 0.0 else At(es[0], x) + SumAt(es[1..], x)
  }

  lemma {:induction false} SumAtConcat(es: seq<Expr>, fs: seq<Expr>, x: real)
    ensures SumAt(es + fs, x) == SumAt(es, x) + SumAt(fs, x)
  {
    if es == [] {
      assert es + fs == fs;
    } else {
      assert (es + fs)[1..] == es[1..] + fs;
      SumAtConcat(es[1..], fs, x);
    }
  }

  function Signed(negate: bool, r: real): real {
    if negate then -r else r
  }

  /** The array gains the signed value of the sum, less the products that were dropped. */
  lemma {:induction false} AccumValue(e: Expr, v: string, poly: Poly, negate: bool, n: nat, x: real)
    requires IsSum(e, v) && IsPoly(poly) && DegreesBelow(e, v, n)
    ensures IsPoly(Accum(e, v, poly, negate))
    ensures Value(Accum(e, v, poly, negate), n, x)
        == Value(poly, n, x) + Signed(negate, At(e, x)) - SumAt(Lost(e, v, negate), x)
    decreases e, 1
  {
    if IsProduct(e, v) {
      AccumProduct(e, v, poly, negate, n, x);
    } else if e.Unop? {
      AccumUnopValue(e, v, poly, negate, n, x);
    } else {
      AccumBinopValue(e, v, poly, negate, n, x);
    }
  }

  lemma AccumUnopValue(e: Expr, v: string, poly: Poly, negate: bool, n: nat, x: real)
    requires e.Unop? && IsSum(e, v) && IsPoly(poly) && DegreesBelow(e, v, n)
    ensures IsPoly(Accum(e, v, poly, negate))
    ensures Value(Accum(e, v, poly, negate), n, x)
        == Value(poly, n, x) + Signed(negate, At(e, x)) - SumAt(Lost(e, v, negate), x)
    decreases e, 0
  {
    var l := e.operand1;
    assert Accum(e, v, poly, negate) == Accum(l, v, poly, !negate);
    assert At(e, x) == -At(l, x) && Lost(e, v, negate) == Lost(l, v, !negate);
    assert IsSum(l, v) && DegreesBelow(l, v, n);
    hide Accum, At, Lost, IsSum, DegreesBelow, Value, SumAt, IsPoly;
    AccumValue(l, v, poly, !negate, n, x);
  }

  lemma AccumBinopValue(e: Expr, v: string, poly: Poly, negate: bool, n: nat, x: real)
    requires e.Binop? && (e.op == ADD || e.op == SUB) && IsSum(e, v) && IsPoly(poly) && DegreesBelow(e, v, n)
    ensures IsPoly(Accum(e, v, poly, negate))
    ensures Value(Accum(e, v, poly, negate), n, x)
        == Value(poly, n, x) + Signed(negate, At(e, x)) - SumAt(Lost(e, v, negate), x)
    decreases e, 0
  {
    var l, r := e.operand1, e.operand2;
    var negate' := if e.op == SUB then !negate else negate;
    var mid := Accum(l, v, poly, negate);
    assert Accum(e, v, poly, negate) == Accum(r, v, mid, negate');
    assert At(e, x) == if e.op == ADD then At(l, x) + At(r, x) else At(l, x) - At(r, x);
    assert Lost(e, v, negate) == Lost(l, v, negate) + Lost(r, v, negate');
    assert IsSum(l, v) && DegreesBelow(l, v, n) && IsSum(r, v) && DegreesBelow(r, v, n);
    hide Accum, At, Lost, IsSum, DegreesBelow, Value, SumAt, IsPoly;
    AccumValue(l, v, poly, negate, n, x);
    AccumValue(r, v, mid, negate', n, x);
    SumAtConcat(Lost(l, v, negate), Lost(r, v, negate'), x);
  }

  lemma AccumProduct(e: Expr, v: string, poly: Poly, negate: bool, n: nat, x: real)
    requires IsProduct(e, v) && IsPoly(poly) && Degree(e) < n
    ensures IsPoly(Accum(e, v, poly, negate))
    ensures Value(Accum(e, v, poly, negate), n, x)
        == Value(poly, n, x) + Signed(negate, At(e, x)) - SumAt(Lost(e, v, negate), x)
  {
    if e.Binop? && e.op == MUL {
      AccumMulValue(e, v, poly, negate, n, x);
    } else {
      FactorValue(e, v, negate, x);
      var c := if IsConstant(e) then Some(if negate then Negate(e) else e) else UnitCoefficient(negate);
      assert Accum(e, v, poly, negate) == AddTerm(poly, Degree(e), c);
      assert Lost(e, v, negate) == [];
      hide Value, AddTerm, At, Accum, NumberOf, Degree, Monomial, IsProduct, Lost;
      AddTermValue(poly, Degree(e), c, n, x);
    }
  }

  lemma FactorValue(e: Expr, v: string, negate: bool, x: real)
    requires IsFactor(e, v)
    ensures var c := if IsConstant(e) then Some(if negate then Negate(e) else e) else UnitCoefficient(negate);
      IsProper(c.value) && Monomial(NumberOf(c), x, Degree(e)) == Signed(negate, At(e, x))
  {
    if IsConstant(e) {
      NegateValue(e);
      assert RPow(x, 0) == 1.0;
    } else {
      PowerAt(e, v, x);
    }
  }

  lemma AccumMulValue(e: Expr, v: string, poly: Poly, negate: bool, n: nat, x: real)
    requires e.Binop? && e.op == MUL && IsProduct(e, v) && IsPoly(poly) && Degree(e) < n
    ensures IsPoly(Accum(e, v, poly, negate))
    ensures Value(Accum(e, v, poly, negate), n, x)
        == Value(poly, n, x) + Signed(negate, At(e, x)) - SumAt(Lost(e, v, negate), x)
  {
    var start := Factors(if negate then Some(Integer(-1)) else None, 0);
    var factors := Walk(e, v, start);
    assert forall r :: Times(FactorsAt(start, x), r) == Signed(negate, r) by {
      assert RPow(x, 0) == 1.0;
    }
    assert Accum(e, v, poly, negate) == AddTerm(poly, factors.degree, factors.constPart);
    assert SumAt(Lost(e, v, negate), x) == if IsLost(e, negate) then At(e, x) else 0.0;
    hide Walk, At, Value, AddTerm, Accum, Lost, SumAt, IsProduct, Degree, HasNumber, Times, Monomial;
    WalkProduct(e, v, start, x);
    AddTermValue(poly, factors.degree, factors.constPart, n, x);
    assert factors.constPart.Some? ==>
      FactorsAt(factors, x) == Monomial(NumberOf(factors.constPart), x, factors.degree);
    ZeroMonomial(x, factors.degree);
  }

  lemma ZeroMonomial(x: real, d: nat)
    ensures Monomial(0.0, x, d) == 0.0
  {
  }

  predicate Lossless(e: Expr, v: string, negate: bool)
    requires IsSum(e, v)
  {
    Lost(e, v, negate) == []
  }

  lemma {:induction false} NoNumberAtOne(e: Expr, v: string)
    requires IsProduct(e, v) && !HasNumber(e)
    ensures At(e, 1.0) == 1.0
  {
    if e.Binop? && e.op == MUL {
      NoNumberAtOne(e.operand1, v);
      NoNumberAtOne(e.operand2, v);
    } else if IsPower(e, v) {
      PowerOfOne(e.operand2.value);
    }
  }

  lemma {:induction false} PowerOfOne(n: nat)
    ensures RPow(1.0, n) == 1.0
  {
    if n > 0 {
      PowerOfOne(n - 1);
    }
  }

  lemma {:induction false} LostAtOne(e: Expr, v: string, negate: bool)
    requires IsSum(e, v)
    ensures SumAt(Lost(e, v, negate), 1.0) == |Lost(e, v, negate)| as real
  {
    if IsProduct(e, v) {
      if IsLost(e, negate) {
        NoNumberAtOne(e, v);
        assert SumAt([e], 1.0) == At(e, 1.0) + SumAt([], 1.0);
      }
    } else if e.Unop? {
      LostAtOne(e.operand1, v, !negate);
    } else {
      var negate' := if e.op == SUB then !negate else negate;
      LostAtOne(e.operand1, v, negate);
      LostAtOne(e.operand2, v, negate');
      SumAtConcat(Lost(e.operand1, v, negate), Lost(e.operand2, v, negate'), 1.0);
    }
  }

  ghost predicate ExactFor(e: Expr, v: string, poly: Poly, negate: bool, n: nat)
    requires ConstantPoly(poly)
  {
    forall x: real :: Value(Accum(e, v, poly, negate), n, x) == Value(poly, n, x) + Signed(negate, At(e, x))
  }

  /** The coefficients are exact precisely when every product that is not negated has a number in it. */
  lemma AccumExact(e: Expr, v: string, poly: Poly, negate: bool, n: nat)
    requires IsSum(e, v) && IsPoly(poly) && DegreesBelow(e, v, n)
    ensures ExactFor(e, v, poly, negate, n) <==> Lossless(e, v, negate)
  {
    hide Value, Accum, IsSum, DegreesBelow, At, Lost;
    if Lossless(e, v, negate) {
      forall x: real ensures Value(Accum(e, v, poly, negate), n, x) == Value(poly, n, x) + Signed(negate, At(e, x)) {
        AccumValue(e, v, poly, negate, n, x);
      }
    }
    if ExactFor(e, v, poly, negate, n) {
      AccumValue(e, v, poly, negate, n, 1.0);
      LostAtOne(e, v, negate);
    }
  }

  /** xx: the slot for degree 2 exists but holds no number. */
  lemma SquareIsLost(v: string)
    ensures Accum(Bin(MUL, Variable(v), Variable(v)), v, map[], false) == map[2 := None]
  {
    var e := Bin(MUL, Variable(v), Variable(v));
    assert Walk(e, v, Factors(None, 0)) == Factors(None, 2);
  }

  // ---------- Equations ----------

  /** For an equation the array holds the left side minus the right side. */
  lemma EquationValue(l: Expr, r: Expr, v: string, par: bool, n: nat, x: real)
    requires IsSum(l, v) && IsSum(r, v) && DegreesBelow(l, v, n) && DegreesBelow(r, v, n)
    requires Lossless(l, v, false) && Lossless(r, v, true)
    ensures IsPoly(Accum(Binop(EQ, l, r, par), v, map[], false))
    ensures Value(Accum(Binop(EQ, l, r, par), v, map[], false), n, x) == At(l, x) - At(r, x)
  {
    var none: Poly := map[];
    var mid := Accum(l, v, none, false);
    assert Accum(Binop(EQ, l, r, par), v, none, false) == Accum(r, v, mid, true);
    hide Accum, IsSum, DegreesBelow, At, Lost;
    EmptyValue(n, x);
    AccumValue(l, v, none, false, n, x);
    AccumValue(r, v, mid, true, n, x);
  }

  lemma {:induction false} EmptyValue(n: nat, x: real)
    ensures Value(map[], n, x) == 0.0
  {
    if n > 0 {
      EmptyValue(n - 1, x);
    }
  }
}
