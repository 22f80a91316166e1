/**
 * Exact arithmetic on integer, rational and real constants (the `Constants` namespace and
 * `applyBinop` of examples/data-objects/math/src/mathExpr.ts).
 */
module MathConstants {
  import opened MathExpr
  import opened Options

  // ---------- Integers ----------

  /** JavaScript's remainder: it takes the sign of the dividend. */
  function Rem(a: int, b: int): int
    requires b != 0
  {
    if a >= 0 then a % b else -((-a) % b)
  }

  function Abs(n: int): nat {
    if n < 0 then -n else n
  }

  function Gcd(a: int, b: int): (g: int)
    ensures g == 0 ==> a == 0 && b == 0
    decreases Abs(b)
  {
    if b == 0 then a
    else if a == 0 then b
    else Gcd(b, Rem(a, b))
  }

  lemma FactorIsOne(k: int, g: int)
    requires k != 0 && k * g == k
    ensures g == 1
  {
    MulCancel(g, 1, k);
  }

  lemma MulCancel(x: int, y: int, k: int)
    requires k != 0 && x * k == y * k
    ensures x == y
  {
  }

  lemma AbsProduct(x: int, y: int)
    ensures Abs(x * y) == Abs(x) * Abs(y)
  {
  }

  lemma MulLess(k: nat, x: nat, y: nat)
    requires k > 0 && x < y
    ensures k * x < k * y
  {
  }

  lemma MulAtLeast(k: nat, x: nat)
    requires k > 0
    ensures k * x >= x
  {
  }

  /** Only zero is both a multiple of d and smaller than d. */
  lemma SmallMultiple(q: int, d: int)
    requires Abs(q * d) < Abs(d)
    ensures q == 0
  {
    AbsProduct(q, d);
    if q != 0 {
      MulAtLeast(Abs(q), Abs(d));
    }
  }

  lemma QuotientIs(n: int, d: int, q: int)
    requires d != 0 && n == q * d
    ensures n / d == q && n % d == 0
  {
    assert (q - n / d) * d == n % d;
    SmallMultiple(q - n / d, d);
  }

  /** The truncated quotient and remainder of a by b. */
  lemma RemQuotient(a: int, b: int) returns (q: int)
    requires b != 0
    ensures a == q * b + Rem(a, b)
    ensures Abs(Rem(a, b)) < Abs(b)
    ensures a >= 0 ==> Rem(a, b) >= 0
    ensures a <= 0 ==> Rem(a, b) <= 0
  {
    if a >= 0 {
      q := a / b;
    } else {
      q := -((-a) / b);
    }
  }

  /** The remainder is the only number of the dividend's sign that is small and congruent to it. */
  lemma RemUnique(a: int, b: int, q: int, r: int)
    requires b != 0 && a == q * b + r && Abs(r) < Abs(b)
    requires a >= 0 ==> r >= 0
    requires a <= 0 ==> r <= 0
    ensures r == Rem(a, b)
  {
    var q' := RemQuotient(a, b);
    assert (q' - q) * b == r - Rem(a, b);
    assert Abs((q' - q) * b) < Abs(b);
    SmallMultiple(q' - q, b);
  }

  lemma RemScale(k: int, a: int, b: int)
    requires k != 0 && b != 0
    ensures k * b != 0
    ensures Rem(k * a, k * b) == k * Rem(a, b)
  {
    hide Rem, Abs;
    var q := RemQuotient(a, b);
    var r := Rem(a, b);
    ScaledSum(k, q, b, r);
    ScaledLess(k, r, b);
    SignProduct(k, a, r);
    RemUnique(k * a, k * b, q, k * r);
  }

  lemma ScaledSum(k: int, q: int, b: int, r: int)
    ensures k * (q * b + r) == q * (k * b) + k * r
  {
  }

  lemma ScaledLess(k: int, r: int, b: int)
    requires k != 0 && Abs(r) < Abs(b)
    ensures k * b != 0 && Abs(k * r) < Abs(k * b)
  {
    hide Abs;
    AbsProduct(k, r);
    AbsProduct(k, b);
    AbsIsZero(k);
    AbsIsZero(k * b);
    MulLess(Abs(k), Abs(r), Abs(b));
  }

  lemma AbsIsZero(n: int)
    ensures Abs(n) == 0 <==> n == 0
  {
  }

  lemma SignProduct(k: int, a: int, r: int)
    requires k != 0
    requires a >= 0 ==> r >= 0
    requires a <= 0 ==> r <= 0
    ensures k * a >= 0 ==> k * r >= 0
    ensures k * a <= 0 ==> k * r <= 0
  {
    if k > 0 {
      assert a > 0 ==> k * a > 0;
      assert a < 0 ==> k * a < 0;
    } else {
      assert a > 0 ==> k * a < 0;
      assert a < 0 ==> k * a > 0;
    }
  }

  /** Scaling both numbers by any nonzero factor, of either sign, scales their gcd by that factor. */
  lemma {:induction false} GcdScale(k: int, a: int, b: int)
    requires k != 0
    ensures Gcd(k * a, k * b) == k * Gcd(a, b)
    decreases Abs(b)
  {
    if b != 0 && a != 0 {
      var _ := RemQuotient(a, b);
      RemScale(k, a, b);
      GcdScale(k, b, Rem(a, b));
    }
  }

  /** The gcd is a combination of both numbers, and they are its multiples. */
  lemma {:induction false} Bezout(a: int, b: int) returns (u: int, v: int, x: int, y: int)
    requires a != 0 || b != 0
    ensures Gcd(a, b) == u * a + v * b
    ensures a == x * Gcd(a, b) && b == y * Gcd(a, b)
    decreases Abs(b)
  {
    if b == 0 {
      u, v, x, y := 1, 0, 1, 0;
    } else if a == 0 {
      u, v, x, y := 0, 1, 0, 1;
    } else {
      var q := RemQuotient(a, b);
      var g, r := Gcd(a, b), Rem(a, b);
      var u', v', x', y' := Bezout(b, r);
      BezoutStep(a, b, q, r, g, u', v', x', y');
      u, v, x, y := v', u' - v' * q, q * x' + y', x';
    }
  }

  lemma BezoutStep(a: int, b: int, q: int, r: int, g: int, u: int, v: int, x: int, y: int)
    requires a == q * b + r && g == u * b + v * r && b == x * g && r == y * g
    ensures g == v * a + (u - v * q) * b
    ensures a == (q * x + y) * g
  {
    assert v * a == v * (q * b) + v * r;
    assert (u - v * q) * b == u * b - v * (q * b);
    assert (q * x) * g == q * b;
  }

  /** Of two natural numbers it is a natural number. */
  lemma {:induction false} GcdNatural(a: nat, b: nat)
    ensures Gcd(a, b) >= 0
    decreases b
  {
    if a != 0 && b != 0 {
      GcdNatural(b, a % b);
    }
  }

  // ---------- Rationals ----------

  function SimplifyRational(a: int, b: int): Expr
    requires b != 0
  {
    if Rem(a, b) == 0 then Integer(a / b)
    else
      var d := Gcd(a, b);
      if d == 1 then Rational(a, b) else Rational(a / d, b / d)
  }

  lemma QuotientsEqual(a: int, b: int, c: int, d: int)
    requires b != 0 && d != 0
    ensures (a as real / b as real == c as real / d as real) <==> a * d == c * b
  {
    var x, y := a as real / b as real, c as real / d as real;
    var bb, dd := b as real, d as real;
    assert x * bb == a as real && y * dd == c as real;
    assert (a * d) as real == (x * bb) * dd;
    assert (c * b) as real == (y * dd) * bb;
    RealCancel(x, y, bb, dd);
  }

  lemma RealCancel(x: real, y: real, b: real, d: real)
    requires b != 0.0 && d != 0.0
    ensures x == y <==> (x * b) * d == (y * d) * b
  {
    if (x * b) * d == (y * d) * b {
      var z := x - y;
      assert z * b * d == 0.0;
      assert b * d != 0.0;
      assert z * (b * d) == 0.0;
    }
  }

  /** What a fraction reduces to, given its lowest terms. */
  lemma SimplifyShape(a: int, b: int, p: int, q: int, k: int)
    requires q != 0 && k != 0 && Gcd(p, q) == 1
    requires b != 0 && a == k * p && b == k * q
    ensures SimplifyRational(a, b) == if Rem(p, q) == 0 then Integer(p / q) else Rational(p, q)
  {
    hide Gcd, Rem;
    RemScale(k, p, q);
    GcdScale(k, p, q);
    if Rem(p, q) == 0 {
      var n := RemQuotient(p, q);
      assert a == n * b by { Regroup(k, n, q); }
      QuotientIs(a, b, n);
      QuotientIs(p, q, n);
    } else {
      ProductNonzero(k, Rem(p, q));
      QuotientIs(a, k, p);
      QuotientIs(b, k, q);
    }
  }

  lemma Regroup(k: int, n: int, q: int)
    ensures k * (n * q) == n * (k * q)
  {
  }

  /** A fraction in lowest terms, scaled by any nonzero factor, reduces to the same constant. */
  lemma SimplifyMultiple(p: int, q: int, k: int)
    requires q != 0 && k != 0 && Gcd(p, q) == 1
    ensures k * q != 0
    ensures SimplifyRational(k * p, k * q) == SimplifyRational(p, q)
  {
    ProductNonzero(k, q);
    SimplifyShape(k * p, k * q, p, q, k);
    SimplifyShape(p, q, p, q, 1);
  }

  lemma ProductNonzero(x: int, y: int)
    requires x != 0 && y != 0
    ensures x * y != 0
  {
  }

  /** Every fraction is a nonzero multiple of one in lowest terms. */
  lemma Reduced(a: int, b: int) returns (p: int, q: int, k: int)
    requires b != 0
    ensures q != 0 && k != 0 && Gcd(p, q) == 1
    ensures a == k * p && b == k * q
  {
    hide *;
    var _, _, x, y := Bezout(a, b);
    p, q, k := x, y, Gcd(a, b);
    GcdScale(k, p, q);
    assert a == k * p && b == k * q;
    assert k * Gcd(p, q) == k;
    FactorIsOne(k, Gcd(p, q));
  }

  /** Reducing a fraction keeps its value. */
  lemma SimplifyKeepsValue(a: int, b: int)
    requires b != 0
    ensures IsConstant(SimplifyRational(a, b))
    ensures ConstantValue(SimplifyRational(a, b)) == Num(a as real / b as real)
  {
    hide Gcd, Rem, SimplifyRational;
    var p, q, k := Reduced(a, b);
    SimplifyShape(a, b, p, q, k);
    assert p * b == a * q by { Regroup(k, p, q); }
    QuotientsEqual(p, q, a, b);
    if Rem(p, q) == 0 {
      var n := RemQuotient(p, q);
      QuotientIs(p, q, n);
      QuotientsEqual(n, 1, p, q);
    }
  }

  /** No integer, and without a common factor. */
  predicate IsLowest(c: Expr) {
    c.Rational? ==> c.b != 0 && Rem(c.a, c.b) != 0 && Gcd(c.a, c.b) == 1
  }

  /** A fraction reduces to an integer exactly when it is one, and to lowest terms otherwise. */
  lemma SimplifyIsLowest(a: int, b: int)
    requires b != 0
    ensures var r := SimplifyRational(a, b); !r.Real? && IsLowest(r) && (r.Integer? <==> Rem(a, b) == 0)
  {
    hide Gcd, Rem, SimplifyRational;
    var p, q, k := Reduced(a, b);
    SimplifyShape(a, b, p, q, k);
    RemScale(k, p, q);
    if Rem(p, q) != 0 {
      ProductNonzero(k, Rem(p, q));
    }
  }

  /** Two fractions reduce to the identical constant exactly when they are equal. */
  lemma SimplifyCanonical(a: int, b: int, c: int, d: int)
    requires b != 0 && d != 0
    ensures SimplifyRational(a, b) == SimplifyRational(c, d) <==> a * d == c * b
  {
    SimplifyKeepsValue(a, b);
    SimplifyKeepsValue(c, d);
    QuotientsEqual(a, b, c, d);
    if a * d == c * b {
      var p, q, g := Reduced(a, b);
      EqualToLowest(p, q, g, c, d);
      var k := LowestTerms(p, q, c, d);
      SimplifyMultiple(p, q, g);
      SimplifyMultiple(p, q, k);
    }
  }

  lemma EqualToLowest(p: int, q: int, g: int, c: int, d: int)
    requires g != 0 && (g * p) * d == c * (g * q)
    ensures p * d == c * q
  {
    assert (p * d) * g == (g * p) * d;
    assert (c * q) * g == c * (g * q);
    MulCancel(p * d, c * q, g);
  }

  /** A fraction equal to one in lowest terms is a multiple of it. */
  lemma LowestTerms(p: int, q: int, c: int, d: int) returns (k: int)
    requires q != 0 && d != 0 && Gcd(p, q) == 1 && p * d == c * q
    ensures k != 0 && c == k * p && d == k * q
  {
    var u, v, _, _ := Bezout(p, q);
    k := u * c + v * d;
    Combine(u, v, p, q, c, d);
  }

  lemma Combine(u: int, v: int, p: int, q: int, c: int, d: int)
    requires u * p + v * q == 1 && p * d == c * q
    ensures d == (u * c + v * d) * q
    ensures c == (u * c + v * d) * p
  {
    assert d == u * (p * d) + v * d * q by {
      assert d == d * (u * p + v * q);
      assert d * (u * p) == u * (p * d) && d * (v * q) == v * d * q;
    }
    assert c == u * c * p + v * (c * q) by {
      assert c == c * (u * p + v * q);
      assert c * (u * p) == u * c * p && c * (v * q) == v * (c * q);
    }
    assert u * (c * q) == u * c * q && v * (p * d) == v * d * p;
  }

  lemma SimplifyIdempotent(a: int, b: int)
    requires b != 0 && SimplifyRational(a, b).Rational?
    ensures var r := SimplifyRational(a, b); r.b != 0 && SimplifyRational(r.a, r.b) == r
  {
    var r := SimplifyRational(a, b);
    SimplifyKeepsValue(a, b);
    QuotientsEqual(r.a, r.b, a, b);
    SimplifyCanonical(r.a, r.b, a, b);
  }

  // ---------- The constant tower ----------

  predicate IsProper(c: Expr) {
    IsConstant(c) && (c.Rational? ==> c.b != 0)
  }

  function Negate(c: Expr): Expr
    requires IsConstant(c)
  {
    match c
    case Rational(a, b) => Rational(-a, b)
    case Integer(n) => Integer(-n)
    case Real(r) => Real(-r)
  }

  predicate IsNegative(c: Expr)
    requires IsConstant(c)
  {
    match c
    case Rational(a, b) => (a < 0 && b > 0) || (a > 0 && b < 0)
    case Integer(n) => n < 0
    case Real(r) => r < 0.0
  }

  lemma NegateValue(c: Expr)
    requires IsConstant(c)
    ensures IsConstant(Negate(c)) && (IsProper(c) ==> IsProper(Negate(c)))
    ensures ConstantValue(Negate(c)) == Negative(ConstantValue(c))
    ensures Negate(Negate(c)) == c
  {
  }

  lemma IsNegativeValue(c: Expr)
    requires IsProper(c)
    ensures IsNegative(c) <==> ConstantValue(c).r < 0.0
  {
    if c.Rational? {
      var x, b := ConstantValue(c).r, c.b as real;
      assert x * b == c.a as real;
      assert x > 0.0 && b > 0.0 ==> x * b > 0.0;
      assert x < 0.0 && b < 0.0 ==> x * b > 0.0;
      assert x < 0.0 && b > 0.0 ==> x * b < 0.0;
      assert x > 0.0 && b < 0.0 ==> x * b < 0.0;
    }
  }

  function Rank(c: Expr): nat
    requires IsConstant(c)
  {
    if c.Integer? then 0 else if c.Rational? then 1 else 2
  }

  function ConvertConstant(c: Expr, rank: nat): Expr
    requires IsProper(c)
  {
    if Rank(c) >= rank then c
    else if c.Integer? then (if rank == 2 then Real(c.value as real) else Rational(c.value, 1))
    else if c.Rational? then Real(c.a as real / c.b as real)
    else c
  }

  function Promote(c1: Expr, c2: Expr): (Expr, Expr)
    requires IsProper(c1) && IsProper(c2)
  {
    if Rank(c1) == Rank(c2) then (c1, c2)
    else if Rank(c1) < Rank(c2) then (ConvertConstant(c1, Rank(c2)), c2)
    else (c1, ConvertConstant(c2, Rank(c1)))
  }

  lemma PromoteKeepsValues(c1: Expr, c2: Expr)
    requires IsProper(c1) && IsProper(c2)
    ensures var (p1, p2) := Promote(c1, c2);
      && IsProper(p1) && IsProper(p2) && Rank(p1) == Rank(p2)
      && ConstantValue(p1) == ConstantValue(c1) && ConstantValue(p2) == ConstantValue(c2)
  {
  }

  function Lcm(k1: int, k2: int): int
    requires k1 != 0 && k2 != 0
  {
    Abs(k1 * k2) / Gcd(k1, k2)
  }

  /** Brings two fractions to a common denominator. */
  function Lcd(r1: Expr, r2: Expr): (Expr, Expr)
    requires r1.Rational? && r2.Rational? && r1.b != 0 && r2.b != 0
  {
    if r1.b == r2.b then (r1, r2)
    else
      var d := Lcm(r1.b, r2.b);
      var f1, f2 := d / r1.b, d / r2.b;
      (if r1.a == 0 then Rational(0, d) else Rational(f1 * r1.a, f1 * r1.b),
       if r2.a == 0 then Rational(0, d) else Rational(f2 * r2.a, f2 * r2.b))
  }

  /** The least common multiple, of either sign, is a nonzero multiple of both numbers. */
  lemma LcmFactors(k1: int, k2: int) returns (f1: int, f2: int)
    requires k1 != 0 && k2 != 0
    ensures f1 != 0 && f2 != 0
    ensures Lcm(k1, k2) == f1 * k1 == f2 * k2
    ensures Lcm(k1, k2) / k1 == f1 && Lcm(k1, k2) / k2 == f2
  {
    hide Gcd;
    var _, _, x, y := Bezout(k1, k2);
    var g := Gcd(k1, k2);
    var s := if k1 * k2 < 0 then -1 else 1;
    f1, f2 := s * y, s * x;
    assert Abs(k1 * k2) == (f1 * k1) * g by { LcmAlgebra(k1, k2, x, y, g, s); }
    QuotientIs(Abs(k1 * k2), g, f1 * k1);
    assert f1 * k1 == f2 * k2 by { LcmAlgebra(k1, k2, x, y, g, s); }
    QuotientIs(Lcm(k1, k2), k1, f1);
    QuotientIs(Lcm(k1, k2), k2, f2);
  }

  lemma LcmAlgebra(k1: int, k2: int, x: int, y: int, g: int, s: int)
    requires k1 == x * g && k2 == y * g && s == if k1 * k2 < 0 then -1 else 1
    ensures Abs(k1 * k2) == (s * y * k1) * g
    ensures s * y * k1 == s * x * k2
  {
    assert Abs(k1 * k2) == s * (k1 * k2);
    assert k1 * k2 == (y * k1) * g;
    assert y * k1 == x * k2 by {
      assert y * (x * g) == x * (y * g);
    }
  }

  /** Every common multiple is a multiple of it, and of positive numbers it is positive. */
  lemma LcmIsLeast(k1: int, k2: int, m: int, s: int, t: int) returns (q: int)
    requires k1 != 0 && k2 != 0 && m == s * k1 == t * k2
    ensures m == q * Lcm(k1, k2)
    ensures k1 > 0 && k2 > 0 ==> Lcm(k1, k2) > 0
  {
    hide Gcd;
    var u, v, x, y := Bezout(k1, k2);
    var g := Gcd(k1, k2);
    var sign := if k1 * k2 < 0 then -1 else 1;
    LcmAlgebra(k1, k2, x, y, g, sign);
    QuotientIs(Abs(k1 * k2), g, sign * y * k1);
    q := sign * (u * t + v * s);
    CommonMultiple(k1, k2, m, s, t, u, v, x, y, g, sign);
    if k1 > 0 && k2 > 0 {
      GcdNatural(k1, k2);
      PositiveFactor(y, g);
    }
  }

  lemma CommonMultiple(
    k1: int, k2: int, m: int, s: int, t: int, u: int, v: int, x: int, y: int, g: int, sign: int)
    requires m == s * k1 == t * k2 && g == u * k1 + v * k2 && k2 == y * g && g != 0 && sign * sign == 1
    ensures m == (sign * (u * t + v * s)) * (sign * y * k1)
  {
    var w := u * t + v * s;
    assert m * g == (u * k1) * (t * k2) + (v * k2) * (s * k1) == (w * k1) * k2 by {
      assert (u * k1) * (t * k2) == (u * t) * (k1 * k2);
      assert (v * k2) * (s * k1) == (v * s) * (k1 * k2);
      assert (w * k1) * k2 == w * (k1 * k2) == (u * t) * (k1 * k2) + (v * s) * (k1 * k2);
    }
    assert (w * k1) * k2 == ((w * k1) * y) * g;
    CancelFactor(m, (w * k1) * y, g);
    assert (sign * w) * (sign * y * k1) == (sign * sign) * ((w * k1) * y);
  }

  lemma CancelFactor(m: int, n: int, g: int)
    requires g != 0 && m * g == n * g
    ensures m == n
  {
    if m != n {
      ProductNonzero(m - n, g);
    }
  }

  lemma PositiveFactor(y: int, g: int)
    requires y * g > 0 && g >= 0
    ensures y > 0
  {
    assert y <= 0 ==> y * g <= 0;
  }

  lemma ScaledFraction(f: int, a: int, b: int)
    requires f != 0 && b != 0
    ensures f * b != 0
    ensures (f * a) as real / (f * b) as real == a as real / b as real
  {
    ProductNonzero(f, b);
    assert (f * a) * b == a * (f * b) by { Regroup(f, a, b); }
    QuotientsEqual(f * a, f * b, a, b);
  }

  lemma LcdKeepsValues(r1: Expr, r2: Expr)
    requires r1.Rational? && r2.Rational? && r1.b != 0 && r2.b != 0
    ensures var (p1, p2) := Lcd(r1, r2);
      && p1.Rational? && p2.Rational? && p1.b == p2.b != 0
      && ConstantValue(p1) == ConstantValue(r1) && ConstantValue(p2) == ConstantValue(r2)
  {
    hide Lcm;
    if r1.b != r2.b {
      var f1, f2 := LcmFactors(r1.b, r2.b);
      ScaledFraction(f1, r1.a, r1.b);
      ScaledFraction(f2, r2.a, r2.b);
    }
  }

  function IPow(n: int, k: nat): int {
    if k == 0 then 1 else n * IPow(n, k - 1)
  }

  lemma {:induction false} IPowValue(n: int, k: nat)
    ensures IPow(n, k) as real == RPow(n as real, k)
    ensures n != 0 ==> IPow(n, k) != 0
  {
    if k > 0 {
      IPowValue(n, k - 1);
    }
  }

  lemma {:induction false} RPowQuotient(x: real, y: real, k: nat)
    requires y != 0.0
    ensures RPow(y, k) != 0.0
    ensures RPow(x / y, k) == RPow(x, k) / RPow(y, k)
  {
    if k > 0 {
      RPowQuotient(x, y, k - 1);
      QuotientProduct(x, y, RPow(x, k - 1), RPow(y, k - 1));
    }
  }

  lemma QuotientProduct(x: real, y: real, z: real, w: real)
    requires y != 0.0 && w != 0.0
    ensures y * w != 0.0
    ensures (x / y) * (z / w) == (x * z) / (y * w)
  {
    var p, q := x / y, z / w;
    assert (p * q) * (y * w) == (p * y) * (q * w);
  }

  /**
   * None stands for what lies outside this model: `undefined`, a zero divisor, and powers with a
   * negative or fractional exponent.
   */
  function RationalOp(op: Operator, c1: Expr, c2: Expr): Option<Expr>
    requires c1.Rational? && c2.Rational? && c1.b != 0 && c2.b != 0
  {
    LcdKeepsValues(c1, c2);
    var (r1, r2) := Lcd(c1, c2);
    CommonDenominatorOp(op, r1, r2)
  }

  function CommonDenominatorOp(op: Operator, r1: Expr, r2: Expr): Option<Expr>
    requires r1.Rational? && r2.Rational? && r1.b == r2.b != 0
  {
    match op
    case ADD => Some(Rational(r1.a + r2.a, r1.b))
    case SUB => Some(Rational(r1.a - r2.a, r1.b))
    case MUL => Some(SimplifyRational(r1.a * r2.a, r1.b * r1.b))
    case DIV => if r2.a == 0 then None else Some(SimplifyRational(r1.a * r2.b, r1.b * r2.a))
    case EXP =>
      if r2.b == 1 then RationalPower(r1.a, r1.b, r2.a)
      else if Rem(r2.a, r2.b) == 0 then RationalPower(r1.a, r1.b, r2.a / r2.b)
      else None
    case _ => None
  }

  function RationalPower(a: int, b: int, exp: int): Option<Expr>
    requires b != 0
  {
    if exp < 0 then None
    else
      IPowValue(b, exp);
      Some(SimplifyRational(IPow(a, exp), IPow(b, exp)))
  }

  /** `binex` is the operation itself, given back when integers or reals meet any other operator. */
  function ApplyBinop(op: Operator, o1: Expr, o2: Expr, binex: Expr): Option<Expr>
    requires IsConstant(o1) && IsConstant(o2)
  {
    if !IsProper(o1) || !IsProper(o2) then None
    else
      PromoteKeepsValues(o1, o2);
      var (c1, c2) := Promote(o1, o2);
      if c1.Integer? then IntegerOp(op, c1.value, c2.value, binex)
      else if c1.Real? then RealOp(op, c1.val, c2.val, binex)
      else RationalOp(op, c1, c2)
  }

  function IntegerOp(op: Operator, x: int, y: int, binex: Expr): Option<Expr> {
    match op
    case ADD => Some(Integer(x + y))
    case SUB => Some(Integer(x - y))
    case MUL => Some(Integer(x * y))
    case DIV => if y == 0 then None else Some(SimplifyRational(x, y))
    case EXP => if y < 0 then None else Some(Integer(IPow(x, y)))
    case _ => Some(binex)
  }

  function RealOp(op: Operator, x: real, y: real, binex: Expr): Option<Expr> {
    match op
    case ADD => Some(Real(x + y))
    case SUB => Some(Real(x - y))
    case MUL => Some(Real(x * y))
    case DIV => if y == 0.0 then None else Some(Real(x / y))
    case EXP => if IsNatural(y) then Some(Real(RPow(x, y.Floor))) else None
    case _ => Some(binex)
  }

  predicate IsArithmetic(op: Operator) {
    op == ADD || op == SUB || op == MUL || op == DIV
  }

  lemma IntegerOpExact(op: Operator, x: int, y: int, binex: Expr)
    requires IsArithmetic(op) || op == EXP
    ensures var r := IntegerOp(op, x, y, binex);
      && (r.Some? ==> IsProper(r.value) && ConstantValue(r.value) == Operate(op, Num(x as real), Num(y as real)))
      && (IsArithmetic(op) && (op == DIV ==> y != 0) ==> r.Some?)
      && (op == EXP && y >= 0 ==> r.Some?)
  {
    hide SimplifyRational;
    match op {
      case DIV => if y != 0 { SimplifyIsProper(x, y); }
      case EXP => if y >= 0 {
        assert (y as real).Floor == y;
        IPowValue(x, y);
      }
      case _ =>
    }
  }

  lemma SimplifyIsProper(a: int, b: int)
    requires b != 0
    ensures IsProper(SimplifyRational(a, b))
    ensures ConstantValue(SimplifyRational(a, b)) == Num(a as real / b as real)
  {
    SimplifyKeepsValue(a, b);
  }

  lemma RationalPowerExact(a: int, b: int, exp: int)
    requires b != 0
    ensures var r := RationalPower(a, b, exp);
      r.Some? ==> exp >= 0 && IsProper(r.value) && ConstantValue(r.value) == Num(RPow(a as real / b as real, exp))
  {
    hide SimplifyRational;
    if exp >= 0 {
      IPowValue(a, exp);
      IPowValue(b, exp);
      RPowQuotient(a as real, b as real, exp);
      SimplifyIsProper(IPow(a, exp), IPow(b, exp));
    }
  }

  lemma SumExact(x: int, y: int, b: int)
    requires b != 0
    ensures ConstantValue(Rational(x + y, b))
        == Operate(ADD, ConstantValue(Rational(x, b)), ConstantValue(Rational(y, b)))
    ensures ConstantValue(Rational(x - y, b))
        == Operate(SUB, ConstantValue(Rational(x, b)), ConstantValue(Rational(y, b)))
  {
    var p, q, c := x as real / b as real, y as real / b as real, b as real;
    assert p * c == x as real && q * c == y as real;
    RealQuotientIs((x + y) as real, c, p + q);
    RealQuotientIs((x - y) as real, c, p - q);
  }

  lemma ProductExact(x: int, y: int, b: int)
    requires b != 0
    ensures b * b != 0 && IsProper(SimplifyRational(x * y, b * b))
    ensures ConstantValue(SimplifyRational(x * y, b * b))
        == Operate(MUL, ConstantValue(Rational(x, b)), ConstantValue(Rational(y, b)))
  {
    hide SimplifyRational;
    var c := b as real;
    ProductNonzero(b, b);
    QuotientProduct(x as real, c, y as real, c);
    SimplifyIsProper(x * y, b * b);
  }

  lemma QuotientExact(x: int, y: int, b: int)
    requires b != 0 && y != 0
    ensures b * y != 0 && IsProper(SimplifyRational(x * b, b * y))
    ensures ConstantValue(SimplifyRational(x * b, b * y))
        == Operate(DIV, ConstantValue(Rational(x, b)), ConstantValue(Rational(y, b)))
  {
    hide SimplifyRational, ConstantValue, Operate;
    ProductNonzero(b, y);
    SimplifyIsProper(x * b, b * y);
    NumeratorQuotient(x, y, b);
  }

  /** Over a common denominator, the quotient of two fractions is that of their numerators. */
  lemma NumeratorQuotient(x: int, y: int, b: int)
    requires b != 0 && y != 0 && b * y != 0
    ensures Num((x * b) as real / (b * y) as real)
      == Operate(DIV, ConstantValue(Rational(x, b)), ConstantValue(Rational(y, b)))
  {
    var n, m, c := x as real, y as real, b as real;
    Requotient(n, m, c);
    assert (x * b) as real == n * c && (b * y) as real == c * m;
  }

  lemma Requotient(n: real, m: real, c: real)
    requires c != 0.0 && m != 0.0
    ensures c * m != 0.0 && m / c != 0.0 && (n * c) / (c * m) == (n / c) / (m / c)
  {
    var p, q := n / c, m / c;
    assert p * c == n && q * c == m;
    QuotientQuotient(p, q, c);
  }

  /** The operations on fractions with one denominator, after `Lcd`. */
  lemma CommonDenominatorExact(op: Operator, r1: Expr, r2: Expr)
    requires IsArithmetic(op) || op == EXP
    requires r1.Rational? && r2.Rational? && r1.b == r2.b != 0
    ensures var r := CommonDenominatorOp(op, r1, r2);
      && (r.Some? ==> IsProper(r.value) && ConstantValue(r.value) == Operate(op, ConstantValue(r1), ConstantValue(r2)))
      && (IsArithmetic(op) && (op == DIV ==> r2.a != 0) ==> r.Some?)
      && (op == EXP && IsNatural(r2.a as real / r2.b as real) ==> r.Some?)
  {
    hide SimplifyRational, RationalPower, Rem, ConstantValue, Operate;
    var x, y, b := r1.a, r2.a, r1.b;
    assert r1 == Rational(x, b) && r2 == Rational(y, b);
    if op == EXP {
      RationalExponent(x, y, b);
      if IsNatural(y as real / b as real) {
        NaturalQuotient(y, b);
        PowerDefined(x, b, y / b);
        PowerDefined(x, b, if y >= 0 then y else 0);
      }
    } else if op == MUL {
      ProductExact(x, y, b);
    } else if op == DIV {
      if y != 0 {
        QuotientExact(x, y, b);
      }
    } else {
      SumExact(x, y, b);
    }
  }

  lemma PowerDefined(a: int, b: int, exp: nat)
    requires b != 0
    ensures RationalPower(a, b, exp).Some?
  {
  }

  /** A fraction with a natural value is found to be one. */
  lemma NaturalQuotient(y: int, b: int)
    requires b != 0 && IsNatural(y as real / b as real)
    ensures Rem(y, b) == 0 && y / b >= 0 && (b == 1 ==> y >= 0)
  {
    hide Rem;
    var q := y as real / b as real;
    var n := q.Floor;
    assert q * b as real == y as real;
    assert y == n * b by {
      assert y as real == (n * b) as real;
    }
    RemUnique(y, b, n, 0);
    QuotientIs(y, b, n);
  }

  lemma RationalOpExact(op: Operator, c1: Expr, c2: Expr)
    requires IsArithmetic(op) || op == EXP
    requires c1.Rational? && c2.Rational? && c1.b != 0 && c2.b != 0
    ensures var r := RationalOp(op, c1, c2);
      && (r.Some? ==> IsProper(r.value) && ConstantValue(r.value) == Operate(op, ConstantValue(c1), ConstantValue(c2)))
      && (IsArithmetic(op) && (op == DIV ==> c2.a != 0) ==> r.Some?)
      && (op == EXP && IsNatural(c2.a as real / c2.b as real) ==> r.Some?)
  {
    hide Lcd, Operate, CommonDenominatorOp;
    LcdKeepsValues(c1, c2);
    var (r1, r2) := Lcd(c1, c2);
    CommonDenominatorExact(op, r1, r2);
    QuotientsEqual(c2.a, c2.b, r2.a, r2.b);
  }

  lemma NaturalExponent(v: real, w: real, n: nat)
    requires w == n as real
    ensures Operate(EXP, Num(v), Num(w)) == Num(RPow(v, n))
  {
    assert w.Floor == n;
  }

  lemma RationalExponent(x: int, y: int, b: int)
    requires b != 0
    ensures b == 1 ==>
      var r := RationalPower(x, b, y);
      r.Some? ==>
        && IsProper(r.value)
        && ConstantValue(r.value) == Operate(EXP, ConstantValue(Rational(x, b)), ConstantValue(Rational(y, b)))
    ensures Rem(y, b) == 0 ==>
      var r := RationalPower(x, b, y / b);
      r.Some? ==>
        && IsProper(r.value)
        && ConstantValue(r.value) == Operate(EXP, ConstantValue(Rational(x, b)), ConstantValue(Rational(y, b)))
  {
    hide RationalPower, RPow, Operate;
    var v, w := x as real / b as real, y as real / b as real;
    if b == 1 {
      RationalPowerExact(x, b, y);
      if y >= 0 {
        NaturalExponent(v, w, y);
      }
    }
    if Rem(y, b) == 0 {
      var q := RemQuotient(y, b);
      QuotientIs(y, b, q);
      RationalPowerExact(x, b, q);
      if q >= 0 {
        RealQuotientIs(y as real, b as real, q as real);
        NaturalExponent(v, w, q);
      }
    }
  }

  lemma RealQuotientIs(n: real, d: real, t: real)
    requires d != 0.0 && n == t * d
    ensures n / d == t
  {
  }

  lemma RealProductNonzero(x: real, y: real)
    requires x != 0.0 && y != 0.0
    ensures x * y != 0.0
  {
  }

  lemma QuotientQuotient(p: real, q: real, c: real)
    requires c != 0.0 && q * c != 0.0
    ensures q != 0.0 && c * (q * c) != 0.0
    ensures ((p * c) * c) / (c * (q * c)) == p / q
  {
    assert q != 0.0;
    var t := p / q;
    RealProductNonzero(c, q * c);
    var d := c * (q * c);
    assert t * d == p * c * c by {
      assert t * q == p;
      assert t * d == (t * q) * c * c;
    }
    RealQuotientIs((p * c) * c, d, t);
  }

  lemma RealOpExact(op: Operator, x: real, y: real, binex: Expr)
    requires IsArithmetic(op) || op == EXP
    ensures var r := RealOp(op, x, y, binex);
      && (r.Some? ==> IsProper(r.value) && ConstantValue(r.value) == Operate(op, Num(x), Num(y)))
      && (IsArithmetic(op) && (op == DIV ==> y != 0.0) ==> r.Some?)
      && (op == EXP && IsNatural(y) ==> r.Some?)
  {
  }

  lemma PowerNatural(v: Value, w: Value)
    ensures Operate(EXP, v, w).Num? ==> w.Num? && IsNatural(w.r)
  {
    hide RPow;
  }

  lemma NaturalInteger(n: int)
    ensures IsNatural(n as real) <==> n >= 0
  {
    assert (n as real).Floor == n;
  }

  /** The result of an operation on two numbers is of exactly their value, and there is one whenever it has a value. */
  predicate ExactFold(op: Operator, v: Value, w: Value, r: Option<Expr>) {
    && v.Num? && w.Num?
    && (r.Some? ==> IsProper(r.value) && ConstantValue(r.value) == Operate(op, v, w))
    && (IsArithmetic(op) && (op == DIV ==> w != Num(0.0)) ==> r.Some?)
    && (op == EXP ==> (r.Some? <==> IsNatural(w.r)))
  }

  lemma IntegerFold(op: Operator, x: int, y: int, binex: Expr)
    requires IsArithmetic(op) || op == EXP
    ensures ExactFold(op, Num(x as real), Num(y as real), IntegerOp(op, x, y, binex))
  {
    hide IntegerOp, Operate, IsNatural;
    PowerNatural(Num(x as real), Num(y as real));
    NaturalInteger(y);
    IntegerOpExact(op, x, y, binex);
  }

  lemma RealFold(op: Operator, x: real, y: real, binex: Expr)
    requires IsArithmetic(op) || op == EXP
    ensures ExactFold(op, Num(x), Num(y), RealOp(op, x, y, binex))
  {
    hide RealOp, Operate, IsNatural;
    PowerNatural(Num(x), Num(y));
    RealOpExact(op, x, y, binex);
  }

  lemma RationalFold(op: Operator, c1: Expr, c2: Expr)
    requires IsArithmetic(op) || op == EXP
    requires c1.Rational? && c2.Rational? && c1.b != 0 && c2.b != 0
    ensures ExactFold(op, ConstantValue(c1), ConstantValue(c2), RationalOp(op, c1, c2))
  {
    hide RationalOp, Operate, IsNatural;
    PowerNatural(ConstantValue(c1), ConstantValue(c2));
    RationalOpExact(op, c1, c2);
    QuotientsEqual(c2.a, c2.b, 0, 1);
  }

  lemma PromotedFold(op: Operator, o1: Expr, o2: Expr, binex: Expr)
    requires (IsArithmetic(op) || op == EXP) && IsProper(o1) && IsProper(o2)
    ensures ExactFold(op, ConstantValue(o1), ConstantValue(o2), ApplyBinop(op, o1, o2, binex))
  {
    hide Promote, Operate, IsNatural, IntegerOp, RealOp, RationalOp, ExactFold;
    PromoteKeepsValues(o1, o2);
    var (c1, c2) := Promote(o1, o2);
    if c1.Integer? {
      IntegerFold(op, c1.value, c2.value, binex);
    } else if c1.Real? {
      RealFold(op, c1.val, c2.val, binex);
    } else {
      RationalFold(op, c1, c2);
    }
  }

  /**
   * Arithmetic on constants of any two kinds is exact. It is defined for every nonzero divisor, and for powers
   * exactly when the exponent is natural.
   */
  lemma ApplyBinopExact(op: Operator, o1: Expr, o2: Expr, binex: Expr)
    requires IsArithmetic(op) || op == EXP
    requires IsConstant(o1) && IsConstant(o2)
    ensures var r := ApplyBinop(op, o1, o2, binex);
      && (r.Some? ==> IsProper(r.value) && ConstantValue(r.value) == Operate(op, ConstantValue(o1), ConstantValue(o2)))
      && (IsProper(o1) && IsProper(o2) && IsArithmetic(op) && (op == DIV ==> ConstantValue(o2) != Num(0.0)) ==> r.Some?)
      && (op == EXP ==>
            (r.Some? <==> IsProper(o1) && IsProper(o2) && ConstantValue(o2).Num? && IsNatural(ConstantValue(o2).r)))
  {
    hide Promote, Operate, IsNatural, IntegerOp, RealOp, RationalOp;
    if IsProper(o1) && IsProper(o2) {
      PromotedFold(op, o1, o2, binex);
    }
  }

  // ---------- The form of a result ----------

  function Denominator(c: Expr): int {
    if c.Rational? then c.b else 1
  }

  /**
   * Integers stay integers except that they divide to a fraction in lowest terms, a real makes the result real, and
   * fractions are multiplied to lowest terms but added over their common denominator.
   */
  predicate HasForm(op: Operator, o1: Expr, o2: Expr, r: Expr)
    requires IsProper(o1) && IsProper(o2)
  {
    if o1.Real? || o2.Real? then r.Real?
    else if o1.Integer? && o2.Integer? && op != DIV then r.Integer?
    else if op == ADD || op == SUB then
      var d1, d2 := Denominator(o1), Denominator(o2);
      r.Rational? && r.b == if d1 == d2 then d1 else Lcm(d1, d2)
    else !r.Real? && IsLowest(r)
  }

  lemma ApplyBinopForm(op: Operator, o1: Expr, o2: Expr, binex: Expr)
    requires (IsArithmetic(op) || op == EXP) && IsProper(o1) && IsProper(o2) && ApplyBinop(op, o1, o2, binex).Some?
    ensures HasForm(op, o1, o2, ApplyBinop(op, o1, o2, binex).value)
  {
    hide SimplifyRational, IsLowest, IPow, RPow, RationalOp, Lcm;
    if !o1.Real? && !o2.Real? {
      if o1.Integer? && o2.Integer? {
        if op == DIV && o2.value != 0 {
          SimplifyIsLowest(o1.value, o2.value);
        }
      } else {
        var (c1, c2) := Promote(o1, o2);
        RationalForm(op, c1, c2);
      }
    }
  }

  lemma RationalForm(op: Operator, c1: Expr, c2: Expr)
    requires (IsArithmetic(op) || op == EXP) && c1.Rational? && c2.Rational? && c1.b != 0 && c2.b != 0
    requires RationalOp(op, c1, c2).Some?
    ensures var r := RationalOp(op, c1, c2).value;
      if op == ADD || op == SUB then r.Rational? && r.b == (if c1.b == c2.b then c1.b else Lcm(c1.b, c2.b))
      else !r.Real? && IsLowest(r)
  {
    hide SimplifyRational, IsLowest, IPow, Lcd, Lcm;
    LcdKeepsValues(c1, c2);
    LcdDenominator(c1, c2);
    var (r1, r2) := Lcd(c1, c2);
    PowersNonzero(r1.b);
    LowestResults();
  }

  lemma LcdDenominator(r1: Expr, r2: Expr)
    requires r1.Rational? && r2.Rational? && r1.b != 0 && r2.b != 0
    ensures Lcd(r1, r2).0.Rational? && Lcd(r1, r2).0.b == if r1.b == r2.b then r1.b else Lcm(r1.b, r2.b)
  {
    hide Lcm;
    if r1.b != r2.b {
      var _, _ := LcmFactors(r1.b, r2.b);
    }
  }

  lemma PowersNonzero(b: int)
    ensures b != 0 ==> forall k: nat :: IPow(b, k) != 0
  {
    hide IPow;
    forall k: nat ensures b != 0 ==> IPow(b, k) != 0 {
      IPowValue(b, k);
    }
  }

  lemma LowestResults()
    ensures forall a: int, b: int :: b != 0 ==> !SimplifyRational(a, b).Real? && IsLowest(SimplifyRational(a, b))
  {
    hide SimplifyRational, IsLowest;
    forall a: int, b: int | b != 0 ensures !SimplifyRational(a, b).Real? && IsLowest(SimplifyRational(a, b)) {
      SimplifyIsLowest(a, b);
    }
  }
}
