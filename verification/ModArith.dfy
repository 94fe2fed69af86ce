/**
 Modular arithmetic for the outcome proofs: congruences, powers with natural and with
 negative exponents, units, and inverses modulo a prime.
 */
module ModArith {

  /** `a` and `b` leave the same remainder modulo `m`. */
  predicate Cong(a: int, b: int, m: int)
    requires m > 0
  {
    a % m == b % m
  }

  function Pow(b: int, e: nat): int {
    if e == 0 then 1 else b * Pow(b, e - 1)
  }

  predicate Inverts(a: int, x: int, m: int)
    requires m > 0
  {
    Cong(a * x, 1, m)
  }

  ghost predicate Unit(a: int, m: int)
    requires m > 0
  {
    exists x :: Inverts(a, x, m)
  }

  ghost function Inverse(a: int, m: int): (x: int)
    requires m > 0 && Unit(a, m)
    ensures 0 <= x < m && Inverts(a, x, m)
  {
    var x :| Inverts(a, x, m);
    ReducedInverse(a, x, m);
    x % m
  }

  lemma ReducedInverse(a: int, x: int, m: int)
    requires m > 0 && Inverts(a, x, m)
    ensures Inverts(a, x % m, m)
  {
    ModCong(x, m);
    CongMul(a, a, x % m, x, m);
  }

  /** Modular power; a negative exponent needs a unit base. */
  ghost function PowMod(b: int, e: int, m: int): (r: int)
    requires m > 0 && (e < 0 ==> Unit(b, m))
    ensures 0 <= r < m
  {
    if e >= 0 then Pow(b, e) % m else Pow(Inverse(b, m), -e) % m
  }

  predicate Prime(q: int) {
    q > 1 && forall d :: 1 < d < q ==> q % d != 0
  }

  /* ---------- congruences ---------- */

  lemma DivModUnique(a: int, q: int, r: int, m: int)
    requires m > 0 && 0 <= r < m && a == m * q + r
    ensures a % m == r
  {
    var q', r' := a / m, a % m;
    assert m * (q - q') == r' - r by {
      assert a == m * q' + r';
      assert m * (q - q') == m * q - m * q';
    }
    assert m * (q' - q) == -(m * (q - q'));
    if q - q' >= 1 {
      MulAtLeast(m, q - q');
    } else if q - q' <= -1 {
      MulAtLeast(m, q' - q);
    }
  }

  lemma MulAtLeast(m: int, k: int)
    requires m > 0 && k >= 1
    ensures m * k >= m
  {
  }

  lemma MulInterchange(a: int, b: int, p: int, q: int)
    ensures (a * b) * (p * q) == (a * p) * (b * q)
  {
    assert (a * b) * (p * q) == a * (b * (p * q));
    assert b * (p * q) == p * (b * q);
    assert (a * p) * (b * q) == a * (p * (b * q));
  }

  lemma AddMultiple(y: int, x: int, m: int)
    requires m > 0
    ensures Cong(y + m * x, y, m)
  {
    assert m * (y / m + x) == m * (y / m) + m * x;
    DivModUnique(y + m * x, y / m + x, y % m, m);
  }

  lemma CongByMultiple(a: int, b: int, k: int, m: int)
    requires m > 0 && a == b + m * k
    ensures Cong(a, b, m)
  {
    AddMultiple(b, k, m);
  }

  lemma CongDifference(a: int, b: int, m: int) returns (k: int)
    requires m > 0 && Cong(a, b, m)
    ensures a == b + m * k
  {
    k := a / m - b / m;
    assert m * k == m * (a / m) - m * (b / m);
  }

  lemma ScaleDifference(a: int, b: int, k: int, c: int, m: int)
    requires a == b + m * k
    ensures a * c == b * c + m * (k * c)
  {
    assert a * c == (b + m * k) * c == b * c + (m * k) * c;
    assert (m * k) * c == m * (k * c);
  }

  lemma CongScale(a: int, b: int, c: int, m: int)
    requires m > 0 && Cong(a, b, m)
    ensures Cong(a * c, b * c, m)
  {
    var k := CongDifference(a, b, m);
    ScaleDifference(a, b, k, c, m);
    CongByMultiple(a * c, b * c, k * c, m);
  }

  lemma CongMul(a: int, b: int, c: int, d: int, m: int)
    requires m > 0 && Cong(a, b, m) && Cong(c, d, m)
    ensures Cong(a * c, b * d, m)
  {
    assert Cong(a * c, b * c, m) by {
      CongScale(a, b, c, m);
    }
    assert Cong(b * c, b * d, m) by {
      CongScale(c, d, b, m);
      Commutes(b, c);
      Commutes(b, d);
    }
  }

  lemma Commutes(x: int, y: int)
    ensures x * y == y * x
  {
  }

  lemma CongAdd(a: int, b: int, c: int, d: int, m: int)
    requires m > 0 && Cong(a, b, m) && Cong(c, d, m)
    ensures Cong(a + c, b + d, m)
  {
    var k := CongDifference(a, b, m);
    var l := CongDifference(c, d, m);
    assert m * (k + l) == m * k + m * l;
    CongByMultiple(a + c, b + d, k + l, m);
  }

  lemma ModCong(a: int, m: int)
    requires m > 0
    ensures Cong(a % m, a, m)
  {
  }

  /** A factor that is a unit cancels. */
  lemma CancelUnit(a: int, b: int, u: int, m: int)
    requires m > 0 && Unit(u, m) && Cong(a * u, b * u, m)
    ensures Cong(a, b, m)
  {
    var x := Inverse(u, m);
    CongMul(a * u, b * u, x, x, m);
    CongMul(a, a, u * x, 1, m);
    CongMul(b, b, u * x, 1, m);
    assert a * u * x == a * (u * x) && b * u * x == b * (u * x);
  }

  /* ---------- powers ---------- */

  lemma {:induction false} PowAdd(b: int, x: nat, y: nat)
    ensures Pow(b, x + y) == Pow(b, x) * Pow(b, y)
  {
    if x > 0 {
      PowAdd(b, x - 1, y);
      assert b * (Pow(b, x - 1) * Pow(b, y)) == (b * Pow(b, x - 1)) * Pow(b, y);
    }
  }

  lemma {:induction false} PowPow(b: int, x: nat, y: nat)
    ensures x * y >= 0 && Pow(Pow(b, x), y) == Pow(b, x * y)
  {
    if y > 0 {
      PowPow(b, x, y - 1);
      assert x * y == x + x * (y - 1);
      PowAdd(b, x, x * (y - 1));
    } else {
      assert x * y == 0;
    }
  }

  lemma {:induction false} PowProduct(a: int, b: int, e: nat)
    ensures Pow(a * b, e) == Pow(a, e) * Pow(b, e)
  {
    if e > 0 {
      PowProduct(a, b, e - 1);
      MulInterchange(a, b, Pow(a, e - 1), Pow(b, e - 1));
    }
  }

  lemma {:induction false} PowCong(a: int, b: int, e: nat, m: int)
    requires m > 0 && Cong(a, b, m)
    ensures Cong(Pow(a, e), Pow(b, e), m)
  {
    if e > 0 {
      PowCong(a, b, e - 1, m);
      CongMul(a, b, Pow(a, e - 1), Pow(b, e - 1), m);
    }
  }

  lemma {:induction false} PowOne(e: nat)
    ensures Pow(1, e) == 1
  {
    if e > 0 {
      PowOne(e - 1);
    }
  }

  /** A base of order dividing `q` takes exponents modulo `q`. */
  lemma PowPeriodic(b: int, e: nat, q: int, m: int)
    requires m > 0 && q > 0 && Cong(Pow(b, q), 1, m)
    ensures Cong(Pow(b, e % q), Pow(b, e), m)
  {
    var k: nat, r: nat := e / q, e % q;
    assert e == q * k + r;
    PowPow(b, q, k);
    PowAdd(b, q * k, r);
    PowCong(Pow(b, q), 1, k, m);
    PowOne(k);
    CongMul(Pow(b, q * k), 1, Pow(b, r), Pow(b, r), m);
  }

  /** Exponents congruent modulo the order give congruent powers. */
  lemma PowSameExponent(b: int, e: nat, f: nat, q: int, m: int)
    requires m > 0 && q > 0 && Cong(Pow(b, q), 1, m) && Cong(e, f, q)
    ensures Cong(Pow(b, e), Pow(b, f), m)
  {
    PowPeriodic(b, e, q, m);
    PowPeriodic(b, f, q, m);
  }

  /* ---------- units ---------- */

  lemma UnitWitness(a: int, x: int, m: int)
    requires m > 0 && Inverts(a, x, m)
    ensures Unit(a, m)
  {
  }

  lemma UnitMul(a: int, b: int, m: int)
    requires m > 0 && Unit(a, m) && Unit(b, m)
    ensures Unit(a * b, m)
  {
    var x, y := Inverse(a, m), Inverse(b, m);
    CongMul(a * x, 1, b * y, 1, m);
    MulInterchange(a, b, x, y);
    UnitWitness(a * b, x * y, m);
  }

  lemma {:induction false} UnitPow(a: int, e: nat, m: int)
    requires m > 0 && Unit(a, m)
    ensures Unit(Pow(a, e), m)
  {
    if e == 0 {
      assert Inverts(1, 1, m);
    } else {
      UnitPow(a, e - 1, m);
      UnitMul(a, Pow(a, e - 1), m);
    }
  }

  lemma UnitCong(a: int, b: int, m: int)
    requires m > 0 && Unit(a, m) && Cong(a, b, m)
    ensures Unit(b, m)
  {
    var x := Inverse(a, m);
    CongMul(a, b, x, x, m);
    UnitWitness(b, x, m);
  }

  lemma UnitInverse(a: int, m: int)
    requires m > 0 && Unit(a, m)
    ensures Unit(Inverse(a, m), m)
  {
    var x := Inverse(a, m);
    assert x * a == a * x;
    UnitWitness(x, a, m);
  }

  lemma UnitPowMod(b: int, e: int, m: int)
    requires m > 0 && Unit(b, m)
    ensures Unit(PowMod(b, e, m), m)
  {
    if e >= 0 {
      UnitPow(b, e, m);
      PowModCong(b, e, m);
      UnitCong(Pow(b, e), PowMod(b, e, m), m);
    } else {
      var x := Inverse(b, m);
      UnitInverse(b, m);
      UnitPow(x, -e, m);
      ModCong(Pow(x, -e), m);
      UnitCong(Pow(x, -e), Pow(x, -e) % m, m);
    }
  }

  lemma PowModCong(b: int, e: int, m: int)
    requires m > 0 && e >= 0
    ensures Cong(PowMod(b, e, m), Pow(b, e), m)
  {
    ModCong(Pow(b, e), m);
  }

  /** A unit is not zero modulo a modulus above one. */
  lemma UnitNonzero(a: int, m: int)
    requires m > 1 && Unit(a, m)
    ensures a % m != 0
  {
    if a % m == 0 {
      CongMul(a, 0, Inverse(a, m), Inverse(a, m), m);
    }
  }

  /** Powers with opposite exponents are inverse to each other. */
  lemma PowModNegate(b: int, e: int, m: int)
    requires m > 0 && Unit(b, m) && e >= 0
    ensures Cong(PowMod(b, -e, m) * PowMod(b, e, m), 1, m)
  {
    PowModCong(b, e, m);
    if e == 0 {
      CongMul(PowMod(b, 0, m), 1, PowMod(b, 0, m), 1, m);
    } else {
      var x := Inverse(b, m);
      ModCong(Pow(x, e), m);
      CongMul(PowMod(b, -e, m), Pow(x, e), PowMod(b, e, m), Pow(b, e), m);
      PowProduct(x, b, e);
      assert x * b == b * x;
      PowCong(x * b, 1, e, m);
      PowOne(e);
    }
  }

  lemma MultipleOfRemainder(d: int, k: int, r: int, f: int, q: int)
    requires q == d * k + r
    ensures d * (-k * f) == r * f + q * (-f)
  {
    assert d * (-k * f) == -(d * k) * f;
    assert -(d * k) * f == (r - q) * f;
    assert (r - q) * f == r * f + q * (-f);
  }

  /** Modulo a prime every nonzero residue has an inverse. */
  lemma {:induction false} PrimeInverse(d: int, q: int) returns (e: nat)
    requires Prime(q) && 0 < d < q
    ensures Cong(d * e, 1, q)
    decreases d
  {
    if d == 1 {
      e := 1;
    } else {
      var k, r := q / d, q % d;
      assert q == d * k + r;
      var f := PrimeInverse(r, q);
      e := (-k * f) % q;
      ModCong(-k * f, q);
      CongMul(d, d, e, -k * f, q);
      MultipleOfRemainder(d, k, r, f, q);
      CongByMultiple(d * (-k * f), r * f, -f, q);
    }
  }
}
