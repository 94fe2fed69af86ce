/**
 Gauss's lemma: modulo a prime p = 2q + 1 the q-th power of a unit is a product of signs,
 hence 1 or -1; and what the sign is for the two generators of the outcome proofs.
 */
module QuadraticResidues {
  import opened ModArith

  function Fact(n: nat): (f: nat)
    ensures f > 0
  {
    if n == 0 then 1 else n * Fact(n - 1)
  }

  function Product(s: seq<int>): int {
    if s == [] then 1 else Product(s[..|s| - 1]) * s[|s| - 1]
  }

  /* ---------- distinct numbers below a bound ---------- */

  /** Distinct numbers from 1 to `n`. */
  predicate DistinctUpTo(s: seq<int>, n: nat) {
    && (forall i :: 0 <= i < |s| ==> 1 <= s[i] <= n)
    && (forall i, j :: 0 <= i < j < |s| ==> s[i] != s[j])
  }

  function Without(s: seq<int>, i: nat): seq<int>
    requires i < |s|
  {
    s[..i] + s[i + 1..]
  }

  lemma Associate(x: int, y: int, z: int)
    ensures x * y * z == x * (y * z)
  {
  }

  lemma WithoutEnd(s: seq<int>, i: nat)
    requires i < |s| - 1
    ensures Product(Without(s, i)) == Product(Without(s[..|s| - 1], i)) * s[|s| - 1]
  {
    var last := |s| - 1;
    assert Without(s, i)[..last - 1] == Without(s[..last], i);
    assert Without(s, i)[last - 1] == s[last];
  }

  lemma {:induction false} ProductWithout(s: seq<int>, i: nat)
    requires i < |s|
    ensures Product(s) == s[i] * Product(Without(s, i))
  {
    var last := |s| - 1;
    if i == last {
      assert Without(s, i) == s[..last];
      assert Product(s[..last]) * s[last] == s[last] * Product(s[..last]);
    } else {
      ProductWithout(s[..last], i);
      WithoutEnd(s, i);
      Associate(s[i], Product(Without(s[..last], i)), s[last]);
    }
  }

  lemma {:induction false} DistinctAreFew(s: seq<int>, n: nat)
    requires DistinctUpTo(s, n)
    ensures |s| <= n
    decreases n
  {
    if s != [] {
      assert 1 <= s[0] <= n;
      if i :| 0 <= i < |s| && s[i] == n {
        DistinctAreFew(Without(s, i), n - 1);
      } else {
        DistinctAreFew(s, n - 1);
      }
    }
  }

  lemma LargestIsThere(s: seq<int>, n: nat) returns (i: nat)
    requires n > 0 && DistinctUpTo(s, n) && |s| == n
    ensures i < n && s[i] == n
  {
    if forall k :: 0 <= k < |s| ==> s[k] != n {
      DistinctAreFew(s, n - 1);
    }
    i :| 0 <= i < |s| && s[i] == n;
  }

  /** As many distinct numbers as there are: their product is the factorial. */
  lemma {:induction false} ProductOfAll(s: seq<int>, n: nat)
    requires DistinctUpTo(s, n) && |s| == n
    ensures Product(s) == Fact(n)
    decreases n
  {
    if n > 0 {
      var i := LargestIsThere(s, n);
      ProductWithout(s, i);
      ProductOfAll(Without(s, i), n - 1);
    }
  }

  lemma {:induction false} FactIsUnit(n: nat, p: int)
    requires Prime(p) && n < p
    ensures Unit(Fact(n), p)
  {
    if n == 0 {
      assert Inverts(1, 1, p);
    } else {
      FactIsUnit(n - 1, p);
      var e := PrimeInverse(n, p);
      UnitWitness(n, e, p);
      UnitMul(n, Fact(n - 1), p);
    }
  }

  /* ---------- Gauss's lemma ---------- */

  /** Whether the residue of `a * k` lies in the upper half. */
  predicate Upper(a: int, k: int, q: nat) {
    a * k % (2 * q + 1) > q
  }

  function Sign(upper: bool): int {
    if upper then -1 else 1
  }

  /** The distance of `a * k` from the nearest multiple of p. */
  function Distance(a: int, k: int, q: nat): int {
    var r := a * k % (2 * q + 1);
    if Upper(a, k, q) then 2 * q + 1 - r else r
  }

  /** Which multiples of `a` lie in the upper half. */
  function UpperOf(a: int, q: nat): int -> bool {
    k => Upper(a, k, q)
  }

  function Signs(upper: int -> bool, n: nat): (s: int)
    ensures s == 1 || s == -1
  {
    if n == 0 then 1 else Signs(upper, n - 1) * Sign(upper(n))
  }

  function Distances(a: int, n: nat, q: nat): (s: seq<int>)
    ensures |s| == n && forall i :: 0 <= i < n ==> s[i] == Distance(a, i + 1, q)
  {
    if n == 0 then [] else Distances(a, n - 1, q) + [Distance(a, n, q)]
  }

  lemma SignedDistance(a: int, k: int, q: nat)
    ensures Cong(a * k, Sign(Upper(a, k, q)) * Distance(a, k, q), 2 * q + 1)
  {
    var p := 2 * q + 1;
    ModCong(a * k, p);
    if Upper(a, k, q) {
      CongByMultiple(a * k % p, a * k % p - p, 1, p);
    }
  }

  lemma SmallResidues(x: int, p: int)
    requires p > 0 && Cong(x, 0, p) && -p < x < p
    ensures x == 0
  {
    var k := CongDifference(x, 0, p);
    if k >= 1 {
      MulAtLeast(p, k);
    } else if k <= -1 {
      MulAtLeast(p, -k);
    }
  }

  lemma CancelFactor(a: int, x: int, y: int, p: int)
    requires p > 0 && Unit(a, p) && Cong(a * x, a * y, p)
    ensures Cong(x, y, p)
  {
    assert a * x == x * a && a * y == y * a;
    CancelUnit(x, y, a, p);
  }

  lemma CongMinus(x: int, y: int, z: int, p: int)
    requires p > 0 && Cong(x, y, p) && z == x - y
    ensures Cong(z, 0, p)
  {
    CongAdd(x, y, -y, -y, p);
  }

  lemma CongNegate(x: int, y: int, p: int)
    requires p > 0 && Cong(x, y, p)
    ensures Cong(-x, -y, p)
  {
    CongScale(x, y, -1, p);
  }

  /** Two numbers with one distance agree up to sign. */
  lemma SameUpToSign(x: int, y: int, s: int, t: int, d: int, p: int)
    requires p > 0 && (s == 1 || s == -1) && (t == 1 || t == -1)
    requires Cong(x, s * d, p) && Cong(y, t * d, p)
    ensures Cong(x, y, p) || Cong(x, -y, p)
  {
    CongNegate(y, t * d, p);
  }

  /** Equal distances come from equal multipliers. */
  lemma DistancesDiffer(a: int, i: int, j: int, q: nat)
    requires Unit(a, 2 * q + 1) && 1 <= i < j <= q
    ensures Distance(a, i, q) != Distance(a, j, q)
  {
    var p := 2 * q + 1;
    if Distance(a, i, q) == Distance(a, j, q) {
      SignedDistance(a, i, q);
      SignedDistance(a, j, q);
      SameUpToSign(a * i, a * j, Sign(Upper(a, i, q)), Sign(Upper(a, j, q)), Distance(a, i, q), p);
      MultiplesDiffer(a, i, j, q);
    }
  }

  lemma MultiplesDiffer(a: int, i: int, j: int, q: nat)
    requires Unit(a, 2 * q + 1) && 1 <= i < j <= q
    ensures !Cong(a * i, a * j, 2 * q + 1) && !Cong(a * i, -(a * j), 2 * q + 1)
  {
    var p := 2 * q + 1;
    if Cong(a * i, a * j, p) {
      CancelFactor(a, i, j, p);
      CongMinus(i, j, i - j, p);
      SmallResidues(i - j, p);
    }
    if Cong(a * i, -(a * j), p) {
      assert -(a * j) == a * -j;
      CancelFactor(a, i, -j, p);
      CongMinus(i, -j, i + j, p);
      SmallResidues(i + j, p);
    }
  }

  lemma DistanceInRange(a: int, k: int, q: nat)
    requires Unit(a, 2 * q + 1) && 1 <= k <= q
    ensures 1 <= Distance(a, k, q) <= q
  {
    var p := 2 * q + 1;
    if a * k % p == 0 {
      assert a * 0 == 0;
      CancelFactor(a, k, 0, p);
      SmallResidues(k, p);
    }
  }

  /** Two congruences of products, multiplied and regrouped. */
  lemma CongRegroup(a: int, f: int, s: int, d: int, a1: int, f1: int, s1: int, d1: int, m: int)
    requires m > 0 && Cong(a * f, s * d, m) && Cong(a1 * f1, s1 * d1, m)
    ensures Cong((a * a1) * (f * f1), (s * s1) * (d * d1), m)
  {
    CongMul(a * f, s * d, a1 * f1, s1 * d1, m);
    MulInterchange(a, f, a1, f1);
    MulInterchange(s, d, s1, d1);
  }

  lemma ProductSnoc(s: seq<int>, x: int)
    ensures Product(s + [x]) == Product(s) * x
  {
    assert (s + [x])[..|s|] == s;
  }

  lemma LastPower(a: int, n: nat)
    requires n > 0
    ensures Pow(a, n) == Pow(a, n - 1) * a && Fact(n) == Fact(n - 1) * n
  {
    Commutes(a, Pow(a, n - 1));
    Commutes(n, Fact(n - 1));
  }

  lemma LastDistance(a: int, n: nat, q: nat)
    requires n > 0
    ensures Product(Distances(a, n, q)) == Product(Distances(a, n - 1, q)) * Distance(a, n, q)
  {
    ProductSnoc(Distances(a, n - 1, q), Distance(a, n, q));
  }

  lemma {:induction false} ProductOfMultiples(a: int, n: nat, q: nat)
    ensures Cong(Pow(a, n) * Fact(n), Signs(UpperOf(a, q), n) * Product(Distances(a, n, q)), 2 * q + 1)
  {
    if n > 0 {
      ProductOfMultiples(a, n - 1, q);
      SignedDistance(a, n, q);
      LastPower(a, n);
      LastDistance(a, n, q);
      CongRegroup(Pow(a, n - 1), Fact(n - 1), Signs(UpperOf(a, q), n - 1), Product(Distances(a, n - 1, q)),
                  a, n, Sign(Upper(a, n, q)), Distance(a, n, q), 2 * q + 1);
    }
  }

  /** The q-th power of a unit is the product of the signs of its first q multiples. */
  lemma GaussLemma(a: int, q: nat)
    requires Prime(2 * q + 1) && Unit(a, 2 * q + 1)
    ensures Cong(Pow(a, q), Signs(UpperOf(a, q), q), 2 * q + 1)
  {
    var p, d := 2 * q + 1, Distances(a, q, q);
    forall i | 0 <= i < q
      ensures 1 <= d[i] <= q
    {
      DistanceInRange(a, i + 1, q);
    }
    forall i, j | 0 <= i < j < q
      ensures d[i] != d[j]
    {
      DistancesDiffer(a, i + 1, j + 1, q);
    }
    ProductOfAll(d, q);
    ProductOfMultiples(a, q, q);
    FactIsUnit(q, p);
    CancelUnit(Pow(a, q), Signs(UpperOf(a, q), q), Fact(q), p);
  }

  /* ---------- the signs of two and five ---------- */

  /** 1 for an even number and -1 for an odd one. */
  function Parity(n: int): int {
    if n % 2 == 0 then 1 else -1
  }

  lemma {:induction false} SignStretch(upper: int -> bool, low: nat, high: nat, value: bool)
    requires low <= high && forall k :: low < k <= high ==> upper(k) == value
    ensures Signs(upper, high) == Signs(upper, low) * (if value then Parity(high - low) else 1)
    decreases high
  {
    if low < high {
      SignStretch(upper, low, high - 1, value);
    }
  }

  lemma TwoUpper(k: int, q: nat)
    requires 1 <= k <= q
    ensures UpperOf(2, q)(k) <==> 2 * k > q
  {
  }

  lemma TwoSigns(m: nat, q: nat)
    requires q == 4 * m + 3
    ensures Signs(UpperOf(2, q), q) == 1
  {
    forall k | 1 <= k <= q
      ensures UpperOf(2, q)(k) <==> k > 2 * m + 1
    {
      TwoUpper(k, q);
    }
    SignStretch(UpperOf(2, q), 0, 2 * m + 1, false);
    SignStretch(UpperOf(2, q), 2 * m + 1, q, true);
    ParityOf(m + 1, 2 * m + 2);
  }

  lemma ParityOf(half: int, n: int)
    ensures n == 2 * half ==> Parity(n) == 1
    ensures n == 2 * half + 1 ==> Parity(n) == -1
  {
  }

  lemma TwoQuotient(q: nat) returns (m: nat)
    requires (2 * q + 1) % 8 == 7
    ensures q == 4 * m + 3
  {
    m := q / 4;
    var r := q % 4;
    assert 2 * q + 1 == 8 * m + (2 * r + 1);
  }

  /** Two is a residue if p is 7 modulo 8. */
  lemma TwoToTheQ(q: nat)
    requires Prime(2 * q + 1) && (2 * q + 1) % 8 == 7
    ensures Unit(2, 2 * q + 1) && Cong(Pow(2, q), 1, 2 * q + 1)
  {
    var e := PrimeInverse(2, 2 * q + 1);
    UnitWitness(2, e, 2 * q + 1);
    GaussLemma(2, q);
    var m := TwoQuotient(q);
    TwoSigns(m, q);
  }

  lemma FiveUpper(k: int, q: nat)
    requires 1 <= k <= q
    ensures UpperOf(5, q)(k) <==> q < 5 * k < 2 * q + 1 || 3 * q + 1 < 5 * k < 4 * q + 2
  {
    var p := 2 * q + 1;
    if 5 * k < p {
      DivModUnique(5 * k, 0, 5 * k, p);
    } else if 5 * k < 2 * p {
      DivModUnique(5 * k, 1, 5 * k - p, p);
    } else {
      DivModUnique(5 * k, 2, 5 * k - 2 * p, p);
    }
  }

  /** The multiples of five in the upper half are those of two stretches of multipliers. */
  lemma FiveSignsBetween(q: nat, a: nat, b: nat, c: nat, d: nat)
    requires a <= b <= c <= d <= q
    requires 5 * a <= q < 5 * a + 5 && 5 * b <= 2 * q < 5 * b + 5
    requires 5 * c <= 3 * q + 1 < 5 * c + 5 && 5 * d <= 4 * q + 1 < 5 * d + 5
    ensures Signs(UpperOf(5, q), q) == Parity(b - a) * Parity(d - c)
  {
    var upper := UpperOf(5, q);
    forall k | 1 <= k <= q
      ensures upper(k) <==> a < k <= b || c < k <= d
    {
      FiveUpper(k, q);
    }
    SignStretch(upper, 0, a, false);
    SignStretch(upper, a, b, true);
    SignStretch(upper, b, c, false);
    SignStretch(upper, c, d, true);
    SignStretch(upper, d, q, false);
  }

  lemma FiveSigns(m: nat, q: nat)
    requires q == 5 * m + 3 || q == 5 * m + 1
    ensures Signs(UpperOf(5, q), q) == -1
  {
    if q == 5 * m + 3 {
      FiveSignsBetween(q, m, 2 * m + 1, 3 * m + 2, 4 * m + 2);
      assert 2 * m + 1 - m == m + 1 && 4 * m + 2 - (3 * m + 2) == m;
    } else {
      FiveSignsBetween(q, m, 2 * m, 3 * m, 4 * m + 1);
      assert 2 * m - m == m && 4 * m + 1 - 3 * m == m + 1;
    }
    OddAndEven(m);
  }

  lemma OddAndEven(m: int)
    ensures Parity(m) * Parity(m + 1) == -1 == Parity(m + 1) * Parity(m)
  {
  }

  lemma FiveQuotient(q: nat) returns (m: nat)
    requires (2 * q + 1) % 5 == 2 || (2 * q + 1) % 5 == 3
    ensures q == 5 * m + 3 || q == 5 * m + 1
  {
    m := q / 5;
    var r := q % 5;
    assert 2 * q + 1 == 5 * (2 * m) + (2 * r + 1);
  }

  /** Five is no residue if p is 2 or 3 modulo 5. */
  lemma FiveToTheQ(q: nat)
    requires Prime(2 * q + 1) && 2 * q + 1 > 5 && ((2 * q + 1) % 5 == 2 || (2 * q + 1) % 5 == 3)
    ensures Unit(5, 2 * q + 1) && Cong(Pow(5, q), -1, 2 * q + 1)
  {
    var e := PrimeInverse(5, 2 * q + 1);
    UnitWitness(5, e, 2 * q + 1);
    GaussLemma(5, q);
    var m := FiveQuotient(q);
    FiveSigns(m, q);
  }
}
