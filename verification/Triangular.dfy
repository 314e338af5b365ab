/** Number theory behind khash's probe sequence (`i += ++step`, masked to a power of two):
    in a table of n = 2^k buckets the first n probes are pairwise distinct, so they visit
    every bucket, and the walk first comes back to its start at probe 2n - 1. */
module Triangular {

  function Pow2(k: nat): (r: nat)
    ensures 1 <= r
  {
    if k == 0 then 1 else 2 * Pow2(k - 1)
  }

  ghost predicate IsPow2(n: nat) {
    exists k: nat :: n == Pow2(k)
  }

  /** Sum of the increments 1, 2, ..., s applied by s probe steps. */
  function Tri(s: nat): nat {
    if s == 0 then 0 else Tri(s - 1) + s
  }

  /** The bucket reached after s probe steps from hash h in a table of n buckets. */
  function Probe(h: nat, n: nat, s: nat): (i: nat)
    requires 0 < n
    ensures i < n
  {
    (h + Tri(s)) % n
  }

  lemma TriClosedForm(s: nat)
    ensures 2 * Tri(s) == s * (s + 1)
  {
    if s > 0 {
      TriClosedForm(s - 1);
      assert s * (s + 1) == (s - 1) * s + 2 * s;
    }
  }

  lemma ModSum(a: nat, b: nat, n: nat)
    requires 0 < n
    ensures (a % n + b) % n == (a + b) % n
  {
    var q := a / n;
    assert a == q * n + a % n;
    ModShift(a % n + b, q, n);
  }

  lemma ModIsUnique(a: nat, n: nat, q: int, r: nat)
    requires 0 < n && r < n && a == n * q + r
    ensures a % n == r
  {
    var d := a / n - q;
    assert n * d == n * (a / n) - n * q == r - a % n;
    assert d >= 1 ==> n * d >= n;
    assert d <= -1 ==> n * d + n <= 0;
  }

  lemma ModShift(a: nat, q: nat, n: nat)
    requires 0 < n
    ensures (a + q * n) % n == a % n
  {
    assert a + q * n == n * (a / n + q) + a % n;
    ModIsUnique(a + q * n, n, a / n + q, a % n);
  }

  /** One trip round a probe loop moves from probe s to probe s + 1. */
  lemma ProbeStep(h: nat, n: nat, s: nat)
    requires 0 < n
    ensures Probe(h, n, s + 1) == (Probe(h, n, s) + s + 1) % n
  {
    ModSum(h + Tri(s), s + 1, n);
  }

  lemma OddTimesOdd(a: nat, b: nat)
    requires a % 2 == 1 && b % 2 == 1
    ensures (a * b) % 2 == 1
  {
    var x, y := a / 2, b / 2;
    assert a * b == (2 * x + 1) * (2 * y + 1) == 2 * (2 * x * y + x + y) + 1;
  }

  /** If a power of two divides an odd number times x, it divides x. */
  lemma OddFactorIsIrrelevant(odd: nat, x: nat, k: nat)
    requires odd % 2 == 1
    requires (odd * x) % Pow2(k) == 0
    ensures x % Pow2(k) == 0
  {
    if k > 0 {
      var m := Pow2(k - 1);
      var q := odd * x / Pow2(k);
      assert odd * x == 2 * m * q;
      assert odd * x == 2 * (m * q) by { assert 2 * m * q == 2 * (m * q); }
      if x % 2 == 1 {
        OddTimesOdd(odd, x);
        assert false;
      }
      var y := x / 2;
      assert odd * x == 2 * (odd * y) by { assert x == 2 * y; assert odd * (2 * y) == 2 * (odd * y); }
      assert odd * y == m * q;
      ModShift(0, q, m);
      assert q * m == m * q;
      OddFactorIsIrrelevant(odd, y, k - 1);
      var z := y / m;
      assert y == m * z;
      assert x == z * Pow2(k) by { assert 2 * (m * z) == z * (2 * m); }
      ModShift(0, z, Pow2(k));
    }
  }

  lemma SameResidue(a: nat, b: nat, n: nat)
    requires 0 < n && a <= b && a % n == b % n
    ensures (b - a) % n == 0
  {
    var qa, qb := a / n, b / n;
    assert a == n * qa + a % n && b == n * qb + b % n;
    assert b - a == n * qb - n * qa == (qb - qa) * n;
    assert qa <= qb;
    ModShift(0, qb - qa, n);
  }

  lemma DoubleModulus(x: nat, n: nat)
    requires 0 < n && x % n == 0
    ensures (2 * x) % (2 * n) == 0
  {
    var q := x / n;
    assert x == n * q;
    assert 2 * x == q * (2 * n) by { assert 2 * (n * q) == q * (2 * n); }
    ModShift(0, q, 2 * n);
  }

  lemma SmallMultipleIsZero(x: nat, n: nat)
    requires 0 < n && x < n && x % n == 0
    ensures x == 0
  {
  }

  lemma {:induction false} TriMonotone(a: nat, b: nat)
    requires a <= b
    ensures Tri(a) <= Tri(b)
  {
    if a < b {
      TriMonotone(a, b - 1);
    }
  }

  lemma DifferenceOfTriangles(a: nat, b: nat)
    requires a <= b
    ensures Tri(a) <= Tri(b)
    ensures 2 * (Tri(b) - Tri(a)) == (b - a) * (a + b + 1)
  {
    TriMonotone(a, b);
    TriClosedForm(a);
    TriClosedForm(b);
    assert b * (b + 1) - a * (a + 1) == (b - a) * (a + b + 1);
  }

  /** If 2n = 2^(k+1) divides a product of an odd and an even number, it divides the even one. */
  lemma DividesEvenFactor(d: nat, e: nat, k: nat)
    requires (d * e) % Pow2(k) == 0
    requires (d + e) % 2 == 1
    ensures d % 2 == 1 ==> e % Pow2(k) == 0
    ensures d % 2 == 0 ==> d % Pow2(k) == 0
  {
    if d % 2 == 1 {
      OddFactorIsIrrelevant(d, e, k);
    } else {
      assert e * d == d * e;
      OddFactorIsIrrelevant(e, d, k);
    }
  }

  /** Two probes a <= b that meet make 2n divide (b - a)(a + b + 1). */
  lemma CollisionDivides(h: nat, k: nat, a: nat, b: nat)
    requires a <= b
    requires Probe(h, Pow2(k), a) == Probe(h, Pow2(k), b)
    ensures ((b - a) * (a + b + 1)) % Pow2(k + 1) == 0
  {
    DifferenceOfTriangles(a, b);
    SameResidue(h + Tri(a), h + Tri(b), Pow2(k));
    DoubleModulus(Tri(b) - Tri(a), Pow2(k));
  }

  /** The first n probes hit pairwise distinct buckets. */
  lemma ProbesAreDistinct(h: nat, k: nat, a: nat, b: nat)
    requires a < b < Pow2(k)
    ensures Probe(h, Pow2(k), a) != Probe(h, Pow2(k), b)
  {
    if Probe(h, Pow2(k), a) == Probe(h, Pow2(k), b) {
      CollisionDivides(h, k, a, b);
      DividesEvenFactor(b - a, a + b + 1, k + 1);
      if (b - a) % 2 == 1 {
        SmallMultipleIsZero(a + b + 1, Pow2(k + 1));
      } else {
        SmallMultipleIsZero(b - a, Pow2(k + 1));
      }
    }
  }

  ghost function Visited(h: nat, n: nat, s: nat): (v: set<nat>)
    requires 0 < n
    ensures forall i :: i in v <==> exists t: nat :: t < s && Probe(h, n, t) == i
  {
    set t | 0 <= t < s :: Probe(h, n, t)
  }

  lemma {:induction false} VisitedCount(h: nat, k: nat, s: nat)
    requires s <= Pow2(k)
    ensures |Visited(h, Pow2(k), s)| == s
  {
    var n := Pow2(k);
    if s == 0 {
      assert Visited(h, n, 0) == {};
    } else {
      VisitedCount(h, k, s - 1);
      var p := Probe(h, n, s - 1);
      forall t: nat | t < s - 1
        ensures Probe(h, n, t) != p
      {
        ProbesAreDistinct(h, k, t, s - 1);
      }
      assert p !in Visited(h, n, s - 1);
      assert Visited(h, n, s) == Visited(h, n, s - 1) + {p};
    }
  }

  ghost function Below(n: nat): (r: set<nat>)
    ensures forall i: nat :: i in r <==> i < n
    ensures |r| == n
  {
    if n == 0 then {} else Below(n - 1) + {(n - 1) as nat}
  }

  lemma FullSubset(a: set<nat>, n: nat)
    requires forall i :: i in a ==> i < n
    ensures |a| <= n
    ensures |a| == n ==> a == Below(n)
  {
    var rest := Below(n) - a;
    assert a + rest == Below(n) && a !! rest;
    assert |a + rest| == |a| + |rest|;
    if |a| == n {
      assert rest == {};
    }
  }

  /** Every bucket is reached within the first n probes. */
  lemma ProbesVisitEveryBucket(h: nat, k: nat, i: nat)
    requires i < Pow2(k)
    ensures exists s: nat :: s < Pow2(k) && Probe(h, Pow2(k), s) == i
  {
    var n := Pow2(k);
    VisitedCount(h, k, n);
    FullSubset(Visited(h, n, n), n);
    assert i in Visited(h, n, n);
  }

  /** The walk is back at its starting bucket at probe 2n - 1 and at no earlier probe, so the
      `i == last` exit of the search loops is taken only after every bucket was inspected. */
  lemma FirstReturn(h: nat, k: nat, s: nat)
    requires 0 < s < 2 * Pow2(k)
    ensures Probe(h, Pow2(k), s) == Probe(h, Pow2(k), 0) <==> s == 2 * Pow2(k) - 1
  {
    var n := Pow2(k);
    if s == 2 * n - 1 {
      DifferenceOfTriangles(0, s);
      assert 2 * Tri(s) == s * (2 * n) == 2 * (s * n);
      ModShift(h, s, n);
    } else if Probe(h, n, s) == Probe(h, n, 0) {
      CollisionDivides(h, k, 0, s);
      DividesEvenFactor(s, s + 1, k + 1);
      if s % 2 == 1 {
        SmallMultipleIsZero(s + 1, Pow2(k + 1));
      } else {
        SmallMultipleIsZero(s, Pow2(k + 1));
      }
    }
  }
}
