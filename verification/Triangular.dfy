// Number theory behind the quadratic probe sequence of khash: on a table whose
// size is a power of two, step s looks at bucket (h + s(s+1)/2) mod n.

module Triangular {

  function Pow2(k: nat): (r: nat)
    ensures r >= 1
  {
    if k == 0 then 1 else 2 * Pow2(k - 1)
  }

  ghost predicate IsPow2(n: nat) {
    exists k: nat :: n == Pow2(k)
  }

  // The s-th triangular number, as the running sum 1 + 2 + ... + s.
  function Tri(s: nat): nat {
    if s == 0 then 0 else Tri(s - 1) + s
  }

  // x & (n - 1) for a power of two n: what is left after taking off multiples of n
  function Mask(x: nat, n: nat): (i: nat)
    requires n > 0
    ensures i < n
  {
    if x < n then x else Mask(x - n, n)
  }

  lemma {:induction false} MaskQuotient(x: nat, n: nat) returns (q: nat)
    requires n > 0
    ensures x == n * q + Mask(x, n)
  {
    if x < n {
      q := 0;
    } else {
      q := MaskQuotient(x - n, n);
      q := q + 1;
    }
  }

  lemma MaskIsRemainder(x: nat, n: nat)
    requires n > 0
    ensures Mask(x, n) == x % n
  {
    var q := MaskQuotient(x, n);
    var d := x / n - q;
    assert n * d == Mask(x, n) - x % n;
    MulAtLeast(n, d);
  }

  lemma {:induction false} MaskAdd(x: nat, s: nat, n: nat)
    requires n > 0
    ensures Mask(Mask(x, n) + s, n) == Mask(x + s, n)
  {
    if x >= n { MaskAdd(x - n, s, n); }
  }

  lemma {:induction false} MaskMultiple(x: nat, q: nat, n: nat)
    requires n > 0
    ensures x + n * q >= 0 && Mask(x + n * q, n) == Mask(x, n)
  {
    if q > 0 {
      MaskMultiple(x, q - 1, n);
      assert x + n * q - n == x + n * (q - 1);
    }
  }

  // The bucket inspected after s rounds of i = (i + (++step)) & mask.
  function Probe(h: nat, s: nat, n: nat): (i: nat)
    requires n > 0
    ensures i < n
  {
    if s == 0 then Mask(h, n) else Mask(Probe(h, s - 1, n) + s, n)
  }

  lemma {:induction false} TriClosed(s: nat)
    ensures 2 * Tri(s) == s * (s + 1)
  {
    if s > 0 { TriClosed(s - 1); }
  }

  lemma MulAtLeast(n: int, d: int)
    requires n > 0
    ensures d > 0 ==> n * d >= n
    ensures d < 0 ==> n * d <= -n
  {}

  // The probe sequence adds triangular numbers to the hash.
  lemma {:induction false} ProbeClosed(h: nat, s: nat, n: nat)
    requires n > 0
    ensures Probe(h, s, n) == Mask(h + Tri(s), n)
  {
    if s > 0 {
      ProbeClosed(h, s - 1, n);
      MaskAdd(h + Tri(s - 1), s, n);
    }
  }

  lemma OddTimes(a: int, b: int)
    requires a % 2 == 1 && (a * b) % 2 == 0
    ensures b % 2 == 0
  {
    var m := a / 2;
    assert a * b == (2 * m + 1) * b == 2 * (m * b) + b;
  }

  lemma Assoc(a: int, b: int, c: int)
    ensures (a * b) * c == a * (b * c)
  {}

  lemma Halve(x: int, y: int)
    requires 2 * x == 2 * y
    ensures x == y
  {}

  // An odd factor can be cancelled from a multiple of a power of two.
  lemma {:induction false} OddCancel(k: nat, a: int, b: int, q: int) returns (r: int)
    requires a % 2 == 1
    requires a * b == Pow2(k) * q
    ensures b == Pow2(k) * r
  {
    if k == 0 {
      r := b;
    } else {
      var p := Pow2(k - 1);
      Assoc(2, p, q);
      OddTimes(a, b);
      var c := b / 2;
      assert b == 2 * c;
      Assoc(a, 2, c); Assoc(2, a, c);
      assert a * b == 2 * (a * c);
      Halve(a * c, p * q);
      r := OddCancel(k - 1, a, c, q);
      Assoc(2, p, r);
    }
  }

  lemma FactorTriDifference(s: nat, t: nat)
    ensures 2 * (Tri(t) - Tri(s)) == (t - s) * (t + s + 1)
  {
    TriClosed(s);
    TriClosed(t);
  }

  // Of two factors of opposite parity, one is at least the power of two their
  // product is a multiple of.
  lemma OppositeParity(k: nat, lo: nat, hi: nat, q: int)
    requires lo > 0 && hi > 0 && lo % 2 != hi % 2
    requires lo * hi == Pow2(k) * q
    ensures lo >= Pow2(k) || hi >= Pow2(k)
  {
    if lo % 2 == 1 {
      var r := OddCancel(k, lo, hi, q);
      MulAtLeast(Pow2(k), r);
    } else {
      assert hi * lo == lo * hi;
      var r := OddCancel(k, hi, lo, q);
      MulAtLeast(Pow2(k), r);
    }
  }

  lemma Subtract(n: int, a: int, b: int, m: int)
    ensures (n * b + m) - (n * a + m) == n * (b - a)
  {}

  lemma TriCongruent(h: nat, n: nat, s: nat, t: nat) returns (q: int)
    requires n > 0 && Probe(h, s, n) == Probe(h, t, n)
    ensures Tri(t) - Tri(s) == n * q
  {
    ProbeClosed(h, s, n);
    ProbeClosed(h, t, n);
    var a := MaskQuotient(h + Tri(s), n);
    var b := MaskQuotient(h + Tri(t), n);
    q := (b as int) - (a as int);
    Subtract(n, a, b, Probe(h, s, n));
  }

  lemma ProductCongruent(h: nat, k: nat, s: nat, t: nat) returns (q: int)
    requires Probe(h, s, Pow2(k)) == Probe(h, t, Pow2(k))
    ensures (t - s) * (t + s + 1) == Pow2(k + 1) * q
  {
    q := TriCongruent(h, Pow2(k), s, t);
    FactorTriDifference(s, t);
    Assoc(2, Pow2(k), q);
  }

  lemma FarApart(k: nat, s: nat, t: nat, q: int)
    requires s < t && (t - s) * (t + s + 1) == Pow2(k) * q
    ensures s + t + 1 >= Pow2(k)
  {
    OppositeParity(k, t - s, t + s + 1, q);
  }

  // Two different steps can only meet the same bucket when they are far apart.
  lemma ProbeCollision(h: nat, k: nat, s: nat, t: nat)
    requires s < t
    requires Probe(h, s, Pow2(k)) == Probe(h, t, Pow2(k))
    ensures s + t + 1 >= 2 * Pow2(k)
  {
    var q := ProductCongruent(h, k, s, t);
    FarApart(k + 1, s, t, q);
  }

  lemma Double(s: nat, n: nat)
    ensures s * (2 * n) == 2 * (n * s)
  {}

  lemma TriReturn(n: nat, s: nat)
    requires s + 1 == 2 * n
    ensures Tri(s) == n * s
  {
    hide Tri;
    TriClosed(s);
    Double(s, n);
  }

  lemma ReturnsAt(h: nat, n: nat, s: nat)
    requires s + 1 == 2 * n
    ensures Probe(h, s, n) == Probe(h, 0, n)
  {
    hide Tri, Mask;
    ProbeClosed(h, s, n);
    TriReturn(n, s);
    MaskMultiple(h, s, n);
  }

  // Step 2n-1 is back at the first bucket, and no earlier step is.
  lemma FirstReturn(h: nat, k: nat, s: nat)
    requires 0 < s < 2 * Pow2(k)
    ensures Probe(h, s, Pow2(k)) == Probe(h, 0, Pow2(k)) <==> s == 2 * Pow2(k) - 1
  {
    hide Probe, Pow2;
    var n := Pow2(k);
    if s == 2 * n - 1 {
      ReturnsAt(h, n, s);
    } else if Probe(h, s, n) == Probe(h, 0, n) {
      ProbeCollision(h, k, 0, s);
    }
  }

  // i = (i + (++step)) & mask
  method Advance(i: nat, step: nat, n: nat, ghost h: nat, ghost k: nat) returns (i': nat)
    requires n == Pow2(k) && step + 1 < 2 * n
    requires i == Probe(h, step, n)
    ensures i' == Probe(h, step + 1, n)
    ensures i' == Probe(h, 0, n) <==> step + 1 == 2 * n - 1
  {
    i' := Mask(i + (step + 1), n);
    FirstReturn(h, k, step + 1);
  }

  ghost function Below(n: nat): set<nat> {
    set i: nat {:trigger i + 0} | i < n
  }

  lemma {:induction false} BelowSize(n: nat)
    ensures |Below(n)| == n
  {
    if n > 0 {
      BelowSize(n - 1);
      assert Below(n) == Below(n - 1) + {n - 1};
    }
  }

  ghost function Visited(h: nat, m: nat, n: nat): set<nat>
    requires n > 0
  {
    set s: nat | s < m :: Probe(h, s, n)
  }

  lemma {:induction false} VisitedSize(h: nat, k: nat, m: nat)
    requires m <= Pow2(k)
    ensures |Visited(h, m, Pow2(k))| == m
  {
    hide Probe, Pow2;
    var n := Pow2(k);
    if m > 0 {
      VisitedSize(h, k, m - 1);
      var p := Probe(h, m - 1, n);
      if p in Visited(h, m - 1, n) {
        var s: nat :| s < m - 1 && Probe(h, s, n) == p;
        ProbeCollision(h, k, s, m - 1);
        assert false;
      }
      assert Visited(h, m, n) == Visited(h, m - 1, n) + {p};
    } else {
      assert Visited(h, m, n) == {};
    }
  }

  lemma SubsetSameSize(a: set<nat>, b: set<nat>)
    requires a <= b && |a| == |b|
    ensures a == b
  {
    assert b == a + (b - a);
    assert |b| == |a| + |b - a|;
  }

  // The first n steps inspect every bucket ...
  lemma ProbeCovers(h: nat, k: nat, b: nat) returns (s: nat)
    requires b < Pow2(k)
    ensures s < Pow2(k) && Probe(h, s, Pow2(k)) == b
  {
    var n := Pow2(k);
    VisitedSize(h, k, n);
    BelowSize(n);
    SubsetSameSize(Visited(h, n, n), Below(n));
    assert b in Visited(h, n, n);
    s :| s < n && Probe(h, s, n) == b;
  }

  // ... and inspect it exactly once.
  lemma ProbeVisitsOnce(h: nat, k: nat, b: nat)
    requires b < Pow2(k)
    ensures exists s: nat :: s < Pow2(k) && Probe(h, s, Pow2(k)) == b &&
              (forall t: nat :: t < Pow2(k) && Probe(h, t, Pow2(k)) == b ==> t == s)
  {
    var s := ProbeCovers(h, k, b);
    forall t: nat | t < Pow2(k) && Probe(h, t, Pow2(k)) == b
      ensures t == s
    {
      if t < s { ProbeCollision(h, k, t, s); }
      if s < t { ProbeCollision(h, k, s, t); }
    }
  }
}
