// kroundup32: rounding a 32-bit request up to a power of two by bit smearing.

module RoundUp {
  import opened Triangular

  const TWO_31: nat := 0x8000_0000
  const TWO_32: nat := 0x1_0000_0000

  // Bitwise or of two unsigned integers, binary digit by binary digit.
  function Or(x: nat, y: nat): nat {
    if x == 0 && y == 0 then 0
    else 2 * Or(x / 2, y / 2) + (if x % 2 == 1 || y % 2 == 1 then 1 else 0)
  }

  // x >> k
  function Shr(x: nat, k: nat): nat {
    if k == 0 then x else Shr(x / 2, k - 1)
  }

  // x |= x >> j
  function Smear(x: nat, j: nat): nat {
    Or(x, Shr(x, j))
  }

  // The smearing steps of the macro: shifts 1, 2, 4, 8 and 16, starting at j.
  function SmearFrom(x: nat, j: nat): nat
    requires j > 0
    decreases 32 - j
  {
    if j < 32 then SmearFrom(Smear(x, j), 2 * j) else x
  }

  // The macro, with the decrement and the increment wrapping at 32 bits.
  function Kroundup32(n: nat): nat {
    (SmearFrom((n + TWO_32 - 1) % TWO_32, 1) + 1) % TWO_32
  }

  // The number written with j ones.
  function Ones(j: nat): (n: nat)
    ensures n == Pow2(j) - 1
  {
    if j == 0 then 0 else 2 * Ones(j - 1) + 1
  }

  // x has exactly m digits and at least the leading j of them are ones.
  ghost predicate LeadingOnes(x: nat, m: nat, j: nat) {
    j <= m && Shr(x, m - j) == Ones(j)
  }

  lemma {:induction false} Pow2Order(i: nat, j: nat)
    ensures i <= j ==> Pow2(i) <= Pow2(j)
    ensures i < j ==> 2 * Pow2(i) <= Pow2(j)
  {
    if i < j { Pow2Order(i, j - 1); }
  }

  lemma {:induction false} ShrShr(x: nat, i: nat, j: nat)
    ensures Shr(Shr(x, i), j) == Shr(x, i + j)
  {
    if i > 0 { ShrShr(x / 2, i - 1, j); }
  }

  lemma {:induction false} ShrOr(x: nat, y: nat, k: nat)
    ensures Shr(Or(x, y), k) == Or(Shr(x, k), Shr(y, k))
  {
    if k > 0 { ShrOr(x / 2, y / 2, k - 1); }
  }

  lemma {:induction false} ShrOnes(j: nat, k: nat)
    requires k <= j
    ensures Shr(Ones(j), k) == Ones(j - k)
  {
    if k > 0 { ShrOnes(j - 1, k - 1); }
  }

  // Or-ing g ones below j leading ones makes j + g leading ones.
  lemma {:induction false} OrOnes(z: nat, g: nat, j: nat)
    requires Shr(z, g) == Ones(j)
    ensures Or(z, Ones(g)) == Ones(j + g)
  {
    if g == 0 {
      OrZero(z);
    } else {
      OrOnes(z / 2, g - 1, j);
      assert Ones(j + g) == 2 * Ones(j + g - 1) + 1 && Ones(g) == 2 * Ones(g - 1) + 1;
    }
  }

  lemma {:induction false} OrZero(x: nat)
    ensures Or(x, 0) == x
  {
    if x > 0 { OrZero(x / 2); }
  }

  lemma {:induction false} ShrZero(k: nat)
    ensures Shr(0, k) == 0
  {
    if k > 0 { ShrZero(k - 1); }
  }

  function Min(a: nat, b: nat): nat { if a < b then a else b }

  // One smearing step doubles the run of leading ones.
  lemma SmearDoubles(x: nat, m: nat, j: nat)
    requires LeadingOnes(x, m, Min(j, m))
    ensures LeadingOnes(Smear(x, j), m, Min(2 * j, m))
  {
    if m <= j {
      ShrOnes(m, m);
      ShrShr(x, m, j - m);
      ShrZero(j - m);
      OrZero(x);
    } else {
      var g := Min(2 * j, m) - j;
      var k := m - j - g;
      ShrOr(x, Shr(x, j), k);
      ShrShr(x, j, k);
      ShrShr(x, m - j, j - g);
      ShrOnes(j, j - g);
      ShrShr(x, k, g);
      OrOnes(Shr(x, k), g, j);
    }
  }

  lemma {:induction false} DigitCount(x: nat) returns (m: nat)
    requires x > 0
    ensures m > 0 && LeadingOnes(x, m, 1) && Pow2(m - 1) <= x
  {
    if x == 1 {
      m := 1;
    } else {
      m := DigitCount(x / 2);
      m := m + 1;
    }
  }

  lemma {:induction false} SmearFills(x: nat, m: nat, j: nat)
    requires 0 < j && m <= 32 && LeadingOnes(x, m, Min(j, m))
    ensures SmearFrom(x, j) == Pow2(m) - 1
    decreases 32 - j
  {
    if j < 32 {
      SmearDoubles(x, m, j);
      SmearFills(Smear(x, j), m, 2 * j);
    }
  }

  lemma Pow2Bounds()
    ensures Pow2(31) == TWO_31 && Pow2(32) == TWO_32
  {
    assert Pow2(8) == 256;
    assert Pow2(16) == 0x1_0000;
    assert Pow2(24) == 0x100_0000;
  }

  lemma {:induction false} UpperDigit(x: nat, m: nat)
    requires m > 0 && LeadingOnes(x, m, 1)
    ensures x < Pow2(m)
  {
    if m > 1 { UpperDigit(x / 2, m - 1); }
  }

  // Smearing an m-digit number and adding one gives 2^m.
  lemma Smeared(a: nat) returns (m: nat)
    requires 0 < a < TWO_32
    ensures 0 < m <= 32 && Pow2(m - 1) <= a < Pow2(m)
    ensures SmearFrom(a, 1) + 1 == Pow2(m)
  {
    Pow2Bounds();
    m := DigitCount(a);
    UpperDigit(a, m);
    Pow2Order(32, m - 1);
    SmearFills(a, m, 1);
  }

  lemma WrappedDecrement(n: nat)
    requires n < TWO_32
    ensures (n + TWO_32 - 1) % TWO_32 == if n == 0 then TWO_32 - 1 else n - 1
  {}

  // The macro returns 2^m for an m-digit n - 1, which wraps to zero at m == 32.
  lemma Rounded(n: nat) returns (m: nat)
    requires n < TWO_32 && n != 1
    ensures 0 < m <= 32
    ensures n > 0 ==> Pow2(m - 1) < n <= Pow2(m)
    ensures Kroundup32(n) == if m == 32 then 0 else Pow2(m)
    ensures m == 32 <==> n == 0 || n > TWO_31
  {
    hide Pow2, SmearFrom, Ones, LeadingOnes;
    Pow2Bounds();
    WrappedDecrement(n);
    m := Smeared(if n == 0 then TWO_32 - 1 else n - 1);
    Pow2Order(31, m - 1);
    Pow2Order(m, 31);
  }

  lemma RoundedOne()
    ensures Kroundup32(1) == Pow2(0)
  {
    ShrZero(1);
    SmearFills(0, 0, 1);
  }

  // The smearing yields the least power of two not below the request, for
  // requests 1 .. 2^31.  Zero and larger requests wrap round to zero.
  lemma RoundsUp(n: nat)
    requires n < TWO_32
    ensures 1 <= n <= TWO_31 ==>
      IsPow2(Kroundup32(n)) && n <= Kroundup32(n) <= TWO_31 &&
      (forall k: nat :: n <= Pow2(k) ==> Kroundup32(n) <= Pow2(k))
    ensures n == 0 || n > TWO_31 ==> Kroundup32(n) == 0
  {
    if n == 1 {
      RoundedOne();
    } else {
      var m := Rounded(n);
      Pow2Bounds();
      Pow2Order(m, 31);
      forall k: nat | 0 < n <= Pow2(k)
        ensures Pow2(m) <= Pow2(k)
      {
        Pow2Order(k, m - 1);
        Pow2Order(m, k);
      }
    }
  }

  lemma LeastPower(n: nat, e: nat)
    requires 1 < n <= TWO_31 && 0 < e && Pow2(e - 1) < n <= Pow2(e)
    ensures Kroundup32(n) == Pow2(e)
  {
    var m := Rounded(n);
    Pow2Order(m, e - 1);
    Pow2Order(e, m - 1);
  }

  // One below a power of two rounds back to it, one above to the next one, or
  // to nothing at the top of the range.
  lemma RoundsBelow(k: nat)
    requires 2 <= k <= 31
    ensures 1 < Pow2(k) - 1 <= TWO_31 && Kroundup32(Pow2(k) - 1) == Pow2(k)
  {
    hide Kroundup32;
    Pow2Order(1, k - 1);
    Pow2Order(k, 31);
    Pow2Bounds();
    var half := Pow2(k - 1);
    assert Pow2(k) == 2 * half && half >= 2;
    LeastPower(Pow2(k) - 1, k);
  }

  lemma RoundsAbove(k: nat)
    requires 2 <= k <= 31
    ensures Pow2(k) + 1 < TWO_32
    ensures Kroundup32(Pow2(k) + 1) == if k < 31 then 2 * Pow2(k) else 0
  {
    Pow2Bounds();
    Pow2Order(k, 31);
    Pow2Order(k + 1, 31);
    Pow2Order(1, k);
    RoundsUp(Pow2(k) + 1);
    if k < 31 {
      LeastPower(Pow2(k) + 1, k + 1);
    }
  }

  // ---- the bucket mask

  // Bitwise and of two unsigned integers, binary digit by binary digit.
  function And(x: nat, y: nat): nat {
    if x == 0 || y == 0 then 0
    else 2 * And(x / 2, y / 2) + (if x % 2 == 1 && y % 2 == 1 then 1 else 0)
  }

  lemma MaskBelow(x: nat, n: nat)
    requires n > 0
    ensures x < n ==> Mask(x, n) == x
    ensures n == 1 ==> Mask(x, n) == 0
  {}

  lemma MaskHalves(x: nat, half: nat)
    requires half > 0
    ensures Mask(x, 2 * half) == 2 * Mask(x / 2, half) + x % 2
  {
    hide Mask;
    var q := MaskQuotient(x / 2, half);
    var r := 2 * Mask(x / 2, half) + x % 2;
    Regroup(half, q, x);
    MaskMultiple(r, q, 2 * half);
    MaskBelow(r, 2 * half);
  }

  lemma {:induction false} AndIsMask(x: nat, k: nat)
    ensures And(x, Pow2(k) - 1) == Mask(x, Pow2(k))
  {
    hide Mask;
    if k > 0 && x > 0 {
      AndIsMask(x / 2, k - 1);
      MaskHalves(x, Pow2(k - 1));
      assert (Pow2(k) - 1) / 2 == Pow2(k - 1) - 1 && (Pow2(k) - 1) % 2 == 1;
    } else {
      MaskBelow(x, Pow2(k));
    }
  }

  // h & (n_buckets - 1) is what Mask computes, the remainder of a division.
  lemma MaskIsAnd(x: nat, k: nat)
    ensures And(x, Pow2(k) - 1) == Mask(x, Pow2(k)) == x % Pow2(k)
  {
    hide And, Mask, Pow2;
    AndIsMask(x, k);
    MaskIsRemainder(x, Pow2(k));
  }

  lemma Regroup(half: nat, q: nat, x: nat)
    requires half > 0 && x / 2 == half * q + Mask(x / 2, half)
    ensures x == 2 * Mask(x / 2, half) + x % 2 + (2 * half) * q
  {}

  lemma {:induction false} Pow2Sum(i: nat, j: nat)
    ensures Pow2(i) * Pow2(j) == Pow2(i + j)
  {
    if i > 0 {
      Pow2Sum(i - 1, j);
      assert Pow2(i) == 2 * Pow2(i - 1) && Pow2(i + j) == 2 * Pow2(i - 1 + j);
      Assoc(2, Pow2(i - 1), Pow2(j));
    }
  }

  lemma WholeWords(x: nat, n: nat, m: nat)
    requires n > 0 && n * m == TWO_32
    ensures x == x % TWO_32 + n * (m * (x / TWO_32))
  {
    var q := x / TWO_32;
    assert n * (m * q) == (n * m) * q;
    assert x == x % TWO_32 + TWO_32 * q;
  }

  // The sums of the probe loops may wrap at 32 bits: the bucket is the same.
  lemma WrapKeepsBucket(x: nat, k: nat)
    requires k <= 32
    ensures Mask(x % TWO_32, Pow2(k)) == Mask(x, Pow2(k))
  {
    hide Mask, Pow2;
    Pow2Bounds();
    Pow2Sum(k, 32 - k);
    WholeWords(x, Pow2(k), Pow2(32 - k));
    MaskMultiple(x % TWO_32, Pow2(32 - k) * (x / TWO_32), Pow2(k));
  }
}
