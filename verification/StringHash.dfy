// __ac_X31_hash_string, the hash of the string instantiation of khash.

module StringHash {
  import opened RoundUp

  // A C `char` widened to 32 bits, sign included.
  function SignExtend(c: char): (n: nat)
    ensures n < TWO_32
  {
    var b := (c as nat) % 256;
    if b < 128 then b else b + TWO_32 - 256
  }

  // __ac_X31_hash_string: h = (h << 5) - h + c, modulo 2^32
  function X31(s: string): (h: nat)
    ensures h < TWO_32
  {
    if |s| == 0 || SignExtend(s[0]) == 0 then 0
    else if |s| == 1 then SignExtend(s[0])
    else (31 * X31(s[..|s| - 1]) + SignExtend(s[|s| - 1])) % TWO_32
  }

  method HashString(s: string) returns (h: nat)
    ensures h == X31(s)
  {
    h := if |s| == 0 then 0 else SignExtend(s[0]);
    if h != 0 {
      for j := 1 to |s|
        invariant h == X31(s[..j])
      {
        assert s[..j + 1][..j] == s[..j];
        h := (31 * h + SignExtend(s[j])) % TWO_32;
      }
      assert s[..|s|] == s;
    }
  }

  // ---- the same as a sum

  // A `char` as the signed number that it is.
  function Signed(c: char): int {
    var b := (c as nat) % 256;
    if b <= 127 then b else b - 256
  }

  function Power31(n: nat): nat {
    if n == 0 then 1 else 31 * Power31(n - 1)
  }

  // Each character times 31 to the number of those behind it.
  function Weighted(s: string): int {
    if |s| == 0 then 0 else Signed(s[0]) * Power31(|s| - 1) + Weighted(s[1..])
  }

  lemma {:induction false} WeightedMore(s: string, c: char)
    ensures Weighted(s + [c]) == 31 * Weighted(s) + Signed(c)
  {
    if |s| == 0 {
      assert [c][1..] == "" && s + [c] == [c];
    } else {
      assert (s + [c])[1..] == s[1..] + [c];
      WeightedMore(s[1..], c);
      Scaled(Signed(s[0]), Power31(|s| - 1));
    }
  }

  lemma Scaled(x: int, p: nat)
    ensures x * (31 * p) == 31 * (x * p)
  {}

  lemma Wraps(x: int, y: int, a: nat, b: int)
    requires a == x % TWO_32 && (b - y) % TWO_32 == 0
    ensures (31 * a + b) % TWO_32 == (31 * x + y) % TWO_32
  {
    var q, r := x / TWO_32, (b - y) / TWO_32;
    assert x == TWO_32 * q + a && b == y + TWO_32 * r;
    assert 31 * x + y == 31 * a + b + TWO_32 * (31 * q - r);
  }

  // The hash is the weighted sum of the characters, modulo 2^32; a text that
  // starts with a NUL is the empty C string.
  lemma {:induction false} HashIsSum(s: string)
    ensures X31(s) == if |s| > 0 && Signed(s[0]) == 0 then 0 else Weighted(s) % TWO_32
  {
    if |s| == 1 {
      assert s[1..] == "";
    } else if |s| > 1 && Signed(s[0]) != 0 {
      var n := |s| - 1;
      HashIsSum(s[..n]);
      WeightedMore(s[..n], s[n]);
      assert s == s[..n] + [s[n]];
      Wraps(Weighted(s[..n]), Signed(s[n]), X31(s[..n]), SignExtend(s[n]));
    }
  }
}
