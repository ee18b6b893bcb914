// The two state bits khash keeps for each bucket, sixteen buckets to a word,
// and the proof that the packed words refine a plain sequence of bucket states.

module Flags {
  import opened Triangular

  datatype Slot = Empty | Deleted | Live

  // (i & 0xfU) << 1
  function Shift(i: nat): (s: bv5)
    ensures s & 1 == 0
  {
    match i % 16
    case 0 => 0 case 1 => 2 case 2 => 4 case 3 => 6
    case 4 => 8 case 5 => 10 case 6 => 12 case 7 => 14
    case 8 => 16 case 9 => 18 case 10 => 20 case 11 => 22
    case 12 => 24 case 13 => 26 case 14 => 28 case _ => 30
  }

  // __ac_fsize
  function Fsize(n: nat): nat {
    if n < 16 then 1 else n / 16
  }

  // The bit pairs of the three states: bit 1 says empty, bit 0 says deleted.
  function Bits(s: Slot): bv32 {
    match s case Empty => 2 case Deleted => 1 case Live => 0
  }

  // The word operations of the __ac_ macros, at shift s.
  function Pair(w: bv32, s: bv5): bv32 { (w >> s) & 3 }
  function MarkDel(w: bv32, s: bv5): bv32 { w | (1 << s) }
  function DropEmpty(w: bv32, s: bv5): bv32 { w & !(2 << s) }
  function DropBoth(w: bv32, s: bv5): bv32 { w & !(3 << s) }

  function BitsAt(words: seq<bv32>, i: nat): bv32
    requires i < 16 * |words|
  {
    Pair(words[i / 16], Shift(i))
  }

  // The words represent the states: bucket i's pair of bits encodes slots[i].
  ghost predicate Repr(words: seq<bv32>, slots: seq<Slot>) {
    && |slots| <= 16 * |words|
    && forall i: nat {:trigger BitsAt(words, i)} :: i < |slots| ==> BitsAt(words, i) == Bits(slots[i])
  }

  lemma ShiftDistinct(i: nat, j: nat)
    ensures Shift(i) == Shift(j) <==> i % 16 == j % 16
  {}

  lemma MarkDelOther(w: bv32, s: bv5, t: bv5)
    requires s & 1 == 0 && t & 1 == 0 && s != t
    ensures Pair(MarkDel(w, s), t) == Pair(w, t)
  {}

  lemma DropEmptyOther(w: bv32, s: bv5, t: bv5)
    requires s & 1 == 0 && t & 1 == 0 && s != t
    ensures Pair(DropEmpty(w, s), t) == Pair(w, t)
  {}

  lemma DropBothOther(w: bv32, s: bv5, t: bv5)
    requires s & 1 == 0 && t & 1 == 0 && s != t
    ensures Pair(DropBoth(w, s), t) == Pair(w, t)
  {}

  lemma OwnPair(w: bv32, s: bv5)
    ensures Pair(w, s) == 0 ==> Pair(MarkDel(w, s), s) == 1
    ensures Pair(w, s) == 2 ==> Pair(DropEmpty(w, s), s) == 0
    ensures Pair(DropBoth(w, s), s) == 0
  {}

  // Replacing bucket i's word by one that agrees on every other pair moves the
  // represented states at bucket i and nowhere else.
  lemma UpdateOne(words: seq<bv32>, slots: seq<Slot>, i: nat, w: bv32, state: Slot)
    requires Repr(words, slots) && i < |slots|
    requires forall t: bv5 :: t & 1 == 0 && t != Shift(i) ==> Pair(w, t) == Pair(words[i / 16], t)
    requires Pair(w, Shift(i)) == Bits(state)
    ensures Repr(words[i / 16 := w], slots[i := state])
  {
    var words', slots' := words[i / 16 := w], slots[i := state];
    forall j: nat | j < |slots|
      ensures BitsAt(words', j) == Bits(slots'[j])
    {
      assert BitsAt(words, j) == Bits(slots[j]);
      if i / 16 == j / 16 {
        ShiftDistinct(i, j);
      }
    }
  }

  // __ac_set_isdel_true on a live bucket
  lemma MarkDelRefines(words: seq<bv32>, slots: seq<Slot>, i: nat)
    requires Repr(words, slots) && i < |slots| && slots[i].Live?
    ensures Repr(words[i / 16 := MarkDel(words[i / 16], Shift(i))], slots[i := Deleted])
  {
    var w := words[i / 16];
    assert BitsAt(words, i) == 0;
    OwnPair(w, Shift(i));
    forall t: bv5 | t & 1 == 0 && t != Shift(i)
      ensures Pair(MarkDel(w, Shift(i)), t) == Pair(w, t)
    {
      MarkDelOther(w, Shift(i), t);
    }
    UpdateOne(words, slots, i, MarkDel(w, Shift(i)), Deleted);
  }

  // __ac_set_isempty_false on an empty bucket
  lemma DropEmptyRefines(words: seq<bv32>, slots: seq<Slot>, i: nat)
    requires Repr(words, slots) && i < |slots| && slots[i].Empty?
    ensures Repr(words[i / 16 := DropEmpty(words[i / 16], Shift(i))], slots[i := Live])
  {
    var w := words[i / 16];
    assert BitsAt(words, i) == 2;
    OwnPair(w, Shift(i));
    forall t: bv5 | t & 1 == 0 && t != Shift(i)
      ensures Pair(DropEmpty(w, Shift(i)), t) == Pair(w, t)
    {
      DropEmptyOther(w, Shift(i), t);
    }
    UpdateOne(words, slots, i, DropEmpty(w, Shift(i)), Live);
  }

  // __ac_set_isboth_false on any bucket
  lemma DropBothRefines(words: seq<bv32>, slots: seq<Slot>, i: nat)
    requires Repr(words, slots) && i < |slots|
    ensures Repr(words[i / 16 := DropBoth(words[i / 16], Shift(i))], slots[i := Live])
  {
    var w := words[i / 16];
    OwnPair(w, Shift(i));
    forall t: bv5 | t & 1 == 0 && t != Shift(i)
      ensures Pair(DropBoth(w, Shift(i)), t) == Pair(w, t)
    {
      DropBothOther(w, Shift(i), t);
    }
    UpdateOne(words, slots, i, DropBoth(w, Shift(i)), Live);
  }

  // A block of Fsize(n) words filled with 0xaa bytes covers n buckets and reads
  // as empty for all of them, for every n below 16 or a multiple of 16.
  lemma FilledIsEmpty(words: seq<bv32>, n: nat)
    requires n < 16 || n % 16 == 0
    requires |words| >= Fsize(n)
    requires forall k :: 0 <= k < |words| ==> words[k] == 0xaaaa_aaaa
    ensures Repr(words, seq(n, _ => Empty))
  {
    forall j: nat | j < n
      ensures BitsAt(words, j) == 2
    {
      AllEmpty(Shift(j));
    }
  }

  lemma AllEmpty(s: bv5)
    requires s & 1 == 0
    ensures Pair(0xaaaa_aaaa, s) == 2
  {}

  lemma {:induction false} PowerCoversWords(k: nat)
    ensures if k < 4 then Pow2(k) < 16 else Pow2(k) % 16 == 0
  {
    if k == 4 {
      assert Pow2(2) == 4 && Pow2(4) == 2 * Pow2(3) && Pow2(3) == 2 * Pow2(2);
    } else if k > 0 {
      PowerCoversWords(k - 1);
      assert Pow2(k) == 2 * Pow2(k - 1);
    }
  }

  // __ac_isempty
  method IsEmpty(flags: array<bv32>, i: nat, ghost slots: seq<Slot>) returns (b: bool)
    requires Repr(flags[..], slots) && i < |slots|
    ensures b <==> slots[i].Empty?
  {
    ghost var bits := BitsAt(flags[..], i);
    b := (flags[i / 16] >> Shift(i)) & 2 != 0;
    PairTests(flags[i / 16], Shift(i));
  }

  // __ac_isdel
  method IsDel(flags: array<bv32>, i: nat, ghost slots: seq<Slot>) returns (b: bool)
    requires Repr(flags[..], slots) && i < |slots|
    ensures b <==> slots[i].Deleted?
  {
    ghost var bits := BitsAt(flags[..], i);
    b := (flags[i / 16] >> Shift(i)) & 1 != 0;
    PairTests(flags[i / 16], Shift(i));
  }

  // __ac_iseither
  method IsEither(flags: array<bv32>, i: nat, ghost slots: seq<Slot>) returns (b: bool)
    requires Repr(flags[..], slots) && i < |slots|
    ensures b <==> !slots[i].Live?
  {
    ghost var bits := BitsAt(flags[..], i);
    b := (flags[i / 16] >> Shift(i)) & 3 != 0;
  }

  lemma PairTests(w: bv32, s: bv5)
    ensures (w >> s) & 2 == ((w >> s) & 3) & 2
    ensures (w >> s) & 1 == ((w >> s) & 3) & 1
  {}

  method SetIsdelTrue(flags: array<bv32>, i: nat, ghost slots: seq<Slot>)
    requires Repr(flags[..], slots) && i < |slots| && slots[i].Live?
    modifies flags
    ensures Repr(flags[..], slots[i := Deleted])
  {
    MarkDelRefines(flags[..], slots, i);
    ghost var words := flags[..][i / 16 := MarkDel(flags[i / 16], Shift(i))];
    flags[i / 16] := MarkDel(flags[i / 16], Shift(i));
    assert flags[..] == words;
  }

  method SetIsemptyFalse(flags: array<bv32>, i: nat, ghost slots: seq<Slot>)
    requires Repr(flags[..], slots) && i < |slots| && slots[i].Empty?
    modifies flags
    ensures Repr(flags[..], slots[i := Live])
  {
    DropEmptyRefines(flags[..], slots, i);
    ghost var words := flags[..][i / 16 := DropEmpty(flags[i / 16], Shift(i))];
    flags[i / 16] := DropEmpty(flags[i / 16], Shift(i));
    assert flags[..] == words;
  }

  method SetIsbothFalse(flags: array<bv32>, i: nat, ghost slots: seq<Slot>)
    requires Repr(flags[..], slots) && i < |slots|
    modifies flags
    ensures Repr(flags[..], slots[i := Live])
  {
    DropBothRefines(flags[..], slots, i);
    ghost var words := flags[..][i / 16 := DropBoth(flags[i / 16], Shift(i))];
    flags[i / 16] := DropBoth(flags[i / 16], Shift(i));
    assert flags[..] == words;
  }

  // memset(flags, 0xaa, ...)
  method Fill(flags: array<bv32>, ghost n: nat)
    requires n < 16 || n % 16 == 0
    requires flags.Length >= Fsize(n)
    modifies flags
    ensures Repr(flags[..], seq(n, _ => Empty))
  {
    for k := 0 to flags.Length
      invariant forall j :: 0 <= j < k ==> flags[j] == 0xaaaa_aaaa
    {
      flags[k] := 0xaaaa_aaaa;
    }
    FilledIsEmpty(flags[..], n);
  }
}
