// The khash open-addressing table, for any hash function.

module HashTable {
  import opened Triangular
  import opened RoundUp
  import opened Flags
  import opened Buckets
  import opened Wrappers

  // (khint_t)(n * __ac_HASH_UPPER + 0.5), exact for powers of two
  function UpperBound(n: nat): nat {
    (77 * n + 50) / 100
  }

  // The bucket count kh_resize settles on for a request.
  function Capacity(request: nat): nat {
    var m := Kroundup32(request);
    if m < 4 then 4 else m
  }

  lemma CapacityShape(request: nat)
    requires request < TWO_32
    ensures IsPow2(Capacity(request)) && 4 <= Capacity(request) <= TWO_31
  {
    RoundsUp(request);
    assert Pow2(2) == 4;
  }

  // The nearest whole number to 77 parts of a hundred, halves rounded up.
  lemma UpperBoundRounds(n: nat)
    ensures UpperBound(n) as real <= 0.77 * (n as real) + 0.5 < UpperBound(n) as real + 1.0
  {
    var u, r := (77 * n + 50) / 100, (77 * n + 50) % 100;
    assert 77 * n + 50 == 100 * u + r;
    assert 77.0 * (n as real) + 50.0 == 100.0 * (u as real) + r as real;
  }

  lemma LoadBound(n: nat)
    requires n >= 4
    ensures n < 2 * UpperBound(n) && UpperBound(n) < n
    ensures UpperBound(n) < UpperBound(2 * n)
  {}

  // The four counters of the table header.
  datatype Header = Header(nBuckets: nat, size: nat, nOccupied: nat, upperBound: nat)

  // What every operation keeps: a power-of-two bucket count, an index of the
  // live buckets with every key reachable on its probe path, counters that
  // count, and the load limit, which only the largest table may exceed.
  ghost predicate WellFormed<K>(hash: K -> nat, h: Header, slots: seq<Slot>, keys: seq<K>, at: map<K, nat>) {
    && |slots| == h.nBuckets == |keys|
    && (h.nBuckets != 0 ==> IsPow2(h.nBuckets) && 4 <= h.nBuckets <= TWO_31)
    && Indexed(slots, keys, at)
    && AllReachable(hash, slots, at)
    && h.size == CountLive(slots) == |at|
    && h.nOccupied == CountUsed(slots)
    && h.upperBound == UpperBound(h.nBuckets)
    && (h.nBuckets < TWO_31 ==> h.nOccupied <= h.upperBound)
  }

  // All of this, and the flag words and values that go with it.
  ghost predicate Sound<K, V>(hash: K -> nat, h: Header, words: seq<bv32>, slots: seq<Slot>, keys: seq<K>, vals: seq<V>,
                              at: map<K, nat>, all: map<K, V>)
  {
    && |vals| == h.nBuckets
    && (h.nBuckets != 0 ==> |words| == Fsize(h.nBuckets))
    && Flags.Repr(words, slots)
    && WellFormed(hash, h, slots, keys, at)
    && Holds(vals, at, all)
  }

  // The map `all` holds the value of the bucket of each key.
  lemma HoldsSize<K, V>(vals: seq<V>, at: map<K, nat>, all: map<K, V>)
    requires Holds(vals, at, all)
    ensures |all| == |at|
  {
    assert |all.Keys| == |at.Keys|;
  }

  // Entering an absent key in a free bucket.
  lemma Entered<K, V>(hash: K -> nat, h: Header, slots: seq<Slot>, keys: seq<K>, vals: seq<V>, at: map<K, nat>,
                      all: map<K, V>, key: K, x: nat)
    requires WellFormed(hash, h, slots, keys, at) && |vals| == |slots| && Holds(vals, at, all)
    requires x < |slots| && !slots[x].Live? && Reachable(slots, hash(key), x) && key !in at
    requires h.nBuckets < TWO_31 && slots[x].Empty? ==> h.nOccupied < h.upperBound
    ensures WellFormed(hash, h.(size := h.size + 1, nOccupied := h.nOccupied + 1 - UsedBit(slots[x])),
                       slots[x := Live], keys[x := key], at[key := x])
    ensures Holds(vals, at[key := x], all[key := vals[x]])
  {
    InsertKeeps(hash, slots, keys, at, key, x);
    CountUpdate(slots, x, Live);
  }

  // Marking a live bucket deleted.
  lemma Dropped<K, V>(hash: K -> nat, h: Header, slots: seq<Slot>, keys: seq<K>, vals: seq<V>, at: map<K, nat>,
                      all: map<K, V>, x: nat)
    requires WellFormed(hash, h, slots, keys, at) && |vals| == |slots| && Holds(vals, at, all)
    requires x < |slots| && slots[x].Live?
    ensures h.size > 0
    ensures WellFormed(hash, h.(size := h.size - 1), slots[x := Deleted], keys, at - {keys[x]})
    ensures Holds(vals, at - {keys[x]}, all - {keys[x]})
  {
    DeleteKeeps(hash, slots, keys, at, x);
    CountUpdate(slots, x, Deleted);
  }

  // What the code needs to know of a sound table.
  lemma Parts<K, V>(hash: K -> nat, h: Header, words: seq<bv32>, slots: seq<Slot>, keys: seq<K>, vals: seq<V>,
                    at: map<K, nat>, all: map<K, V>)
    requires Sound(hash, h, words, slots, keys, vals, at, all)
    ensures |slots| == |keys| == |vals| == h.nBuckets && Flags.Repr(words, slots)
    ensures Indexed(slots, keys, at) && AllReachable(hash, slots, at) && Holds(vals, at, all)
    ensures h.size == |all| == |at|
  {
    HoldsSize(vals, at, all);
  }

  lemma Unlinked<K, V>(hash: K -> nat, h: Header, words: seq<bv32>, words': seq<bv32>, slots: seq<Slot>, keys: seq<K>,
                       vals: seq<V>, at: map<K, nat>, all: map<K, V>, x: nat)
    requires Sound(hash, h, words, slots, keys, vals, at, all)
    requires x < |slots| && slots[x].Live? && |words'| == |words| && Flags.Repr(words', slots[x := Deleted])
    ensures h.size > 0 && |keys| == |slots|
    ensures Sound(hash, h.(size := h.size - 1), words', slots[x := Deleted], keys, vals,
                  at - {keys[x]}, all - {keys[x]})
  {
    Dropped(hash, h, slots, keys, vals, at, all, x);
  }

  lemma Placed<K, V>(hash: K -> nat, h: Header, words: seq<bv32>, words': seq<bv32>, slots: seq<Slot>, keys: seq<K>,
                     vals: seq<V>, at: map<K, nat>, all: map<K, V>, key: K, x: nat)
    requires Sound(hash, h, words, slots, keys, vals, at, all)
    requires x < |slots| && !slots[x].Live? && Reachable(slots, hash(key), x) && key !in at
    requires h.nBuckets < TWO_31 ==> h.nOccupied < h.upperBound
    requires |words'| == |words| && Flags.Repr(words', slots[x := Live])
    ensures |slots| == |keys| == |vals|
    ensures Sound(hash, h.(size := h.size + 1, nOccupied := h.nOccupied + 1 - UsedBit(slots[x])),
                  words', slots[x := Live], keys[x := key], vals, at[key := x], all[key := vals[x]])
  {
    Entered(hash, h, slots, keys, vals, at, all, key, x);
  }

  // The counters after a conversion.
  lemma Converted<K, V>(hash: K -> nat, m: nat, words: seq<bv32>, slots: seq<Slot>, keys: seq<K>, vals: seq<V>,
                        at: map<K, nat>, all: map<K, V>)
    requires IsPow2(m) && 4 <= m <= TWO_31 && |all| < UpperBound(m)
    requires |words| == Fsize(m) && |slots| == |keys| == |vals| == m && Flags.Repr(words, slots)
    requires Indexed(slots, keys, at) && AllReachable(hash, slots, at) && Holds(vals, at, all)
    requires CountLive(slots) == CountUsed(slots) == |at|
    ensures Sound(hash, Header(m, |all|, |all|, UpperBound(m)), words, slots, keys, vals, at, all)
  {
    HoldsSize(vals, at, all);
  }

  // Writing the value of a live bucket changes the value of its key alone.
  lemma Revalued<K, V>(hash: K -> nat, h: Header, slots: seq<Slot>, keys: seq<K>, vals: seq<V>, at: map<K, nat>,
                       all: map<K, V>, x: nat, v: V)
    requires WellFormed(hash, h, slots, keys, at) && |vals| == |slots| && Holds(vals, at, all)
    requires x < |slots| && slots[x].Live?
    ensures keys[x] in all && all[keys[x]] == vals[x]
    ensures Holds(vals[x := v], at, all[keys[x] := v])
  {
    assert at[keys[x]] == x;
    assert all[keys[x] := v].Keys == at.Keys;
  }

  // A table of nothing but other keys has 2^31 live buckets.
  lemma OnlyFullAtTop<K>(hash: K -> nat, h: Header, slots: seq<Slot>, keys: seq<K>, at: map<K, nat>, key: K)
    requires WellFormed(hash, h, slots, keys, at) && h.nBuckets != 0
    requires forall i: nat :: i < |slots| ==> slots[i].Live? && keys[i] != key
    ensures h.nBuckets == TWO_31 == |at| && key !in at
  {
    AllLive(slots);
    LoadBound(h.nBuckets);
  }

  // Below the largest size every walk meets an empty bucket before it has gone
  // round, so the wrap-around exits of kh_get and kh_put are never taken.
  lemma WalkMeetsEmpty<K>(hash: K -> nat, h: Header, slots: seq<Slot>, keys: seq<K>, at: map<K, nat>, start: nat)
    returns (s: nat)
    requires WellFormed(hash, h, slots, keys, at) && 0 < h.nBuckets < TWO_31
    ensures s < h.nBuckets && slots[Probe(start, s, h.nBuckets)].Empty?
    ensures h.size <= h.nOccupied <= h.upperBound < h.nBuckets
  {
    LoadBound(h.nBuckets);
    var hole := EmptySlot(slots);
    var e: nat :| h.nBuckets == Pow2(e);
    s := ProbeCovers(start, e, hole);
  }

  lemma Cleared<K>(hash: K -> nat, h: Header, slots: seq<Slot>, keys: seq<K>, at: map<K, nat>)
    requires WellFormed(hash, h, slots, keys, at)
    ensures WellFormed(hash, h.(size := 0, nOccupied := 0), seq(|slots|, _ => Empty), keys, map[])
  {
    AllEmptyCounts(|slots|);
    NoTombstoneCounts(seq(|slots|, _ => Empty));
  }

  method Realloc<T(0)>(a: array<T>, n: nat) returns (b: array<T>)
    ensures fresh(b) && b.Length == n
    ensures forall i :: 0 <= i < n && i < a.Length ==> b[i] == a[i]
  {
    b := new T[n];
    for i := 0 to if n < a.Length then n else a.Length
      invariant forall j :: 0 <= j < i ==> b[j] == a[j]
    {
      b[i] := a[i];
    }
  }

  // The guard of the lookup loops.
  method Passes<K(==)>(flags: array<bv32>, keys: array<K>, i: nat, key: K, ghost slots: seq<Slot>) returns (b: bool)
    requires Flags.Repr(flags[..], slots) && i < |slots| <= keys.Length
    ensures b == Passed(slots, keys[..], i, key)
  {
    var empty := IsEmpty(flags, i, slots);
    if empty { return false; }
    var del := IsDel(flags, i, slots);
    b := del || keys[i] != key;
  }

  // The loop of kh_get.
  method Lookup<K(==)>(flags: array<bv32>, keys: array<K>, n: nat, key: K, h: nat, ghost slots: seq<Slot>, ghost e: nat)
    returns (x: nat)
    requires Flags.Repr(flags[..], slots) && n == |slots| == Pow2(e) <= keys.Length
    ensures x <= n
    ensures x < n ==> slots[x].Live? && keys[x] == key
    ensures x == n ==> Missed(slots, keys[..], h, key)
  {
    ghost var ks := keys[..];
    var step := 0;
    var i := Mask(h, n);
    var last := i;
    var more := Passes(flags, keys, i, key, slots);
    while more
      invariant step < 2 * n - 1
      invariant i == Probe(h, step, n) && last == Probe(h, 0, n)
      invariant PassedUpTo(slots, ks, h, step, key)
      invariant more == Passed(slots, ks, i, key)
      decreases 2 * n - step
    {
      PassOneMore(slots, ks, h, step, key);
      i := Advance(i, step, n, h, e);
      step := step + 1;
      if i == last {
        FullCycle(slots, ks, h, e, step, key);
        return n;
      }
      more := Passes(flags, keys, i, key, slots);
    }
    var either := IsEither(flags, i, slots);
    x := if either then n else i;
  }

  // The loop of kh_put: the bucket of the key if it is there, else the last
  // deleted bucket passed, else the empty bucket that ended the walk.
  method Site<K(==)>(flags: array<bv32>, keys: array<K>, n: nat, key: K, h: nat, ghost slots: seq<Slot>, ghost e: nat)
    returns (x: nat)
    requires Flags.Repr(flags[..], slots) && n == |slots| == Pow2(e) <= keys.Length
    ensures x < n
    ensures
      || (slots[x].Live? && keys[x] == key)
      || Free(slots, keys[..], h, key, x)
      || (slots[x].Live? && (forall i: nat :: i < n ==> slots[i].Live? && keys[i] != key))
  {
    hide Flags.Repr, SoFar, Free;
    ghost var ks := keys[..];
    ghost var r: nat := 0;
    var step := 0;
    var site: nat := n;
    var i := Mask(h, n);
    x := n;
    assert i == Probe(h, 0, n);
    SoFarStart(slots, ks, h, key);
    var empty := IsEmpty(flags, i, slots);
    if empty {
      SoFarEnds(slots, ks, h, e, key, 0, n, 0);
      x := i;
    } else {
      var last := i;
      var more := Passes(flags, keys, i, key, slots);
      while more
        invariant step < 2 * n - 1
        invariant i == Probe(h, step, n) && last == Probe(h, 0, n)
        invariant SoFar(slots, ks, h, key, step, site, r) && site <= n
        invariant more == Passed(slots, ks, i, key)
        invariant x == n
        decreases 2 * n - step
      {
        SoFarNext(slots, ks, h, e, key, step, site, r);
        var del := IsDel(flags, i, slots);
        if del { site, r := i, step; }
        i := Advance(i, step, n, h, e);
        step := step + 1;
        if i == last {
          SoFarRound(slots, ks, h, e, key, step, site, r);
          x := site;
          break;
        }
        more := Passes(flags, keys, i, key, slots);
      }
      if x == n {
        empty := IsEmpty(flags, i, slots);
        if empty { SoFarEnds(slots, ks, h, e, key, step, site, r); }
        x := if empty && site != n then site else i;
      }
    }
  }

  // The innermost loop of kh_resize: an empty new bucket, with none before it.
  method FindEmpty(flags: array<bv32>, n: nat, h: nat, ghost slots: seq<Slot>, ghost e: nat) returns (i: nat)
    requires Flags.Repr(flags[..], slots) && n == |slots| == Pow2(e)
    requires CountUsed(slots) < n
    ensures i < n && slots[i].Empty? && Reachable(slots, h, i)
  {
    ghost var hole := EmptySlot(slots);
    ghost var stop := ProbeCovers(h, e, hole);
    i := Mask(h, n);
    var step := 0;
    var empty := IsEmpty(flags, i, slots);
    while !empty
      invariant step <= stop < n && i == Probe(h, step, n)
      invariant forall t: nat :: t < step ==> !slots[Probe(h, t, n)].Empty?
      invariant empty == slots[i].Empty?
      decreases stop - step
    {
      i := Advance(i, step, n, h, e);
      step := step + 1;
      empty := IsEmpty(flags, i, slots);
    }
    assert ReachVia(slots, h, i, step);
  }

  // The arrays of a rehash are four different objects.
  ghost predicate Apart<K, V>(flags: array<bv32>, newFlags: array<bv32>, keys: array<K>, vals: array<V>) {
    && flags != newFlags && keys as object != vals
    && flags as object != keys && flags as object != vals
    && newFlags as object != keys && newFlags as object != vals
  }

  // One round of the kick-out loop of kh_resize: place the entry in hand, and
  // take in hand the old entry of that bucket if there was one.
  method PlaceOne<K, V>(hash: K -> nat, flags: array<bv32>, newFlags: array<bv32>, keys: array<K>, vals: array<V>,
                        n: nat, m: nat, key0: K, val0: V, ghost t0: Half<K, V>, ghost all: map<K, V>, ghost e: nat)
    returns (kick: bool, key: K, val: V, ghost t: Half<K, V>)
    requires Apart(flags, newFlags, keys, vals)
    requires Flags.Repr(flags[..], t0.os) && |t0.os| == n
    requires Flags.Repr(newFlags[..], t0.ns) && |t0.ns| == m == Pow2(e)
    requires Rehashing(hash, t0, keys[..], vals[..], all) && t0.hand == Holding(key0, val0)
    requires |all| < m
    modifies flags, newFlags, keys, vals
    ensures Flags.Repr(flags[..], t.os) && Flags.Repr(newFlags[..], t.ns)
    ensures |t.os| == n && |t.ns| == m
    ensures Rehashing(hash, t, keys[..], vals[..], all)
    ensures t.hand == if kick then Holding(key, val) else Nothing
    ensures if kick then CountLive(t.os) < CountLive(t0.os) else t.os == t0.os
    ensures forall i :: 0 <= i < n && t.os[i].Live? ==> t0.os[i].Live?
  {
    hide Rehashing, CountLive, CountUsed, Flags.Repr;
    ghost var ks, vs := keys[..], vals[..];
    RoomLeft(hash, t0, ks, vs, all);
    var i := FindEmpty(newFlags, m, hash(key0), t0.ns, e);
    SetIsemptyFalse(newFlags, i, t0.ns);
    kick := false;
    if i < n {
      var either := IsEither(flags, i, t0.os);
      kick := !either;
    }
    key, val := key0, val0;
    if kick {
      key, val := keys[i], vals[i];
      KickOut(hash, t0, ks, vs, all, i);
      CountUpdate(t0.os, i, Deleted);
      SetIsdelTrue(flags, i, t0.os);
      t := Swap(t0, i, key, val);
    } else {
      PutDown(hash, t0, ks, vs, all, i);
      t := Drop(t0, i);
    }
    keys[i] := key0;
    vals[i] := val0;
    assert keys[..] == ks[i := key0] && vals[..] == vs[i := val0];
  }

  // The kick-out loop of kh_resize.  It ends because every kick leaves one old
  // entry fewer.
  method PlaceChain<K, V>(hash: K -> nat, flags: array<bv32>, newFlags: array<bv32>, keys: array<K>, vals: array<V>,
                          n: nat, m: nat, key0: K, val0: V, ghost t0: Half<K, V>, ghost all: map<K, V>, ghost e: nat)
    returns (ghost t: Half<K, V>)
    requires Apart(flags, newFlags, keys, vals)
    requires Flags.Repr(flags[..], t0.os) && |t0.os| == n
    requires Flags.Repr(newFlags[..], t0.ns) && |t0.ns| == m == Pow2(e)
    requires Rehashing(hash, t0, keys[..], vals[..], all) && t0.hand == Holding(key0, val0)
    requires |all| < m
    modifies flags, newFlags, keys, vals
    ensures Flags.Repr(flags[..], t.os) && Flags.Repr(newFlags[..], t.ns)
    ensures |t.os| == n && |t.ns| == m
    ensures Rehashing(hash, t, keys[..], vals[..], all) && t.hand.Nothing?
    ensures forall i :: 0 <= i < n && t.os[i].Live? ==> t0.os[i].Live?
  {
    t := t0;
    var kick, key, val := true, key0, val0;
    while kick
      invariant Flags.Repr(flags[..], t.os) && Flags.Repr(newFlags[..], t.ns)
      invariant |t.os| == n && |t.ns| == m
      invariant Rehashing(hash, t, keys[..], vals[..], all)
      invariant t.hand == if kick then Holding(key, val) else Nothing
      invariant forall i :: 0 <= i < n && t.os[i].Live? ==> t0.os[i].Live?
      decreases CountLive(t.os), kick
    {
      kick, key, val, t := PlaceOne(hash, flags, newFlags, keys, vals, n, m, key, val, t, all, e);
    }
  }

  // One round of the rehash loop of kh_resize: empty old bucket j.
  method MoveOut<K, V>(hash: K -> nat, flags: array<bv32>, newFlags: array<bv32>, keys: array<K>, vals: array<V>,
                       n: nat, m: nat, j: nat, ghost t0: Half<K, V>, ghost all: map<K, V>, ghost e: nat)
    returns (ghost t: Half<K, V>)
    requires Apart(flags, newFlags, keys, vals)
    requires Flags.Repr(flags[..], t0.os) && j < |t0.os| == n
    requires Flags.Repr(newFlags[..], t0.ns) && |t0.ns| == m == Pow2(e)
    requires Rehashing(hash, t0, keys[..], vals[..], all) && t0.hand.Nothing?
    requires |all| < m && NoneLiveBelow(t0.os, j)
    modifies flags, newFlags, keys, vals
    ensures Flags.Repr(flags[..], t.os) && Flags.Repr(newFlags[..], t.ns)
    ensures |t.os| == n && |t.ns| == m
    ensures Rehashing(hash, t, keys[..], vals[..], all) && t.hand.Nothing?
    ensures NoneLiveBelow(t.os, j + 1)
  {
    hide CountLive, CountUsed, Flags.Repr, AllReachable, Holds;
    t := t0;
    var either := IsEither(flags, j, t.os);
    if !either {
      var key, val := keys[j], vals[j];
      PickUp(hash, t, keys[..], vals[..], all, j);
      SetIsdelTrue(flags, j, t.os);
      t := Lift(t, j, key, val);
      t := PlaceChain(hash, flags, newFlags, keys, vals, n, m, key, val, t, all, e);
    }
    NoneLiveNext(t0.os, t.os, j);
  }

  // The rehash loop of kh_resize, over old buckets 0 .. n-1.
  method Rehash<K, V>(hash: K -> nat, flags: array<bv32>, newFlags: array<bv32>, keys: array<K>, vals: array<V>,
                      n: nat, m: nat, ghost slots: seq<Slot>, ghost at: map<K, nat>, ghost all: map<K, V>, ghost e: nat)
    returns (ghost t: Half<K, V>)
    requires Apart(flags, newFlags, keys, vals)
    requires Flags.Repr(flags[..], slots) && |slots| == n
    requires Flags.Repr(newFlags[..], seq(m, _ => Empty)) && m == Pow2(e)
    requires keys.Length == vals.Length && n <= keys.Length && m <= keys.Length
    requires Indexed(slots, keys[..], at) && Holds(vals[..], at, all)
    requires |all| < m
    modifies flags, newFlags, keys, vals
    ensures Flags.Repr(newFlags[..], t.ns) && |t.ns| == m
    ensures Indexed(t.ns, keys[..], t.newAt) && AllReachable(hash, t.ns, t.newAt) && Holds(vals[..], t.newAt, all)
    ensures forall i :: 0 <= i < m ==> !t.ns[i].Deleted?
    ensures CountLive(t.ns) == CountUsed(t.ns) == |t.newAt|
  {
    t := Half(slots, seq(m, _ => Empty), at, map[], Nothing);
    StartRehash(hash, slots, keys[..], vals[..], at, all, m);
    for j := 0 to n
      invariant Flags.Repr(flags[..], t.os) && |t.os| == n
      invariant Flags.Repr(newFlags[..], t.ns) && |t.ns| == m
      invariant Rehashing(hash, t, keys[..], vals[..], all) && t.hand.Nothing?
      invariant NoneLiveBelow(t.os, j)
    {
      t := MoveOut(hash, flags, newFlags, keys, vals, n, m, j, t, all, e);
    }
    EndRehash(hash, t, keys[..], vals[..], all);
  }

  // The body of kh_resize once the request is accepted: fresh flag words, the
  // two arrays grown before the rehash or cut after it.
  method Convert<K(0), V(0)>(hash: K -> nat, flags: array<bv32>, keys0: array<K>, vals0: array<V>, n: nat, m: nat,
                             ghost slots: seq<Slot>, ghost at: map<K, nat>, ghost all: map<K, V>)
    returns (newFlags: array<bv32>, keys: array<K>, vals: array<V>, ghost ns: seq<Slot>, ghost newAt: map<K, nat>)
    requires keys0 as object != vals0 && flags as object != keys0 && flags as object != vals0
    requires Flags.Repr(flags[..], slots) && |slots| == n == keys0.Length == vals0.Length
    requires IsPow2(m)
    requires Indexed(slots, keys0[..], at) && Holds(vals0[..], at, all)
    requires |all| < m
    modifies flags, keys0, vals0
    ensures fresh(newFlags) && (keys == keys0 || fresh(keys)) && (vals == vals0 || fresh(vals))
    ensures newFlags as object != keys && newFlags as object != vals && keys as object != vals
    ensures newFlags.Length == Fsize(m) && keys.Length == vals.Length == |ns| == m
    ensures Flags.Repr(newFlags[..], ns)
    ensures Indexed(ns, keys[..], newAt) && AllReachable(hash, ns, newAt) && Holds(vals[..], newAt, all)
    ensures forall i :: 0 <= i < m ==> !ns[i].Deleted?
    ensures CountLive(ns) == CountUsed(ns) == |newAt|
  {
    hide Indexed, AllReachable, Holds, CountLive, CountUsed, Flags.Repr, Fsize;
    ghost var e: nat :| m == Pow2(e);
    PowerCoversWords(e);
    newFlags := new bv32[Fsize(m)];
    Fill(newFlags, m);
    keys, vals := keys0, vals0;
    if n < m {
      keys := Realloc(keys0, m);
      vals := Realloc(vals0, m);
      SamePrefix(slots, keys0[..], keys[..], vals0[..], vals[..], at, all);
    }
    ghost var t := Rehash(hash, flags, newFlags, keys, vals, n, m, slots, at, all, e);
    ns, newAt := t.ns, t.newAt;
    if n > m {
      ghost var ks, vs := keys[..], vals[..];
      keys := Realloc(keys, m);
      vals := Realloc(vals, m);
      SamePrefix(ns, ks, keys[..], vs, vals[..], newAt, all);
    }
  }

  // Each entry of the map, once.
  ghost predicate Enumerates<K, V>(es: seq<(K, V)>, m: map<K, V>) {
    && (forall i, j :: 0 <= i < j < |es| ==> es[i].0 != es[j].0)
    && (forall i :: 0 <= i < |es| ==> es[i].0 in m && es[i].1 == m[es[i].0])
    && (forall k :: k in m ==> exists i :: 0 <= i < |es| && es[i].0 == k)
  }

  // The entries of the buckets below i, and the place of each key among them.
  ghost predicate Listed<K, V>(es: seq<(K, V)>, seen: map<K, nat>, at: map<K, nat>, all: map<K, V>, i: nat) {
    && (forall k :: k in at && at[k] < i ==> k in seen)
    && (forall k :: k in seen ==> k in at && at[k] < i && seen[k] < |es| && es[seen[k]].0 == k)
    && (forall j :: 0 <= j < |es| ==> es[j].0 in seen && seen[es[j].0] == j)
    && (forall j :: 0 <= j < |es| ==> es[j].0 in all && es[j].1 == all[es[j].0])
    && (forall j, l :: 0 <= j < l < |es| ==> at[es[j].0] < at[es[l].0])
  }

  lemma ListedNone<K, V>(at: map<K, nat>, all: map<K, V>)
    ensures Listed([], map[], at, all, 0)
  {}

  lemma ListedNext<K, V>(es: seq<(K, V)>, seen: map<K, nat>, at: map<K, nat>, all: map<K, V>, i: nat, key: K)
    requires Listed(es, seen, at, all, i) && key in at && at[key] == i && key in all
    requires forall k :: k in at && at[k] == i ==> k == key
    ensures Listed(es + [(key, all[key])], seen[key := |es|], at, all, i + 1)
  {}

  lemma ListedSkip<K, V>(es: seq<(K, V)>, seen: map<K, nat>, at: map<K, nat>, all: map<K, V>, i: nat)
    requires Listed(es, seen, at, all, i) && forall k :: k in at ==> at[k] != i
    ensures Listed(es, seen, at, all, i + 1)
  {}

  lemma ListedAll<K, V>(es: seq<(K, V)>, seen: map<K, nat>, at: map<K, nat>, all: map<K, V>, n: nat)
    requires Listed(es, seen, at, all, n) && at.Keys == all.Keys && forall k :: k in at ==> at[k] < n
    ensures Enumerates(es, all) && forall j, l :: 0 <= j < l < |es| ==> at[es[j].0] < at[es[l].0]
  {
    forall k | k in all
      ensures exists i :: 0 <= i < |es| && es[i].0 == k
    {
      assert k in at && es[seen[k]].0 == k;
    }
  }

  // The return code of kh_put, from what the bucket was.
  function Code(s: Slot): int {
    match s case Live => 0 case Empty => 1 case Deleted => 2
  }

  // The code, and the choice of the bucket, of a kh_put that resizes nothing.
  ghost predicate PutInto<K>(slots: seq<Slot>, keys: seq<K>, h: nat, key: K, x: nat, ret: int) {
    x < |slots| && ret == Code(slots[x]) && (ret != 0 ==> |slots| <= |keys| && Free(slots, keys, h, key, x))
  }

  // Whether kh_put leaves the buckets as they are, and how many there are then.
  predicate Stays(h: Header) {
    h.nOccupied < h.upperBound || (h.nBuckets == TWO_31 && h.nBuckets <= 2 * h.size)
  }

  function Roomier(h: Header): nat {
    if h.nBuckets == 0 then 4
    else if Stays(h) || h.nBuckets > 2 * h.size then h.nBuckets
    else 2 * h.nBuckets
  }

  class Table<K(==,0), V(0)> {
    const hash: K -> nat

    var nBuckets: nat
    var size: nat
    var nOccupied: nat
    var upperBound: nat
    var flags: array<bv32>
    var keys: array<K>
    var vals: array<V>

    ghost var slots: seq<Slot>      // the bucket states the flag words stand for
    ghost var at: map<K, nat>       // the bucket of each key
    ghost var contents: map<K, V>   // the map the table stands for

    ghost function Repr(): set<object>
      reads this
    {
      {this, flags, keys, vals}
    }

    ghost function Counters(): Header
      reads this
    {
      Header(nBuckets, size, nOccupied, upperBound)
    }

    ghost predicate Valid()
      reads this, flags, keys, vals
    {
      && flags as object != keys && flags as object != vals && keys as object != vals
      && keys.Length == vals.Length == |slots| == nBuckets
      && Sound(hash, Counters(), flags[..], slots, keys[..], vals[..], at, contents)
    }

    lemma SizeIsCardinality()
      requires Valid()
      ensures size == |contents|
      ensures contents.Keys == at.Keys
    {
      HoldsSize(vals[..], at, contents);
    }

    constructor (hash: K -> nat)
      ensures Valid() && fresh(Repr())
      ensures contents == map[] && nBuckets == 0 && this.hash == hash
    {
      this.hash := hash;
      nBuckets, size, nOccupied, upperBound := 0, 0, 0, 0;
      flags, keys, vals := new bv32[0], new K[0], new V[0];
      slots, at, contents := [], map[], map[];
    }

    // kh_get
    method Get(key: K) returns (x: nat)
      requires Valid()
      ensures x == if key in at then at[key] else nBuckets
      ensures x <= nBuckets && (x < nBuckets <==> key in contents)
      ensures x < nBuckets ==> slots[x].Live? && keys[x] == key && vals[x] == contents[key]
    {
      if nBuckets == 0 { return 0; }
      ghost var e: nat :| nBuckets == Pow2(e);
      x := Lookup(flags, keys, nBuckets, key, hash(key), slots, e);
      if x == nBuckets { MissedIsAbsent(hash, slots, keys[..], at, key); }
    }

    // The accepted branch of kh_resize.
    method Reshape(m: nat)
      requires Valid() && IsPow2(m) && 4 <= m <= TWO_31 && size < UpperBound(m)
      modifies this, flags, keys, vals
      ensures Valid() && fresh(Repr() - old(Repr()))
      ensures contents == old(contents) && size == old(size)
      ensures nBuckets == m && nOccupied == size
      ensures forall i :: 0 <= i < nBuckets ==> !slots[i].Deleted?
    {
      hide Sound, Indexed, AllReachable, Holds, Flags.Repr, Fsize, CountLive, CountUsed, IsPow2, UpperBound;
      ghost var all := contents;
      Parts(hash, Counters(), flags[..], slots, keys[..], vals[..], at, all);
      LoadBound(m);
      var newFlags, newKeys, newVals;
      ghost var ns, newAt;
      newFlags, newKeys, newVals, ns, newAt := Convert(hash, flags, keys, vals, nBuckets, m, slots, at, all);
      Converted(hash, m, newFlags[..], ns, newKeys[..], newVals[..], newAt, all);
      Adopt(m, newFlags, newKeys, newVals, ns, newAt);
    }

    // The end of kh_resize: the converted arrays become those of the table.
    method Adopt(m: nat, newFlags: array<bv32>, newKeys: array<K>, newVals: array<V>,
                 ghost ns: seq<Slot>, ghost newAt: map<K, nat>)
      requires newFlags as object != newKeys && newFlags as object != newVals && newKeys as object != newVals
      requires newKeys.Length == newVals.Length == |ns| == m
      requires Sound(hash, Header(m, size, size, UpperBound(m)), newFlags[..], ns, newKeys[..], newVals[..],
                     newAt, contents)
      modifies this
      ensures Valid() && flags == newFlags && keys == newKeys && vals == newVals && slots == ns
      ensures contents == old(contents) && size == old(size) && nBuckets == m && nOccupied == size
    {
      hide Sound, UpperBound;
      flags, keys, vals, slots, at := newFlags, newKeys, newVals, ns, newAt;
      nBuckets := m;
      nOccupied := size;
      upperBound := UpperBound(m);
      assert flags[..] == newFlags[..] && keys[..] == newKeys[..] && vals[..] == newVals[..];
    }

    // kh_resize.  The map never changes; the request is refused exactly when the
    // table would be over its load limit, and then nothing else changes either.
    method Resize(request: nat)
      requires Valid() && request < TWO_32
      modifies this, flags, keys, vals
      ensures Valid() && fresh(Repr() - old(Repr()))
      ensures contents == old(contents) && size == old(size)
      ensures if old(size) >= UpperBound(Capacity(request))
              then unchanged(this) && unchanged(flags) && unchanged(keys) && unchanged(vals)
              else nBuckets == Capacity(request) && nOccupied == size &&
                   forall i :: 0 <= i < nBuckets ==> !slots[i].Deleted?
    {
      CapacityShape(request);
      var m := Kroundup32(request);
      if m < 4 { m := 4; }
      if size < UpperBound(m) {
        Reshape(m);
      }
    }

    lemma Counts()
      requires Valid()
      ensures size <= nOccupied <= nBuckets <= TWO_31 && upperBound == UpperBound(nBuckets)
      ensures if nBuckets == 0 then upperBound == 0 else nBuckets >= 4
      ensures 0 < nBuckets < TWO_31 ==> nOccupied <= upperBound
    {}

    ghost predicate Clean()
      reads this
    {
      forall i :: 0 <= i < |slots| ==> !slots[i].Deleted?
    }

    // The resize at the head of kh_put: at the load limit, clear the tombstones if
    // under half of the buckets are live, else double.  The double of the size
    // wraps at 2^31 live buckets; nothing is resized then.
    method MakeRoom()
      requires Valid()
      modifies this, flags, keys, vals
      ensures Valid() && fresh(Repr() - old(Repr()))
      ensures contents == old(contents) && size == old(size)
      ensures nBuckets > 0
      ensures nBuckets == Roomier(old(Counters()))
      ensures if old(Stays(Counters())) then slots == old(slots) && keys == old(keys) && keys[..] == old(keys[..])
              else Clean()
      ensures nBuckets < TWO_31 ==> nOccupied < upperBound
    {
      hide Valid, UpperBound, Capacity, Kroundup32;
      Counts();
      if nOccupied >= upperBound {
        NewCapacity();
        if nBuckets > 2 * size % TWO_32 {
          Resize(nBuckets - 1);
        } else {
          Resize(nBuckets + 1);
        }
        Counts();
      }
    }

    // What the two requests of kh_put come to.
    lemma NewCapacity()
      requires Valid()
      ensures nBuckets + 1 < TWO_32
      ensures nBuckets == 0 ==> Capacity(1) == 4 && UpperBound(4) > 0
      ensures nBuckets > 0 ==>
                && Capacity(nBuckets - 1) == nBuckets
                && Capacity(nBuckets + 1) == (if nBuckets < TWO_31 then 2 * nBuckets else 4)
                && nBuckets < 2 * UpperBound(nBuckets) && UpperBound(nBuckets) < UpperBound(2 * nBuckets)
    {
      if nBuckets > 0 {
        Neighbours();
        LoadBound(nBuckets);
      } else {
        RoundedOne();
      }
    }

    // What kh_put relies on: n - 1 rounds back to n, and n + 1 to 2n or, at
    // the top of the range, to a request that is refused.
    lemma Neighbours()
      requires Valid() && nBuckets > 0
      ensures 4 <= nBuckets && nBuckets + 1 < TWO_32
      ensures Capacity(nBuckets - 1) == nBuckets
      ensures Capacity(nBuckets + 1) == if nBuckets < TWO_31 then 2 * nBuckets else 4
    {
      var e: nat :| nBuckets == Pow2(e);
      Pow2Bounds();
      Pow2Order(e, 1);
      Pow2Order(32, e);
      Pow2Order(e, 30);
      RoundsBelow(e);
      RoundsAbove(e);
    }

    // The end of kh_put when the bucket is free: enter the key there.
    method Enter(key: K, x: nat, empty: bool)
      requires Valid()
      requires x < nBuckets && !slots[x].Live? && empty == slots[x].Empty?
      requires key !in at && Reachable(slots, hash(key), x)
      requires nBuckets < TWO_31 ==> nOccupied < upperBound
      modifies this`size, this`nOccupied, this`slots, this`at, this`contents, flags, keys
      ensures Valid() && slots[x].Live? && keys[x] == key
      ensures slots == old(slots)[x := Live]
      ensures contents == old(contents)[key := vals[x]]
    {
      hide Sound, Flags.Repr, Reachable;
      ghost var ws, ks, vs, h := flags[..], keys[..], vals[..], Counters();
      Parts(hash, h, ws, slots, ks, vs, at, contents);
      SetIsbothFalse(flags, x, slots);
      Placed(hash, h, ws, flags[..], slots, ks, vs, at, contents, key, x);
      ghost var ws' := flags[..];
      keys[x] := key;
      size := size + 1;
      if empty {
        nOccupied := nOccupied + 1;
      }
      slots, at, contents := slots[x := Live], at[key := x], contents[key := vs[x]];
      assert flags[..] == ws' && keys[..] == ks[x := key] && vals[..] == vs;
      assert Counters() == h.(size := h.size + 1, nOccupied := h.nOccupied + if empty then 1 else 0);
    }

    // kh_put after the resize: find the bucket and enter the key there.  The
    // value of a new key is whatever the bucket held.  The one state in which
    // this misbehaves is a table of 2^31 live buckets: a new key is then given
    // the bucket of some other key.
    method PutInRoom(key: K) returns (x: nat, ret: int)
      requires Valid() && nBuckets > 0
      requires nBuckets < TWO_31 ==> nOccupied < upperBound
      modifies this`size, this`nOccupied, this`slots, this`at, this`contents, flags, keys
      ensures Valid() && x < nBuckets == |old(slots)| && slots[x].Live?
      ensures ret == 0 <==> key in old(contents) || |old(contents)| == TWO_31
      ensures ret == Code(old(slots)[x])
      ensures ret != 0 ==> |slots| <= |old(keys[..])| && Free(old(slots), old(keys[..]), hash(key), key, x)
      ensures slots == old(slots)[x := Live]
      ensures if key in old(contents) || |old(contents)| < TWO_31
              then keys[x] == key && contents == old(contents)[key := vals[x]]
              else keys[x] != key && contents == old(contents)
    {
      hide Flags.Repr, Indexed, AllReachable, CountLive, CountUsed;
      SizeIsCardinality();
      ghost var e: nat :| nBuckets == Pow2(e);
      x := Site(flags, keys, nBuckets, key, hash(key), slots, e);
      var empty := IsEmpty(flags, x, slots);
      var del := IsDel(flags, x, slots);
      if empty || del {
        MissedIsAbsent(hash, slots, keys[..], at, key);
        NotFull(x);
        Enter(key, x, empty);
        ret := if empty then 1 else 2;
      } else {
        Revalued(hash, Counters(), slots, keys[..], vals[..], at, contents, x, vals[x]);
        if keys[x] != key { OnlyFullAtTop(hash, Counters(), slots, keys[..], at, key); }
        ret := 0;
      }
    }

    // kh_put
    method Put(key: K) returns (x: nat, ret: int)
      requires Valid()
      modifies this, flags, keys, vals
      ensures Valid() && fresh(Repr() - old(Repr()))
      ensures x < nBuckets && slots[x].Live?
      ensures nBuckets == Roomier(old(Counters()))
      ensures ret == 0 <==> key in old(contents) || |old(contents)| == TWO_31
      ensures if old(Stays(Counters())) then PutInto(old(slots), old(keys[..]), hash(key), key, x, ret)
              else ret == if key in old(contents) then 0 else 1
      ensures old(Clean()) ==> ret != 2
      ensures if key in old(contents) || |old(contents)| < TWO_31
              then keys[x] == key && contents == old(contents)[key := vals[x]]
              else keys[x] != key && contents == old(contents)
    {
      hide Free, Sound;
      Counts();
      SizeIsCardinality();
      MakeRoom();
      x, ret := PutInRoom(key);
    }

    lemma NotFull(x: nat)
      requires Valid() && x < nBuckets && !slots[x].Live?
      ensures |contents| < TWO_31
    {
      SizeIsCardinality();
      AllLive(slots);
    }

    // A live bucket holds a key of the map with its value.
    lemma LiveHolds(x: nat)
      requires Valid() && x < nBuckets && slots[x].Live?
      ensures x < keys.Length == vals.Length
      ensures keys[x] in contents && contents[keys[x]] == vals[x] && keys[x] in at && at[keys[x]] == x
    {
      SizeIsCardinality();
    }

    // kh_del
    method Del(x: nat)
      requires Valid() && x <= nBuckets
      modifies this`size, this`slots, this`at, this`contents, flags
      ensures Valid()
      ensures contents == if x < nBuckets && old(slots[x].Live?) then old(contents) - {keys[x]}
                               else old(contents)
    {
      hide Indexed, AllReachable, Holds, Flags.Repr, Fsize, IsPow2, UpperBound, CountLive, CountUsed;
      if x != nBuckets {
        var either := IsEither(flags, x, slots);
        if !either {
          Unlink(x);
        }
      }
    }

    // What kh_del does to a live bucket.
    method Unlink(x: nat)
      requires Valid() && x < nBuckets && slots[x].Live?
      modifies this`size, this`slots, this`at, this`contents, flags
      ensures Valid()
      ensures contents == old(contents) - {keys[x]}
    {
      hide Sound, Flags.Repr;
      ghost var ws, ks, vs, c := flags[..], keys[..], vals[..], Counters();
      Parts(hash, c, ws, slots, ks, vs, at, contents);
      SetIsdelTrue(flags, x, slots);
      Unlinked(hash, c, ws, flags[..], slots, ks, vs, at, contents, x);
      ghost var ws' := flags[..];
      size := size - 1;
      slots, at, contents := slots[x := Deleted], at - {ks[x]}, contents - {ks[x]};
      assert flags[..] == ws' && keys[..] == ks && vals[..] == vs;
    }

    // kh_clear
    method Clear()
      requires Valid()
      modifies this`size, this`nOccupied, this`slots, this`at, this`contents, flags
      ensures Valid() && contents == map[]
    {
      hide Indexed, AllReachable, Flags.Repr, CountLive, CountUsed, UpperBound, Fsize;
      if nBuckets != 0 {
        ghost var e: nat :| nBuckets == Pow2(e);
        PowerCoversWords(e);
        Fill(flags, nBuckets);
        Cleared(hash, Counters(), slots, keys[..], at);
        slots, at, contents := seq(nBuckets, _ => Empty), map[], map[];
        size, nOccupied := 0, 0;
      }
    }

    // kh_value(h, x) = value
    method SetValue(x: nat, value: V)
      requires Valid() && x < nBuckets && slots[x].Live?
      modifies this`slots, this`at, this`contents, vals
      ensures Valid() && keys[x] in old(contents) && vals[x] == value
      ensures contents == old(contents)[keys[x] := value]
    {
      ghost var ks, vs := keys[..], vals[..];
      Revalued(hash, Counters(), slots, ks, vs, at, contents, x, value);
      vals[x] := value;
      contents := contents[ks[x] := value];
      assert vals[..] == vs[x := value] && keys[..] == ks;
    }

    // Hash_Add.  A new key for a table of 2^31 loses the value of another.
    method Add(key: K, value: V) returns (x: nat)
      requires Valid()
      modifies this, flags, keys, vals
      ensures Valid() && fresh(Repr() - old(Repr()))
      ensures x < nBuckets == keys.Length == vals.Length && vals[x] == value
      ensures contents == old(contents)[keys[x] := value]
      ensures if key in old(contents) || |old(contents)| < TWO_31 then keys[x] == key
              else keys[x] != key && keys[x] in old(contents)
    {
      hide Valid;
      var ret;
      x, ret := Put(key);
      SetValue(x, value);
    }

    // Hash_Find
    method Find(key: K) returns (value: Option<V>)
      requires Valid()
      ensures value == if key in contents then Some(contents[key]) else None
    {
      var x := Get(key);
      value := if x != nBuckets then Some(vals[x]) else None;
    }

    // kh_foreach: the live buckets in order
    method Entries() returns (es: seq<(K, V)>)
      requires Valid()
      ensures Enumerates(es, contents) && at.Keys == contents.Keys
      ensures forall j, l :: 0 <= j < l < |es| ==> at[es[j].0] < at[es[l].0]
    {
      hide Sound, Holds, AllReachable, Flags.Repr, Listed;
      SizeIsCardinality();
      Parts(hash, Counters(), flags[..], slots, keys[..], vals[..], at, contents);
      es := [];
      ghost var seen: map<K, nat> := map[];
      ListedNone(at, contents);
      for i := 0 to nBuckets
        invariant Listed(es, seen, at, contents, i)
      {
        var either := IsEither(flags, i, slots);
        if !either {
          LiveHolds(i);
          ListedNext(es, seen, at, contents, i, keys[i]);
          seen := seen[keys[i] := |es|];
          es := es + [(keys[i], vals[i])];
        } else {
          ListedSkip(es, seen, at, contents, i);
        }
      }
      ListedAll(es, seen, at, contents, nBuckets);
    }

    // Hash_Delete
    method Delete(key: K)
      requires Valid()
      modifies this`size, this`slots, this`at, this`contents, flags
      ensures Valid() && contents == old(contents) - {key}
    {
      hide Indexed, AllReachable, Holds, Flags.Repr, Fsize, IsPow2, UpperBound, CountLive, CountUsed;
      var x := Get(key);
      Del(x);
    }
  }
}
