// The bucket array as values: which bucket holds which key, which buckets a
// lookup passes through, and the steps of the in-place rehash.

module Buckets {
  import opened Triangular
  import opened Flags

  function CountLive(slots: seq<Slot>): (c: nat)
    ensures c <= |slots|
  {
    if |slots| == 0 then 0
    else CountLive(slots[..|slots| - 1]) + if slots[|slots| - 1].Live? then 1 else 0
  }

  function CountUsed(slots: seq<Slot>): (c: nat)
    ensures CountLive(slots) <= c <= |slots|
  {
    if |slots| == 0 then 0
    else CountUsed(slots[..|slots| - 1]) + if slots[|slots| - 1].Empty? then 0 else 1
  }

  function LiveBit(s: Slot): nat { if s.Live? then 1 else 0 }
  function UsedBit(s: Slot): nat { if s.Empty? then 0 else 1 }

  lemma {:induction false} CountUpdate(slots: seq<Slot>, i: nat, v: Slot)
    requires i < |slots|
    ensures CountLive(slots[i := v]) == CountLive(slots) - LiveBit(slots[i]) + LiveBit(v)
    ensures CountUsed(slots[i := v]) == CountUsed(slots) - UsedBit(slots[i]) + UsedBit(v)
  {
    var n := |slots| - 1;
    if i == n {
      assert slots[i := v][..n] == slots[..n];
    } else {
      assert slots[i := v][..n] == slots[..n][i := v];
      CountUpdate(slots[..n], i, v);
    }
  }

  lemma {:induction false} EmptySlot(slots: seq<Slot>) returns (i: nat)
    requires CountUsed(slots) < |slots|
    ensures i < |slots| && slots[i].Empty?
  {
    i := |slots| - 1;
    if !slots[i].Empty? {
      i := EmptySlot(slots[..i]);
    }
  }

  lemma {:induction false} AllLive(slots: seq<Slot>)
    ensures CountLive(slots) == |slots| <==> forall i :: 0 <= i < |slots| ==> slots[i].Live?
  {
    if |slots| > 0 { AllLive(slots[..|slots| - 1]); }
  }

  lemma {:induction false} AllEmptyCounts(n: nat)
    ensures CountUsed(seq(n, _ => Empty)) == 0
  {
    if n > 0 {
      assert seq(n, _ => Empty)[..n - 1] == seq(n - 1, _ => Empty);
      AllEmptyCounts(n - 1);
    }
  }

  lemma {:induction false} NoTombstoneCounts(slots: seq<Slot>)
    requires forall i :: 0 <= i < |slots| ==> !slots[i].Deleted?
    ensures CountUsed(slots) == CountLive(slots)
  {
    if |slots| > 0 { NoTombstoneCounts(slots[..|slots| - 1]); }
  }

  // Bucket i is met at probe step s of hash h, with no empty bucket before it.
  ghost predicate ReachVia(slots: seq<Slot>, h: nat, i: nat, s: nat)
    requires |slots| > 0
  {
    && s < |slots|
    && Probe(h, s, |slots|) == i
    && forall t: nat :: t < s ==> !slots[Probe(h, t, |slots|)].Empty?
  }

  ghost predicate Reachable(slots: seq<Slot>, h: nat, i: nat)
    requires |slots| > 0
  {
    exists s: nat :: ReachVia(slots, h, i, s)
  }

  // `at` is the index of the live buckets by key.
  ghost predicate Indexed<K>(slots: seq<Slot>, keys: seq<K>, at: map<K, nat>) {
    && |slots| <= |keys|
    && (forall k :: k in at ==> at[k] < |slots| && slots[at[k]].Live? && keys[at[k]] == k)
    && (forall i: nat :: i < |slots| && slots[i].Live? ==> keys[i] in at && at[keys[i]] == i)
  }

  ghost predicate AllReachable<K>(hash: K -> nat, slots: seq<Slot>, at: map<K, nat>) {
    forall k {:trigger Reachable(slots, hash(k), at[k])} :: k in at ==> |slots| > 0 && Reachable(slots, hash(k), at[k])
  }

  // Filling or marking buckets never breaks a probe path; only emptying would.
  lemma ReachableKept(slots: seq<Slot>, slots': seq<Slot>, h: nat, i: nat)
    requires |slots| == |slots'| > 0
    requires forall j :: 0 <= j < |slots| && !slots[j].Empty? ==> !slots'[j].Empty?
    requires Reachable(slots, h, i)
    ensures Reachable(slots', h, i)
  {
    var s: nat :| ReachVia(slots, h, i, s);
    assert ReachVia(slots', h, i, s);
  }

  // The lookup loop goes on past deleted buckets and other keys.
  ghost predicate Passed<K>(slots: seq<Slot>, keys: seq<K>, i: nat, key: K)
    requires i < |slots| <= |keys|
  {
    slots[i].Deleted? || (slots[i].Live? && keys[i] != key)
  }

  ghost predicate PassedUpTo<K>(slots: seq<Slot>, keys: seq<K>, h: nat, step: nat, key: K)
    requires 0 < |slots| <= |keys|
  {
    forall t: nat :: t < step ==> Passed(slots, keys, Probe(h, t, |slots|), key)
  }

  lemma PassOneMore<K>(slots: seq<Slot>, keys: seq<K>, h: nat, step: nat, key: K)
    requires 0 < |slots| <= |keys|
    requires PassedUpTo(slots, keys, h, step, key)
    requires Passed(slots, keys, Probe(h, step, |slots|), key)
    ensures PassedUpTo(slots, keys, h, step + 1, key)
  {}

  // The two ways a lookup fails: it meets an empty bucket, or it has passed
  // every bucket.
  ghost predicate Missed<K>(slots: seq<Slot>, keys: seq<K>, h: nat, key: K)
    requires 0 < |slots| <= |keys|
  {
    || (exists s: nat :: PassedUpTo(slots, keys, h, s, key) && slots[Probe(h, s, |slots|)].Empty?)
    || (forall i: nat :: i < |slots| ==> Passed(slots, keys, i, key))
  }

  // On the way to a key that is there, a lookup meets no empty bucket.
  lemma PresentIsMet<K>(hash: K -> nat, slots: seq<Slot>, keys: seq<K>, at: map<K, nat>, key: K, s: nat)
    requires 0 < |slots| && Indexed(slots, keys, at) && AllReachable(hash, slots, at) && key in at
    requires PassedUpTo(slots, keys, hash(key), s, key)
    ensures !slots[Probe(hash(key), s, |slots|)].Empty?
  {
    assert Reachable(slots, hash(key), at[key]);
    var r: nat :| ReachVia(slots, hash(key), at[key], r);
    assert s <= r;
  }

  // A failed lookup has proved the key absent.
  lemma MissedIsAbsent<K>(hash: K -> nat, slots: seq<Slot>, keys: seq<K>, at: map<K, nat>, key: K)
    requires 0 < |slots| && Indexed(slots, keys, at) && AllReachable(hash, slots, at)
    requires Missed(slots, keys, hash(key), key)
    ensures key !in at
  {
    hide AllReachable, PassedUpTo;
    if key in at {
      assert !Passed(slots, keys, at[key], key);
      forall s: nat | PassedUpTo(slots, keys, hash(key), s, key)
        ensures !slots[Probe(hash(key), s, |slots|)].Empty?
      {
        PresentIsMet(hash, slots, keys, at, key, s);
      }
    }
  }

  // A lookup that has passed n buckets has passed them all.
  lemma FullCycle<K>(slots: seq<Slot>, keys: seq<K>, h: nat, k: nat, step: nat, key: K)
    requires |slots| == Pow2(k) <= |keys| && step >= |slots|
    requires PassedUpTo(slots, keys, h, step, key)
    ensures forall i: nat :: i < |slots| ==> Passed(slots, keys, i, key)
  {
    forall i: nat | i < |slots|
      ensures Passed(slots, keys, i, key)
    {
      var s := ProbeCovers(h, k, i);
    }
  }

  // If all those buckets were live as well, the whole table is.
  lemma LiveCycle<K>(slots: seq<Slot>, keys: seq<K>, h: nat, k: nat, step: nat, key: K)
    requires |slots| == Pow2(k) <= |keys| && step >= |slots|
    requires PassedUpTo(slots, keys, h, step, key) && LiveUpTo(slots, h, step)
    ensures forall i: nat :: i < |slots| ==> slots[i].Live? && keys[i] != key
  {
    forall i: nat | i < |slots|
      ensures slots[i].Live? && keys[i] != key
    {
      var s := ProbeCovers(h, k, i);
      assert Passed(slots, keys, Probe(h, s, |slots|), key);
    }
  }

  ghost predicate LiveUpTo(slots: seq<Slot>, h: nat, step: nat)
    requires |slots| > 0
  {
    forall t: nat :: t < step ==> slots[Probe(h, t, |slots|)].Live?
  }

  // A tombstone met at step r of the walk, with none behind it before step s.
  ghost predicate LastTombstone(slots: seq<Slot>, h: nat, i: nat, r: nat, s: nat)
    requires |slots| > 0 && i < |slots|
  {
    && r < s && Probe(h, r, |slots|) == i && slots[i].Deleted?
    && forall t: nat :: r < t < s ==> slots[Probe(h, t, |slots|)].Live?
  }

  // The free bucket that kh_put chooses on a walk of s steps: the last tombstone it
  // has passed or, if it has passed none, the empty bucket it ends at.
  ghost predicate Chosen(slots: seq<Slot>, h: nat, i: nat, s: nat)
    requires |slots| > 0 && i < |slots|
  {
    var i' := Probe(h, s, |slots|);
    || (slots[i].Empty? && i' == i && LiveUpTo(slots, h, s))
    || ((slots[i'].Empty? || s == 2 * |slots| - 1) && exists r :: 0 <= r < s && LastTombstone(slots, h, i, r, s))
  }

  // A bucket met on the way, at whatever step, is reachable.
  lemma ReachableAt<K>(slots: seq<Slot>, keys: seq<K>, h: nat, k: nat, step: nat, key: K)
    requires |slots| == Pow2(k) <= |keys|
    requires PassedUpTo(slots, keys, h, step, key)
    ensures Reachable(slots, h, Probe(h, step, |slots|))
  {
    var i := Probe(h, step, |slots|);
    if step < |slots| {
      assert ReachVia(slots, h, i, step);
    } else {
      var s := ProbeCovers(h, k, i);
      assert ReachVia(slots, h, i, s);
    }
  }

  // A free bucket for an absent key, chosen on the walk that showed it absent.
  ghost predicate Free<K>(slots: seq<Slot>, keys: seq<K>, h: nat, key: K, x: nat)
    requires 0 < |slots| <= |keys| && x < |slots|
  {
    && !slots[x].Live? && Reachable(slots, h, x) && Missed(slots, keys, h, key)
    && exists s: nat :: PassedUpTo(slots, keys, h, s, key) && Chosen(slots, h, x, s)
  }

  // The walk of kh_put after some steps: `site` is the last tombstone it has
  // passed, at step r, or |slots| if it has passed none.
  ghost predicate SoFar<K>(slots: seq<Slot>, keys: seq<K>, h: nat, key: K, step: nat, site: nat, r: nat)
    requires 0 < |slots| <= |keys|
  {
    && PassedUpTo(slots, keys, h, step, key)
    && site <= |slots|
    && if site < |slots| then LastTombstone(slots, h, site, r, step) && Reachable(slots, h, site)
       else LiveUpTo(slots, h, step)
  }

  lemma SoFarStart<K>(slots: seq<Slot>, keys: seq<K>, h: nat, key: K)
    requires 0 < |slots| <= |keys|
    ensures SoFar(slots, keys, h, key, 0, |slots|, 0)
  {}

  lemma SoFarNext<K>(slots: seq<Slot>, keys: seq<K>, h: nat, k: nat, key: K, step: nat, site: nat, r: nat)
    requires 0 < |slots| == Pow2(k) <= |keys| && SoFar(slots, keys, h, key, step, site, r)
    requires Passed(slots, keys, Probe(h, step, |slots|), key)
    ensures var i := Probe(h, step, |slots|);
      if slots[i].Deleted? then SoFar(slots, keys, h, key, step + 1, i, step)
      else SoFar(slots, keys, h, key, step + 1, site, r)
  {
    ReachableAt(slots, keys, h, k, step, key);
  }

  // The walk ends at an empty bucket.
  lemma SoFarEnds<K>(slots: seq<Slot>, keys: seq<K>, h: nat, k: nat, key: K, step: nat, site: nat, r: nat)
    requires 0 < |slots| == Pow2(k) <= |keys| && SoFar(slots, keys, h, key, step, site, r)
    requires slots[Probe(h, step, |slots|)].Empty?
    ensures Free(slots, keys, h, key, if site != |slots| then site else Probe(h, step, |slots|))
  {
    ReachableAt(slots, keys, h, k, step, key);
    assert Chosen(slots, h, if site != |slots| then site else Probe(h, step, |slots|), step);
  }

  // It comes round to where it began.
  lemma SoFarRound<K>(slots: seq<Slot>, keys: seq<K>, h: nat, k: nat, key: K, step: nat, site: nat, r: nat)
    requires 0 < |slots| == Pow2(k) <= |keys| && SoFar(slots, keys, h, key, step, site, r)
    requires step == 2 * |slots| - 1
    ensures if site < |slots| then Free(slots, keys, h, key, site)
            else forall i: nat :: i < |slots| ==> slots[i].Live? && keys[i] != key
  {
    FullCycle(slots, keys, h, k, step, key);
    if site == |slots| {
      LiveCycle(slots, keys, h, k, step, key);
    } else {
      assert Chosen(slots, h, site, step);
    }
  }

  // Putting an absent key into a reachable bucket that is not live.
  lemma InsertKeeps<K>(hash: K -> nat, slots: seq<Slot>, keys: seq<K>, at: map<K, nat>, key: K, x: nat)
    requires x < |slots| && Indexed(slots, keys, at) && AllReachable(hash, slots, at)
    requires key !in at && !slots[x].Live? && Reachable(slots, hash(key), x)
    ensures Indexed(slots[x := Live], keys[x := key], at[key := x])
    ensures AllReachable(hash, slots[x := Live], at[key := x])
    ensures |at[key := x]| == |at| + 1
  {
    var slots', at' := slots[x := Live], at[key := x];
    forall k | k in at'
      ensures Reachable(slots', hash(k), at'[k])
    {
      ReachableKept(slots, slots', hash(k), at'[k]);
    }
  }

  // Deleting the key of a live bucket.
  lemma DeleteKeeps<K>(hash: K -> nat, slots: seq<Slot>, keys: seq<K>, at: map<K, nat>, x: nat)
    requires x < |slots| && Indexed(slots, keys, at) && AllReachable(hash, slots, at)
    requires slots[x].Live?
    ensures Indexed(slots[x := Deleted], keys, at - {keys[x]})
    ensures AllReachable(hash, slots[x := Deleted], at - {keys[x]})
    ensures |at - {keys[x]}| == |at| - 1
  {
    var slots', at' := slots[x := Deleted], at - {keys[x]};
    assert at == at'[keys[x] := x];
    forall k | k in at'
      ensures Reachable(slots', hash(k), at'[k])
    {
      ReachableKept(slots, slots', hash(k), at'[k]);
    }
  }

  ghost predicate Holds<K, V>(vals: seq<V>, at: map<K, nat>, all: map<K, V>) {
    && all.Keys == at.Keys
    && forall k :: k in all ==> at[k] < |vals| && vals[at[k]] == all[k]
  }

  // Only the buckets below |slots| matter to the index and to the values.
  lemma SamePrefix<K, V>(slots: seq<Slot>, keys: seq<K>, keys': seq<K>, vals: seq<V>, vals': seq<V>,
                         at: map<K, nat>, all: map<K, V>)
    requires Indexed(slots, keys, at) && Holds(vals, at, all)
    requires |slots| <= |keys| == |vals| && |slots| <= |keys'| == |vals'|
    requires forall i :: 0 <= i < |slots| ==> keys'[i] == keys[i] && vals'[i] == vals[i]
    ensures Indexed(slots, keys', at) && Holds(vals', at, all)
  {}

  // The key in hand during a rehash, and its value.
  datatype Hand<K, V> = Nothing | Holding(key: K, val: V)

  // The bookkeeping of a half-converted table: the old bucket states and the
  // new ones, who is where in each, and the entry in hand.
  datatype Half<K, V> = Half(os: seq<Slot>, ns: seq<Slot>, oldAt: map<K, nat>, newAt: map<K, nat>, hand: Hand<K, V>)

  // One array of keys and one of values serve the old buckets and the new ones
  // at once.  The entries still in old buckets, those already placed and the
  // one in hand together make up the original map `all`, and no bucket holds an
  // old entry and a new one.
  ghost predicate Rehashing<K, V>(hash: K -> nat, t: Half<K, V>, keys: seq<K>, vals: seq<V>, all: map<K, V>) {
    && |keys| == |vals|
    && Indexed(t.os, keys, t.oldAt)
    && Indexed(t.ns, keys, t.newAt)
    && AllReachable(hash, t.ns, t.newAt)
    && (forall i :: 0 <= i < |t.ns| ==> !t.ns[i].Deleted?)
    && (forall i :: 0 <= i < |t.os| && i < |t.ns| ==> !(t.os[i].Live? && t.ns[i].Live?))
    && t.oldAt.Keys !! t.newAt.Keys
    && (forall k :: k in t.oldAt ==> k in all && vals[t.oldAt[k]] == all[k])
    && (forall k :: k in t.newAt ==> k in all && vals[t.newAt[k]] == all[k])
    && (t.hand.Holding? ==>
          && t.hand.key in all && all[t.hand.key] == t.hand.val
          && t.hand.key !in t.oldAt && t.hand.key !in t.newAt)
    && (forall k :: k in all ==> k in t.oldAt || k in t.newAt || (t.hand.Holding? && t.hand.key == k))
    && CountUsed(t.ns) == |t.newAt|
  }

  ghost predicate NoneLiveBelow(slots: seq<Slot>, j: nat)
    requires j <= |slots|
  {
    forall i :: 0 <= i < j ==> !slots[i].Live?
  }

  lemma NoneLiveNext(os: seq<Slot>, os': seq<Slot>, j: nat)
    requires j < |os| == |os'|
    requires NoneLiveBelow(os, j) && !os'[j].Live?
    requires forall i :: 0 <= i < |os| && os'[i].Live? ==> os[i].Live?
    ensures NoneLiveBelow(os', j + 1)
  {}

  // Before the first round: nothing placed, nothing in hand.
  lemma StartRehash<K, V>(hash: K -> nat, os: seq<Slot>, keys: seq<K>, vals: seq<V>, at: map<K, nat>,
                          all: map<K, V>, m: nat)
    requires |keys| == |vals| && m <= |keys|
    requires Indexed(os, keys, at) && Holds(vals, at, all)
    ensures Rehashing(hash, Half(os, seq(m, _ => Empty), at, map[], Nothing), keys, vals, all)
  {
    AllEmptyCounts(m);
  }

  // After the last round: no old bucket is live, so everything has been placed.
  lemma EndRehash<K, V>(hash: K -> nat, t: Half<K, V>, keys: seq<K>, vals: seq<V>, all: map<K, V>)
    requires Rehashing(hash, t, keys, vals, all) && t.hand.Nothing?
    requires NoneLiveBelow(t.os, |t.os|)
    ensures Indexed(t.ns, keys, t.newAt) && AllReachable(hash, t.ns, t.newAt) && Holds(vals, t.newAt, all)
    ensures CountLive(t.ns) == CountUsed(t.ns) == |t.newAt|
  {
    NoTombstoneCounts(t.ns);
    assert all.Keys == t.newAt.Keys;
  }

  // Overwriting a bucket that holds no entry of an index, or one taken out.
  lemma Overwrite<K>(slots: seq<Slot>, keys: seq<K>, at: map<K, nat>, i: nat, key: K)
    requires Indexed(slots, keys, at) && i < |keys|
    ensures i < |slots| && slots[i].Live? ==> Indexed(slots[i := Deleted], keys[i := key], at - {keys[i]})
    ensures i < |slots| ==> slots[i].Live? || Indexed(slots, keys[i := key], at)
    ensures i >= |slots| ==> Indexed(slots, keys[i := key], at)
  {}

  // The three moves of the rehash, on the bookkeeping.
  function Lift<K, V>(t: Half<K, V>, j: nat, key: K, val: V): Half<K, V>
    requires j < |t.os|
  {
    t.(os := t.os[j := Deleted], oldAt := t.oldAt - {key}, hand := Holding(key, val))
  }

  function Swap<K, V>(t: Half<K, V>, i: nat, key: K, val: V): Half<K, V>
    requires t.hand.Holding? && i < |t.ns| && i < |t.os|
  {
    Half(t.os[i := Deleted], t.ns[i := Live], t.oldAt - {key}, t.newAt[t.hand.key := i], Holding(key, val))
  }

  function Drop<K, V>(t: Half<K, V>, i: nat): Half<K, V>
    requires t.hand.Holding? && i < |t.ns|
  {
    t.(ns := t.ns[i := Live], newAt := t.newAt[t.hand.key := i], hand := Nothing)
  }

  // Take the entry of old bucket j in hand.
  lemma PickUp<K, V>(hash: K -> nat, t: Half<K, V>, keys: seq<K>, vals: seq<V>, all: map<K, V>, j: nat)
    requires Rehashing(hash, t, keys, vals, all) && t.hand.Nothing?
    requires j < |t.os| && t.os[j].Live?
    ensures Rehashing(hash, Lift(t, j, keys[j], vals[j]), keys, vals, all)
  {
    assert t.oldAt[keys[j]] == j;
  }

  // Writing the entry in hand to bucket i loses no value but that of its old entry.
  lemma ValuesKept<K, V>(t: Half<K, V>, keys: seq<K>, vals: seq<V>, all: map<K, V>, i: nat, val: V)
    requires Indexed(t.os, keys, t.oldAt) && Indexed(t.ns, keys, t.newAt) && |keys| == |vals|
    requires i < |t.ns| && t.ns[i].Empty? && i < |t.os| && t.os[i].Live?
    requires forall k :: k in t.oldAt ==> k in all && vals[t.oldAt[k]] == all[k]
    requires forall k :: k in t.newAt ==> k in all && vals[t.newAt[k]] == all[k]
    ensures keys[i] in t.oldAt && vals[i] == all[keys[i]]
    ensures forall k :: k in t.oldAt && k != keys[i] ==> t.oldAt[k] < |vals| && vals[i := val][t.oldAt[k]] == all[k]
    ensures forall k :: k in t.newAt ==> t.newAt[k] < |vals| && vals[i := val][t.newAt[k]] == all[k]
  {
    assert t.oldAt[keys[i]] == i;
  }

  // Place the entry in hand, kicking out the old entry of the same bucket.
  lemma KickOut<K, V>(hash: K -> nat, t: Half<K, V>, keys: seq<K>, vals: seq<V>, all: map<K, V>, i: nat)
    requires Rehashing(hash, t, keys, vals, all) && t.hand.Holding?
    requires i < |t.ns| && t.ns[i].Empty? && Reachable(t.ns, hash(t.hand.key), i)
    requires i < |t.os| && t.os[i].Live?
    ensures i < |keys| == |vals|
    ensures Rehashing(hash, Swap(t, i, keys[i], vals[i]), keys[i := t.hand.key], vals[i := t.hand.val], all)
  {
    hide AllReachable, Reachable, CountUsed, CountLive, Indexed;
    RoomLeft(hash, t, keys, vals, all);
    ValuesKept(t, keys, vals, all, i, t.hand.val);
    Overwrite(t.os, keys, t.oldAt, i, t.hand.key);
    InsertKeeps(hash, t.ns, keys, t.newAt, t.hand.key, i);
    CountUpdate(t.ns, i, Live);
  }

  // Place the entry in hand in a bucket that holds no old entry.
  lemma PutDown<K, V>(hash: K -> nat, t: Half<K, V>, keys: seq<K>, vals: seq<V>, all: map<K, V>, i: nat)
    requires Rehashing(hash, t, keys, vals, all) && t.hand.Holding?
    requires i < |t.ns| && t.ns[i].Empty? && Reachable(t.ns, hash(t.hand.key), i)
    requires i < |t.os| ==> !t.os[i].Live?
    ensures Rehashing(hash, Drop(t, i), keys[i := t.hand.key], vals[i := t.hand.val], all)
  {
    hide AllReachable, Reachable, CountLive;
    Overwrite(t.os, keys, t.oldAt, i, t.hand.key);
    InsertKeeps(hash, t.ns, keys, t.newAt, t.hand.key, i);
    CountUpdate(t.ns, i, Live);
  }

  // While an entry is in hand, fewer entries than the original map holds are placed.
  lemma RoomLeft<K, V>(hash: K -> nat, t: Half<K, V>, keys: seq<K>, vals: seq<V>, all: map<K, V>)
    requires Rehashing(hash, t, keys, vals, all) && t.hand.Holding?
    ensures CountUsed(t.ns) < |all|
    ensures |t.os| <= |keys| && |t.ns| <= |keys| && |keys| == |vals|
  {
    assert t.newAt.Keys + {t.hand.key} <= all.Keys;
    SubsetSize(t.newAt.Keys + {t.hand.key}, all.Keys);
  }

  lemma {:induction false} SubsetSize<T>(a: set<T>, b: set<T>)
    requires a <= b
    ensures |a| <= |b|
  {
    assert b == a + (b - a);
  }
}
