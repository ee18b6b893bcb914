// Whole runs of the hash interface against a plain map.

module TableRuns {
  import opened Wrappers
  import opened RoundUp
  import opened HashTable

  datatype Op<K, V> = Add(key: K, value: V) | Find(key: K) | Delete(key: K) | Resize(request: nat) | Clear

  // What one operation does to a plain map, and what Find answers.
  function Effect<K, V>(m: map<K, V>, op: Op<K, V>): map<K, V> {
    match op
    case Add(k, v) => m[k := v]
    case Delete(k) => m - {k}
    case Clear => map[]
    case _ => m
  }

  function Answer<K, V>(m: map<K, V>, op: Op<K, V>): seq<Option<V>> {
    if op.Find? then [if op.key in m then Some(m[op.key]) else None] else []
  }

  function Final<K, V>(m: map<K, V>, ops: seq<Op<K, V>>): map<K, V> {
    if |ops| == 0 then m else Effect(Final(m, ops[..|ops| - 1]), ops[|ops| - 1])
  }

  function Answers<K, V>(m: map<K, V>, ops: seq<Op<K, V>>): seq<Option<V>> {
    if |ops| == 0 then []
    else Answers(m, ops[..|ops| - 1]) + Answer(Final(m, ops[..|ops| - 1]), ops[|ops| - 1])
  }

  // No new key is added to a map of 2^31 keys, and requests fit 32 bits.
  ghost predicate Fine<K, V>(m: map<K, V>, op: Op<K, V>) {
    && (op.Add? ==> op.key in m || |m| < TWO_31)
    && (op.Resize? ==> op.request < TWO_32)
  }

  ghost predicate Fits<K, V>(m: map<K, V>, ops: seq<Op<K, V>>) {
    |ops| == 0 || (Fits(m, ops[..|ops| - 1]) && Fine(Final(m, ops[..|ops| - 1]), ops[|ops| - 1]))
  }

  lemma {:induction false} FitsAt<K, V>(m: map<K, V>, ops: seq<Op<K, V>>, i: nat)
    requires Fits(m, ops) && i < |ops|
    ensures Fine(Final(m, ops[..i]), ops[i])
  {
    if i < |ops| - 1 {
      FitsAt(m, ops[..|ops| - 1], i);
      assert ops[..|ops| - 1][..i] == ops[..i];
    }
  }

  lemma {:induction false} FinalSize<K, V>(m: map<K, V>, ops: seq<Op<K, V>>)
    ensures |Final(m, ops)| <= |m| + |ops|
  {
    if |ops| > 0 {
      FinalSize(m, ops[..|ops| - 1]);
      var f, op := Final(m, ops[..|ops| - 1]), ops[|ops| - 1];
      if op.Delete? {
        if op.key in f { assert f == (f - {op.key})[op.key := f[op.key]]; } else { assert f - {op.key} == f; }
      }
    }
  }

  // Any run of at most 2^31 operations on an empty table fits.
  lemma {:induction false} ShortRunsFit<K, V>(ops: seq<Op<K, V>>)
    requires |ops| <= TWO_31
    requires forall op :: op in ops && op.Resize? ==> op.request < TWO_32
    ensures Fits(map[], ops)
  {
    if |ops| > 0 {
      ShortRunsFit(ops[..|ops| - 1]);
      FinalSize(map[], ops[..|ops| - 1]);
    }
  }

  // The last write to a key that no later operation undid, read off the
  // operations alone.
  function LastWrite<K(==), V>(ops: seq<Op<K, V>>, k: K): Option<V> {
    if |ops| == 0 then None
    else match ops[|ops| - 1]
      case Add(k', v) => if k' == k then Some(v) else LastWrite(ops[..|ops| - 1], k)
      case Delete(k') => if k' == k then None else LastWrite(ops[..|ops| - 1], k)
      case Clear => None
      case _ => LastWrite(ops[..|ops| - 1], k)
  }

  lemma {:induction false} FinalIsLastWrite<K, V>(ops: seq<Op<K, V>>, k: K)
    ensures LastWrite(ops, k) == if k in Final(map[], ops) then Some(Final(map[], ops)[k]) else None
  {
    if |ops| > 0 { FinalIsLastWrite(ops[..|ops| - 1], k); }
  }

  // One operation of the table.
  method Perform<K(==,0), V(0)>(t: Table<K, V>, op: Op<K, V>) returns (answer: seq<Option<V>>)
    requires t.Valid() && Fine(t.contents, op)
    modifies t, t.flags, t.keys, t.vals
    ensures t.Valid() && fresh(t.Repr() - old(t.Repr()))
    ensures t.contents == Effect(old(t.contents), op)
    ensures answer == Answer(old(t.contents), op)
  {
    hide Table.Valid;
    answer := [];
    match op {
      case Add(k, v) =>
        var x := t.Add(k, v);
      case Find(k) =>
        var r := t.Find(k);
        answer := [r];
      case Delete(k) =>
        t.Delete(k);
      case Resize(n) =>
        t.Resize(n);
      case Clear =>
        t.Clear();
    }
  }

  lemma OneMore<K, V>(m: map<K, V>, ops: seq<Op<K, V>>, i: nat)
    requires i < |ops|
    ensures Final(m, ops[..i + 1]) == Effect(Final(m, ops[..i]), ops[i])
    ensures Answers(m, ops[..i + 1]) == Answers(m, ops[..i]) + Answer(Final(m, ops[..i]), ops[i])
  {
    assert ops[..i + 1][..i] == ops[..i];
  }

  // Every run of the table gives the answers of the map, whatever resizes,
  // tombstones and reuse happen on the way.
  method Run<K(==,0), V(0)>(t: Table<K, V>, ops: seq<Op<K, V>>) returns (answers: seq<Option<V>>)
    requires t.Valid() && Fits(t.contents, ops)
    modifies t, t.flags, t.keys, t.vals
    ensures t.Valid() && fresh(t.Repr() - old(t.Repr()))
    ensures t.contents == Final(old(t.contents), ops)
    ensures answers == Answers(old(t.contents), ops)
  {
    hide Table.Valid, Effect, Answer, Fine;
    answers := [];
    ghost var m := t.contents;
    for i := 0 to |ops|
      invariant t.Valid() && fresh(t.Repr() - old(t.Repr()))
      invariant t.contents == Final(m, ops[..i])
      invariant answers == Answers(m, ops[..i])
    {
      OneMore(m, ops, i);
      FitsAt(m, ops, i);
      var answer := Perform(t, ops[i]);
      answers := answers + answer;
    }
    assert ops[..|ops|] == ops;
  }
}
