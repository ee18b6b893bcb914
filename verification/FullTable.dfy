// The one state in which kh_put goes wrong, and a way to get there: 2^31 keys.

module FullTable {
  import opened RoundUp
  import opened StringHash
  import opened PrintLog
  import opened HashTable
  import opened TableRuns

  function Adds<V>(n: nat, v: V): (ops: seq<Op<string, V>>)
    ensures |ops| == n
  {
    seq(n, i requires 0 <= i < n => Op.Add(Decimal(i), v))
  }

  lemma {:induction false} AddsFill<V>(n: nat, v: V)
    requires n <= TWO_31
    ensures Fits(map[], Adds(n, v)) && |Final(map[], Adds(n, v))| == n
    ensures forall k :: k in Final(map[], Adds(n, v)) ==> ValueOf(k) < n
  {
    if n > 0 {
      AddsFill(n - 1, v);
      DecimalValue(n - 1);
      assert Adds(n, v)[..n - 1] == Adds(n - 1, v);
    }
  }

  method Fill(n: nat) returns (t: Table<string, nat>)
    requires n <= TWO_31
    ensures t.Valid() && fresh(t.Repr())
    ensures |t.contents| == n && forall k :: k in t.contents ==> ValueOf(k) < n
  {
    hide Table.Valid, Fits, Final, Adds, ValueOf;
    t := new Table<string, nat>(X31);
    AddsFill<nat>(n, 0);
    var answers := Run(t, Adds<nat>(n, 0));
  }

  // After n different strings one more is put: it gets a bucket of its own, but
  // for n = 2^31, a table that can be filled so far.  There kh_put says the
  // key was present, gives the bucket of another and leaves the new key out.
  method PutOneMore(n: nat) returns (t: Table<string, nat>, x: nat, ret: int)
    requires n <= TWO_31
    ensures t.Valid() && x < t.keys.Length && t.keys[x] in t.contents
    ensures ret == 0 <==> n == TWO_31
    ensures if n < TWO_31 then t.keys[x] == Decimal(n) && |t.contents| == n + 1
            else t.keys[x] != Decimal(n) && Decimal(n) !in t.contents && |t.contents| == n
  {
    hide Table.Valid, ValueOf, Decimal;
    t := Fill(n);
    DecimalValue(n);
    x, ret := t.Put(Decimal(n));
    t.LiveHolds(x);
  }
}
