// What a run of events leaves in the log, whatever their order.

module LogSummary {
  import opened Triangular
  import opened RoundUp
  import opened AccessLog

  // (x & (1 << i)) != 0
  predicate TestBit(x: nat, i: nat) {
    Shr(x, i) % 2 == 1
  }

  lemma {:induction false} ShrParts(x: nat, k: nat) returns (r: nat)
    ensures x == Pow2(k) * Shr(x, k) + r && r < Pow2(k)
  {
    if k == 0 {
      r := 0;
    } else {
      var r' := ShrParts(x / 2, k - 1);
      r := 2 * r' + x % 2;
      Assoc(2, Pow2(k - 1), Shr(x, k));
    }
  }

  lemma ShrDivides(x: nat, k: nat)
    ensures Shr(x, k) == x / Pow2(k)
  {
    hide Pow2, Shr;
    var r := ShrParts(x, k);
    Quotient(x, Pow2(k), Shr(x, k), r);
  }

  lemma Quotient(y: nat, p: nat, q: nat, r: nat)
    requires p > 0 && y == p * q + r && r < p
    ensures y / p == q
  {
    var q', r' := y / p, y % p;
    assert p * q' + r' == p * q + r;
    MulSteps(p, q, q');
    MulSteps(p, q', q);
  }

  lemma {:induction false} MulSteps(p: nat, a: nat, b: nat)
    ensures a < b ==> p * a + p <= p * b
    decreases b
  {
    if a < b {
      assert p * b == p * (b - 1) + p;
      MulSteps(p, a, b - 1);
    }
  }

  // The test is of the binary digit that counts Pow2(i), so of the flag 1 << i.
  lemma TestBitIs(x: nat, i: nat)
    ensures TestBit(x, i) <==> x / Pow2(i) % 2 == 1
  {
    ShrDivides(x, i);
  }

  lemma {:induction false} FlagOf(i: nat, j: nat)
    ensures TestBit(Pow2(j), i) <==> i == j
  {
    if i == 0 || j == 0 {
      if i > 0 { NoBits(i - 1); }
    } else {
      assert Pow2(j) / 2 == Pow2(j - 1);
      FlagOf(i - 1, j - 1);
    }
  }

  lemma {:induction false} NoBits(i: nat)
    ensures Shr(0, i) == 0
  {
    if i > 0 { NoBits(i - 1); }
  }

  lemma BitOfOr(x: nat, y: nat, i: nat)
    ensures TestBit(Or(x, y), i) <==> TestBit(x, i) || TestBit(y, i)
  {
    ShrOr(x, y, i);
  }

  lemma {:induction false} OrExchange(x: nat, y: nat, z: nat)
    ensures Or(Or(x, y), z) == Or(Or(x, z), y)
    decreases x + y + z
  {
    if x != 0 || y != 0 || z != 0 {
      OrExchange(x / 2, y / 2, z / 2);
    }
  }

  lemma {:induction false} OrCommutes(x: nat, y: nat)
    ensures Or(x, y) == Or(y, x)
    decreases x + y
  {
    if x != 0 || y != 0 {
      OrCommutes(x / 2, y / 2);
    }
  }

  // The event passes the filters and is on path p.
  predicate On(f: Filter, e: Event, p: Path) {
    Accepted(f, e) && e.path.value == p
  }

  function CountOn(f: Filter, events: seq<Event>, p: Path): nat {
    if |events| == 0 then 0
    else CountOn(f, events[..|events| - 1], p) + if On(f, events[|events| - 1], p) then 1 else 0
  }

  function CountAccepted(f: Filter, events: seq<Event>): nat {
    if |events| == 0 then 0
    else CountAccepted(f, events[..|events| - 1]) + if Accepted(f, events[|events| - 1]) then 1 else 0
  }

  // Some accepted event on p carries bit i.
  ghost predicate Raised(f: Filter, events: seq<Event>, p: Path, i: nat) {
    exists j :: 0 <= j < |events| && On(f, events[j], p) && TestBit(events[j].flag, i)
  }

  lemma RaisedNext(f: Filter, events: seq<Event>, p: Path, i: nat)
    requires |events| > 0
    ensures var n := |events| - 1;
      Raised(f, events, p, i) <==>
      Raised(f, events[..n], p, i) || (On(f, events[n], p) && TestBit(events[n].flag, i))
  {
    var n := |events| - 1;
    if Raised(f, events[..n], p, i) {
      var j :| 0 <= j < n && On(f, events[..n][j], p) && TestBit(events[..n][j].flag, i);
      assert On(f, events[j], p);
    }
    if Raised(f, events, p, i) {
      var j :| 0 <= j < |events| && On(f, events[j], p) && TestBit(events[j].flag, i);
      if j < n { assert On(f, events[..n][j], p); }
    }
  }

  // A path is in the log exactly when an accepted event is on it; its count is
  // the number of such events, and a bit of its flags is set exactly when one
  // of them carries it.
  lemma {:induction false} LogOfRun(f: Filter, events: seq<Event>, p: Path, i: nat)
    ensures p in Fold(f, events) <==> CountOn(f, events, p) > 0
    ensures p in Fold(f, events) ==> Fold(f, events)[p].count == CountOn(f, events, p)
    ensures p in Fold(f, events) ==> (TestBit(Fold(f, events)[p].flags, i) <==> Raised(f, events, p, i))
    ensures Raised(f, events, p, i) ==> p in Fold(f, events)
  {
    if |events| > 0 {
      var n := |events| - 1;
      LogOfRun(f, events[..n], p, i);
      RaisedNext(f, events, p, i);
      var log := Fold(f, events[..n]);
      if On(f, events[n], p) && p in log {
        BitOfOr(log[p].flags, events[n].flag, i);
      }
    }
  }

  ghost function Pick(log: Log): (k: Path)
    requires |log| > 0
    ensures k in log
  {
    var k :| k in log;
    k
  }

  ghost function SumCounts(log: Log): nat {
    if |log| == 0 then 0 else log[Pick(log)].count + SumCounts(log - {Pick(log)})
  }

  lemma {:induction false} SumTakesAny(log: Log, k: Path)
    requires k in log
    ensures SumCounts(log) == log[k].count + SumCounts(log - {k})
    decreases |log|
  {
    var j := Pick(log);
    if j != k {
      SumTakesAny(log - {j}, k);
      SumTakesAny(log - {k}, j);
      assert (log - {j}) - {k} == (log - {k}) - {j};
    }
  }

  // The counts add up to the number of accepted events.
  lemma {:induction false} CountsAddUp(f: Filter, events: seq<Event>)
    ensures SumCounts(Fold(f, events)) == CountAccepted(f, events)
  {
    if |events| > 0 {
      var n := |events| - 1;
      CountsAddUp(f, events[..n]);
      var log, e := Fold(f, events[..n]), events[n];
      if Accepted(f, e) {
        var p := e.path.value;
        var log' := Record(log, p, e.flag);
        SumTakesAny(log', p);
        assert log' - {p} == log - {p};
        if p in log { SumTakesAny(log, p); } else { assert log - {p} == log; }
      }
    }
  }

  lemma StepsCommute(f: Filter, log: Log, d: Event, e: Event)
    ensures Step(f, Step(f, log, d), e) == Step(f, Step(f, log, e), d)
  {
    if Accepted(f, d) && Accepted(f, e) && d.path == e.path {
      var p := d.path.value;
      OrCommutes(d.flag, e.flag);
      if p in log { OrExchange(log[p].flags, d.flag, e.flag); }
    }
  }

  lemma FoldNext(f: Filter, events: seq<Event>, e: Event)
    ensures Fold(f, events + [e]) == Step(f, Fold(f, events), e)
  {
    assert (events + [e])[..|events|] == events;
  }

  lemma {:induction false} MoveToEnd(f: Filter, front: seq<Event>, e: Event, back: seq<Event>)
    ensures Fold(f, front + [e] + back) == Fold(f, front + back + [e])
  {
    if |back| == 0 {
      assert front + [e] + back == front + back + [e];
    } else {
      var n := |back| - 1;
      var b, d := back[..n], back[n];
      assert front + [e] + back == (front + [e] + b) + [d];
      assert front + back + [e] == ((front + b) + [d]) + [e];
      MoveToEnd(f, front, e, b);
      FoldNext(f, front + [e] + b, d);
      FoldNext(f, front + b, e);
      FoldNext(f, front + b, d);
      FoldNext(f, (front + b) + [d], e);
      StepsCommute(f, Fold(f, front + b), d, e);
    }
  }

  lemma TakeOut(b: seq<Event>, e: Event) returns (front: seq<Event>, back: seq<Event>)
    requires e in multiset(b)
    ensures b == front + [e] + back && multiset(front + back) == multiset(b) - multiset{e}
  {
    var i :| 0 <= i < |b| && b[i] == e;
    front, back := b[..i], b[i + 1..];
    assert b == front + [e] + back;
  }

  // The log depends only on which events happened, not on their order.
  lemma {:induction false} FoldIgnoresOrder(f: Filter, a: seq<Event>, b: seq<Event>)
    requires multiset(a) == multiset(b)
    ensures Fold(f, a) == Fold(f, b)
    decreases |a|
  {
    hide Fold;
    assert |a| == |multiset(a)| == |multiset(b)| == |b|;
    if |a| == 0 {
      assert a == b;
    } else {
      var n := |a| - 1;
      var e := a[n];
      assert a == a[..n] + [e];
      var front, back := TakeOut(b, e);
      assert multiset(a[..n]) == multiset(a) - multiset{e};
      FoldIgnoresOrder(f, a[..n], front + back);
      MoveToEnd(f, front, e, back);
      FoldNext(f, a[..n], e);
      FoldNext(f, front + back, e);
    }
  }
}
