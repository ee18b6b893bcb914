// What each thread sees of a run: its own calls, in its own order, with their
// own results; and that no run can get stuck.

module ThreadCalls {
  import opened Wrappers
  import opened AccessLog
  import opened Threads

  // The part of a list that thread t brought.
  function Share<T>(xs: seq<T>, who: seq<nat>, t: nat): seq<T>
    requires |xs| == |who|
  {
    if |xs| == 0 then []
    else Share(xs[..|xs| - 1], who[..|xs| - 1], t) + if who[|xs| - 1] == t then [xs[|xs| - 1]] else []
  }

  lemma ShareNext<T>(xs: seq<T>, who: seq<nat>, x: T, u: nat, t: nat)
    requires |xs| == |who|
    ensures Share(xs + [x], who + [u], t) == if u == t then Share(xs, who, t) + [x] else Share(xs, who, t)
  {
    assert (xs + [x])[..|xs|] == xs && (who + [u])[..|xs|] == who;
  }

  // What these calls return: 0 for an event the filters drop, else the next of
  // the values that came out of the mutex.
  function Replies(f: Filter, calls: seq<Event>, rcs: seq<nat>): (rs: seq<nat>)
    requires |rcs| == |Kept(f, calls)|
    ensures |rs| == |calls|
  {
    if |calls| == 0 then []
    else if Accepted(f, calls[|calls| - 1]) then
      Replies(f, calls[..|calls| - 1], rcs[..|rcs| - 1]) + [rcs[|rcs| - 1]]
    else
      Replies(f, calls[..|calls| - 1], rcs) + [0]
  }

  // The calls a thread has begun, has taken the mutex for, has returned from.
  function Begun(th: Thread, mine: seq<Event>): int {
    |mine| - |th.todo|
  }

  function Entered(th: Thread, mine: seq<Event>): int {
    Begun(th, mine) - if th.pc.Waiting? then 1 else 0
  }

  function Returned(th: Thread, mine: seq<Event>): int {
    Begun(th, mine) - if th.pc.Ready? then 0 else 1
  }

  ghost predicate Place(f: Filter, th: Thread, mine: seq<Event>) {
    && 0 <= Returned(th, mine) && Begun(th, mine) <= |mine|
    && th.todo == mine[Begun(th, mine)..]
    && (!th.pc.Ready? ==> th.pc.e == mine[Returned(th, mine)] && Accepted(f, th.pc.e))
  }

  // Thread t, whose calls are `mine`, has brought its accepted events in order
  // and got the values of its own calls.
  ghost predicate OwnCalls(f: Filter, s: State, t: nat, mine: seq<Event>)
    requires t < |s.threads|
  {
    var th := s.threads[t];
    && Place(f, th, mine)
    && |s.who| == |s.hist| && |s.rcs| <= |s.who|
    && Share(s.hist, s.who, t) == Kept(f, mine[..Entered(th, mine)])
    && |Share(s.rcs, s.who[..|s.rcs|], t)| == |Kept(f, mine[..Returned(th, mine)])|
    && th.results == Replies(f, mine[..Returned(th, mine)], Share(s.rcs, s.who[..|s.rcs|], t))
  }

  // The event under the mutex is its owner's.
  ghost predicate OwnersTurn(s: State) {
    && |s.who| == |s.hist|
    && |s.hist| == |s.rcs| + (if s.owner.Some? then 1 else 0)
    && (s.owner.Some? ==> s.who[|s.rcs|] == s.owner.value)
  }

  lemma TurnStays(f: Filter, s: State, t: nat)
    requires TakesTurns(f, s) && OwnersTurn(s) && t < |s.threads|
    ensures OwnersTurn(Move(f, s, t))
  {}

  lemma KeptNext(f: Filter, mine: seq<Event>, k: nat)
    requires k < |mine|
    ensures Kept(f, mine[..k + 1]) == Kept(f, mine[..k]) + if Accepted(f, mine[k]) then [mine[k]] else []
  {
    assert mine[..k + 1][..k] == mine[..k];
  }

  lemma RepliesNext(f: Filter, mine: seq<Event>, k: nat, rcs: seq<nat>, rc: nat)
    requires k < |mine| && |rcs| == |Kept(f, mine[..k])|
    ensures |Kept(f, mine[..k + 1])| == |rcs| + if Accepted(f, mine[k]) then 1 else 0
    ensures Accepted(f, mine[k]) ==> Replies(f, mine[..k + 1], rcs + [rc]) == Replies(f, mine[..k], rcs) + [rc]
    ensures !Accepted(f, mine[k]) ==> Replies(f, mine[..k + 1], rcs) == Replies(f, mine[..k], rcs) + [0]
  {
    KeptNext(f, mine, k);
    assert mine[..k + 1][..k] == mine[..k];
    assert (rcs + [rc])[..|rcs|] == rcs;
  }

  // Another thread's move leaves thread t's calls alone.
  lemma OthersApart(f: Filter, s: State, u: nat, t: nat, mine: seq<Event>)
    requires TakesTurns(f, s) && OwnersTurn(s) && u < |s.threads| && t < |s.threads| && u != t
    requires OwnCalls(f, s, t, mine)
    ensures OwnCalls(f, Move(f, s, u), t, mine)
  {
    hide Kept, Replies, Place, Accepted, Access, Share;
    var pc, n := s.threads[u].pc, |s.rcs|;
    if pc.Waiting? && s.owner.None? {
      ShareNext(s.hist, s.who, pc.e, u, t);
      assert (s.who + [u])[..n] == s.who[..n];
    } else if pc.Leaving? {
      ShareNext(s.rcs, s.who[..n], pc.rc, u, t);
      assert s.who[..n + 1] == s.who[..n] + [u];
    }
  }

  // A call begins: past the filters, or dropped by them.
  lemma CallBegins(f: Filter, s: State, t: nat, mine: seq<Event>)
    requires t < |s.threads| && OwnCalls(f, s, t, mine)
    requires s.threads[t].pc.Ready? && |s.threads[t].todo| > 0
    ensures OwnCalls(f, Move(f, s, t), t, mine)
  {
    hide Kept, Replies, Accepted, Share;
    var th, rcs := s.threads[t], Share(s.rcs, s.who[..|s.rcs|], t);
    var k := Returned(th, mine);
    assert mine[k] == th.todo[0];
    KeptNext(f, mine, k);
    RepliesNext(f, mine, k, rcs, 0);
  }

  // It takes the mutex.
  lemma CallEnters(f: Filter, s: State, t: nat, mine: seq<Event>)
    requires OwnersTurn(s) && t < |s.threads| && OwnCalls(f, s, t, mine)
    requires s.threads[t].pc.Waiting? && s.owner.None?
    ensures OwnCalls(f, Move(f, s, t), t, mine)
  {
    hide Kept, Replies, Accepted, Share;
    var th, n := s.threads[t], |s.rcs|;
    ShareNext(s.hist, s.who, th.pc.e, t, t);
    KeptNext(f, mine, Returned(th, mine));
    assert (s.who + [t])[..n] == s.who[..n];
  }

  // It leaves the mutex and returns.
  lemma CallReturns(f: Filter, s: State, t: nat, mine: seq<Event>)
    requires OwnersTurn(s) && t < |s.threads| && OwnCalls(f, s, t, mine)
    requires s.threads[t].pc.Leaving? && s.owner == Some(t)
    ensures OwnCalls(f, Move(f, s, t), t, mine)
  {
    hide Kept, Replies, Accepted, Share;
    var th, n := s.threads[t], |s.rcs|;
    ShareNext(s.rcs, s.who[..n], th.pc.rc, t, t);
    assert s.who[..n + 1] == s.who[..n] + [t];
    RepliesNext(f, mine, Returned(th, mine), Share(s.rcs, s.who[..n], t), th.pc.rc);
  }

  // Its own move carries them on.
  lemma OwnMove(f: Filter, s: State, t: nat, mine: seq<Event>)
    requires TakesTurns(f, s) && OwnersTurn(s) && t < |s.threads|
    requires OwnCalls(f, s, t, mine)
    ensures OwnCalls(f, Move(f, s, t), t, mine)
  {
    var pc := s.threads[t].pc;
    if pc.Ready? && |s.threads[t].todo| > 0 {
      CallBegins(f, s, t, mine);
    } else if pc.Waiting? && s.owner.None? {
      CallEnters(f, s, t, mine);
    } else if pc.Leaving? {
      CallReturns(f, s, t, mine);
    } else {
      hide Kept, Replies, Accepted, Share;
    }
  }

  lemma StartInOrder(f: Filter, work: seq<seq<Event>>, t: nat)
    requires t < |work|
    ensures OwnersTurn(Start(work)) && OwnCalls(f, Start(work), t, work[t])
  {}

  lemma {:induction false} RunInOrder(f: Filter, s: State, schedule: seq<nat>, all: multiset<Event>,
                                      t: nat, mine: seq<Event>)
    requires Inv(f, s, all) && OwnersTurn(s) && t < |s.threads| && OwnCalls(f, s, t, mine)
    requires forall i :: 0 <= i < |schedule| ==> schedule[i] < |s.threads|
    ensures OwnersTurn(Run(f, s, schedule)) && OwnCalls(f, Run(f, s, schedule), t, mine)
  {
    hide Move, OwnersTurn, OwnCalls, TakesTurns, Accounted, LogMatches;
    if |schedule| > 0 {
      var n := |schedule| - 1;
      var s', u := Run(f, s, schedule[..n]), schedule[n];
      RunInOrder(f, s, schedule[..n], all, t, mine);
      RunKeeps(f, s, schedule[..n], all);
      TurnStays(f, s', u);
      if u == t { OwnMove(f, s', t, mine); } else { OthersApart(f, s', u, t, mine); }
    }
  }

  lemma PrefixKept(f: Filter, mine: seq<Event>, k: nat)
    requires k <= |mine|
    ensures Kept(f, mine[..k]) <= Kept(f, mine)
  {
    assert mine == mine[..k] + mine[k..];
    KeptAppend(f, mine[..k], mine[k..]);
  }

  // At every moment of every interleaving: what a thread brought to the
  // history are its own accepted events in its own order, and the results of
  // its calls are 0 for each event dropped and, in that order, the values that
  // came out of the mutex for its own events.
  lemma EachThreadInOrder(f: Filter, work: seq<seq<Event>>, schedule: seq<nat>, t: nat)
    requires t < |work| && forall i :: 0 <= i < |schedule| ==> schedule[i] < |work|
    ensures var s := Run(f, Start(work), schedule);
      && |s.rcs| <= |s.who| == |s.hist|
      && Share(s.hist, s.who, t) <= Kept(f, work[t])
      && var (rs, rcs) := (s.threads[t].results, Share(s.rcs, s.who[..|s.rcs|], t));
         && |rs| <= |work[t]| && |rcs| == |Kept(f, work[t][..|rs|])|
         && rs == Replies(f, work[t][..|rs|], rcs)
         && (Finished(s) ==> Share(s.hist, s.who, t) == Kept(f, work[t]) && |rs| == |work[t]|)
  {
    hide Kept, Concat, Share, Replies, Run, Inv, Accepted;
    var mine, all := work[t], multiset(Kept(f, Concat(work)));
    StartKeeps(f, work);
    StartInOrder(f, work, t);
    RunInOrder(f, Start(work), schedule, all, t, mine);
    var s := Run(f, Start(work), schedule);
    PrefixKept(f, mine, Entered(s.threads[t], mine));
    assert Finished(s) ==> mine[..Entered(s.threads[t], mine)] == mine;
  }

  // ---- no run gets stuck

  // The moves a call has still to make, and those of all threads together.
  function Left(th: Thread): nat {
    10 * |th.todo| +
    match th.pc
    case Ready => 0
    case Waiting(_) => 9
    case Locked(_) => 8
    case Missing(_) => 7
    case Present(_) => 7
    case CountLoaded(_, _) => 6
    case CountStored(_) => 5
    case FlagsLoaded(_, _) => 4
    case Stored(_) => 3
    case Leaving(_, _) => 2
  }

  function AllLeft(ts: seq<Thread>): nat {
    if |ts| == 0 then 0 else AllLeft(ts[..|ts| - 1]) + Left(ts[|ts| - 1])
  }

  lemma {:induction false} LeftUpdate(ts: seq<Thread>, t: nat, th: Thread)
    requires t < |ts|
    ensures AllLeft(ts[t := th]) + Left(ts[t]) == AllLeft(ts) + Left(th)
  {
    var n := |ts| - 1;
    if t == n {
      assert ts[t := th][..n] == ts[..n];
    } else {
      assert ts[t := th][..n] == ts[..n][t := th];
      LeftUpdate(ts[..n], t, th);
    }
  }

  // The owner of the mutex always gets on; with the mutex free, so does any
  // thread that has not finished.
  lemma MoveGetsOn(f: Filter, s: State, t: nat, all: multiset<Event>)
    requires Inv(f, s, all) && t < |s.threads|
    requires if s.owner.Some? then s.owner.value == t
             else !s.threads[t].pc.Ready? || |s.threads[t].todo| > 0
    ensures AllLeft(Move(f, s, t).threads) < AllLeft(s.threads)
  {
    hide AllLeft, Accepted, Fold;
    LeftUpdate(s.threads, t, Move(f, s, t).threads[t]);
    assert Move(f, s, t).threads == s.threads[t := Move(f, s, t).threads[t]];
  }

  lemma {:induction false} RunAppend(f: Filter, s: State, a: seq<nat>, b: seq<nat>)
    requires forall i :: 0 <= i < |a| ==> a[i] < |s.threads|
    requires forall i :: 0 <= i < |b| ==> b[i] < |s.threads|
    ensures Run(f, s, a + b) == Run(f, Run(f, s, a), b)
  {
    if |b| == 0 {
      assert a + b == a;
    } else {
      assert (a + b)[..|a + b| - 1] == a + b[..|b| - 1];
      RunAppend(f, s, a, b[..|b| - 1]);
    }
  }

  lemma {:induction false} CanFinish(f: Filter, s: State, all: multiset<Event>) returns (more: seq<nat>)
    requires Inv(f, s, all)
    ensures forall i :: 0 <= i < |more| ==> more[i] < |s.threads|
    ensures Finished(Run(f, s, more)) && |more| <= AllLeft(s.threads)
    decreases AllLeft(s.threads)
  {
    hide Move, Accounted, LogMatches, AllLeft;
    if Finished(s) {
      more := [];
    } else {
      var t: nat := if s.owner.Some? then s.owner.value
                    else var t :| 0 <= t < |s.threads| && !(s.threads[t].pc.Ready? && |s.threads[t].todo| == 0); t;
      MoveGetsOn(f, s, t, all);
      MoveKeeps(f, s, t, all);
      more := CanFinish(f, Move(f, s, t), all);
      assert Run(f, s, [t]) == Move(f, s, t);
      RunAppend(f, s, [t], more);
      more := [t] + more;
    }
  }

  // However a run has gone so far, some threads can move on until all calls are
  // made.
  lemma NeverStuck(f: Filter, work: seq<seq<Event>>, schedule: seq<nat>) returns (more: seq<nat>)
    requires forall i :: 0 <= i < |schedule| ==> schedule[i] < |work|
    ensures forall i :: 0 <= i < |more| ==> more[i] < |work|
    ensures Finished(Run(f, Start(work), schedule + more))
  {
    hide Kept, Concat, Run, Inv, Move, Finished;
    var all := multiset(Kept(f, Concat(work)));
    StartKeeps(f, work);
    RunKeeps(f, Start(work), schedule, all);
    more := CanFinish(f, Run(f, Start(work), schedule), all);
    RunAppend(f, Start(work), schedule, more);
  }
}
