// Any number of FUSE threads inside Store_In_Hash at once.  A step is one
// access to shared memory: taking or leaving the mutex, the lookup, the
// insertion, or one load or store of item->count or item->flags.

module Threads {
  import opened Wrappers
  import opened RoundUp
  import opened AccessLog
  import opened LogSummary

  datatype Pc =
    | Ready                              // between two calls
    | Waiting(e: Event)                  // past the filters, before the lock
    | Locked(e: Event)                   // before Hash_Find
    | Missing(e: Event)                  // Hash_Find returned NULL
    | Present(e: Event)                  // Hash_Find returned an item
    | CountLoaded(e: Event, count: nat)  // item->count++ has read the counter
    | CountStored(e: Event)              // ... and written it
    | FlagsLoaded(e: Event, flags: nat)  // item->flags|flag has read the flags
    | Stored(e: Event)                   // the entry is complete
    | Leaving(e: Event, rc: nat)         // rc = item->count is done

  datatype Thread = Thread(pc: Pc, todo: seq<Event>, results: seq<nat>)

  // `hist` records the events in the order their threads took the mutex, `who`
  // those threads, and `rcs` the values returned in the order they left it.
  datatype State = State(log: Log, owner: Option<nat>, threads: seq<Thread>,
                         hist: seq<Event>, who: seq<nat>, rcs: seq<nat>)

  predicate Inside(pc: Pc) {
    !pc.Ready? && !pc.Waiting?
  }

  function PathOf(e: Event): Path {
    if e.path.Some? then e.path.value else ""
  }

  // One access of a thread inside: where it goes, and the log it leaves.
  function Access(pc: Pc, log: Log): (Pc, Log)
    requires Inside(pc)
  {
    var p := PathOf(pc.e);
    match pc
    case Locked(e) => (if p in log then Present(e) else Missing(e), log)
    case Missing(e) => (Stored(e), log[p := Entry(1, e.flag)])
    case Present(e) => (if p in log then CountLoaded(e, log[p].count) else pc, log)
    case CountLoaded(e, c) => (CountStored(e), if p in log then log[p := log[p].(count := c + 1)] else log)
    case CountStored(e) => (if p in log then FlagsLoaded(e, log[p].flags) else pc, log)
    case FlagsLoaded(e, b) => (Stored(e), if p in log then log[p := log[p].(flags := Or(b, e.flag))] else log)
    case Stored(e) => (if p in log then Leaving(e, log[p].count) else pc, log)
    case Leaving(_, _) => (pc, log)
  }

  // Thread t makes its next access; a thread that finds the mutex taken stays.
  function Move(f: Filter, s: State, t: nat): State
    requires t < |s.threads|
  {
    var th := s.threads[t];
    match th.pc
    case Ready =>
      if |th.todo| == 0 then s
      else if Accepted(f, th.todo[0]) then
        s.(threads := s.threads[t := Thread(Waiting(th.todo[0]), th.todo[1..], th.results)])
      else
        s.(threads := s.threads[t := Thread(Ready, th.todo[1..], th.results + [0])])
    case Waiting(e) =>
      if s.owner.Some? then s
      else
        s.(threads := s.threads[t := th.(pc := Locked(e))], owner := Some(t), hist := s.hist + [e], who := s.who + [t])
    case Leaving(e, rc) =>
      s.(threads := s.threads[t := Thread(Ready, th.todo, th.results + [rc])], owner := None, rcs := s.rcs + [rc])
    case _ =>
      var (pc, log) := Access(th.pc, s.log);
      s.(threads := s.threads[t := th.(pc := pc)], log := log)
  }

  // A run: the thread to move at each step, in any interleaving.
  function Run(f: Filter, s: State, schedule: seq<nat>): (r: State)
    requires forall i :: 0 <= i < |schedule| ==> schedule[i] < |s.threads|
    ensures |r.threads| == |s.threads|
  {
    if |schedule| == 0 then s
    else Move(f, Run(f, s, schedule[..|schedule| - 1]), schedule[|schedule| - 1])
  }

  function Start(work: seq<seq<Event>>): State {
    State(map[], None, seq(|work|, i requires 0 <= i < |work| => Thread(Ready, work[i], [])), [], [], [])
  }

  // The accepted events, in order.
  function Kept(f: Filter, events: seq<Event>): seq<Event> {
    if |events| == 0 then []
    else Kept(f, events[..|events| - 1]) +
         if Accepted(f, events[|events| - 1]) then [events[|events| - 1]] else []
  }

  lemma {:induction false} KeptCons(f: Filter, e: Event, rest: seq<Event>)
    ensures Kept(f, [e] + rest) == (if Accepted(f, e) then [e] else []) + Kept(f, rest)
  {
    if |rest| == 0 {
      assert [e] + rest == [e];
      assert [e][..0] == [];
    } else {
      var n := |rest| - 1;
      assert ([e] + rest)[..n + 1] == [e] + rest[..n];
      KeptCons(f, e, rest[..n]);
    }
  }

  lemma {:induction false} KeptAppend(f: Filter, a: seq<Event>, b: seq<Event>)
    ensures Kept(f, a + b) == Kept(f, a) + Kept(f, b)
  {
    if |b| == 0 {
      assert a + b == a;
    } else {
      var n := |b| - 1;
      assert (a + b)[..|a| + n] == a + b[..n];
      KeptAppend(f, a, b[..n]);
    }
  }

  lemma {:induction false} FoldOfKept(f: Filter, events: seq<Event>)
    ensures Fold(f, Kept(f, events)) == Fold(f, events)
  {
    if |events| > 0 {
      var n := |events| - 1;
      FoldOfKept(f, events[..n]);
      if Accepted(f, events[n]) {
        FoldNext(f, Kept(f, events[..n]), events[n]);
      } else {
        assert Kept(f, events) == Kept(f, events[..n]);
      }
    }
  }

  // The accepted events a thread has still to bring under the mutex.
  function Queue(f: Filter, th: Thread): seq<Event> {
    (if th.pc.Waiting? then [th.pc.e] else []) + Kept(f, th.todo)
  }

  function Owed(f: Filter, th: Thread): multiset<Event> {
    multiset(Queue(f, th))
  }

  function AllOwed(f: Filter, ts: seq<Thread>): multiset<Event> {
    if |ts| == 0 then multiset{} else AllOwed(f, ts[..|ts| - 1]) + Owed(f, ts[|ts| - 1])
  }

  lemma Exchange(a: multiset<Event>, b: multiset<Event>, c: multiset<Event>)
    ensures (a + b) + c == (a + c) + b
  {}

  lemma {:induction false} OwedUpdate(f: Filter, ts: seq<Thread>, t: nat, th: Thread)
    requires t < |ts|
    ensures AllOwed(f, ts[t := th]) + Owed(f, ts[t]) == AllOwed(f, ts) + Owed(f, th)
  {
    hide Owed;
    var n := |ts| - 1;
    var front, was, new_ := AllOwed(f, ts[..n]), Owed(f, ts[t]), Owed(f, th);
    if t == n {
      assert ts[t := th][..n] == ts[..n];
      Exchange(front, new_, was);
    } else {
      var last := Owed(f, ts[n]);
      assert ts[t := th][..n] == ts[..n][t := th];
      OwedUpdate(f, ts[..n], t, th);
      var front' := AllOwed(f, ts[..n][t := th]);
      Exchange(front', last, was);
      Exchange(front, new_, last);
    }
  }

  // The shared log, seen from inside the critical section: complete up to the
  // event before this one, plus what this call has written so far.
  ghost predicate Progress(pc: Pc, base: Log, full: Log, log: Log) {
    match pc
    case Ready | Waiting(_) => false
    case Locked(e) => log == base
    case Missing(e) => log == base && PathOf(e) !in base
    case Present(e) => log == base && PathOf(e) in base
    case CountLoaded(e, c) => log == base && PathOf(e) in base && c == base[PathOf(e)].count
    case CountStored(e) =>
      PathOf(e) in base && log == base[PathOf(e) := base[PathOf(e)].(count := base[PathOf(e)].count + 1)]
    case FlagsLoaded(e, b) =>
      && PathOf(e) in base && b == base[PathOf(e)].flags
      && log == base[PathOf(e) := base[PathOf(e)].(count := base[PathOf(e)].count + 1)]
    case Stored(e) => log == full && PathOf(e) in full
    case Leaving(e, rc) => log == full && PathOf(e) in full && rc == full[PathOf(e)].count
  }

  // The values returned are those of the calls made one after another in the
  // order of the history.
  ghost predicate ReturnsMatch(f: Filter, hist: seq<Event>, rcs: seq<nat>) {
    && |rcs| <= |hist|
    && forall i :: 0 <= i < |rcs| ==>
         PathOf(hist[i]) in Fold(f, hist[..i + 1]) && rcs[i] == Fold(f, hist[..i + 1])[PathOf(hist[i])].count
  }

  lemma ReturnsExtend(f: Filter, hist: seq<Event>, rcs: seq<nat>, e: Event)
    requires ReturnsMatch(f, hist, rcs)
    ensures ReturnsMatch(f, hist + [e], rcs)
  {
    forall i | 0 <= i < |rcs|
      ensures PathOf((hist + [e])[i]) in Fold(f, (hist + [e])[..i + 1])
      ensures rcs[i] == Fold(f, (hist + [e])[..i + 1])[PathOf((hist + [e])[i])].count
    {
      assert (hist + [e])[..i + 1] == hist[..i + 1];
    }
  }

  // Exactly the owner of the mutex is inside, and only accepted events wait.
  ghost predicate TakesTurns(f: Filter, s: State) {
    && (forall t :: 0 <= t < |s.threads| ==> (Inside(s.threads[t].pc) <==> s.owner == Some(t)))
    && (forall t :: 0 <= t < |s.threads| && s.threads[t].pc.Waiting? ==> Accepted(f, s.threads[t].pc.e))
    && (s.owner.Some? ==> s.owner.value < |s.threads|)
    && (forall i :: 0 <= i < |s.hist| ==> Accepted(f, s.hist[i]))
  }

  // No accepted event is lost or made up.
  ghost predicate Accounted(f: Filter, s: State, all: multiset<Event>) {
    multiset(s.hist) + AllOwed(f, s.threads) == all
  }

  // The shared log is the fold of the history, up to what the owner of the
  // mutex has still to write.
  ghost predicate LogMatches(f: Filter, s: State) {
    && ReturnsMatch(f, s.hist, s.rcs)
    && match s.owner
       case None => s.log == Fold(f, s.hist) && |s.rcs| == |s.hist|
       case Some(t) =>
         && t < |s.threads| && Inside(s.threads[t].pc)
         && |s.hist| == |s.rcs| + 1
         && s.threads[t].pc.e == s.hist[|s.rcs|]
         && Progress(s.threads[t].pc, Fold(f, s.hist[..|s.rcs|]), Fold(f, s.hist), s.log)
  }

  ghost predicate Inv(f: Filter, s: State, all: multiset<Event>) {
    TakesTurns(f, s) && Accounted(f, s, all) && LogMatches(f, s)
  }

  lemma TurnsKept(f: Filter, s: State, t: nat)
    requires TakesTurns(f, s) && t < |s.threads|
    ensures TakesTurns(f, Move(f, s, t))
  {}

  lemma Balance(h: multiset<Event>, h': multiset<Event>, a: multiset<Event>, a': multiset<Event>,
                o: multiset<Event>, o': multiset<Event>)
    requires a' + o == a + o' && h' + o' == h + o
    ensures h' + a' == h + a
  {
    forall e: Event
      ensures (h' + a')[e] == (h + a)[e]
    {
      assert (a' + o)[e] == (a + o')[e] && (h' + o')[e] == (h + o)[e];
    }
  }

  // Taking the mutex moves one event from the thread's queue to the history;
  // no other move touches either.
  lemma QueueMoves(f: Filter, s: State, t: nat)
    requires t < |s.threads|
    ensures var (th, th') := (s.threads[t], Move(f, s, t).threads[t]);
      if th.pc.Waiting? && s.owner.None?
      then Queue(f, th) == [th.pc.e] + Queue(f, th') && Move(f, s, t).hist == s.hist + [th.pc.e]
      else Queue(f, th') == Queue(f, th) && Move(f, s, t).hist == s.hist
  {
    var th := s.threads[t];
    if th.pc.Ready? && |th.todo| > 0 {
      assert th.todo == [th.todo[0]] + th.todo[1..];
      KeptCons(f, th.todo[0], th.todo[1..]);
    }
  }

  lemma OwedMoves(f: Filter, s: State, t: nat)
    requires t < |s.threads|
    ensures multiset(Move(f, s, t).hist) + Owed(f, Move(f, s, t).threads[t]) == multiset(s.hist) + Owed(f, s.threads[t])
  {
    QueueMoves(f, s, t);
    var th, s' := s.threads[t], Move(f, s, t);
    if th.pc.Waiting? && s.owner.None? {
      PassOn(s.hist, th.pc.e, Queue(f, s'.threads[t]));
    }
  }

  lemma PassOn(hist: seq<Event>, e: Event, queue: seq<Event>)
    ensures multiset(hist + [e]) + multiset(queue) == multiset(hist) + multiset([e] + queue)
  {}

  lemma AccountsKept(f: Filter, s: State, t: nat, all: multiset<Event>)
    requires Accounted(f, s, all) && t < |s.threads|
    ensures Accounted(f, Move(f, s, t), all)
  {
    var s' := Move(f, s, t);
    var th' := s'.threads[t];
    assert s'.threads == s.threads[t := th'];
    OwedUpdate(f, s.threads, t, th');
    OwedMoves(f, s, t);
    Balance(multiset(s.hist), multiset(s'.hist), AllOwed(f, s.threads), AllOwed(f, s'.threads),
            Owed(f, s.threads[t]), Owed(f, th'));
  }

  // The owner's accesses, one by one, carry out one step of the fold.
  lemma AccessProgresses(f: Filter, pc: Pc, base: Log, log: Log)
    requires Inside(pc) && Accepted(f, pc.e)
    requires Progress(pc, base, Step(f, base, pc.e), log)
    ensures var (pc', log') := Access(pc, log);
      Inside(pc') && pc'.e == pc.e && Progress(pc', base, Step(f, base, pc.e), log')
  {}

  lemma OwnerProgresses(f: Filter, s: State, t: nat)
    requires TakesTurns(f, s) && LogMatches(f, s) && s.owner == Some(t)
    ensures LogMatches(f, Move(f, s, t))
  {
    hide Fold, Accepted, Step, Access;
    var n, pc := |s.rcs|, s.threads[t].pc;
    assert s.hist == s.hist[..n] + [s.hist[n]];
    assert s.hist[..n + 1] == s.hist;
    FoldNext(f, s.hist[..n], s.hist[n]);
    if !pc.Leaving? {
      AccessProgresses(f, pc, Fold(f, s.hist[..n]), s.log);
    }
  }

  lemma OthersWait(f: Filter, s: State, t: nat)
    requires TakesTurns(f, s) && LogMatches(f, s) && t < |s.threads| && s.owner != Some(t)
    ensures LogMatches(f, Move(f, s, t))
  {
    var th := s.threads[t];
    if th.pc.Waiting? && s.owner.None? {
      assert (s.hist + [th.pc.e])[..|s.rcs|] == s.hist;
      ReturnsExtend(f, s.hist, s.rcs, th.pc.e);
    }
  }

  // Whatever thread moves next, the invariant stays.
  lemma MoveKeeps(f: Filter, s: State, t: nat, all: multiset<Event>)
    requires Inv(f, s, all) && t < |s.threads|
    ensures Inv(f, Move(f, s, t), all)
  {
    TurnsKept(f, s, t);
    AccountsKept(f, s, t, all);
    if s.owner == Some(t) { OwnerProgresses(f, s, t); } else { OthersWait(f, s, t); }
  }

  lemma {:induction false} RunKeeps(f: Filter, s: State, schedule: seq<nat>, all: multiset<Event>)
    requires Inv(f, s, all)
    requires forall i :: 0 <= i < |schedule| ==> schedule[i] < |s.threads|
    ensures Inv(f, Run(f, s, schedule), all)
  {
    hide Inv, Move;
    if |schedule| > 0 {
      var n := |schedule| - 1;
      RunKeeps(f, s, schedule[..n], all);
      MoveKeeps(f, Run(f, s, schedule[..n]), schedule[n], all);
    }
  }

  function Concat(work: seq<seq<Event>>): seq<Event> {
    if |work| == 0 then [] else Concat(work[..|work| - 1]) + work[|work| - 1]
  }

  lemma PassOnAll(a: seq<Event>, b: seq<Event>)
    ensures multiset(a + b) == multiset(a) + multiset(b)
  {}

  lemma {:induction false} StartOwes(f: Filter, work: seq<seq<Event>>)
    ensures AllOwed(f, Start(work).threads) == multiset(Kept(f, Concat(work)))
  {
    if |work| > 0 {
      var n := |work| - 1;
      StartOwes(f, work[..n]);
      assert Start(work).threads[..n] == Start(work[..n]).threads;
      assert Queue(f, Start(work).threads[n]) == Kept(f, work[n]);
      KeptAppend(f, Concat(work[..n]), work[n]);
      PassOnAll(Kept(f, Concat(work[..n])), Kept(f, work[n]));
    }
  }

  ghost predicate Finished(s: State) {
    forall t :: 0 <= t < |s.threads| ==> s.threads[t].pc.Ready? && |s.threads[t].todo| == 0
  }

  lemma {:induction false} FinishedOwesNothing(f: Filter, ts: seq<Thread>)
    requires forall t :: 0 <= t < |ts| ==> ts[t].pc.Ready? && |ts[t].todo| == 0
    ensures AllOwed(f, ts) == multiset{}
  {
    if |ts| > 0 { FinishedOwesNothing(f, ts[..|ts| - 1]); }
  }

  lemma StartKeeps(f: Filter, work: seq<seq<Event>>)
    ensures Inv(f, Start(work), multiset(Kept(f, Concat(work))))
  {
    hide Kept, Concat, Owed;
    StartOwes(f, work);
  }

  // At every moment of every interleaving, with the mutex free: the shared log
  // is the fold of a history of accepted events, and each value returned is
  // the count that history gives its path at that point.
  lemma EveryRunIsSequential(f: Filter, work: seq<seq<Event>>, schedule: seq<nat>)
    requires forall i :: 0 <= i < |schedule| ==> schedule[i] < |work|
    ensures var s := Run(f, Start(work), schedule);
      && multiset(s.hist) <= multiset(Kept(f, Concat(work)))
      && ReturnsMatch(f, s.hist, s.rcs)
      && (s.owner.None? ==> s.log == Fold(f, s.hist) && |s.rcs| == |s.hist|)
  {
    hide Kept, Concat, Owed;
    var all := multiset(Kept(f, Concat(work)));
    StartKeeps(f, work);
    RunKeeps(f, Start(work), schedule, all);
  }

  lemma AllDone(f: Filter, s: State, all: multiset<Event>)
    requires Inv(f, s, all) && Finished(s)
    ensures multiset(s.hist) == all && s.log == Fold(f, s.hist)
  {
    hide Fold;
    FinishedOwesNothing(f, s.threads);
  }

  // Once every thread has made all its calls, the log is the one a single
  // thread would have left by making them all in any order: no update is lost.
  lemma NoUpdateLost(f: Filter, work: seq<seq<Event>>, schedule: seq<nat>, order: seq<Event>)
    requires forall i :: 0 <= i < |schedule| ==> schedule[i] < |work|
    requires Finished(Run(f, Start(work), schedule))
    requires multiset(order) == multiset(Concat(work))
    ensures Run(f, Start(work), schedule).log == Fold(f, order)
  {
    hide Inv, Kept, Concat, Fold, Run, Finished;
    var all := multiset(Kept(f, Concat(work)));
    var s := Run(f, Start(work), schedule);
    StartKeeps(f, work);
    RunKeeps(f, Start(work), schedule, all);
    AllDone(f, s, all);
    FoldIgnoresOrder(f, s.hist, Kept(f, Concat(work)));
    FoldOfKept(f, Concat(work));
    FoldIgnoresOrder(f, Concat(work), order);
  }
}
