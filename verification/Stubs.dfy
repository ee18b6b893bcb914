// The files that were only looked at: the script makes them empty, and the
// directories that were read.

module Stubs {
  import opened AccessLog
  import opened LogSummary
  import opened PrintLog
  import opened PostProcess
  import opened Distill
  import opened Pipeline

  const OP_GETATTR: nat := 0
  const OP_READDIR: nat := 3

  // The attributes were asked for, and the file was not opened, read or followed.
  predicate Looked(path: Path, flags: nat) {
    '/' in path && TestBit(flags, OP_GETATTR) && !CopyWanted(path, flags)
  }

  predicate TouchWanted(path: Path, flags: nat) {
    Looked(path, flags) && !TestBit(flags, OP_READDIR)
  }

  predicate FolderWanted(path: Path, flags: nat) {
    Looked(path, flags) && TestBit(flags, OP_READDIR)
  }

  // ---- one line

  lemma PathTouches(path: Path, mask: string, from: string, to: string, c: Command)
    requires c.Touch?
    ensures multiset(ProcessPath(path, mask, from, to))[c] ==
            if c == Touch(to + path) && '/' in path && 'O' !in mask && 'R' !in mask && 'r' !in mask
               && 'G' in mask && 'd' !in mask
            then 1 else 0
  {
    GetDirFinds(path);
    if GetDir(path).Some? { SevenIsNotTen(GetDir(path).value); }
  }

  lemma PathFolder(path: Path, mask: string, from: string, to: string)
    requires '/' in path && 'O' !in mask && 'R' !in mask && 'r' !in mask && 'G' in mask && 'd' in mask
    ensures ProcessPath(path, mask, from, to) == [MkdirP(to + path)]
  {
    GetDirFinds(path);
    SevenIsNotTen(GetDir(path).value);
  }

  lemma MaskLooks(flags: nat)
    ensures var mask := "[" + MaskOf(flags) + "]";
      && ('G' in mask <==> TestBit(flags, OP_GETATTR))
      && ('d' in mask <==> TestBit(flags, OP_READDIR))
  {
    hide MaskOf;
    SymbolShows(flags, OP_GETATTR);
    SymbolShows(flags, OP_READDIR);
  }

  lemma EntryTouches(path: Path, e: Entry, from: string, to: string, c: Command)
    requires c.Touch?
    ensures multiset(LineCommands(LineOf(path, e), from, to))[c] ==
            if ':' !in path && c == Touch(to + path) && TouchWanted(path, e.flags) then 1 else 0
  {
    hide LineOf, MaskOf, Padded, SplitOf, ProcessPath, Sub;
    LineNotComment(path, e);
    if ':' in path {
      ColonsBreakLine(path, e);
    } else {
      LineSplits(path, e);
      PathTouches(path, "[" + MaskOf(e.flags) + "]", from, to, c);
      MaskWants(e.flags);
      MaskLooks(e.flags);
    }
  }

  lemma EntryFolder(path: Path, e: Entry, from: string, to: string)
    requires ':' !in path && FolderWanted(path, e.flags)
    ensures LineCommands(LineOf(path, e), from, to) == [MkdirP(to + path)]
  {
    hide LineOf, MaskOf, Padded, SplitOf, ProcessPath, Sub;
    LineNotComment(path, e);
    LineSplits(path, e);
    MaskWants(e.flags);
    MaskLooks(e.flags);
    PathFolder(path, "[" + MaskOf(e.flags) + "]", from, to);
  }

  lemma SameTouch(to: string, p: Path, q: Path)
    requires to + p == to + q
    ensures p == q
  {
    assert p == (to + p)[|to|..];
    assert q == (to + q)[|to|..];
  }

  // ---- all lines

  // The lines of an entry, whatever newlines its path holds, as long as they do no
  // harm.
  lemma PiecesTouch(q: Path, e: Entry, from: string, to: string, c: Command)
    requires c.Touch?
    requires '\n' in q ==> ':' !in q && CommentsBehind(q) && !TouchWanted(q, e.flags) && !CopyWanted(q, e.flags)
    ensures Yield(Pieces(q, e), from, to, c) ==
            if ':' !in q && c == Touch(to + q) && TouchWanted(q, e.flags) then 1 else 0
  {
    hide LineOf, LineCommands, SplitOf, Pieces, Sub;
    if '\n' in q {
      var parts := SplitOf(q, '\n');
      PiecesOf(q, e);
      YieldAppend([LineOf(parts[0], e)], parts[1..], from, to, c);
      YieldOne(LineOf(parts[0], e), from, to, c);
      if '/' in parts[0] { PartInside(q, '\n', parts[0], '/'); }
      EntryTouches(parts[0], e, from, to, c);
      CommentsYield(parts[1..], from, to, c);
    } else {
      WholePiece(q, e);
      YieldOne(LineOf(q, e), from, to, c);
      EntryTouches(q, e, from, to, c);
    }
  }

  ghost predicate Quiet(log: Log, q: Path)
    requires q in log
  {
    '\n' in q ==>
      ':' !in q && CommentsBehind(q) && !TouchWanted(q, log[q].flags) && !CopyWanted(q, log[q].flags)
  }

  lemma {:induction false} TouchesOf(log: Log, order: seq<Path>, from: string, to: string, p: Path)
    requires forall q :: q in order ==> q in log && Quiet(log, q)
    requires forall i, j :: 0 <= i < j < |order| ==> order[i] != order[j]
    ensures Yield(AllPieces(log, order), from, to, Touch(to + p)) ==
            if p in order && ':' !in p && TouchWanted(p, log[p].flags) then 1 else 0
  {
    hide Pieces, TouchWanted, CopyWanted, CommentsBehind, Yield;
    if |order| == 0 {
      CommentsYield([], from, to, Touch(to + p));
    } else {
      var n := |order| - 1;
      var q := order[n];
      assert order == order[..n] + [q];
      TouchesOf(log, order[..n], from, to, p);
      YieldAppend(AllPieces(log, order[..n]), Pieces(q, log[q]), from, to, Touch(to + p));
      PiecesTouch(q, log[q], from, to, Touch(to + p));
      if to + p == to + q { SameTouch(to, p, q); }
    }
  }

  lemma {:induction false} OnlyTouches(log: Log, order: seq<Path>, from: string, to: string, c: Command)
    requires forall q :: q in order ==> q in log && Quiet(log, q)
    requires c.Touch? && Yield(AllPieces(log, order), from, to, c) > 0
    ensures exists p :: p in order && ':' !in p && TouchWanted(p, log[p].flags) && c == Touch(to + p)
  {
    hide Pieces, TouchWanted, CopyWanted, CommentsBehind, Yield;
    if |order| == 0 {
      CommentsYield([], from, to, c);
      assert false;
    } else {
      var n := |order| - 1;
      var q := order[n];
      assert order == order[..n] + [q];
      YieldAppend(AllPieces(log, order[..n]), Pieces(q, log[q]), from, to, c);
      PiecesTouch(q, log[q], from, to, c);
      if Yield(AllPieces(log, order[..n]), from, to, c) > 0 { OnlyTouches(log, order[..n], from, to, c); }
    }
  }

  // ---- whole runs

  // Some accepted event asked for the attributes of p, which is not wanted as a
  // copy; `dir` tells whether one read it as a directory.
  ghost predicate Seen(f: Filter, events: seq<Event>, p: Path, dir: bool) {
    && '/' in p && ':' !in p && !Wanted(f, events, p)
    && Raised(f, events, p, OP_GETATTR) && (Raised(f, events, p, OP_READDIR) <==> dir)
  }

  lemma SeenInLog(f: Filter, events: seq<Event>, p: Path)
    ensures var log := Fold(f, events);
      && (Seen(f, events, p, false) <==> p in log && ':' !in p && TouchWanted(p, log[p].flags))
      && (Seen(f, events, p, true) <==> p in log && ':' !in p && FolderWanted(p, log[p].flags))
  {
    WantedInLog(f, events, p);
    LogOfRun(f, events, p, OP_GETATTR);
    LogOfRun(f, events, p, OP_READDIR);
  }

  // An empty file for each file only looked at, once, and no other; each directory
  // that was read.
  ghost predicate Shown(f: Filter, events: seq<Event>, to: string, out: seq<Command>) {
    && (forall p :: multiset(out)[Touch(to + p)] == if Seen(f, events, p, false) then 1 else 0)
    && (forall c :: c in out && c.Touch? ==> exists p :: Seen(f, events, p, false) && c == Touch(to + p))
    && (forall p :: Seen(f, events, p, true) ==> MkdirP(to + p) in out)
  }

  lemma ShownEnough(f: Filter, events: seq<Event>, header: seq<string>, order: seq<Path>, from: string, to: string)
    requires Orders(order, Fold(f, events)) && forall l :: l in header ==> Sub(l, 1) == "#"
    requires forall q :: q in Fold(f, events) ==> Harmless(f, events, q)
    requires forall q, dir :: q in Fold(f, events) && '\n' in q ==> !Seen(f, events, q, dir)
    ensures Shown(f, events, to, Script(header + AllPieces(Fold(f, events), order), from, to))
  {
    hide Fold, Script, AllPieces, Wanted, TouchWanted, FolderWanted, CopyWanted, CommentsBehind, Seen, Sub;
    var log := Fold(f, events);
    var lines := header + AllPieces(log, order);
    var out := Script(lines, from, to);
    forall q | q in order ensures q in log && Quiet(log, q) {
      WantedInLog(f, events, q);
      SeenInLog(f, events, q);
      assert '\n' in q ==> !Seen(f, events, q, false);
    }
    forall p
      ensures multiset(out)[Touch(to + p)] == if Seen(f, events, p, false) then 1 else 0
      ensures Seen(f, events, p, true) ==> MkdirP(to + p) in out
    {
      SeenInLog(f, events, p);
      TouchesOf(log, order, from, to, p);
      HeaderAside(header, AllPieces(log, order), from, to, Touch(to + p));
      if Seen(f, events, p, true) {
        assert '\n' !in p;
        FolderMade(log, header, order, from, to, p);
      }
    }
    forall c | c in out && c.Touch?
      ensures exists p :: Seen(f, events, p, false) && c == Touch(to + p)
    {
      assert c in multiset(out);
      HeaderAside(header, AllPieces(log, order), from, to, c);
      OnlyTouches(log, order, from, to, c);
      var p :| p in order && ':' !in p && TouchWanted(p, log[p].flags) && c == Touch(to + p);
      SeenInLog(f, events, p);
    }
  }

  lemma HeaderAside(header: seq<string>, lines: seq<string>, from: string, to: string, c: Command)
    requires !c.Progress? && forall l :: l in header ==> Sub(l, 1) == "#"
    ensures multiset(Script(header + lines, from, to))[c] == Yield(lines, from, to, c)
  {
    hide Script, Sub;
    ScriptYields(header + lines, from, to, c);
    YieldAppend(header, lines, from, to, c);
    CommentsYield(header, from, to, c);
  }

  lemma FolderMade(log: Log, header: seq<string>, order: seq<Path>, from: string, to: string, p: Path)
    requires (forall q :: q in order ==> q in log) && p in order
    requires '\n' !in p && ':' !in p && FolderWanted(p, log[p].flags)
    ensures MkdirP(to + p) in Script(header + AllPieces(log, order), from, to)
  {
    hide Script, AllPieces, LineOf, FolderWanted, Pieces, LineCommands;
    var c, lines := MkdirP(to + p), header + AllPieces(log, order);
    EntryFolder(p, log[p], from, to);
    WholePiece(p, log[p]);
    PiecesInside(log, order, p);
    assert LineOf(p, log[p]) in Pieces(p, log[p]);
    assert LineOf(p, log[p]) in lines && c in LineCommands(LineOf(p, log[p]), from, to);
    YieldFrom(lines, from, to, c);
    ScriptYields(lines, from, to, c);
    assert c in multiset(Script(lines, from, to));
  }

  // A line touches and makes only what a piece of it names.
  lemma MadeInside(l: string, from: string, to: string, c: Command) returns (p: string)
    requires c in LineCommands(l, from, to) && (c.Touch? || c.MkdirP?) && '\n' !in l
    ensures '\n' !in p && c == if c.Touch? then Touch(to + p) else MkdirP(to + p)
  {
    hide SplitOf;
    var params := SplitOf(l, ':');
    assert |params| == 3;
    var path := params[2];
    if '\n' in path { PartInside(l, ':', path, '\n'); }
    GetDirFinds(path);
    p := if c == MkdirP(to + GetDir(path).value) then GetDir(path).value else path;
  }

  lemma NothingMade(lines: seq<string>, from: string, to: string, q: Path)
    requires (forall l :: l in lines ==> '\n' !in l) && '\n' in q
    ensures Touch(to + q) !in Script(lines, from, to) && MkdirP(to + q) !in Script(lines, from, to)
  {
    hide Script, LineCommands;
    forall c | c == Touch(to + q) || c == MkdirP(to + q)
      ensures c !in Script(lines, from, to)
    {
      if c in Script(lines, from, to) {
        assert c in multiset(Script(lines, from, to));
        ScriptYields(lines, from, to, c);
        YieldFrom(lines, from, to, c);
        var l :| l in lines && c in LineCommands(l, from, to);
        var p := MadeInside(l, from, to, c);
        SameTouch(to, p, q);
        assert false;
      }
    }
  }

  // With newlines that do no harm to the copies, the script makes just the empty
  // files and directories it should, exactly when no path with a newline is to be
  // made at all.
  lemma ShownExactly(f: Filter, events: seq<Event>, settings: seq<nat>, from: string, to: string, out: seq<Command>)
    requires RunOver(f, events, settings, from, to, out)
    requires forall q :: q in Fold(f, events) ==> Harmless(f, events, q)
    ensures Shown(f, events, to, out) <==>
            forall q, dir :: q in Fold(f, events) && '\n' in q ==> !Seen(f, events, q, dir)
  {
    hide Fold, Script, Harmless, Seen, HeaderLines, Unlines, Body, ReadLines, AllPieces, Sub;
    var log := Fold(f, events);
    var size: nat, body :| Printed(log, body) &&
                           out == Script(ReadLines(Unlines(HeaderLines(size, settings)) + body), from, to);
    var order :| Orders(order, log) && body == Body(log, order);
    var header := HeaderLines(size, settings);
    HeaderPlain(size, settings);
    TextReadBack(log, size, settings, order);
    BodyIsPieces(log, order);
    assert out == Script(header + AllPieces(log, order), from, to);
    if forall q, dir :: q in log && '\n' in q ==> !Seen(f, events, q, dir) {
      ShownEnough(f, events, header, order, from, to);
    }
    if Shown(f, events, to, out) {
      forall q, dir | q in log && '\n' in q ensures !Seen(f, events, q, dir) {
        NothingMade(header + AllPieces(log, order), from, to, q);
        assert Touch(to + q) !in multiset(out);
      }
    }
  }
}
