// From the events of a run to the copy commands: the log printed by the file
// system and read back by the script, line by line.

module Pipeline {
  import opened RoundUp
  import opened HashTable
  import opened AccessLog
  import opened Buckets
  import opened LogSummary
  import opened PrintLog
  import opened PostProcess
  import opened Distill

  // ---- the lines of the printed text

  // The lines that an entry takes up; more than one if its path holds newlines.
  function Pieces(path: Path, e: Entry): seq<string> {
    SplitOf(LineOf(path, e), '\n')
  }

  function AllPieces(log: Log, order: seq<Path>): seq<string>
    requires forall p :: p in order ==> p in log
  {
    if |order| == 0 then []
    else AllPieces(log, order[..|order| - 1]) + Pieces(order[|order| - 1], log[order[|order| - 1]])
  }

  lemma PiecesText(s: string)
    ensures Unlines(SplitOf(s, '\n')) == s + "\n"
  {
    var parts := SplitOf(s, '\n');
    UnlinesIsJoin(parts);
    JoinWithLast(parts, '\n');
    JoinOfSplit(s, '\n');
  }

  lemma {:induction false} BodyIsPieces(log: Log, order: seq<Path>)
    requires forall p :: p in order ==> p in log
    ensures Body(log, order) == Unlines(AllPieces(log, order))
    ensures forall l :: l in AllPieces(log, order) ==> '\n' !in l
  {
    hide LineOf, SplitOf, Unlines;
    if |order| == 0 {
      UnlinesNone();
    } else {
      var n := |order| - 1;
      var line := LineOf(order[n], log[order[n]]);
      BodyIsPieces(log, order[..n]);
      PiecesText(line);
      JoinOfSplit(line, '\n');
      UnlinesAppend(AllPieces(log, order[..n]), SplitOf(line, '\n'));
      assert Body(log, order[..n]) + (line + "\n") == Body(log, order[..n]) + line + "\n";
    }
  }

  lemma UnlinesNone()
    ensures Unlines([]) == ""
  {}

  // The script sees the header and then these lines.
  lemma TextReadBack(log: Log, size: nat, settings: seq<nat>, order: seq<Path>)
    requires forall p :: p in order ==> p in log
    ensures var header := HeaderLines(size, settings);
      ReadLines(Unlines(header) + Body(log, order)) == header + AllPieces(log, order)
  {
    hide HeaderLines, Body, Unlines, AllPieces;
    var header, lines := HeaderLines(size, settings), AllPieces(log, order);
    HeaderPlain(size, settings);
    BodyIsPieces(log, order);
    UnlinesAppend(header, lines);
    ReadBack(header + lines);
  }

  lemma {:induction false} SplitBehind(a: string, s: string, d: char)
    requires d !in a
    ensures SplitOf(a + s, d) == [a + SplitOf(s, d)[0]] + SplitOf(s, d)[1..]
  {
    var rest := SplitOf(s, d);
    if |a| == 0 {
      assert a + s == s && a + rest[0] == rest[0];
      assert rest == [rest[0]] + rest[1..];
    } else {
      assert (a + s)[1..] == a[1..] + s;
      SplitBehind(a[1..], s, d);
      assert a + rest[0] == [a[0]] + (a[1..] + rest[0]);
    }
  }

  // The first of an entry's lines reads like that of a shorter path.
  lemma PiecesOf(path: Path, e: Entry)
    ensures Pieces(path, e) == [LineOf(SplitOf(path, '\n')[0], e)] + SplitOf(path, '\n')[1..]
  {
    hide MaskOf, Padded, SplitOf;
    var front := "[" + MaskOf(e.flags) + "]:" + Padded(e.count) + ":";
    MaskPlain(e.flags);
    PaddedPlain(e.count, '\n');
    SplitBehind(front, path, '\n');
  }

  lemma PaddedPlain(n: nat, c: char)
    requires c == ':' || c == '\n' || c == '#'
    ensures c !in Padded(n)
  {
    DecimalPlain(n, c);
  }

  lemma {:induction false} PartInside(s: string, d: char, part: string, c: char)
    requires part in SplitOf(s, d) && c in part
    ensures c in s
  {
    if |s| > 0 {
      var rest := SplitOf(s[1..], d);
      if s[0] == d {
        assert part == "" || part in rest;
        PartInside(s[1..], d, part, c);
      } else if part in rest[1..] {
        assert part in rest;
        PartInside(s[1..], d, part, c);
      } else {
        assert part == [s[0]] + rest[0];
        if c != s[0] { PartInside(s[1..], d, rest[0], c); }
      }
    }
  }

  // ---- how often the script gives a command

  function Yield(lines: seq<string>, from: string, to: string, c: Command): nat {
    if |lines| == 0 then 0
    else Yield(lines[..|lines| - 1], from, to, c) + multiset(LineCommands(lines[|lines| - 1], from, to))[c]
  }

  lemma {:induction false} ScriptYields(lines: seq<string>, from: string, to: string, c: Command)
    requires !c.Progress?
    ensures multiset(Script(lines, from, to))[c] == Yield(lines, from, to, c)
  {
    hide LineCommands;
    if |lines| > 0 {
      var n := |lines| - 1;
      assert lines == lines[..n] + [lines[n]];
      ScriptYields(lines[..n], from, to, c);
      ScriptNext(lines[..n], lines[n], from, to, c);
    }
  }

  lemma {:induction false} YieldAppend(a: seq<string>, b: seq<string>, from: string, to: string, c: Command)
    ensures Yield(a + b, from, to, c) == Yield(a, from, to, c) + Yield(b, from, to, c)
  {
    hide LineCommands;
    if |b| == 0 {
      assert a + b == a;
    } else {
      assert (a + b)[..|a + b| - 1] == a + b[..|b| - 1];
      YieldAppend(a, b[..|b| - 1], from, to, c);
    }
  }

  lemma {:induction false} YieldFrom(lines: seq<string>, from: string, to: string, c: Command)
    ensures Yield(lines, from, to, c) > 0 <==> exists l :: l in lines && c in LineCommands(l, from, to)
  {
    hide LineCommands;
    if |lines| > 0 {
      var n := |lines| - 1;
      assert lines == lines[..n] + [lines[n]];
      YieldFrom(lines[..n], from, to, c);
    }
  }

  lemma YieldOne(line: string, from: string, to: string, c: Command)
    ensures Yield([line], from, to, c) == multiset(LineCommands(line, from, to))[c]
  {
    hide LineCommands;
    assert [line][..0] == [];
  }

  lemma {:induction false} CommentsYield(lines: seq<string>, from: string, to: string, c: Command)
    requires forall l :: l in lines ==> Sub(l, 1) == "#"
    ensures Yield(lines, from, to, c) == 0
  {
    if |lines| > 0 { CommentsYield(lines[..|lines| - 1], from, to, c); }
  }

  // ---- when newlines do no harm

  predicate CommentsBehind(q: Path) {
    forall i :: 0 < i < |SplitOf(q, '\n')| ==> Sub(SplitOf(q, '\n')[i], 1) == "#"
  }

  // A path with newlines that need not be copied or complained of, and whose
  // other lines read like comments.
  ghost predicate Harmless(f: Filter, events: seq<Event>, q: Path) {
    '\n' in q ==> ':' !in q && CommentsBehind(q) && !Wanted(f, events, q)
  }

  lemma BrokenYields(q: Path, e: Entry, from: string, to: string, c: Command)
    requires ':' !in q && CommentsBehind(q) && !CopyWanted(q, e.flags)
    requires c.CopyFile? || c.WrongFormat?
    ensures Yield(Pieces(q, e), from, to, c) == 0
  {
    hide LineOf, LineCommands, SplitOf, Pieces, Sub;
    var parts := SplitOf(q, '\n');
    PiecesOf(q, e);
    YieldAppend([LineOf(parts[0], e)], parts[1..], from, to, c);
    YieldOne(LineOf(parts[0], e), from, to, c);
    if ':' in parts[0] { PartInside(q, '\n', parts[0], ':'); }
    if '/' in parts[0] { PartInside(q, '\n', parts[0], '/'); }
    EntryCommands(parts[0], e, from, to, c);
    CommentsYield(parts[1..], from, to, c);
  }

  function Unbroken(order: seq<Path>): (r: seq<Path>)
    ensures forall p :: p in r <==> p in order && '\n' !in p
  {
    if |order| == 0 then []
    else Unbroken(order[..|order| - 1]) + if '\n' in order[|order| - 1] then [] else [order[|order| - 1]]
  }

  lemma {:induction false} UnbrokenOnce(order: seq<Path>)
    requires forall i, j :: 0 <= i < j < |order| ==> order[i] != order[j]
    ensures forall i, j :: 0 <= i < j < |Unbroken(order)| ==> Unbroken(order)[i] != Unbroken(order)[j]
  {
    if |order| > 0 {
      var n := |order| - 1;
      UnbrokenOnce(order[..n]);
      assert order[n] !in order[..n];
      assert order[n] !in Unbroken(order[..n]);
    }
  }

  // The unharmed part of the log is all that shows.
  lemma {:induction false} SameYield(log: Log, order: seq<Path>, from: string, to: string, c: Command)
    requires forall q :: q in order ==> q in log
    requires forall q :: q in order && '\n' in q ==> ':' !in q && CommentsBehind(q) && !CopyWanted(q, log[q].flags)
    requires c.CopyFile? || c.WrongFormat?
    ensures Yield(AllPieces(log, order), from, to, c) == Yield(EntryLines(log, Unbroken(order)), from, to, c)
  {
    hide LineOf, LineCommands, Pieces, CommentsBehind, CopyWanted, Yield;
    if |order| > 0 {
      var n := |order| - 1;
      var q := order[n];
      var e := log[q];
      assert order == order[..n] + [q];
      SameYield(log, order[..n], from, to, c);
      YieldAppend(AllPieces(log, order[..n]), Pieces(q, e), from, to, c);
      if '\n' in q {
        BrokenYields(q, e, from, to, c);
        assert Unbroken(order) == Unbroken(order[..n]);
      } else {
        WholePiece(q, e);
        assert Unbroken(order)[..|Unbroken(order)| - 1] == Unbroken(order[..n]);
        YieldAppend(EntryLines(log, Unbroken(order[..n])), [LineOf(q, e)], from, to, c);
      }
    }
  }

  lemma WholePiece(q: Path, e: Entry)
    requires '\n' !in q
    ensures Pieces(q, e) == [LineOf(q, e)]
  {
    hide LineOf;
    PiecesOf(q, e);
    SplitNone(q, '\n');
  }

  // Harmless newlines: the script does what it is for.
  lemma HarmlessEnough(f: Filter, events: seq<Event>, header: seq<string>, order: seq<Path>, from: string, to: string)
    requires Orders(order, Fold(f, events)) && forall l :: l in header ==> Sub(l, 1) == "#"
    requires forall q :: q in Fold(f, events) ==> Harmless(f, events, q)
    ensures var log := Fold(f, events);
      var out := Script(header + AllPieces(log, order), from, to);
      Copied(f, events, from, to, out) && Complained(log, out)
  {
    hide Fold, Script, EntryLines, AllPieces, Wanted, CopyWanted, CommentsBehind, LineOf, Sub;
    var log := Fold(f, events);
    var whole := Unbroken(order);
    var out := Script(header + AllPieces(log, order), from, to);
    UnbrokenOnce(order);
    forall p
      ensures multiset(out)[CopyFile(from + p, to + p)] == if Wanted(f, events, p) then 1 else 0
      ensures p in log && ':' in p ==> WrongFormat(LineOf(p, log[p])) in out
    {
      SameScript(f, events, header, order, from, to, CopyFile(from + p, to + p));
      CopiesOf(header, log, whole, from, to, p);
      WantedInLog(f, events, p);
      if p in log && ':' in p {
        SameScript(f, events, header, order, from, to, WrongFormat(LineOf(p, log[p])));
        ComplaintsOf(header, log, whole, from, to, p);
      }
    }
    forall c | c in out && (c.CopyFile? || c.WrongFormat?)
      ensures c.CopyFile? ==> exists p :: Wanted(f, events, p) && c == CopyFile(from + p, to + p)
      ensures c.WrongFormat? ==> exists p :: p in log && ':' in p && c == WrongFormat(LineOf(p, log[p]))
    {
      SameScript(f, events, header, order, from, to, c);
      OnlyCopies(header, log, whole, from, to, c);
      var p :| p in whole && if ':' in p then c == WrongFormat(LineOf(p, log[p]))
                             else CopyWanted(p, log[p].flags) && c == CopyFile(from + p, to + p);
      WantedInLog(f, events, p);
    }
  }

  lemma SameScript(f: Filter, events: seq<Event>, header: seq<string>, order: seq<Path>,
                   from: string, to: string, c: Command)
    requires Orders(order, Fold(f, events)) && (c.CopyFile? || c.WrongFormat?)
    requires forall q :: q in Fold(f, events) ==> Harmless(f, events, q)
    ensures var log := Fold(f, events);
      var (out, out') := (Script(header + AllPieces(log, order), from, to),
                          Script(header + EntryLines(log, Unbroken(order)), from, to));
      multiset(out)[c] == multiset(out')[c] && (c in out <==> c in out')
  {
    hide Fold, Script, EntryLines, AllPieces, Wanted, CopyWanted, CommentsBehind;
    var log := Fold(f, events);
    forall q | q in order ensures Wanted(f, events, q) <==> ':' !in q && CopyWanted(q, log[q].flags) {
      WantedInLog(f, events, q);
    }
    var lines, lines' := AllPieces(log, order), EntryLines(log, Unbroken(order));
    SameYield(log, order, from, to, c);
    YieldAppend(header, lines, from, to, c);
    YieldAppend(header, lines', from, to, c);
    ScriptYields(header + lines, from, to, c);
    ScriptYields(header + lines', from, to, c);
    assert c in Script(header + lines, from, to) <==> c in multiset(Script(header + lines, from, to));
    assert c in Script(header + lines', from, to) <==> c in multiset(Script(header + lines', from, to));
  }

  // A command comes from one line.
  lemma CommandFrom(lines: seq<string>, from: string, to: string, c: Command) returns (l: string)
    requires c in Script(lines, from, to) && (c.CopyFile? || c.WrongFormat?)
    ensures l in lines && c in LineCommands(l, from, to)
  {
    hide Script, LineCommands;
    ScriptYields(lines, from, to, c);
    assert c in multiset(Script(lines, from, to));
    YieldFrom(lines, from, to, c);
    l :| l in lines && c in LineCommands(l, from, to);
  }

  // A line complains of itself alone, and copies a piece of itself alone.
  lemma CommandInside(l: string, from: string, to: string, c: Command)
    requires c in LineCommands(l, from, to) && (c.CopyFile? || c.WrongFormat?)
    ensures c.WrongFormat? ==> c == WrongFormat(l)
    ensures c.CopyFile? ==> exists p :: p in SplitOf(l, ':') && c == CopyFile(from + p, to + p)
  {
    hide SplitOf;
    var params := SplitOf(l, ':');
    if |params| == 3 {
      assert c in multiset(ProcessPath(params[2], params[0], from, to));
      PathCommands(params[2], params[0], from, to, c);
      assert params[2] in params;
    }
  }

  // A path with a newline is neither copied nor, as a whole line, complained of.
  lemma NothingBroken(lines: seq<string>, from: string, to: string, q: Path, line: string)
    requires forall l :: l in lines ==> '\n' !in l
    requires '\n' in q && '\n' in line
    ensures CopyFile(from + q, to + q) !in Script(lines, from, to)
    ensures WrongFormat(line) !in Script(lines, from, to)
  {
    hide Script, LineCommands, SplitOf;
    var c := CopyFile(from + q, to + q);
    if c in Script(lines, from, to) {
      var l := CommandFrom(lines, from, to, c);
      CommandInside(l, from, to, c);
      var p :| p in SplitOf(l, ':') && c == CopyFile(from + p, to + p);
      SameCopy(from, to, p, q);
      PartInside(l, ':', q, '\n');
      assert false;
    }
    if WrongFormat(line) in Script(lines, from, to) {
      var l := CommandFrom(lines, from, to, WrongFormat(line));
      CommandInside(l, from, to, WrongFormat(line));
      assert false;
    }
  }

  // A line without a colon is complained of, unless it is a comment.
  lemma StrayLine(lines: seq<string>, from: string, to: string, l: string)
    requires l in lines && ':' !in l && Sub(l, 1) != "#"
    ensures WrongFormat(l) in Script(lines, from, to)
  {
    hide Script, SplitOf;
    var c := WrongFormat(l);
    SplitNone(l, ':');
    assert c in LineCommands(l, from, to);
    YieldFrom(lines, from, to, c);
    ScriptYields(lines, from, to, c);
    assert c in multiset(Script(lines, from, to));
  }

  lemma {:induction false} PiecesInside(log: Log, order: seq<Path>, q: Path)
    requires (forall p :: p in order ==> p in log) && q in order
    ensures forall l :: l in Pieces(q, log[q]) ==> l in AllPieces(log, order)
  {
    hide Pieces;
    var n := |order| - 1;
    if order[n] != q {
      assert q in order[..n];
      PiecesInside(log, order[..n], q);
    }
  }

  // Harmful newlines: the script copies too little, or complains wrongly.
  lemma HarmlessNeeded(f: Filter, events: seq<Event>, header: seq<string>, order: seq<Path>,
                       from: string, to: string, q: Path)
    requires Orders(order, Fold(f, events)) && (forall l :: l in header ==> '\n' !in l)
    requires var log := Fold(f, events);
      var out := Script(header + AllPieces(log, order), from, to);
      Copied(f, events, from, to, out) && Complained(log, out)
    requires q in Fold(f, events)
    ensures Harmless(f, events, q)
  {
    hide Fold, Script, AllPieces, Wanted, LineOf, Sub, SplitOf;
    var log := Fold(f, events);
    var lines := header + AllPieces(log, order);
    var out := Script(lines, from, to);
    if '\n' in q {
      BodyIsPieces(log, order);
      assert '\n' in LineOf(q, log[q]) by { LineHolds(q, log[q], '\n'); }
      NothingBroken(lines, from, to, q, LineOf(q, log[q]));
      assert CopyFile(from + q, to + q) !in multiset(out);
      var parts := SplitOf(q, '\n');
      forall i | 0 < i < |parts| ensures Sub(parts[i], 1) == "#" {
        if Sub(parts[i], 1) != "#" {
          LaterLine(f, events, order, q, i);
          if ':' in parts[i] { PartInside(q, '\n', parts[i], ':'); }
          StrayLine(lines, from, to, parts[i]);
          var p :| p in log && ':' in p && WrongFormat(parts[i]) == WrongFormat(LineOf(p, log[p]));
          LineHolds(p, log[p], ':');
          assert false;
        }
      }
    }
  }

  lemma LineHolds(q: Path, e: Entry, c: char)
    requires c in q
    ensures c in LineOf(q, e)
  {
    hide MaskOf, Padded;
    var i :| 0 <= i < |q| && q[i] == c;
    var front := "[" + MaskOf(e.flags) + "]:" + Padded(e.count) + ":";
    assert LineOf(q, e)[|front| + i] == c;
  }

  lemma LaterLine(f: Filter, events: seq<Event>, order: seq<Path>, q: Path, i: nat)
    requires Orders(order, Fold(f, events)) && q in order && 0 < i < |SplitOf(q, '\n')|
    ensures SplitOf(q, '\n')[i] in AllPieces(Fold(f, events), order)
  {
    hide Fold, AllPieces, LineOf, SplitOf, Pieces;
    var log, parts := Fold(f, events), SplitOf(q, '\n');
    PiecesOf(q, log[q]);
    PiecesInside(log, order, q);
    assert parts[1..][i - 1] == parts[i];
    assert Pieces(q, log[q])[i] == parts[i];
  }

  // The printed log makes the script do what it is for exactly when the newlines
  // in the paths of the log do no harm.
  lemma CopiedExactly(f: Filter, events: seq<Event>, size: nat, settings: seq<nat>, order: seq<Path>,
                      from: string, to: string)
    requires Orders(order, Fold(f, events))
    ensures var log := Fold(f, events);
      var out := Script(ReadLines(Unlines(HeaderLines(size, settings)) + Body(log, order)), from, to);
      Copied(f, events, from, to, out) && Complained(log, out) <==>
      forall q :: q in log ==> Harmless(f, events, q)
  {
    hide Fold, Script, Copied, Complained, Harmless, HeaderLines, Unlines, Body, ReadLines, AllPieces, Sub;
    var log, header := Fold(f, events), HeaderLines(size, settings);
    HeaderPlain(size, settings);
    TextReadBack(log, size, settings, order);
    var out := Script(header + AllPieces(log, order), from, to);
    if Copied(f, events, from, to, out) && Complained(log, out) {
      forall q | q in log ensures Harmless(f, events, q) {
        HarmlessNeeded(f, events, header, order, from, to, q);
      }
    }
    if forall q :: q in log ==> Harmless(f, events, q) {
      HarmlessEnough(f, events, header, order, from, to);
    }
  }

  // ---- what a newline in a path can do

  // A path whose second line reads like an entry for a file that was opened.
  function Forged(p: Path): Path {
    "\n[O]:1:" + p
  }

  function FirstLine(e: Entry): string {
    "[" + MaskOf(e.flags) + "]:" + Padded(e.count) + ":"
  }

  lemma ForgedLines(header: seq<string>, p: Path, e: Entry)
    requires '\n' !in p && forall l :: l in header ==> '\n' !in l
    ensures ReadLines(Unlines(header) + LineOf(Forged(p), e) + "\n") == header + [FirstLine(e), "[O]:1:" + p]
  {
    hide MaskOf, Padded, ReadLines, Unlines;
    MaskPlain(e.flags);
    PaddedPlain(e.count, '\n');
    var two := [FirstLine(e), "[O]:1:" + p];
    assert LineOf(Forged(p), e) == two[0] + "\n" + two[1];
    UnlinesAppend(header, two);
    UnlinesTwo(two[0], two[1]);
    assert Unlines(header + two) == Unlines(header) + LineOf(Forged(p), e) + "\n";
    ReadBack(header + two);
  }

  lemma UnlinesTwo(a: string, b: string)
    ensures Unlines([a, b]) == a + "\n" + b + "\n"
  {
    assert [a, b][..1] == [a] && [a][..0] == [] && Unlines([]) == "";
    assert Unlines([a]) == Unlines([]) + a + "\n" == a + "\n";
    assert Unlines([a, b]) == Unlines([a]) + b + "\n";
  }

  // The second of these lines copies a file.
  lemma ForgedLineCopies(p: Path, from: string, to: string)
    requires '/' in p && ':' !in p
    ensures CopyFile(from + p, to + p) in LineCommands("[O]:1:" + p, from, to)
  {
    hide SplitOf, ProcessPath;
    var line, c := "[O]:1:" + p, CopyFile(from + p, to + p);
    assert line == "[O]" + [':'] + ("1" + [':'] + p) && Sub(line, 1)[0] == '[';
    SplitFirst("[O]", ':', "1" + [':'] + p);
    SplitFirst("1", ':', p);
    SplitNone(p, ':');
    assert SplitOf(line, ':') == ["[O]", "1", p] && "[O]"[1] == 'O';
    PathCommands(p, "[O]", from, to, c);
    assert c in multiset(ProcessPath(p, "[O]", from, to));
  }

  lemma OneEvent(f: Filter, event: Event)
    requires Accepted(f, event)
    ensures Fold(f, [event]) == map[event.path.value := Entry(1, event.flag)]
  {
    FoldNext(f, [], event);
    assert [] + [event] == [event];
  }

  lemma OneLine(log: Log, q: Path)
    requires q in log
    ensures Body(log, [q]) == LineOf(q, log[q]) + "\n"
  {
    hide LineOf;
    assert [q][..0] == [];
  }

  // One accepted event on such a path makes the script copy a file that is not
  // in the log.
  lemma NewlineForgesCopy(f: Filter, event: Event, size: nat, settings: seq<nat>, from: string, to: string, p: Path)
    requires Accepted(f, event) && event.path.value == Forged(p)
    requires '/' in p && ':' !in p && '\n' !in p
    ensures var (log, order) := (Fold(f, [event]), [Forged(p)]);
      && Orders(order, log) && p !in log
      && var out := Script(ReadLines(Unlines(HeaderLines(size, settings)) + Body(log, order)), from, to);
         CopyFile(from + p, to + p) in out && !Copied(f, [event], from, to, out)
  {
    hide HeaderLines, Unlines, ReadLines, Script, LineCommands, MaskOf, Padded, Wanted, Fold, Body, Sub;
    var header, c := HeaderLines(size, settings), CopyFile(from + p, to + p);
    var q, log := Forged(p), Fold(f, [event]);
    OneEvent(f, event);
    OneLine(log, q);
    HeaderPlain(size, settings);
    ForgedLines(header, p, log[q]);
    var first, second := FirstLine(log[q]), "[O]:1:" + p;
    var out := Script(header + [first] + [second], from, to);
    ScriptNext(header + [first], second, from, to, c);
    ForgedLineCopies(p, from, to);
    assert c in multiset(LineCommands(second, from, to)) && c in multiset(out);
    WantedInLog(f, [event], p);
    assert header + [first] + [second] == header + [first, second];
    assert Unlines(header) + (LineOf(q, log[q]) + "\n") == Unlines(header) + LineOf(q, log[q]) + "\n";
    assert out == Script(ReadLines(Unlines(header) + Body(log, [q])), from, to);
  }

  lemma {:induction false} FoldGrows(f: Filter, events: seq<Event>, i: nat)
    requires i <= |events|
    ensures Fold(f, events[..i]).Keys <= Fold(f, events).Keys
  {
    if i == |events| {
      assert events[..i] == events;
    } else {
      assert events[..|events| - 1][..i] == events[..i];
      FoldGrows(f, events[..|events| - 1], i);
    }
  }

  lemma StoreMore(f: Filter, events: seq<Event>, i: nat)
    requires i < |events| && |Fold(f, events)| <= TWO_31
    ensures Accepted(f, events[i]) ==>
              events[i].path.value in Fold(f, events[..i]) || |Fold(f, events[..i])| < TWO_31
    ensures Fold(f, events[..i + 1]) == Step(f, Fold(f, events[..i]), events[i])
  {
    assert events[..i + 1][..i] == events[..i];
    var before, after, all := Fold(f, events[..i]), Fold(f, events[..i + 1]), Fold(f, events);
    FoldGrows(f, events, i + 1);
    SubsetSize(after.Keys, all.Keys);
    assert |after.Keys| == |after| && |all.Keys| == |all| && |before.Keys| == |before|;
    if Accepted(f, events[i]) && events[i].path.value !in before {
      assert after.Keys == before.Keys + {events[i].path.value};
    }
  }

  // A run of events, stored one after another.
  method LogEvents(f: Filter, events: seq<Event>) returns (logger: Logger)
    requires |Fold(f, events)| <= TWO_31
    ensures logger.Valid() && fresh(logger) && fresh(logger.table) && fresh(logger.table.Repr())
    ensures logger.log == Fold(f, events)
  {
    hide Accepted, Record, Logger.Carried, Logger.Displaced, Table.Valid;
    logger := new Logger();
    for i := 0 to |events|
      invariant logger.Valid() && fresh(logger) && fresh(logger.table) && fresh(logger.table.Repr())
      invariant fresh(logger.items)
      invariant logger.log == Fold(f, events[..i])
    {
      StoreMore(f, events, i);
      var rc := logger.Store(f, events[i].path, events[i].flag);
    }
    assert events[..|events|] == events;
  }

  // What the printed text makes the script do.
  lemma TextToCommands(f: Filter, events: seq<Event>, size: nat, settings: seq<nat>,
                       from: string, to: string, body: string)
    requires Printed(Fold(f, events), body)
    ensures var out := Script(ReadLines(Unlines(HeaderLines(size, settings)) + body), from, to);
      Copied(f, events, from, to, out) && Complained(Fold(f, events), out) <==>
      forall q :: q in Fold(f, events) ==> Harmless(f, events, q)
  {
    hide Fold, Script, Copied, Complained, Harmless, HeaderLines, Unlines, Body, ReadLines;
    var order :| Orders(order, Fold(f, events)) && body == Body(Fold(f, events), order);
    CopiedExactly(f, events, size, settings, order, from, to);
  }

  // The script has run over the printed log of these events.
  ghost predicate RunOver(f: Filter, events: seq<Event>, settings: seq<nat>, from: string, to: string,
                          out: seq<Command>)
  {
    exists size: nat, body :: Printed(Fold(f, events), body) &&
      out == Script(ReadLines(Unlines(HeaderLines(size, settings)) + body), from, to)
  }

  // The whole pipeline: log a run of events, print the table, run the script
  // over the text.  Exactly the wanted files are copied, each once, and exactly
  // the lines of paths with colons are complained of, if and only if newlines
  // in the logged paths do no harm.
  method Distilled(f: Filter, events: seq<Event>, settings: seq<nat>, from: string, to: string)
    returns (out: seq<Command>)
    requires |Fold(f, events)| <= TWO_31
    ensures Copied(f, events, from, to, out) && Complained(Fold(f, events), out) <==>
            forall q :: q in Fold(f, events) ==> Harmless(f, events, q)
    ensures RunOver(f, events, settings, from, to, out)
  {
    hide Fold, Script, Copied, Complained, Harmless, HeaderLines, Unlines, Printed, Logger.Carried, Table.Valid;
    var logger := LogEvents(f, events);
    var header := Unlines(HeaderLines(logger.table.size, settings));
    var body := PrintHash(logger);
    TextToCommands(f, events, logger.table.size, settings, from, to, body);
    var lines := LinesOf(header + body);
    out := ProcessLines(lines, from, to);
  }
}
