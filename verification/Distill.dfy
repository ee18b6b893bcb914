// What the script does with the lines of the log: which files it copies, and
// what it complains of.

module Distill {
  import opened Triangular
  import opened AccessLog
  import opened LogSummary
  import opened PrintLog
  import opened PostProcess

  // The place of a symbol in the mask, or 26 for any other character.
  function PlaceOf(c: char): nat {
    match c
    case 'G' => 0 case 'A' => 1 case 'r' => 2 case 'd' => 3 case 'K' => 4 case 'M' => 5 case 'S' => 6
    case 'u' => 7 case 'D' => 8 case 'N' => 9 case 'L' => 10 case 'm' => 11 case 'o' => 12 case 'T' => 13
    case 'n' => 14 case 's' => 15 case 'O' => 16 case 'R' => 17 case 'W' => 18 case 't' => 19 case 'e' => 20
    case 'F' => 21 case 'X' => 22 case 'x' => 23 case 'l' => 24 case 'v' => 25
    case _ => 26
  }

  // The 26 symbols are distinct, and none is a dot, a bracket or a colon.
  lemma SymbolsDistinct(i: nat)
    requires i < 26
    ensures PlaceOf(SYMBOLS[i]) == i
  {}

  // A symbol shows in the bracketed mask exactly when its bit is set.
  lemma SymbolShows(flags: nat, i: nat)
    requires i < 26
    ensures SYMBOLS[i] in "[" + MaskOf(flags) + "]" <==> TestBit(flags, i)
  {
    var c, mask := SYMBOLS[i], MaskOf(flags);
    SymbolsDistinct(i);
    if c in mask {
      var j :| 0 <= j < 26 && mask[j] == c;
      SymbolsDistinct(j);
    }
    if TestBit(flags, i) { assert mask[i] == c; }
  }

  lemma {:induction false} DecimalPlain(n: nat, c: char)
    requires c == ':' || c == '\n' || c == '#'
    ensures c !in Decimal(n)
  {
    if n >= 10 { DecimalPlain(n / 10, c); }
    var d := Digit(n % 10);
  }

  lemma MaskPlain(flags: nat)
    ensures ':' !in MaskOf(flags) && '\n' !in MaskOf(flags)
  {
    forall j: nat | j < 26
      ensures MaskOf(flags)[j] != ':' && MaskOf(flags)[j] != '\n'
    {
      SymbolsDistinct(j);
    }
  }

  // The line of an entry splits into its mask, its count and its path.
  lemma LineSplits(path: Path, e: Entry)
    requires ':' !in path
    ensures SplitOf(LineOf(path, e), ':') == ["[" + MaskOf(e.flags) + "]", Padded(e.count), path]
  {
    var mask, count := "[" + MaskOf(e.flags) + "]", Padded(e.count);
    MaskPlain(e.flags);
    DecimalPlain(e.count, ':');
    assert LineOf(path, e) == mask + [':'] + (count + [':'] + path);
    SplitFirst(mask, ':', count + [':'] + path);
    SplitFirst(count, ':', path);
    SplitNone(path, ':');
  }

  // A path with colons gives more pieces, and the script drops the line.
  lemma ColonsBreakLine(path: Path, e: Entry)
    requires ':' in path
    ensures |SplitOf(LineOf(path, e), ':')| > 3
  {
    var mask, count := "[" + MaskOf(e.flags) + "]", Padded(e.count);
    MaskPlain(e.flags);
    DecimalPlain(e.count, ':');
    assert LineOf(path, e) == mask + [':'] + (count + [':'] + path);
    SplitFirst(mask, ':', count + [':'] + path);
    SplitFirst(count, ':', path);
    SplitMore(path, ':');
  }

  lemma LineNotComment(path: Path, e: Entry)
    ensures Sub(LineOf(path, e), 1) == "["
  {}

  // The log tells the script to copy this file.
  predicate CopyWanted(path: Path, flags: nat) {
    '/' in path && (TestBit(flags, OP_OPEN) || TestBit(flags, OP_READ) || TestBit(flags, OP_READLINK))
  }

  lemma PathCommands(path: Path, mask: string, from: string, to: string, c: Command)
    requires c.CopyFile? || c.WrongFormat?
    ensures multiset(ProcessPath(path, mask, from, to))[c] ==
            if c == CopyFile(from + path, to + path) && '/' in path && ('O' in mask || 'R' in mask || 'r' in mask)
            then 1 else 0
  {
    GetDirFinds(path);
  }

  lemma MaskWants(flags: nat)
    ensures var mask := "[" + MaskOf(flags) + "]";
      'O' in mask || 'R' in mask || 'r' in mask <==>
      TestBit(flags, OP_OPEN) || TestBit(flags, OP_READ) || TestBit(flags, OP_READLINK)
  {
    hide MaskOf;
    SymbolShows(flags, OP_OPEN);
    SymbolShows(flags, OP_READ);
    SymbolShows(flags, OP_READLINK);
  }

  // What the script does with the line of an entry: a complaint exactly when
  // the path has a colon, else at most one copy, exactly when one is wanted.
  lemma EntryCommands(path: Path, e: Entry, from: string, to: string, c: Command)
    requires c.CopyFile? || c.WrongFormat?
    ensures var out := LineCommands(LineOf(path, e), from, to);
      if ':' in path then out == [WrongFormat(LineOf(path, e))]
      else multiset(out)[c] ==
           if c == CopyFile(from + path, to + path) && CopyWanted(path, e.flags) then 1 else 0
  {
    hide LineOf, MaskOf, Padded, SplitOf, ProcessPath, Sub;
    LineNotComment(path, e);
    if ':' in path {
      ColonsBreakLine(path, e);
    } else {
      LineSplits(path, e);
      PathCommands(path, "[" + MaskOf(e.flags) + "]", from, to, c);
      MaskWants(e.flags);
    }
  }

  // The lines of the entries, in order.
  function EntryLines(log: Log, order: seq<Path>): (lines: seq<string>)
    requires forall p :: p in order ==> p in log
    ensures |lines| == |order|
  {
    if |order| == 0 then []
    else EntryLines(log, order[..|order| - 1]) + [LineOf(order[|order| - 1], log[order[|order| - 1]])]
  }

  lemma ScriptNext(lines: seq<string>, line: string, from: string, to: string, c: Command)
    requires !c.Progress?
    ensures multiset(Script(lines + [line], from, to))[c] ==
            multiset(Script(lines, from, to))[c] + multiset(LineCommands(line, from, to))[c]
  {
    assert (lines + [line])[..|lines|] == lines;
    var echo := if Counted(line) && CountedIn(lines + [line]) % 100 == 0
                then [Progress(CountedIn(lines + [line]))] else [];
    assert Script(lines + [line], from, to) == Script(lines, from, to) + LineCommands(line, from, to) + echo;
  }

  lemma SameCopy(from: string, to: string, p: Path, q: Path)
    requires CopyFile(from + p, to + p) == CopyFile(from + q, to + q)
    ensures p == q
  {
    assert p == (from + p)[|from|..];
    assert q == (from + q)[|from|..];
  }

  // Header lines are comments.
  lemma {:induction false} HeaderSilent(header: seq<string>, from: string, to: string)
    requires forall l :: l in header ==> Sub(l, 1) == "#"
    ensures Script(header, from, to) == [] && CountedIn(header) == 0
  {
    if |header| > 0 { HeaderSilent(header[..|header| - 1], from, to); }
  }

  lemma LastEntry(header: seq<string>, log: Log, order: seq<Path>)
    requires |order| > 0 && forall p :: p in order ==> p in log
    ensures var (n, last) := (|order| - 1, order[|order| - 1]);
      && order == order[..n] + [last]
      && header + EntryLines(log, order) == header + EntryLines(log, order[..n]) + [LineOf(last, log[last])]
  {
    hide LineOf;
  }

  // A file is copied as often as its path, if wanted and free of colons, occurs
  // among the entries printed.
  lemma {:induction false} CopiesOf(header: seq<string>, log: Log, order: seq<Path>, from: string, to: string, p: Path)
    requires forall l :: l in header ==> Sub(l, 1) == "#"
    requires forall q :: q in order ==> q in log
    requires forall i, j :: 0 <= i < j < |order| ==> order[i] != order[j]
    ensures multiset(Script(header + EntryLines(log, order), from, to))[CopyFile(from + p, to + p)] ==
            if p in order && ':' !in p && CopyWanted(p, log[p].flags) then 1 else 0
  {
    hide LineOf, LineCommands, Script, CopyWanted, Sub, EntryLines;
    var c := CopyFile(from + p, to + p);
    if |order| == 0 {
      assert header + [] == header;
      HeaderSilent(header, from, to);
    } else {
      var n := |order| - 1;
      var q := order[n];
      var line := LineOf(q, log[q]);
      LastEntry(header, log, order);
      CopiesOf(header, log, order[..n], from, to, p);
      ScriptNext(header + EntryLines(log, order[..n]), line, from, to, c);
      EntryCommands(q, log[q], from, to, c);
      if c == CopyFile(from + q, to + q) { SameCopy(from, to, p, q); }
    }
  }

  lemma {:induction false} ComplaintsOf(header: seq<string>, log: Log, order: seq<Path>,
                                        from: string, to: string, p: Path)
    requires forall q :: q in order ==> q in log
    requires p in order && ':' in p
    ensures WrongFormat(LineOf(p, log[p])) in Script(header + EntryLines(log, order), from, to)
  {
    hide LineOf, LineCommands, Script, CopyWanted;
    var c := WrongFormat(LineOf(p, log[p]));
    var n := |order| - 1;
    var q := order[n];
    var line := LineOf(q, log[q]);
    LastEntry(header, log, order);
    ScriptNext(header + EntryLines(log, order[..n]), line, from, to, c);
    if p in order[..n] { ComplaintsOf(header, log, order[..n], from, to, p); }
    EntryCommands(q, log[q], from, to, c);
  }

  // Every copy command is for some colon-free path of the log that wants it,
  // and every complaint is about the line of a path with a colon.
  lemma {:induction false} OnlyCopies(header: seq<string>, log: Log, order: seq<Path>,
                                      from: string, to: string, c: Command)
    requires forall l :: l in header ==> Sub(l, 1) == "#"
    requires forall q :: q in order ==> q in log
    requires c.CopyFile? || c.WrongFormat?
    ensures c in Script(header + EntryLines(log, order), from, to) ==>
      exists p :: p in order && if ':' in p then c == WrongFormat(LineOf(p, log[p]))
                                else CopyWanted(p, log[p].flags) && c == CopyFile(from + p, to + p)
  {
    hide LineOf, LineCommands, Script, CopyWanted;
    if |order| == 0 {
      assert header + [] == header;
      HeaderSilent(header, from, to);
    } else {
      var n := |order| - 1;
      var q := order[n];
      var line := LineOf(q, log[q]);
      LastEntry(header, log, order);
      OnlyCopies(header, log, order[..n], from, to, c);
      ScriptNext(header + EntryLines(log, order[..n]), line, from, to, c);
      EntryCommands(q, log[q], from, to, c);
    }
  }

  // A line survives being written and read back exactly when its path holds no
  // newline.
  lemma LineIntact(path: Path, e: Entry)
    ensures ReadLines(LineOf(path, e) + "\n") == [LineOf(path, e)] <==> '\n' !in path
  {
    var line := LineOf(path, e);
    MaskPlain(e.flags);
    DecimalPlain(e.count, '\n');
    assert '\n' in line <==> '\n' in path;
    if '\n' in path {
      JoinOfSplit(line + "\n", '\n');
      assert line in ReadLines(line + "\n") ==> line in SplitOf(line + "\n", '\n');
    } else {
      assert Unlines([line]) == line + "\n";
      ReadBack([line]);
    }
  }

  // An accepted event opened, read or followed the link at this path, and the
  // path can be told apart from the log's own punctuation.
  ghost predicate Wanted(f: Filter, events: seq<Event>, p: Path) {
    && '/' in p && ':' !in p
    && (Raised(f, events, p, OP_OPEN) || Raised(f, events, p, OP_READ) || Raised(f, events, p, OP_READLINK))
  }

  lemma WantedInLog(f: Filter, events: seq<Event>, p: Path)
    ensures Wanted(f, events, p) <==>
      p in Fold(f, events) && ':' !in p && CopyWanted(p, Fold(f, events)[p].flags)
  {
    LogOfRun(f, events, p, OP_OPEN);
    LogOfRun(f, events, p, OP_READ);
    LogOfRun(f, events, p, OP_READLINK);
  }

  // FLAG_READLINK, FLAG_OPEN and FLAG_READ: an accepted event with one of them, on
  // a path with a slash and no colon, is enough.
  lemma FlagsWanted(f: Filter, events: seq<Event>, k: nat, p: Path)
    requires k < |events| && Accepted(f, events[k]) && events[k].path.value == p && '/' in p && ':' !in p
    requires events[k].flag in {0x4, 0x1_0000, 0x2_0000}
    ensures Wanted(f, events, p)
  {
    PowersOfFlags();
    FlagOf(OP_READLINK, 2);
    FlagOf(OP_OPEN, 16);
    FlagOf(OP_READ, 17);
    assert On(f, events[k], p);
  }

  lemma PowersOfFlags()
    ensures Pow2(2) == 0x4 && Pow2(16) == 0x1_0000 && Pow2(17) == 0x2_0000
  {
    assert Pow2(2) == 4 && Pow2(4) == 16 && Pow2(6) == 64 && Pow2(8) == 0x100 && Pow2(10) == 0x400;
    assert Pow2(12) == 0x1000 && Pow2(14) == 0x4000 && Pow2(16) == 0x1_0000;
  }

  // A header line is a comment, and one line.
  predicate Remark(line: string) {
    Sub(line, 1) == "#" && '\n' !in line
  }

  lemma Remarks(s: string)
    requires '\n' !in s
    ensures Remark("#" + s) && Remark("#" + s + "####")
  {}

  lemma SizeRemark(size: nat)
    ensures Remark("#### Hash size: [" + Decimal(size) + "] ####")
  {
    hide Decimal;
    DecimalPlain(size, '\n');
    Remarks("### Hash size: [" + Decimal(size) + "] ####");
    assert "#" + ("### Hash size: [" + Decimal(size) + "] ####") == "#### Hash size: [" + Decimal(size) + "] ####";
  }

  lemma LegendRemarks(letters: string)
    requires '\n' !in letters
    ensures Remark("#### Log mask/legend:") && Remark("#" + letters + "####") && Remark("#" + SYMBOLS)
  {
    Remarks(letters);
    Remarks(SYMBOLS);
  }

  lemma HeaderPlain(size: nat, settings: seq<nat>)
    ensures forall l :: l in HeaderLines(size, settings) ==> Sub(l, 1) == "#" && '\n' !in l
  {
    var letters := seq(|settings|, i requires 0 <= i < |settings| => SettingChar(settings[i]));
    SizeRemark(size);
    LegendRemarks(letters);
    HeaderRemarks(size, settings);
  }

  lemma HeaderRemarks(size: nat, settings: seq<nat>)
    requires var letters := seq(|settings|, i requires 0 <= i < |settings| => SettingChar(settings[i]));
      && Remark("#### Hash size: [" + Decimal(size) + "] ####") && Remark("#### Log mask/legend:")
      && Remark("#" + letters + "####") && Remark("#" + SYMBOLS)
    ensures forall l :: l in HeaderLines(size, settings) ==> Remark(l)
  {
    hide Decimal, Remark, SettingChar;
  }

  lemma {:induction false} UnlinesAppend(a: seq<string>, b: seq<string>)
    ensures Unlines(a + b) == Unlines(a) + Unlines(b)
  {
    if |b| == 0 {
      assert a + b == a;
    } else {
      var n := |b| - 1;
      assert (a + b)[..|a| + n] == a + b[..n];
      UnlinesAppend(a, b[..n]);
    }
  }

  // What the script does with the log of a run: a copy of each wanted file,
  // once, and a complaint for each path with a colon.
  ghost predicate Copied(f: Filter, events: seq<Event>, from: string, to: string, out: seq<Command>) {
    && (forall p :: multiset(out)[CopyFile(from + p, to + p)] == if Wanted(f, events, p) then 1 else 0)
    && (forall c :: c in out && c.CopyFile? ==> exists p :: Wanted(f, events, p) && c == CopyFile(from + p, to + p))
  }

  ghost predicate Complained(log: Log, out: seq<Command>) {
    && (forall p :: p in log && ':' in p ==> WrongFormat(LineOf(p, log[p])) in out)
    && (forall c :: c in out && c.WrongFormat? ==>
          exists p :: p in log && ':' in p && c == WrongFormat(LineOf(p, log[p])))
  }
}
