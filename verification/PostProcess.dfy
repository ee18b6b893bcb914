// postprocess/process_log.lua: the log read back, one line at a time, into the
// commands that copy the accessed files.

module PostProcess {
  import opened Wrappers

  datatype Command =
    | MkdirP(dir: string)
    | CopyFile(src: string, dst: string)
    | Touch(file: string)
    | Progress(lines: nat)
    | WrongFormat(line: string)

  // The pieces of s between the delimiters.
  function SplitOf(s: string, d: char): (parts: seq<string>)
    ensures |parts| >= 1
  {
    if |s| == 0 then [""]
    else
      var rest := SplitOf(s[1..], d);
      if s[0] == d then [""] + rest else [[s[0]] + rest[0]] + rest[1..]
  }

  function JoinOf(parts: seq<string>, d: char): string {
    if |parts| == 0 then ""
    else if |parts| == 1 then parts[0]
    else parts[0] + [d] + JoinOf(parts[1..], d)
  }

  lemma {:induction false} SplitNone(s: string, d: char)
    requires d !in s
    ensures SplitOf(s, d) == [s]
  {
    if |s| > 0 {
      SplitNone(s[1..], d);
      assert s == [s[0]] + s[1..];
    }
  }

  lemma {:induction false} SplitFirst(a: string, d: char, rest: string)
    requires d !in a
    ensures SplitOf(a + [d] + rest, d) == [a] + SplitOf(rest, d)
  {
    var s := a + [d] + rest;
    if |a| == 0 {
      assert s[1..] == rest;
    } else {
      assert s[1..] == a[1..] + [d] + rest;
      SplitFirst(a[1..], d, rest);
      assert a == [a[0]] + a[1..];
    }
  }

  // Splitting is the inverse of joining pieces that hold no delimiter.
  lemma {:induction false} SplitOfJoin(parts: seq<string>, d: char)
    requires |parts| >= 1 && forall p :: p in parts ==> d !in p
    ensures SplitOf(JoinOf(parts, d), d) == parts
  {
    if |parts| == 1 {
      SplitNone(parts[0], d);
    } else {
      SplitOfJoin(parts[1..], d);
      SplitFirst(parts[0], d, JoinOf(parts[1..], d));
    }
  }

  lemma {:induction false} SplitMore(s: string, d: char)
    requires d in s
    ensures |SplitOf(s, d)| > 1
  {
    if s[0] != d { SplitMore(s[1..], d); }
  }

  lemma {:induction false} JoinOfSplit(s: string, d: char)
    ensures JoinOf(SplitOf(s, d), d) == s
    ensures forall p :: p in SplitOf(s, d) ==> d !in p
  {
    if |s| > 0 {
      JoinOfSplit(s[1..], d);
      assert s == [s[0]] + s[1..];
      var rest := SplitOf(s[1..], d);
      if s[0] == d {
        assert ([""] + rest)[1..] == rest;
      } else {
        assert rest == [rest[0]] + rest[1..];
        var parts := [[s[0]] + rest[0]] + rest[1..];
        assert parts[1..] == rest[1..];
      }
    }
  }

  // string.find(s, d, from) for a plain delimiter character
  method FindChar(s: string, d: char, from: nat) returns (at: Option<nat>)
    requires from <= |s|
    ensures at.None? ==> d !in s[from..]
    ensures at.Some? ==> from <= at.value < |s| && s[at.value] == d && d !in s[from..at.value]
  {
    for i := from to |s|
      invariant d !in s[from..i]
    {
      if s[i] == d { return Some(i); }
    }
    return None;
  }

  // string:split
  method Split(s: string, d: char) returns (result: seq<string>)
    ensures result == SplitOf(s, d)
  {
    hide SplitOf;
    result := [];
    var from := 0;
    var at := FindChar(s, d, from);
    while at.Some?
      invariant from <= |s|
      invariant result + SplitOf(s[from..], d) == SplitOf(s, d)
      invariant at.None? ==> d !in s[from..]
      invariant at.Some? ==> from <= at.value < |s| && s[at.value] == d && d !in s[from..at.value]
      decreases |s| - from
    {
      SplitFirst(s[from..at.value], d, s[at.value + 1..]);
      assert s[from..] == s[from..at.value] + [d] + s[at.value + 1..];
      result := result + [s[from..at.value]];
      from := at.value + 1;
      at := FindChar(s, d, from);
    }
    SplitNone(s[from..], d);
    result := result + [s[from..]];
  }

  // str:match("(.*/)"): everything up to the last slash
  function GetDir(path: string): Option<string> {
    if |path| == 0 then None
    else if path[|path| - 1] == '/' then Some(path)
    else GetDir(path[..|path| - 1])
  }

  lemma {:induction false} GetDirFinds(path: string)
    ensures GetDir(path).Some? <==> '/' in path
    ensures GetDir(path).Some? ==>
      var dir := GetDir(path).value;
      dir <= path && |dir| > 0 && dir[|dir| - 1] == '/' && '/' !in path[|dir|..]
  {
    if |path| > 0 && path[|path| - 1] != '/' {
      var n := |path| - 1;
      GetDirFinds(path[..n]);
      assert path == path[..n] + [path[n]];
      if GetDir(path).Some? {
        var dir := GetDir(path).value;
        assert path[|dir|..] == path[..n][|dir|..] + [path[n]];
      }
    }
  }

  // Lua's string.sub(s, 1, n)
  function Sub(s: string, n: nat): string {
    if n < |s| then s[..n] else s
  }

  // process_path
  function ProcessPath(path: string, flags: string, from: string, to: string): seq<Command> {
    match GetDir(path)
    case None => []
    case Some(dir) =>
      if 'O' in flags || 'R' in flags || 'r' in flags then
        (if |dir| > 1 then [MkdirP(to + dir)] else []) + [CopyFile(from + path, to + path)]
      else if 'G' in flags then
        if Sub(dir, 7) != "/prebuilts" then
          if 'd' in flags then [MkdirP(to + path)] else [MkdirP(to + dir), Touch(to + path)]
        else []
      else []
  }

  // The test that should leave out paths under /prebuilts compares seven
  // characters with ten, so it holds of every path.
  lemma SevenIsNotTen(dir: string)
    ensures Sub(dir, 7) != "/prebuilts"
  {
    assert |Sub(dir, 7)| <= 7 && |"/prebuilts"| == 10;
  }

  // Nothing is left out for where it lies: a path gives no command exactly when
  // it has no slash or none of the four flags.
  lemma PrebuiltsNeverLeftOut(path: string, flags: string, from: string, to: string)
    ensures ProcessPath(path, flags, from, to) == [] <==>
            '/' !in path || ('O' !in flags && 'R' !in flags && 'r' !in flags && 'G' !in flags)
  {
    GetDirFinds(path);
    if GetDir(path).Some? { SevenIsNotTen(GetDir(path).value); }
  }

  // A file below /prebuilts of which only the attributes were asked for.
  lemma PrebuiltTouched(from: string, to: string)
    ensures ProcessPath("/prebuilts/x", "[G]", from, to) == [MkdirP(to + "/prebuilts/"), Touch(to + "/prebuilts/x")]
  {
    var dir := "/prebuilts/";
    assert "/prebuilts/x"[..11] == dir;
    SevenIsNotTen(dir);
  }

  // The effect of one line: what it prints, and whether it is counted.
  function LineCommands(line: string, from: string, to: string): seq<Command> {
    if Sub(line, 1) == "#" then []
    else
      var params := SplitOf(line, ':');
      if |params| != 3 then [WrongFormat(line)] else ProcessPath(params[2], params[0], from, to)
  }

  predicate Counted(line: string) {
    Sub(line, 1) != "#" && |SplitOf(line, ':')| == 3
  }

  function CountedIn(lines: seq<string>): nat {
    if |lines| == 0 then 0
    else CountedIn(lines[..|lines| - 1]) + if Counted(lines[|lines| - 1]) then 1 else 0
  }

  function Script(lines: seq<string>, from: string, to: string): seq<Command> {
    if |lines| == 0 then []
    else
      var n := |lines| - 1;
      Script(lines[..n], from, to) + LineCommands(lines[n], from, to) +
      if Counted(lines[n]) && CountedIn(lines) % 100 == 0 then [Progress(CountedIn(lines))] else []
  }

  // ---- which lines are taken

  lemma {:induction false} PiecesCount(s: string, d: char)
    ensures |SplitOf(s, d)| == 1 + multiset(s)[d]
  {
    if |s| > 0 {
      PiecesCount(s[1..], d);
      assert s == [s[0]] + s[1..];
    }
  }

  // A line that starts with a # says nothing, one without exactly two colons is
  // complained of, and every other is counted.
  lemma LineTaken(line: string, from: string, to: string)
    ensures |line| > 0 && line[0] == '#' ==> LineCommands(line, from, to) == []
    ensures (|line| == 0 || line[0] != '#') && multiset(line)[':'] != 2 ==>
              LineCommands(line, from, to) == [WrongFormat(line)]
    ensures Counted(line) <==> (|line| == 0 || line[0] != '#') && multiset(line)[':'] == 2
  {
    PiecesCount(line, ':');
    if |line| > 0 { assert line == [line[0]] + line[1..] && line[..1] == [line[0]]; }
  }

  // The numbers that are echoed, in order.
  function Echoed(out: seq<Command>): seq<nat> {
    if |out| == 0 then []
    else Echoed(out[..|out| - 1]) + match out[|out| - 1] case Progress(n) => [n] case _ => []
  }

  // 100, 200 and so on, n of them.
  function Hundreds(n: nat): seq<nat> {
    seq(n, i requires 0 <= i < n => 100 * (i + 1))
  }

  lemma {:induction false} EchoedAppend(a: seq<Command>, b: seq<Command>)
    ensures Echoed(a + b) == Echoed(a) + Echoed(b)
  {
    if |b| == 0 {
      assert a + b == a;
    } else {
      EchoedAppend(a, b[..|b| - 1]);
      assert (a + b)[..|a + b| - 1] == a + b[..|b| - 1];
    }
  }

  lemma LineEchoes(line: string, from: string, to: string)
    ensures Echoed(LineCommands(line, from, to)) == []
  {
    var out := LineCommands(line, from, to);
    assert forall c :: c in out ==> !c.Progress?;
    NothingEchoed(out);
  }

  lemma {:induction false} NothingEchoed(out: seq<Command>)
    requires forall c :: c in out ==> !c.Progress?
    ensures Echoed(out) == []
  {
    if |out| > 0 {
      NothingEchoed(out[..|out| - 1]);
      assert out[|out| - 1] in out;
    }
  }

  lemma HundredsMore(c: nat)
    ensures Hundreds((c + 1) / 100) == Hundreds(c / 100) + if (c + 1) % 100 == 0 then [c + 1] else []
  {}

  lemma EchoesOwn(c: nat, counted: bool)
    ensures Echoed(if counted && c % 100 == 0 then [Progress(c)] else []) == if counted && c % 100 == 0 then [c] else []
  {}

  // A script echoes each full hundred of its counted lines, once and in order.
  lemma {:induction false} ProgressShown(lines: seq<string>, from: string, to: string)
    ensures Echoed(Script(lines, from, to)) == Hundreds(CountedIn(lines) / 100)
  {
    hide LineCommands, Counted, Echoed, Hundreds;
    if |lines| == 0 {
      NothingEchoed([]);
      assert Hundreds(0) == [] by { HundredsNone(); }
    } else {
      var n := |lines| - 1;
      var c, counted := CountedIn(lines), Counted(lines[n]);
      var out := LineCommands(lines[n], from, to);
      var echo := if counted && c % 100 == 0 then [Progress(c)] else [];
      ProgressShown(lines[..n], from, to);
      LineEchoes(lines[n], from, to);
      EchoedAppend(Script(lines[..n], from, to), out);
      EchoedAppend(Script(lines[..n], from, to) + out, echo);
      EchoesOwn(c, counted);
      if counted { HundredsMore(c - 1); }
    }
  }

  lemma HundredsNone()
    ensures Hundreds(0) == []
  {}

  // ---- the order of the commands

  // The directory of a path: all of it up to its last slash.
  predicate DirOf(dir: string, path: string) {
    dir <= path && |dir| > 0 && dir[|dir| - 1] == '/' && '/' !in path[|dir|..]
  }

  // Command i of a script makes a file whose directory was made right before, but
  // for a copy into the root.
  ghost predicate Prepared(out: seq<Command>, i: nat, from: string, to: string)
    requires i < |out|
  {
    match out[i]
    case CopyFile(src, dst) =>
      exists p, dir :: src == from + p && dst == to + p && DirOf(dir, p) &&
                       (dir == "/" || (i > 0 && out[i - 1] == MkdirP(to + dir)))
    case Touch(file) => exists p, dir :: file == to + p && DirOf(dir, p) && i > 0 && out[i - 1] == MkdirP(to + dir)
    case _ => true
  }

  ghost predicate AllPrepared(out: seq<Command>, from: string, to: string) {
    forall i :: 0 <= i < |out| ==> Prepared(out, i, from, to)
  }

  lemma PreparedAppend(a: seq<Command>, b: seq<Command>, from: string, to: string)
    requires AllPrepared(a, from, to) && AllPrepared(b, from, to)
    ensures AllPrepared(a + b, from, to)
  {
    forall i | 0 <= i < |a + b| ensures Prepared(a + b, i, from, to) {
      if i < |a| { assert Prepared(a, i, from, to); } else { assert Prepared(b, i - |a|, from, to); }
    }
  }

  lemma PathPrepared(path: string, flags: string, from: string, to: string)
    ensures AllPrepared(ProcessPath(path, flags, from, to), from, to)
  {
    GetDirFinds(path);
    if GetDir(path).Some? {
      var dir := GetDir(path).value;
      assert DirOf(dir, path) && (|dir| == 1 ==> dir == "/");
    }
  }

  // No file is copied or touched into a directory that was not made.
  lemma {:induction false} ScriptPrepared(lines: seq<string>, from: string, to: string)
    ensures AllPrepared(Script(lines, from, to), from, to)
  {
    hide ProcessPath, SplitOf, Prepared;
    if |lines| > 0 {
      var n := |lines| - 1;
      var out := LineCommands(lines[n], from, to);
      var echo := if Counted(lines[n]) && CountedIn(lines) % 100 == 0 then [Progress(CountedIn(lines))] else [];
      ScriptPrepared(lines[..n], from, to);
      var params := SplitOf(lines[n], ':');
      if |params| == 3 { PathPrepared(params[2], params[0], from, to); }
      OthersPrepared(lines[n], CountedIn(lines), from, to);
      PreparedAppend(Script(lines[..n], from, to), out, from, to);
      PreparedAppend(Script(lines[..n], from, to) + out, echo, from, to);
    }
  }

  lemma OthersPrepared(line: string, n: nat, from: string, to: string)
    ensures AllPrepared([], from, to)
    ensures AllPrepared([WrongFormat(line)], from, to) && AllPrepared([Progress(n)], from, to)
  {}

  // The main loop over io.lines.
  method ProcessLines(lines: seq<string>, from: string, to: string) returns (out: seq<Command>)
    ensures out == Script(lines, from, to)
  {
    out := [];
    var count := 0;
    for i := 0 to |lines|
      invariant out == Script(lines[..i], from, to)
      invariant count == CountedIn(lines[..i])
    {
      assert lines[..i + 1][..i] == lines[..i];
      var line := lines[i];
      if Sub(line, 1) != "#" {
        var params := Split(line, ':');
        if |params| != 3 {
          out := out + [WrongFormat(line)];
        } else {
          out := out + ProcessPath(params[2], params[0], from, to);
          count := count + 1;
          if count % 100 == 0 {
            out := out + [Progress(count)];
          }
        }
      }
    }
    assert lines[..|lines|] == lines;
  }

  // io.lines: the lines of a text, without their newlines; a last line without
  // one is read too.
  method LinesOf(text: string) returns (lines: seq<string>)
    ensures lines == ReadLines(text)
  {
    lines := Split(text, '\n');
    if lines[|lines| - 1] == "" {
      lines := lines[..|lines| - 1];
    }
  }

  function ReadLines(text: string): seq<string> {
    var lines := SplitOf(text, '\n');
    if lines[|lines| - 1] == "" then lines[..|lines| - 1] else lines
  }

  function Unlines(lines: seq<string>): string {
    if |lines| == 0 then "" else Unlines(lines[..|lines| - 1]) + lines[|lines| - 1] + "\n"
  }

  lemma {:induction false} JoinWithLast(lines: seq<string>, d: char)
    ensures JoinOf(lines + [""], d) == if |lines| == 0 then "" else JoinOf(lines, d) + [d]
  {
    if |lines| > 0 {
      assert (lines + [""])[1..] == lines[1..] + [""];
      JoinWithLast(lines[1..], d);
    }
  }

  lemma {:induction false} JoinSnoc(lines: seq<string>, last: string, d: char)
    requires |lines| > 0
    ensures JoinOf(lines + [last], d) == JoinOf(lines, d) + [d] + last
  {
    assert (lines + [last])[1..] == lines[1..] + [last];
    if |lines| > 1 { JoinSnoc(lines[1..], last, d); }
  }

  lemma {:induction false} UnlinesIsJoin(lines: seq<string>)
    ensures Unlines(lines) == JoinOf(lines + [""], '\n')
  {
    JoinWithLast(lines, '\n');
    if |lines| > 0 {
      var n := |lines| - 1;
      UnlinesIsJoin(lines[..n]);
      JoinWithLast(lines[..n], '\n');
      assert lines == lines[..n] + [lines[n]];
      if n > 0 { JoinSnoc(lines[..n], lines[n], '\n'); }
    }
  }

  // Reading back lines that hold no newline gives the same lines.
  lemma ReadBack(lines: seq<string>)
    requires forall l :: l in lines ==> '\n' !in l
    ensures ReadLines(Unlines(lines)) == lines
  {
    UnlinesIsJoin(lines);
    SplitOfJoin(lines + [""], '\n');
  }
}
