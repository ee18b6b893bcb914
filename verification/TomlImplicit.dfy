// The tables that a header makes on its way: they are there without being
// defined, and a later header may still define each of them, once.

module TomlImplicit {
  import opened Wrappers
  import opened TomlKeys
  import opened TomlTree
  import opened TomlSyntax
  import opened TomlMeaning
  import opened TomlRefusals
  import opened TomlOrigins

  // ---- made implicit

  // Every table that a walk makes is implicit, and it leaves the others' flags.
  lemma {:induction false} WalkImplicit(d: Doc, names: seq<string>)
    requires Good(d) && Walk(d, names).Some?
    ensures var d' := Walk(d, names).value.doc;
      && (forall u :: |d.tabs| <= u < |d'.tabs| ==> d'.tabs[u].implicit)
      && (forall u :: 0 <= u < |d.tabs| ==> d'.tabs[u].implicit == d.tabs[u].implicit)
      && d'.arrs == d.arrs
  {
    hide CheckKey, Into, Linked, Rooted, Distinct;
    if |names| > 0 {
      WalkImplicit(d, names[..|names| - 1]);
    }
  }

  // A path that leads nowhere ends the walk in a new table.
  lemma WalkNew(d: Doc, names: seq<string>)
    requires Good(d) && Walk(d, names).Some? && Resolve(d, ROOT, names).None?
    ensures var Draft(d', u) := Walk(d, names).value;
      |d.tabs| <= u < |d'.tabs| && d'.tabs[u].implicit && Resolve(d', ROOT, names) == Some(u)
  {
    hide PathBlocked, Resolve, Linked, Rooted, Distinct;
    WalkExactly(d, names);
    WalkImplicit(d, names);
    WalkResolves(d, names);
  }

  // The walk along a + b first goes along a.
  lemma {:induction false} WalkPasses(d: Doc, a: seq<string>, b: seq<string>)
    requires Good(d) && Walk(d, a + b).Some?
    ensures Walk(d, a).Some?
    ensures var (d1, d') := (Walk(d, a).value.doc, Walk(d, a + b).value.doc);
      && Grows(d1, d') && d'.arrs == d1.arrs
      && (forall u :: 0 <= u < |d1.tabs| ==> d'.tabs[u].implicit == d1.tabs[u].implicit)
  {
    hide CheckKey, Into, Linked, Rooted, Distinct;
    if |b| == 0 {
      assert a + b == a;
      GrowsSame(Walk(d, a).value.doc);
    } else {
      var n := |b| - 1;
      assert (a + b)[..|a + b| - 1] == a + b[..n];
      WalkPasses(d, a, b[..n]);
      var d1, d2 := Walk(d, a).value.doc, Walk(d, a + b[..n]).value.doc;
      GrowsFurther(d1, d2, Walk(d, a + b).value.doc);
    }
  }

  lemma GrowsSame(d: Doc)
    ensures Grows(d, d)
  {}

  // The last key of the path stands for table u itself, not for an array.
  ghost predicate UnderTable(d: Doc, a: seq<string>, u: nat)
    requires Good(d) && |a| > 0
  {
    var r := Resolve(d, ROOT, a[..|a| - 1]);
    r.Some? && CheckKey(d, r.value, a[|a| - 1]) == IsTab(u)
  }

  lemma WalkEndsUnder(d: Doc, a: seq<string>)
    requires Good(d) && |a| > 0 && Walk(d, a).Some? && Resolve(d, ROOT, a).None?
    ensures var Draft(d', u) := Walk(d, a).value; UnderTable(d', a, u)
  {
    hide PathBlocked, CheckKey, TableIn, Linked, Rooted, Distinct;
    var n := |a| - 1;
    var Draft(d1, t) := Walk(d, a[..n]).value;
    WalkExactly(d, a[..n]);
    WalkResolves(d, a[..n]);
    StepTaken(d1, t, a[n]);
    assert CheckKey(d1, t, a[n]).NoKey?;
    var d' := AddTab(d1, t, a[n], true);
    CheckKeyFinds(d1, t, a[n]);
    AddTabKeeps(d1, t, a[n], true);
    LookupsAgree(d', t, a[n]);
    StepsStay(d1, d', t, a[..n]);
  }

  // The arrays listed in the tables before t are as they were.
  ghost predicate OlderArrays(d: Doc, d': Doc, t: nat)
    requires Good(d) && Good(d') && Grows(d, d')
  {
    forall u, i :: 0 <= u < t && u < |d.tabs| && 0 <= i < |d.tabs[u].arr| ==>
                     d'.arrs[d.tabs[u].arr[i]] == d.arrs[d.tabs[u].arr[i]]
  }

  lemma UnderStays(d: Doc, d': Doc, a: seq<string>, u: nat, t: nat)
    requires Good(d) && Good(d') && Grows(d, d') && |a| > 0 && UnderTable(d, a, u) && OlderArrays(d, d', t) && u <= t
    ensures UnderTable(d', a, u) && Resolve(d, ROOT, a) == Some(u) == Resolve(d', ROOT, a)
  {
    hide CheckKey, Linked, Rooted, Distinct;
    var n := |a| - 1;
    var r := Resolve(d, ROOT, a[..n]).value;
    IntoYounger(d, r, a[n]);
    StepsStay(d, d', r, a[..n]);
    LookupsStay(d, d', r, a[n]);
  }

  // A header opens a table younger than the one its path leads to.
  lemma OpenLeaves(d: Doc, t: nat, double: bool, key: string, u: nat)
    requires Good(d) && t < |d.tabs| && Open(d, t, double, key).Some? && u <= t
    ensures Open(d, t, double, key).value.doc.tabs[u].implicit == d.tabs[u].implicit
  {
    hide CheckKey, TableIn, ArrayIn, Linked, Rooted, Distinct;
    if !double && CheckKey(d, t, key).IsTab? { IntoYounger(d, t, key); }
  }

  // After a header along a and further, the table that it made at a is implicit.
  lemma HeaderLeavesImplicit(d: Doc, double: bool, keys: seq<string>, a: seq<string>, b: seq<string>)
    requires Good(d) && AddSelect(d, double, keys).Some? && Names(keys) == Some(a + b)
    requires |a| > 0 && |b| > 0 && Resolve(d, ROOT, a).None?
    ensures var d' := AddSelect(d, double, keys).value.doc;
      && Resolve(d', ROOT, a).Some?
      && var u := Resolve(d', ROOT, a).value;
         |d.tabs| <= u < |d'.tabs| && d'.tabs[u].implicit && UnderTable(d', a, u)
  {
    hide Resolve, Walk, Open, UnderTable, CheckKey, TableIn, Linked, Rooted, Distinct;
    var names, c := a + b, b[..|b| - 1];
    var n := |names| - 1;
    assert names[..n] == a + c && (a + c)[..|a|] == a;
    var Draft(d1, t) := Walk(d, a + c).value;
    var d' := Open(d1, t, double, names[n]).value.doc;
    WalkPasses(d, a, c);
    WalkNew(d, a);
    WalkEndsUnder(d, a);
    var Draft(d0, u) := Walk(d, a).value;
    UnderStays(d0, d1, a, u, u);
    WalkResolves(d, a + c);
    PathOlder(d1, a + c, |a|);
    OpenLeaves(d1, t, double, names[n], u);
    OpenInto(d1, t, double, names[n]);
    UnderStays(d1, d', a, u, t);
  }

  // A double header opens a table of its own, empty and without a key; a single one
  // an explicit table, new and empty or implicit before.
  lemma HeaderOpens(d: Doc, double: bool, keys: seq<string>)
    requires Good(d) && AddSelect(d, double, keys).Some?
    ensures var Draft(d', cur) := AddSelect(d, double, keys).value;
      if cur < |d.tabs| then !double && d.tabs[cur].implicit && !d'.tabs[cur].implicit
      else d'.tabs[cur] == Tab(if double then "__anon__" else Names(keys).value[|keys| - 1], false, false, [], [], [])
  {
    hide Resolve, CheckKey, TableIn, ArrayIn, PathBlocked, Names, Open, Linked, Rooted, Distinct;
    var names := Names(keys).value;
    var n := |names| - 1;
    var Draft(d1, t) := Walk(d, names[..n]).value;
    WalkImplicit(d, names[..n]);
    WalkExactly(d, names[..n]);
    OpenGives(d1, t, double, names[n]);
    if t >= |d.tabs| { BareHasNone(d1, t, names[n]); }
  }

  lemma OpenGives(d: Doc, t: nat, double: bool, key: string)
    requires Good(d) && t < |d.tabs| && Open(d, t, double, key).Some?
    ensures var Draft(d', u) := Open(d, t, double, key).value;
      if u < |d.tabs| then !double && CheckKey(d, t, key) == IsTab(u) && d.tabs[u].implicit && !d'.tabs[u].implicit
      else d'.tabs[u] == Tab(if double then "__anon__" else key, false, false, [], [], [])
  {
    hide CheckKey, TableIn, ArrayIn, Linked, Rooted, Distinct;
  }

  lemma BareHasNone(d: Doc, t: nat, key: string)
    requires Good(d) && t < |d.tabs| && Bare(d, t)
    ensures CheckKey(d, t, key).NoKey?
  {}

  // ---- defined once

  lemma {:induction false} ResolvedIsFree(d: Doc, names: seq<string>)
    requires Good(d) && Resolve(d, ROOT, names).Some?
    ensures !PathBlocked(d, names)
  {
    hide Into, Linked, Rooted, Distinct;
    if |names| == 0 {
      NoneBlocked(d);
    } else {
      ResolvedIsFree(d, names[..|names| - 1]);
      BlockedNext(d, names);
    }
  }

  // The header of an implicit table is taken, and opens it; the same header again
  // is refused.
  lemma DefinedOnce(d: Doc, keys: seq<string>, a: seq<string>, u: nat)
    requires Good(d) && 1 <= |keys| <= 10 && Names(keys) == Some(a)
    requires UnderTable(d, a, u) && d.tabs[u].implicit
    ensures AddSelect(d, false, keys).Some?
    ensures var Draft(d', cur) := AddSelect(d, false, keys).value;
      cur == u && !d'.tabs[u].implicit && AddSelect(d', false, keys).None?
  {
    hide Resolve, PathBlocked, CheckKey, TableIn, Names, Linked, Rooted, Distinct;
    var n := |a| - 1;
    var t := Resolve(d, ROOT, a[..n]).value;
    ResolvedIsFree(d, a[..n]);
    WalkExactly(d, a[..n]);
    assert Walk(d, a[..n]) == Some(Draft(d, t));
    HeaderRefusedExactly(d, false, keys);
    var Draft(d', cur) := AddSelect(d, false, keys).value;
    assert d' == Mark(d, u, false, d.tabs[u].readonly);
    UnderStays(d, d', a, u, |d.tabs|);
    HeaderRefusedExactly(d', false, keys);
  }

  // ---- implicit until defined

  // An implicit table of d that is no longer so has been closed.
  ghost predicate ClosedOrImplicit(d: Doc, d': Doc) {
    |d.tabs| <= |d'.tabs| &&
    forall u :: 0 <= u < |d.tabs| && d.tabs[u].implicit ==> d'.tabs[u].implicit || d'.tabs[u].readonly
  }

  lemma {:induction false} NodeDefines(d: Doc, a: nat, v: Node)
    requires Good(d) && a < |d.arrs| && AddNode(d, a, v).Some?
    ensures ClosedOrImplicit(d, AddNode(d, a, v).value)
    decreases v, 0
  {
    hide AddNodes, FillTable, Linked, Rooted, Distinct;
    var d1 := WithItem(d, a, v);
    match v
    case Raw(_) =>
    case List(items, _) => NodesDefine(d1, |d.arrs|, items);
    case Dict(entries, _) => TableDefines(d1, |d.tabs|, entries);
  }

  lemma {:induction false} NodesDefine(d: Doc, a: nat, items: seq<Node>)
    requires Good(d) && a < |d.arrs| && AddNodes(d, a, items).Some?
    ensures ClosedOrImplicit(d, AddNodes(d, a, items).value)
    decreases items, 0
  {
    hide AddNode, Linked, Rooted, Distinct;
    if |items| > 0 {
      var n := |items| - 1;
      var d1 := AddNodes(d, a, items[..n]).value;
      NodesDefine(d, a, items[..n]);
      NodeDefines(d1, a, items[n]);
      Closes(d, d1, AddNode(d1, a, items[n]).value);
    }
  }

  lemma Closes(d: Doc, d': Doc, d'': Doc)
    requires ClosedOrImplicit(d, d') && ClosedOrImplicit(d', d'') && Grows(d', d'')
    ensures ClosedOrImplicit(d, d'')
  {
    forall u | 0 <= u < |d.tabs| && d.tabs[u].implicit
      ensures d''.tabs[u].implicit || d''.tabs[u].readonly
    {
      assert TabGrows(d'.tabs[u], d''.tabs[u]);
    }
  }

  // The table itself is closed, whatever it was; its entries are in by then.
  lemma {:induction false} TableDefines(d: Doc, t: nat, entries: seq<Entry>)
    requires Good(d) && t < |d.tabs| && FillTable(d, t, entries).Some?
    ensures ClosedOrImplicit(d, FillTable(d, t, entries).value)
    ensures FillTable(d, t, entries).value.tabs[t].readonly
    decreases entries, 1
  {
    hide AddEntries, Linked, Rooted, Distinct;
    EntriesDefine(d, t, entries);
  }

  lemma {:induction false} EntriesDefine(d: Doc, t: nat, entries: seq<Entry>)
    requires Good(d) && t < |d.tabs| && AddEntries(d, t, entries).Some?
    ensures ClosedOrImplicit(d, AddEntries(d, t, entries).value)
    decreases entries, 0
  {
    hide AddEntry, Linked, Rooted, Distinct;
    if |entries| > 0 {
      var n := |entries| - 1;
      var d1 := AddEntries(d, t, entries[..n]).value;
      EntriesDefine(d, t, entries[..n]);
      EntryDefines(d1, t, entries[n].keys, entries[n].value);
      Closes(d, d1, AddEntry(d1, t, entries[n].keys, entries[n].value).value);
    }
  }

  lemma {:induction false} EntryDefines(d: Doc, t: nat, keys: seq<string>, v: Node)
    requires Good(d) && t < |d.tabs| && AddEntry(d, t, keys, v).Some?
    ensures ClosedOrImplicit(d, AddEntry(d, t, keys, v).value)
    decreases v, 1, keys
  {
    hide AddValue, SubTable, ClosedOrImplicit, KeyOf, CheckKey, TableIn, Linked, Rooted, Distinct;
    var key := KeyOf(keys[0]).value;
    if |keys| == 1 {
      ValueDefines(d, t, key, v);
    } else {
      var (d1, s) := SubTable(d, t, key).value;
      SubTableKeeps(d, t, key);
      EntryDefines(d1, s, keys[1..], v);
      Closes(d, d1, AddEntry(d, t, keys, v).value);
    }
  }

  lemma SubTableKeeps(d: Doc, t: nat, key: string)
    requires Good(d) && t < |d.tabs| && SubTable(d, t, key).Some?
    ensures ClosedOrImplicit(d, SubTable(d, t, key).value.0)
  {
    hide CheckKey, TableIn, Linked, Rooted, Distinct;
    SubTableExactly(d, t, key);
  }

  lemma {:induction false} ValueDefines(d: Doc, t: nat, key: string, v: Node)
    requires Good(d) && t < |d.tabs| && AddValue(d, t, key, v).Some?
    ensures ClosedOrImplicit(d, AddValue(d, t, key, v).value)
    decreases v, 0
  {
    hide AddNodes, FillTable, CheckKey, TableIn, Linked, Rooted, Distinct;
    match v
    case Raw(_) =>
    case List(items, _) =>
      CheckKeyFinds(d, t, key);
      AddArrKeeps(d, t, key, NoKind);
      NodesDefine(AddArr(d, t, key, NoKind), |d.arrs|, items);
    case Dict(entries, _) =>
      var (d1, s) := NewTable(d, t, key).value;
      TableDefines(d1, s, entries);
      assert TabGrows(d1.tabs[s], AddValue(d, t, key, v).value.tabs[s]);
  }

  // ---- lines

  // A line takes the flag from a table only by a header of its own, or by closing
  // it.
  lemma LineDefines(s: Draft, line: Line, u: nat)
    requires Sound(s) && AddLine(s, line).Some? && u < |s.doc.tabs| && s.doc.tabs[u].implicit
    ensures var s' := AddLine(s, line).value;
      || s'.doc.tabs[u].implicit || s'.doc.tabs[u].readonly
      || (line.Select? && !line.double && s'.cur == u)
  {
    hide AddEntry, Walk, CheckKey, TableIn, ArrayIn, Linked, Rooted, Distinct;
    match line
    case Blank =>
    case Pair(e) => EntryDefines(s.doc, s.cur, e.keys, e.value);
    case Select(double, keys) =>
      var names := Names(keys).value;
      var n := |names| - 1;
      WalkImplicit(s.doc, names[..n]);
      var Draft(d1, t) := Walk(s.doc, names[..n]).value;
      OpenDefines(d1, t, double, names[n], u);
  }

  lemma OpenDefines(d: Doc, t: nat, double: bool, key: string, u: nat)
    requires Good(d) && t < |d.tabs| && Open(d, t, double, key).Some? && u < |d.tabs| && d.tabs[u].implicit
    ensures var Draft(d', cur) := Open(d, t, double, key).value;
      d'.tabs[u].implicit || (!double && cur == u)
  {
    hide CheckKey, TableIn, ArrayIn, Linked, Rooted, Distinct;
  }

  // Only a double header touches an array that was there.
  lemma ArraysStay(s: Draft, line: Line)
    requires Sound(s) && AddLine(s, line).Some? && !(line.Select? && line.double)
    ensures OlderArrays(s.doc, AddLine(s, line).value.doc, |s.doc.tabs|)
  {
    hide AddEntry, Walk, NewTable, CheckKey, TableIn, ArrayIn, Rooted, Distinct;
    match line
    case Blank =>
    case Pair(e) =>
    case Select(double, keys) =>
      var names := Names(keys).value;
      WalkImplicit(s.doc, names[..|names| - 1]);
  }

  // From line i on no header opens table u, or a table in an array.
  ghost predicate LeftAlone(lines: seq<Line>, i: nat, u: nat) {
    forall j :: i <= j < |lines| && lines[j].Select? ==>
      !lines[j].double && Build(lines[..j + 1]).Some? && Build(lines[..j + 1]).value.cur != u
  }

  // One such line.
  lemma LineLeaves(s: Draft, line: Line, a: seq<string>, u: nat)
    requires Sound(s) && AddLine(s, line).Some? && |a| > 0 && UnderTable(s.doc, a, u)
    requires u < |s.doc.tabs| && (s.doc.tabs[u].implicit || s.doc.tabs[u].readonly)
    requires line.Select? ==> !line.double && AddLine(s, line).value.cur != u
    ensures var d := AddLine(s, line).value.doc;
      u < |d.tabs| && UnderTable(d, a, u) && (d.tabs[u].implicit || d.tabs[u].readonly)
  {
    hide AddLine, UnderTable, Linked, Rooted, Distinct;
    var d := AddLine(s, line).value.doc;
    ArraysStay(s, line);
    UnderStays(s.doc, d, a, u, |s.doc.tabs|);
    assert TabGrows(s.doc.tabs[u], d.tabs[u]);
    if s.doc.tabs[u].implicit { LineDefines(s, line, u); }
  }

  lemma AloneBefore(lines: seq<Line>, i: nat, u: nat)
    requires i < |lines| && LeftAlone(lines, i, u)
    ensures LeftAlone(lines[..|lines| - 1], i, u)
  {
    hide Build;
    var before := lines[..|lines| - 1];
    forall j | i <= j < |before| && before[j].Select?
      ensures !before[j].double && Build(before[..j + 1]).Some? && Build(before[..j + 1]).value.cur != u
    {
      assert before[..j + 1] == lines[..j + 1] && before[j] == lines[j];
    }
  }

  lemma {:induction false} ImplicitLater(lines: seq<Line>, i: nat, a: seq<string>, u: nat)
    requires i <= |lines| && Build(lines).Some? && Build(lines[..i]).Some? && |a| > 0
    requires UnderTable(Build(lines[..i]).value.doc, a, u) && u < |Build(lines[..i]).value.doc.tabs|
    requires Build(lines[..i]).value.doc.tabs[u].implicit
    requires LeftAlone(lines, i, u)
    ensures var d := Build(lines).value.doc;
      u < |d.tabs| && UnderTable(d, a, u) && (d.tabs[u].implicit || d.tabs[u].readonly)
  {
    hide AddLine, UnderTable, LeftAlone, Linked, Rooted, Distinct;
    if i == |lines| {
      assert lines[..i] == lines;
    } else {
      var n := |lines| - 1;
      var before := lines[..n];
      assert before[..i] == lines[..i];
      AloneBefore(lines, i, u);
      ImplicitLater(before, i, a, u);
      LastAlone(lines, i, u);
      LineLeaves(Build(before).value, lines[n], a, u);
    }
  }

  lemma LastAlone(lines: seq<Line>, i: nat, u: nat)
    requires i < |lines| && LeftAlone(lines, i, u)
    ensures var n := |lines| - 1;
      lines[n].Select? ==> !lines[n].double && Build(lines).Some? && Build(lines).value.cur != u
  {
    hide Build;
    var n := |lines| - 1;
    assert lines[..n + 1] == lines;
    assert lines[n].Select? ==> !lines[n].double;
  }

  lemma HeaderMade(lines: seq<Line>, i: nat, a: seq<string>, b: seq<string>)
    requires i < |lines| && lines[i].Select? && Names(lines[i].keys) == Some(a + b) && |a| > 0 && |b| > 0
    requires Build(lines[..i]).Some? && Build(lines[..i + 1]).Some?
    requires Resolve(Build(lines[..i]).value.doc, ROOT, a).None?
    ensures var d := Build(lines[..i + 1]).value.doc;
      && Resolve(d, ROOT, a).Some?
      && var u := Resolve(d, ROOT, a).value;
         u < |d.tabs| && d.tabs[u].implicit && UnderTable(d, a, u)
  {
    hide AddSelect, UnderTable, Names, Resolve, Linked, Rooted, Distinct;
    assert lines[..i + 1][..i] == lines[..i] && lines[..i + 1][i] == lines[i];
    HeaderLeavesImplicit(Build(lines[..i]).value.doc, lines[i].double, lines[i].keys, a, b);
  }

  // A header along a and further leaves the header of a itself open to later
  // lines: it is taken, once, unless some line has opened or closed the table.
  lemma HeaderAfter(lines: seq<Line>, i: nat, keys: seq<string>, a: seq<string>, b: seq<string>)
    requires Build(lines).Some? && i < |lines| && lines[i].Select? && Names(lines[i].keys) == Some(a + b)
    requires |b| > 0 && 1 <= |keys| <= 10 && Names(keys) == Some(a)
    requires Build(lines[..i]).Some? && Build(lines[..i + 1]).Some?
    requires Resolve(Build(lines[..i]).value.doc, ROOT, a).None?
    ensures Resolve(Build(lines[..i + 1]).value.doc, ROOT, a).Some?
    ensures var (d, u) := (Build(lines).value.doc, Resolve(Build(lines[..i + 1]).value.doc, ROOT, a).value);
      LeftAlone(lines, i + 1, u) ==>
        && u < |d.tabs| && Resolve(d, ROOT, a) == Some(u)
        && (!d.tabs[u].readonly ==>
              && AddSelect(d, false, keys).Some? && AddSelect(d, false, keys).value.cur == u
              && AddSelect(AddSelect(d, false, keys).value.doc, false, keys).None?)
  {
    hide Build, LeftAlone, AddSelect, UnderTable, Names, Resolve, Linked, Rooted, Distinct;
    HeaderMade(lines, i, a, b);
    var d, u := Build(lines).value.doc, Resolve(Build(lines[..i + 1]).value.doc, ROOT, a).value;
    if LeftAlone(lines, i + 1, u) {
      ImplicitLater(lines, i + 1, a, u);
      GrowsSame(d);
      UnderStays(d, d, a, u, |d.tabs|);
      if d.tabs[u].implicit { DefinedOnce(d, keys, a, u); }
    }
  }
}
