// What becomes of a closed inline table, which should get no more keys: entries
// leave it alone, headers do not.

module TomlClosed {
  import opened Wrappers
  import opened TomlKeys
  import opened TomlTree
  import opened TomlSyntax
  import opened TomlMeaning
  import opened TomlRefusals
  import opened TomlOrigins

  // ---- entries

  // The three lists of table u are the same, and it is still closed.
  ghost predicate Untouched(d: Doc, d': Doc, u: nat)
    requires u < |d.tabs|
  {
    && u < |d'.tabs| && d'.tabs[u].readonly
    && d'.tabs[u].kval == d.tabs[u].kval && d'.tabs[u].arr == d.tabs[u].arr && d'.tabs[u].tab == d.tabs[u].tab
  }

  lemma {:induction false} NodeLeaves(d: Doc, a: nat, v: Node, u: nat)
    requires Good(d) && a < |d.arrs| && AddNode(d, a, v).Some? && u < |d.tabs| && d.tabs[u].readonly
    ensures Untouched(d, AddNode(d, a, v).value, u)
    decreases v, 0
  {
    hide AddNodes, FillTable, Linked, Rooted, Distinct;
    var d1 := WithItem(d, a, v);
    match v
    case Raw(_) =>
    case List(items, _) => NodesLeave(d1, |d.arrs|, items, u);
    case Dict(entries, _) => TableLeaves(d1, |d.tabs|, entries, u);
  }

  lemma {:induction false} NodesLeave(d: Doc, a: nat, items: seq<Node>, u: nat)
    requires Good(d) && a < |d.arrs| && AddNodes(d, a, items).Some? && u < |d.tabs| && d.tabs[u].readonly
    ensures Untouched(d, AddNodes(d, a, items).value, u)
    decreases items, 0
  {
    hide AddNode, Linked, Rooted, Distinct;
    if |items| > 0 {
      var n := |items| - 1;
      NodesLeave(d, a, items[..n], u);
      NodeLeaves(AddNodes(d, a, items[..n]).value, a, items[n], u);
    }
  }

  lemma {:induction false} TableLeaves(d: Doc, t: nat, entries: seq<Entry>, u: nat)
    requires Good(d) && t < |d.tabs| && FillTable(d, t, entries).Some? && u < |d.tabs| && d.tabs[u].readonly
    ensures Untouched(d, FillTable(d, t, entries).value, u)
    decreases entries, 1
  {
    hide AddEntries, Linked, Rooted, Distinct;
    EntriesLeave(d, t, entries, u);
  }

  lemma {:induction false} EntriesLeave(d: Doc, t: nat, entries: seq<Entry>, u: nat)
    requires Good(d) && t < |d.tabs| && AddEntries(d, t, entries).Some? && u < |d.tabs| && d.tabs[u].readonly
    ensures Untouched(d, AddEntries(d, t, entries).value, u)
    decreases entries, 0
  {
    hide AddEntry, Linked, Rooted, Distinct;
    if |entries| > 0 {
      var n := |entries| - 1;
      EntriesLeave(d, t, entries[..n], u);
      EntryLeaves(AddEntries(d, t, entries[..n]).value, t, entries[n].keys, entries[n].value, u);
    }
  }

  lemma {:induction false} EntryLeaves(d: Doc, t: nat, keys: seq<string>, v: Node, u: nat)
    requires Good(d) && t < |d.tabs| && AddEntry(d, t, keys, v).Some? && u < |d.tabs| && d.tabs[u].readonly
    ensures Untouched(d, AddEntry(d, t, keys, v).value, u)
    decreases v, 1, keys
  {
    hide AddValue, NewTable, KeyOf, CheckKey, TableIn, Linked, Rooted, Distinct;
    var key := KeyOf(keys[0]).value;
    if |keys| == 1 {
      ValueLeaves(d, t, key, v, u);
    } else {
      var (d1, s) := SubTable(d, t, key).value;
      if TableIn(d, t, key).None? { NewTableLeaves(d, t, key, u); }
      EntryLeaves(d1, s, keys[1..], v, u);
    }
  }

  lemma NewTableLeaves(d: Doc, t: nat, key: string, u: nat)
    requires Good(d) && t < |d.tabs| && !d.tabs[t].readonly && NewTable(d, t, key).Some?
    requires u < |d.tabs| && d.tabs[u].readonly
    ensures Untouched(d, NewTable(d, t, key).value.0, u)
  {
    hide CheckKey, TableIn, Linked, Rooted, Distinct;
  }

  lemma {:induction false} ValueLeaves(d: Doc, t: nat, key: string, v: Node, u: nat)
    requires Good(d) && t < |d.tabs| && !d.tabs[t].readonly && AddValue(d, t, key, v).Some?
    requires u < |d.tabs| && d.tabs[u].readonly
    ensures Untouched(d, AddValue(d, t, key, v).value, u)
    decreases v, 0
  {
    hide NewTable, AddNodes, FillTable, CheckKey, TableIn, Linked, Rooted, Distinct;
    match v
    case Raw(_) =>
    case List(items, _) =>
      CheckKeyFinds(d, t, key);
      AddArrKeeps(d, t, key, NoKind);
      NodesLeave(AddArr(d, t, key, NoKind), |d.arrs|, items, u);
    case Dict(entries, _) =>
      NewTableLeaves(d, t, key, u);
      var (d1, s) := NewTable(d, t, key).value;
      TableLeaves(d1, s, entries, u);
  }

  // ---- headers

  // The path of a header comes to table u, and finds nothing under the next key.
  ghost predicate Meets(d: Doc, names: seq<string>, i: nat, u: nat, key: string)
    requires Good(d) && i < |names| && u < |d.tabs|
  {
    names[i] == key && Resolve(d, ROOT, names[..i]) == Some(u) && CheckKey(d, u, key).NoKey?
  }

  ghost predicate MeetsOnWay(d: Doc, names: seq<string>, u: nat, key: string)
    requires Good(d) && u < |d.tabs|
  {
    exists i :: 0 <= i < |names| && Meets(d, names, i, u, key)
  }

  lemma MeetsNext(d: Doc, names: seq<string>, u: nat, key: string)
    requires Good(d) && |names| > 0 && u < |d.tabs|
    ensures var n := |names| - 1;
      MeetsOnWay(d, names, u, key) <==> MeetsOnWay(d, names[..n], u, key) || Meets(d, names, n, u, key)
  {
    hide Resolve, CheckKey, Good;
    var n := |names| - 1;
    forall i | 0 <= i < n ensures Meets(d, names, i, u, key) <==> Meets(d, names[..n], i, u, key) {
      assert names[..n][..i] == names[..i];
    }
    if MeetsOnWay(d, names[..n], u, key) {
      var i :| 0 <= i < n && Meets(d, names[..n], i, u, key);
      assert Meets(d, names, i, u, key);
    }
  }

  lemma {:induction false} WalkGains(d: Doc, names: seq<string>, u: nat, key: string)
    requires Good(d) && Walk(d, names).Some? && u < |d.tabs|
    ensures New(d, Walk(d, names).value.doc, Cell(u, key)) <==> MeetsOnWay(d, names, u, key)
  {
    hide PathBlocked, MeetsOnWay, Bare, Resolve, Into, CheckKey, TableIn, Linked, Rooted, Distinct;
    if |names| == 0 {
      NoneMet(d, u, key);
    } else {
      var n := |names| - 1;
      var Draft(d1, t) := Walk(d, names[..n]).value;
      WalkGains(d, names[..n], u, key);
      WalkExactly(d, names[..n]);
      MeetsNext(d, names, u, key);
      if CheckKey(d1, t, names[n]).NoKey? {
        var d' := AddTab(d1, t, names[n], true);
        CheckKeyFinds(d1, t, names[n]);
        AddTabKeeps(d1, t, names[n], true);
        LookupsAgree(d', t, names[n]);
        if New(d1, d', Cell(u, key)) { AddTabMakes(d1, t, names[n], true, Cell(u, key)); }
        LookupsStay(d1, d', u, key);
      }
    }
  }

  lemma NoneMet(d: Doc, u: nat, key: string)
    requires Good(d) && u < |d.tabs|
    ensures !MeetsOnWay(d, [], u, key)
  {}

  // A table gets a key from a header exactly when the header's path meets it
  // where the key is missing.
  lemma SelectGains(d: Doc, double: bool, keys: seq<string>, u: nat, key: string)
    requires Good(d) && AddSelect(d, double, keys).Some? && u < |d.tabs|
    ensures Names(keys).Some?
    ensures New(d, AddSelect(d, double, keys).value.doc, Cell(u, key)) <==>
            MeetsOnWay(d, Names(keys).value, u, key)
  {
    hide PathBlocked, MeetsOnWay, Bare, Resolve, Walk, Open, CheckKey, TableIn, Linked, Rooted, Distinct;
    var names := Names(keys).value;
    var n := |names| - 1;
    var Draft(d1, t) := Walk(d, names[..n]).value;
    var d' := Open(d1, t, double, names[n]).value.doc;
    WalkGains(d, names[..n], u, key);
    WalkExactly(d, names[..n]);
    MeetsNext(d, names, u, key);
    OpenFinds(d1, t, double, names[n]);
    if New(d1, d', Cell(u, key)) { OpenMakes(d1, t, double, names[n], Cell(u, key)); }
    LookupsStay(d1, d', u, key);
  }

  lemma OpenFinds(d: Doc, t: nat, double: bool, key: string)
    requires Good(d) && t < |d.tabs| && Open(d, t, double, key).Some?
    ensures !CheckKey(Open(d, t, double, key).value.doc, t, key).NoKey?
  {
    hide Open, CheckKey, Linked, Rooted, Distinct;
    OpenInto(d, t, double, key);
  }

  // ---- lines

  // Table u has a key that it had not.
  ghost predicate Gains(d: Doc, d': Doc, u: nat)
    requires Good(d) && Good(d')
  {
    exists key :: New(d, d', Cell(u, key))
  }

  // The line is a header whose path comes to table u and goes on by a key that u
  // has not.
  ghost predicate EntersBy(d: Doc, line: Line, u: nat, key: string)
    requires Good(d) && u < |d.tabs|
  {
    line.Select? && Names(line.keys).Some? && MeetsOnWay(d, Names(line.keys).value, u, key)
  }

  // A closed table gets no more keys, but from headers that go through it.
  lemma ClosedExactly(s: Draft, line: Line, u: nat)
    requires Sound(s) && AddLine(s, line).Some? && u < |s.doc.tabs| && s.doc.tabs[u].readonly
    ensures Gains(s.doc, AddLine(s, line).value.doc, u) <==> exists key :: EntersBy(s.doc, line, u, key)
  {
    hide AddEntry, AddSelect, MeetsOnWay, Is, Linked, Rooted, Distinct;
    var d' := AddLine(s, line).value.doc;
    forall key ensures New(s.doc, d', Cell(u, key)) <==> EntersBy(s.doc, line, u, key) {
      match line
      case Blank =>
      case Pair(e) =>
        EntryLeaves(s.doc, s.cur, e.keys, e.value, u);
        NothingGained(s.doc, d', u, key);
      case Select(double, keys) => SelectGains(s.doc, double, keys, u, key);
    }
  }

  lemma NothingGained(d: Doc, d': Doc, u: nat, key: string)
    requires Good(d) && Good(d') && Grows(d, d') && u < |d.tabs| && Untouched(d, d', u)
    ensures !New(d, d', Cell(u, key))
  {
    hide Linked, Rooted, Distinct, CheckKey, Grows;
    if New(d, d', Cell(u, key)) {
      NewKeyListed(d, d', u, key);
      assert false;
    }
  }

  // ---- a header that does

  const CLOSED := Pair(Entry(["a"], Dict([], false)))
  const THROUGH := Select(false, ["a", "b"])

  lemma BareKeys()
    ensures KeyOf("a") == Some("a") && KeyOf("b") == Some("b")
  {
    assert At("a", 0) == 'a' && At("b", 0) == 'b';
  }

  // The table that key = {} makes.
  function EmptyClosed(d: Doc, t: nat, key: string): Doc
    requires t < |d.tabs|
  {
    Mark(AddTab(d, t, key, false), |d.tabs|, false, true)
  }

  lemma EmptyFilled(d: Doc, t: nat, key: string)
    requires Good(d) && t < |d.tabs| && CheckKey(d, t, key).NoKey?
    ensures AddValue(d, t, key, Dict([], false)) == Some(EmptyClosed(d, t, key))
    ensures Good(EmptyClosed(d, t, key)) && CheckKey(EmptyClosed(d, t, key), t, key) == IsTab(|d.tabs|)
  {
    hide CheckKey, TableIn, Linked, Rooted, Distinct, Grows;
    var d1, d' := AddTab(d, t, key, false), EmptyClosed(d, t, key);
    CheckKeyFinds(d, t, key);
    AddTabKeeps(d, t, key, false);
    MarkKeeps(d1, |d.tabs|, false, true);
    assert FillTable(d1, |d.tabs|, []) == Some(d');
    LookupsStay(d1, d', t, key);
    LookupsAgree(d', t, key);
  }

  // a = {}
  lemma ClosedOne() returns (d: Doc)
    ensures Build([CLOSED]) == Some(Draft(d, ROOT)) && |d.tabs| == 2 && d.tabs[1].readonly
    ensures CheckKey(d, ROOT, "a") == IsTab(1) && CheckKey(d, 1, "b").NoKey?
  {
    hide AddValue, CheckKey, KeyOf, Linked, Rooted, Distinct;
    EmptyGood();
    BareKeys();
    EmptyHasNone(EMPTY, ROOT, "a");
    EmptyFilled(EMPTY, ROOT, "a");
    d := EmptyClosed(EMPTY, ROOT, "a");
    assert ["a"][0] == "a" && AddEntry(EMPTY, ROOT, ["a"], Dict([], false)) == Some(d);
    assert [CLOSED][..0] == [] && Build([]) == Some(Draft(EMPTY, ROOT));
    EmptyHasNone(d, 1, "b");
  }

  lemma NamesOfTwo()
    ensures Names(["a", "b"]) == Some(["a", "b"])
  {
    hide KeyOf;
    BareKeys();
    NamesSnoc([], "a");
    NamesSnoc(["a"], "b");
    assert [] + ["a"] == ["a"] && ["a"] + ["b"] == ["a", "b"];
  }

  lemma ThroughOpen(d: Doc)
    requires Good(d) && |d.tabs| == 2 && CheckKey(d, ROOT, "a") == IsTab(1) && CheckKey(d, 1, "b").NoKey?
    ensures !HeaderBlocked(d, false, ["a", "b"]) && MeetsOnWay(d, ["a", "b"], 1, "b")
  {
    hide CheckKey, Rooted, Distinct;
    var names := ["a", "b"];
    assert names[..1] == ["a"] && ["a"][..0] == [] && names[..0] == [];
    assert Resolve(d, ROOT, []) == Some(ROOT) && Resolve(d, ROOT, ["a"]) == Some(1);
    assert !StepBlockedAt(d, ["a"], 0);
    assert Meets(d, names, 1, 1, "b");
  }

  lemma GoThrough(d: Doc)
    requires Good(d) && |d.tabs| == 2 && CheckKey(d, ROOT, "a") == IsTab(1) && CheckKey(d, 1, "b").NoKey?
    ensures AddSelect(d, false, ["a", "b"]).Some?
    ensures New(d, AddSelect(d, false, ["a", "b"]).value.doc, Cell(1, "b"))
  {
    hide AddSelect, HeaderBlocked, MeetsOnWay, CheckKey, Names, Linked, Rooted, Distinct, Is;
    NamesOfTwo();
    ThroughOpen(d);
    HeaderRefusedExactly(d, false, ["a", "b"]);
    SelectGains(d, false, ["a", "b"], 1, "b");
  }

  // [a.b] puts a key into the closed table a.
  lemma ClosedEntered() returns (d: Doc, d': Doc)
    ensures Build([CLOSED]).Some? && Build([CLOSED]).value.doc == d
    ensures Build([CLOSED, THROUGH]).Some? && Build([CLOSED, THROUGH]).value.doc == d'
    ensures |d.tabs| == 2 && d.tabs[1].readonly && New(d, d', Cell(1, "b"))
  {
    hide Build, AddSelect, CheckKey, Linked, Rooted, Distinct, Is;
    d := ClosedOne();
    GoThrough(d);
    LinesSnoc([CLOSED], THROUGH);
    assert [CLOSED] + [THROUGH] == [CLOSED, THROUGH];
    d' := AddSelect(d, false, ["a", "b"]).value.doc;
  }
}
