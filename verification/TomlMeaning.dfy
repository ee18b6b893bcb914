// What the syntax of a TOML document means: the tables and arrays it builds, or
// that it is refused.

module TomlMeaning {
  import opened Wrappers
  import opened TomlKeys
  import opened TomlTree
  import opened TomlSyntax

  // ---- tables

  // A table under a key, for someone who means to fill it: a new one, or one
  // that only the path of a header had made, which is then explicit.
  function NewTable(d: Doc, t: nat, key: string): (r: Option<(Doc, nat)>)
    requires Good(d) && t < |d.tabs|
    ensures r.Some? ==>
              var (d', u) := r.value;
              && Good(d') && Grows(d, d') && u < |d'.tabs| && TableIn(d', t, key) == Some(u)
              && !d'.tabs[u].implicit && (u < |d.tabs| ==> d.tabs[u].implicit) && d'.arrs == d.arrs
  {
    match CheckKey(d, t, key)
    case NoKey =>
      AddTabKeeps(d, t, key, false);
      Some((AddTab(d, t, key, false), |d.tabs|))
    case IsTab(u) =>
      if d.tabs[u].implicit then
        MarkKeeps(d, u, false, d.tabs[u].readonly);
        LookupsAgree(d, t, key);
        LookupsStay(d, Mark(d, u, false, d.tabs[u].readonly), t, key);
        Some((Mark(d, u, false, d.tabs[u].readonly), u))
      else None
    case _ => None
  }

  // The table that a dotted key goes on in.
  function SubTable(d: Doc, t: nat, key: string): (r: Option<(Doc, nat)>)
    requires Good(d) && t < |d.tabs|
    ensures r.Some? ==>
              var (d', u) := r.value;
              Good(d') && Grows(d, d') && u < |d'.tabs| && TableIn(d', t, key) == Some(u) && d'.arrs == d.arrs
  {
    match TableIn(d, t, key)
    case Some(u) => Some((d, u))
    case None => NewTable(d, t, key)
  }

  // ---- values and entries

  // A document grown from d, in which no array of d but a has new items.
  ghost predicate Later(d: Doc, r: Option<Doc>, a: Option<nat>) {
    r.Some? ==>
      && Good(r.value) && Grows(d, r.value)
      && (forall b :: 0 <= b < |d.arrs| && Some(b) != a ==> r.value.arrs[b] == d.arrs[b])
  }

  function KindOf(v: Node): ArrayKind {
    match v case Raw(_) => Values case List(_, _) => Arrays case Dict(_, _) => Tables
  }

  // Array a, of a kind that suits the value, with the value's item at its end: a
  // text itself, or a new array or table that is still empty.
  function WithItem(d: Doc, a: nat, v: Node): (r: Doc)
    requires Good(d) && a < |d.arrs|
    ensures Good(r) && Grows(d, r)
    ensures |r.arrs[a].items| == |d.arrs[a].items| + 1
    ensures forall b :: 0 <= b < |d.arrs| && b != a ==> r.arrs[b] == d.arrs[b]
    ensures v.List? ==> |r.arrs| == |d.arrs| + 1 && r.arrs[|d.arrs|].items == []
    ensures v.Dict? ==> |r.tabs| == |d.tabs| + 1
    ensures r.arrs[a].items[|d.arrs[a].items|] ==
            match v
            case Raw(val) => ValItem(val)
            case List(_, _) => ArrItem(|d.arrs|)
            case Dict(_, _) => TabItem(|d.tabs|)
  {
    SetKindKeeps(d, a, KindOf(v));
    var d1 := SetKind(d, a, NextKind(d.arrs[a].kind, KindOf(v)));
    match v
    case Raw(val) =>
      AddValItemKeeps(d1, a, val);
      GrowsFurther(d, d1, AddItem(d1, a, ValItem(val)));
      AddItem(d1, a, ValItem(val))
    case List(_, _) =>
      AddArrItemKeeps(d1, a);
      GrowsFurther(d, d1, AddArrItem(d1, a));
      AddArrItem(d1, a)
    case Dict(_, _) =>
      AddTabItemKeeps(d1, a, "");
      GrowsFurther(d, d1, AddTabItem(d1, a, ""));
      AddTabItem(d1, a, "")
  }

  // A value as the next item of array a.
  function AddNode(d: Doc, a: nat, v: Node): (r: Option<Doc>)
    requires Good(d) && a < |d.arrs|
    ensures Later(d, r, Some(a))
    ensures r.Some? ==> |r.value.arrs[a].items| == |d.arrs[a].items| + 1
    decreases v
  {
    var d1 := WithItem(d, a, v);
    match v
    case Raw(_) => Some(d1)
    case List(items, _) =>
      var r := AddNodes(d1, |d.arrs|, items);
      if r.Some? then GrowsFurther(d, d1, r.value); r else None
    case Dict(entries, _) =>
      var r := FillTable(d1, |d.tabs|, entries);
      if r.Some? then GrowsFurther(d, d1, r.value); r else None
  }

  function AddNodes(d: Doc, a: nat, items: seq<Node>): (r: Option<Doc>)
    requires Good(d) && a < |d.arrs|
    ensures Later(d, r, Some(a))
    ensures r.Some? ==> |r.value.arrs[a].items| == |d.arrs[a].items| + |items|
    decreases items
  {
    if |items| == 0 then Some(d)
    else match AddNodes(d, a, items[..|items| - 1])
      case None => None
      case Some(d1) =>
        var r := AddNode(d1, a, items[|items| - 1]);
        if r.Some? then GrowsFurther(d, d1, r.value); r else None
  }

  function AddEntries(d: Doc, t: nat, entries: seq<Entry>): (r: Option<Doc>)
    requires Good(d) && t < |d.tabs|
    ensures Later(d, r, None)
    decreases entries, 0
  {
    if |entries| == 0 then Some(d)
    else match AddEntries(d, t, entries[..|entries| - 1])
      case None => None
      case Some(d1) =>
        var e := entries[|entries| - 1];
        var r := AddEntry(d1, t, e.keys, e.value);
        if r.Some? then GrowsFurther(d, d1, r.value); r else None
  }

  // The entries of an inline table, which is then closed.
  function FillTable(d: Doc, t: nat, entries: seq<Entry>): (r: Option<Doc>)
    requires Good(d) && t < |d.tabs|
    ensures Later(d, r, None)
    decreases entries, 1
  {
    match AddEntries(d, t, entries)
    case None => None
    case Some(d1) =>
      MarkKeeps(d1, t, d1.tabs[t].implicit, true);
      GrowsFurther(d, d1, Mark(d1, t, d1.tabs[t].implicit, true));
      Some(Mark(d1, t, d1.tabs[t].implicit, true))
  }

  // A value under a key of table t.
  function AddValue(d: Doc, t: nat, key: string, v: Node): (r: Option<Doc>)
    requires Good(d) && t < |d.tabs|
    ensures Later(d, r, None)
    decreases v, 0
  {
    if v.Dict? then
      match NewTable(d, t, key)
      case None => None
      case Some((d1, u)) =>
        var r := FillTable(d1, u, v.entries);
        if r.Some? then GrowsFurther(d, d1, r.value); r else None
    else if !CheckKey(d, t, key).NoKey? then None
    else if v.Raw? then
      AddValKeeps(d, t, key, v.val);
      Some(AddVal(d, t, key, v.val))
    else
      AddArrKeeps(d, t, key, NoKind);
      var d1 := AddArr(d, t, key, NoKind);
      var r := AddNodes(d1, |d.arrs|, v.items);
      if r.Some? then GrowsFurther(d, d1, r.value); r else None
  }

  // key . key = value in table t; a closed table takes no more entries.
  function AddEntry(d: Doc, t: nat, keys: seq<string>, v: Node): (r: Option<Doc>)
    requires Good(d) && t < |d.tabs|
    ensures Later(d, r, None)
    decreases v, 1, keys
  {
    if d.tabs[t].readonly || |keys| == 0 then None
    else match KeyOf(keys[0])
      case None => None
      case Some(key) =>
        if |keys| == 1 then AddValue(d, t, key, v)
        else match SubTable(d, t, key)
          case None => None
          case Some((d1, u)) =>
            var r := AddEntry(d1, u, keys[1..], v);
            if r.Some? then GrowsFurther(d, d1, r.value); r else None
  }

  lemma NodesSnoc(d: Doc, a: nat, items: seq<Node>, v: Node)
    requires Good(d) && a < |d.arrs| && AddNodes(d, a, items).Some?
    ensures AddNodes(d, a, items + [v]) == AddNode(AddNodes(d, a, items).value, a, v)
  {
    hide AddNode, Rooted, Distinct, Linked;
    var all := items + [v];
    assert all[..|items|] == items && all[|items|] == v;
  }

  // A refused item or entry cannot be made good by what follows.
  lemma {:induction false} NodesStuck(d: Doc, a: nat, items: seq<Node>, all: seq<Node>)
    requires Good(d) && a < |d.arrs| && items <= all && AddNodes(d, a, items).None?
    ensures AddNodes(d, a, all).None?
    decreases |all|
  {
    if |items| == |all| {
      assert items == all;
    } else {
      NodesStuck(d, a, items, all[..|all| - 1]);
    }
  }

  lemma {:induction false} EntriesStuck(d: Doc, t: nat, entries: seq<Entry>, all: seq<Entry>)
    requires Good(d) && t < |d.tabs| && entries <= all && AddEntries(d, t, entries).None?
    ensures AddEntries(d, t, all).None?
    decreases |all|
  {
    if |entries| == |all| {
      assert entries == all;
    } else {
      EntriesStuck(d, t, entries, all[..|all| - 1]);
    }
  }

  lemma EntriesAdded(d: Doc, t: nat, entries: seq<Entry>, e: Entry)
    requires Good(d) && t < |d.tabs| && AddEntries(d, t, entries).Some?
    ensures AddEntries(d, t, entries + [e]) == AddEntry(AddEntries(d, t, entries).value, t, e.keys, e.value)
  {
    hide AddEntry, Rooted, Distinct, Linked;
    var all := entries + [e];
    assert all[..|entries|] == entries && all[|entries|] == e;
  }

  lemma SingleRefused(d: Doc, t: nat, raw: string, v: Node)
    requires Good(d) && t < |d.tabs| && !d.tabs[t].readonly
    ensures AddEntry(d, t, [raw], v) == if KeyOf(raw).Some? then AddValue(d, t, KeyOf(raw).value, v) else None
  {
    hide KeyOf;
  }

  lemma DottedRefused(d: Doc, t: nat, raw: string)
    requires Good(d) && t < |d.tabs|
    ensures KeyOf(raw).None? || SubTable(d, t, KeyOf(raw).value).None? ==>
              forall keys, v :: |keys| > 0 ==> AddEntry(d, t, [raw] + keys, v).None?
  {
    hide KeyOf, SubTable;
  }

  lemma DottedEntry(d: Doc, t: nat, raw: string, keys: seq<string>, v: Node)
    requires Good(d) && t < |d.tabs| && !d.tabs[t].readonly && KeyOf(raw).Some? && |keys| > 0
    requires SubTable(d, t, KeyOf(raw).value).Some?
    ensures var (d1, u) := SubTable(d, t, KeyOf(raw).value).value;
      AddEntry(d, t, [raw] + keys, v) == AddEntry(d1, u, keys, v)
  {
    assert ([raw] + keys)[1..] == keys;
  }

  // ---- lines

  // A document, and the table that entries now go to.
  datatype Draft = Draft(doc: Doc, cur: nat)

  ghost predicate Sound(s: Draft) { Good(s.doc) && s.cur < |s.doc.tabs| }

  ghost predicate LaterDraft(d: Doc, r: Option<Draft>) {
    r.Some? ==> Sound(r.value) && Grows(d, r.value.doc)
  }

  // The keys of a header.
  function Names(keys: seq<string>): (r: Option<seq<string>>)
    ensures r.Some? ==> |r.value| == |keys|
  {
    if |keys| == 0 then Some([])
    else match Names(keys[..|keys| - 1])
      case None => None
      case Some(names) =>
        match KeyOf(keys[|keys| - 1])
        case None => None
        case Some(key) => Some(names + [key])
  }

  // One step along the path of a header, making a table where there is nothing.
  function WalkInto(d: Doc, t: nat, key: string): (r: Option<Draft>)
    requires Good(d) && t < |d.tabs|
    ensures LaterDraft(d, r)
  {
    if CheckKey(d, t, key).NoKey? then
      AddTabKeeps(d, t, key, true);
      Some(Draft(AddTab(d, t, key, true), |d.tabs|))
    else match Into(d, t, key)
      case None => None
      case Some(u) => Some(Draft(d, u))
  }

  function Walk(d: Doc, names: seq<string>): (r: Option<Draft>)
    requires Good(d)
    ensures LaterDraft(d, r)
  {
    if |names| == 0 then Some(Draft(d, ROOT))
    else match Walk(d, names[..|names| - 1])
      case None => None
      case Some(Draft(d1, u)) =>
        var r := WalkInto(d1, u, names[|names| - 1]);
        if r.Some? then GrowsFurther(d, d1, r.value.doc); r else None
  }

  // The array of tables under a key, made if there is nothing there.
  function TableArray(d: Doc, t: nat, key: string): (r: Option<(Doc, nat)>)
    requires Good(d) && t < |d.tabs|
    ensures r.Some? ==>
              var (d', a) := r.value;
              && Good(d') && Grows(d, d') && a < |d'.arrs| && d'.arrs[a].kind.Tables?
              && ArrayIn(d', t, key) == Some(a)
  {
    match ArrayIn(d, t, key)
    case Some(a) => if d.arrs[a].kind.Tables? then Some((d, a)) else None
    case None =>
      if CheckKey(d, t, key).NoKey? then
        AddArrKeeps(d, t, key, Tables);
        Some((AddArr(d, t, key, Tables), |d.arrs|))
      else None
  }

  // The table that a header opens, given the one its path leads to.
  function Open(d: Doc, t: nat, double: bool, key: string): (r: Option<Draft>)
    requires Good(d) && t < |d.tabs|
    ensures LaterDraft(d, r)
  {
    if double then
      match TableArray(d, t, key)
      case None => None
      case Some((d1, a)) =>
        AddTabItemKeeps(d1, a, "__anon__");
        GrowsFurther(d, d1, AddTabItem(d1, a, "__anon__"));
        Some(Draft(AddTabItem(d1, a, "__anon__"), |d1.tabs|))
    else
      match NewTable(d, t, key)
      case None => None
      case Some((d1, u)) => Some(Draft(d1, u))
  }

  // [a.b.z] or [[a.b.z]]
  function AddSelect(d: Doc, double: bool, keys: seq<string>): (r: Option<Draft>)
    requires Good(d)
    ensures LaterDraft(d, r)
  {
    if !(0 < |keys| <= MAX_DEPTH) then None
    else match Names(keys)
      case None => None
      case Some(names) =>
        var n := |names| - 1;
        match Walk(d, names[..n])
        case None => None
        case Some(Draft(d1, t)) =>
          var r := Open(d1, t, double, names[n]);
          if r.Some? then GrowsFurther(d, d1, r.value.doc); r else None
  }

  lemma {:induction false} WalkStuck(d: Doc, names: seq<string>, i: nat)
    requires Good(d) && i <= |names| && Walk(d, names[..i]).None?
    ensures Walk(d, names).None?
  {
    if i < |names| {
      assert names[..|names| - 1][..i] == names[..i];
      WalkStuck(d, names[..|names| - 1], i);
    } else {
      assert names[..i] == names;
    }
  }

  // The last key of a header, opened from where the others lead.
  lemma SelectOpens(d: Doc, double: bool, keys: seq<string>)
    requires Good(d) && 0 < |keys| <= MAX_DEPTH && Names(keys).Some?
    ensures KeyOf(keys[|keys| - 1]).Some?
    ensures var names := Names(keys).value;
      var before := Walk(d, names[..|keys| - 1]);
      before.Some? ==>
        AddSelect(d, double, keys) == Open(before.value.doc, before.value.cur, double, KeyOf(keys[|keys| - 1]).value)
  {}

  function AddLine(s: Draft, line: Line): (r: Option<Draft>)
    requires Sound(s)
    ensures LaterDraft(s.doc, r)
  {
    match line
    case Blank => Some(s)
    case Pair(Entry(keys, v)) =>
      (match AddEntry(s.doc, s.cur, keys, v)
       case None => None
       case Some(d) => Some(Draft(d, s.cur)))
    case Select(double, keys) => AddSelect(s.doc, double, keys)
  }

  const EMPTY := Doc([Tab("", false, false, [], [], [])], [])

  lemma EmptyGood()
    ensures Good(EMPTY)
  {
    assert Linked(EMPTY);
    assert Rooted(EMPTY);
    forall t | 0 <= t < |EMPTY.tabs| ensures Distinct(Keys(EMPTY, t)) {
      assert Keys(EMPTY, t) == [];
    }
  }

  lemma NoPath(d: Doc)
    requires Good(d)
    ensures Names([]) == Some([]) && Walk(d, []) == Some(Draft(d, ROOT))
  {}

  lemma NamesSnoc(keys: seq<string>, raw: string)
    requires Names(keys).Some? && KeyOf(raw).Some?
    ensures Names(keys + [raw]) == Some(Names(keys).value + [KeyOf(raw).value])
  {
    assert (keys + [raw])[..|keys|] == keys;
  }

  lemma {:induction false} NamesStuck(keys: seq<string>, all: seq<string>)
    requires keys <= all && Names(keys).None?
    ensures Names(all).None?
    decreases |all|
  {
    hide KeyOf;
    if |keys| == |all| {
      assert keys == all;
    } else {
      NamesStuck(keys, all[..|all| - 1]);
    }
  }

  lemma NamesRefused(keys: seq<string>, raw: string)
    requires Names(keys).Some? && KeyOf(raw).None?
    ensures Names(keys + [raw]).None?
  {
    hide KeyOf;
    assert (keys + [raw])[..|keys|] == keys;
  }

  lemma WalkFurther(d: Doc, names: seq<string>, key: string)
    requires Good(d) && Walk(d, names).Some?
    ensures var Draft(d1, u) := Walk(d, names).value;
      && (Walk(d, names + [key]).Some? <==> WalkInto(d1, u, key).Some?)
      && Walk(d, names + [key]) == WalkInto(d1, u, key)
  {
    hide WalkInto, Good;
    var all := names + [key];
    assert all[..|names|] == names && all[|names|] == key;
  }

  // The document that some lines build.
  function Build(lines: seq<Line>): (r: Option<Draft>)
    ensures r.Some? ==> Sound(r.value)
  {
    if |lines| == 0 then EmptyGood(); Some(Draft(EMPTY, ROOT))
    else match Build(lines[..|lines| - 1])
      case None => None
      case Some(s) => AddLine(s, lines[|lines| - 1])
  }

  lemma LinesSnoc(lines: seq<Line>, line: Line)
    requires Build(lines).Some?
    ensures Build(lines + [line]) == AddLine(Build(lines).value, line)
  {
    assert (lines + [line])[..|lines|] == lines;
  }

  lemma {:induction false} BuildStuck(lines: seq<Line>, all: seq<Line>)
    requires lines <= all && Build(lines).None?
    ensures Build(all).None?
    decreases |all|
  {
    if |lines| == |all| {
      assert lines == all;
    } else {
      BuildStuck(lines, all[..|all| - 1]);
    }
  }

  // ---- what is written is what is stored

  function OfItem(item: Item): Found {
    match item case ValItem(val) => IsVal(val) case ArrItem(a) => IsArr(a) case TabItem(t) => IsTab(t)
  }

  // A value is stored as written: a string as its text, an array item by item,
  // in order, an inline table entry by entry, and closed.
  ghost predicate Stored(d: Doc, f: Found, v: Node)
    requires Linked(d)
    decreases v, 0
  {
    match v
    case Raw(val) => f == IsVal(val)
    case List(items, _) =>
      && f.IsArr? && f.arr < |d.arrs| && |items| <= |d.arrs[f.arr].items|
      && (forall i :: 0 <= i < |items| ==> Stored(d, OfItem(d.arrs[f.arr].items[i]), items[i]))
    case Dict(entries, _) =>
      && f.IsTab? && f.tab < |d.tabs| && d.tabs[f.tab].readonly
      && AllStored(d, f.tab, entries)
  }

  ghost predicate AllStored(d: Doc, t: nat, entries: seq<Entry>)
    requires Linked(d) && t < |d.tabs|
    decreases entries, 2
  {
    forall i :: 0 <= i < |entries| ==> StoredAt(d, t, entries[i].keys, entries[i].value)
  }

  ghost predicate StoredAt(d: Doc, t: nat, keys: seq<string>, v: Node)
    requires Linked(d) && t < |d.tabs|
    decreases v, 1
  {
    Names(keys).Some? && Stored(d, Look(d, t, Names(keys).value), v)
  }

  lemma {:induction false} StoredStays(d: Doc, d': Doc, f: Found, v: Node)
    requires Good(d) && Good(d') && Grows(d, d') && Stored(d, f, v)
    ensures Stored(d', f, v)
    decreases v, 0
  {
    match v
    case Raw(_) =>
    case List(items, _) =>
      forall i | 0 <= i < |items| ensures Stored(d', OfItem(d'.arrs[f.arr].items[i]), items[i]) {
        assert d'.arrs[f.arr].items[i] == d.arrs[f.arr].items[i];
        StoredStays(d, d', OfItem(d.arrs[f.arr].items[i]), items[i]);
      }
    case Dict(entries, _) =>
      AllStoredStays(d, d', f.tab, entries);
  }

  lemma {:induction false} AllStoredStays(d: Doc, d': Doc, t: nat, entries: seq<Entry>)
    requires Good(d) && Good(d') && Grows(d, d') && t < |d.tabs| && AllStored(d, t, entries)
    ensures AllStored(d', t, entries)
    decreases entries, 2
  {
    forall i | 0 <= i < |entries| ensures StoredAt(d', t, entries[i].keys, entries[i].value) {
      StoredAtStays(d, d', t, entries[i].keys, entries[i].value);
    }
  }

  lemma {:induction false} StoredAtStays(d: Doc, d': Doc, t: nat, keys: seq<string>, v: Node)
    requires Good(d) && Good(d') && Grows(d, d') && t < |d.tabs| && StoredAt(d, t, keys, v)
    ensures StoredAt(d', t, keys, v)
    decreases v, 1
  {
    var names := Names(keys).value;
    StoredStays(d, d', Look(d, t, names), v);
    LookStays(d, d', t, names);
  }

  lemma {:induction false} NamesCons(key: string, keys: seq<string>)
    ensures Names([key] + keys) ==
            if KeyOf(key).None? || Names(keys).None? then None else Some([KeyOf(key).value] + Names(keys).value)
  {
    var all := [key] + keys;
    var n := |keys|;
    if n == 0 {
      assert all[..0] == [] && all == [key];
      if KeyOf(key).Some? { assert [] + [KeyOf(key).value] == [KeyOf(key).value] + []; }
    } else {
      assert all[..n] == [key] + keys[..n - 1] && all[n] == keys[n - 1];
      NamesCons(key, keys[..n - 1]);
      var k, ns, last := KeyOf(key), Names(keys[..n - 1]), KeyOf(keys[n - 1]);
      if k.Some? && ns.Some? && last.Some? {
        assert [k.value] + (ns.value + [last.value]) == ([k.value] + ns.value) + [last.value];
      }
    }
  }

  // ---- entries are stored, and keep what was stored

  lemma {:induction false} NodeStored(d: Doc, a: nat, v: Node)
    requires Good(d) && a < |d.arrs| && AddNode(d, a, v).Some?
    ensures var d', n := AddNode(d, a, v).value, |d.arrs[a].items|;
      n < |d'.arrs[a].items| && Stored(d', OfItem(d'.arrs[a].items[n]), v)
    decreases v, 0
  {
    hide WithItem, AddNodes, FillTable, Linked, Rooted, Distinct, Keys;
    var d' := AddNode(d, a, v).value;
    var n := |d.arrs[a].items|;
    var d1 := WithItem(d, a, v);
    match v
    case Raw(_) =>
    case List(items, _) =>
      assert d1.arrs[a].items[n] == d'.arrs[a].items[n];
      NodesStored(d1, |d.arrs|, items);
    case Dict(entries, _) =>
      assert d1.arrs[a].items[n] == d'.arrs[a].items[n];
      TableFilled(d1, |d.tabs|, entries);
  }

  // What an array of these items is an array of.
  function KindOfAll(items: seq<Node>): ArrayKind {
    if |items| == 0 then NoKind
    else if forall i :: 0 <= i < |items| ==> items[i].Raw? then Values
    else if forall i :: 0 <= i < |items| ==> items[i].List? then Arrays
    else if forall i :: 0 <= i < |items| ==> items[i].Dict? then Tables
    else Mixed
  }

  lemma KindOfMore(items: seq<Node>, v: Node)
    ensures KindOfAll(items + [v]) == NextKind(KindOfAll(items), KindOf(v))
  {
    var all := items + [v];
    assert all[|items|] == v && forall i :: 0 <= i < |items| ==> all[i] == items[i];
    if |items| > 0 { assert all[0] == items[0]; }
  }

  lemma NoItemsNoKind()
    ensures KindOfAll([]) == NoKind
  {}

  lemma {:induction false} NodesKind(d: Doc, a: nat, items: seq<Node>)
    requires Good(d) && a < |d.arrs| && d.arrs[a].kind.NoKind? && AddNodes(d, a, items).Some?
    ensures AddNodes(d, a, items).value.arrs[a].kind == KindOfAll(items)
  {
    hide AddNode, KindOfAll, NextKind, Linked, Rooted, Distinct;
    if |items| == 0 {
      NoItemsNoKind();
    } else {
      var n := |items| - 1;
      var d1 := AddNodes(d, a, items[..n]).value;
      NodesKind(d, a, items[..n]);
      NodeKind(d1, a, items[n]);
      KindOfMore(items[..n], items[n]);
      assert items == items[..n] + [items[n]];
    }
  }

  lemma NodeKind(d: Doc, a: nat, v: Node)
    requires Good(d) && a < |d.arrs| && AddNode(d, a, v).Some?
    ensures AddNode(d, a, v).value.arrs[a].kind == NextKind(d.arrs[a].kind, KindOf(v))
  {
    hide AddNodes, FillTable, Rooted, Distinct;
  }

  lemma {:induction false} NodesStored(d: Doc, a: nat, items: seq<Node>)
    requires Good(d) && a < |d.arrs| && d.arrs[a].items == [] && AddNodes(d, a, items).Some?
    ensures forall i :: 0 <= i < |items| ==>
              Stored(AddNodes(d, a, items).value, OfItem(AddNodes(d, a, items).value.arrs[a].items[i]), items[i])
    decreases items, 0
  {
    hide AddNode, Rooted, Distinct;
    if |items| > 0 {
      var n := |items| - 1;
      var d1, d' := AddNodes(d, a, items[..n]).value, AddNodes(d, a, items).value;
      NodesStored(d, a, items[..n]);
      NodeStored(d1, a, items[n]);
      forall i | 0 <= i < |items| ensures Stored(d', OfItem(d'.arrs[a].items[i]), items[i]) {
        if i < n {
          assert d'.arrs[a].items[i] == d1.arrs[a].items[i];
          StoredStays(d1, d', OfItem(d1.arrs[a].items[i]), items[i]);
        }
      }
    }
  }

  lemma {:induction false} TableFilled(d: Doc, t: nat, entries: seq<Entry>)
    requires Good(d) && t < |d.tabs| && FillTable(d, t, entries).Some?
    ensures AllStored(FillTable(d, t, entries).value, t, entries) && FillTable(d, t, entries).value.tabs[t].readonly
    decreases entries, 1
  {
    var d1 := AddEntries(d, t, entries).value;
    EntriesStored(d, t, entries);
    MarkKeeps(d1, t, d1.tabs[t].implicit, true);
    AllStoredStays(d1, FillTable(d, t, entries).value, t, entries);
  }

  lemma {:induction false} EntriesStored(d: Doc, t: nat, entries: seq<Entry>)
    requires Good(d) && t < |d.tabs| && AddEntries(d, t, entries).Some?
    ensures AllStored(AddEntries(d, t, entries).value, t, entries)
    decreases entries, 0
  {
    if |entries| > 0 {
      var n := |entries| - 1;
      var e := entries[n];
      var d1 := AddEntries(d, t, entries[..n]).value;
      var d' := AddEntry(d1, t, e.keys, e.value).value;
      EntriesStored(d, t, entries[..n]);
      EntryStored(d1, t, e.keys, e.value);
      AllStoredStays(d1, d', t, entries[..n]);
      AllStoredSnoc(d', t, entries);
      assert AddEntries(d, t, entries) == Some(d');
    }
  }

  lemma AllStoredSnoc(d: Doc, t: nat, entries: seq<Entry>)
    requires Linked(d) && t < |d.tabs| && |entries| > 0 && AllStored(d, t, entries[..|entries| - 1])
    requires StoredAt(d, t, entries[|entries| - 1].keys, entries[|entries| - 1].value)
    ensures AllStored(d, t, entries)
  {
    var n := |entries| - 1;
    forall i | 0 <= i < n ensures StoredAt(d, t, entries[i].keys, entries[i].value) {
      assert entries[..n][i] == entries[i];
    }
  }

  lemma StoredUnder(d: Doc, t: nat, keys: seq<string>, v: Node)
    requires Linked(d) && t < |d.tabs| && |keys| > 0 && KeyOf(keys[0]).Some?
    requires |keys| == 1 ==> Stored(d, CheckKey(d, t, KeyOf(keys[0]).value), v)
    requires |keys| > 1 ==>
               var u := TableIn(d, t, KeyOf(keys[0]).value);
               u.Some? && StoredAt(d, u.value, keys[1..], v)
    ensures StoredAt(d, t, keys, v)
  {
    var key := KeyOf(keys[0]).value;
    assert keys == [keys[0]] + keys[1..];
    NamesCons(keys[0], keys[1..]);
    var rest := Names(keys[1..]).value;
    assert Names(keys) == Some([key] + rest);
    assert ([key] + rest)[1..] == rest;
  }

  // An entry that is taken can be looked up, by the names its keys spell, and
  // leads to its value.
  lemma {:induction false} EntryStored(d: Doc, t: nat, keys: seq<string>, v: Node)
    requires Good(d) && t < |d.tabs| && AddEntry(d, t, keys, v).Some?
    ensures StoredAt(AddEntry(d, t, keys, v).value, t, keys, v)
    decreases v, 1, keys
  {
    var d' := AddEntry(d, t, keys, v).value;
    var key := KeyOf(keys[0]).value;
    if |keys| == 1 {
      ValueStored(d, t, key, v);
    } else {
      var (d1, u) := SubTable(d, t, key).value;
      EntryStored(d1, u, keys[1..], v);
      LookupsStay(d1, d', t, key);
    }
    StoredUnder(d', t, keys, v);
  }

  lemma {:induction false} ValueStored(d: Doc, t: nat, key: string, v: Node)
    requires Good(d) && t < |d.tabs| && AddValue(d, t, key, v).Some?
    ensures Stored(AddValue(d, t, key, v).value, CheckKey(AddValue(d, t, key, v).value, t, key), v)
    decreases v, 0
  {
    var d' := AddValue(d, t, key, v).value;
    LookupsAgree(d', t, key);
    match v
    case Raw(val) => AddValKeeps(d, t, key, val);
    case List(items, _) =>
      AddArrKeeps(d, t, key, NoKind);
      var d1 := AddArr(d, t, key, NoKind);
      NodesStored(d1, |d.arrs|, items);
      LookupsAgree(d1, t, key);
      LookupsStay(d1, d', t, key);
    case Dict(entries, _) =>
      var (d1, u) := NewTable(d, t, key).value;
      TableFilled(d1, u, entries);
      LookupsStay(d1, d', t, key);
  }

  lemma NamesHead(keys: seq<string>)
    requires |keys| > 0 && Names(keys).Some?
    ensures KeyOf(keys[0]).Some? && Names(keys[1..]).Some?
    ensures Names(keys).value == [KeyOf(keys[0]).value] + Names(keys[1..]).value
    ensures Names(keys).value[1..] == Names(keys[1..]).value
  {
    hide KeyOf;
    assert keys == [keys[0]] + keys[1..];
    NamesCons(keys[0], keys[1..]);
  }

  // An entry is taken only where its keys lead to nothing yet, or, if it is an
  // inline table, to a table that just headers had made.
  lemma {:induction false} NoKeyTwice(d: Doc, t: nat, keys: seq<string>, v: Node)
    requires Good(d) && t < |d.tabs| && AddEntry(d, t, keys, v).Some? && Names(keys).Some?
    ensures var f := Look(d, t, Names(keys).value);
      f.NoKey? || (v.Dict? && f.IsTab? && d.tabs[f.tab].implicit)
    decreases keys
  {
    hide AddNodes, FillTable, KeyOf, Names, Rooted, Distinct;
    NamesHead(keys);
    var key := KeyOf(keys[0]).value;
    if |keys| > 1 && TableIn(d, t, key).Some? {
      NoKeyTwice(d, TableIn(d, t, key).value, keys[1..], v);
    }
  }

  // ---- headers

  lemma {:induction false} WalkResolves(d: Doc, names: seq<string>)
    requires Good(d) && Walk(d, names).Some?
    ensures Resolve(Walk(d, names).value.doc, ROOT, names) == Some(Walk(d, names).value.cur)
  {
    hide Rooted, Distinct, Linked;
    if |names| > 0 {
      var n := |names| - 1;
      var Draft(d1, u) := Walk(d, names[..n]).value;
      WalkResolves(d, names[..n]);
      if CheckKey(d1, u, names[n]).NoKey? {
        AddTabKeeps(d1, u, names[n], true);
        var d' := AddTab(d1, u, names[n], true);
        LookupsAgree(d', u, names[n]);
        StepsStay(d1, d', u, names[..n]);
      }
    }
  }

  // A change that leaves every array listed in an older table than u as it was
  // leaves the way to u as it was.
  lemma StepsStay(d: Doc, d': Doc, u: nat, names: seq<string>)
    requires Good(d) && Good(d') && Grows(d, d') && Resolve(d, ROOT, names) == Some(u)
    requires forall t, i :: 0 <= t < u && 0 <= i < |d.tabs[t].arr| ==>
                              d'.arrs[d.tabs[t].arr[i]] == d.arrs[d.tabs[t].arr[i]]
    ensures Resolve(d', ROOT, names) == Some(u)
  {
    forall t, key | 0 <= t < u && Into(d, t, key).Some? ensures Into(d', t, key) == Into(d, t, key) {
      IntoStays(d, d', t, key);
    }
    ResolveStays(d, d', ROOT, names);
  }

  // A header opens the table that its path leads to from then on.
  lemma SelectResolves(d: Doc, double: bool, keys: seq<string>)
    requires Good(d) && AddSelect(d, double, keys).Some?
    ensures Names(keys).Some?
    ensures var Draft(d', cur) := AddSelect(d, double, keys).value;
      Resolve(d', ROOT, Names(keys).value) == Some(cur)
  {
    var names := Names(keys).value;
    var n := |names| - 1;
    var Draft(d1, t) := Walk(d, names[..n]).value;
    WalkResolves(d, names[..n]);
    OpenInto(d1, t, double, names[n]);
    StepsStay(d1, Open(d1, t, double, names[n]).value.doc, t, names[..n]);
  }

  lemma OpenInto(d: Doc, t: nat, double: bool, key: string)
    requires Good(d) && t < |d.tabs| && Open(d, t, double, key).Some?
    ensures var Draft(d', u) := Open(d, t, double, key).value;
      && Into(d', t, key) == Some(u)
      && (forall t', i :: 0 <= t' < t && 0 <= i < |d.tabs[t'].arr| ==>
            d'.arrs[d.tabs[t'].arr[i]] == d.arrs[d.tabs[t'].arr[i]])
  {
    if double {
      ElementInto(d, t, key);
      OlderArraysStay(d, t, key);
    } else {
      hide Distinct, Rooted;
      LookupsAgree(Open(d, t, double, key).value.doc, t, key);
    }
  }

  // [[z]] opens the new last table of the array under z.
  lemma ElementInto(d: Doc, t: nat, key: string)
    requires Good(d) && t < |d.tabs| && TableArray(d, t, key).Some?
    ensures var (d1, a) := TableArray(d, t, key).value;
      var d' := AddTabItem(d1, a, "__anon__");
      Good(d') && Grows(d1, d') && Into(d', t, key) == Some(|d1.tabs|)
  {
    hide TableArray, Distinct, Rooted, Linked;
    var (d1, a) := TableArray(d, t, key).value;
    AddTabItemKeeps(d1, a, "__anon__");
    LookupsAgree(d1, t, key);
    LookupsStay(d1, AddTabItem(d1, a, "__anon__"), t, key);
  }

  // It leaves the arrays of older tables alone.
  lemma OlderArraysStay(d: Doc, t: nat, key: string)
    requires Good(d) && t < |d.tabs| && TableArray(d, t, key).Some?
    ensures var (d1, a) := TableArray(d, t, key).value;
      forall t', i :: 0 <= t' < t && 0 <= i < |d.tabs[t'].arr| ==>
        AddTabItem(d1, a, "__anon__").arrs[d.tabs[t'].arr[i]] == d.arrs[d.tabs[t'].arr[i]]
  {
    hide Distinct;
  }

  // ---- whole documents

  lemma {:induction false} BuildGrows(lines: seq<Line>, n: nat)
    requires n <= |lines| && Build(lines).Some?
    ensures Build(lines[..n]).Some? && Grows(Build(lines[..n]).value.doc, Build(lines).value.doc)
  {
    if n == |lines| {
      assert lines[..n] == lines;
    } else {
      var before := lines[..|lines| - 1];
      BuildGrows(before, n);
      assert before[..n] == lines[..n];
      GrowsFurther(Build(lines[..n]).value.doc, Build(before).value.doc, Build(lines).value.doc);
    }
  }

  // Every entry of a document is found in it, as written, in the table that was
  // open at its line.
  lemma DocumentStored(lines: seq<Line>, i: nat)
    requires Build(lines).Some? && i < |lines| && lines[i].Pair?
    ensures Build(lines[..i]).Some?
    ensures var e := lines[i].entry;
      && Build(lines[..i]).value.cur < |Build(lines).value.doc.tabs|
      && StoredAt(Build(lines).value.doc, Build(lines[..i]).value.cur, e.keys, e.value)
  {
    hide AddEntry, AddSelect, StoredAt, Good, Grows;
    BuildGrows(lines, i);
    BuildGrows(lines, i + 1);
    assert lines[..i + 1][..i] == lines[..i] && lines[..i + 1][i] == lines[i];
    var s, s' := Build(lines[..i]).value, Build(lines[..i + 1]).value;
    EntryStored(s.doc, s.cur, lines[i].entry.keys, lines[i].entry.value);
    StoredAtStays(s'.doc, Build(lines).value.doc, s.cur, lines[i].entry.keys, lines[i].entry.value);
  }

  // Until the next header, entries go to the table that the last one opened.
  lemma {:induction false} OpenUntilNext(lines: seq<Line>, i: nat)
    requires Build(lines).Some? && i < |lines| && lines[i].Select?
    requires forall j :: i < j < |lines| ==> !lines[j].Select?
    ensures Build(lines[..i + 1]).Some? && Names(lines[i].keys).Some?
    ensures Build(lines).value.cur == Build(lines[..i + 1]).value.cur
    ensures Resolve(Build(lines[..i + 1]).value.doc, ROOT, Names(lines[i].keys).value) == Some(Build(lines).value.cur)
  {
    hide AddEntry, AddSelect, Names, Resolve, Good;
    var n := |lines| - 1;
    if i == n {
      assert lines[..i + 1] == lines;
      SelectResolves(Build(lines[..n]).value.doc, lines[i].double, lines[i].keys);
    } else {
      assert lines[..n][..i + 1] == lines[..i + 1];
      OpenUntilNext(lines[..n], i);
    }
  }
}
