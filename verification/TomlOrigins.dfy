// Whatever is found in a document was written: by an entry of some line, or by
// the path of some header.

module TomlOrigins {
  import opened Wrappers
  import opened TomlKeys
  import opened TomlTree
  import opened TomlSyntax
  import opened TomlMeaning

  // What there is to find: something under a key of a table, an item of an array,
  // the closing of an inline table.
  datatype Thing = Cell(tab: nat, key: string) | Slot(arr: nat, place: nat) | Close(tab: nat)

  ghost predicate Is(d: Doc, x: Thing)
    requires Linked(d)
  {
    match x
    case Cell(t, key) => t < |d.tabs| && !CheckKey(d, t, key).NoKey?
    case Slot(a, i) => a < |d.arrs| && i < |d.arrs[a].items|
    case Close(t) => t < |d.tabs| && d.tabs[t].readonly
  }

  ghost predicate New(d: Doc, d': Doc, x: Thing)
    requires Linked(d) && Linked(d')
  {
    Is(d', x) && !Is(d, x)
  }

  // ---- whose it is

  // The value v, found at f, or something in it, has written x; w is the value
  // that x stands for, if it does not stand for a table on the way to one.
  ghost predicate ValueOwns(d: Doc, f: Found, v: Node, x: Thing, w: Option<Node>)
    requires Linked(d)
    decreases v, 0
  {
    match v
    case Raw(_) => false
    case List(items, _) => f.IsArr? && f.arr < |d.arrs| && ListOwns(d, f.arr, items, x, w)
    case Dict(entries, _) =>
      && f.IsTab? && f.tab < |d.tabs|
      && ((x == Close(f.tab) && w == Some(v)) || DictOwns(d, f.tab, entries, x, w))
  }

  ghost predicate ListOwns(d: Doc, a: nat, items: seq<Node>, x: Thing, w: Option<Node>)
    requires Linked(d) && a < |d.arrs|
    decreases items, 0
  {
    && |items| <= |d.arrs[a].items|
    && exists j :: 0 <= j < |items| && ItemOwns(d, a, j, items[j], x, w)
  }

  ghost predicate ItemOwns(d: Doc, a: nat, j: nat, v: Node, x: Thing, w: Option<Node>)
    requires Linked(d) && a < |d.arrs| && j < |d.arrs[a].items|
    decreases v, 1
  {
    (x == Slot(a, j) && w == Some(v)) || ValueOwns(d, OfItem(d.arrs[a].items[j]), v, x, w)
  }

  ghost predicate DictOwns(d: Doc, t: nat, entries: seq<Entry>, x: Thing, w: Option<Node>)
    requires Linked(d) && t < |d.tabs|
    decreases entries, 0
  {
    exists j :: 0 <= j < |entries| && EntryOwns(d, t, entries[j].keys, entries[j].value, x, w)
  }

  // The same of an entry in table t.
  ghost predicate EntryOwns(d: Doc, t: nat, keys: seq<string>, v: Node, x: Thing, w: Option<Node>)
    requires Linked(d) && t < |d.tabs|
    decreases v, 1, keys
  {
    && |keys| > 0 && KeyOf(keys[0]).Some?
    && var key := KeyOf(keys[0]).value;
       || (x == Cell(t, key) && w == if |keys| == 1 then Some(v) else None)
       || if |keys| == 1 then ValueOwns(d, CheckKey(d, t, key), v, x, w)
          else TableIn(d, t, key).Some? && EntryOwns(d, TableIn(d, t, key).value, keys[1..], v, x, w)
  }

  // ---- it stays so

  lemma {:induction false} ValueOwnsStays(d: Doc, d': Doc, f: Found, v: Node, x: Thing, w: Option<Node>)
    requires Good(d) && Good(d') && Grows(d, d') && ValueOwns(d, f, v, x, w)
    ensures ValueOwns(d', f, v, x, w)
    decreases v, 0
  {
    hide Rooted, Distinct, Keys;
    match v
    case List(items, _) => ListOwnsStays(d, d', f.arr, items, x, w);
    case Dict(entries, _) => if x != Close(f.tab) || w != Some(v) { DictOwnsStays(d, d', f.tab, entries, x, w); }
  }

  lemma {:induction false} ListOwnsStays(d: Doc, d': Doc, a: nat, items: seq<Node>, x: Thing, w: Option<Node>)
    requires Good(d) && Good(d') && Grows(d, d') && a < |d.arrs| && ListOwns(d, a, items, x, w)
    ensures ListOwns(d', a, items, x, w)
    decreases items, 0
  {
    hide Rooted, Distinct, Keys;
    var j :| 0 <= j < |items| && ItemOwns(d, a, j, items[j], x, w);
    assert d'.arrs[a].items[j] == d.arrs[a].items[j];
    if x != Slot(a, j) || w != Some(items[j]) {
      ValueOwnsStays(d, d', OfItem(d.arrs[a].items[j]), items[j], x, w);
    }
    assert ItemOwns(d', a, j, items[j], x, w);
  }

  lemma {:induction false} DictOwnsStays(d: Doc, d': Doc, t: nat, entries: seq<Entry>, x: Thing, w: Option<Node>)
    requires Good(d) && Good(d') && Grows(d, d') && t < |d.tabs| && DictOwns(d, t, entries, x, w)
    ensures DictOwns(d', t, entries, x, w)
    decreases entries, 0
  {
    hide EntryOwns, Rooted, Distinct, Keys;
    var j :| 0 <= j < |entries| && EntryOwns(d, t, entries[j].keys, entries[j].value, x, w);
    EntryOwnsStays(d, d', t, entries[j].keys, entries[j].value, x, w);
  }

  lemma {:induction false} EntryOwnsStays(d: Doc, d': Doc, t: nat, keys: seq<string>, v: Node,
                                          x: Thing, w: Option<Node>)
    requires Good(d) && Good(d') && Grows(d, d') && t < |d.tabs| && EntryOwns(d, t, keys, v, x, w)
    ensures EntryOwns(d', t, keys, v, x, w)
    decreases v, 1, keys
  {
    hide KeyOf, CheckKey, TableIn, Linked, Rooted, Distinct, Keys;
    var key := KeyOf(keys[0]).value;
    LookupsStay(d, d', t, key);
    if |keys| == 1 {
      if ValueOwns(d, CheckKey(d, t, key), v, x, w) { ValueOwnsStays(d, d', CheckKey(d, t, key), v, x, w); }
    } else if TableIn(d, t, key).Some? && EntryOwns(d, TableIn(d, t, key).value, keys[1..], v, x, w) {
      EntryOwnsStays(d, d', TableIn(d, t, key).value, keys[1..], v, x, w);
    }
  }

  // ---- what each change makes

  // A key that was not there stands in a new place of one of the three lists.
  ghost predicate Listed(d: Doc, d': Doc, t: nat, key: string)
    requires Linked(d') && t < |d.tabs| && t < |d'.tabs|
  {
    var tb, tb' := d.tabs[t], d'.tabs[t];
    || (exists i :: |tb.kval| <= i < |tb'.kval| && tb'.kval[i].key == key)
    || (exists i :: |tb.arr| <= i < |tb'.arr| && d'.arrs[tb'.arr[i]].key == key)
    || (exists i :: |tb.tab| <= i < |tb'.tab| && d'.tabs[tb'.tab[i]].key == key)
  }

  lemma OldPlace(ks: seq<string>, ks': seq<string>, key: string) returns (i: nat)
    requires ks <= ks' && key !in ks && key in ks'
    ensures |ks| <= i < |ks'| && ks'[i] == key
  {
    assert forall j :: 0 <= j < |ks| ==> ks'[j] == ks[j] && ks[j] in ks;
    i :| 0 <= i < |ks'| && ks'[i] == key;
  }

  lemma NewKeyListed(d: Doc, d': Doc, t: nat, key: string)
    requires Good(d) && Good(d') && Grows(d, d') && t < |d.tabs|
    requires CheckKey(d, t, key).NoKey? && !CheckKey(d', t, key).NoKey?
    ensures Listed(d, d', t, key)
  {
    hide Rooted, Distinct, Keys;
    var tb, tb' := d.tabs[t], d'.tabs[t];
    var v, v' := ValKeys(tb.kval), ValKeys(tb'.kval);
    var a, a' := ArrKeys(d, tb.arr), ArrKeys(d', tb'.arr);
    var b, b' := TabKeys(d, tb.tab), TabKeys(d', tb'.tab);
    if key in v' {
      var i := OldPlace(v, v', key);
      assert tb'.kval[i].key == key;
    } else if key in a' {
      var i := OldPlace(a, a', key);
      assert d'.arrs[tb'.arr[i]].key == key;
    } else {
      var i := OldPlace(b, b', key);
      assert d'.tabs[tb'.tab[i]].key == key;
    }
  }

  // A table without keys has nothing to find under any.
  lemma EmptyHasNone(d: Doc, t: nat, key: string)
    requires Good(d) && t < |d.tabs| && d.tabs[t].kval == [] && d.tabs[t].arr == [] && d.tabs[t].tab == []
    ensures CheckKey(d, t, key).NoKey?
  {}

  lemma AddValMakes(d: Doc, t: nat, key: string, val: string, x: Thing)
    requires Good(d) && t < |d.tabs|
    requires var d' := AddVal(d, t, key, val); Good(d') && Grows(d, d') && New(d, d', x)
    ensures x == Cell(t, key)
  {
    hide Linked, Rooted, Distinct, CheckKey, Grows;
    if x.Cell? { NewKeyListed(d, AddVal(d, t, key, val), x.tab, x.key); }
  }

  lemma AddTabMakes(d: Doc, t: nat, key: string, implicit: bool, x: Thing)
    requires Good(d) && t < |d.tabs|
    requires var d' := AddTab(d, t, key, implicit); Good(d') && Grows(d, d') && New(d, d', x)
    ensures x == Cell(t, key)
  {
    hide Linked, Rooted, Distinct, CheckKey, Grows;
    if x.Cell? {
      var d' := AddTab(d, t, key, implicit);
      if x.tab < |d.tabs| { NewKeyListed(d, d', x.tab, x.key); } else { EmptyHasNone(d', x.tab, x.key); }
    }
  }

  lemma AddArrMakes(d: Doc, t: nat, key: string, kind: ArrayKind, x: Thing)
    requires Good(d) && t < |d.tabs|
    requires var d' := AddArr(d, t, key, kind); Good(d') && Grows(d, d') && New(d, d', x)
    ensures x == Cell(t, key)
  {
    hide Linked, Rooted, Distinct, CheckKey, Grows;
    if x.Cell? { NewKeyListed(d, AddArr(d, t, key, kind), x.tab, x.key); }
  }

  lemma MarkMakes(d: Doc, t: nat, implicit: bool, readonly: bool, x: Thing)
    requires Good(d) && t < |d.tabs|
    requires var d' := Mark(d, t, implicit, readonly); Good(d') && Grows(d, d') && New(d, d', x)
    ensures readonly && !d.tabs[t].readonly && x == Close(t)
  {
    hide Linked, Rooted, Distinct, CheckKey, Grows;
    if x.Cell? { NewKeyListed(d, Mark(d, t, implicit, readonly), x.tab, x.key); }
  }

  lemma AddTabItemMakes(d: Doc, a: nat, key: string, x: Thing)
    requires Good(d) && a < |d.arrs|
    requires var d' := AddTabItem(d, a, key); Good(d') && Grows(d, d') && New(d, d', x)
    ensures x == Slot(a, |d.arrs[a].items|)
  {
    hide Linked, Rooted, Distinct, CheckKey, Grows;
    var d' := AddTabItem(d, a, key);
    if x.Cell? {
      if x.tab < |d.tabs| { NewKeyListed(d, d', x.tab, x.key); } else { EmptyHasNone(d', x.tab, x.key); }
    }
  }

  lemma WithItemMakes(d: Doc, a: nat, v: Node, x: Thing)
    requires Good(d) && a < |d.arrs| && New(d, WithItem(d, a, v), x)
    ensures x == Slot(a, |d.arrs[a].items|)
  {
    hide Linked, Rooted, Distinct, CheckKey, Grows;
    var d' := WithItem(d, a, v);
    if x.Cell? {
      if x.tab < |d.tabs| { NewKeyListed(d, d', x.tab, x.key); } else { EmptyHasNone(d', x.tab, x.key); }
    }
  }

  lemma NewTableMakes(d: Doc, t: nat, key: string, x: Thing)
    requires Good(d) && t < |d.tabs| && NewTable(d, t, key).Some? && New(d, NewTable(d, t, key).value.0, x)
    ensures x == Cell(t, key)
  {
    hide Linked, Rooted, Distinct, CheckKey, TableIn, Grows;
    match CheckKey(d, t, key)
    case NoKey =>
      CheckKeyFinds(d, t, key);
      AddTabKeeps(d, t, key, false);
      AddTabMakes(d, t, key, false, x);
    case IsTab(u) =>
      MarkKeeps(d, u, false, d.tabs[u].readonly);
      MarkMakes(d, u, false, d.tabs[u].readonly, x);
  }

  lemma SubTableMakes(d: Doc, t: nat, key: string, x: Thing)
    requires Good(d) && t < |d.tabs| && SubTable(d, t, key).Some? && New(d, SubTable(d, t, key).value.0, x)
    ensures x == Cell(t, key)
  {
    hide Linked, Rooted, Distinct, CheckKey, TableIn, Grows, Is, NewTable;
    if TableIn(d, t, key).None? { NewTableMakes(d, t, key, x); }
  }

  // ---- what an entry makes is its own

  lemma {:induction false} NodeMakes(d: Doc, a: nat, v: Node, x: Thing) returns (w: Option<Node>)
    requires Good(d) && a < |d.arrs| && AddNode(d, a, v).Some? && New(d, AddNode(d, a, v).value, x)
    ensures ItemOwns(AddNode(d, a, v).value, a, |d.arrs[a].items|, v, x, w)
    decreases v, 0
  {
    hide WithItem, AddNodes, FillTable, CheckKey, Linked, Rooted, Distinct, Is;
    var d1, d', n := WithItem(d, a, v), AddNode(d, a, v).value, |d.arrs[a].items|;
    w := Some(v);
    if New(d, d1, x) {
      WithItemMakes(d, a, v, x);
    } else {
      assert d1.arrs[a].items[n] == d'.arrs[a].items[n];
      match v
      case Raw(_) =>
      case List(items, _) => w := NodesMake(d1, |d.arrs|, items, x);
      case Dict(entries, _) => w := TableMakes(d1, |d.tabs|, entries, v, x);
    }
  }

  lemma {:induction false} NodesMake(d: Doc, a: nat, items: seq<Node>, x: Thing) returns (w: Option<Node>)
    requires Good(d) && a < |d.arrs| && d.arrs[a].items == [] && AddNodes(d, a, items).Some?
    requires New(d, AddNodes(d, a, items).value, x)
    ensures ListOwns(AddNodes(d, a, items).value, a, items, x, w)
    decreases items, 0
  {
    hide AddNode, ItemOwns, CheckKey, Linked, Rooted, Distinct, Is;
    var n := |items| - 1;
    var d1, d' := AddNodes(d, a, items[..n]).value, AddNodes(d, a, items).value;
    if New(d, d1, x) {
      w := NodesMake(d, a, items[..n], x);
      ListOwnsStays(d1, d', a, items[..n], x, w);
      var j :| 0 <= j < n && ItemOwns(d', a, j, items[..n][j], x, w);
      assert ItemOwns(d', a, j, items[j], x, w);
    } else {
      w := NodeMakes(d1, a, items[n], x);
      assert ItemOwns(d', a, n, items[n], x, w);
    }
  }

  // The inline table v with these entries.
  lemma {:induction false} TableMakes(d: Doc, t: nat, entries: seq<Entry>, v: Node, x: Thing)
    returns (w: Option<Node>)
    requires Good(d) && t < |d.tabs| && FillTable(d, t, entries).Some? && New(d, FillTable(d, t, entries).value, x)
    ensures var d' := FillTable(d, t, entries).value;
      (x == Close(t) && w == Some(v)) || DictOwns(d', t, entries, x, w)
    decreases entries, 1
  {
    hide AddEntries, DictOwns, CheckKey, Linked, Rooted, Distinct, Is;
    var d1 := AddEntries(d, t, entries).value;
    var implicit := d1.tabs[t].implicit;
    MarkKeeps(d1, t, implicit, true);
    if New(d, d1, x) {
      w := EntriesMake(d, t, entries, x);
      DictOwnsStays(d1, Mark(d1, t, implicit, true), t, entries, x, w);
    } else {
      MarkMakes(d1, t, implicit, true, x);
      w := Some(v);
    }
  }

  lemma {:induction false} EntriesMake(d: Doc, t: nat, entries: seq<Entry>, x: Thing) returns (w: Option<Node>)
    requires Good(d) && t < |d.tabs| && AddEntries(d, t, entries).Some?
    requires New(d, AddEntries(d, t, entries).value, x)
    ensures DictOwns(AddEntries(d, t, entries).value, t, entries, x, w)
    decreases entries, 0
  {
    hide AddEntry, EntryOwns, CheckKey, Linked, Rooted, Distinct, Is;
    var n := |entries| - 1;
    var d1, d' := AddEntries(d, t, entries[..n]).value, AddEntries(d, t, entries).value;
    if New(d, d1, x) {
      w := EntriesMake(d, t, entries[..n], x);
      DictOwnsStays(d1, d', t, entries[..n], x, w);
      var j :| 0 <= j < n && EntryOwns(d', t, entries[..n][j].keys, entries[..n][j].value, x, w);
      assert EntryOwns(d', t, entries[j].keys, entries[j].value, x, w);
    } else {
      w := EntryMakes(d1, t, entries[n].keys, entries[n].value, x);
    }
  }

  lemma {:induction false} EntryMakes(d: Doc, t: nat, keys: seq<string>, v: Node, x: Thing) returns (w: Option<Node>)
    requires Good(d) && t < |d.tabs| && AddEntry(d, t, keys, v).Some? && New(d, AddEntry(d, t, keys, v).value, x)
    ensures EntryOwns(AddEntry(d, t, keys, v).value, t, keys, v, x, w)
    decreases v, 1, keys
  {
    hide AddValue, SubTable, KeyOf, ValueOwns, CheckKey, TableIn, Linked, Rooted, Distinct, Is;
    var d', key := AddEntry(d, t, keys, v).value, KeyOf(keys[0]).value;
    if |keys| == 1 {
      w := ValueMakes(d, t, key, v, x);
    } else {
      var (d1, u) := SubTable(d, t, key).value;
      LookupsStay(d1, d', t, key);
      if New(d, d1, x) {
        SubTableMakes(d, t, key, x);
        w := None;
      } else {
        w := EntryMakes(d1, u, keys[1..], v, x);
      }
    }
  }

  lemma {:induction false} ValueMakes(d: Doc, t: nat, key: string, v: Node, x: Thing) returns (w: Option<Node>)
    requires Good(d) && t < |d.tabs| && AddValue(d, t, key, v).Some? && New(d, AddValue(d, t, key, v).value, x)
    ensures (x == Cell(t, key) && w == Some(v)) ||
            ValueOwns(AddValue(d, t, key, v).value, CheckKey(AddValue(d, t, key, v).value, t, key), v, x, w)
    decreases v, 0
  {
    hide NewTable, AddNodes, FillTable, CheckKey, TableIn, ArrayIn, Linked, Rooted, Distinct, Is;
    var d' := AddValue(d, t, key, v).value;
    w := Some(v);
    CheckKeyFinds(d, t, key);
    LookupsAgree(d', t, key);
    match v
    case Raw(val) =>
      AddValKeeps(d, t, key, val);
      AddValMakes(d, t, key, val, x);
    case List(items, _) =>
      var d1 := AddArr(d, t, key, NoKind);
      AddArrKeeps(d, t, key, NoKind);
      if New(d, d1, x) {
        AddArrMakes(d, t, key, NoKind, x);
      } else {
        w := NodesMake(d1, |d.arrs|, items, x);
        LookupsAgree(d1, t, key);
        LookupsStay(d1, d', t, key);
      }
    case Dict(entries, _) =>
      var (d1, u) := NewTable(d, t, key).value;
      if New(d, d1, x) {
        NewTableMakes(d, t, key, x);
      } else {
        w := TableMakes(d1, u, entries, v, x);
        LookupsStay(d1, d', t, key);
      }
  }

  // ---- what a header makes is on its path

  ghost predicate StepIs(d: Doc, names: seq<string>, i: nat, x: Thing)
    requires Good(d) && i < |names|
  {
    x.Cell? && x.key == names[i] && Resolve(d, ROOT, names[..i]) == Some(x.tab)
  }

  ghost predicate OnPath(d: Doc, names: seq<string>, x: Thing)
    requires Good(d)
  {
    exists i :: 0 <= i < |names| && StepIs(d, names, i, x)
  }

  // The last item of the array under the last key.
  ghost predicate LastElement(d: Doc, names: seq<string>, x: Thing)
    requires Good(d) && |names| > 0
  {
    var r := Resolve(d, ROOT, names[..|names| - 1]);
    && x.Slot? && r.Some? && ArrayIn(d, r.value, names[|names| - 1]) == Some(x.arr)
    && x.place + 1 == |d.arrs[x.arr].items|
  }

  ghost predicate HeaderOwns(d: Doc, double: bool, names: seq<string>, x: Thing)
    requires Good(d)
  {
    OnPath(d, names, x) || (double && |names| > 0 && LastElement(d, names, x))
  }

  lemma {:induction false} PathOlder(d: Doc, names: seq<string>, i: nat)
    requires Good(d) && i <= |names| && Resolve(d, ROOT, names).Some?
    ensures Resolve(d, ROOT, names[..i]).Some?
    ensures Resolve(d, ROOT, names[..i]).value <= Resolve(d, ROOT, names).value
  {
    hide Into, Rooted, Distinct;
    if i == |names| {
      assert names[..i] == names;
    } else {
      var before := names[..|names| - 1];
      ResolveYounger(d, ROOT, names);
      PathOlder(d, before, i);
      assert before[..i] == names[..i];
    }
  }

  lemma OnPathStays(d: Doc, d': Doc, names: seq<string>, t: nat, x: Thing)
    requires Good(d) && Good(d') && Grows(d, d') && Resolve(d, ROOT, names) == Some(t) && OnPath(d, names, x)
    requires forall u, i :: 0 <= u < t && 0 <= i < |d.tabs[u].arr| ==>
                              d'.arrs[d.tabs[u].arr[i]] == d.arrs[d.tabs[u].arr[i]]
    ensures OnPath(d', names, x)
  {
    hide Resolve, Rooted, Distinct;
    var i :| 0 <= i < |names| && StepIs(d, names, i, x);
    PathOlder(d, names, i);
    StepsStay(d, d', x.tab, names[..i]);
    assert StepIs(d', names, i, x);
  }

  lemma OnLonger(d: Doc, names: seq<string>, key: string, x: Thing)
    requires Good(d) && OnPath(d, names, x)
    ensures OnPath(d, names + [key], x)
  {
    hide Resolve, Good;
    var i :| 0 <= i < |names| && StepIs(d, names, i, x);
    assert (names + [key])[..i] == names[..i];
    assert StepIs(d, names + [key], i, x);
  }

  lemma OnLast(d: Doc, names: seq<string>, key: string, t: nat)
    requires Good(d) && Resolve(d, ROOT, names) == Some(t)
    ensures OnPath(d, names + [key], Cell(t, key))
  {
    hide Resolve, Good;
    assert (names + [key])[..|names|] == names;
    assert StepIs(d, names + [key], |names|, Cell(t, key));
  }

  lemma {:induction false} WalkMakes(d: Doc, names: seq<string>, x: Thing)
    requires Good(d) && Walk(d, names).Some? && New(d, Walk(d, names).value.doc, x)
    ensures OnPath(Walk(d, names).value.doc, names, x)
  {
    hide OnPath, Resolve, Into, CheckKey, Is, Linked, Rooted, Distinct;
    if |names| > 0 {
      var n := |names| - 1;
      var Draft(d1, u) := Walk(d, names[..n]).value;
      var key := names[n];
      assert names == names[..n] + [key];
      WalkResolves(d, names[..n]);
      if CheckKey(d1, u, key).NoKey? {
        var d' := AddTab(d1, u, key, true);
        CheckKeyFinds(d1, u, key);
        AddTabKeeps(d1, u, key, true);
        StepsStay(d1, d', u, names[..n]);
        OnLast(d', names[..n], key, u);
        if New(d, d1, x) {
          WalkMakes(d, names[..n], x);
          OnPathStays(d1, d', names[..n], u, x);
          OnLonger(d', names[..n], key, x);
        } else {
          AddTabMakes(d1, u, key, true, x);
        }
      } else {
        WalkMakes(d, names[..n], x);
        OnLonger(d1, names[..n], key, x);
      }
    }
  }

  lemma OpenMakes(d: Doc, t: nat, double: bool, key: string, x: Thing)
    requires Good(d) && t < |d.tabs| && Open(d, t, double, key).Some?
    requires New(d, Open(d, t, double, key).value.doc, x)
    ensures var d' := Open(d, t, double, key).value.doc;
      || x == Cell(t, key)
      || (double && x.Slot? && ArrayIn(d', t, key) == Some(x.arr) && x.place + 1 == |d'.arrs[x.arr].items|)
  {
    hide CheckKey, ArrayIn, TableIn, NewTable, Is, Linked, Rooted, Distinct;
    if double {
      var (d1, a) := TableArray(d, t, key).value;
      var d' := AddTabItem(d1, a, "__anon__");
      AddTabItemKeeps(d1, a, "__anon__");
      if New(d, d1, x) {
        CheckKeyFinds(d, t, key);
        AddArrKeeps(d, t, key, Tables);
        AddArrMakes(d, t, key, Tables, x);
      } else {
        AddTabItemMakes(d1, a, "__anon__", x);
        LookupsAgree(d1, t, key);
        LookupsAgree(d', t, key);
        LookupsStay(d1, d', t, key);
      }
    } else {
      NewTableMakes(d, t, key, x);
    }
  }

  lemma SelectMakes(d: Doc, double: bool, keys: seq<string>, x: Thing)
    requires Good(d) && AddSelect(d, double, keys).Some? && New(d, AddSelect(d, double, keys).value.doc, x)
    ensures Names(keys).Some? && HeaderOwns(AddSelect(d, double, keys).value.doc, double, Names(keys).value, x)
  {
    hide OnPath, Resolve, Walk, Open, ArrayIn, Is, Linked, Rooted, Distinct;
    var names := Names(keys).value;
    var n := |names| - 1;
    var Draft(d1, t) := Walk(d, names[..n]).value;
    var d' := Open(d1, t, double, names[n]).value.doc;
    assert names == names[..n] + [names[n]];
    WalkResolves(d, names[..n]);
    OpenInto(d1, t, double, names[n]);
    StepsStay(d1, d', t, names[..n]);
    if New(d, d1, x) {
      WalkMakes(d, names[..n], x);
      OnPathStays(d1, d', names[..n], t, x);
      OnLonger(d', names[..n], names[n], x);
    } else {
      OpenMakes(d1, t, double, names[n], x);
      OnLast(d', names[..n], names[n], t);
    }
  }

  // ---- what it stands for

  // What is found at x is v, as written.
  ghost predicate Holds(d: Doc, x: Thing, v: Node)
    requires Linked(d)
  {
    match x
    case Cell(t, key) => t < |d.tabs| && Stored(d, CheckKey(d, t, key), v)
    case Slot(a, i) => a < |d.arrs| && i < |d.arrs[a].items| && Stored(d, OfItem(d.arrs[a].items[i]), v)
    case Close(t) => v.Dict? && Stored(d, IsTab(t), v)
  }

  // A table on the way to a value.
  ghost predicate Passes(d: Doc, x: Thing)
    requires Linked(d)
  {
    x.Cell? && x.tab < |d.tabs| && TableIn(d, x.tab, x.key).Some?
  }

  ghost predicate StandsFor(d: Doc, x: Thing, w: Option<Node>)
    requires Linked(d)
  {
    match w case Some(v) => Holds(d, x, v) case None => Passes(d, x)
  }

  lemma {:induction false} ValueHolds(d: Doc, f: Found, v: Node, x: Thing, w: Option<Node>)
    requires Linked(d) && Stored(d, f, v) && ValueOwns(d, f, v, x, w)
    ensures StandsFor(d, x, w)
    decreases v, 0
  {
    match v
    case List(items, _) =>
      var j :| 0 <= j < |items| && ItemOwns(d, f.arr, j, items[j], x, w);
      if x != Slot(f.arr, j) || w != Some(items[j]) {
        ValueHolds(d, OfItem(d.arrs[f.arr].items[j]), items[j], x, w);
      }
    case Dict(entries, _) =>
      if x != Close(f.tab) || w != Some(v) {
        var j :| 0 <= j < |entries| && EntryOwns(d, f.tab, entries[j].keys, entries[j].value, x, w);
        EntryHolds(d, f.tab, entries[j].keys, entries[j].value, x, w);
      }
  }

  lemma {:induction false} EntryHolds(d: Doc, t: nat, keys: seq<string>, v: Node, x: Thing, w: Option<Node>)
    requires Linked(d) && t < |d.tabs| && StoredAt(d, t, keys, v) && EntryOwns(d, t, keys, v, x, w)
    ensures StandsFor(d, x, w)
    decreases v, 1, keys
  {
    hide KeyOf, Names, CheckKey, TableIn, ValueOwns, Linked, Stored;
    NamesHead(keys);
    var key := KeyOf(keys[0]).value;
    if |keys| == 1 {
      if ValueOwns(d, CheckKey(d, t, key), v, x, w) { ValueHolds(d, CheckKey(d, t, key), v, x, w); }
    } else {
      NothingStored(d, v);
      var u := TableIn(d, t, key).value;
      if EntryOwns(d, u, keys[1..], v, x, w) { EntryHolds(d, u, keys[1..], v, x, w); }
    }
  }

  lemma NothingStored(d: Doc, v: Node)
    requires Linked(d)
    ensures !Stored(d, NoKey, v)
  {}

  // ---- whole documents

  // A header makes tables and arrays, no values.
  ghost predicate NoValue(d: Doc, x: Thing)
    requires Linked(d)
  {
    x.Cell? ==> x.tab < |d.tabs| && (CheckKey(d, x.tab, x.key).IsTab? || CheckKey(d, x.tab, x.key).IsArr?)
  }

  lemma HeaderMakesNoValue(d: Doc, double: bool, names: seq<string>, x: Thing)
    requires Good(d) && Resolve(d, ROOT, names).Some? && HeaderOwns(d, double, names, x)
    ensures NoValue(d, x)
  {
    hide CheckKey, Rooted, Distinct;
    if OnPath(d, names, x) {
      var i :| 0 <= i < |names| && StepIs(d, names, i, x);
      PathOlder(d, names, i + 1);
      assert names[..i + 1][..i] == names[..i];
    }
  }

  lemma NoValueStays(d: Doc, d': Doc, x: Thing)
    requires Good(d) && Good(d') && Grows(d, d') && NoValue(d, x)
    ensures NoValue(d', x)
  {
    hide Rooted, Distinct, Keys, CheckKey;
    if x.Cell? { LookupsStay(d, d', x.tab, x.key); }
  }

  // Line i of a document has made x, and means w by it.
  ghost predicate Made(lines: seq<Line>, i: nat, d: Doc, x: Thing, w: Option<Node>)
    requires Linked(d) && i < |lines|
  {
    && Build(lines[..i]).Some? && Build(lines[..i + 1]).Some?
    && match lines[i]
       case Blank => false
       case Pair(e) =>
         var cur := Build(lines[..i]).value.cur;
         cur < |d.tabs| && EntryOwns(d, cur, e.keys, e.value, x, w) && StandsFor(d, x, w)
       case Select(double, keys) =>
         && w == None && NoValue(d, x)
         && Names(keys).Some? && HeaderOwns(Build(lines[..i + 1]).value.doc, double, Names(keys).value, x)
  }

  lemma MadeStays(lines: seq<Line>, n: nat, i: nat, d: Doc, d': Doc, x: Thing, w: Option<Node>)
    requires Good(d) && Good(d') && Grows(d, d') && i < n <= |lines| && Made(lines[..n], i, d, x, w)
    ensures Made(lines, i, d', x, w)
  {
    hide Build, StandsFor, NoValue, EntryOwns, HeaderOwns, Good, Grows;
    assert lines[..n][..i] == lines[..i] && lines[..n][..i + 1] == lines[..i + 1];
    if lines[i].Pair? {
      var cur, e := Build(lines[..i]).value.cur, lines[i].entry;
      WidthGrows(d, d');
      EntryOwnsStays(d, d', cur, e.keys, e.value, x, w);
      StandsStays(d, d', x, w);
    } else {
      NoValueStays(d, d', x);
    }
  }

  lemma WidthGrows(d: Doc, d': Doc)
    requires Grows(d, d')
    ensures |d.tabs| <= |d'.tabs|
  {}

  lemma StandsStays(d: Doc, d': Doc, x: Thing, w: Option<Node>)
    requires Good(d) && Good(d') && Grows(d, d') && StandsFor(d, x, w)
    ensures StandsFor(d', x, w)
  {
    hide Rooted, Distinct, Keys, TableIn, CheckKey, Stored;
    match x
    case Cell(t, key) =>
      LookupsStay(d, d', t, key);
      if w.Some? {
        if CheckKey(d, t, key).NoKey? { NothingStored(d, w.value); }
        StoredStays(d, d', CheckKey(d, t, key), w.value);
      }
    case Slot(a, i) =>
      if w.Some? {
        assert d'.arrs[a].items[i] == d.arrs[a].items[i];
        StoredStays(d, d', OfItem(d.arrs[a].items[i]), w.value);
      }
    case Close(t) =>
      if w.Some? { StoredStays(d, d', IsTab(t), w.value); }
  }

  lemma EmptyIsNothing(x: Thing)
    ensures Good(EMPTY) && !Is(EMPTY, x)
  {
    EmptyGood();
    if x.Cell? && x.tab == ROOT { EmptyHasNone(EMPTY, ROOT, x.key); }
  }

  // Nothing is found in a document but what some line has made: every key of
  // every table, every item of every array and every closed table.  What an entry
  // made is what it says, or a table on the way there.
  lemma {:induction false} NothingElse(lines: seq<Line>, x: Thing) returns (i: nat, w: Option<Node>)
    requires Build(lines).Some? && Is(Build(lines).value.doc, x)
    ensures i < |lines| && Made(lines, i, Build(lines).value.doc, x, w)
  {
    hide Is, Made, AddLine, StandsFor, Linked, Rooted, Distinct, Grows;
    if |lines| == 0 {
      EmptyIsNothing(x);
      assert false;
    } else {
      var n := |lines| - 1;
      var s, s' := Build(lines[..n]).value, Build(lines).value;
      assert lines[..n + 1] == lines;
      if Is(s.doc, x) {
        i, w := NothingElse(lines[..n], x);
        MadeStays(lines, n, i, s.doc, s'.doc, x, w);
      } else {
        i := n;
        w := LineMakes(lines, x);
      }
    }
  }

  lemma LineMakes(lines: seq<Line>, x: Thing) returns (w: Option<Node>)
    requires |lines| > 0 && Build(lines).Some?
    requires New(Build(lines[..|lines| - 1]).value.doc, Build(lines).value.doc, x)
    ensures Made(lines, |lines| - 1, Build(lines).value.doc, x, w)
  {
    hide Is, AddEntry, AddSelect, EntryOwns, HeaderOwns, StandsFor, NoValue, StoredAt, Resolve, Rooted, Distinct;
    var n := |lines| - 1;
    var s := Build(lines[..n]).value;
    assert lines[..n + 1] == lines;
    match lines[n]
    case Blank => w := None;
    case Pair(e) =>
      w := EntryMakes(s.doc, s.cur, e.keys, e.value, x);
      EntryStored(s.doc, s.cur, e.keys, e.value);
      EntryHolds(Build(lines).value.doc, s.cur, e.keys, e.value, x, w);
    case Select(double, keys) =>
      SelectMakes(s.doc, double, keys, x);
      SelectResolves(s.doc, double, keys);
      HeaderMakesNoValue(Build(lines).value.doc, double, Names(keys).value, x);
      w := None;
  }
}
