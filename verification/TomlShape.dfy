// The tables and arrays of a document form a tree: every table but the root, and
// every array, is referred to exactly once.

module TomlShape {
  import opened TomlKeys
  import opened TomlTree
  import opened TomlSyntax
  import opened TomlMeaning

  // ---- counting references

  function Sum<T>(s: seq<T>, f: T -> multiset<nat>): multiset<nat> {
    if |s| == 0 then multiset{} else Sum(s[..|s| - 1], f) + f(s[|s| - 1])
  }

  function ListedTabs(t: Tab): multiset<nat> { multiset(t.tab) }
  function ListedArrs(t: Tab): multiset<nat> { multiset(t.arr) }

  function TabOf(item: Item): multiset<nat> { if item.TabItem? then multiset{item.tab} else multiset{} }
  function ArrOf(item: Item): multiset<nat> { if item.ArrItem? then multiset{item.arr} else multiset{} }

  function HeldTabs(a: Arr): multiset<nat> { Sum(a.items, TabOf) }
  function HeldArrs(a: Arr): multiset<nat> { Sum(a.items, ArrOf) }

  // How often each table, and each array, is referred to.
  function TabRefs(d: Doc): multiset<nat> { Sum(d.tabs, ListedTabs) + Sum(d.arrs, HeldTabs) }
  function ArrRefs(d: Doc): multiset<nat> { Sum(d.tabs, ListedArrs) + Sum(d.arrs, HeldArrs) }

  function Numbers(lo: nat, hi: nat): multiset<nat> {
    if hi <= lo then multiset{} else Numbers(lo, hi - 1) + multiset{hi - 1}
  }

  ghost predicate Tree(d: Doc) {
    |d.tabs| > 0 && TabRefs(d) == Numbers(1, |d.tabs|) && ArrRefs(d) == Numbers(0, |d.arrs|)
  }

  lemma {:induction false} NumbersOnce(lo: nat, hi: nat, n: nat)
    ensures Numbers(lo, hi)[n] == if lo <= n < hi then 1 else 0
  {
    if lo < hi { NumbersOnce(lo, hi - 1, n); }
  }

  // What the equations say of a single table or array.
  lemma ReferredOnce(d: Doc, n: nat)
    requires Tree(d)
    ensures TabRefs(d)[n] == if 0 < n < |d.tabs| then 1 else 0
    ensures ArrRefs(d)[n] == if n < |d.arrs| then 1 else 0
  {
    NumbersOnce(1, |d.tabs|, n);
    NumbersOnce(0, |d.arrs|, n);
  }

  lemma SumSnoc<T>(s: seq<T>, f: T -> multiset<nat>, x: T)
    ensures Sum(s + [x], f) == Sum(s, f) + f(x)
  {
    assert (s + [x])[..|s|] == s;
  }

  lemma {:induction false} SumGrows<T>(s: seq<T>, f: T -> multiset<nat>, i: nat, x: T, more: multiset<nat>)
    requires i < |s| && f(x) == f(s[i]) + more
    ensures Sum(s[i := x], f) == Sum(s, f) + more
  {
    var n := |s| - 1;
    if i == n {
      assert s[i := x][..n] == s[..n];
    } else {
      assert s[i := x][..n] == s[..n][i := x];
      SumGrows(s[..n], f, i, x, more);
    }
  }

  // ---- the changes to a document

  lemma AddValTree(d: Doc, t: nat, key: string, val: string)
    requires Tree(d) && t < |d.tabs|
    ensures Tree(AddVal(d, t, key, val))
  {
    hide Sum;
    var tab := AddVal(d, t, key, val).tabs[t];
    SumGrows(d.tabs, ListedTabs, t, tab, multiset{});
    SumGrows(d.tabs, ListedArrs, t, tab, multiset{});
  }

  lemma MarkTree(d: Doc, t: nat, implicit: bool, readonly: bool)
    requires Tree(d) && t < |d.tabs|
    ensures Tree(Mark(d, t, implicit, readonly))
  {
    hide Sum;
    var tab := Mark(d, t, implicit, readonly).tabs[t];
    SumGrows(d.tabs, ListedTabs, t, tab, multiset{});
    SumGrows(d.tabs, ListedArrs, t, tab, multiset{});
  }

  lemma AddTabTree(d: Doc, t: nat, key: string, implicit: bool)
    requires Tree(d) && t < |d.tabs|
    ensures Tree(AddTab(d, t, key, implicit))
  {
    hide Sum;
    var d' := AddTab(d, t, key, implicit);
    var n := |d.tabs|;
    SumGrows(d.tabs, ListedTabs, t, d'.tabs[t], multiset{n});
    SumGrows(d.tabs, ListedArrs, t, d'.tabs[t], multiset{});
    SumSnoc(d.tabs[t := d'.tabs[t]], ListedTabs, d'.tabs[n]);
    SumSnoc(d.tabs[t := d'.tabs[t]], ListedArrs, d'.tabs[n]);
  }

  lemma EmptyHolds(a: Arr)
    requires a.items == []
    ensures HeldTabs(a) == multiset{} && HeldArrs(a) == multiset{}
  {}

  lemma AddArrTree(d: Doc, t: nat, key: string, kind: ArrayKind)
    requires Tree(d) && t < |d.tabs|
    ensures Tree(AddArr(d, t, key, kind))
  {
    hide Sum, HeldTabs, HeldArrs;
    var d' := AddArr(d, t, key, kind);
    var n := |d.arrs|;
    EmptyHolds(d'.arrs[n]);
    SumGrows(d.tabs, ListedTabs, t, d'.tabs[t], multiset{});
    SumGrows(d.tabs, ListedArrs, t, d'.tabs[t], multiset{n});
    SumSnoc(d.arrs, HeldTabs, d'.arrs[n]);
    SumSnoc(d.arrs, HeldArrs, d'.arrs[n]);
  }

  lemma SetKindTree(d: Doc, a: nat, kind: ArrayKind)
    requires Tree(d) && a < |d.arrs|
    ensures Tree(SetKind(d, a, kind))
  {
    hide Sum;
    var arr := SetKind(d, a, kind).arrs[a];
    SumGrows(d.arrs, HeldTabs, a, arr, multiset{});
    SumGrows(d.arrs, HeldArrs, a, arr, multiset{});
  }

  // An item that refers to what d does not yet account for.
  lemma AddItemRefs(d: Doc, a: nat, item: Item)
    requires a < |d.arrs|
    ensures TabRefs(AddItem(d, a, item)) == TabRefs(d) + TabOf(item)
    ensures ArrRefs(AddItem(d, a, item)) == ArrRefs(d) + ArrOf(item)
  {
    hide Sum;
    var arr := AddItem(d, a, item).arrs[a];
    SumSnoc(d.arrs[a].items, TabOf, item);
    SumSnoc(d.arrs[a].items, ArrOf, item);
    SumGrows(d.arrs, HeldTabs, a, arr, TabOf(item));
    SumGrows(d.arrs, HeldArrs, a, arr, ArrOf(item));
  }

  lemma AddValItemTree(d: Doc, a: nat, val: string)
    requires Tree(d) && a < |d.arrs|
    ensures Tree(AddItem(d, a, ValItem(val)))
  {
    hide Sum;
    AddItemRefs(d, a, ValItem(val));
  }

  lemma AddTabItemTree(d: Doc, a: nat, key: string)
    requires Tree(d) && a < |d.arrs|
    ensures Tree(AddTabItem(d, a, key))
  {
    hide Sum;
    var tab := Tab(key, false, false, [], [], []);
    SumSnoc(d.tabs, ListedTabs, tab);
    SumSnoc(d.tabs, ListedArrs, tab);
    AddItemRefs(d.(tabs := d.tabs + [tab]), a, TabItem(|d.tabs|));
  }

  lemma AddArrItemTree(d: Doc, a: nat)
    requires Tree(d) && a < |d.arrs|
    ensures Tree(AddArrItem(d, a))
  {
    hide Sum, HeldTabs, HeldArrs;
    var arr := Arr("", NoKind, []);
    EmptyHolds(arr);
    SumSnoc(d.arrs, HeldTabs, arr);
    SumSnoc(d.arrs, HeldArrs, arr);
    AddItemRefs(d.(arrs := d.arrs + [arr]), a, ArrItem(|d.arrs|));
  }

  // ---- whole entries and lines

  lemma NewTableTree(d: Doc, t: nat, key: string)
    requires Good(d) && Tree(d) && t < |d.tabs| && NewTable(d, t, key).Some?
    ensures Tree(NewTable(d, t, key).value.0)
  {
    hide Tree, Linked, Rooted, Distinct;
    match CheckKey(d, t, key)
    case NoKey => AddTabTree(d, t, key, false);
    case IsTab(u) => MarkTree(d, u, false, d.tabs[u].readonly);
  }

  lemma WithItemTree(d: Doc, a: nat, v: Node)
    requires Good(d) && Tree(d) && a < |d.arrs|
    ensures Tree(WithItem(d, a, v))
  {
    hide Tree, Linked, Rooted, Distinct;
    SetKindKeeps(d, a, KindOf(v));
    SetKindTree(d, a, NextKind(d.arrs[a].kind, KindOf(v)));
    var d1 := SetKind(d, a, NextKind(d.arrs[a].kind, KindOf(v)));
    match v
    case Raw(val) => AddValItemTree(d1, a, val);
    case List(_, _) => AddArrItemTree(d1, a);
    case Dict(_, _) => AddTabItemTree(d1, a, "");
  }

  lemma {:induction false} NodeTree(d: Doc, a: nat, v: Node)
    requires Good(d) && Tree(d) && a < |d.arrs| && AddNode(d, a, v).Some?
    ensures Tree(AddNode(d, a, v).value)
    decreases v
  {
    hide Tree, WithItem, AddNodes, FillTable, Good, Grows;
    WithItemTree(d, a, v);
    match v
    case Raw(_) =>
    case List(items, _) => NodesTree(WithItem(d, a, v), |d.arrs|, items);
    case Dict(entries, _) => TableTree(WithItem(d, a, v), |d.tabs|, entries);
  }

  lemma {:induction false} NodesTree(d: Doc, a: nat, items: seq<Node>)
    requires Good(d) && Tree(d) && a < |d.arrs| && AddNodes(d, a, items).Some?
    ensures Tree(AddNodes(d, a, items).value)
    decreases items
  {
    hide Tree, AddNode, Linked, Rooted, Distinct;
    if |items| > 0 {
      var n := |items| - 1;
      NodesTree(d, a, items[..n]);
      NodeTree(AddNodes(d, a, items[..n]).value, a, items[n]);
    }
  }

  lemma {:induction false} EntriesTree(d: Doc, t: nat, entries: seq<Entry>)
    requires Good(d) && Tree(d) && t < |d.tabs| && AddEntries(d, t, entries).Some?
    ensures Tree(AddEntries(d, t, entries).value)
    decreases entries, 0
  {
    hide Tree, AddEntry, Linked, Rooted, Distinct;
    if |entries| > 0 {
      var n := |entries| - 1;
      EntriesTree(d, t, entries[..n]);
      EntryTree(AddEntries(d, t, entries[..n]).value, t, entries[n].keys, entries[n].value);
    }
  }

  lemma {:induction false} TableTree(d: Doc, t: nat, entries: seq<Entry>)
    requires Good(d) && Tree(d) && t < |d.tabs| && FillTable(d, t, entries).Some?
    ensures Tree(FillTable(d, t, entries).value)
    decreases entries, 1
  {
    hide Tree, AddEntries, Linked, Rooted, Distinct;
    EntriesTree(d, t, entries);
    var d1 := AddEntries(d, t, entries).value;
    MarkTree(d1, t, d1.tabs[t].implicit, true);
  }

  lemma {:induction false} ValueTree(d: Doc, t: nat, key: string, v: Node)
    requires Good(d) && Tree(d) && t < |d.tabs| && AddValue(d, t, key, v).Some?
    ensures Tree(AddValue(d, t, key, v).value)
    decreases v, 0
  {
    hide Tree, AddNodes, FillTable, NewTable, Linked, Rooted, Distinct;
    match v
    case Raw(val) =>
      AddValTree(d, t, key, val);
    case List(items, _) =>
      AddArrKeeps(d, t, key, NoKind);
      AddArrTree(d, t, key, NoKind);
      NodesTree(AddArr(d, t, key, NoKind), |d.arrs|, items);
    case Dict(entries, _) =>
      NewTableTree(d, t, key);
      var (d1, u) := NewTable(d, t, key).value;
      TableTree(d1, u, entries);
  }

  lemma {:induction false} EntryTree(d: Doc, t: nat, keys: seq<string>, v: Node)
    requires Good(d) && Tree(d) && t < |d.tabs| && AddEntry(d, t, keys, v).Some?
    ensures Tree(AddEntry(d, t, keys, v).value)
    decreases v, 1, keys
  {
    hide Tree, AddValue, NewTable, KeyOf, Linked, Rooted, Distinct;
    var key := KeyOf(keys[0]).value;
    if |keys| == 1 {
      ValueTree(d, t, key, v);
    } else {
      if TableIn(d, t, key).None? { NewTableTree(d, t, key); }
      var (d1, u) := SubTable(d, t, key).value;
      EntryTree(d1, u, keys[1..], v);
    }
  }

  lemma {:induction false} WalkTree(d: Doc, names: seq<string>)
    requires Good(d) && Tree(d) && Walk(d, names).Some?
    ensures Tree(Walk(d, names).value.doc)
  {
    hide Tree, Into, CheckKey, Linked, Rooted, Distinct;
    if |names| > 0 {
      var n := |names| - 1;
      WalkTree(d, names[..n]);
      var Draft(d1, u) := Walk(d, names[..n]).value;
      AddTabTree(d1, u, names[n], true);
    }
  }

  lemma OpenTree(d: Doc, t: nat, double: bool, key: string)
    requires Good(d) && Tree(d) && t < |d.tabs| && Open(d, t, double, key).Some?
    ensures Tree(Open(d, t, double, key).value.doc)
  {
    hide Tree, NewTable, CheckKey, Linked, Rooted, Distinct;
    if double {
      AddArrTree(d, t, key, Tables);
      var (d1, a) := TableArray(d, t, key).value;
      AddTabItemTree(d1, a, "__anon__");
    } else {
      NewTableTree(d, t, key);
    }
  }

  lemma SelectTree(d: Doc, double: bool, keys: seq<string>)
    requires Good(d) && Tree(d) && AddSelect(d, double, keys).Some?
    ensures Tree(AddSelect(d, double, keys).value.doc)
  {
    hide Tree, Walk, Open, Good;
    var names := Names(keys).value;
    var n := |names| - 1;
    WalkTree(d, names[..n]);
    var Draft(d1, t) := Walk(d, names[..n]).value;
    OpenTree(d1, t, double, names[n]);
  }

  // Whatever lines build a document, it is a tree.
  lemma {:induction false} BuildTree(lines: seq<Line>)
    requires Build(lines).Some?
    ensures Tree(Build(lines).value.doc)
  {
    hide Tree, AddEntry, AddSelect, Good;
    if |lines| == 0 {
      EmptyTree();
    } else {
      var n := |lines| - 1;
      BuildTree(lines[..n]);
      var s := Build(lines[..n]).value;
      match lines[n]
      case Blank =>
      case Pair(e) => EntryTree(s.doc, s.cur, e.keys, e.value);
      case Select(double, keys) => SelectTree(s.doc, double, keys);
    }
  }

  lemma EmptyTree()
    ensures Tree(EMPTY)
  {
    var root := Tab("", false, false, [], [], []);
    assert EMPTY.tabs == [root] && [root][..0] == [];
    assert Sum([root], ListedTabs) == multiset{} && Sum([root], ListedArrs) == multiset{};
  }
}
