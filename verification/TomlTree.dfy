// The tables and arrays of a TOML document under construction.  They live in
// two pools and refer to each other by place, so that several references can
// name the same table, as pointers do.

module TomlTree {
  import opened Wrappers

  datatype KeyVal = KeyVal(key: string, val: string)
  datatype Item = ValItem(val: string) | ArrItem(arr: nat) | TabItem(tab: nat)
  datatype ArrayKind = NoKind | Values | Arrays | Tables | Mixed
  datatype Arr = Arr(key: string, kind: ArrayKind, items: seq<Item>)
  datatype Tab = Tab(key: string, implicit: bool, readonly: bool, kval: seq<KeyVal>, arr: seq<nat>, tab: seq<nat>)
  datatype Doc = Doc(tabs: seq<Tab>, arrs: seq<Arr>)

  const ROOT: nat := 0

  // ---- the invariant

  ghost predicate ItemLinked(d: Doc, item: Item) {
    match item
    case ValItem(_) => true
    case ArrItem(a) => a < |d.arrs|
    case TabItem(t) => t < |d.tabs|
  }

  // Every reference names a table or an array that exists, and a table listed
  // in another is younger than it.
  ghost predicate Linked(d: Doc) {
    && |d.tabs| > 0
    && (forall t, i :: 0 <= t < |d.tabs| && 0 <= i < |d.tabs[t].arr| ==> d.tabs[t].arr[i] < |d.arrs|)
    && (forall t, i :: 0 <= t < |d.tabs| && 0 <= i < |d.tabs[t].tab| ==> t < d.tabs[t].tab[i] < |d.tabs|)
    && (forall a, i :: 0 <= a < |d.arrs| && 0 <= i < |d.arrs[a].items| ==> ItemLinked(d, d.arrs[a].items[i]))
  }

  function ValKeys(kval: seq<KeyVal>): seq<string> {
    seq(|kval|, i requires 0 <= i < |kval| => kval[i].key)
  }

  function ArrKeys(d: Doc, ids: seq<nat>): seq<string>
    requires forall i :: 0 <= i < |ids| ==> ids[i] < |d.arrs|
  {
    seq(|ids|, i requires 0 <= i < |ids| => d.arrs[ids[i]].key)
  }

  function TabKeys(d: Doc, ids: seq<nat>): seq<string>
    requires forall i :: 0 <= i < |ids| ==> ids[i] < |d.tabs|
  {
    seq(|ids|, i requires 0 <= i < |ids| => d.tabs[ids[i]].key)
  }

  // The keys of a table, across its three lists.
  ghost function Keys(d: Doc, t: nat): seq<string>
    requires Linked(d) && t < |d.tabs|
  {
    ValKeys(d.tabs[t].kval) + ArrKeys(d, d.tabs[t].arr) + TabKeys(d, d.tabs[t].tab)
  }

  ghost predicate Distinct(s: seq<string>) {
    forall i, j :: 0 <= i < j < |s| ==> s[i] != s[j]
  }

  // An array is listed in one table, and the tables in it are younger.
  ghost predicate Rooted(d: Doc)
    requires Linked(d)
  {
    && (forall t, u, i, j :: 0 <= t < u < |d.tabs| && 0 <= i < |d.tabs[t].arr| && 0 <= j < |d.tabs[u].arr| ==>
          d.tabs[t].arr[i] != d.tabs[u].arr[j])
    && (forall t, i, j :: 0 <= t < |d.tabs| && 0 <= i < |d.tabs[t].arr| && 0 <= j < |d.arrs[d.tabs[t].arr[i]].items| ==>
          d.arrs[d.tabs[t].arr[i]].items[j].TabItem? ==> t < d.arrs[d.tabs[t].arr[i]].items[j].tab)
  }

  // What an array of some kind may hold.
  predicate Suits(kind: ArrayKind, item: Item) {
    match kind
    case NoKind => false
    case Values => item.ValItem?
    case Arrays => item.ArrItem?
    case Tables => item.TabItem?
    case Mixed => true
  }

  // No table holds a key twice, no array an item that does not suit its kind, and
  // an array without a kind holds nothing.
  ghost predicate Good(d: Doc) {
    && Linked(d) && Rooted(d)
    && (forall t {:trigger d.tabs[t]} :: 0 <= t < |d.tabs| ==> Distinct(Keys(d, t)))
    && (forall a, i {:trigger d.arrs[a].items[i]} :: 0 <= a < |d.arrs| && 0 <= i < |d.arrs[a].items| ==>
          Suits(d.arrs[a].kind, d.arrs[a].items[i]))
    && (forall a :: 0 <= a < |d.arrs| && d.arrs[a].kind.NoKind? ==> d.arrs[a].items == [])
  }

  // ---- what may happen to a document: lists only grow at their end, keys stay,
  // a table made explicit or read-only stays so

  ghost predicate TabGrows(t: Tab, t': Tab) {
    && t'.key == t.key
    && (t'.implicit ==> t.implicit)
    && (t.readonly ==> t'.readonly)
    && t.kval <= t'.kval && t.arr <= t'.arr && t.tab <= t'.tab
  }

  ghost predicate Grows(d: Doc, d': Doc) {
    && |d.tabs| <= |d'.tabs| && |d.arrs| <= |d'.arrs|
    && (forall t {:trigger d.tabs[t]} {:trigger d'.tabs[t]} :: 0 <= t < |d.tabs| ==> TabGrows(d.tabs[t], d'.tabs[t]))
    && (forall a {:trigger d.arrs[a]} {:trigger d'.arrs[a]} :: 0 <= a < |d.arrs| ==>
          d'.arrs[a].key == d.arrs[a].key && d.arrs[a].items <= d'.arrs[a].items)
  }

  lemma GrowsFurther(d: Doc, d': Doc, d'': Doc)
    requires Grows(d, d') && Grows(d', d'')
    ensures Grows(d, d'')
  {
    forall t | 0 <= t < |d.tabs|
      ensures TabGrows(d.tabs[t], d''.tabs[t])
    {
      assert TabGrows(d.tabs[t], d'.tabs[t]) && TabGrows(d'.tabs[t], d''.tabs[t]);
    }
  }

  // ---- lookups

  datatype Found = NoKey | IsVal(val: string) | IsArr(arr: nat) | IsTab(tab: nat)

  // The first place of a key in a list of keys.
  function Place(keys: seq<string>, key: string): (r: Option<nat>)
    ensures r.Some? ==> r.value < |keys| && keys[r.value] == key && key !in keys[..r.value]
    ensures r.None? <==> key !in keys
  {
    if |keys| == 0 then None
    else match Place(keys[..|keys| - 1], key)
      case Some(i) => Some(i)
      case None => if keys[|keys| - 1] == key then Some(|keys| - 1) else None
  }

  function RawIn(d: Doc, t: nat, key: string): Option<string>
    requires Linked(d) && t < |d.tabs|
  {
    match Place(ValKeys(d.tabs[t].kval), key) case None => None case Some(i) => Some(d.tabs[t].kval[i].val)
  }

  function ArrayIn(d: Doc, t: nat, key: string): (r: Option<nat>)
    requires Linked(d) && t < |d.tabs|
    ensures r.Some? ==> r.value < |d.arrs| && d.arrs[r.value].key == key
  {
    match Place(ArrKeys(d, d.tabs[t].arr), key) case None => None case Some(i) => Some(d.tabs[t].arr[i])
  }

  function TableIn(d: Doc, t: nat, key: string): (r: Option<nat>)
    requires Linked(d) && t < |d.tabs|
    ensures r.Some? ==> r.value < |d.tabs| && d.tabs[r.value].key == key
  {
    match Place(TabKeys(d, d.tabs[t].tab), key) case None => None case Some(i) => Some(d.tabs[t].tab[i])
  }

  // check_key looks at the values first, then the arrays, then the tables.
  function CheckKey(d: Doc, t: nat, key: string): (r: Found)
    requires Linked(d) && t < |d.tabs|
    ensures r.IsArr? ==> r.arr < |d.arrs|
    ensures r.IsTab? ==> r.tab < |d.tabs|
  {
    match Place(ValKeys(d.tabs[t].kval), key)
    case Some(i) => IsVal(d.tabs[t].kval[i].val)
    case None =>
      match ArrayIn(d, t, key)
      case Some(a) => IsArr(a)
      case None =>
        match TableIn(d, t, key)
        case Some(u) => IsTab(u)
        case None => NoKey
  }

  lemma CheckKeyFinds(d: Doc, t: nat, key: string)
    requires Linked(d) && t < |d.tabs|
    ensures CheckKey(d, t, key).NoKey? <==> key !in Keys(d, t)
  {}

  // With no key twice, the order of check_key does not matter: the four lookups
  // agree, and at most one of the three kinds can be found.
  lemma LookupsAgree(d: Doc, t: nat, key: string)
    requires Good(d) && t < |d.tabs|
    ensures var f := CheckKey(d, t, key);
      && RawIn(d, t, key) == (if f.IsVal? then Some(f.val) else None)
      && ArrayIn(d, t, key) == (if f.IsArr? then Some(f.arr) else None)
      && TableIn(d, t, key) == (if f.IsTab? then Some(f.tab) else None)
  {
    var a, b, c := ValKeys(d.tabs[t].kval), ArrKeys(d, d.tabs[t].arr), TabKeys(d, d.tabs[t].tab);
    assert Distinct(Keys(d, t)) && Keys(d, t) == a + b + c;
    DistinctParts(a, b, c, key);
  }

  lemma DistinctApart(a: seq<string>, b: seq<string>, key: string)
    requires Distinct(a + b) && key in a
    ensures key !in b
  {
    var i :| 0 <= i < |a| && a[i] == key;
    forall j | 0 <= j < |b| ensures b[j] != key {
      assert (a + b)[i] != (a + b)[|a| + j];
    }
  }

  lemma DistinctParts(a: seq<string>, b: seq<string>, c: seq<string>, key: string)
    requires Distinct(a + b + c)
    ensures key in a ==> key !in b && key !in c
    ensures key in b ==> key !in c
  {
    assert a + b + c == a + (b + c);
    if key in a { DistinctApart(a, b + c, key); }
    if key in b { DistinctApart(a + b, c, key); }
  }

  // The loops of check_key, toml_raw_in, toml_array_in and toml_table_in.
  method FindPlace(keys: seq<string>, key: string) returns (r: Option<nat>)
    ensures r == Place(keys, key)
  {
    for i := 0 to |keys|
      invariant key !in keys[..i]
    {
      if key == keys[i] {
        PlaceIs(keys, key, i);
        return Some(i);
      }
    }
    return None;
  }

  lemma {:induction false} PlaceIs(keys: seq<string>, key: string, i: nat)
    requires i < |keys| && keys[i] == key && key !in keys[..i]
    ensures Place(keys, key) == Some(i)
  {
    var n := |keys| - 1;
    if i < n {
      assert keys[..n][..i] == keys[..i];
      PlaceIs(keys[..n], key, i);
    } else {
      assert keys[..n] == keys[..i];
    }
  }

  // toml_table_in and toml_array_in
  method FindTable(d: Doc, t: nat, key: string) returns (r: Option<nat>)
    requires Linked(d) && t < |d.tabs|
    ensures r == TableIn(d, t, key)
  {
    var i := FindPlace(TabKeys(d, d.tabs[t].tab), key);
    return if i.Some? then Some(d.tabs[t].tab[i.value]) else None;
  }

  method FindArray(d: Doc, t: nat, key: string) returns (r: Option<nat>)
    requires Linked(d) && t < |d.tabs|
    ensures r == ArrayIn(d, t, key)
  {
    var i := FindPlace(ArrKeys(d, d.tabs[t].arr), key);
    return if i.Some? then Some(d.tabs[t].arr[i.value]) else None;
  }

  // check_key
  method FindKey(d: Doc, t: nat, key: string) returns (f: Found)
    requires Linked(d) && t < |d.tabs|
    ensures f == CheckKey(d, t, key)
  {
    var tab := d.tabs[t];
    var r := FindPlace(ValKeys(tab.kval), key);
    if r.Some? { return IsVal(tab.kval[r.value].val); }
    r := FindPlace(ArrKeys(d, tab.arr), key);
    if r.Some? { return IsArr(tab.arr[r.value]); }
    r := FindPlace(TabKeys(d, tab.tab), key);
    if r.Some? { return IsTab(tab.tab[r.value]); }
    return NoKey;
  }

  // ---- changes

  lemma DistinctInsert(a: seq<string>, k: string, b: seq<string>)
    requires Distinct(a + b) && k !in a + b
    ensures Distinct(a + [k] + b)
  {
    var s, s' := a + b, a + [k] + b;
    forall i, j | 0 <= i < j < |s'|
      ensures s'[i] != s'[j]
    {
      var i' := if i < |a| then i else i - 1;
      var j' := if j < |a| then j else j - 1;
      if i != |a| { assert s'[i] == s[i'] && s[i'] in s; }
      if j != |a| { assert s'[j] == s[j'] && s[j'] in s; }
    }
  }

  function AddVal(d: Doc, t: nat, key: string, val: string): Doc
    requires t < |d.tabs|
  {
    d.(tabs := d.tabs[t := d.tabs[t].(kval := d.tabs[t].kval + [KeyVal(key, val)])])
  }

  // A new table, at the end of the pool, listed under t.
  function AddTab(d: Doc, t: nat, key: string, implicit: bool): Doc
    requires t < |d.tabs|
  {
    d.(tabs := d.tabs[t := d.tabs[t].(tab := d.tabs[t].tab + [|d.tabs|])] + [Tab(key, implicit, false, [], [], [])])
  }

  function AddArr(d: Doc, t: nat, key: string, kind: ArrayKind): Doc
    requires t < |d.tabs|
  {
    Doc(d.tabs[t := d.tabs[t].(arr := d.tabs[t].arr + [|d.arrs|])], d.arrs + [Arr(key, kind, [])])
  }

  // Keys of other tables, and of this one's other lists, do not change when the
  // pools grow.
  lemma SameKeys(d: Doc, d': Doc, t: nat)
    requires Linked(d) && Linked(d') && Grows(d, d') && t < |d.tabs|
    requires d'.tabs[t].kval == d.tabs[t].kval && d'.tabs[t].arr == d.tabs[t].arr && d'.tabs[t].tab == d.tabs[t].tab
    ensures Keys(d', t) == Keys(d, t)
  {}

  lemma KeysApart(d: Doc, t: nat)
    requires Good(d) && t < |d.tabs|
    ensures Distinct(Keys(d, t))
  {
    var tab := d.tabs[t];
  }

  // So a step that leaves the lists of all tables alone keeps the keys distinct.
  lemma ListsStay(d: Doc, d': Doc)
    requires Good(d) && Linked(d') && Grows(d, d')
    requires forall t :: 0 <= t < |d.tabs| ==>
      d'.tabs[t].kval == d.tabs[t].kval && d'.tabs[t].arr == d.tabs[t].arr && d'.tabs[t].tab == d.tabs[t].tab
    requires forall t :: |d.tabs| <= t < |d'.tabs| ==> d'.tabs[t].kval == [] && d'.tabs[t].arr == [] == d'.tabs[t].tab
    ensures forall t :: 0 <= t < |d'.tabs| ==> Distinct(Keys(d', t))
  {
    hide Linked, Rooted, Grows;
    forall t | 0 <= t < |d'.tabs|
      ensures Distinct(Keys(d', t))
    {
      if t < |d.tabs| {
        KeysApart(d, t);
        SameKeys(d, d', t);
      }
    }
  }

  lemma AddValLinked(d: Doc, t: nat, key: string, val: string)
    requires Linked(d) && Rooted(d) && t < |d.tabs|
    ensures Linked(AddVal(d, t, key, val)) && Rooted(AddVal(d, t, key, val)) && Grows(d, AddVal(d, t, key, val))
  {}

  lemma AddValDistinct(d: Doc, t: nat, key: string, val: string, u: nat)
    requires Linked(d) && t < |d.tabs| && u < |d.tabs| && Distinct(Keys(d, u)) && key !in Keys(d, t)
    requires var d' := AddVal(d, t, key, val); Linked(d') && Grows(d, d')
    ensures Distinct(Keys(AddVal(d, t, key, val), u))
  {
    var d' := AddVal(d, t, key, val);
    if u == t {
      var a, b := ValKeys(d.tabs[t].kval), ArrKeys(d, d.tabs[t].arr) + TabKeys(d, d.tabs[t].tab);
      assert Keys(d, t) == a + b;
      assert ValKeys(d'.tabs[t].kval) == a + [key];
      assert ArrKeys(d', d'.tabs[t].arr) + TabKeys(d', d'.tabs[t].tab) == b;
      DistinctInsert(a, key, b);
      assert Keys(d', t) == a + [key] + b;
    } else {
      SameKeys(d, d', u);
    }
  }

  lemma AddValFound(d: Doc, t: nat, key: string, val: string)
    requires Linked(d) && t < |d.tabs| && key !in Keys(d, t) && Linked(AddVal(d, t, key, val))
    ensures RawIn(AddVal(d, t, key, val), t, key) == Some(val)
  {
    hide Linked;
    var vk := ValKeys(AddVal(d, t, key, val).tabs[t].kval);
    assert vk[..|vk| - 1] == ValKeys(d.tabs[t].kval);
    PlaceIs(vk, key, |vk| - 1);
  }

  lemma AddValKeeps(d: Doc, t: nat, key: string, val: string)
    requires Good(d) && t < |d.tabs| && key !in Keys(d, t)
    ensures Good(AddVal(d, t, key, val)) && Grows(d, AddVal(d, t, key, val))
    ensures RawIn(AddVal(d, t, key, val), t, key) == Some(val)
  {
    hide Linked, Rooted, Keys, Distinct, RawIn, Grows;
    AddValLinked(d, t, key, val);
    forall u | 0 <= u < |d.tabs|
      ensures Distinct(Keys(AddVal(d, t, key, val), u))
    {
      KeysApart(d, u);
      AddValDistinct(d, t, key, val, u);
    }
    AddValFound(d, t, key, val);
  }

  lemma AddTabDistinct(d: Doc, t: nat, key: string, implicit: bool, u: nat)
    requires Good(d) && t < |d.tabs| && key !in Keys(d, t) && u < |d.tabs| + 1
    requires var d' := AddTab(d, t, key, implicit); Linked(d') && Grows(d, d')
    ensures Distinct(Keys(AddTab(d, t, key, implicit), u))
  {
    var d' := AddTab(d, t, key, implicit);
    if u < |d.tabs| { assert Distinct(Keys(d, u)); }
    if u == t {
      assert Keys(d', t) == Keys(d, t) + [key] + [];
      DistinctInsert(Keys(d, t), key, []);
      assert Keys(d, t) + [] == Keys(d, t);
    } else if u < |d.tabs| {
      SameKeys(d, d', u);
    }
  }

  lemma AddTabLinked(d: Doc, t: nat, key: string, implicit: bool)
    requires Linked(d) && Rooted(d) && t < |d.tabs|
    ensures var d' := AddTab(d, t, key, implicit); Linked(d') && Rooted(d') && Grows(d, d')
  {}

  lemma AddTabFound(d: Doc, t: nat, key: string, implicit: bool)
    requires Linked(d) && t < |d.tabs| && key !in Keys(d, t)
    requires var d' := AddTab(d, t, key, implicit); Linked(d') && Grows(d, d')
    ensures TableIn(AddTab(d, t, key, implicit), t, key) == Some(|d.tabs|)
  {
    var d' := AddTab(d, t, key, implicit);
    var ks := TabKeys(d', d'.tabs[t].tab);
    assert ks[..|ks| - 1] == TabKeys(d, d.tabs[t].tab);
    PlaceIs(ks, key, |ks| - 1);
  }

  lemma AddTabKeeps(d: Doc, t: nat, key: string, implicit: bool)
    requires Good(d) && t < |d.tabs| && key !in Keys(d, t)
    ensures Good(AddTab(d, t, key, implicit)) && Grows(d, AddTab(d, t, key, implicit))
    ensures TableIn(AddTab(d, t, key, implicit), t, key) == Some(|d.tabs|)
  {
    hide Linked, Rooted, Keys, Distinct, TableIn, Grows;
    AddTabLinked(d, t, key, implicit);
    forall u | 0 <= u < |d.tabs| + 1
      ensures Distinct(Keys(AddTab(d, t, key, implicit), u))
    {
      AddTabDistinct(d, t, key, implicit, u);
    }
    AddTabFound(d, t, key, implicit);
  }

  lemma AddArrDistinct(d: Doc, t: nat, key: string, kind: ArrayKind, u: nat)
    requires Good(d) && t < |d.tabs| && key !in Keys(d, t) && u < |d.tabs|
    requires var d' := AddArr(d, t, key, kind); Linked(d') && Grows(d, d')
    ensures Distinct(Keys(AddArr(d, t, key, kind), u))
  {
    var d' := AddArr(d, t, key, kind);
    assert Distinct(Keys(d, u));
    if u == t {
      var a, b := ValKeys(d.tabs[t].kval) + ArrKeys(d, d.tabs[t].arr), TabKeys(d, d.tabs[t].tab);
      assert Keys(d, t) == a + b;
      assert ValKeys(d'.tabs[t].kval) + ArrKeys(d', d'.tabs[t].arr) == a + [key];
      DistinctInsert(a, key, b);
      assert Keys(d', t) == a + [key] + b;
    } else {
      SameKeys(d, d', u);
    }
  }

  lemma AddArrLinked(d: Doc, t: nat, key: string, kind: ArrayKind)
    requires Linked(d) && Rooted(d) && t < |d.tabs|
    ensures var d' := AddArr(d, t, key, kind); Linked(d') && Rooted(d') && Grows(d, d')
  {
    var d' := AddArr(d, t, key, kind);
    assert Linked(d') && Grows(d, d');
    AddArrRooted(d, t, key, kind);
  }

  lemma AddArrRooted(d: Doc, t: nat, key: string, kind: ArrayKind)
    requires Linked(d) && Rooted(d) && t < |d.tabs| && Linked(AddArr(d, t, key, kind))
    ensures Rooted(AddArr(d, t, key, kind))
  {}

  lemma AddArrFound(d: Doc, t: nat, key: string, kind: ArrayKind)
    requires Linked(d) && t < |d.tabs| && key !in Keys(d, t)
    requires var d' := AddArr(d, t, key, kind); Linked(d') && Grows(d, d')
    ensures ArrayIn(AddArr(d, t, key, kind), t, key) == Some(|d.arrs|)
  {
    var d' := AddArr(d, t, key, kind);
    var ks := ArrKeys(d', d'.tabs[t].arr);
    assert ks[..|ks| - 1] == ArrKeys(d, d.tabs[t].arr);
    PlaceIs(ks, key, |ks| - 1);
  }

  lemma AddArrKeeps(d: Doc, t: nat, key: string, kind: ArrayKind)
    requires Good(d) && t < |d.tabs| && key !in Keys(d, t)
    ensures Good(AddArr(d, t, key, kind)) && Grows(d, AddArr(d, t, key, kind))
    ensures ArrayIn(AddArr(d, t, key, kind), t, key) == Some(|d.arrs|)
  {
    hide Linked, Rooted, Keys, Distinct, ArrayIn, Grows;
    AddArrLinked(d, t, key, kind);
    forall u | 0 <= u < |d.tabs|
      ensures Distinct(Keys(AddArr(d, t, key, kind), u))
    {
      AddArrDistinct(d, t, key, kind, u);
    }
    AddArrFound(d, t, key, kind);
  }

  // An array takes on a kind before its next item is added.
  function SetKind(d: Doc, a: nat, kind: ArrayKind): Doc
    requires a < |d.arrs|
  {
    d.(arrs := d.arrs[a := d.arrs[a].(kind := kind)])
  }

  function NextKind(kind: ArrayKind, wanted: ArrayKind): ArrayKind {
    if kind.NoKind? then wanted else if kind != wanted then Mixed else kind
  }

  lemma SetKindLinked(d: Doc, a: nat, kind: ArrayKind)
    requires Linked(d) && Rooted(d) && a < |d.arrs|
    ensures var d' := SetKind(d, a, kind); Linked(d') && Rooted(d') && Grows(d, d')
  {
    assert Linked(SetKind(d, a, kind));
  }

  lemma SetKindKeeps(d: Doc, a: nat, wanted: ArrayKind)
    requires Good(d) && a < |d.arrs| && !wanted.NoKind?
    ensures var d' := SetKind(d, a, NextKind(d.arrs[a].kind, wanted));
      Good(d') && Grows(d, d') && d'.arrs[a].kind in {wanted, Mixed}
  {
    hide Linked, Rooted, Grows, Keys, Distinct;
    var kind := NextKind(d.arrs[a].kind, wanted);
    SetKindLinked(d, a, kind);
    ListsStay(d, SetKind(d, a, kind));
  }

  function AddItem(d: Doc, a: nat, item: Item): Doc
    requires a < |d.arrs|
  {
    d.(arrs := d.arrs[a := d.arrs[a].(items := d.arrs[a].items + [item])])
  }

  // The pools with an empty table, respectively array, at their end.
  function MoreTabs(d: Doc, key: string): Doc {
    d.(tabs := d.tabs + [Tab(key, false, false, [], [], [])])
  }

  function MoreArrs(d: Doc): Doc {
    d.(arrs := d.arrs + [Arr("", NoKind, [])])
  }

  // A new table, respectively array, as the next item of array a.
  function AddTabItem(d: Doc, a: nat, key: string): Doc
    requires a < |d.arrs|
  {
    AddItem(MoreTabs(d, key), a, TabItem(|d.tabs|))
  }

  function AddArrItem(d: Doc, a: nat): Doc
    requires a < |d.arrs|
  {
    AddItem(MoreArrs(d), a, ArrItem(|d.arrs|))
  }

  lemma AddItemLinked(d: Doc, a: nat, item: Item)
    requires Linked(d) && Rooted(d) && a < |d.arrs| && ItemLinked(d, item)
    requires item.TabItem? ==>
               forall t {:trigger d.tabs[t]} :: 0 <= t < |d.tabs| && |d.tabs[t].arr| > 0 ==> t < item.tab
    ensures var d' := AddItem(d, a, item); Linked(d') && Rooted(d') && Grows(d, d')
  {
    assert Linked(AddItem(d, a, item));
  }

  lemma AddValItemKeeps(d: Doc, a: nat, val: string)
    requires Good(d) && a < |d.arrs| && d.arrs[a].kind in {Values, Mixed}
    ensures Good(AddItem(d, a, ValItem(val))) && Grows(d, AddItem(d, a, ValItem(val)))
  {
    hide Linked, Rooted, Grows, Keys, Distinct;
    AddItemLinked(d, a, ValItem(val));
    ListsStay(d, AddItem(d, a, ValItem(val)));
  }

  lemma MoreTabsLinked(d: Doc, key: string)
    requires Linked(d) && Rooted(d)
    ensures var d' := MoreTabs(d, key); Linked(d') && Rooted(d') && Grows(d, d')
  {
    assert Linked(MoreTabs(d, key));
  }

  lemma MoreArrsLinked(d: Doc)
    requires Linked(d) && Rooted(d)
    ensures var d' := MoreArrs(d); Linked(d') && Rooted(d') && Grows(d, d')
  {
    assert Linked(MoreArrs(d));
  }

  lemma AddTabItemKeeps(d: Doc, a: nat, key: string)
    requires Good(d) && a < |d.arrs| && d.arrs[a].kind in {Tables, Mixed}
    ensures Good(AddTabItem(d, a, key)) && Grows(d, AddTabItem(d, a, key))
  {
    hide Linked, Rooted, Grows, Keys, Distinct;
    var d1, d' := MoreTabs(d, key), AddTabItem(d, a, key);
    MoreTabsLinked(d, key);
    AddItemLinked(d1, a, TabItem(|d.tabs|));
    GrowsFurther(d, d1, d');
    ListsStay(d, d');
  }

  lemma AddArrItemKeeps(d: Doc, a: nat)
    requires Good(d) && a < |d.arrs| && d.arrs[a].kind in {Arrays, Mixed}
    ensures Good(AddArrItem(d, a)) && Grows(d, AddArrItem(d, a))
  {
    hide Linked, Rooted, Grows, Keys, Distinct;
    var d1, d' := MoreArrs(d), AddArrItem(d, a);
    MoreArrsLinked(d);
    AddItemLinked(d1, a, ArrItem(|d.arrs|));
    GrowsFurther(d, d1, d');
    ListsStay(d, d');
  }

  // The two flags of a table.
  function Mark(d: Doc, t: nat, implicit: bool, readonly: bool): Doc
    requires t < |d.tabs|
  {
    d.(tabs := d.tabs[t := d.tabs[t].(implicit := implicit, readonly := readonly)])
  }

  lemma MarkLinked(d: Doc, t: nat, implicit: bool, readonly: bool)
    requires Linked(d) && Rooted(d) && t < |d.tabs|
    requires (implicit ==> d.tabs[t].implicit) && (d.tabs[t].readonly ==> readonly)
    ensures var d' := Mark(d, t, implicit, readonly); Linked(d') && Rooted(d') && Grows(d, d')
  {
    assert Linked(Mark(d, t, implicit, readonly));
  }

  lemma MarkKeeps(d: Doc, t: nat, implicit: bool, readonly: bool)
    requires Good(d) && t < |d.tabs|
    requires implicit ==> d.tabs[t].implicit
    requires d.tabs[t].readonly ==> readonly
    ensures Good(Mark(d, t, implicit, readonly)) && Grows(d, Mark(d, t, implicit, readonly))
  {
    hide Linked, Rooted, Grows, Keys, Distinct;
    MarkLinked(d, t, implicit, readonly);
    ListsStay(d, Mark(d, t, implicit, readonly));
  }

  // ---- what is recorded stays recorded

  lemma PrefixPlace(ks: seq<string>, ks': seq<string>, key: string)
    requires ks <= ks' && Place(ks, key).Some?
    ensures Place(ks', key) == Place(ks, key)
  {
    var i := Place(ks, key).value;
    assert ks'[..i] == ks[..i];
    PlaceIs(ks', key, i);
  }

  // However the document grows, a value, array or table once found under a key
  // is found there again.
  lemma LookupsStay(d: Doc, d': Doc, t: nat, key: string)
    requires Good(d) && Good(d') && Grows(d, d') && t < |d.tabs|
    ensures !CheckKey(d, t, key).NoKey? ==> CheckKey(d', t, key) == CheckKey(d, t, key)
    ensures TableIn(d, t, key).Some? ==> TableIn(d', t, key) == TableIn(d, t, key)
  {
    var tb, tb' := d.tabs[t], d'.tabs[t];
    assert ValKeys(tb.kval) <= ValKeys(tb'.kval);
    assert ArrKeys(d, tb.arr) <= ArrKeys(d', tb'.arr);
    assert TabKeys(d, tb.tab) <= TabKeys(d', tb'.tab);
    LookupsAgree(d', t, key);
    if Place(ValKeys(tb.kval), key).Some? { PrefixPlace(ValKeys(tb.kval), ValKeys(tb'.kval), key); }
    if ArrayIn(d, t, key).Some? { PrefixPlace(ArrKeys(d, tb.arr), ArrKeys(d', tb'.arr), key); }
    if TableIn(d, t, key).Some? { PrefixPlace(TabKeys(d, tb.tab), TabKeys(d', tb'.tab), key); }
  }

  // ---- paths

  // What a dotted key leads to from table t.
  function Look(d: Doc, t: nat, path: seq<string>): (r: Found)
    requires Linked(d) && t < |d.tabs|
    ensures r.IsArr? ==> r.arr < |d.arrs|
    ensures r.IsTab? ==> r.tab < |d.tabs|
    decreases path
  {
    if |path| == 0 then NoKey
    else if |path| == 1 then CheckKey(d, t, path[0])
    else match TableIn(d, t, path[0])
      case None => NoKey
      case Some(u) => Look(d, u, path[1..])
  }

  lemma {:induction false} LookStays(d: Doc, d': Doc, t: nat, path: seq<string>)
    requires Good(d) && Good(d') && Grows(d, d') && t < |d.tabs| && !Look(d, t, path).NoKey?
    ensures Look(d', t, path) == Look(d, t, path)
    decreases path
  {
    LookupsStay(d, d', t, path[0]);
    if |path| > 1 { LookStays(d, d', TableIn(d, t, path[0]).value, path[1..]); }
  }

  // One step of walk_tabpath over what is already there: into a table, or into
  // the last table of an array of tables.
  function Into(d: Doc, t: nat, key: string): (r: Option<nat>)
    requires Good(d) && t < |d.tabs|
    ensures r.Some? ==> r.value < |d.tabs|
  {
    match CheckKey(d, t, key)
    case IsTab(u) => Some(u)
    case IsArr(a) =>
      if d.arrs[a].kind.Tables? && |d.arrs[a].items| > 0 then
        var last := d.arrs[a].items[|d.arrs[a].items| - 1];
        assert Suits(d.arrs[a].kind, last) && ItemLinked(d, last);
        Some(last.tab)
      else None
    case _ => None
  }

  // Where the path of a [header] leads.
  function Resolve(d: Doc, t: nat, path: seq<string>): (r: Option<nat>)
    requires Good(d) && t < |d.tabs|
    ensures r.Some? ==> r.value < |d.tabs|
  {
    if |path| == 0 then Some(t)
    else match Resolve(d, t, path[..|path| - 1])
      case None => None
      case Some(u) => Into(d, u, path[|path| - 1])
  }

  lemma IntoYounger(d: Doc, t: nat, key: string)
    requires Good(d) && t < |d.tabs| && Into(d, t, key).Some?
    ensures t < Into(d, t, key).value
  {
    var f := CheckKey(d, t, key);
    if f.IsArr? {
      var i := Place(ArrKeys(d, d.tabs[t].arr), key).value;
      var items := d.arrs[d.tabs[t].arr[i]].items;
      assert Suits(d.arrs[f.arr].kind, items[|items| - 1]);
    }
  }

  lemma {:induction false} ResolveYounger(d: Doc, t: nat, path: seq<string>)
    requires Good(d) && t < |d.tabs| && Resolve(d, t, path).Some?
    ensures t <= Resolve(d, t, path).value
    ensures |path| > 0 ==> Resolve(d, t, path[..|path| - 1]).value < Resolve(d, t, path).value
  {
    hide Into, Linked, Rooted, Distinct;
    if |path| > 0 {
      var u := Resolve(d, t, path[..|path| - 1]).value;
      ResolveYounger(d, t, path[..|path| - 1]);
      IntoYounger(d, u, path[|path| - 1]);
    }
  }

  lemma IntoStays(d: Doc, d': Doc, t: nat, key: string)
    requires Good(d) && Good(d') && Grows(d, d') && t < |d.tabs| && Into(d, t, key).Some?
    requires CheckKey(d, t, key).IsArr? ==> d'.arrs[CheckKey(d, t, key).arr] == d.arrs[CheckKey(d, t, key).arr]
    ensures Into(d', t, key) == Into(d, t, key)
  {
    LookupsStay(d, d', t, key);
  }

  // A way to a table stays as long as no step from an older table changes.
  lemma {:induction false} ResolveStays(d: Doc, d': Doc, t: nat, path: seq<string>)
    requires Good(d) && Good(d') && Grows(d, d') && t < |d.tabs| && Resolve(d, t, path).Some?
    requires forall u, key :: 0 <= u < Resolve(d, t, path).value && Into(d, u, key).Some? ==>
                                Into(d', u, key) == Into(d, u, key)
    ensures Resolve(d', t, path) == Resolve(d, t, path)
  {
    if |path| > 0 {
      ResolveYounger(d, t, path);
      ResolveStays(d, d', t, path[..|path| - 1]);
    }
  }
}
