// Exactly when an entry is refused.

module TomlRefusals {
  import opened Wrappers
  import opened TomlKeys
  import opened TomlTree
  import opened TomlSyntax
  import opened TomlMeaning

  // What stands in the way of a new value under a dotted key: a closed table, a
  // value or an array where a table should be, or something under the last key.
  ghost predicate Blocked(d: Doc, t: nat, names: seq<string>)
    requires Good(d) && t < |d.tabs|
    decreases names
  {
    |names| > 0 &&
    (d.tabs[t].readonly ||
     var f := CheckKey(d, t, names[0]);
     if |names| == 1 then !f.NoKey?
     else f.IsVal? || f.IsArr? || (f.IsTab? && Blocked(d, f.tab, names[1..])))
  }

  ghost predicate Bare(d: Doc, t: nat)
    requires t < |d.tabs|
  {
    !d.tabs[t].readonly && d.tabs[t].kval == [] && d.tabs[t].arr == [] && d.tabs[t].tab == []
  }

  // An empty table takes any entry whose keys are good.
  lemma {:induction false} BareTakes(d: Doc, t: nat, keys: seq<string>, val: string)
    requires Good(d) && t < |d.tabs| && Bare(d, t) && |keys| > 0
    ensures AddEntry(d, t, keys, Raw(val)).Some? <==> Names(keys).Some?
    decreases keys
  {
    hide KeyOf, Names, Rooted, Distinct;
    KeysGood(keys);
    if KeyOf(keys[0]).Some? && |keys| > 1 {
      var key := KeyOf(keys[0]).value;
      assert CheckKey(d, t, key).NoKey? && TableIn(d, t, key).None?;
      var d' := AddTab(d, t, key, false);
      AddTabKeeps(d, t, key, false);
      assert SubTable(d, t, key) == Some((d', |d.tabs|));
      BareTakes(d', |d.tabs|, keys[1..], val);
    }
  }

  lemma KeysGood(keys: seq<string>)
    requires |keys| > 0
    ensures Names(keys).Some? <==> KeyOf(keys[0]).Some? && Names(keys[1..]).Some?
    ensures |keys| == 1 ==> Names(keys[1..]).Some?
    ensures Names(keys).Some? ==> Names(keys).value[0] == KeyOf(keys[0]).value
    ensures Names(keys).Some? ==> Names(keys).value[1..] == Names(keys[1..]).value
  {
    hide KeyOf;
    assert keys == [keys[0]] + keys[1..];
    NamesCons(keys[0], keys[1..]);
  }

  lemma SubTableExactly(d: Doc, t: nat, key: string)
    requires Good(d) && t < |d.tabs|
    ensures SubTable(d, t, key) ==
            match CheckKey(d, t, key)
            case IsTab(u) => Some((d, u))
            case NoKey => Some((AddTab(d, t, key, false), |d.tabs|))
            case _ => None
    ensures CheckKey(d, t, key).NoKey? ==> Good(AddTab(d, t, key, false))
  {
    hide Rooted, Distinct;
    LookupsAgree(d, t, key);
    if CheckKey(d, t, key).NoKey? { AddTabKeeps(d, t, key, false); }
  }

  // The step of a dotted key.
  lemma StepRefused(d: Doc, t: nat, keys: seq<string>, val: string)
    requires Good(d) && t < |d.tabs| && !d.tabs[t].readonly && |keys| > 1 && KeyOf(keys[0]).Some?
    ensures var key := KeyOf(keys[0]).value;
      AddEntry(d, t, keys, Raw(val)).None? <==>
      match CheckKey(d, t, key)
      case IsTab(u) => AddEntry(d, u, keys[1..], Raw(val)).None?
      case NoKey => Names(keys[1..]).None?
      case _ => true
  {
    hide KeyOf, Names, SubTable, CheckKey, TableIn, Linked, Rooted, Distinct;
    var key := KeyOf(keys[0]).value;
    SubTableExactly(d, t, key);
    if CheckKey(d, t, key).NoKey? {
      BareTakes(AddTab(d, t, key, false), |d.tabs|, keys[1..], val);
    }
  }

  // A string, number or date is refused exactly when its keys are bad or
  // something stands in its way.
  lemma {:induction false} RefusedExactly(d: Doc, t: nat, keys: seq<string>, val: string)
    requires Good(d) && t < |d.tabs|
    ensures AddEntry(d, t, keys, Raw(val)).None? <==>
            |keys| == 0 || Names(keys).None? || Blocked(d, t, Names(keys).value)
    decreases keys
  {
    if |keys| == 0 || d.tabs[t].readonly || KeyOf(keys[0]).None? || |keys| == 1 {
      LastRefused(d, t, keys, val);
    } else {
      hide KeyOf, Names, AddEntry, CheckKey, Good;
      KeysGood(keys);
      StepRefused(d, t, keys, val);
      var f := CheckKey(d, t, KeyOf(keys[0]).value);
      if f.IsTab? { RefusedExactly(d, f.tab, keys[1..], val); }
    }
  }

  lemma LastRefused(d: Doc, t: nat, keys: seq<string>, val: string)
    requires Good(d) && t < |d.tabs|
    requires |keys| == 0 || d.tabs[t].readonly || KeyOf(keys[0]).None? || |keys| == 1
    ensures AddEntry(d, t, keys, Raw(val)).None? <==>
            |keys| == 0 || Names(keys).None? || Blocked(d, t, Names(keys).value)
  {
    hide KeyOf, Names, Rooted, Distinct;
    if |keys| > 0 { KeysGood(keys); }
  }

  // ---- headers

  // A step of a header's path that meets something it cannot go into: a value, or
  // an array that holds no tables.
  ghost predicate StepBlocked(d: Doc, t: nat, key: string)
    requires Good(d) && t < |d.tabs|
  {
    !CheckKey(d, t, key).NoKey? && Into(d, t, key).None?
  }

  // The last key of a header stands for something that the header may not open:
  // anything but a table that only paths had made, or an array of tables.
  ghost predicate OpenBlocked(d: Doc, t: nat, double: bool, key: string)
    requires Good(d) && t < |d.tabs|
  {
    match CheckKey(d, t, key)
    case NoKey => false
    case IsVal(_) => true
    case IsArr(a) => !(double && d.arrs[a].kind.Tables?)
    case IsTab(u) => double || !d.tabs[u].implicit
  }

  ghost predicate StepBlockedAt(d: Doc, names: seq<string>, i: nat)
    requires Good(d) && i < |names|
  {
    var r := Resolve(d, ROOT, names[..i]);
    r.Some? && StepBlocked(d, r.value, names[i])
  }

  // Some step of the path leads from a table that was there to something blocked.
  ghost predicate PathBlocked(d: Doc, names: seq<string>)
    requires Good(d)
  {
    exists i :: 0 <= i < |names| && StepBlockedAt(d, names, i)
  }

  // The walk is refused exactly when a step is blocked; else it ends where the
  // path leads, or in a new table with nothing in it.
  ghost predicate WalkedTo(d: Doc, names: seq<string>, r: Option<Draft>)
    requires Good(d)
  {
    match r
    case None => PathBlocked(d, names)
    case Some(Draft(d', u)) =>
      && !PathBlocked(d, names)
      && match Resolve(d, ROOT, names)
         case Some(t) => d' == d && u == t
         case None => |d.tabs| <= u < |d'.tabs| && Bare(d', u)
  }

  lemma BlockedNext(d: Doc, names: seq<string>)
    requires Good(d) && |names| > 0
    ensures var n := |names| - 1;
      PathBlocked(d, names) <==> PathBlocked(d, names[..n]) || StepBlockedAt(d, names, n)
  {
    hide StepBlocked, Resolve, Good;
    var n := |names| - 1;
    forall i | 0 <= i < n ensures StepBlockedAt(d, names, i) <==> StepBlockedAt(d, names[..n], i) {
      assert names[..n][..i] == names[..i];
    }
    if PathBlocked(d, names[..n]) {
      var i :| 0 <= i < n && StepBlockedAt(d, names[..n], i);
      assert StepBlockedAt(d, names, i);
    }
  }

  lemma {:induction false} WalkExactly(d: Doc, names: seq<string>)
    requires Good(d)
    ensures WalkedTo(d, names, Walk(d, names))
  {
    hide PathBlocked, Linked, Rooted, Distinct;
    if |names| == 0 {
      NoneBlocked(d);
    } else {
      var n := |names| - 1;
      var before := Walk(d, names[..n]);
      WalkExactly(d, names[..n]);
      BlockedNext(d, names);
      if before.Some? {
        var Draft(d1, u) := before.value;
        StepTaken(d1, u, names[n]);
      }
    }
  }

  lemma NoneBlocked(d: Doc)
    requires Good(d)
    ensures !PathBlocked(d, [])
  {}

  lemma StepTaken(d: Doc, t: nat, key: string)
    requires Good(d) && t < |d.tabs|
    ensures WalkInto(d, t, key) ==
            if CheckKey(d, t, key).NoKey? then Some(Draft(AddTab(d, t, key, true), |d.tabs|))
            else if StepBlocked(d, t, key) then None
            else Some(Draft(d, Into(d, t, key).value))
    ensures CheckKey(d, t, key).NoKey? ==> Into(d, t, key).None? && Bare(AddTab(d, t, key, true), |d.tabs|)
    ensures Bare(d, t) ==> CheckKey(d, t, key).NoKey?
  {
    hide Linked, Rooted, Distinct;
  }

  lemma OpenExactly(d: Doc, t: nat, double: bool, key: string)
    requires Good(d) && t < |d.tabs|
    ensures Open(d, t, double, key).None? <==> OpenBlocked(d, t, double, key)
  {
    hide Linked, Rooted, Distinct;
    LookupsAgree(d, t, key);
  }

  // The whole condition on a header's names.
  ghost predicate HeaderBlocked(d: Doc, double: bool, names: seq<string>)
    requires Good(d) && |names| > 0
  {
    var n := |names| - 1;
    || PathBlocked(d, names[..n])
    || (var r := Resolve(d, ROOT, names[..n]); r.Some? && OpenBlocked(d, r.value, double, names[n]))
  }

  lemma BareOpens(d: Doc, t: nat, double: bool, key: string)
    requires Good(d) && t < |d.tabs| && Bare(d, t)
    ensures !OpenBlocked(d, t, double, key)
  {
    StepTaken(d, t, key);
  }

  lemma HeaderBlockedExactly(d: Doc, double: bool, names: seq<string>)
    requires Good(d) && |names| > 0
    ensures var (n, before) := (|names| - 1, Walk(d, names[..|names| - 1]));
      HeaderBlocked(d, double, names) <==>
      before.None? || Open(before.value.doc, before.value.cur, double, names[n]).None?
  {
    hide Walk, Open, PathBlocked, OpenBlocked, Rooted, Distinct, Grows;
    var n := |names| - 1;
    WalkExactly(d, names[..n]);
    var before := Walk(d, names[..n]);
    if before.Some? {
      OpenExactly(before.value.doc, before.value.cur, double, names[n]);
      if Resolve(d, ROOT, names[..n]).None? {
        BareOpens(before.value.doc, before.value.cur, double, names[n]);
      }
    }
  }

  // A header is refused exactly when it has not one to ten good keys, a step of
  // its path is blocked, or its last key stands for something not to be opened.
  lemma HeaderRefusedExactly(d: Doc, double: bool, keys: seq<string>)
    requires Good(d)
    ensures AddSelect(d, double, keys).None? <==>
            || !(1 <= |keys| <= 10) || Names(keys).None?
            || HeaderBlocked(d, double, Names(keys).value)
  {
    hide Names, Walk, Open, HeaderBlocked, Linked, Rooted, Distinct, Grows;
    if 0 < |keys| <= MAX_DEPTH && Names(keys).Some? {
      HeaderBlockedExactly(d, double, Names(keys).value);
    }
  }
}
