// The access log: filtered events folded into the hash table, and what the
// table holds after any run of events.

module AccessLog {
  import opened Wrappers
  import opened RoundUp
  import opened StringHash
  import opened HashTable

  type Path = string
  datatype Filter = Filter(excluded: seq<Path>, included: seq<Path>)
  datatype Event = Event(path: Option<Path>, flag: nat)
  datatype Entry = Entry(count: nat, flags: nat)
  type Log = map<Path, Entry>

  // Some prefix of the list starts the path.
  predicate Matches(path: Path, prefixes: seq<Path>) {
    exists i :: 0 <= i < |prefixes| && prefixes[i] <= path
  }

  predicate Accepted(f: Filter, e: Event) {
    && e.path.Some?
    && (|f.included| == 0 || Matches(e.path.value, f.included))
    && !Matches(e.path.value, f.excluded)
  }

  method IsExcluded(path: Path, prefixes: seq<Path>) returns (r: bool)
    ensures r == Matches(path, prefixes)
  {
    for i := 0 to |prefixes|
      invariant forall j :: 0 <= j < i ==> !(prefixes[j] <= path)
    {
      if prefixes[i] <= path { return true; }
    }
    return false;
  }

  method IsIncluded(path: Path, prefixes: seq<Path>) returns (r: bool)
    ensures r <==> |prefixes| == 0 || Matches(path, prefixes)
  {
    if |prefixes| == 0 { return true; }
    for i := 0 to |prefixes|
      invariant forall j :: 0 <= j < i ==> !(prefixes[j] <= path)
    {
      if prefixes[i] <= path { return true; }
    }
    return false;
  }

  function Record(log: Log, path: Path, flag: nat): Log {
    log[path := if path in log then Entry(log[path].count + 1, Or(log[path].flags, flag)) else Entry(1, flag)]
  }

  function Step(f: Filter, log: Log, e: Event): Log {
    if Accepted(f, e) then Record(log, e.path.value, e.flag) else log
  }

  function Fold(f: Filter, events: seq<Event>): Log {
    if |events| == 0 then map[] else Step(f, Fold(f, events[..|events| - 1]), events[|events| - 1])
  }

  class Item {
    const path: Path
    var count: nat
    var flags: nat

    constructor (path: Path, flag: nat)
      ensures this.path == path && count == 1 && flags == flag
    {
      this.path := path;
      count, flags := 1, flag;
    }
  }

  // Every path of the log has an item of its own, which carries its entry.
  ghost predicate Carries(contents: map<Path, Item?>, log: Log, items: set<Item>)
    reads items
  {
    && contents.Keys == log.Keys
    && forall k {:trigger log[k]} :: k in log ==>
         && contents[k] != null && contents[k] in items
         && contents[k].path == k
         && log[k] == Entry(contents[k].count, contents[k].flags)
  }

  lemma CarriesMore(contents: map<Path, Item?>, log: Log, items: set<Item>, path: Path, item: Item, flag: nat)
    requires Carries(contents, log, items) && path !in log
    requires item.path == path && item.count == 1 && item.flags == flag
    ensures Carries(contents[path := item], log[path := Entry(1, flag)], items + {item})
  {}

  class Logger {
    const table: Table<Path, Item?>
    ghost var log: Log            // what the table and its items stand for
    ghost var items: set<Item>   // all items in the table

    ghost predicate Carried()
      reads this, table, items
    {
      Carries(table.contents, log, items)
    }

    ghost predicate Valid()
      reads this, table, table.flags, table.keys, table.vals, items
    {
      table.Valid() && Carried()
    }

    constructor ()
      ensures Valid() && fresh(table) && fresh(table.Repr()) && log == map[] && items == {}
    {
      table := new Table<Path, Item?>(X31);
      log, items := map[], {};
    }

    // A new item has taken the place of another path's.
    twostate predicate Displaced(path: Path, flag: nat)
      reads this, table, items
    {
      exists other :: other in old(table.contents) && other in table.contents &&
        var item := table.contents[other];
        && item != null && item in items && item.path == path && item.count == 1 && item.flags == flag
        && table.contents == old(table.contents)[other := item]
    }

    // Hash_Add of a new item.
    method AddItem(path: Path, item: Item)
      requires table.Valid() && path !in table.contents
      modifies table, table.flags, table.keys, table.vals
      ensures table.Valid() && fresh(table.Repr() - old(table.Repr()))
      ensures var before := old(table.contents);
        if |before| < TWO_31 then table.contents == before[path := item]
        else exists other :: other in before && table.contents == before[other := item]
    {
      hide Table.Valid;
      var x := table.Add(path, item);
    }

    // Store_In_Hash, the path not found: a new item enters the table.
    method StoreNew(path: Path, flag: nat) returns (rc: nat)
      requires Valid() && path !in log
      modifies this`log, this`items, table, table.flags, table.keys, table.vals
      ensures fresh(table.Repr() - old(table.Repr())) && fresh(items - old(items))
      ensures rc == 1
      ensures if |old(log)| < TWO_31 then Valid() && log == Record(old(log), path, flag)
              else table.Valid() && Displaced(path, flag)
    {
      hide Table.Valid, Carries;
      SameSize();
      var item := new Item(path, flag);
      CarriesMore(table.contents, log, items, path, item, flag);
      ghost var more := table.contents[path := item];
      items := items + {item};
      if |log| < TWO_31 {
        log := log[path := Entry(1, flag)];
      }
      AddItem(path, item);
      rc := item.count;
      assert Carries(more, old(log)[path := Entry(1, flag)], items);
    }

    // Store_In_Hash, the path found: its item is updated in place.
    method StoreAgain(path: Path, item: Item, flag: nat) returns (rc: nat)
      requires Carried() && path in log && table.contents[path] == item
      modifies this`log, item
      ensures Carried()
      ensures log == Record(old(log), path, flag) && rc == log[path].count
    {
      item.count := item.count + 1;
      item.flags := Or(item.flags, flag);
      rc := item.count;
      log := log[path := Entry(item.count, item.flags)];
    }

    lemma SameSize()
      requires Valid()
      ensures |table.contents| == |log| && table.contents.Keys == log.Keys
    {
      assert |table.contents.Keys| == |log.Keys|;
    }

    lemma ItemOf(path: Path)
      requires Valid()
      ensures path in table.contents <==> path in log
      ensures path in log ==> table.contents[path] != null && table.contents[path] in items
    {}

    // The part of Store_In_Hash under the mutex.
    method StoreLocked(path: Path, flag: nat) returns (rc: nat)
      requires Valid()
      modifies this`log, this`items, table, table.flags, table.keys, table.vals, items
      ensures fresh(table.Repr() - old(table.Repr())) && fresh(items - old(items))
      ensures if path in old(log) || |old(log)| < TWO_31
              then Valid() && log == Record(old(log), path, flag) && rc == log[path].count
              else table.Valid() && Displaced(path, flag) && rc == 1
    {
      hide Table.Valid, Carried, Or;
      ItemOf(path);
      var found := table.Find(path);
      if found.None? || found.value == null {
        rc := StoreNew(path, flag);
      } else {
        rc := StoreAgain(path, found.value, flag);
      }
    }

    // Store_In_Hash.  Only a new path for a log of 2^31 is not recorded.
    method Store(f: Filter, path: Option<Path>, flag: nat) returns (rc: nat)
      requires Valid()
      modifies this`log, this`items, table, table.flags, table.keys, table.vals, items
      ensures fresh(table.Repr() - old(table.Repr())) && fresh(items - old(items))
      ensures var e := Event(path, flag);
        if !Accepted(f, e) then Valid() && log == old(log) && rc == 0
        else if path.value in old(log) || |old(log)| < TWO_31
        then Valid() && log == Step(f, old(log), e) && rc == log[path.value].count
        else table.Valid() && Displaced(path.value, flag) && rc == 1
    {
      hide Table.Valid, Carried, Or, Matches;
      if path.None? { return 0; }
      var included := IsIncluded(path.value, f.included);
      if !included { return 0; }
      var excluded := IsExcluded(path.value, f.excluded);
      if excluded { return 0; }
      rc := StoreLocked(path.value, flag);
    }
  }
}
