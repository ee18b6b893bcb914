// The parser of TOML documents: one pass over the text that builds the tables as
// it goes.  Each method is shown to do what reading a syntax tree first and
// building what it means afterwards would do, and to fail exactly when that does.

module TomlParser {
  import opened Wrappers
  import opened Scanner
  import opened Tokens
  import opened TomlKeys
  import opened TomlTree
  import opened TomlSyntax
  import opened TomlGrammar
  import opened TomlMeaning
  import opened TomlSpelling
  import opened TomlShape

  // None of these tables is one that just headers had made.
  ghost predicate Explicit(d: Doc, given: set<nat>) {
    forall t :: t in given ==> t < |d.tabs| && !d.tabs[t].implicit
  }

  lemma ExplicitStays(d: Doc, d': Doc, given: set<nat>)
    requires Explicit(d, given) && Grows(d, d')
    ensures Explicit(d', given)
  {
    forall t | t in given ensures t < |d'.tabs| && !d'.tabs[t].implicit {
      assert TabGrows(d.tabs[t], d'.tabs[t]);
    }
  }

  lemma WordIsScanned(text: string, pos: nat, lineno: nat, dot: bool)
    requires pos <= |text| && TokenAt(text, pos, lineno, dot).Some?
    ensures var next := TokenAt(text, pos, lineno, dot).value;
      && (next.kind.Word? ==> Scanned(text, next))
      && (next.eof ==> next.kind.Newline?)
  {
    hide TokOk, Scan;
    var next := TokenAt(text, pos, lineno, dot).value;
    if next.kind.Word? {
      var ptr := GapBetween(text, pos);
      assert Scan(text[next.ptr..], dot) == Some(next.len);
    }
  }

  // A token that follows another is as the parser expects tokens to be.
  lemma NextIsOk(text: string, tok: Token, dot: bool)
    requires TokOk(text, tok) && After(text, tok, dot).Some?
    ensures TokOk(text, After(text, tok, dot).value)
  {
    hide TokenAt, Scanned;
    NextIsPlaced(text, tok, dot);
    WordIsScanned(text, tok.End(), LineAfter(text, tok), dot);
  }

  lemma StartIsOk(text: string)
    ensures TokOk(text, START)
  {
    hide Scanned, Placed;
    StartPlaced(text);
    StartIsFit(text);
  }

  // ---- first a tree, then what it means

  ghost function NodeMakes(text: string, tok: Token, d: Doc, a: nat): Option<(Doc, Token)>
    requires Fit(text, tok) && Good(d) && a < |d.arrs|
  {
    match NodeAt(text, tok, false)
    case None => None
    case Some((v, b)) => match AddNode(d, a, v) case None => None case Some(d') => Some((d', b))
  }

  ghost function ListMakes(text: string, tok: Token, d: Doc, a: nat): Option<(Doc, Token)>
    requires Fit(text, tok) && tok.kind.LBracket? && Good(d) && a < |d.arrs|
  {
    match NodeAt(text, tok, true)
    case None => None
    case Some((v, b)) => match AddNodes(d, a, v.items) case None => None case Some(d') => Some((d', b))
  }

  ghost function ItemsMake(text: string, tok: Token, d: Doc, a: nat): Option<(Doc, Token)>
    requires Fit(text, tok) && Good(d) && a < |d.arrs|
  {
    match ItemsAt(text, tok, [])
    case None => None
    case Some((items, _, b)) => match AddNodes(d, a, items) case None => None case Some(d') => Some((d', b))
  }

  ghost function DictMakes(text: string, tok: Token, d: Doc, t: nat): Option<(Doc, Token)>
    requires Fit(text, tok) && tok.kind.LBrace? && Good(d) && t < |d.tabs|
  {
    match NodeAt(text, tok, true)
    case None => None
    case Some((v, b)) => match FillTable(d, t, v.entries) case None => None case Some(d') => Some((d', b))
  }

  ghost function EntriesMake(text: string, tok: Token, d: Doc, t: nat): Option<(Doc, Token)>
    requires Fit(text, tok) && Good(d) && t < |d.tabs|
  {
    match EntriesAt(text, tok, [])
    case None => None
    case Some((entries, _, b)) => match AddEntries(d, t, entries) case None => None case Some(d') => Some((d', b))
  }

  ghost function EntryMakes(text: string, tok: Token, d: Doc, t: nat): Option<(Doc, Token)>
    requires Fit(text, tok) && Good(d) && t < |d.tabs|
  {
    match EntryAt(text, tok)
    case None => None
    case Some((e, b)) => match AddEntry(d, t, e.keys, e.value) case None => None case Some(d') => Some((d', b))
  }

  // The rest of an entry, behind its first key and a dot.
  ghost function RestMakes(text: string, raw: string, tok: Token, d: Doc, t: nat): Option<(Doc, Token)>
    requires Fit(text, tok) && Good(d) && t < |d.tabs|
  {
    match EntryAt(text, tok)
    case None => None
    case Some((e, b)) =>
      match AddEntry(d, t, [raw] + e.keys, e.value) case None => None case Some(d') => Some((d', b))
  }

  // The value of an entry, behind its last key and the equal sign.
  ghost function ValueMakes(text: string, raw: string, tok: Token, d: Doc, t: nat): Option<(Doc, Token)>
    requires Fit(text, tok) && Good(d) && t < |d.tabs|
  {
    match NodeAt(text, tok, true)
    case None => None
    case Some((v, b)) => match AddEntry(d, t, [raw], v) case None => None case Some(d') => Some((d', b))
  }

  // A header from its first key to the bracket behind its last.
  ghost function TableMakes(text: string, tok: Token, d: Doc, double: bool): Option<(Draft, Token)>
    requires Fit(text, tok) && Good(d)
  {
    match KeysAt(text, tok, [])
    case None => None
    case Some((keys, b)) => match AddSelect(d, double, keys) case None => None case Some(s) => Some((s, b))
  }

  ghost function SelectMakes(text: string, tok: Token, d: Doc): Option<(Draft, Token)>
    requires Fit(text, tok) && Good(d)
  {
    match SelectAt(text, tok)
    case None => None
    case Some((double, keys, b)) =>
      match AddSelect(d, double, keys) case None => None case Some(s) => Some((s, b))
  }

  ghost function LineMakes(text: string, tok: Token, s: Draft): Option<(Draft, Token)>
    requires Fit(text, tok) && !tok.eof && Sound(s)
  {
    match LineAt(text, tok)
    case None => None
    case Some((line, b)) => match AddLine(s, line) case None => None case Some(s') => Some((s', b))
  }

  ghost function Document(text: string): (r: Option<Doc>)
    ensures r.Some? ==> Good(r.value)
  {
    match Parse(text)
    case None => None
    case Some(lines) => match Build(lines) case None => None case Some(s) => Some(s.doc)
  }

  lemma NothingAdded(d: Doc, t: nat, a: nat)
    requires Good(d)
    ensures t < |d.tabs| ==> AddEntries(d, t, []) == Some(d)
    ensures a < |d.arrs| ==> AddNodes(d, a, []) == Some(d)
  {}

  lemma EntriesEnd(text: string, tok: Token, done: seq<Entry>)
    requires Fit(text, tok) && tok.kind.RBrace?
    ensures EntriesAt(text, tok, done) == Some((done, true, tok))
  {}

  // One round of the loop of parse_inline_table: where it fails the whole table
  // does, and else so many entries are read and added.
  lemma EntryRound(text: string, tok: Token, done: seq<Entry>, d0: Doc, t: nat, d: Doc)
    requires Fit(text, tok) && !tok.kind.RBrace? && Good(d0) && t < |d0.tabs| && AddEntries(d0, t, done) == Some(d)
    ensures var made := EntriesAt(text, tok, done);
      match EntryMakes(text, tok, d, t)
      case None => made.Some? ==> AddEntries(d0, t, made.value.0).None?
      case Some((d1, m)) =>
        && tok.kind.Word? && EntryAt(text, tok).Some? && Fit(text, m) && tok.End() < m.ptr
        && var all := done + [EntryAt(text, tok).value.0];
        && AddEntries(d0, t, all) == Some(d1)
        && made == if m.kind.Newline? then None
                   else if !m.kind.Comma? then Some((all, false, m))
                   else if After(text, m, true).None? then None
                   else EntriesAt(text, After(text, m, true).value, all)
  {
    hide TokOk, EntryAt, AddEntry, After, Rooted, Distinct;
    var made, entry := EntriesAt(text, tok, done), EntryAt(text, tok);
    if entry.Some? {
      var all := done + [entry.value.0];
      EntriesAdded(d0, t, done, entry.value.0);
      if made.Some? && AddEntries(d0, t, all).None? { EntriesStuck(d0, t, all, made.value.0); }
    }
  }

  // One round of the loop of parse_array, likewise.
  lemma ItemRound(text: string, tok: Token, done: seq<Node>, d0: Doc, a: nat, d: Doc)
    requires Fit(text, tok) && Good(d0) && a < |d0.arrs| && AddNodes(d0, a, done) == Some(d)
    ensures var made, n := ItemsAt(text, tok, done), PastNewlines(text, tok, false);
      if n.None? then made.None?
      else if n.value.kind.RBracket? then made == Some((done, true, n.value))
      else match NodeMakes(text, n.value, d, a)
        case None => made.Some? ==> AddNodes(d0, a, made.value.0).None?
        case Some((d1, m)) =>
          && NodeAt(text, n.value, false).Some? && Fit(text, m) && n.value.End() <= m.ptr
          && var all, k := done + [NodeAt(text, n.value, false).value.0], PastNewlines(text, m, false);
          && AddNodes(d0, a, all) == Some(d1)
          && made == if k.None? then None
                     else if !k.value.kind.Comma? then Some((all, false, k.value))
                     else if After(text, k.value, false).None? then None
                     else ItemsAt(text, After(text, k.value, false).value, all)
  {
    hide TokOk, NodeAt, AddNode, After, PastNewlines, Rooted, Distinct;
    var made, n := ItemsAt(text, tok, done), PastNewlines(text, tok, false);
    if n.Some? && !n.value.kind.RBracket? {
      var node := NodeAt(text, n.value, false);
      if node.Some? {
        var all := done + [node.value.0];
        NodesSnoc(d0, a, done, node.value.0);
        if made.Some? && AddNodes(d0, a, all).None? { NodesStuck(d0, a, all, made.value.0); }
      }
    }
  }

  // These lines build this document.
  ghost predicate Builds(lines: seq<Line>, d: Doc) {
    Build(lines).Some? && Build(lines).value.doc == d
  }

  // The text spells some lines, and they build the document; or whatever lines it
  // spells are refused.
  ghost predicate Means(text: string, r: Option<Doc>) {
    match r
    case Some(d) => exists lines :: Spells(text, lines) && Builds(lines, d)
    case None => forall lines :: Spells(text, lines) ==> Build(lines).None?
  }

  lemma DocumentMeans(text: string)
    ensures Means(text, Document(text))
    ensures Document(text).Some? ==> Tree(Document(text).value)
  {
    hide Spells, Parse, Build, Tree;
    if Document(text).Some? { BuildTree(Parse(text).value); }
    match Document(text)
    case Some(d) =>
      ParseSpelled(text, Parse(text).value);
      assert Builds(Parse(text).value, d);
    case None =>
      forall lines | Spells(text, lines) ensures Build(lines).None? {
        ParseSpelled(text, lines);
      }
  }

  class Context {
    const text: string
    var tok: Token
    var doc: Doc
    var curtab: nat
    // The keys of the header being read, and the last one's token.
    var path: seq<string>
    var last: Token
    // The tables that CreateKeytable has handed out.
    ghost var given: set<nat>

    ghost predicate Reading()
      reads `tok
    {
      Fit(text, tok) && TokOk(text, tok)
    }

    ghost predicate Valid()
      reads this
    {
      && Reading()
      && Good(doc) && curtab < |doc.tabs|
      && Explicit(doc, given)
    }

    constructor (text: string)
      ensures Valid() && this.text == text && tok == START && doc == EMPTY && curtab == ROOT && given == {}
    {
      hide TokOk, Fit, Good;
      assert START == Token(Newline, 1, 0, 0, false);
      EmptyGood();
      StartIsOk(text);
      StartIsFit(text);
      this.text, tok, doc, curtab := text, START, EMPTY, ROOT;
      path, last, given := [], START, {};
    }

    // ---- tokens

    // next_token
    method Next(dot: bool) returns (ok: bool)
      requires Reading()
      modifies `tok
      ensures ok == After(text, old(tok), dot).Some?
      ensures ok ==> Reading() && Some(tok) == After(text, old(tok), dot)
    {
      hide TokOk, TokenAt;
      var next := NextToken(text, tok, dot);
      if next.None? { return false; }
      NextIsOk(text, tok, dot);
      tok := next.value;
      return true;
    }

    // eat_token
    method Eat(kind: Kind, dot: bool) returns (ok: bool)
      requires Reading()
      modifies `tok
      ensures ok == (old(tok.kind) == kind && After(text, old(tok), dot).Some?)
      ensures ok ==> Reading() && Some(tok) == After(text, old(tok), dot)
    {
      hide TokOk, TokenAt, After;
      if tok.kind != kind { return false; }
      ok := Next(dot);
    }

    // skip_newlines
    method SkipNewlines(dot: bool) returns (ok: bool)
      requires Reading()
      modifies `tok
      ensures ok == PastNewlines(text, old(tok), dot).Some?
      ensures ok ==> Reading() && Some(tok) == PastNewlines(text, old(tok), dot)
    {
      hide TokOk, TokenAt, After;
      while tok.kind.Newline?
        invariant Reading() && PastNewlines(text, tok, dot) == PastNewlines(text, old(tok), dot)
        decreases |text| - tok.End(), tok.kind.Newline?
      {
        ok := Next(dot);
        if !ok { return; }
        if tok.eof { break; }
      }
      return true;
    }

    // ---- new values, tables and arrays

    // create_keyval_in_table, and the value
    method CreateKeyval(t: nat, keytok: Token, val: string) returns (ok: bool)
      requires Valid() && t < |doc.tabs| && KeyToken(text, keytok)
      modifies `doc
      ensures Valid()
      ensures var key := KeyOf(RawText(text, keytok));
        && ok == (key.Some? && CheckKey(old(doc), t, key.value).NoKey?)
        && doc == if ok then AddVal(old(doc), t, key.value, val) else old(doc)
    {
      hide TokOk, KeyOf;
      var key := NormalizeKey(text, keytok);
      if key.None? { return false; }
      var f := FindKey(doc, t, key.value);
      if !f.NoKey? { return false; }
      AddValKeeps(doc, t, key.value, val);
      ExplicitStays(doc, AddVal(doc, t, key.value, val), given);
      doc := AddVal(doc, t, key.value, val);
      return true;
    }

    // create_keytable_in_table: it never hands out a table twice.
    method CreateKeytable(t: nat, keytok: Token) returns (r: Option<nat>)
      requires Valid() && t < |doc.tabs| && KeyToken(text, keytok)
      modifies `doc, `given
      ensures Valid()
      ensures var key := KeyOf(RawText(text, keytok));
        if r.Some? then
          && key.Some? && NewTable(old(doc), t, key.value) == Some((doc, r.value))
          && r.value !in old(given) && given == old(given) + {r.value}
        else
          && (key.Some? ==> NewTable(old(doc), t, key.value) == None)
          && doc == old(doc) && given == old(given)
    {
      hide TokOk, KeyOf, CheckKey, TableIn, Linked, Rooted, Distinct, Grows;
      var key := NormalizeKey(text, keytok);
      if key.None? { return None; }
      var f := FindKey(doc, t, key.value);
      ghost var made := NewTable(doc, t, key.value);
      if made.Some? { ExplicitStays(doc, made.value.0, given); }
      if f.IsTab? && doc.tabs[f.tab].implicit {
        doc := Mark(doc, f.tab, false, doc.tabs[f.tab].readonly);
        r := Some(f.tab);
      } else if !f.NoKey? {
        return None;
      } else {
        r := Some(|doc.tabs|);
        doc := AddTab(doc, t, key.value, false);
      }
      assert made == Some((doc, r.value));
      assert Good(doc);
      given := given + {r.value};
    }

    // create_keyarray_in_table
    method CreateKeyarray(t: nat, keytok: Token, kind: ArrayKind) returns (r: Option<nat>)
      requires Valid() && t < |doc.tabs| && KeyToken(text, keytok)
      modifies `doc
      ensures Valid()
      ensures var key := KeyOf(RawText(text, keytok));
        && r == (if key.Some? && CheckKey(old(doc), t, key.value).NoKey? then Some(|old(doc).arrs|) else None)
        && doc == if r.Some? then AddArr(old(doc), t, key.value, kind) else old(doc)
    {
      hide TokOk, KeyOf;
      var key := NormalizeKey(text, keytok);
      if key.None? { return None; }
      var f := FindKey(doc, t, key.value);
      if !f.NoKey? { return None; }
      AddArrKeeps(doc, t, key.value, kind);
      ExplicitStays(doc, AddArr(doc, t, key.value, kind), given);
      r := Some(|doc.arrs|);
      doc := AddArr(doc, t, key.value, kind);
      assert Good(doc);
    }

    // ---- values

    // The loop of parse_inline_table.
    method ParseEntries(t: nat) returns (ok: bool)
      requires Valid() && t < |doc.tabs|
      modifies `tok, `doc, `given
      ensures ok == EntriesMake(text, old(tok), old(doc), t).Some?
      ensures ok ==> Valid() && old(given) <= given && Some((doc, tok)) == EntriesMake(text, old(tok), old(doc), t)
      decreases |text| - tok.ptr, 2
    {
      hide TokOk, EntryMakes, EntriesAt, AddEntries, EntryAt, After, Explicit, Good;
      ghost var d0, made := doc, EntriesAt(text, tok, []);
      ghost var done: seq<Entry> := [];
      NothingAdded(doc, t, 0);
      while !tok.kind.RBrace?
        invariant Valid() && old(given) <= given && old(tok).ptr <= tok.ptr
        invariant EntriesAt(text, tok, done) == made
        invariant AddEntries(d0, t, done) == Some(doc)
        decreases |text| - tok.ptr
      {
        EntryRound(text, tok, done, d0, t, doc);
        if tok.kind.Newline? { return false; }
        if !tok.kind.Word? { return false; }
        ghost var entry := EntryAt(text, tok);
        ok := ParseKeyval(t);
        if !ok { return; }
        done := done + [entry.value.0];
        if tok.kind.Newline? { return false; }
        if !tok.kind.Comma? { return true; }
        ok := Eat(Comma, true);
        if !ok { return; }
      }
      EntriesEnd(text, tok, done);
      return true;
    }

    // parse_inline_table
    method ParseInlineTable(t: nat) returns (ok: bool)
      requires Valid() && t < |doc.tabs| && tok.kind.LBrace?
      modifies `tok, `doc, `given
      ensures ok == DictMakes(text, old(tok), old(doc), t).Some?
      ensures ok ==> Valid() && old(given) <= given && Some((doc, tok)) == DictMakes(text, old(tok), old(doc), t)
      decreases |text| - tok.ptr, 0
    {
      hide TokOk, AddEntries, EntriesAt, After, KeyOf, Good;
      ok := Eat(LBrace, true);
      if !ok { return; }
      ok := ParseEntries(t);
      if !ok { return; }
      ghost var filled := Mark(doc, t, doc.tabs[t].implicit, true);
      MarkKeeps(doc, t, doc.tabs[t].implicit, true);
      ExplicitStays(doc, filled, given);
      ok := Eat(RBrace, true);
      if !ok { return; }
      doc := Mark(doc, t, doc.tabs[t].implicit, true);
      assert doc == filled;
      assert Good(doc);
    }

    // The three kinds of array item, in the loop of parse_array.
    method ParseItem(a: nat) returns (ok: bool)
      requires Valid() && a < |doc.arrs|
      modifies `tok, `doc, `given
      ensures ok == NodeMakes(text, old(tok), old(doc), a).Some?
      ensures ok ==> Valid() && old(given) <= given && Some((doc, tok)) == NodeMakes(text, old(tok), old(doc), a)
      decreases |text| - tok.ptr, 2
    {
      hide TokOk, AddNode, ItemsAt, EntriesAt, After, KeyOf, Good;
      match tok.kind
      case Word => ok := ParseRawItem(a);
      case LBracket => ok := ParseListItem(a);
      case LBrace => ok := ParseDictItem(a);
      case _ => ok := false;
    }

    method ParseRawItem(a: nat) returns (ok: bool)
      requires Valid() && a < |doc.arrs| && tok.kind.Word?
      modifies `tok, `doc, `given
      ensures ok == NodeMakes(text, old(tok), old(doc), a).Some?
      ensures ok ==> Valid() && old(given) <= given && Some((doc, tok)) == NodeMakes(text, old(tok), old(doc), a)
      decreases |text| - tok.ptr, 1
    {
      hide TokOk, AddNodes, AddEntries, After, KeyOf, Rooted, Distinct;
      ghost var added := AddNode(doc, a, Raw(RawText(text, tok))).value;
      ExplicitStays(doc, added, given);
      doc := SetKind(doc, a, NextKind(doc.arrs[a].kind, Values));
      doc := AddItem(doc, a, ValItem(text[tok.ptr..tok.End()]));
      assert doc == added;
      ok := Eat(Word, false);
    }

    method ParseListItem(a: nat) returns (ok: bool)
      requires Valid() && a < |doc.arrs| && tok.kind.LBracket?
      modifies `tok, `doc, `given
      ensures ok == NodeMakes(text, old(tok), old(doc), a).Some?
      ensures ok ==> Valid() && old(given) <= given && Some((doc, tok)) == NodeMakes(text, old(tok), old(doc), a)
      decreases |text| - tok.ptr, 1
    {
      hide TokOk, AddNodes, AddEntries, ItemsAt, After, KeyOf, Rooted, Distinct;
      SetKindKeeps(doc, a, Arrays);
      doc := SetKind(doc, a, NextKind(doc.arrs[a].kind, Arrays));
      ExplicitStays(old(doc), doc, given);
      var sub := |doc.arrs|;
      AddArrItemKeeps(doc, a);
      ExplicitStays(doc, AddArrItem(doc, a), given);
      doc := AddArrItem(doc, a);
      ok := ParseArray(sub);
    }

    method ParseDictItem(a: nat) returns (ok: bool)
      requires Valid() && a < |doc.arrs| && tok.kind.LBrace?
      modifies `tok, `doc, `given
      ensures ok == NodeMakes(text, old(tok), old(doc), a).Some?
      ensures ok ==> Valid() && old(given) <= given && Some((doc, tok)) == NodeMakes(text, old(tok), old(doc), a)
      decreases |text| - tok.ptr, 1
    {
      hide TokOk, AddNodes, FillTable, EntriesAt, After, KeyOf, Rooted, Distinct;
      SetKindKeeps(doc, a, Tables);
      doc := SetKind(doc, a, NextKind(doc.arrs[a].kind, Tables));
      ExplicitStays(old(doc), doc, given);
      var sub := |doc.tabs|;
      AddTabItemKeeps(doc, a, "");
      ExplicitStays(doc, AddTabItem(doc, a, ""), given);
      doc := AddTabItem(doc, a, "");
      ok := ParseInlineTable(sub);
    }

    // parse_array
    method ParseArray(a: nat) returns (ok: bool)
      requires Valid() && a < |doc.arrs| && tok.kind.LBracket?
      modifies `tok, `doc, `given
      ensures ok == ListMakes(text, old(tok), old(doc), a).Some?
      ensures ok ==> Valid() && old(given) <= given && Some((doc, tok)) == ListMakes(text, old(tok), old(doc), a)
      decreases |text| - tok.ptr, 0
    {
      hide TokOk, AddNodes, ItemsAt, After, KeyOf, Good;
      ok := Eat(LBracket, false);
      if !ok { return; }
      ok := ParseItems(a);
      if !ok { return; }
      ok := Eat(RBracket, true);
    }

    // The loop of parse_array.
    method ParseItems(a: nat) returns (ok: bool)
      requires Valid() && a < |doc.arrs|
      modifies `tok, `doc, `given
      ensures ok == ItemsMake(text, old(tok), old(doc), a).Some?
      ensures ok ==> Valid() && old(given) <= given && Some((doc, tok)) == ItemsMake(text, old(tok), old(doc), a)
      decreases |text| - tok.ptr, 3
    {
      hide TokOk, NodeMakes, ItemsAt, AddNodes, NodeAt, PastNewlines, After, Explicit, Good;
      ghost var d0, made := doc, ItemsAt(text, tok, []);
      ghost var done: seq<Node> := [];
      NothingAdded(doc, 0, a);
      while true
        invariant Valid() && old(given) <= given && old(tok).ptr <= tok.ptr
        invariant ItemsAt(text, tok, done) == made
        invariant AddNodes(d0, a, done) == Some(doc)
        decreases |text| - tok.ptr
      {
        ItemRound(text, tok, done, d0, a, doc);
        ok := SkipNewlines(false);
        if !ok || tok.kind.RBracket? { return; }
        ghost var node := NodeAt(text, tok, false);
        ok := ParseItem(a);
        if !ok { return; }
        done := done + [node.value.0];
        ok := SkipNewlines(false);
        if !ok { return; }
        if !tok.kind.Comma? { return; }
        ok := Eat(Comma, false);
        if !ok { return; }
      }
    }

    // parse_keyval
    method ParseKeyval(t: nat) returns (ok: bool)
      requires Valid() && t < |doc.tabs|
      modifies `tok, `doc, `given
      ensures ok == EntryMakes(text, old(tok), old(doc), t).Some?
      ensures ok ==> Valid() && old(given) <= given && Some((doc, tok)) == EntryMakes(text, old(tok), old(doc), t)
      decreases |text| - tok.ptr, 1
    {
      hide TokOk, AddValue, SubTable, NodeAt, After, KeyOf, Good;
      if doc.tabs[t].readonly { return false; }
      var key := tok;
      ok := Eat(Word, true);
      if !ok { return; }
      if tok.kind.Dot? {
        ok := ParseDotted(t, key);
        return;
      }
      if !tok.kind.Equal? { return false; }
      ok := Next(false);
      if !ok { return; }
      ok := ParseValue(t, key);
    }

    // The table that a dotted key goes on in, found or made.
    method FindOrCreate(t: nat, key: Token, name: string) returns (sub: Option<nat>)
      requires Valid() && t < |doc.tabs| && KeyToken(text, key) && KeyOf(RawText(text, key)) == Some(name)
      modifies `doc, `given
      ensures Valid() && old(given) <= given
      ensures sub.Some? <==> SubTable(old(doc), t, name).Some?
      ensures sub.Some? ==> SubTable(old(doc), t, name) == Some((doc, sub.value)) && sub.value < |doc.tabs|
    {
      hide TokOk, KeyOf, NewTable, TableIn, Linked, Rooted, Distinct, Keys, Explicit;
      sub := FindTable(doc, t, name);
      if sub.None? {
        sub := CreateKeytable(t, key);
      }
    }

    // A key that a dot follows: the rest of the entry goes to the table it names.
    method ParseDotted(t: nat, key: Token) returns (ok: bool)
      requires Valid() && t < |doc.tabs| && !doc.tabs[t].readonly && tok.kind.Dot? && KeyToken(text, key)
      modifies `tok, `doc, `given
      ensures var n := After(text, old(tok), true);
        && ok == (n.Some? && RestMakes(text, RawText(text, key), n.value, old(doc), t).Some?)
        && (ok ==> Valid() && old(given) <= given
                   && Some((doc, tok)) == RestMakes(text, RawText(text, key), n.value, old(doc), t))
      decreases |text| - tok.ptr, 0
    {
      hide TokOk, AddEntry, EntryAt, After, KeyOf, SubTable, Good, Explicit;
      ghost var raw := RawText(text, key);
      var name := NormalizeKey(text, key);
      DottedRefused(old(doc), t, raw);
      if name.None? { return false; }
      var sub := FindOrCreate(t, key, name.value);
      if sub.None? { return false; }
      ok := Next(true);
      if !ok { return; }
      ghost var e := EntryAt(text, tok);
      if e.Some? { DottedEntry(old(doc), t, raw, e.value.0.keys, e.value.0.value); }
      ok := ParseKeyval(sub.value);
    }

    // The three kinds of value, at the end of parse_keyval.
    method ParseValue(t: nat, key: Token) returns (ok: bool)
      requires Valid() && t < |doc.tabs| && !doc.tabs[t].readonly && KeyToken(text, key)
      modifies `tok, `doc, `given
      ensures ok == ValueMakes(text, RawText(text, key), old(tok), old(doc), t).Some?
      ensures ok ==>
                && Valid() && old(given) <= given
                && Some((doc, tok)) == ValueMakes(text, RawText(text, key), old(tok), old(doc), t)
      decreases |text| - tok.ptr, 2
    {
      hide TokOk, AddEntry, ItemsAt, EntriesAt, After, KeyOf, Good, Explicit;
      match tok.kind
      case Word => ok := ParseRawValue(t, key);
      case LBracket => ok := ParseListValue(t, key);
      case LBrace => ok := ParseDictValue(t, key);
      case _ => ok := false;
    }

    method ParseRawValue(t: nat, key: Token) returns (ok: bool)
      requires Valid() && t < |doc.tabs| && !doc.tabs[t].readonly && KeyToken(text, key) && tok.kind.Word?
      modifies `tok, `doc
      ensures ok == ValueMakes(text, RawText(text, key), old(tok), old(doc), t).Some?
      ensures ok ==> Valid() && Some((doc, tok)) == ValueMakes(text, RawText(text, key), old(tok), old(doc), t)
    {
      hide TokOk, AddEntry, CheckKey, After, KeyOf, Good, Explicit;
      SingleRefused(doc, t, RawText(text, key), Raw(RawText(text, tok)));
      var val := tok;
      ok := CreateKeyval(t, key, text[val.ptr..val.End()]);
      if !ok { return; }
      ok := Next(true);
    }

    method ParseListValue(t: nat, key: Token) returns (ok: bool)
      requires Valid() && t < |doc.tabs| && !doc.tabs[t].readonly && KeyToken(text, key) && tok.kind.LBracket?
      modifies `tok, `doc, `given
      ensures ok == ValueMakes(text, RawText(text, key), old(tok), old(doc), t).Some?
      ensures ok ==>
                && Valid() && old(given) <= given
                && Some((doc, tok)) == ValueMakes(text, RawText(text, key), old(tok), old(doc), t)
      decreases |text| - tok.ptr, 1
    {
      hide TokOk, AddEntry, AddNodes, CheckKey, ItemsAt, After, KeyOf, Good, Explicit;
      ghost var v := NodeAt(text, tok, true);
      if v.Some? { SingleRefused(doc, t, RawText(text, key), v.value.0); }
      var arr := CreateKeyarray(t, key, NoKind);
      if arr.None? { return false; }
      ok := ParseArray(arr.value);
    }

    method ParseDictValue(t: nat, key: Token) returns (ok: bool)
      requires Valid() && t < |doc.tabs| && !doc.tabs[t].readonly && KeyToken(text, key) && tok.kind.LBrace?
      modifies `tok, `doc, `given
      ensures ok == ValueMakes(text, RawText(text, key), old(tok), old(doc), t).Some?
      ensures ok ==>
                && Valid() && old(given) <= given
                && Some((doc, tok)) == ValueMakes(text, RawText(text, key), old(tok), old(doc), t)
      decreases |text| - tok.ptr, 1
    {
      hide TokOk, AddEntry, FillTable, NewTable, EntriesAt, After, KeyOf, Good, Explicit;
      ghost var v := NodeAt(text, tok, true);
      if v.Some? { SingleRefused(doc, t, RawText(text, key), v.value.0); }
      var sub := CreateKeytable(t, key);
      if sub.None? { return false; }
      ok := ParseInlineTable(sub.value);
    }

    // ---- headers

    // fill_tabpath
    method FillTabpath() returns (ok: bool)
      requires Valid()
      modifies `tok, `path, `last
      ensures var m := KeysAt(text, old(tok), []);
        && ok == (m.Some? && Names(m.value.0).Some?)
        && (ok ==> Valid() && tok == m.value.1 && Some(path) == Names(m.value.0)
                   && KeyToken(text, last) && RawText(text, last) == m.value.0[|m.value.0| - 1])
    {
      hide TokOk, Names, After, KeyOf, Explicit, Good;
      NoPath(doc);
      ghost var done: seq<string> := [];
      path, last := [], tok;
      while true
        invariant Valid() && 0 <= |path| <= MAX_DEPTH
        invariant Names(done) == Some(path)
        invariant KeysAt(text, tok, done) == KeysAt(text, old(tok), [])
        decreases MAX_DEPTH - |path|
      {
        ghost var made := KeysAt(text, tok, done);
        if |path| >= MAX_DEPTH { return false; }
        if !tok.kind.Word? { return false; }
        var key := NormalizeKey(text, tok);
        ghost var raw := RawText(text, tok);
        if key.None? {
          NamesRefused(done, raw);
          if made.Some? { NamesStuck(done + [raw], made.value.0); }
          return false;
        }
        NamesSnoc(done, raw);
        done, path, last := done + [raw], path + [key.value], tok;
        ok := Next(true);
        if !ok { return; }
        if tok.kind.RBracket? { return; }
        if !tok.kind.Dot? { return false; }
        ok := Next(true);
        if !ok { return; }
      }
    }

    // One round of the loop of walk_tabpath.
    method WalkStep(t: nat, key: string) returns (r: Option<nat>)
      requires Valid() && t < |doc.tabs|
      modifies `doc
      ensures Valid()
      ensures r.Some? <==> WalkInto(old(doc), t, key).Some?
      ensures r.Some? ==> r.value < |doc.tabs| && WalkInto(old(doc), t, key) == Some(Draft(doc, r.value))
    {
      hide TokOk, Rooted, Distinct;
      var f := FindKey(doc, t, key);
      match f
      case IsTab(u) =>
        r := Some(u);
      case IsArr(a) =>
        if !doc.arrs[a].kind.Tables? { return None; }
        if |doc.arrs[a].items| == 0 { return None; }
        var item := doc.arrs[a].items[|doc.arrs[a].items| - 1];
        assert Suits(doc.arrs[a].kind, item) && ItemLinked(doc, item);
        r := Some(item.tab);
      case IsVal(_) =>
        r := None;
      case NoKey =>
        AddTabKeeps(doc, t, key, true);
        ExplicitStays(doc, AddTab(doc, t, key, true), given);
        r := Some(|doc.tabs|);
        doc := AddTab(doc, t, key, true);
        assert Good(doc);
    }

    // walk_tabpath
    method WalkTabpath() returns (ok: bool)
      requires Valid()
      modifies `doc, `curtab
      ensures Valid()
      ensures ok <==> Walk(old(doc), path).Some?
      ensures ok ==> Walk(old(doc), path) == Some(Draft(doc, curtab))
    {
      hide TokOk, Walk, WalkInto, LaterDraft, Explicit, Good;
      NoPath(doc);
      var cur: nat := ROOT;
      for i := 0 to |path|
        invariant Valid() && cur < |doc.tabs|
        invariant Walk(old(doc), path[..i]) == Some(Draft(doc, cur))
      {
        assert path[..i + 1] == path[..i] + [path[i]];
        WalkFurther(old(doc), path[..i], path[i]);
        var next := WalkStep(cur, path[i]);
        if next.None? {
          WalkStuck(old(doc), path, i + 1);
          return false;
        }
        cur := next.value;
      }
      assert path[..|path|] == path;
      curtab := cur;
      return true;
    }

    // The table that a header opens, in parse_select: [x.y.z], and [[x.y.z]].
    method OpenTable(z: Token) returns (ok: bool)
      requires Valid() && KeyToken(text, z) && KeyOf(RawText(text, z)).Some?
      modifies `doc, `curtab, `given
      ensures ok <==> Open(old(doc), old(curtab), false, KeyOf(RawText(text, z)).value).Some?
      ensures ok ==>
                && Valid() && old(given) <= given
                && Open(old(doc), old(curtab), false, KeyOf(RawText(text, z)).value) == Some(Draft(doc, curtab))
    {
      hide TokOk, KeyOf, NewTable, Good;
      var r := CreateKeytable(curtab, z);
      if r.None? { return false; }
      curtab := r.value;
      return true;
    }

    method OpenItem(z: Token) returns (ok: bool)
      requires Valid() && KeyToken(text, z) && KeyOf(RawText(text, z)).Some?
      modifies `doc, `curtab
      ensures ok <==> Open(old(doc), old(curtab), true, KeyOf(RawText(text, z)).value).Some?
      ensures ok ==>
                && Valid()
                && Open(old(doc), old(curtab), true, KeyOf(RawText(text, z)).value) == Some(Draft(doc, curtab))
    {
      hide TokOk, KeyOf, Linked, Rooted, Distinct, Grows, ArrayIn, CheckKey;
      ok := false;
      var zstr := NormalizeKey(text, z);
      if zstr.None? { return; }
      var arr := FindArray(doc, curtab, zstr.value);
      if arr.None? {
        arr := CreateKeyarray(curtab, z, Tables);
        if arr.None? { return; }
      }
      if !doc.arrs[arr.value].kind.Tables? { return; }
      assert TableArray(old(doc), curtab, zstr.value) == Some((doc, arr.value));
      AddTabItemKeeps(doc, arr.value, "__anon__");
      ExplicitStays(doc, AddTabItem(doc, arr.value, "__anon__"), given);
      curtab := |doc.tabs|;
      doc := AddTabItem(doc, arr.value, "__anon__");
      assert Good(doc);
      return true;
    }

    // The brackets that begin and end a header, in parse_select; two of them must
    // stand side by side.
    method OpenBrackets() returns (ok: bool, double: bool)
      requires Reading() && tok.kind.LBracket?
      modifies `tok
      ensures double == Doubled(text, old(tok), '[')
      ensures ok == Inner(text, old(tok), double).Some?
      ensures ok ==> Reading() && Some(tok) == Inner(text, old(tok), double)
    {
      hide TokOk, After;
      double := tok.ptr + 1 < |text| && text[tok.ptr + 1] == '[';
      if double { BracketNext(text, tok, true); }
      ok := Eat(LBracket, true);
      if ok && double {
        assert tok.kind.LBracket?;
        ok := Eat(LBracket, true);
      }
    }

    method CloseBrackets(double: bool) returns (ok: bool)
      requires Reading()
      modifies `tok
      ensures ok == Outer(text, old(tok), double).Some?
      ensures ok ==> Reading() && Some(tok) == Outer(text, old(tok), double)
    {
      hide TokOk, After;
      if !tok.kind.RBracket? { return false; }
      if double {
        if !(tok.ptr + 1 < |text| && text[tok.ptr + 1] == ']') { return false; }
        BracketNext(text, tok, true);
        ok := Eat(RBracket, true);
        if !ok { return; }
      }
      ok := Eat(RBracket, true);
      ok := ok && tok.kind.Newline?;
    }

    // From the first key of a header to its last bracket but the outer ones.
    method SelectTable(double: bool) returns (ok: bool)
      requires Valid()
      modifies this
      ensures ok == TableMakes(text, old(tok), old(doc), double).Some?
      ensures ok ==>
                && Valid() && old(given) <= given
                && Some((Draft(doc, curtab), tok)) == TableMakes(text, old(tok), old(doc), double)
    {
      hide TokOk, KeyOf, Names, Walk, Open, KeysAt, LaterDraft, Explicit, Good;
      ghost var keys := if KeysAt(text, tok, []).Some? then KeysAt(text, tok, []).value.0 else [];
      ok := FillTabpath();
      if !ok { return; }
      var z := last;
      path := path[..|path| - 1];
      ok := WalkTabpath();
      if !ok { return; }
      SelectOpens(old(doc), double, keys);
      if double {
        ok := OpenItem(z);
      } else {
        ok := OpenTable(z);
      }
    }

    // parse_select
    method ParseSelect() returns (ok: bool)
      requires Valid() && tok.kind.LBracket?
      modifies this
      ensures ok == SelectMakes(text, old(tok), old(doc)).Some?
      ensures ok ==>
                && Valid() && old(given) <= given
                && Some((Draft(doc, curtab), tok)) == SelectMakes(text, old(tok), old(doc))
    {
      hide TokOk, KeyOf, KeysAt, Inner, Outer, AddSelect, Explicit, Good;
      var double;
      ok, double := OpenBrackets();
      if !ok { return; }
      ok := SelectTable(double);
      if !ok { return; }
      ok := CloseBrackets(double);
    }

    // ---- documents

    // One round of the loop of toml_parse.
    method ParseLine() returns (ok: bool)
      requires Valid() && !tok.eof
      modifies this
      ensures ok == LineMakes(text, old(tok), Draft(old(doc), old(curtab))).Some?
      ensures ok ==>
                && Valid() && old(given) <= given
                && Some((Draft(doc, curtab), tok)) == LineMakes(text, old(tok), Draft(old(doc), old(curtab)))
    {
      hide TokOk, AddEntry, AddSelect, EntryAt, SelectAt, After, Good, KeyOf;
      match tok.kind
      case Newline =>
        ok := Next(true);
      case Word =>
        ok := ParseKeyval(curtab);
        if !ok { return; }
        if !tok.kind.Newline? { return false; }
        ok := Eat(Newline, true);
      case LBracket =>
        ok := ParseSelect();
      case _ => return false;
    }
  }

  lemma NothingRead(text: string, tok: Token)
    requires tok == START
    ensures Fit(text, tok) && LinesAt(text, tok, []) == Parse(text)
    ensures Build([]) == Some(Draft(EMPTY, ROOT))
  {
    hide TokOk, LinesAt, Good;
    StartIsFit(text);
  }

  lemma AllRead(text: string, tok: Token, done: seq<Line>, s: Draft)
    requires Fit(text, tok) && tok.eof && LinesAt(text, tok, done) == Parse(text) && Build(done) == Some(s)
    ensures Document(text) == Some(s.doc)
  {
    hide TokOk, LineAt, Build;
  }

  // How a round that fails, and one that does not, continue.
  lemma LineRound(text: string, tok: Token, done: seq<Line>, s: Draft)
    requires Fit(text, tok) && !tok.eof && LinesAt(text, tok, done) == Parse(text) && Build(done) == Some(s)
    ensures match LineMakes(text, tok, s)
            case None => Document(text) == None
            case Some((s', b)) =>
              && LineAt(text, tok).Some? && Fit(text, b)
              && var all := done + [LineAt(text, tok).value.0];
              && LinesAt(text, b, all) == Parse(text) && Build(all) == Some(s')
              && (b.End() > tok.End() || (b.End() == tok.End() && Rank(b) < Rank(tok)))
  {
    hide TokOk, LineAt, AddLine, Good;
    var line, made := LineAt(text, tok), LinesAt(text, tok, done);
    if line.Some? {
      LinesSnoc(done, line.value.0);
      if made.Some? && Build(done + [line.value.0]).None? { BuildStuck(done + [line.value.0], made.value); }
    }
  }

  // toml_parse
  method TomlParse(text: string) returns (r: Option<Doc>)
    ensures r == Document(text) && Means(text, r)
    ensures r.Some? ==> Good(r.value) && Tree(r.value)
  {
    hide TokOk, LineMakes, LinesAt, LineAt, Parse, Build, Document, Means, Good, Tree;
    DocumentMeans(text);
    var ctx := new Context(text);
    ghost var done: seq<Line> := [];
    NothingRead(text, ctx.tok);
    while !ctx.tok.eof
      invariant ctx.Valid() && fresh(ctx) && ctx.text == text
      invariant LinesAt(text, ctx.tok, done) == Parse(text)
      invariant Build(done) == Some(Draft(ctx.doc, ctx.curtab))
      decreases |text| - ctx.tok.End(), Rank(ctx.tok)
    {
      LineRound(text, ctx.tok, done, Draft(ctx.doc, ctx.curtab));
      done := done + if LineAt(text, ctx.tok).Some? then [LineAt(text, ctx.tok).value.0] else [];
      var ok := ctx.ParseLine();
      if !ok { return None; }
    }
    AllRead(text, ctx.tok, done, Draft(ctx.doc, ctx.curtab));
    r := Some(ctx.doc);
  }
}
