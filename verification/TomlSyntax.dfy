// The syntax of a TOML document: its trees, and the signs that spell them.

module TomlSyntax {
  import opened Tokens

  // A value: a string, number, date or boolean as it stands in the text, an
  // array, or an inline table.  A comma may follow the last part.
  datatype Node =
    | Raw(val: string)
    | List(items: seq<Node>, comma: bool)
    | Dict(entries: seq<Entry>, comma: bool)

  // key . key = value, the keys as they are spelled.
  datatype Entry = Entry(keys: seq<string>, value: Node)

  // An empty line, an entry, [a.b] or [[a.b]].
  datatype Line = Blank | Pair(entry: Entry) | Select(double: bool, keys: seq<string>)

  // How many keys a header may have.
  const MAX_DEPTH: nat := 10

  // ---- trees there is a spelling for

  // An entry has a key, and a comma follows nothing but a part; of the two ways
  // to write an empty list, the one with the comma counts.
  ghost predicate Tidy(v: Node)
    decreases v
  {
    match v
    case Raw(_) => true
    case List(items, comma) => TidyItems(items, comma)
    case Dict(entries, comma) => TidyEntries(entries, comma)
  }

  ghost predicate TidyItems(items: seq<Node>, comma: bool)
    decreases items
  {
    if |items| == 0 then comma
    else Tidy(items[0]) && (|items| == 1 || TidyItems(items[1..], comma))
  }

  ghost predicate TidyEntries(entries: seq<Entry>, comma: bool)
    decreases entries
  {
    if |entries| == 0 then comma
    else TidyEntry(entries[0]) && (|entries| == 1 || TidyEntries(entries[1..], comma))
  }

  ghost predicate TidyEntry(e: Entry)
    decreases e
  {
    |e.keys| > 0 && Tidy(e.value)
  }

  ghost predicate TidyLine(line: Line) {
    match line
    case Blank => true
    case Pair(e) => TidyEntry(e)
    case Select(_, keys) => 0 < |keys| <= MAX_DEPTH
  }

  // Nothing but the end of its line follows a header.
  ghost predicate Separated(lines: seq<Line>) {
    forall i :: 0 < i < |lines| && lines[i - 1].Select? ==> lines[i].Blank?
  }

  // ---- how a tree is spelled

  datatype Glyph = Punct(kind: Kind) | Spelt(raw: string)

  // A glyph, whether newlines may stand before it, whether a dot behind it is a
  // mark of its own, and whether the same bracket must stand right behind it.
  datatype Sign = Sign(glyph: Glyph, loose: bool, dot: bool, twin: bool)

  function Sole(kind: Kind, loose: bool, dot: bool): Sign { Sign(Punct(kind), loose, dot, false) }
  function Key(raw: string): Sign { Sign(Spelt(raw), false, true, false) }

  const ITEM_COMMA := Sole(Comma, true, false)
  const LIST_END := Sole(RBracket, true, true)
  const ENTRY_COMMA := Sole(Comma, false, true)
  const DICT_END := Sole(RBrace, false, true)
  const LINE_END := Sole(Newline, false, true)

  // A dot is part of a number where a value may stand, and a mark behind keys
  // and closed brackets.  Newlines may stand between the parts of an array.
  function Show(v: Node, loose: bool, dot: bool): (s: seq<Sign>)
    ensures |s| > 0
    decreases v
  {
    match v
    case Raw(val) => [Sign(Spelt(val), loose, dot, false)]
    case List(items, comma) => [Sole(LBracket, loose, false)] + Items(items, comma) + [LIST_END]
    case Dict(entries, comma) => [Sole(LBrace, loose, true)] + Entries(entries, comma) + [DICT_END]
  }

  function Items(items: seq<Node>, comma: bool): seq<Sign>
    decreases items
  {
    if |items| == 0 then []
    else
      Show(items[0], true, false)
      + (if |items| > 1 || comma then [ITEM_COMMA] else [])
      + Items(items[1..], comma)
  }

  function Entries(entries: seq<Entry>, comma: bool): seq<Sign>
    decreases entries
  {
    if |entries| == 0 then []
    else
      ShowEntry(entries[0])
      + (if |entries| > 1 || comma then [ENTRY_COMMA] else [])
      + Entries(entries[1..], comma)
  }

  function ShowEntry(e: Entry): seq<Sign>
    decreases e
  {
    Dotted(e.keys) + ([Sole(Equal, false, false)] + Show(e.value, false, true))
  }

  function Dotted(keys: seq<string>): seq<Sign> {
    if |keys| == 0 then []
    else if |keys| == 1 then [Key(keys[0])]
    else [Key(keys[0]), Sole(Dot, false, true)] + Dotted(keys[1..])
  }

  // A part of a list at its head, and what comes then.
  lemma ItemsCons(v: Node, more: seq<Node>, comma: bool)
    ensures Items([v] + more, comma) + [LIST_END] ==
            Show(v, true, false) +
            ((if |more| > 0 || comma then [ITEM_COMMA] else []) + (Items(more, comma) + [LIST_END]))
  {
    var all := [v] + more;
    assert all[0] == v && all[1..] == more;
  }

  lemma EntriesCons(e: Entry, more: seq<Entry>, comma: bool)
    ensures Entries([e] + more, comma) + [DICT_END] ==
            ShowEntry(e) + ((if |more| > 0 || comma then [ENTRY_COMMA] else []) + (Entries(more, comma) + [DICT_END]))
  {
    var all := [e] + more;
    assert all[0] == e && all[1..] == more;
  }

  lemma NoParts(comma: bool)
    ensures Items([], comma) + [LIST_END] == [LIST_END] && Entries([], comma) + [DICT_END] == [DICT_END]
  {}

  lemma TidyCons(v: Node, more: seq<Node>, comma: bool)
    ensures TidyItems([v] + more, comma) <==> Tidy(v) && (|more| == 0 || TidyItems(more, comma))
  {
    var all := [v] + more;
    assert all[0] == v && all[1..] == more;
  }

  lemma TidyEntryCons(e: Entry, more: seq<Entry>, comma: bool)
    ensures TidyEntries([e] + more, comma) <==> TidyEntry(e) && (|more| == 0 || TidyEntries(more, comma))
  {
    var all := [e] + more;
    assert all[0] == e && all[1..] == more;
  }

  // One bracket of a header, or two side by side.
  function Brackets(kind: Kind, double: bool): seq<Sign> {
    if double then [Sign(Punct(kind), false, true, true), Sole(kind, false, true)] else [Sole(kind, false, true)]
  }

  function ShowLine(line: Line): (s: seq<Sign>)
    ensures |s| > 0
  {
    match line
    case Blank => [LINE_END]
    case Pair(e) => ShowEntry(e) + [LINE_END]
    case Select(double, keys) => Brackets(LBracket, double) + (Dotted(keys) + Brackets(RBracket, double))
  }
}
