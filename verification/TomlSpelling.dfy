// The lines that the grammar gives are the ones that the tokens of the text
// spell, and there are no others.

module TomlSpelling {
  import opened Wrappers
  import opened Tokens
  import opened TomlKeys
  import opened TomlSyntax
  import opened TomlGrammar

  function GlyphOf(text: string, tok: Token): Glyph
    requires tok.End() <= |text|
  {
    if tok.kind.Word? then Spelt(RawText(text, tok)) else Punct(tok.kind)
  }

  // The token behind a sign, if that is what stands at a token.
  ghost function Sees(text: string, tok: Token, sign: Sign): (r: Option<Token>)
    requires Fit(text, tok)
    ensures r.Some? ==> Fit(text, r.value)
  {
    match if sign.loose then PastNewlines(text, tok, false) else Some(tok)
    case None => None
    case Some(a) =>
      if GlyphOf(text, a) != sign.glyph then None
      else if sign.twin && !Doubled(text, a, if a.kind.LBracket? then '[' else ']') then None
      else After(text, a, sign.dot)
  }

  // The token behind some signs, if they are what the text spells from a token on.
  ghost function Reads(text: string, tok: Token, signs: seq<Sign>): (r: Option<Token>)
    requires Fit(text, tok)
    ensures r.Some? ==> Fit(text, r.value)
    decreases signs
  {
    if |signs| == 0 then Some(tok)
    else match Sees(text, tok, signs[0])
      case None => None
      case Some(n) => Reads(text, n, signs[1..])
  }

  // From a token to the end the text spells these lines.
  ghost predicate Written(text: string, tok: Token, lines: seq<Line>)
    requires Fit(text, tok)
    decreases lines
  {
    if |lines| == 0 then tok.eof
    else
      var n := Reads(text, tok, ShowLine(lines[0]));
      !tok.eof && n.Some? && Written(text, n.value, lines[1..])
  }

  lemma {:induction false} ReadsAppend(text: string, tok: Token, s: seq<Sign>, t: seq<Sign>)
    requires Fit(text, tok)
    ensures Reads(text, tok, s + t) ==
            if Reads(text, tok, s).None? then None else Reads(text, Reads(text, tok, s).value, t)
    decreases s
  {
    hide Sees;
    if |s| == 0 {
      assert s + t == t;
    } else {
      assert (s + t)[1..] == s[1..] + t;
      if Sees(text, tok, s[0]).Some? { ReadsAppend(text, Sees(text, tok, s[0]).value, s[1..], t); }
    }
  }

  lemma ReadsOne(text: string, tok: Token, sign: Sign)
    requires Fit(text, tok)
    ensures Reads(text, tok, [sign]) == Sees(text, tok, sign)
  {
    hide Sees;
    if Sees(text, tok, sign).Some? {
      var n := Sees(text, tok, sign).value;
      assert [sign][1..] == [] && Reads(text, n, []) == Some(n);
    }
  }

  lemma ReadsCons(text: string, tok: Token, sign: Sign, t: seq<Sign>)
    requires Fit(text, tok)
    ensures Reads(text, tok, [sign] + t) ==
            if Sees(text, tok, sign).None? then None else Reads(text, Sees(text, tok, sign).value, t)
  {
    hide Sees;
    ReadsAppend(text, tok, [sign], t);
    ReadsOne(text, tok, sign);
  }

  // Newlines before a value.
  lemma ReadsLoose(text: string, tok: Token, v: Node, dot: bool)
    requires Fit(text, tok)
    ensures var n := PastNewlines(text, tok, false);
      Reads(text, tok, Show(v, true, dot)) == if n.None? then None else Reads(text, n.value, Show(v, false, dot))
  {
    hide PastNewlines, Items, Entries, Reads, After;
    var n := PastNewlines(text, tok, false);
    var s, t := Show(v, true, dot), Show(v, false, dot);
    assert s == [s[0]] + s[1..] && t == [t[0]] + t[1..] && s[1..] == t[1..];
    ReadsCons(text, tok, s[0], s[1..]);
    if n.Some? { ReadsCons(text, n.value, t[0], t[1..]); }
  }

  // ---- what the text spells is read

  // A value that the text spells is the one that the grammar gives.
  lemma {:induction false} NodeRead(text: string, tok: Token, v: Node, dot: bool)
    requires Fit(text, tok) && Tidy(v) && Reads(text, tok, Show(v, false, dot)).Some?
    ensures NodeAt(text, tok, dot) == Some((v, Reads(text, tok, Show(v, false, dot)).value))
    decreases v, 0
  {
    hide After, Reads, Items, Entries, ItemsAt, EntriesAt, TidyItems, TidyEntries;
    var c := Reads(text, tok, Show(v, false, dot)).value;
    match v
    case Raw(val) =>
      ReadsOne(text, tok, Sign(Spelt(val), false, dot, false));
    case List(items, comma) =>
      var open := Sole(LBracket, false, false);
      assert Show(v, false, dot) == [open] + (Items(items, comma) + [LIST_END]);
      ReadsCons(text, tok, open, Items(items, comma) + [LIST_END]);
      var b := ItemsRead(text, After(text, tok, false).value, [], items, comma);
      assert [] + items == items;
    case Dict(entries, comma) =>
      var open := Sole(LBrace, false, true);
      assert Show(v, false, dot) == [open] + (Entries(entries, comma) + [DICT_END]);
      ReadsCons(text, tok, open, Entries(entries, comma) + [DICT_END]);
      var b := EntriesRead(text, After(text, tok, true).value, [], entries, comma);
      assert [] + entries == entries;
  }

  // The items of an array up to its end, behind those already read.
  lemma {:induction false} ItemsRead(text: string, tok: Token, done: seq<Node>, rest: seq<Node>, comma: bool)
    returns (b: Token)
    requires Fit(text, tok) && TidyItems(rest, comma) && Reads(text, tok, Items(rest, comma) + [LIST_END]).Some?
    ensures ItemsAt(text, tok, done) == Some((done + rest, comma, b)) && b.kind.RBracket?
    ensures After(text, b, true) == Reads(text, tok, Items(rest, comma) + [LIST_END])
    decreases rest, 1
  {
    hide After, PastNewlines, Reads, NodeAt, Show, Tidy;
    if |rest| == 0 {
      assert Items(rest, comma) + [LIST_END] == [LIST_END] && done + rest == done;
      ReadsOne(text, tok, LIST_END);
      b := PastNewlines(text, tok, false).value;
    } else {
      var v, tail := rest[0], Items(rest[1..], comma) + [LIST_END];
      var sep := if |rest| > 1 || comma then [ITEM_COMMA] else [];
      assert Items(rest, comma) + [LIST_END] == Show(v, true, false) + (sep + tail);
      ReadsAppend(text, tok, Show(v, true, false), sep + tail);
      ReadsLoose(text, tok, v, false);
      var n := PastNewlines(text, tok, false).value;
      NodeRead(text, n, v, false);
      var m := NodeAt(text, n, false).value.1;
      assert done + [v] + rest[1..] == done + rest;
      if |rest| > 1 || comma {
        ReadsCons(text, m, ITEM_COMMA, tail);
        var j := After(text, PastNewlines(text, m, false).value, false).value;
        b := ItemsRead(text, j, done + [v], rest[1..], comma);
      } else {
        assert sep + tail == [LIST_END] && rest == [v];
        ReadsOne(text, m, LIST_END);
        b := PastNewlines(text, m, false).value;
      }
    }
  }

  lemma {:induction false} EntriesRead(text: string, tok: Token, done: seq<Entry>, rest: seq<Entry>, comma: bool)
    returns (b: Token)
    requires Fit(text, tok) && TidyEntries(rest, comma) && Reads(text, tok, Entries(rest, comma) + [DICT_END]).Some?
    ensures EntriesAt(text, tok, done) == Some((done + rest, comma, b)) && b.kind.RBrace?
    ensures After(text, b, true) == Reads(text, tok, Entries(rest, comma) + [DICT_END])
    decreases rest, 1
  {
    hide After, Reads, EntryAt, ShowEntry;
    if |rest| == 0 {
      assert Entries(rest, comma) + [DICT_END] == [DICT_END] && done + rest == done;
      ReadsOne(text, tok, DICT_END);
      b := tok;
    } else {
      var e, tail := rest[0], Entries(rest[1..], comma) + [DICT_END];
      var sep := if |rest| > 1 || comma then [ENTRY_COMMA] else [];
      assert Entries(rest, comma) + [DICT_END] == ShowEntry(e) + (sep + tail);
      ReadsAppend(text, tok, ShowEntry(e), sep + tail);
      EntryRead(text, tok, e.keys, e.value);
      var m := EntryAt(text, tok).value.1;
      assert done + [e] + rest[1..] == done + rest;
      if |rest| > 1 || comma {
        ReadsCons(text, m, ENTRY_COMMA, tail);
        b := EntriesRead(text, After(text, m, true).value, done + [e], rest[1..], comma);
      } else {
        assert sep + tail == [DICT_END] && rest == [e];
        ReadsOne(text, m, DICT_END);
        b := m;
      }
    }
  }

  lemma {:induction false} EntryRead(text: string, tok: Token, keys: seq<string>, v: Node)
    requires Fit(text, tok) && |keys| > 0 && Tidy(v) && Reads(text, tok, ShowEntry(Entry(keys, v))).Some?
    ensures EntryAt(text, tok) == Some((Entry(keys, v), Reads(text, tok, ShowEntry(Entry(keys, v))).value))
    decreases v, 1, keys
  {
    hide After, Reads, NodeAt, Show, Tidy;
    var key := Key(keys[0]);
    var n := After(text, tok, true);
    if |keys| == 1 {
      var tail := [Sole(Equal, false, false)] + Show(v, false, true);
      assert ShowEntry(Entry(keys, v)) == [key] + tail && keys == [keys[0]];
      ReadsCons(text, tok, key, tail);
      ReadsCons(text, n.value, Sole(Equal, false, false), Show(v, false, true));
      NodeRead(text, After(text, n.value, false).value, v, true);
    } else {
      var tail := ShowEntry(Entry(keys[1..], v));
      assert ShowEntry(Entry(keys, v)) == [key] + ([Sole(Dot, false, true)] + tail);
      ReadsCons(text, tok, key, [Sole(Dot, false, true)] + tail);
      ReadsCons(text, n.value, Sole(Dot, false, true), tail);
      EntryRead(text, After(text, n.value, true).value, keys[1..], v);
      assert [keys[0]] + keys[1..] == keys;
    }
  }

  lemma {:induction false} KeysRead(text: string, tok: Token, done: seq<string>, rest: seq<string>)
    requires Fit(text, tok) && 0 < |rest| && |done| + |rest| <= MAX_DEPTH
    requires Reads(text, tok, Dotted(rest)).Some? && Reads(text, tok, Dotted(rest)).value.kind.RBracket?
    ensures KeysAt(text, tok, done) == Some((done + rest, Reads(text, tok, Dotted(rest)).value))
    decreases rest
  {
    hide After, Reads;
    var key := Key(rest[0]);
    if |rest| == 1 {
      assert Dotted(rest) == [key] && rest == [rest[0]];
      ReadsOne(text, tok, key);
    } else {
      var tail := Dotted(rest[1..]);
      assert Dotted(rest) == [key] + ([Sole(Dot, false, true)] + tail);
      ReadsCons(text, tok, key, [Sole(Dot, false, true)] + tail);
      var n := After(text, tok, true).value;
      ReadsCons(text, n, Sole(Dot, false, true), tail);
      KeysRead(text, After(text, n, true).value, done + [rest[0]], rest[1..]);
      assert done + [rest[0]] + rest[1..] == done + rest;
    }
  }

  // One bracket, or two side by side.
  lemma BracketsRead(text: string, tok: Token, kind: Kind, double: bool)
    requires Fit(text, tok) && (kind.LBracket? || kind.RBracket?)
    ensures Reads(text, tok, Brackets(kind, double)) ==
            if tok.kind != kind || (double && !Doubled(text, tok, if kind.LBracket? then '[' else ']')) then None
            else Inner(text, tok, double)
  {
    hide After, Reads;
    var first, second := Sign(Punct(kind), false, true, true), Sole(kind, false, true);
    if double {
      assert Brackets(kind, true) == [first] + [second];
      ReadsCons(text, tok, first, [second]);
      if Sees(text, tok, first).Some? {
        BracketNext(text, tok, true);
        ReadsOne(text, After(text, tok, true).value, second);
      }
    } else {
      ReadsOne(text, tok, second);
    }
  }

  lemma SelectRead(text: string, tok: Token, double: bool, keys: seq<string>)
    requires Fit(text, tok) && 0 < |keys| <= MAX_DEPTH
    requires Reads(text, tok, ShowLine(Select(double, keys))).Some?
    requires Reads(text, tok, ShowLine(Select(double, keys))).value.kind.Newline?
    ensures tok.kind.LBracket?
    ensures SelectAt(text, tok) == Some((double, keys, Reads(text, tok, ShowLine(Select(double, keys))).value))
  {
    hide After, Reads, KeysAt, Inner, Dotted, Brackets;
    var rest := Dotted(keys) + Brackets(RBracket, double);
    ReadsAppend(text, tok, Brackets(LBracket, double), rest);
    BracketsRead(text, tok, LBracket, double);
    var n := Inner(text, tok, double).value;
    ReadsAppend(text, n, Dotted(keys), Brackets(RBracket, double));
    var m := Reads(text, n, Dotted(keys)).value;
    BracketsRead(text, m, RBracket, double);
    KeysRead(text, n, [], keys);
    assert [] + keys == keys;
    if !double && Doubled(text, tok, '[') {
      OneBracket(text, tok, keys);
    }
  }

  // A single bracket before keys is not doubled.
  lemma OneBracket(text: string, tok: Token, keys: seq<string>)
    requires Fit(text, tok) && |keys| > 0 && Doubled(text, tok, '[') && Inner(text, tok, false).Some?
    ensures Reads(text, Inner(text, tok, false).value, Dotted(keys)).None?
  {
    hide After;
    BracketNext(text, tok, true);
  }

  lemma LineRead(text: string, tok: Token, line: Line)
    requires Fit(text, tok) && !tok.eof && TidyLine(line) && Reads(text, tok, ShowLine(line)).Some?
    requires line.Select? ==> Reads(text, tok, ShowLine(line)).value.kind.Newline?
    ensures LineAt(text, tok) == Some((line, Reads(text, tok, ShowLine(line)).value))
  {
    hide After, Reads, EntryAt, SelectAt, ShowEntry, Tidy;
    match line
    case Blank =>
      ReadsOne(text, tok, LINE_END);
    case Pair(e) =>
      ReadsAppend(text, tok, ShowEntry(e), [LINE_END]);
      EntryRead(text, tok, e.keys, e.value);
      ReadsOne(text, Reads(text, tok, ShowEntry(e)).value, LINE_END);
    case Select(double, keys) =>
      SelectRead(text, tok, double, keys);
  }

  lemma {:induction false} LinesRead(text: string, tok: Token, done: seq<Line>, rest: seq<Line>)
    requires Fit(text, tok) && Written(text, tok, rest) && Separated(rest) && (tok.eof ==> tok.kind.Newline?)
    requires forall i :: 0 <= i < |rest| ==> TidyLine(rest[i])
    ensures LinesAt(text, tok, done) == Some(done + rest)
    decreases rest
  {
    hide Reads, LineAt, ShowLine, TidyLine;
    if |rest| == 0 {
      assert done + rest == done;
    } else {
      var n := Reads(text, tok, ShowLine(rest[0])).value;
      ReadsEnd(text, tok, ShowLine(rest[0]));
      if rest[0].Select? && |rest| > 1 { BlankStarts(text, n); }
      LineRead(text, tok, rest[0]);
      LinesRead(text, n, done + [rest[0]], rest[1..]);
      assert done + [rest[0]] + rest[1..] == done + rest;
    }
  }

  lemma BlankStarts(text: string, tok: Token)
    requires Fit(text, tok) && Reads(text, tok, ShowLine(Blank)).Some?
    ensures tok.kind.Newline?
  {
    ReadsOne(text, tok, LINE_END);
  }

  // A token read to is the end only in the way that ends are.
  lemma {:induction false} ReadsEnd(text: string, tok: Token, signs: seq<Sign>)
    requires Fit(text, tok) && |signs| > 0 && Reads(text, tok, signs).Some?
    ensures var b := Reads(text, tok, signs).value; b.eof ==> b.kind.Newline? && b.ptr == |text|
    decreases signs
  {
    hide After;
    if |signs| > 1 { ReadsEnd(text, Sees(text, tok, signs[0]).value, signs[1..]); }
  }

  // ---- what is read is what the text spells

  lemma {:induction false} NodeSpelled(text: string, tok: Token, dot: bool)
    requires Fit(text, tok) && NodeAt(text, tok, dot).Some?
    ensures var (v, b) := NodeAt(text, tok, dot).value;
      Tidy(v) && Reads(text, tok, Show(v, false, dot)) == Some(b)
    decreases |text| - tok.ptr, 0
  {
    hide After, Reads, Items, Entries, ItemsAt, EntriesAt, TidyItems, TidyEntries;
    var (v, b) := NodeAt(text, tok, dot).value;
    match v
    case Raw(val) =>
      ReadsOne(text, tok, Sign(Spelt(val), false, dot, false));
    case List(items, comma) =>
      var open, n := Sole(LBracket, false, false), After(text, tok, false).value;
      var rest := ItemsSpelled(text, n, []);
      assert [] + rest == rest;
      assert Show(v, false, dot) == [open] + (Items(items, comma) + [LIST_END]);
      ReadsCons(text, tok, open, Items(items, comma) + [LIST_END]);
    case Dict(entries, comma) =>
      var open, n := Sole(LBrace, false, true), After(text, tok, true).value;
      var rest := EntriesSpelled(text, n, []);
      assert [] + rest == rest;
      assert Show(v, false, dot) == [open] + (Entries(entries, comma) + [DICT_END]);
      ReadsCons(text, tok, open, Entries(entries, comma) + [DICT_END]);
  }

  // What is spelled behind the items already read.
  lemma {:induction false} ItemsSpelled(text: string, tok: Token, done: seq<Node>) returns (rest: seq<Node>)
    requires Fit(text, tok) && ItemsAt(text, tok, done).Some? && ItemsAt(text, tok, done).value.2.kind.RBracket?
    ensures var (items, comma, b) := ItemsAt(text, tok, done).value;
      && items == done + rest && TidyItems(rest, comma)
      && Reads(text, tok, Items(rest, comma) + [LIST_END]) == After(text, b, true)
    decreases |text| - tok.ptr, 1
  {
    hide After, PastNewlines, Reads, NodeAt, Show, Tidy, Items;
    var (items, comma, b) := ItemsAt(text, tok, done).value;
    var n := PastNewlines(text, tok, false).value;
    NoParts(comma);
    if n.kind.RBracket? {
      rest := [];
      assert done + rest == done;
      ReadsOne(text, tok, LIST_END);
    } else {
      var (v, m) := NodeAt(text, n, false).value;
      var k := PastNewlines(text, m, false).value;
      NodeSpelled(text, n, false);
      ReadsLoose(text, tok, v, false);
      var more: seq<Node> := [];
      if k.kind.Comma? {
        more := ItemsSpelled(text, After(text, k, false).value, done + [v]);
      }
      rest := [v] + more;
      assert done + [v] + more == done + rest;
      TidyCons(v, more, comma);
      ItemJoins(text, tok, v, m, more, comma);
    }
  }

  // An item and what follows it, read in turn.
  lemma ItemJoins(text: string, tok: Token, v: Node, m: Token, more: seq<Node>, comma: bool)
    requires Fit(text, tok) && Reads(text, tok, Show(v, true, false)) == Some(m)
    ensures Fit(text, m)
    ensures Reads(text, tok, Items([v] + more, comma) + [LIST_END]) ==
            if |more| == 0 && !comma then Sees(text, m, LIST_END)
            else if Sees(text, m, ITEM_COMMA).None? then None
            else Reads(text, Sees(text, m, ITEM_COMMA).value, Items(more, comma) + [LIST_END])
  {
    hide Sees, Reads, Show, Items;
    var tail := Items(more, comma) + [LIST_END];
    ItemsCons(v, more, comma);
    if |more| == 0 && !comma {
      NoParts(comma);
      assert [] + tail == [LIST_END];
      ReadsAppend(text, tok, Show(v, true, false), [LIST_END]);
      ReadsOne(text, m, LIST_END);
    } else {
      ReadsAppend(text, tok, Show(v, true, false), [ITEM_COMMA] + tail);
      ReadsCons(text, m, ITEM_COMMA, tail);
    }
  }

  lemma {:induction false} EntriesSpelled(text: string, tok: Token, done: seq<Entry>) returns (rest: seq<Entry>)
    requires Fit(text, tok) && EntriesAt(text, tok, done).Some? && EntriesAt(text, tok, done).value.2.kind.RBrace?
    ensures var (entries, comma, b) := EntriesAt(text, tok, done).value;
      && entries == done + rest && TidyEntries(rest, comma)
      && Reads(text, tok, Entries(rest, comma) + [DICT_END]) == After(text, b, true)
    decreases |text| - tok.ptr, 1
  {
    hide After, Reads, EntryAt, ShowEntry, TidyEntry, Entries;
    var (entries, comma, b) := EntriesAt(text, tok, done).value;
    NoParts(comma);
    if tok.kind.RBrace? {
      rest := [];
      assert done + rest == done;
      ReadsOne(text, tok, DICT_END);
    } else {
      var (e, m) := EntryAt(text, tok).value;
      EntrySpelled(text, tok);
      var more: seq<Entry> := [];
      if m.kind.Comma? {
        more := EntriesSpelled(text, After(text, m, true).value, done + [e]);
      }
      rest := [e] + more;
      assert done + [e] + more == done + rest;
      var tail := Entries(more, comma) + [DICT_END];
      EntriesCons(e, more, comma);
      TidyEntryCons(e, more, comma);
      if m.kind.Comma? {
        ReadsAppend(text, tok, ShowEntry(e), [ENTRY_COMMA] + tail);
        ReadsCons(text, m, ENTRY_COMMA, tail);
      } else {
        assert [] + tail == [DICT_END];
        ReadsAppend(text, tok, ShowEntry(e), [DICT_END]);
        ReadsOne(text, m, DICT_END);
      }
    }
  }

  lemma {:induction false} EntrySpelled(text: string, tok: Token)
    requires Fit(text, tok) && EntryAt(text, tok).Some?
    ensures var (e, b) := EntryAt(text, tok).value;
      TidyEntry(e) && Reads(text, tok, ShowEntry(e)) == Some(b)
    decreases |text| - tok.ptr, 0
  {
    hide After, Reads, NodeAt, Show, Tidy;
    var (e, b) := EntryAt(text, tok).value;
    var key := Key(RawText(text, tok));
    var n := After(text, tok, true).value;
    if n.kind.Dot? {
      var k := After(text, n, true).value;
      var (f, _) := EntryAt(text, k).value;
      EntrySpelled(text, k);
      assert e.keys[1..] == f.keys;
      assert ShowEntry(e) == [key] + ([Sole(Dot, false, true)] + ShowEntry(f));
      ReadsCons(text, tok, key, [Sole(Dot, false, true)] + ShowEntry(f));
      ReadsCons(text, n, Sole(Dot, false, true), ShowEntry(f));
    } else {
      var equal := Sole(Equal, false, false);
      NodeSpelled(text, After(text, n, false).value, true);
      assert ShowEntry(e) == [key] + ([equal] + Show(e.value, false, true));
      ReadsCons(text, tok, key, [equal] + Show(e.value, false, true));
      ReadsCons(text, n, equal, Show(e.value, false, true));
    }
  }

  lemma {:induction false} KeysSpelled(text: string, tok: Token, done: seq<string>) returns (rest: seq<string>)
    requires Fit(text, tok) && KeysAt(text, tok, done).Some?
    ensures var (keys, b) := KeysAt(text, tok, done).value;
      keys == done + rest && |rest| > 0 && Reads(text, tok, Dotted(rest)) == Some(b)
    decreases MAX_DEPTH - |done|
  {
    hide After, Reads;
    var raw, n := RawText(text, tok), After(text, tok, true).value;
    if n.kind.RBracket? {
      rest := [raw];
      ReadsOne(text, tok, Key(raw));
    } else {
      var more := KeysSpelled(text, After(text, n, true).value, done + [raw]);
      rest := [raw] + more;
      assert rest[1..] == more && done + [raw] + more == done + rest;
      assert Dotted(rest) == [Key(raw)] + ([Sole(Dot, false, true)] + Dotted(more));
      ReadsCons(text, tok, Key(raw), [Sole(Dot, false, true)] + Dotted(more));
      ReadsCons(text, n, Sole(Dot, false, true), Dotted(more));
    }
  }

  lemma SelectSpelled(text: string, tok: Token)
    requires Fit(text, tok) && tok.kind.LBracket? && SelectAt(text, tok).Some?
    ensures var (double, keys, b) := SelectAt(text, tok).value;
      TidyLine(Select(double, keys)) && Reads(text, tok, ShowLine(Select(double, keys))) == Some(b)
  {
    hide After, Reads, KeysAt, Inner, Dotted, Brackets;
    var (double, keys, b) := SelectAt(text, tok).value;
    var n := Inner(text, tok, double).value;
    var (_, m) := KeysAt(text, n, []).value;
    var rest := KeysSpelled(text, n, []);
    assert [] + rest == rest == keys;
    ReadsAppend(text, tok, Brackets(LBracket, double), Dotted(keys) + Brackets(RBracket, double));
    BracketsRead(text, tok, LBracket, double);
    ReadsAppend(text, n, Dotted(keys), Brackets(RBracket, double));
    BracketsRead(text, m, RBracket, double);
  }

  lemma LineSpelled(text: string, tok: Token)
    requires Fit(text, tok) && !tok.eof && LineAt(text, tok).Some?
    ensures var (line, b) := LineAt(text, tok).value;
      && TidyLine(line) && Reads(text, tok, ShowLine(line)) == Some(b)
      && (line.Select? ==> b.kind.Newline?) && (line.Blank? <==> tok.kind.Newline?)
  {
    hide After, Reads, EntryAt, SelectAt, ShowEntry, TidyEntry;
    match tok.kind
    case Newline =>
      ReadsOne(text, tok, LINE_END);
    case Word =>
      var (e, m) := EntryAt(text, tok).value;
      EntrySpelled(text, tok);
      ReadsAppend(text, tok, ShowEntry(e), [LINE_END]);
      ReadsOne(text, m, LINE_END);
    case LBracket =>
      SelectSpelled(text, tok);
  }

  lemma {:induction false} LinesSpelled(text: string, tok: Token, done: seq<Line>) returns (rest: seq<Line>)
    requires Fit(text, tok) && LinesAt(text, tok, done).Some?
    ensures LinesAt(text, tok, done).value == done + rest && Written(text, tok, rest) && Separated(rest)
    ensures forall i :: 0 <= i < |rest| ==> TidyLine(rest[i])
    ensures tok.kind.Newline? && |rest| > 0 ==> rest[0].Blank?
    decreases |text| - tok.End(), Rank(tok)
  {
    hide Reads, LineAt, ShowLine, TidyLine;
    if tok.eof {
      rest := [];
    } else {
      var (line, n) := LineAt(text, tok).value;
      LineSpelled(text, tok);
      var more := LinesSpelled(text, n, done + [line]);
      rest := [line] + more;
      assert rest[1..] == more && done + [line] + more == done + rest;
    }
  }

  // ---- whole texts

  // These lines, and what the text spells, are one and the same.
  ghost predicate Spells(text: string, lines: seq<Line>) {
    && Separated(lines) && (forall i :: 0 <= i < |lines| ==> TidyLine(lines[i]))
    && Fit(text, START) && Written(text, START, lines)
  }

  // A text is read as some lines exactly when its tokens spell them.
  lemma ParseSpelled(text: string, lines: seq<Line>)
    ensures Parse(text) == Some(lines) <==> Spells(text, lines)
  {
    hide Written, LinesAt, TidyLine, Fit;
    assert START == Token(Newline, 1, 0, 0, false);
    StartIsFit(text);
    if Parse(text) == Some(lines) {
      var rest := LinesSpelled(text, START, []);
      assert [] + rest == rest;
    }
    if Spells(text, lines) {
      LinesRead(text, START, [], lines);
      assert [] + lines == lines;
    }
  }

  // No text spells two documents.
  lemma Unambiguous(text: string, a: seq<Line>, b: seq<Line>)
    requires Spells(text, a) && Spells(text, b)
    ensures a == b
  {
    hide Spells, Parse;
    ParseSpelled(text, a);
    ParseSpelled(text, b);
  }

  // ---- where tokens stand

  ghost predicate Follows(text: string, tok: Token, next: Token) {
    tok.End() <= |text| && exists dot :: After(text, tok, dot) == Some(next)
  }

  // Some tokens of a text, one right after the other.
  ghost predicate Stream(text: string, trail: seq<Token>) {
    |trail| > 0 && forall i :: 0 < i < |trail| ==> Chained(text, trail, i)
  }

  ghost predicate Chained(text: string, trail: seq<Token>, i: nat)
    requires 0 < i < |trail|
  {
    Follows(text, trail[i - 1], trail[i])
  }

  lemma StreamAppend(text: string, p: seq<Token>, q: seq<Token>) returns (all: seq<Token>)
    requires Stream(text, p) && Stream(text, q) && p[|p| - 1] == q[0]
    ensures Stream(text, all) && all[0] == p[0] && all[|all| - 1] == q[|q| - 1]
  {
    hide Follows;
    var n := |p| - 1;
    all := p[..n] + q;
    forall i | 0 < i < |all| ensures Chained(text, all, i) {
      if i <= n { assert Chained(text, p, i); } else { assert Chained(text, q, i - n); }
    }
  }

  lemma StreamOne(text: string, tok: Token, dot: bool) returns (trail: seq<Token>)
    requires Fit(text, tok) && After(text, tok, dot).Some?
    ensures Stream(text, trail) && trail == [tok, After(text, tok, dot).value]
  {
    hide After;
    trail := [tok, After(text, tok, dot).value];
    assert Chained(text, trail, 1);
  }

  lemma {:induction false} NewlinesStream(text: string, tok: Token, dot: bool) returns (trail: seq<Token>)
    requires Fit(text, tok) && PastNewlines(text, tok, dot).Some?
    ensures Stream(text, trail) && trail[0] == tok && trail[|trail| - 1] == PastNewlines(text, tok, dot).value
    decreases |text| - tok.End(), tok.kind.Newline?
  {
    hide After;
    if tok.kind.Newline? {
      trail := StreamOne(text, tok, dot);
      var n := After(text, tok, dot).value;
      if !n.eof {
        var more := NewlinesStream(text, n, dot);
        trail := StreamAppend(text, trail, more);
      }
    } else {
      trail := [tok];
    }
  }

  lemma {:induction false} ReadsStream(text: string, tok: Token, signs: seq<Sign>) returns (trail: seq<Token>)
    requires Fit(text, tok) && Reads(text, tok, signs).Some?
    ensures Stream(text, trail) && trail[0] == tok && trail[|trail| - 1] == Reads(text, tok, signs).value
    decreases signs
  {
    hide After, PastNewlines, Stream;
    if |signs| == 0 {
      trail := StreamAlone(text, tok);
    } else {
      var sign := signs[0];
      var a := if sign.loose then PastNewlines(text, tok, false).value else tok;
      trail := StreamAlone(text, tok);
      if sign.loose { trail := NewlinesStream(text, tok, false); }
      var one := StreamOne(text, a, sign.dot);
      trail := StreamAppend(text, trail, one);
      var more := ReadsStream(text, After(text, a, sign.dot).value, signs[1..]);
      trail := StreamAppend(text, trail, more);
    }
  }

  lemma StreamAlone(text: string, tok: Token) returns (trail: seq<Token>)
    ensures Stream(text, trail) && trail == [tok]
  {
    trail := [tok];
  }

  lemma {:induction false} WrittenStream(text: string, tok: Token, lines: seq<Line>) returns (trail: seq<Token>)
    requires Fit(text, tok) && Written(text, tok, lines)
    ensures Stream(text, trail) && trail[0] == tok && trail[|trail| - 1].eof
    decreases lines
  {
    hide Reads, ShowLine, Stream;
    trail := StreamAlone(text, tok);
    if |lines| > 0 {
      trail := ReadsStream(text, tok, ShowLine(lines[0]));
      var more := WrittenStream(text, Reads(text, tok, ShowLine(lines[0])).value, lines[1..]);
      trail := StreamAppend(text, trail, more);
    }
  }

  lemma FollowsPlaced(text: string, tok: Token, next: Token)
    requires Placed(text, tok) && Follows(text, tok, next)
    ensures Placed(text, next)
    ensures tok.End() <= next.ptr && IsGap(text[tok.End()..next.ptr])
    ensures next.eof ==> next.ptr == |text|
  {
    hide TokenAt;
    var dot :| After(text, tok, dot) == Some(next);
    NextIsPlaced(text, tok, dot);
  }

  lemma {:induction false} TokenPlaced(text: string, trail: seq<Token>, i: nat)
    requires Stream(text, trail) && trail[0] == START && i < |trail|
    ensures Placed(text, trail[i])
  {
    hide Follows, Placed;
    if i == 0 {
      StartPlaced(text);
    } else {
      TokenPlaced(text, trail, i - 1);
      assert Chained(text, trail, i);
      FollowsPlaced(text, trail[i - 1], trail[i]);
    }
  }

  // Every token of a text is where its line number says, and only blanks and
  // comments stand between it and the next.
  lemma StreamPlaced(text: string, trail: seq<Token>, i: nat)
    requires Stream(text, trail) && trail[0] == START && 0 < i < |trail|
    ensures Placed(text, trail[i])
    ensures trail[i - 1].End() <= trail[i].ptr && IsGap(text[trail[i - 1].End()..trail[i].ptr])
    ensures trail[i].eof ==> trail[i].ptr == |text|
  {
    hide Follows;
    TokenPlaced(text, trail, i - 1);
    assert Chained(text, trail, i);
    FollowsPlaced(text, trail[i - 1], trail[i]);
  }

  // The tokens that spell a document run from the start of the text to its end.
  lemma TokensCover(text: string) returns (trail: seq<Token>)
    requires Parse(text).Some?
    ensures Stream(text, trail) && trail[0] == START && trail[|trail| - 1].eof
  {
    hide Parse, Stream, Separated, Fit;
    ParseSpelled(text, Parse(text).value);
    trail := WrittenStream(text, START, Parse(text).value);
  }
}
