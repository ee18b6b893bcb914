// A writer of TOML documents, and that the reader undoes it.

module TomlWriting {
  import opened Wrappers
  import opened BasicString
  import opened Escapes
  import opened Scanner
  import opened Tokens
  import opened TomlKeys
  import opened TomlSyntax
  import opened TomlGrammar
  import opened TomlSpelling

  // ---- ink: the text of some signs

  function Mark(kind: Kind): char {
    match kind
    case Dot => '.' case Comma => ',' case Equal => '=' case LBrace => '{' case RBrace => '}'
    case LBracket => '[' case RBracket => ']' case Newline => '\n' case Word => ' '
  }

  function GlyphInk(g: Glyph): string {
    match g case Punct(kind) => [Mark(kind)] case Spelt(raw) => raw
  }

  // A space behind every glyph, but none between two brackets that belong together.
  function Ink(signs: seq<Sign>): string
    decreases |signs|, 1
  {
    if |signs| == 0 then ""
    else GlyphInk(signs[0].glyph) + Behind(signs)
  }

  function Behind(signs: seq<Sign>): string
    requires |signs| > 0
    decreases |signs|, 0
  {
    (if signs[0].twin then "" else " ") + Ink(signs[1..])
  }

  // A word is one token, whatever comes behind a space.
  ghost predicate WordOk(raw: string, dot: bool) {
    && |raw| > 0 && !BasicString.Blank(raw[0]) && raw[0] != '#' && Delimiter(raw[0], dot).None?
    && forall rest {:trigger raw + " " + rest} :: Scan(raw + " " + rest, dot) == Some(|raw|)
  }

  ghost predicate GlyphOk(g: Glyph, dot: bool) {
    match g
    case Punct(kind) => !kind.Word? && (kind.Dot? ==> dot)
    case Spelt(raw) => WordOk(raw, dot)
  }

  // A bracket of two has its twin behind it.
  predicate TwinOk(signs: seq<Sign>)
    requires |signs| > 0
  {
    signs[0].twin ==>
      && |signs| > 1 && signs[1].glyph == signs[0].glyph
      && (signs[0].glyph == Punct(LBracket) || signs[0].glyph == Punct(RBracket))
  }

  // Every sign can be told from what stands before it; `dot` says how the first is
  // read.
  ghost predicate Inked(dot: bool, signs: seq<Sign>)
    decreases signs
  {
    |signs| == 0 ||
    (GlyphOk(signs[0].glyph, dot)
     && TwinOk(signs) && (signs[0].loose ==> signs[0].glyph != Punct(Newline))
     && Inked(signs[0].dot, signs[1..]))
  }

  // ---- one token after another

  lemma GapPassed(glyph: string, more: string)
    requires |glyph| > 0 && !BasicString.Blank(glyph[0]) && glyph[0] != '#'
    ensures SkipGap(glyph + more) == glyph + more == SkipGap(" " + (glyph + more))
  {
    var s := " " + (glyph + more);
    assert s[1..] == glyph + more;
  }

  lemma WordScan(raw: string, dot: bool, more: string)
    requires WordOk(raw, dot) && |more| > 0 && more[0] == ' '
    ensures Scan(raw + more, dot) == Some(|raw|)
  {
    hide Scan;
    assert more == " " + more[1..];
    assert raw + more == raw + " " + more[1..];
  }

  // The token that a glyph makes where it stands.
  lemma GlyphToken(text: string, pos: nat, lineno: nat, dot: bool, g: Glyph, more: string)
    requires pos <= |text| && GlyphOk(g, dot)
    requires text[pos..] == GlyphInk(g) + more || text[pos..] == " " + (GlyphInk(g) + more)
    requires g.Spelt? ==> |more| > 0 && more[0] == ' '
    ensures var ptr := |text| - |GlyphInk(g) + more|;
      var t := Token(if g.Spelt? then Word else g.kind, lineno, ptr, |GlyphInk(g)|, false);
      && TokenAt(text, pos, lineno, dot) == Some(t)
      && t.End() <= |text| && GlyphOf(text, t) == g && text[t.End()..] == more
  {
    hide Scan, SkipGap, Delimiter, BasicString.Blank;
    var glyph := GlyphInk(g);
    var s := glyph + more;
    var ptr := |text| - |s|;
    GlyphHead(g, dot);
    GapPassed(glyph, more);
    assert s[0] == glyph[0];
    assert text[ptr..] == s;
    if g.Spelt? {
      WordScan(glyph, dot, more);
      assert text[ptr..ptr + |glyph|] == s[..|glyph|] == glyph;
    }
    assert text[ptr + |glyph|..] == s[|glyph|..] == more;
  }

  lemma GlyphHead(g: Glyph, dot: bool)
    requires GlyphOk(g, dot)
    ensures var glyph := GlyphInk(g);
      && |glyph| > 0 && !BasicString.Blank(glyph[0]) && glyph[0] != '#'
      && Delimiter(glyph[0], dot) == (if g.Spelt? then None else Some(g.kind))
  {
    hide Scan;
  }

  // A token stands where the first of some signs is written.
  ghost predicate Stands(text: string, tok: Token, signs: seq<Sign>) {
    && |signs| > 0 && Fit(text, tok) && !tok.eof && GlyphOf(text, tok) == signs[0].glyph
    && text[tok.End()..] == Behind(signs)
  }

  lemma EndReached(text: string, tok: Token, dot: bool)
    requires tok.End() <= |text| && (text[tok.End()..] == "" || text[tok.End()..] == " ")
    ensures After(text, tok, dot).Some? && After(text, tok, dot).value.eof
  {
    var s := text[tok.End()..];
    if |s| == 1 { assert s[1..] == ""; }
  }

  lemma BehindSpace(signs: seq<Sign>)
    requires |signs| > 0 && TwinOk(signs) && signs[0].glyph.Spelt?
    ensures |Behind(signs)| > 0 && Behind(signs)[0] == ' '
  {}

  lemma NextSign(text: string, tok: Token, signs: seq<Sign>)
    requires Stands(text, tok, signs) && Inked(signs[0].dot, signs[1..]) && TwinOk(signs)
    requires signs[0].loose ==> signs[0].glyph != Punct(Newline)
    ensures var n := Sees(text, tok, signs[0]);
      && n.Some?
      && if |signs| == 1 then n.value.eof else Stands(text, n.value, signs[1..])
  {
    hide Scan, SkipGap;
    var rest := signs[1..];
    if |rest| == 0 {
      assert Behind(signs) == "" || Behind(signs) == " ";
      EndReached(text, tok, signs[0].dot);
    } else {
      assert Ink(rest) == GlyphInk(rest[0].glyph) + Behind(rest);
      assert Behind(signs) == Ink(rest) || Behind(signs) == " " + Ink(rest);
      if rest[0].glyph.Spelt? { BehindSpace(rest); }
      GlyphToken(text, tok.End(), LineAfter(text, tok), signs[0].dot, rest[0].glyph, Behind(rest));
      if signs[0].twin { assert text[tok.End()..][0] == text[tok.End()]; }
    }
  }

  // ---- the signs of lines can be told apart

  lemma {:induction false} InkedAppend(dot: bool, s: seq<Sign>, t: seq<Sign>)
    requires |s| > 0 && Inked(dot, s) && Inked(s[|s| - 1].dot, t)
    ensures Inked(dot, s + t)
    decreases s
  {
    hide GlyphOk;
    assert (s + t)[1..] == s[1..] + t;
    if |s| == 1 {
      assert s[1..] + t == t;
    } else {
      InkedAppend(s[0].dot, s[1..], t);
    }
  }

  lemma {:induction false} InkedBehind(dot: bool, s: seq<Sign>, t: seq<Sign>)
    requires |s| > 0 && Inked(dot, s + t)
    ensures Inked(s[|s| - 1].dot, t)
    decreases s
  {
    hide GlyphOk;
    assert (s + t)[1..] == s[1..] + t;
    if |s| == 1 {
      assert s[1..] + t == t;
    } else {
      InkedBehind(s[0].dot, s[1..], t);
    }
  }

  // A mark that is no dot is a mark however it is read.
  lemma MarkInked(dot: bool, sign: Sign, t: seq<Sign>)
    requires sign.glyph.Punct? && !sign.glyph.kind.Word? && !sign.glyph.kind.Dot? && !sign.twin
    requires (sign.loose ==> !sign.glyph.kind.Newline?) && Inked(sign.dot, t)
    ensures Inked(dot, [sign] + t)
  {
    assert ([sign] + t)[1..] == t;
  }

  lemma AnyDot(dot: bool, dot': bool, t: seq<Sign>)
    requires |t| > 0 && t[0].glyph.Punct? && !t[0].glyph.kind.Dot? && Inked(dot, t)
    ensures Inked(dot', t)
  {}

  // What follows a value begins with such a mark.
  lemma NodeThen(v: Node, loose: bool, dot: bool, t: seq<Sign>)
    requires Inked(false, Show(v, loose, dot))
    requires |t| > 0 && t[0].glyph.Punct? && !t[0].glyph.kind.Dot? && Inked(false, t)
    ensures Inked(false, Show(v, loose, dot) + t)
  {
    hide Inked, Show;
    var s := Show(v, loose, dot);
    AnyDot(false, s[|s| - 1].dot, t);
    InkedAppend(false, s, t);
  }

  ghost predicate NodeWords(v: Node)
    decreases v
  {
    match v
    case Raw(val) => WordOk(val, false)
    case List(items, _) => forall i :: 0 <= i < |items| ==> NodeWords(items[i])
    case Dict(entries, _) => forall i :: 0 <= i < |entries| ==> EntryWords(entries[i])
  }

  ghost predicate EntryWords(e: Entry)
    decreases e
  {
    KeyWords(e.keys) && NodeWords(e.value)
  }

  ghost predicate KeyWords(keys: seq<string>) {
    |keys| > 0 && forall i :: 0 <= i < |keys| ==> WordOk(keys[i], true)
  }

  ghost predicate LineWords(line: Line) {
    match line case Blank => true case Pair(e) => EntryWords(e) case Select(_, keys) => KeyWords(keys)
  }

  lemma {:induction false} NodeInked(v: Node, loose: bool, dot: bool)
    requires NodeWords(v)
    ensures Inked(false, Show(v, loose, dot))
    decreases v, 0
  {
    hide WordOk, Items, Entries;
    match v
    case Raw(_) =>
    case List(items, comma) =>
      ItemsInked(items, comma);
      var open := Sole(LBracket, loose, false);
      assert Show(v, loose, dot) == [open] + (Items(items, comma) + [LIST_END]);
      MarkInked(false, open, Items(items, comma) + [LIST_END]);
    case Dict(entries, comma) =>
      EntriesInked(entries, comma);
      var open := Sole(LBrace, loose, true);
      assert Show(v, loose, dot) == [open] + (Entries(entries, comma) + [DICT_END]);
      MarkInked(false, open, Entries(entries, comma) + [DICT_END]);
  }

  lemma {:induction false} ItemsInked(items: seq<Node>, comma: bool)
    requires forall i :: 0 <= i < |items| ==> NodeWords(items[i])
    ensures Inked(false, Items(items, comma) + [LIST_END])
    decreases items, 1
  {
    hide NodeWords, Show, Items;
    if |items| == 0 {
      NoParts(comma);
      MarkInked(false, LIST_END, []);
      assert [LIST_END] + [] == [LIST_END];
    } else {
      var v, more := items[0], items[1..];
      assert items == [v] + more;
      ItemsCons(v, more, comma);
      NodeInked(v, true, false);
      ItemsInked(more, comma);
      var tail := Items(more, comma) + [LIST_END];
      if |more| > 0 || comma {
        MarkInked(false, ITEM_COMMA, tail);
        NodeThen(v, true, false, [ITEM_COMMA] + tail);
      } else {
        NoParts(comma);
        assert [] + tail == tail == [LIST_END];
        NodeThen(v, true, false, tail);
      }
    }
  }

  lemma {:induction false} EntriesInked(entries: seq<Entry>, comma: bool)
    requires forall i :: 0 <= i < |entries| ==> EntryWords(entries[i])
    ensures Inked(true, Entries(entries, comma) + [DICT_END])
    decreases entries, 1
  {
    hide EntryWords, ShowEntry, Entries;
    if |entries| == 0 {
      NoParts(comma);
      MarkInked(true, DICT_END, []);
      assert [DICT_END] + [] == [DICT_END];
    } else {
      var e, more := entries[0], entries[1..];
      assert entries == [e] + more;
      EntriesCons(e, more, comma);
      EntryInked(e);
      EntriesInked(more, comma);
      var tail := Entries(more, comma) + [DICT_END];
      if |more| > 0 || comma {
        MarkInked(true, ENTRY_COMMA, tail);
        EntryThen(e, [ENTRY_COMMA] + tail);
      } else {
        NoParts(comma);
        assert [] + tail == tail == [DICT_END];
        EntryThen(e, tail);
      }
    }
  }

  lemma EntryThen(e: Entry, t: seq<Sign>)
    requires Inked(true, ShowEntry(e))
    requires |t| > 0 && t[0].glyph.Punct? && !t[0].glyph.kind.Dot? && Inked(true, t)
    ensures Inked(true, ShowEntry(e) + t)
  {
    hide Inked;
    var s := ShowEntry(e);
    AnyDot(true, s[|s| - 1].dot, t);
    InkedAppend(true, s, t);
  }

  lemma {:induction false} EntryInked(e: Entry)
    requires EntryWords(e)
    ensures Inked(true, ShowEntry(e))
    decreases e, 0
  {
    hide Show, NodeWords, KeyWords;
    NodeInked(e.value, false, true);
    MarkInked(true, Sole(Equal, false, false), Show(e.value, false, true));
    DottedInked(e.keys);
    InkedAppend(true, Dotted(e.keys), [Sole(Equal, false, false)] + Show(e.value, false, true));
  }

  lemma {:induction false} DottedInked(keys: seq<string>)
    requires KeyWords(keys)
    ensures |Dotted(keys)| > 0 && Dotted(keys)[|Dotted(keys)| - 1].dot
    ensures Inked(true, Dotted(keys))
  {
    hide WordOk;
    if |keys| > 1 {
      DottedInked(keys[1..]);
      var s, t := [Key(keys[0]), Sole(Dot, false, true)], Dotted(keys[1..]);
      assert s[1..] == [Sole(Dot, false, true)] && s[1..][1..] == [];
      assert WordOk(keys[0], true) && Inked(true, s[1..]) && Inked(true, s);
      assert forall i :: 0 <= i < |keys| - 1 ==> keys[1..][i] == keys[i + 1];
      InkedAppend(true, s, t);
    } else {
      assert [Key(keys[0])][1..] == [];
    }
  }

  lemma BracketsInked(kind: Kind, double: bool)
    requires kind == LBracket || kind == RBracket
    ensures |Brackets(kind, double)| > 0
    ensures Inked(true, Brackets(kind, double)) && Brackets(kind, double)[|Brackets(kind, double)| - 1].dot
  {
    var s := Brackets(kind, double);
    if double { assert s[1..][1..] == []; } else { assert s[1..] == []; }
  }

  lemma LineEndInked()
    ensures Inked(true, [LINE_END])
  {
    assert [LINE_END][1..] == [];
  }

  lemma LineInked(line: Line)
    requires LineWords(line)
    ensures Inked(true, ShowLine(line)) && ShowLine(line)[|ShowLine(line)| - 1].dot
  {
    hide Inked, ShowEntry, EntryWords, KeyWords, Brackets, Dotted;
    LineEndInked();
    match line
    case Blank =>
    case Pair(e) =>
      EntryInked(e);
      EntryThen(e, [LINE_END]);
    case Select(double, keys) =>
      BracketsInked(LBracket, double);
      DottedInked(keys);
      BracketsInked(RBracket, double);
      InkedAppend(true, Dotted(keys), Brackets(RBracket, double));
      InkedAppend(true, Brackets(LBracket, double), Dotted(keys) + Brackets(RBracket, double));
  }

  function AllSigns(lines: seq<Line>): seq<Sign> {
    if |lines| == 0 then [] else ShowLine(lines[0]) + AllSigns(lines[1..])
  }

  lemma {:induction false} LinesInked(lines: seq<Line>)
    requires forall i :: 0 <= i < |lines| ==> LineWords(lines[i])
    ensures Inked(true, AllSigns(lines))
  {
    hide ShowLine, LineWords;
    if |lines| > 0 {
      var s := ShowLine(lines[0]);
      LineInked(lines[0]);
      LinesInked(lines[1..]);
      assert s[|s| - 1].dot == true;
      InkedAppend(true, ShowLine(lines[0]), AllSigns(lines[1..]));
    }
  }

  // ---- reading back

  lemma {:induction false} ReadsInk(text: string, tok: Token, dot: bool, s: seq<Sign>, t: seq<Sign>)
    requires |s| > 0 && Stands(text, tok, s + t) && Inked(dot, s + t)
    ensures var n := Reads(text, tok, s);
      && n.Some?
      && if |t| == 0 then n.value.eof else Stands(text, n.value, t)
    decreases s
  {
    hide Sees, Stands, GlyphOk;
    assert (s + t)[1..] == s[1..] + t && (s + t)[0] == s[0];
    StandsFit(text, tok, s + t);
    NextSign(text, tok, s + t);
    var n := Sees(text, tok, s[0]).value;
    if |s| == 1 {
      assert s[1..] + t == t;
      assert Reads(text, n, s[1..]) == Some(n);
    } else {
      ReadsInk(text, n, s[0].dot, s[1..], t);
    }
  }

  lemma StandsFit(text: string, tok: Token, signs: seq<Sign>)
    requires Stands(text, tok, signs)
    ensures Fit(text, tok) && !tok.eof
  {}

  lemma {:induction false} WrittenInk(text: string, tok: Token, dot: bool, lines: seq<Line>)
    requires |lines| > 0 && Stands(text, tok, AllSigns(lines)) && Inked(dot, AllSigns(lines))
    ensures Fit(text, tok) && Written(text, tok, lines)
    decreases lines
  {
    hide Reads, Stands, Inked, ShowLine;
    var s, t := ShowLine(lines[0]), AllSigns(lines[1..]);
    StandsFit(text, tok, s + t);
    ReadsInk(text, tok, dot, s, t);
    InkedBehind(dot, s, t);
    if |lines| > 1 { WrittenInk(text, Reads(text, tok, s).value, s[|s| - 1].dot, lines[1..]); }
  }

  // The text of some lines, of which the first is empty: it is the start itself.
  function Write(lines: seq<Line>): string
    requires |lines| > 0
  {
    Behind(AllSigns(lines))
  }

  lemma StandsAtStart(text: string, tok: Token, signs: seq<Sign>)
    requires tok.kind.Newline? && tok.End() == 0 && !tok.eof
    requires |signs| > 0 && signs[0].glyph == Punct(Newline) && text == Behind(signs)
    ensures Stands(text, tok, signs)
  {
    hide Behind;
    assert text[0..] == text;
  }

  lemma StartIsNewline()
    ensures START.kind.Newline? && START.End() == 0 && !START.eof
  {
    assert START == Token(Newline, 1, 0, 0, false);
  }

  lemma FirstSign(lines: seq<Line>)
    requires |lines| > 0 && lines[0].Blank?
    ensures |AllSigns(lines)| > 0 && AllSigns(lines)[0].glyph == Punct(Newline)
  {}

  lemma StartWritten(tok: Token, lines: seq<Line>)
    requires tok.kind.Newline? && tok.End() == 0 && !tok.eof
    requires |lines| > 0 && lines[0].Blank? && forall i :: 0 <= i < |lines| ==> LineWords(lines[i])
    ensures Fit(Write(lines), tok) && Written(Write(lines), tok, lines)
  {
    hide Written, Inked, Stands, Behind, LineWords, AllSigns;
    FirstSign(lines);
    StandsAtStart(Write(lines), tok, AllSigns(lines));
    LinesInked(lines);
    WrittenInk(Write(lines), tok, true, lines);
  }

  // Whatever lines there are to write, they are what is read.
  lemma WriteRead(lines: seq<Line>)
    requires |lines| > 0 && lines[0].Blank? && Separated(lines)
    requires forall i :: 0 <= i < |lines| ==> TidyLine(lines[i])
    requires forall i :: 0 <= i < |lines| ==> LineWords(lines[i])
    ensures Parse(Write(lines)) == Some(lines)
  {
    hide *;
    StartIsNewline();
    StartWritten(START, lines);
    SpellsOf(Write(lines), lines);
    ParseSpelled(Write(lines), lines);
  }

  lemma SpellsOf(text: string, lines: seq<Line>)
    requires Separated(lines) && (forall i :: 0 <= i < |lines| ==> TidyLine(lines[i]))
    requires Fit(text, START) && Written(text, START, lines)
    ensures Spells(text, lines)
  {
    hide Written, TidyLine, Separated, Fit;
  }

  // ---- what may stand between tokens

  // Spaces, tabs and carriage returns are passed over, and a comment up to the end
  // of its line.
  lemma {:induction false} BlanksPassed(blanks: string, rest: string)
    requires Blanks(blanks)
    requires |rest| > 0 ==> rest[0] !in {' ', '\t', '\r', '#'}
    ensures SkipGap(blanks + rest) == rest
  {
    if |blanks| == 0 {
      assert blanks + rest == rest;
    } else {
      assert (blanks + rest)[1..] == blanks[1..] + rest;
      BlanksPassed(blanks[1..], rest);
    }
  }

  lemma {:induction false} CommentPassed(blanks: string, comment: string, rest: string)
    requires Blanks(blanks) && '\n' !in comment && (|rest| > 0 ==> rest[0] == '\n')
    ensures SkipGap(blanks + "#" + comment + rest) == rest
  {
    var t := blanks + "#" + comment + rest;
    if |blanks| == 0 {
      assert t == "#" + comment + rest;
      LineSkipped("#" + comment, rest);
    } else {
      assert t[1..] == blanks[1..] + "#" + comment + rest;
      CommentPassed(blanks[1..], comment, rest);
    }
  }

  lemma {:induction false} LineSkipped(comment: string, rest: string)
    requires '\n' !in comment && (|rest| > 0 ==> rest[0] == '\n')
    ensures SkipComment(comment + rest) == rest
  {
    if |comment| == 0 {
      assert comment + rest == rest;
    } else {
      assert (comment + rest)[1..] == comment[1..] + rest && comment[0] in comment;
      LineSkipped(comment[1..], rest);
    }
  }

  // ---- words to write

  // Four digits, two and two with dashes between, whatever follows.
  predicate Dated(s: string) {
    |s| >= 10 && forall i :: 0 <= i < 10 ==> if i == 4 || i == 7 then s[i] == '-' else '0' <= s[i] <= '9'
  }

  // Two digits, two and two with colons between.
  predicate Timed(s: string) {
    |s| >= 8 && forall i :: 0 <= i < 8 ==> if i == 2 || i == 5 then s[i] == ':' else '0' <= s[i] <= '9'
  }

  lemma Looks(s: string)
    ensures DateLike(s) <==> Dated(s)
    ensures TimeLike(s) <==> Timed(s)
  {}

  // A bare key that does not look like a date.
  lemma BareWord(s: string)
    requires |s| > 0 && !Dated(s) && forall i :: 0 <= i < |s| ==> KeyChar(s[i])
    ensures WordOk(s, true) && KeyOf(s) == Some(s)
  {
    hide Scan, KeyOf, DateLike, TimeLike;
    forall rest ensures Scan(s + " " + rest, true) == Some(|s|) {
      var more := " " + rest;
      assert s + " " + rest == s + more && more[0] == ' ';
      NoStamp(s, more);
      BareKey(s, more);
    }
    NoStamp(s, "");
    BareKey(s, "");
  }

  // A number, a boolean or anything else that is not quoted.
  predicate ValueChar(c: char) {
    KeyChar(c) || c == '+' || c == '.'
  }

  lemma BareValue(s: string)
    requires |s| > 0 && !Dated(s) && forall i :: 0 <= i < |s| ==> ValueChar(s[i])
    ensures WordOk(s, false)
  {
    hide Scan, DateLike, TimeLike, BareSpan;
    forall rest ensures Scan(s + " " + rest, false) == Some(|s|) {
      var more := " " + rest;
      assert s + " " + rest == s + more && more[0] == ' ';
      NoStamp(s, more);
      ValueRun(s, more);
      BareScan(s + more);
    }
  }

  lemma BareScan(t: string)
    requires |t| > 0 && t[0] != '\'' && t[0] != '"' && !DateLike(t) && !TimeLike(t)
    ensures Scan(t, false) == Some(BareSpan(t, false))
  {
    hide DateLike, TimeLike, BareSpan;
  }

  lemma {:induction false} ValueRun(s: string, more: string)
    requires (forall i :: 0 <= i < |s| ==> ValueChar(s[i])) && |more| > 0 && more[0] == ' '
    ensures BareSpan(s + more, false) == |s|
  {
    if |s| > 0 {
      assert (s + more)[1..] == s[1..] + more;
      ValueRun(s[1..], more);
    }
  }

  lemma NoStamp(s: string, more: string)
    requires !Dated(s) && forall i :: 0 <= i < |s| ==> ValueChar(s[i])
    requires |more| > 0 ==> more[0] == ' '
    ensures !DateLike(s + more) && !TimeLike(s + more)
  {
    var t := s + more;
    Looks(t);
    forall i | 0 <= i < |s| ensures t[i] == s[i] {}
    if |s| < 10 && |more| > 0 { assert t[|s|] == ' '; }
    if |s| > 2 { assert t[2] == s[2] != ':'; }
  }

  // The characters of dates and times; a space may stand between the two.
  predicate StampChar(c: char) {
    '0' <= c <= '9' || c in {'.', ':', '+', '-', 'T', 't', 'Z', 'z', ' '}
  }

  // What looks like a date or a time is one token up to the first other character,
  // less the spaces before it.
  lemma StampWord(s: string, spaces: nat, more: string, dot: bool)
    requires (Dated(s) || Timed(s)) && (forall i :: 0 <= i < |s| ==> StampChar(s[i])) && s[|s| - 1] != ' '
    requires |more| > 0 ==> !StampChar(more[0])
    ensures Scan(s + Repeated(spaces) + more, dot) == Some(|s|)
  {
    hide Dated, Timed, DateLike, TimeLike, StampSpan, TrimSpaces;
    var front := s + Repeated(spaces);
    var t := front + more;
    assert s == t[..|s|];
    StampStays(s, t);
    Looks(t);
    forall i | 0 <= i < |front| ensures StampChar(front[i]) {}
    StampEnds(front, more);
    Trimmed(s, spaces, more);
  }

  function Repeated(spaces: nat): string {
    seq(spaces, _ => ' ')
  }

  lemma StampIs(c: char)
    ensures StampChar(c) <==> c in "0123456789.:+-Tt Zz"
  {}

  lemma StampStays(s: string, t: string)
    requires (Dated(s) || Timed(s)) && s <= t
    ensures |s| > 0 && '0' <= t[0] <= '9' && (Dated(t) || Timed(t))
  {
    assert forall i :: 0 <= i < |s| ==> t[i] == s[i];
  }

  lemma {:induction false} StampEnds(s: string, more: string)
    requires (forall i :: 0 <= i < |s| ==> StampChar(s[i])) && (|more| > 0 ==> !StampChar(more[0]))
    ensures StampSpan(s + more) == |s|
  {
    hide StampChar;
    if |s| == 0 {
      assert s + more == more;
      if |more| > 0 { StampIs(more[0]); }
    } else {
      StampIs(s[0]);
      assert (s + more)[1..] == s[1..] + more;
      StampEnds(s[1..], more);
    }
  }

  lemma {:induction false} Trimmed(s: string, spaces: nat, more: string)
    requires |s| > 0 && s[|s| - 1] != ' '
    ensures TrimSpaces(s + Repeated(spaces) + more, |s| + spaces) == |s|
  {
    var t := s + Repeated(spaces) + more;
    if spaces > 0 {
      assert t == s + Repeated(spaces - 1) + (" " + more);
      Trimmed(s, spaces - 1, " " + more);
    }
  }

  // A string between double quotes.
  function InQuotes(s: string): string {
    "\"" + Escaped(s) + "\""
  }

  // Three apostrophes in a row, which the scanner does not let into a string.
  predicate NoTriple(s: string) {
    forall i :: 0 <= i && i + 2 < |s| ==> !(s[i] == '\'' && s[i + 1] == '\'' && s[i + 2] == '\'')
  }

  lemma HeadChar(c: char)
    ensures |EscapedChar(c)| > 0 && (EscapedChar(c)[0] == '\'' <==> c == '\'') && EscapedChar(c)[0] != '"'
    ensures c == '\'' ==> EscapedChar(c) == "'"
  {}

  lemma EscapedNext(s: string, rest: string)
    requires |s| > 0
    ensures Escaped(s) + "\"" + rest == EscapedChar(s[0]) + (Escaped(s[1..]) + "\"" + rest)
    ensures |Escaped(s)| == |EscapedChar(s[0])| + |Escaped(s[1..])|
  {
    hide EscapedChar;
  }

  // How the text of a string with the closing quote begins.
  lemma EscapedHead(s: string, rest: string)
    ensures var t := Escaped(s) + "\"" + rest;
      && |t| > 0
      && (t[0] == '\'' <==> |s| > 0 && s[0] == '\'')
      && (|s| > 0 && s[0] == '\'' ==> t[1..] == Escaped(s[1..]) + "\"" + rest)
  {
    hide EscapedChar, Escaped;
    var t := Escaped(s) + "\"" + rest;
    if |s| > 0 {
      HeadChar(s[0]);
      EscapedNext(s, rest);
      assert t[0] == EscapedChar(s[0])[0];
    } else {
      NothingEscaped();
      assert t[0] == '"';
    }
  }

  lemma NothingEscaped()
    ensures Escaped("") == ""
  {}

  lemma ApostrophesSeen(s: string, rest: string)
    ensures var t := Escaped(s) + "\"" + rest;
      |t| >= 3 && t[0] == t[1] == t[2] == '\'' <==> |s| >= 3 && s[0] == s[1] == s[2] == '\''
  {
    hide Escaped;
    EscapedHead(s, rest);
    if |s| > 0 && s[0] == '\'' {
      EscapedHead(s[1..], rest);
      if |s| > 1 && s[1] == '\'' { EscapedHead(s[2..], rest); assert s[1..][1..] == s[2..]; }
    }
  }

  // The scanner finds the end of a written string, unless it has three apostrophes.
  lemma {:induction false} BodyFound(s: string, rest: string)
    ensures BasicBody(Escaped(s) + "\"" + rest) == if NoTriple(s) then Some(|Escaped(s)|) else None
  {
    hide Escaped, EscapedChar, BasicBody, NoTriple;
    if |s| == 0 {
      NothingEscaped();
      QuoteEnds(rest);
      FewApostrophes(s);
    } else {
      var more := Escaped(s[1..]) + "\"" + rest;
      BodyFound(s[1..], rest);
      ApostrophesSeen(s, rest);
      TripleNext(s);
      EscapedNext(s, rest);
      CharPassed(s[0], more);
    }
  }

  lemma QuoteEnds(rest: string)
    ensures BasicBody("" + "\"" + rest) == Some(0)
  {}

  lemma FewApostrophes(s: string)
    requires |s| < 3
    ensures NoTriple(s)
  {}

  lemma TripleNext(s: string)
    requires |s| > 0
    ensures NoTriple(s) <==> NoTriple(s[1..]) && !(|s| >= 3 && s[0] == s[1] == s[2] == '\'')
  {
    if NoTriple(s[1..]) && !(|s| >= 3 && s[0] == s[1] == s[2] == '\'') {
      forall i | 0 <= i && i + 2 < |s| ensures !(s[i] == '\'' && s[i + 1] == '\'' && s[i + 2] == '\'') {
        if i > 0 { assert s[1..][i - 1] == s[i] && s[1..][i] == s[i + 1] && s[1..][i + 1] == s[i + 2]; }
      }
    }
    if NoTriple(s) {
      forall i | 0 <= i && i + 2 < |s[1..]|
        ensures !(s[1..][i] == '\'' && s[1..][i + 1] == '\'' && s[1..][i + 2] == '\'')
      {
        assert s[1..][i] == s[i + 1] && s[1..][i + 1] == s[i + 2] && s[1..][i + 2] == s[i + 3];
      }
    }
  }

  // One written character is passed over whole.
  lemma CharPassed(c: char, more: string)
    requires |more| > 0
    ensures var t := EscapedChar(c) + more;
      BasicBody(t) == if |t| >= 3 && t[0] == t[1] == t[2] == '\'' then None
                      else More(|EscapedChar(c)|, BasicBody(more))
  {
    hide BasicBody;
    var code := c as nat;
    if Letter(code) != "" {
      LetterPassed(code, more);
    } else if code < 32 || code == 127 {
      HexPassed(code, more);
    } else {
      PlainPassed(c, more);
    }
  }

  lemma LetterPassed(code: nat, more: string)
    requires Letter(code) != ""
    ensures BasicBody("\\" + Letter(code) + more) == More(2, BasicBody(more))
  {
    var t := "\\" + Letter(code) + more;
    assert t[1] == Letter(code)[0] && t[2..] == more;
  }

  lemma HexPassed(code: nat, more: string)
    ensures BasicBody("\\u" + HexText(code, 4) + more) == More(6, BasicBody(more))
  {
    hide HexText;
    var t := "\\u" + HexText(code, 4) + more;
    HexShown(code, 4);
    assert t[1] == 'u' && t[2..] == HexText(code, 4) + more && t[6..] == more;
  }

  lemma PlainPassed(c: char, more: string)
    requires |more| > 0 && c != '\\' && c != '"' && c != '\n'
    ensures var t := [c] + more;
      BasicBody(t) == if |t| >= 3 && t[0] == t[1] == t[2] == '\'' then None else More(1, BasicBody(more))
  {
    assert ([c] + more)[1..] == more;
  }

  lemma {:induction false} HexShown(n: nat, digits: nat)
    ensures forall i :: 0 <= i < digits ==> HexDigit(HexText(n, digits)[i])
    decreases digits
  {
    if digits > 0 {
      HexShown(n / 16, digits - 1);
      DigitValue(n % 16);
    }
  }

  // A written string is one token exactly when it has no three apostrophes in a
  // row, although TOML lets them stand between double quotes.
  lemma QuotedWord(s: string, dot: bool)
    ensures WordOk(InQuotes(s), dot) <==> NoTriple(s)
  {
    hide Scan, Escaped, NoTriple;
    var raw := InQuotes(s);
    forall rest ensures Scan(raw + " " + rest, dot) == if NoTriple(s) then Some(|raw|) else None {
      QuotedScan(s, dot, " " + rest);
      assert raw + " " + rest == raw + (" " + rest);
    }
    assert raw + " " + "" == raw + (" " + "");
  }

  lemma QuotedScan(s: string, dot: bool, more: string)
    requires |more| > 0 && more[0] == ' '
    ensures Scan(InQuotes(s) + more, dot) == if NoTriple(s) then Some(|InQuotes(s)|) else None
  {
    hide BasicBody, LiteralBody, CloseTriple, FindTriple, Escaped, NoTriple, WellEscaped, DateLike, TimeLike;
    var t := InQuotes(s) + more;
    BodyFound(s, more);
    assert t[1..] == Escaped(s) + "\"" + more;
    QuoteInside(s);
    assert t[0] == '"';
    if |s| == 0 {
      assert t[2] == ' ';
    } else {
      assert t[1] == Escaped(s)[0];
    }
  }

  // The shortest string that has three.
  lemma TripleRefused(dot: bool, more: string)
    requires |more| > 0 && more[0] == ' '
    ensures InQuotes("'''") == "\"'''\"" && Scan("\"'''\"" + more, dot).None?
  {
    hide Scan, EscapedChar;
    var s := "'''";
    HeadChar('\'');
    assert s[1..] == "''" && s[1..][1..] == "'" && s[1..][1..][1..] == "";
    assert Escaped(s) == s;
    assert s[0] == '\'';
    QuotedScan(s, dot, more);
  }

  // The first character behind the opening quote is a quote for the empty string
  // alone.
  lemma QuoteInside(s: string)
    ensures |Escaped(s)| > 0 ==> Escaped(s)[0] != '"'
    ensures |Escaped(s)| == 0 <==> |s| == 0
  {
    if |s| > 0 { assert Escaped(s)[0] == EscapedChar(s[0])[0]; }
  }

  // A written string is read as itself, as a value and as a key.
  lemma QuotedValue(s: string)
    ensures Rtos(InQuotes(s)) == Str(Good(s))
    ensures '\0' !in s ==> KeyOf(InQuotes(s)) == if '\n' in s then None else Some(s)
  {
    hide Norm, Escaped;
    var raw := InQuotes(s);
    QuoteInside(s);
    WrittenRead(s, false);
    assert raw[1..|raw| - 1] == Escaped(s);
    assert raw[|raw| - 1..] == "\"" == raw[..1];
    if |s| == 0 {
      assert raw == "\"\"";
    } else {
      assert raw[1] == Escaped(s)[0];
    }
    if '\0' !in s { CutNothing(s); }
  }

  lemma {:induction false} CutNothing(s: string)
    requires '\0' !in s
    ensures Cut(s) == s
  {
    if |s| > 0 {
      assert s == [s[0]] + s[1..];
      CutNothing(s[1..]);
    }
  }
}
