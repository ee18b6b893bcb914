// normalize_key: the key a token stands for.

module TomlKeys {
  import opened Wrappers
  import opened BasicString
  import opened Scanner
  import opened Tokens

  // The character at a place of a NUL-terminated text.
  function At(text: string, i: nat): char {
    if i < |text| then text[i] else '\0'
  }

  // A C string ends at its first NUL, which \u0000 can put anywhere.
  function Cut(s: string): string {
    if |s| == 0 || s[0] == '\0' then "" else [s[0]] + Cut(s[1..])
  }

  predicate BareKeyChar(c: char) {
    '0' <= c <= '9' || 'A' <= c <= 'Z' || 'a' <= c <= 'z' || c == '_' || c == '-'
  }

  predicate Quote(c: char) { c == '\'' || c == '"' }

  function QuoteCount(text: string, ptr: nat): nat {
    if At(text, ptr + 1) == At(text, ptr) && At(text, ptr + 2) == At(text, ptr) then 3 else 1
  }

  function RawText(text: string, tok: Token): string
    requires tok.End() <= |text|
  {
    text[tok.ptr..tok.End()]
  }

  // The key between the quotes; it may not hold a newline.
  function KeyInside(body: string, quote: char, multiline: bool): Option<string> {
    var ret := if quote == '\'' then Good(body) else Norm(body, multiline);
    if ret.Wrong? then None
    else if '\n' in Cut(ret.value) then None
    else Some(Cut(ret.value))
  }

  // The key that a string token spells, or None for a bad one.
  function KeyOf(raw: string): Option<string> {
    var c := At(raw, 0);
    if Quote(c) then
      var k := QuoteCount(raw, 0);
      if |raw| < 2 * k then None
      else KeyInside(raw[k..|raw| - k], c, k == 3)
    else if forall j :: 0 <= j < |raw| ==> BareKeyChar(raw[j]) then Some(raw)
    else None
  }

  // The characters of a bare key, by their ASCII codes: digits, capital and small
  // letters, the underscore and the minus sign.
  predicate KeyChar(c: char) {
    var n := c as nat;
    48 <= n <= 57 || 65 <= n <= 90 || 97 <= n <= 122 || n == 95 || n == 45
  }

  predicate EndsKey(c: char) {
    c in {' ', '\t', '\r', '\n', '.', '=', ',', '[', ']', '{', '}', '#', '"', '\''}
  }

  lemma KeyIsLiteral(c: char)
    requires KeyChar(c)
    ensures LiteralChar(c) && c != '.'
  {
    if 48 <= c as nat <= 57 { assert "0123456789+-_."[c as nat - 48] == c; }
    assert "0123456789+-_."[11] == '-' && "0123456789+-_."[12] == '_';
  }

  lemma EndIsNone(c: char)
    requires EndsKey(c)
    ensures c == '.' || !LiteralChar(c)
  {}

  lemma {:induction false} BareRun(s: string, rest: string)
    requires (forall i :: 0 <= i < |s| ==> KeyChar(s[i])) && (|rest| > 0 ==> EndsKey(rest[0]))
    ensures BareSpan(s + rest, true) == |s|
  {
    hide KeyChar, EndsKey, LiteralChar;
    if |s| == 0 {
      assert s + rest == rest;
      if |rest| > 0 { EndIsNone(rest[0]); }
    } else {
      KeyIsLiteral(s[0]);
      assert (s + rest)[1..] == s[1..] + rest;
      BareRun(s[1..], rest);
    }
  }

  // A bare key, unless it looks like a date or a time, is one token up to what
  // follows, and its own key.
  lemma BareKey(s: string, rest: string)
    requires |s| > 0 && forall i :: 0 <= i < |s| ==> KeyChar(s[i])
    requires |rest| > 0 ==> EndsKey(rest[0])
    requires !DateLike(s + rest) && !TimeLike(s + rest)
    ensures Scan(s + rest, true) == Some(|s|) && KeyOf(s) == Some(s)
  {
    hide FindTriple, CloseTriple, DateLike, TimeLike;
    BareRun(s, rest);
    forall i | 0 <= i < |s| ensures BareKeyChar(s[i]) {}
    assert (s + rest)[0] == s[0];
  }

  // What is not quoted is a key exactly when all its characters are such.
  lemma BareKeyExactly(s: string)
    requires |s| > 0 ==> !Quote(s[0])
    ensures KeyOf(s) == if forall i :: 0 <= i < |s| ==> KeyChar(s[i]) then Some(s) else None
  {
    forall i | 0 <= i < |s| ensures BareKeyChar(s[i]) <==> KeyChar(s[i]) {}
  }

  // A string token is one scan_string found.
  ghost predicate Scanned(text: string, tok: Token) {
    && tok.ptr < |text|
    && exists dot :: Scan(text[tok.ptr..], dot) == Some(tok.len)
  }

  // What is true of the current token at all times.
  ghost predicate TokOk(text: string, tok: Token) {
    && Placed(text, tok)
    && (tok.eof ==> tok.kind.Newline? && tok.End() == |text|)
    && (tok.kind.Word? ==> Scanned(text, tok))
    && (!tok.kind.Word? && !tok.kind.Newline? ==> tok.len == 1)
  }

  // A token that may be a key.
  ghost predicate KeyToken(text: string, tok: Token) {
    tok.kind.Word? && tok.End() <= |text| && TokOk(text, tok)
  }

  // A quoted token is long enough for its quotes, and ends in them.
  lemma QuotedShape(text: string, tok: Token)
    requires TokOk(text, tok) && tok.kind.Word? && Quote(At(text, tok.ptr))
    ensures tok.len >= 2 * QuoteCount(text, tok.ptr)
    ensures forall i :: tok.End() - QuoteCount(text, tok.ptr) <= i < tok.End() ==> text[i] == text[tok.ptr]
  {
    hide Scan, Placed;
    var s := text[tok.ptr..];
    var dot :| Scan(s, dot) == Some(tok.len);
    if QuoteCount(text, tok.ptr) == 3 {
      TripleShape(text, tok.ptr, dot);
    } else {
      SingleShape(text, tok.ptr, dot);
    }
  }

  lemma TripleShape(text: string, p: nat, dot: bool)
    requires p < |text| && Quote(text[p]) && QuoteCount(text, p) == 3 && Scan(text[p..], dot).Some?
    ensures var n := Scan(text[p..], dot).value;
      6 <= n <= |text| - p && text[p + n - 3] == text[p + n - 2] == text[p + n - 1] == text[p]
  {
    hide BasicBody, LiteralBody, CloseTriple;
    var s, c := text[p..], text[p];
    assert p + 2 < |text| && s[0] == c && s[1] == text[p + 1] && s[2] == text[p + 2];
    assert s[..3] == [c, c, c];
    var n := Scan(s, dot).value;
    assert s[n - 3] == text[p + n - 3] && s[n - 2] == text[p + n - 2] && s[n - 1] == text[p + n - 1];
  }

  lemma SingleShape(text: string, p: nat, dot: bool)
    requires p < |text| && Quote(text[p]) && QuoteCount(text, p) == 1 && Scan(text[p..], dot).Some?
    ensures var n := Scan(text[p..], dot).value; 2 <= n <= |text| - p && text[p + n - 1] == text[p]
  {
    hide BasicBody, LiteralBody, CloseTriple;
    var s, c := text[p..], text[p];
    assert s[0] == c;
    assert !("\"\"\"" <= s) && !("'''" <= s) by {
      if |s| >= 3 { assert s[1] == text[p + 1] && s[2] == text[p + 2]; }
    }
    var n := Scan(s, dot).value;
    assert s[1..][n - 2] == s[n - 1] == text[p + n - 1];
  }

  lemma CutNext(s: string, i: nat)
    requires i <= |s|
    ensures if i == |s| || s[i] == '\0' then Cut(s[i..]) == "" else Cut(s[i..]) == [s[i]] + Cut(s[i + 1..])
  {
    if i < |s| { assert s[i..][1..] == s[i + 1..]; }
  }

  method CutString(s: string) returns (r: string)
    ensures r == Cut(s)
  {
    hide Cut;
    var i := 0;
    CutNext(s, 0);
    assert s[0..] == s && s[..0] == "";
    while i < |s| && s[i] != '\0'
      invariant i <= |s| && Cut(s) == s[..i] + Cut(s[i..])
    {
      CutNext(s, i);
      assert s[..i + 1] == s[..i] + [s[i]];
      assert s[..i] + ([s[i]] + Cut(s[i + 1..])) == s[..i + 1] + Cut(s[i + 1..]);
      i := i + 1;
    }
    CutNext(s, i);
    r := s[..i];
  }

  lemma QuotesLocal(text: string, tok: Token)
    requires tok.End() <= |text| && Quote(At(text, tok.ptr)) && tok.len >= 2 * QuoteCount(text, tok.ptr)
    ensures var raw, k := RawText(text, tok), QuoteCount(text, tok.ptr);
      && At(raw, 0) == text[tok.ptr] && QuoteCount(raw, 0) == k
      && text[tok.ptr + k..tok.End() - k] == raw[k..|raw| - k]
  {
    var raw := RawText(text, tok);
    assert raw[0] == text[tok.ptr] && raw[1] == text[tok.ptr + 1];
    if tok.len > 2 { assert raw[2] == text[tok.ptr + 2]; }
    var k := QuoteCount(text, tok.ptr);
    var inner := text[tok.ptr + k..tok.End() - k];
    forall j | 0 <= j < |inner| ensures inner[j] == raw[k..|raw| - k][j] {
      assert inner[j] == text[tok.ptr + k + j] == raw[k + j];
    }
  }

  // What the code reads behind a quoted token changes nothing: its text alone
  // says how many quotes there are and what stands between them.
  lemma QuotesInside(text: string, tok: Token) returns (k: nat)
    requires KeyToken(text, tok)
    ensures k == QuoteCount(text, tok.ptr)
    ensures Quote(At(RawText(text, tok), 0)) <==> Quote(At(text, tok.ptr))
    ensures Quote(At(text, tok.ptr)) ==>
              && tok.len >= 2 * k && Fenced(text, tok.End() - k)
              && KeyOf(RawText(text, tok)) == KeyInside(text[tok.ptr + k..tok.End() - k], text[tok.ptr], k == 3)
  {
    hide Scanned, Placed, KeyInside;
    k := QuoteCount(text, tok.ptr);
    if Quote(At(text, tok.ptr)) {
      QuotedShape(text, tok);
      QuotesLocal(text, tok);
    }
  }

  // normalize_key
  method NormalizeKey(text: string, tok: Token) returns (r: Option<string>)
    requires KeyToken(text, tok)
    ensures r == KeyOf(RawText(text, tok))
  {
    hide TokOk;
    var c := At(text, tok.ptr);
    ghost var count := QuotesInside(text, tok);
    if Quote(c) {
      var k := 1;
      if At(text, tok.ptr + 1) == c && At(text, tok.ptr + 2) == c { k := 3; }
      r := NormalizeQuoted(text, tok.ptr + k, tok.End() - k, c, k == 3);
    } else {
      r := NormalizeBare(text, tok);
    }
  }

  method NormalizeQuoted(text: string, sp: nat, sq: nat, c: char, multiline: bool) returns (r: Option<string>)
    requires sp <= sq && Fenced(text, sq)
    ensures r == KeyInside(text[sp..sq], c, multiline)
  {
    var ret := Good(text[sp..sq]);
    if c != '\'' {
      ret := NormBasicStr(text, sp, sq, multiline);
    }
    if ret.Wrong? { return None; }
    var key := CutString(ret.value);
    if '\n' in key { return None; }
    return Some(key);
  }

  method NormalizeBare(text: string, tok: Token) returns (r: Option<string>)
    requires tok.End() <= |text| && !Quote(At(RawText(text, tok), 0))
    ensures r == KeyOf(RawText(text, tok))
  {
    ghost var raw := RawText(text, tok);
    for xp := tok.ptr to tok.End()
      invariant forall j :: 0 <= j < xp - tok.ptr ==> BareKeyChar(raw[j])
    {
      assert raw[xp - tok.ptr] == text[xp];
      if !BareKeyChar(text[xp]) { return None; }
    }
    return Some(text[tok.ptr..tok.End()]);
  }
}
