// scan_string: where a string, number or date token of the TOML reader ends.
// Every specification here is on the text from the token's first character on.

module Scanner {
  import opened Wrappers
  import opened BasicString

  // The least i >= from at which three quotes c stand in a row (strstr).
  function FindTriple(s: string, from: nat, c: char): (r: Option<nat>)
    ensures r.Some? ==> from <= r.value && r.value + 3 <= |s|
    ensures r.Some? ==> s[r.value] == s[r.value + 1] == s[r.value + 2] == c
    decreases |s| - from
  {
    if from + 3 > |s| then None
    else if s[from] == s[from + 1] == s[from + 2] == c then Some(from)
    else FindTriple(s, from + 1, c)
  }

  // While another quote follows the three at i, they move along.
  function Extend(s: string, i: nat, c: char): (r: nat)
    requires i + 3 <= |s| && s[i] == s[i + 1] == s[i + 2] == c
    ensures i <= r && r + 3 <= |s| && s[r] == s[r + 1] == s[r + 2] == c
    decreases |s| - i
  {
    if i + 3 < |s| && s[i + 3] == c then Extend(s, i + 1, c) else i
  }

  // The closing quotes of a triple-double-quoted string: the first not right
  // after a backslash, moved to the last of a run.
  function CloseTriple(s: string, from: nat): (r: Option<nat>)
    requires from > 0
    ensures r.Some? ==> from <= r.value && r.value + 3 <= |s|
    ensures r.Some? ==> s[r.value] == s[r.value + 1] == s[r.value + 2] == '"'
    decreases |s| - from
  {
    match FindTriple(s, from, '"')
    case None => None
    case Some(i) => if s[i - 1] == '\\' then CloseTriple(s, i + 1) else Some(Extend(s, i, '"'))
  }

  predicate HexRun(s: string, n: nat) {
    |s| >= n && forall i :: 0 <= i < n ==> HexDigit(s[i])
  }

  // Every backslash of a body begins a complete escape.
  predicate WellEscaped(s: string, multiline: bool)
    decreases |s|
  {
    if |s| == 0 then true
    else if s[0] != '\\' then WellEscaped(s[1..], multiline)
    else if |s| == 1 then false
    else if Simple(s[1]).Some? then WellEscaped(s[2..], multiline)
    else if s[1] == 'u' || s[1] == 'U' then
      HexRun(s[2..], HexCount(s[1])) && WellEscaped(s[2 + HexCount(s[1])..], multiline)
    else multiline && LineEnds(s[1..]) && WellEscaped(s[2..], multiline)
  }

  // The length of the body of a single-line basic string: up to the first
  // unescaped quote, if everything before it is in order.
  function BasicBody(s: string): (r: Option<nat>)
    ensures r.Some? ==> r.value < |s| && s[r.value] == '"'
    decreases |s|
  {
    if |s| == 0 || s[0] == '\n' then None
    else if s[0] == '"' then Some(0)
    else if s[0] == '\\' then
      if |s| == 1 then None
      else if Simple(s[1]).Some? then More(2, BasicBody(s[2..]))
      else if (s[1] == 'u' || s[1] == 'U') && HexRun(s[2..], HexCount(s[1])) then
        More(2 + HexCount(s[1]), BasicBody(s[2 + HexCount(s[1])..]))
      else None
    else if |s| >= 3 && s[0] == s[1] == s[2] == '\'' then None
    else More(1, BasicBody(s[1..]))
  }

  function More(n: nat, r: Option<nat>): Option<nat> {
    if r.Some? then Some(n + r.value) else None
  }

  // The length of the body of a single-line literal string.
  function LiteralBody(s: string): (r: Option<nat>)
    ensures r.Some? ==> r.value < |s| && s[r.value] == '\''
  {
    if |s| == 0 || s[0] == '\n' then None
    else if s[0] == '\'' then Some(0)
    else More(1, LiteralBody(s[1..]))
  }

  predicate Digits(s: string, i: nat, n: nat) {
    i + n <= |s| && forall j :: i <= j < i + n ==> '0' <= s[j] <= '9'
  }

  predicate DateLike(s: string) {
    Digits(s, 0, 4) && |s| > 4 && s[4] == '-' && Digits(s, 5, 2) && |s| > 7 && s[7] == '-' && Digits(s, 8, 2)
  }

  predicate TimeLike(s: string) {
    Digits(s, 0, 2) && |s| > 2 && s[2] == ':' && Digits(s, 3, 2) && |s| > 5 && s[5] == ':' && Digits(s, 6, 2)
  }

  // strspn(s, "0123456789.:+-Tt Zz")
  function StampSpan(s: string): (n: nat)
    ensures n <= |s|
  {
    if |s| > 0 && s[0] in "0123456789.:+-Tt Zz" then 1 + StampSpan(s[1..]) else 0
  }

  // The first n characters without the spaces at their end.
  function TrimSpaces(s: string, n: nat): (r: nat)
    requires n <= |s|
    ensures r <= n
  {
    if n > 0 && s[n - 1] == ' ' then TrimSpaces(s, n - 1) else n
  }

  predicate LiteralChar(c: char) {
    'A' <= c <= 'Z' || 'a' <= c <= 'z' || c in "0123456789+-_."
  }

  // A bare key, number or boolean; possibly of no characters at all.
  function BareSpan(s: string, dotIsSpecial: bool): (n: nat)
    ensures n <= |s|
  {
    if |s| > 0 && !(s[0] == '.' && dotIsSpecial) && LiteralChar(s[0]) then 1 + BareSpan(s[1..], dotIsSpecial) else 0
  }

  // The length of the token that starts s, if it is well formed.
  function Scan(s: string, dotIsSpecial: bool): (r: Option<nat>)
    requires |s| > 0
    ensures r.Some? ==> r.value <= |s|
  {
    if "'''" <= s then
      match FindTriple(s, 3, '\'')
      case None => None
      case Some(i) => Some(Extend(s, i, '\'') + 3)
    else if "\"\"\"" <= s then
      match CloseTriple(s, 3)
      case None => None
      case Some(q) => if WellEscaped(s[3..q], true) then Some(q + 3) else None
    else if s[0] == '\'' then More(2, LiteralBody(s[1..]))
    else if s[0] == '"' then More(2, BasicBody(s[1..]))
    else if DateLike(s) || TimeLike(s) then Some(TrimSpaces(s, StampSpan(s)))
    else Some(BareSpan(s, dotIsSpecial))
  }

  // ---- what the scanner accepts, the decoder can decode

  lemma {:induction false} ReadHexRun(s: string, n: nat, acc: nat)
    ensures HexRun(s, n) <==> ReadHex(s, n, acc).HexCode?
  {
    if n > 0 && |s| > 0 {
      if HexDigit(s[0]) {
        ReadHexRun(s[1..], n - 1, acc * 16 + HexValue(s[0]));
        if HexRun(s[1..], n - 1) {
          forall i | 0 <= i < n ensures HexDigit(s[i]) {
            if i > 0 { assert s[i] == s[1..][i - 1]; }
          }
        }
      }
    }
  }

  // Spaces are plain characters, so skipping them changes nothing.
  lemma {:induction false} SkipKeepsEscapes(s: string, multiline: bool)
    ensures WellEscaped(SkipSpaces(s), multiline) == WellEscaped(s, multiline)
  {
    if |s| > 0 && Space(s[0]) { SkipKeepsEscapes(s[1..], multiline); }
  }

  lemma LineEndSpace(s: string)
    requires LineEnds(s)
    ensures |s| > 0 && Space(s[0]) && SkipSpaces(s) == SkipSpaces(s[1..])
  {}

  // The decoder finds fault with no escape of a well-escaped body: it can only
  // fail on a forbidden character or on a code the encoder rejects.
  lemma {:induction false} WellEscapedDecodes(s: string, multiline: bool)
    requires WellEscaped(s, multiline)
    ensures Norm(s, multiline).Good? || Norm(s, multiline).fault in {ForbiddenChar, BadCode}
    decreases |s|
  {
    if |s| == 0 {
    } else if s[0] != '\\' {
      WellEscapedDecodes(s[1..], multiline);
    } else if multiline && LineEnds(s[1..]) {
      LineEndSpace(s[1..]);
      assert s[1..][1..] == s[2..];
      SkipKeepsEscapes(s[2..], multiline);
      WellEscapedDecodes(SkipSpaces(s[1..]), multiline);
    } else if s[1] == 'u' || s[1] == 'U' {
      ReadHexRun(s[2..], HexCount(s[1]), 0);
      WellEscapedDecodes(s[2 + HexCount(s[1])..], multiline);
    } else {
      WellEscapedDecodes(s[2..], multiline);
    }
  }

  // And what decodes was well escaped.
  lemma {:induction false} DecodedWasWellEscaped(s: string, multiline: bool)
    requires Norm(s, multiline).Good?
    ensures WellEscaped(s, multiline)
    decreases |s|
  {
    if |s| == 0 {
    } else if s[0] != '\\' {
      DecodedWasWellEscaped(s[1..], multiline);
    } else if multiline && LineEnds(s[1..]) {
      LineEndSpace(s[1..]);
      assert s[1..][1..] == s[2..];
      SkipKeepsEscapes(s[2..], multiline);
      DecodedWasWellEscaped(SkipSpaces(s[1..]), multiline);
    } else if s[1] == 'u' || s[1] == 'U' {
      ReadHexRun(s[2..], HexCount(s[1]), 0);
      DecodedWasWellEscaped(s[2 + HexCount(s[1])..], multiline);
    } else {
      DecodedWasWellEscaped(s[2..], multiline);
    }
  }

  // The body of a scanned basic string is well escaped.
  lemma {:induction false} BasicBodyWellEscaped(s: string)
    requires BasicBody(s).Some?
    ensures WellEscaped(s[..BasicBody(s).value], false)
    decreases |s|
  {
    var n := BasicBody(s).value;
    if s[0] == '"' {
    } else if s[0] != '\\' {
      BasicBodyWellEscaped(s[1..]);
      assert s[..n][1..] == s[1..][..n - 1];
    } else {
      var k := if Simple(s[1]).Some? then 2 else 2 + HexCount(s[1]);
      BasicBodyWellEscaped(s[k..]);
      EscapeKept(s, n, k);
    }
  }

  // A complete escape before a well-escaped rest.
  lemma EscapeKept(s: string, n: nat, k: nat)
    requires 2 <= k <= n <= |s| && s[0] == '\\' && WellEscaped(s[k..][..n - k], false)
    requires if Simple(s[1]).Some? then k == 2
             else (s[1] == 'u' || s[1] == 'U') && k == 2 + HexCount(s[1]) && HexRun(s[2..], k - 2)
    ensures WellEscaped(s[..n], false)
  {
    assert s[..n][k..] == s[k..][..n - k];
    assert s[..n][2..] == s[2..][..n - 2];
  }

  // ---- the loops of scan_string

  // strstr(s + from, three quotes c)
  method StrStr(s: string, from: nat, c: char) returns (r: Option<nat>)
    ensures r == FindTriple(s, from, c)
  {
    var i := from;
    while i + 3 <= |s|
      invariant FindTriple(s, i, c) == FindTriple(s, from, c)
    {
      if s[i] == c && s[i + 1] == c && s[i + 2] == c { return Some(i); }
      i := i + 1;
    }
    return None;
  }

  method ExtendRun(s: string, i: nat, c: char) returns (r: nat)
    requires i + 3 <= |s| && s[i] == s[i + 1] == s[i + 2] == c
    ensures r == Extend(s, i, c)
  {
    r := i;
    while r + 3 < |s| && s[r + 3] == c
      invariant r + 3 <= |s| && s[r] == s[r + 1] == s[r + 2] == c
      invariant Extend(s, r, c) == Extend(s, i, c)
    {
      r := r + 1;
    }
  }

  method FindClose(s: string, from: nat) returns (r: Option<nat>)
    requires from > 0
    ensures r == CloseTriple(s, from)
  {
    var q := from;
    while true
      invariant q > 0 && CloseTriple(s, q) == CloseTriple(s, from)
      decreases |s| - q
    {
      var i := StrStr(s, q, '"');
      if i.None? { return None; }
      if s[i.value - 1] == '\\' {
        q := i.value + 1;
        continue;
      }
      var e := ExtendRun(s, i.value, '"');
      return Some(e);
    }
  }

  // The escape check with its two flags, from a point inside a body on: an
  // escape character is due, or `hexreq` hex digits are.
  predicate Resumes(rest: string, escape: bool, hexreq: nat) {
    if escape then
      |rest| > 0 &&
      if Simple(rest[0]).Some? then WellEscaped(rest[1..], true)
      else if rest[0] == 'u' || rest[0] == 'U' then
        HexRun(rest[1..], HexCount(rest[0])) && WellEscaped(rest[1 + HexCount(rest[0])..], true)
      else LineEnds(rest) && WellEscaped(rest[1..], true)
    else HexRun(rest, hexreq) && WellEscaped(rest[hexreq..], true)
  }

  lemma ResumeHex(rest: string, hexreq: nat)
    requires hexreq > 0 && |rest| > 0
    ensures Resumes(rest, false, hexreq) <==> HexDigit(rest[0]) && Resumes(rest[1..], false, hexreq - 1)
  {
    if |rest| >= hexreq { assert rest[1..][hexreq - 1..] == rest[hexreq..]; }
    if HexDigit(rest[0]) && HexRun(rest[1..], hexreq - 1) {
      forall i | 0 <= i < hexreq ensures HexDigit(rest[i]) {
        if i > 0 { assert rest[i] == rest[1..][i - 1]; }
      }
    }
  }

  lemma ResumeEscape(rest: string)
    requires |rest| > 0
    ensures Resumes(rest, true, 0) <==>
      if Simple(rest[0]).Some? then Resumes(rest[1..], false, 0)
      else if rest[0] == 'u' || rest[0] == 'U' then Resumes(rest[1..], false, HexCount(rest[0]))
      else LineEnds(rest) && Resumes(rest[1..], false, 0)
  {
    if rest[0] == 'u' || rest[0] == 'U' {
      var n := HexCount(rest[0]);
      if |rest[1..]| >= n { assert rest[1..][n..] == rest[1 + n..]; }
    }
  }

  lemma ResumePlain(rest: string)
    requires |rest| > 0
    ensures Resumes(rest, false, 0) <==>
      if rest[0] == '\\' then Resumes(rest[1..], true, 0) else Resumes(rest[1..], false, 0)
  {
    if rest[0] == '\\' && |rest| > 1 {
      assert rest[1..][1..] == rest[2..];
      if rest[1] == 'u' || rest[1] == 'U' {
        var n := HexCount(rest[1]);
        if |rest[2..]| >= n { assert rest[1..][1 + n..] == rest[2 + n..]; }
      }
    }
  }

  // One character of the escape check.
  method CheckChar(s: string, p: nat, q: nat, escape: bool, hexreq: nat)
    returns (ok: bool, escape': bool, hexreq': nat)
    requires p < q < |s| && s[q] == '"' && (escape ==> hexreq == 0)
    ensures !ok ==> !Resumes(s[p..q], escape, hexreq)
    ensures ok ==>
              && (escape' ==> hexreq' == 0)
              && Resumes(s[p + 1..q], escape', hexreq') == Resumes(s[p..q], escape, hexreq)
  {
    assert s[p..q][1..] == s[p + 1..q];
    ok, escape', hexreq' := true, false, 0;
    if escape {
      ResumeEscape(s[p..q]);
      if Simple(s[p]).Some? { return; }
      if s[p] == 'u' { hexreq' := 4; return; }
      if s[p] == 'U' { hexreq' := 8; return; }
      var i := Span(s, p, false);
      SpansInside(s, p, q);
      ok := i < |s| && s[i] == '\n';
    } else if hexreq > 0 {
      ResumeHex(s[p..q], hexreq);
      hexreq' := hexreq - 1;
      ok := HexDigit(s[p]);
    } else {
      ResumePlain(s[p..q]);
      escape' := s[p] == '\\';
    }
  }

  method CheckEscapes(s: string, from: nat, q: nat) returns (ok: bool)
    requires from <= q < |s| && s[q] == '"'
    ensures ok == WellEscaped(s[from..q], true)
  {
    var hexreq: nat := 0;
    var escape := false;
    ok := true;
    for p := from to q
      invariant escape ==> hexreq == 0
      invariant Resumes(s[p..q], escape, hexreq) == WellEscaped(s[from..q], true)
    {
      ok, escape, hexreq := CheckChar(s, p, q, escape, hexreq);
      if !ok { return false; }
    }
    ok := !escape && hexreq == 0;
  }

  // The same for a single-line string, where the walk also looks for the end.
  function Finds(rest: string, escape: bool, hexreq: nat): Option<nat> {
    if escape then
      if |rest| == 0 then None
      else if Simple(rest[0]).Some? then More(1, BasicBody(rest[1..]))
      else if (rest[0] == 'u' || rest[0] == 'U') && HexRun(rest[1..], HexCount(rest[0])) then
        More(1 + HexCount(rest[0]), BasicBody(rest[1 + HexCount(rest[0])..]))
      else None
    else if HexRun(rest, hexreq) then More(hexreq, BasicBody(rest[hexreq..]))
    else None
  }

  lemma FindHex(rest: string, hexreq: nat)
    requires hexreq > 0 && |rest| > 0
    ensures Finds(rest, false, hexreq) ==
            if HexDigit(rest[0]) then More(1, Finds(rest[1..], false, hexreq - 1)) else None
  {
    if |rest| >= hexreq { assert rest[1..][hexreq - 1..] == rest[hexreq..]; }
    if HexDigit(rest[0]) && HexRun(rest[1..], hexreq - 1) {
      forall i | 0 <= i < hexreq ensures HexDigit(rest[i]) {
        if i > 0 { assert rest[i] == rest[1..][i - 1]; }
      }
    }
  }

  lemma FindEscape(rest: string)
    requires |rest| > 0
    ensures Finds(rest, true, 0) ==
      if Simple(rest[0]).Some? then More(1, Finds(rest[1..], false, 0))
      else if rest[0] == 'u' || rest[0] == 'U' then More(1, Finds(rest[1..], false, HexCount(rest[0])))
      else None
  {
    if rest[0] == 'u' || rest[0] == 'U' {
      var n := HexCount(rest[0]);
      if |rest[1..]| >= n { assert rest[1..][n..] == rest[1 + n..]; }
    }
  }

  lemma FindBackslash(rest: string)
    requires |rest| > 0 && rest[0] == '\\'
    ensures Finds(rest, false, 0) == More(1, Finds(rest[1..], true, 0))
  {
    if |rest| > 1 {
      assert rest[1..][1..] == rest[2..];
      if rest[1] == 'u' || rest[1] == 'U' {
        var n := HexCount(rest[1]);
        if |rest[2..]| >= n { assert rest[1..][1 + n..] == rest[2 + n..]; }
      }
    }
  }

  lemma FindPlain(rest: string)
    requires |rest| > 0 && rest[0] != '\\'
    ensures Finds(rest, false, 0) ==
      if rest[0] == '\n' then None
      else if rest[0] == '"' then Some(0)
      else if |rest| >= 3 && rest[0] == rest[1] == rest[2] == '\'' then None
      else More(1, Finds(rest[1..], false, 0))
  {}

  datatype Round = GoOn | Break | Refuse

  // One round of the loop over a single-line basic string.
  method ScanChar(s: string, p: nat, escape: bool, hexreq: nat)
    returns (round: Round, escape': bool, hexreq': nat)
    requires p < |s| && (escape ==> hexreq == 0)
    ensures round.Refuse? ==> Finds(s[p..], escape, hexreq) == None
    ensures round.Break? ==> Finds(s[p..], escape, hexreq) == if s[p] == '"' then Some(0) else None
    ensures round.GoOn? ==> (escape' ==> hexreq' == 0)
    ensures round.GoOn? ==> Finds(s[p..], escape, hexreq) == More(1, Finds(s[p + 1..], escape', hexreq'))
  {
    ghost var rest := s[p..];
    assert rest[1..] == s[p + 1..];
    round, escape', hexreq' := GoOn, false, 0;
    if escape {
      FindEscape(rest);
      if Simple(s[p]).Some? { return; }
      if s[p] == 'u' { hexreq' := 4; return; }
      if s[p] == 'U' { hexreq' := 8; return; }
      return Refuse, false, 0;
    }
    if hexreq > 0 {
      FindHex(rest, hexreq);
      return if HexDigit(s[p]) then GoOn else Refuse, false, hexreq - 1;
    }
    if s[p] == '\\' {
      FindBackslash(rest);
      return GoOn, true, 0;
    }
    FindPlain(rest);
    if s[p] == '\'' {
      if p + 2 < |s| && s[p + 1] == '\'' && s[p + 2] == '\'' { round := Refuse; }
      return;
    }
    if s[p] == '\n' || s[p] == '"' { round := Break; }
  }

  lemma FindsEnds(s: string, escape: bool, hexreq: nat)
    ensures Finds(s, false, 0) == BasicBody(s)
    ensures Finds("", escape, hexreq) == None
  {}

  lemma MoreMore(a: nat, b: nat, r: Option<nat>)
    ensures More(a, More(b, r)) == More(a + b, r)
    ensures More(a, None) == None
  {}

  method ScanBasic(s: string) returns (r: Option<nat>)
    ensures r == BasicBody(s)
  {
    var hexreq: nat, escape, p := 0, false, 0;
    ghost var whole := BasicBody(s);
    FindsEnds(s, escape, hexreq);
    assert s[0..] == s;
    while p < |s|
      invariant p <= |s| && (escape ==> hexreq == 0)
      invariant whole == More(p, Finds(s[p..], escape, hexreq))
    {
      var round, escape', hexreq' := ScanChar(s, p, escape, hexreq);
      MoreMore(p, 1, Finds(s[p + 1..], escape', hexreq'));
      if round.Refuse? { return None; }
      if round.Break? { return if s[p] == '"' then Some(p) else None; }
      escape, hexreq, p := escape', hexreq', p + 1;
    }
    FindsEnds(s, escape, hexreq);
    assert s[p..] == "";
    return None;
  }

  method ScanLiteral(s: string) returns (r: Option<nat>)
    ensures r == LiteralBody(s)
  {
    var p := 0;
    while p < |s| && s[p] != '\n' && s[p] != '\''
      invariant p <= |s| && More(p, LiteralBody(s[p..])) == LiteralBody(s)
    {
      assert s[p..][1..] == s[p + 1..];
      p := p + 1;
    }
    r := if p < |s| && s[p] == '\'' then Some(p) else None;
  }

  method ScanStamp(s: string) returns (n: nat)
    ensures n == TrimSpaces(s, StampSpan(s))
  {
    n := 0;
    while n < |s| && s[n] in "0123456789.:+-Tt Zz"
      invariant n <= |s| && n + StampSpan(s[n..]) == StampSpan(s)
    {
      assert s[n..][1..] == s[n + 1..];
      n := n + 1;
    }
    while n > 0 && s[n - 1] == ' '
      invariant n <= |s| && TrimSpaces(s, n) == TrimSpaces(s, StampSpan(s))
    {
      n := n - 1;
    }
  }

  method ScanBare(s: string, dotIsSpecial: bool) returns (n: nat)
    ensures n == BareSpan(s, dotIsSpecial)
  {
    n := 0;
    while n < |s| && s[n] != '\n'
      invariant n <= |s| && n + BareSpan(s[n..], dotIsSpecial) == BareSpan(s, dotIsSpecial)
    {
      assert s[n..][1..] == s[n + 1..];
      if s[n] == '.' && dotIsSpecial { break; }
      if !LiteralChar(s[n]) { break; }
      n := n + 1;
    }
  }

  // scan_string
  method ScanString(s: string, dotIsSpecial: bool) returns (r: Option<nat>)
    requires |s| > 0
    ensures r == Scan(s, dotIsSpecial)
  {
    if "'''" <= s {
      var q := StrStr(s, 3, '\'');
      if q.None? { return None; }
      var e := ExtendRun(s, q.value, '\'');
      return Some(e + 3);
    }
    if "\"\"\"" <= s {
      var q := FindClose(s, 3);
      if q.None? { return None; }
      var ok := CheckEscapes(s, 3, q.value);
      return if ok then Some(q.value + 3) else None;
    }
    if s[0] == '\'' {
      var n := ScanLiteral(s[1..]);
      return More(2, n);
    }
    if s[0] == '"' {
      var n := ScanBasic(s[1..]);
      return More(2, n);
    }
    if DateLike(s) || TimeLike(s) {
      var n := ScanStamp(s);
      return Some(n);
    }
    var n := ScanBare(s, dotIsSpecial);
    return Some(n);
  }

  // ---- toml_rtos

  datatype Value = NotString | Str(text: Text)

  function Multiline(src: string): bool {
    |src| >= 3 && src[0] == src[1] == src[2]
  }

  // A newline right after the opening quotes does not count.
  function DropNewline(body: string): string {
    if |body| > 0 && body[0] == '\n' then body[1..]
    else if |body| > 1 && body[0] == '\r' && body[1] == '\n' then body[2..]
    else body
  }

  function Rtos(src: string): Value {
    if |src| == 0 || (src[0] != '\'' && src[0] != '"') then NotString
    else
      var q := src[0];
      var k := if Multiline(src) then 3 else 1;
      if |src| < 2 * k || src[|src| - k..] != src[..k] then NotString
      else
        var inner := src[k..|src| - k];
        var body := if Multiline(src) then DropNewline(inner) else inner;
        Str(if q == '\'' then Literal(body, Multiline(src)) else Norm(body, Multiline(src)))
  }

  method ReadString(src: string) returns (v: Value)
    ensures v == Rtos(src)
  {
    if |src| == 0 { return NotString; }
    var qchar := src[0];
    if !(qchar == '\'' || qchar == '"') { return NotString; }
    var sp, sq: int := 0, 0;
    var multiline := |src| >= 3 && qchar == src[1] && qchar == src[2];
    if multiline {
      sp, sq := 3, |src| - 3;
      if !(sp <= sq && src[sq] == qchar && src[sq + 1] == qchar && src[sq + 2] == qchar) { return NotString; }
      if src[sp] == '\n' {
        sp := sp + 1;
      } else if src[sp] == '\r' && src[sp + 1] == '\n' {
        sp := sp + 2;
      }
      assert src[sp..sq] == DropNewline(src[3..sq]);
    } else {
      sp, sq := 1, |src| - 1;
      if !(sp <= sq && src[sq] == qchar) { return NotString; }
    }
    var text: Text;
    if qchar == '\'' {
      text := NormLitStr(src, sp, sq, multiline);
    } else {
      text := NormBasicStr(src, sp, sq, multiline);
    }
    v := Str(text);
  }

  lemma DropKeepsEscapes(body: string)
    requires WellEscaped(body, true)
    ensures WellEscaped(DropNewline(body), true)
  {
    if |body| > 1 && body[0] == '\r' && body[1] == '\n' {
      assert body[1..][1..] == body[2..];
    }
  }

  // What decoding a token may come to, if not text.
  predicate DecodesOrForbidden(v: Value) {
    v.Str? && (v.text.Good? || v.text.fault in {ForbiddenChar, BadCode})
  }

  lemma TripleDecodes(s: string, q: nat)
    requires "\"\"\"" <= s && CloseTriple(s, 3) == Some(q) && WellEscaped(s[3..q], true)
    ensures DecodesOrForbidden(Rtos(s[..q + 3]))
  {
    hide CloseTriple, WellEscaped, Norm;
    var src := s[..q + 3];
    assert s[..3] == "\"\"\"" && s[q] == s[q + 1] == s[q + 2] == '"';
    assert src[|src| - 3..] == ['"', '"', '"'] == src[..3];
    assert src[3..|src| - 3] == s[3..q];
    DropKeepsEscapes(s[3..q]);
    WellEscapedDecodes(DropNewline(s[3..q]), true);
  }

  lemma BasicDecodes(s: string, k: nat)
    requires |s| > 0 && s[0] == '"' && !("\"\"\"" <= s) && BasicBody(s[1..]) == Some(k)
    ensures DecodesOrForbidden(Rtos(s[..k + 2]))
  {
    var src := s[..k + 2];
    assert s[1..][k] == s[k + 1] == '"';
    assert !Multiline(src);
    assert src[|src| - 1..] == ['"'] == src[..1];
    assert src[1..|src| - 1] == s[1..][..k];
    BasicBodyWellEscaped(s[1..]);
    WellEscapedDecodes(s[1..][..k], false);
  }

  // A scanned double-quoted token decodes: the decoder takes the same body for
  // it, finds every escape complete, and can fail only on a forbidden control
  // character or on a code point the encoder rejects.
  lemma ScannedDecodes(s: string, dotIsSpecial: bool)
    requires |s| > 0 && s[0] == '"' && Scan(s, dotIsSpecial).Some?
    ensures DecodesOrForbidden(Rtos(s[..Scan(s, dotIsSpecial).value]))
  {
    if "\"\"\"" <= s {
      TripleDecodes(s, CloseTriple(s, 3).value);
    } else {
      BasicDecodes(s, BasicBody(s[1..]).value);
    }
  }

  // A scanned single-quoted token decodes to its own characters or fails on a
  // forbidden one.
  lemma {:induction false} LiteralCopies(s: string, multiline: bool)
    ensures Literal(s, multiline) ==
            if exists c :: c in s && Forbidden(c, multiline) then Wrong(ForbiddenChar) else Good(s)
  {
    if |s| > 0 {
      LiteralCopies(s[1..], multiline);
      assert s == [s[0]] + s[1..];
    }
  }
}
