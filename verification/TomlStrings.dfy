// The other ways to write a string: between single quotes, and between three
// quotes of either kind.

module TomlStrings {
  import opened Wrappers
  import opened BasicString
  import opened Escapes
  import opened Scanner
  import opened TomlKeys
  import opened TomlWriting

  predicate TripleAt(s: string, i: nat, c: char) {
    i + 3 <= |s| && s[i] == s[i + 1] == s[i + 2] == c
  }

  // The search for three quotes finds the first.
  lemma {:induction false} FirstTriple(s: string, from: nat, c: char)
    ensures var r := FindTriple(s, from, c);
      forall j :: from <= j && (r.Some? ==> j < r.value) ==> !TripleAt(s, j, c)
    decreases |s| - from
  {
    if from + 3 <= |s| && !(s[from] == s[from + 1] == s[from + 2] == c) { FirstTriple(s, from + 1, c); }
  }

  // ---- single quotes

  // Without a quote or a newline it is one token, and stands for itself when all
  // its characters are allowed.
  lemma LiteralWord(s: string, dot: bool)
    requires '\'' !in s && '\n' !in s
    ensures WordOk("'" + s + "'", dot)
    ensures Rtos("'" + s + "'") ==
            Str(if forall c :: c in s ==> Allowed(c, false) then Good(s) else Wrong(ForbiddenChar))
  {
    hide Scan, Rtos;
    forall rest ensures Scan("'" + s + "'" + " " + rest, dot) == Some(|s| + 2) {
      LiteralScan(s, " " + rest, dot);
      assert "'" + s + "'" + " " + rest == "'" + s + "'" + (" " + rest);
    }
    LiteralRead(s);
  }

  lemma LiteralScan(s: string, more: string, dot: bool)
    requires '\'' !in s && '\n' !in s && |more| > 0 && more[0] == ' '
    ensures Scan("'" + s + "'" + more, dot) == Some(|s| + 2)
  {
    hide LiteralBody, BasicBody, FindTriple, CloseTriple;
    var t, q := "'" + s + "'" + more, "'''";
    LiteralEnds(s, more);
    assert t[0] == '\'' && t[1..] == s + "'" + more;
    if |s| == 0 { assert t[2] == ' '; } else { assert t[1] == s[0] && s[0] in s; }
        assert q[1] == q[2] == '\'';
  }

  lemma {:induction false} LiteralEnds(s: string, more: string)
    requires '\'' !in s && '\n' !in s
    ensures LiteralBody(s + "'" + more) == Some(|s|)
  {
    if |s| > 0 {
      assert (s + "'" + more)[1..] == s[1..] + "'" + more && s[0] in s;
      LiteralEnds(s[1..], more);
    }
  }

  lemma LiteralRead(s: string)
    requires '\'' !in s
    ensures Rtos("'" + s + "'") ==
            Str(if forall c :: c in s ==> Allowed(c, false) then Good(s) else Wrong(ForbiddenChar))
  {
    hide Literal;
    var src := "'" + s + "'";
    LiteralCopies(s, false);
    AllowedOnly(s, false);
    assert src[1..|src| - 1] == s && src[|src| - 1..] == "'" == src[..1];
    if |s| > 0 { assert src[1] == s[0] && s[0] in s; }
  }

  lemma AllowedOnly(s: string, multiline: bool)
    ensures (exists c :: c in s && Forbidden(c, multiline)) <==> !forall c :: c in s ==> Allowed(c, multiline)
  {
    forall c ensures Forbidden(c, multiline) <==> !Allowed(c, multiline) {}
  }

  // ---- three single quotes

  // Up to two quotes may stand anywhere in it, at the end too.
  lemma TripleLiteral(s: string, more: string, dot: bool)
    requires NoTriple(s) && (|more| > 0 ==> more[0] != '\'')
    ensures Scan("'''" + s + "'''" + more, dot) == Some(|s| + 6)
  {
    hide FindTriple, CloseTriple, LiteralBody, BasicBody, NoTriple;
    var t := "'''" + s + "'''" + more;
    var end := |s| + 3;
    assert TripleAt(t, end, '\'');
    FirstTriple(t, 3, '\'');
    var i := FindTriple(t, 3, '\'').value;
    assert end < i + 3 by {
      if i + 3 <= end {
        assert s[i - 3] == t[i] && s[i - 2] == t[i + 1] && s[i - 1] == t[i + 2];
        Tripled(s, i - 3);
      }
    }
    RunEnds(t, i, end, '\'');
  }

  lemma Tripled(s: string, i: nat)
    requires NoTriple(s)
    ensures !TripleAt(s, i, '\'')
  {}

  lemma {:induction false} RunEnds(t: string, i: nat, end: nat, c: char)
    requires i <= end && end + 3 <= |t| && TripleAt(t, i, c) && TripleAt(t, end, c) && end < i + 3
    requires end + 3 < |t| ==> t[end + 3] != c
    ensures Extend(t, i, c) == end
    decreases end - i
  {
    if i < end { RunEnds(t, i + 1, end, c); }
  }

  // It stands for itself, less a newline at its start, when all its characters are
  // allowed.
  lemma TripleLiteralRead(lead: string, s: string)
    requires lead == "" || lead == "\n" || lead == "\r\n"
    requires lead == "" ==> DropNewline(s) == s
    ensures Rtos("'''" + (lead + s) + "'''") ==
            Str(if forall c :: c in s ==> Allowed(c, true) then Good(s) else Wrong(ForbiddenChar))
  {
    hide Literal, Rtos, DropNewline;
    LiteralCopies(s, true);
    AllowedOnly(s, true);
    LeadDropped(lead, s);
    RtosTriple('\'', lead + s);
    assert ['\'', '\'', '\''] == "'''";
  }

  // Three quotes are taken off each end.
  lemma RtosTriple(q: char, inner: string)
    requires q == '\'' || q == '"'
    ensures var body := DropNewline(inner);
      Rtos([q, q, q] + inner + [q, q, q]) == Str(if q == '\'' then Literal(body, true) else Norm(body, true))
  {
    hide Literal, Norm, DropNewline;
    var src := [q, q, q] + inner + [q, q, q];
    assert Multiline(src);
    assert src[3..|src| - 3] == inner && src[|src| - 3..] == [q, q, q] == src[..3];
  }

  lemma LeadDropped(lead: string, s: string)
    requires lead == "" || lead == "\n" || lead == "\r\n"
    requires lead == "" ==> DropNewline(s) == s
    ensures DropNewline(lead + s) == s
  {
    if lead == "" {
      assert lead + s == s;
    } else {
      assert (lead + s)[|lead|..] == s;
    }
  }

  // ---- three double quotes

  // Every quote of a written string has a backslash before it, and it ends in a
  // backslash exactly when the string does.
  lemma {:induction false} QuotesEscaped(s: string)
    ensures var t := Escaped(s);
      && (forall i :: 0 <= i < |t| && t[i] == '"' ==> i > 0 && t[i - 1] == '\\')
      && (|s| > 0 ==> |t| > 0 && (t[|t| - 1] == '\\' <==> s[|s| - 1] == '\\'))
      && '\n' !in t && '\r' !in t
  {
    hide EscapedChar;
    if |s| > 0 {
      QuotesEscaped(s[1..]);
      CharEscaped(s[0]);
      NothingEscaped();
      var a, b, t := EscapedChar(s[0]), Escaped(s[1..]), Escaped(s);
      forall i | 0 <= i < |t| && t[i] == '"' ensures i > 0 && t[i - 1] == '\\' {
        if i < |a| { assert t[i] == a[i]; } else { assert t[i] == b[i - |a|]; }
      }
    }
  }

  lemma CharEscaped(c: char)
    ensures var t := EscapedChar(c);
      && |t| > 0 && (forall i :: 0 <= i < |t| && t[i] == '"' ==> i > 0 && t[i - 1] == '\\')
      && (t[|t| - 1] == '\\' <==> c == '\\') && '\n' !in t && '\r' !in t
  {
    hide HexText;
    HexShown(c as nat, 4);
  }

  function InTriple(s: string): string {
    "\"\"\"" + Escaped(s) + "\"\"\""
  }

  predicate EndsInBackslash(s: string) {
    |s| > 0 && s[|s| - 1] == '\\'
  }

  // One round of the search for the closing quotes.
  lemma CloseNext(t: string, from: nat)
    requires from > 0
    ensures CloseTriple(t, from) ==
            match FindTriple(t, from, '"')
            case None => None
            case Some(i) => if t[i - 1] == '\\' then CloseTriple(t, i + 1) else Some(Extend(t, i, '"'))
  {}

  lemma FindIs(t: string, from: nat, at: nat)
    requires from <= at && TripleAt(t, at, '"') && forall i :: from <= i < at ==> !TripleAt(t, i, '"')
    ensures FindTriple(t, from, '"') == Some(at)
  {
    FirstTriple(t, from, '"');
    var r := FindTriple(t, from, '"');
    if r.Some? { assert TripleAt(t, r.value, '"'); }
  }

  // Three quotes stand at the end, and one before it behind a quote, but not before.
  lemma NotBefore(e: string, more: string, i: nat)
    requires forall i :: 0 <= i < |e| && e[i] == '"' ==> i > 0 && e[i - 1] == '\\'
    requires 3 <= i < |e| + 3
    ensures TripleAt("\"\"\"" + e + "\"\"\"" + more, i, '"') <==> i == |e| + 2 && e[|e| - 1] == '"'
  {
    var t := "\"\"\"" + e + "\"\"\"" + more;
    assert t[i] == e[i - 3];
    if i + 1 < |e| + 3 { assert t[i + 1] == e[i - 2]; }
  }

  // The closing quotes are the first not behind a backslash, even if that one is
  // itself escaped.
  lemma EscapedCloses(e: string, more: string)
    requires forall i :: 0 <= i < |e| && e[i] == '"' ==> i > 0 && e[i - 1] == '\\'
    requires |more| > 0 ==> more[0] != '"'
    ensures var t := "\"\"\"" + e + "\"\"\"" + more;
      CloseTriple(t, 3) == if EndsInBackslash(e) then CloseTriple(t, |e| + 4) else Some(|e| + 3)
  {
    hide CloseTriple, TripleAt;
    var t, end := "\"\"\"" + e + "\"\"\"" + more, |e| + 3;
    forall i | 3 <= i < end ensures TripleAt(t, i, '"') <==> i == |e| + 2 && e[|e| - 1] == '"' {
      NotBefore(e, more, i);
    }
    Quotes(t, end);
    assert t[end - 1] == if |e| > 0 then e[|e| - 1] else '"';
    if |e| > 1 { assert t[end - 2] == e[|e| - 2]; }
    ClosesFrom(t, end);
  }

  lemma Quotes(t: string, i: nat)
    requires i + 3 <= |t| && t[i..i + 3] == "\"\"\""
    ensures TripleAt(t, i, '"')
  {
    var q := t[i..i + 3];
    assert q[0] == q[1] == q[2] == '"';
  }

  lemma ClosesFrom(t: string, end: nat)
    requires 3 <= end && TripleAt(t, end, '"') && (end + 3 < |t| ==> t[end + 3] != '"')
    requires forall i :: 3 <= i < end ==> (TripleAt(t, i, '"') <==> i == end - 1 && t[end - 1] == '"')
    requires end > 3 && t[end - 1] == '"' ==> t[end - 2] == '\\'
    ensures CloseTriple(t, 3) == if t[end - 1] == '\\' then CloseTriple(t, end + 1) else Some(end)
  {
    hide FindTriple, CloseTriple, Extend;
    ClosesAt(t, end);
    if end > 3 && t[end - 1] == '"' {
      FindIs(t, 3, end - 1);
      CloseNext(t, 3);
    } else if end > 3 {
      FindIs(t, 3, end);
      CloseNext(t, 3);
    }
  }

  lemma ClosesAt(t: string, end: nat)
    requires 3 <= end && TripleAt(t, end, '"') && (end + 3 < |t| ==> t[end + 3] != '"')
    ensures CloseTriple(t, end) == if t[end - 1] == '\\' then CloseTriple(t, end + 1) else Some(end)
    ensures Extend(t, end, '"') == end
  {
    hide FindTriple;
    FindIs(t, end, end);
    RunEnds(t, end, end, '"');
  }

  lemma NoneAfter(t: string, from: nat)
    requires 0 < from <= |t| && forall i :: from + 2 <= i < |t| ==> t[i] != '"'
    ensures CloseTriple(t, from) == None
  {
    FirstTriple(t, from, '"');
  }

  lemma InTripleCloses(s: string, more: string)
    requires |more| > 0 ==> more[0] != '"'
    ensures !EndsInBackslash(s) ==> CloseTriple(InTriple(s) + more, 3) == Some(|Escaped(s)| + 3)
    ensures EndsInBackslash(s) && '"' !in more ==> CloseTriple(InTriple(s) + more, 3) == None
  {
    hide CloseTriple, Escaped;
    var e, t := Escaped(s), InTriple(s) + more;
    QuotesEscaped(s);
    if |s| == 0 { NothingEscaped(); }
    EscapedCloses(e, more);
    if EndsInBackslash(s) && '"' !in more {
      forall i | |e| + 6 <= i < |t| ensures t[i] != '"' { assert t[i] == more[i - |e| - 6]; }
      NoneAfter(t, |e| + 4);
    }
  }

  lemma TripleScan(s: string, more: string, dot: bool)
    requires |more| > 0 ==> more[0] != '"'
    ensures !EndsInBackslash(s) ==> Scan(InTriple(s) + more, dot) == Some(|InTriple(s)|)
    ensures EndsInBackslash(s) && '"' !in more ==> Scan(InTriple(s) + more, dot) == None
  {
    hide CloseTriple, FindTriple, LiteralBody, BasicBody, WellEscaped, Escaped;
    var t := InTriple(s) + more;
    InTripleCloses(s, more);
    WrittenRead(s, true);
    DecodedWasWellEscaped(Escaped(s), true);
    assert t[..3] == "\"\"\"" && t[0] == '"';
    assert t[3..|Escaped(s)| + 3] == Escaped(s);
  }

  // So a written string is one token exactly when it does not end in a backslash.
  lemma TripleWord(s: string, dot: bool)
    ensures WordOk(InTriple(s), dot) <==> !EndsInBackslash(s)
  {
    hide Scan, InTriple;
    var raw := InTriple(s);
    forall rest
      ensures !EndsInBackslash(s) ==> Scan(raw + " " + rest, dot) == Some(|raw|)
    {
      TripleScan(s, " " + rest, dot);
      assert raw + " " + rest == raw + (" " + rest);
    }
    TripleScan(s, " ", dot);
    assert raw + " " + "" == raw + " ";
    TripleHead(s, dot);
  }

  lemma TripleHead(s: string, dot: bool)
    ensures var raw := InTriple(s); |raw| > 0 && raw[0] == '"'
  {}

  // It is read as the string, less a newline at its start.
  lemma TripleRead(lead: string, s: string)
    requires lead == "" || lead == "\n" || lead == "\r\n"
    ensures Rtos("\"\"\"" + (lead + Escaped(s)) + "\"\"\"") == Str(Good(s))
  {
    hide Norm, Rtos, Escaped;
    QuotesEscaped(s);
    LeadDropped(lead, Escaped(s));
    WrittenRead(s, true);
    RtosTriple('"', lead + Escaped(s));
    assert ['"', '"', '"'] == "\"\"\"";
  }

  // The shortest string that does.
  lemma BackslashRefused(dot: bool)
    ensures InTriple("\\") == "\"\"\"\\\\\"\"\"" && Scan("\"\"\"\\\\\"\"\"", dot).None?
  {
    hide Scan;
    assert Escaped("\\") == "\\\\" by { assert "\\"[1..] == ""; }
    TripleScan("\\", "", dot);
    assert InTriple("\\") + "" == InTriple("\\");
  }

  // ---- keys

  // A key is the string between the quotes, whatever characters it has, but a
  // newline is refused.
  lemma LiteralKey(s: string)
    requires '\'' !in s && '\0' !in s
    ensures KeyOf("'" + s + "'") == if '\n' in s then None else Some(s)
  {
    var raw := "'" + s + "'";
    CutNothing(s);
    assert raw[1..|raw| - 1] == s;
    if |s| > 0 { assert raw[1] == s[0] && s[0] in s; }
  }

  lemma TripleKey(s: string)
    requires '\0' !in s
    ensures KeyOf(InTriple(s)) == if '\n' in s then None else Some(s)
  {
    hide Norm, Escaped;
    var raw := InTriple(s);
    CutNothing(s);
    WrittenRead(s, true);
    assert raw[3..|raw| - 3] == Escaped(s);
    assert raw[0] == raw[1] == raw[2] == '"';
  }
}
