// norm_basic_str: decoding the body of a double-quoted TOML string into a
// growing buffer.

module BasicString {
  import opened Wrappers
  import opened Utf8

  datatype Fault = ForbiddenChar | LastBackslash | ShortHex | BadHex | BadCode | BadEscape
  datatype Text = Good(value: string) | Wrong(fault: Fault)

  function Prepend(x: string, r: Text): Text {
    match r case Good(v) => Good(x + v) case Wrong(_) => r
  }

  predicate Blank(c: char) { c == ' ' || c == '\t' || c == '\r' }
  predicate Space(c: char) { Blank(c) || c == '\n' }

  // U+0000 to U+0008, U+000A to U+001F, U+007F; multi-line strings may hold
  // line ends.
  predicate Forbidden(c: char, multiline: bool) {
    && (c as nat <= 0x08 || 0x0a <= c as nat <= 0x1f || c as nat == 0x7f)
    && !(multiline && (c == '\r' || c == '\n'))
  }

  // s + strspn(s, " \t\r") and s + strspn(s, " \t\r\n")
  function SkipBlanks(s: string): (r: string)
    ensures |r| <= |s|
    ensures |r| > 0 ==> !Blank(r[0])
  {
    if |s| > 0 && Blank(s[0]) then SkipBlanks(s[1..]) else s
  }

  function SkipSpaces(s: string): (r: string)
    ensures |r| <= |s|
    ensures |r| > 0 ==> !Space(r[0])
  {
    if |s| > 0 && Space(s[0]) then SkipSpaces(s[1..]) else s
  }

  // Only blanks come before the next newline.
  predicate LineEnds(s: string) {
    var r := SkipBlanks(s);
    |r| > 0 && r[0] == '\n'
  }

  predicate HexDigit(c: char) { '0' <= c <= '9' || 'A' <= c <= 'F' }

  function HexValue(c: char): (v: nat)
    requires HexDigit(c)
    ensures v < 16
  {
    if c <= '9' then c as nat - '0' as nat else c as nat - 'A' as nat + 10
  }

  datatype Hex = HexCode(code: nat) | HexFault(fault: Fault)

  // The value of n hex digits at the head of s, on top of `acc`.
  function ReadHex(s: string, n: nat, acc: nat): Hex {
    if n == 0 then HexCode(acc)
    else if |s| == 0 then HexFault(ShortHex)
    else if !HexDigit(s[0]) then HexFault(BadHex)
    else ReadHex(s[1..], n - 1, acc * 16 + HexValue(s[0]))
  }

  function HexCount(c: char): nat {
    if c == 'u' then 4 else 8
  }

  // The one-character escapes.
  function Simple(c: char): Option<char> {
    match c
    case 'b' => Some(Byte(8))
    case 't' => Some(Byte(9))
    case 'n' => Some(Byte(10))
    case 'f' => Some(Byte(12))
    case 'r' => Some(Byte(13))
    case '"' => Some('"')
    case '\\' => Some('\\')
    case _ => None
  }

  // The decoded text of a body.
  function Norm(s: string, multiline: bool): Text
    decreases |s|
  {
    if |s| == 0 then Good("")
    else if s[0] != '\\' then
      if Forbidden(s[0], multiline) then Wrong(ForbiddenChar) else Prepend([s[0]], Norm(s[1..], multiline))
    else if |s| == 1 then Wrong(LastBackslash)
    else if multiline && LineEnds(s[1..]) then Norm(SkipSpaces(s[1..]), multiline)
    else if s[1] == 'u' || s[1] == 'U' then
      match ReadHex(s[2..], HexCount(s[1]), 0)
      case HexFault(f) => Wrong(f)
      case HexCode(code) =>
        if !Encodable(code) then Wrong(BadCode)
        else
          HexLength(s[2..], HexCount(s[1]), 0);
          Prepend(Encode(code), Norm(s[2 + HexCount(s[1])..], multiline))
    else match Simple(s[1])
      case None => Wrong(BadEscape)
      case Some(c) => Prepend([c], Norm(s[2..], multiline))
  }

  lemma {:induction false} HexLength(s: string, n: nat, acc: nat)
    requires ReadHex(s, n, acc).HexCode?
    ensures |s| >= n
  {
    if n > 0 { HexLength(s[1..], n - 1, acc * 16 + HexValue(s[0])); }
  }

  // b shifted left by n hex digits
  function HexShift(b: nat, n: nat): nat
    decreases n
  {
    if n == 0 then b else HexShift(16 * b, n - 1)
  }

  lemma {:induction false} HexBound(s: string, n: nat, acc: nat, b: nat)
    requires ReadHex(s, n, acc).HexCode? && acc < b
    ensures ReadHex(s, n, acc).code < HexShift(b, n)
  {
    if n > 0 { HexBound(s[1..], n - 1, acc * 16 + HexValue(s[0]), 16 * b); }
  }

  // Decoding never lengthens: the longest escapes are \uXXXX, six characters
  // for at most three bytes, and \UXXXXXXXX, ten for at most six.
  lemma {:induction false} NormShrinks(s: string, multiline: bool)
    requires Norm(s, multiline).Good?
    ensures |Norm(s, multiline).value| <= |s|
    decreases |s|
  {
    if |s| == 0 {
    } else if s[0] != '\\' {
      NormShrinks(s[1..], multiline);
    } else if multiline && LineEnds(s[1..]) {
      NormShrinks(SkipSpaces(s[1..]), multiline);
    } else if s[1] == 'u' || s[1] == 'U' {
      var n := HexCount(s[1]);
      HexLength(s[2..], n, 0);
      HexBound(s[2..], n, 0, 1);
      assert HexShift(1, 4) == HexShift(256, 2) == 0x1_0000;
      NormShrinks(s[2 + n..], multiline);
    } else {
      NormShrinks(s[2..], multiline);
    }
  }

  // expand(): a larger block with the old contents
  method Expand(dst: array<char>, max: nat) returns (x: array<char>)
    requires max >= dst.Length
    ensures fresh(x) && x.Length == max && x[..dst.Length] == dst[..]
  {
    x := new char[max];
    for i := 0 to dst.Length
      invariant x[..i] == dst[..i]
    {
      x[i] := dst[i];
    }
    assert dst[..dst.Length] == dst[..];
  }

  // text[sp + strspn(text + sp, ...)]: the end of the text stops the span
  method Span(text: string, sp: nat, newlines: bool) returns (i: nat)
    requires sp <= |text|
    ensures sp <= i <= |text|
    ensures text[i..] == if newlines then SkipSpaces(text[sp..]) else SkipBlanks(text[sp..])
  {
    i := sp;
    while i < |text| && (Blank(text[i]) || (newlines && text[i] == '\n'))
      invariant sp <= i <= |text|
      invariant if newlines then SkipSpaces(text[i..]) == SkipSpaces(text[sp..])
                else SkipBlanks(text[i..]) == SkipBlanks(text[sp..])
    {
      assert text[i..][1..] == text[i + 1..];
      i := i + 1;
    }
  }

  // What follows the body: its closing quote, or the end of the text.
  predicate Fenced(text: string, sq: nat) {
    sq <= |text| && (sq < |text| ==> !Space(text[sq]))
  }

  lemma {:induction false} BlanksStop(a: string, b: string)
    requires |b| > 0 ==> !Blank(b[0])
    ensures SkipBlanks(a + b) == SkipBlanks(a) + b
  {
    if |a| == 0 {
      assert a + b == b;
    } else if Blank(a[0]) {
      assert (a + b)[1..] == a[1..] + b;
      BlanksStop(a[1..], b);
    }
  }

  lemma {:induction false} SpacesStop(a: string, b: string)
    requires |b| > 0 ==> !Space(b[0])
    ensures SkipSpaces(a + b) == SkipSpaces(a) + b
  {
    if |a| == 0 {
      assert a + b == b;
    } else if Space(a[0]) {
      assert (a + b)[1..] == a[1..] + b;
      SpacesStop(a[1..], b);
    }
  }

  // Between sp and the fence, the spans of the C code are those of the body.
  lemma SpansInside(text: string, sp: nat, sq: nat)
    requires sp <= sq && Fenced(text, sq)
    ensures SkipBlanks(text[sp..]) == SkipBlanks(text[sp..sq]) + text[sq..]
    ensures SkipSpaces(text[sp..]) == SkipSpaces(text[sp..sq]) + text[sq..]
    ensures LineEnds(text[sp..]) == LineEnds(text[sp..sq])
  {
    assert text[sp..] == text[sp..sq] + text[sq..];
    BlanksStop(text[sp..sq], text[sq..]);
    SpacesStop(text[sp..sq], text[sq..]);
  }

  lemma PrependAppend(x: string, y: string, r: Text)
    ensures Prepend(x, Prepend(y, r)) == Prepend(x + y, r)
  {
    if r.Good? { assert x + (y + r.value) == x + y + r.value; }
  }

  // The hex digits of a \u or \U escape.
  method ScanHex(text: string, sp0: nat, sq: nat, nhex: nat) returns (r: Hex, sp: nat)
    requires sp0 <= sq <= |text|
    ensures r == ReadHex(text[sp0..sq], nhex, 0)
    ensures r.HexCode? ==> sp == sp0 + nhex <= sq
  {
    sp := sp0;
    var ucs: nat := 0;
    for i := 0 to nhex
      invariant sp == sp0 + i <= sq
      invariant ReadHex(text[sp..sq], nhex - i, ucs) == ReadHex(text[sp0..sq], nhex, 0)
    {
      if sp >= sq { return HexFault(ShortHex), sp; }
      if !HexDigit(text[sp]) { return HexFault(BadHex), sp; }
      assert text[sp..sq][1..] == text[sp + 1..sq];
      ucs := ucs * 16 + HexValue(text[sp]);
      sp := sp + 1;
    }
    return HexCode(ucs), sp;
  }

  // The line-ending backslash of a multi-line string, at text[sp - 1].
  method SkipLineEnd(text: string, sp: nat, sq: nat) returns (ends: bool, sp': nat)
    requires sp <= sq && Fenced(text, sq)
    ensures ends == LineEnds(text[sp..sq])
    ensures sp <= sp' <= sq
    ensures text[sp'..sq] == if ends then SkipSpaces(text[sp..sq]) else text[sp..sq]
  {
    SpansInside(text, sp, sq);
    var i := Span(text, sp, false);
    ends := i < |text| && text[i] == '\n';
    sp' := sp;
    if ends {
      sp' := Span(text, sp, true);
      assert |text[sp'..]| == |SkipSpaces(text[sp..sq])| + |text[sq..]|;
      assert text[sp'..sq] == text[sp'..][..sq - sp'];
    }
  }

  // The digits of a \u or \U escape, from text[sp] on, and the code they give.
  method DecodeCode(text: string, sp: nat, sq: nat, ch: char, dst: array<char>, off: nat)
    returns (fault: Option<Fault>, sp': nat, off': nat)
    requires sp <= sq <= |text| && (ch == 'u' || ch == 'U') && off + 10 < dst.Length
    modifies dst
    ensures sp <= sp' && off <= off' <= off + 6
    ensures var hex := ReadHex(text[sp..sq], HexCount(ch), 0);
      if hex.HexFault? then fault == Some(hex.fault)
      else if !Encodable(hex.code) then fault == Some(BadCode)
      else fault == None && sp' == sp + HexCount(ch) <= sq
           && off' == off + Width(hex.code) && dst[off..off'] == Encode(hex.code)
    ensures dst[..off] == old(dst[..off])
  {
    hide ReadHex, Encode;
    var hex;
    sp', off', fault := sp, off, None;
    hex, sp' := ScanHex(text, sp, sq, if ch == 'u' then 4 else 8);
    if hex.HexFault? { return Some(hex.fault), sp, off'; }
    var n := UcsToUtf8(hex.code, dst, off);
    if n == -1 { return Some(BadCode), sp', off'; }
    off' := off + n;
  }

  // The escape whose backslash is at text[sp]; what it stands for is written
  // at dst[off ..], up to six bytes.
  method DecodeEscape(text: string, sp: nat, sq: nat, multiline: bool, dst: array<char>, off: nat)
    returns (fault: Option<Fault>, sp': nat, off': nat)
    requires sp < sq && Fenced(text, sq) && text[sp] == '\\'
    requires off + 10 < dst.Length
    modifies dst
    ensures fault.Some? ==> Norm(text[sp..sq], multiline) == Wrong(fault.value)
    ensures fault.None? ==>
      && sp < sp' <= sq && off <= off' <= off + 6
      && dst[..off] == old(dst[..off])
      && Norm(text[sp..sq], multiline) == Prepend(dst[off..off'], Norm(text[sp'..sq], multiline))
  {
    ghost var s := text[sp..sq];
    sp', off', fault := sp + 1, off, None;
    if sp' >= sq { return Some(LastBackslash), sp', off'; }
    assert s[1..] == text[sp + 1..sq] && s[2..] == text[sp + 2..sq];
    if multiline {
      var ends;
      ends, sp' := SkipLineEnd(text, sp', sq);
      if ends { return; }
    }
    var ch := text[sp'];
    sp' := sp' + 1;
    if ch == 'u' || ch == 'U' {
      fault, sp', off' := DecodeCode(text, sp', sq, ch, dst, off);
    } else {
      var c := Simple(ch);
      if c.None? { return Some(BadEscape), sp', off'; }
      dst[off] := c.value;
      off' := off + 1;
    }
  }

  lemma PlainNorm(s: string, multiline: bool)
    ensures |s| == 0 ==> Norm(s, multiline) == Good("")
    ensures |s| > 0 && s[0] != '\\' ==>
              Norm(s, multiline) == if Forbidden(s[0], multiline) then Wrong(ForbiddenChar)
                                    else Prepend([s[0]], Norm(s[1..], multiline))
  {}

  // norm_basic_str.  Every write lands in the buffer, because each round starts
  // with more than ten free bytes.
  method NormBasicStr(text: string, src: nat, sq: nat, multiline: bool) returns (r: Text)
    requires src <= sq && Fenced(text, sq)
    ensures r == Norm(text[src..sq], multiline)
  {
    hide Norm;
    var dst := new char[0];
    var off := 0;
    var sp := src;
    ghost var whole := Norm(text[src..sq], multiline);
    while true
      invariant src <= sp <= sq && off <= dst.Length && fresh(dst)
      invariant Prepend(dst[..off], Norm(text[sp..sq], multiline)) == whole
      decreases sq - sp
    {
      ghost var done := dst[..off];
      if off >= dst.Length - 10 {
        dst := Expand(dst, dst.Length + 50);
        assert dst[..off] == done;
      }
      PlainNorm(text[sp..sq], multiline);
      if sp >= sq { break; }
      if text[sp] != '\\' {
        if Forbidden(text[sp], multiline) { return Wrong(ForbiddenChar); }
        assert text[sp..sq][1..] == text[sp + 1..sq];
        PrependAppend(done, [text[sp]], Norm(text[sp + 1..sq], multiline));
        dst[off] := text[sp];
        off := off + 1;
        sp := sp + 1;
        assert dst[..off] == done + [text[sp - 1]];
      } else {
        var fault, sp', off' := DecodeEscape(text, sp, sq, multiline, dst, off);
        if fault.Some? { return Wrong(fault.value); }
        PrependAppend(done, dst[off..off'], Norm(text[sp'..sq], multiline));
        assert dst[..off'] == done + dst[off..off'];
        sp, off := sp', off';
      }
    }
    dst[off] := '\0';
    r := Good(dst[..off]);
  }

  // norm_lit_str: a copy, unless a forbidden character turns up.
  function Literal(s: string, multiline: bool): Text {
    if |s| == 0 then Good("")
    else if Forbidden(s[0], multiline) then Wrong(ForbiddenChar)
    else Prepend([s[0]], Literal(s[1..], multiline))
  }

  method NormLitStr(text: string, src: nat, sq: nat, multiline: bool) returns (r: Text)
    requires src <= sq <= |text|
    ensures r == Literal(text[src..sq], multiline)
  {
    var dst := new char[0];
    var off := 0;
    ghost var whole := Literal(text[src..sq], multiline);
    for sp := src to sq
      invariant off <= dst.Length && fresh(dst)
      invariant Prepend(dst[..off], Literal(text[sp..sq], multiline)) == whole
    {
      ghost var done := dst[..off];
      if off >= dst.Length - 10 {
        dst := Expand(dst, dst.Length + 50);
        assert dst[..off] == done;
      }
      if Forbidden(text[sp], multiline) { return Wrong(ForbiddenChar); }
      assert text[sp..sq][1..] == text[sp + 1..sq];
      PrependAppend(done, [text[sp]], Literal(text[sp + 1..sq], multiline));
      dst[off] := text[sp];
      off := off + 1;
      assert dst[..off] == done + [text[sp]];
    }
    r := Good(dst[..off]);
  }
}
