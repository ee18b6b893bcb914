// The UTF-8 coder of the TOML reader, in the six-byte form of section 2 of
// RFC 2279.  A byte is a character below 256.

module Utf8 {
  import opened Wrappers

  function Byte(n: nat): (c: char)
    requires n < 256
    ensures c as nat == n
  {
    n as char
  }

  // The codes toml_ucs_to_utf8 turns away: surrogates, the two noncharacters,
  // and whatever does not fit 31 bits.
  predicate Encodable(code: int) {
    && 0 <= code <= 0x7FFF_FFFF
    && !(0xd800 <= code <= 0xdfff)
    && !(0xfffe <= code <= 0xffff)
  }

  // Of the 31-bit numbers, only those of the two blocks of surrogates and the last
  // two of the first 65536 are turned away.
  lemma EncodableBlocks(code: nat)
    ensures Encodable(code) <==>
            code / 0x8000_0000 == 0 && code / 0x400 != 54 && code / 0x400 != 55 && code / 2 != 0x7fff
  {}

  // Bytes in the shortest form of a code.
  function Width(code: int): (n: nat)
    requires 0 <= code <= 0x7FFF_FFFF
    ensures 1 <= n <= 6
  {
    if code <= 0x7F then 1
    else if code <= 0x7FF then 2
    else if code <= 0xFFFF then 3
    else if code <= 0x1F_FFFF then 4
    else if code <= 0x3FF_FFFF then 5
    else 6
  }

  // The n low groups of six bits, as continuation bytes.
  function Continuation(code: nat, n: nat): (s: string)
    ensures |s| == n
  {
    if n == 0 then "" else Continuation(code / 64, n - 1) + [Byte(0x80 + code % 64)]
  }

  // What is left of a code above its n low groups of six bits.
  function Top(code: nat, n: nat): nat {
    if n == 0 then code else Top(code / 64, n - 1)
  }

  // The marker bits of the first byte of a form of n bytes.
  function Lead(n: nat): nat
    requires 1 <= n <= 6
  {
    match n
    case 1 => 0 case 2 => 0xc0 case 3 => 0xe0 case 4 => 0xf0 case 5 => 0xf8 case _ => 0xfc
  }

  // How many values the first byte of a form of n bytes can carry.
  function Room(n: nat): nat
    requires 1 <= n <= 6
  {
    match n
    case 1 => 0x80 case 2 => 0x20 case 3 => 0x10 case 4 => 0x08 case 5 => 0x04 case _ => 0x02
  }

  // The encoding, by its structure: a marked first byte and continuation bytes.
  function Encode(code: int): (s: string)
    requires Encodable(code)
    ensures |s| == Width(code)
  {
    var n := Width(code);
    LeadFits(code);
    [Byte(Lead(n) + Top(code, n - 1))] + Continuation(code, n - 1)
  }

  lemma TopValues(code: nat)
    ensures Top(code, 0) == code && Top(code, 1) == code / 0x40 && Top(code, 2) == code / 0x1000
    ensures Top(code, 3) == code / 0x4_0000 && Top(code, 4) == code / 0x100_0000 && Top(code, 5) == code / 0x4000_0000
  {
    assert Top(code, 2) == Top(code / 64 / 64, 0);
    assert Top(code, 3) == Top(code / 64 / 64 / 64, 0);
    assert Top(code, 4) == Top(code / 64 / 64 / 64 / 64, 0);
    assert Top(code, 5) == Top(code / 64 / 64 / 64, 2) == Top(code / 64 / 64 / 64 / 64 / 64, 0);
  }

  lemma LeadFits(code: int)
    requires 0 <= code <= 0x7FFF_FFFF
    ensures Top(code, Width(code) - 1) < Room(Width(code))
    ensures Lead(Width(code)) + Room(Width(code)) <= 256
  {
    TopValues(code);
  }

  function Low(code: nat): char { Byte(0x80 + code % 64) }

  // The continuation bytes spelled out, as the C code computes them.
  lemma Spell1(c: nat)
    ensures Continuation(c, 1) == [Low(c)]
  {
    assert Continuation(c / 64, 0) == "";
  }

  lemma Spell2(c: nat)
    ensures Continuation(c, 2) == [Low(c / 0x40), Low(c)]
  {
    Spell1(c / 64);
  }

  lemma Spell3(c: nat)
    ensures Continuation(c, 3) == [Low(c / 0x1000), Low(c / 0x40), Low(c)]
  {
    Spell2(c / 64);
    assert c / 64 / 0x40 == c / 0x1000;
  }

  lemma Spell4(c: nat)
    ensures Continuation(c, 4) == [Low(c / 0x4_0000), Low(c / 0x1000), Low(c / 0x40), Low(c)]
  {
    Spell3(c / 64);
    assert c / 64 / 0x1000 == c / 0x4_0000 && c / 64 / 0x40 == c / 0x1000;
  }

  lemma Spell5(c: nat)
    ensures Continuation(c, 5) == [Low(c / 0x100_0000), Low(c / 0x4_0000), Low(c / 0x1000), Low(c / 0x40), Low(c)]
  {
    Spell4(c / 64);
    assert c / 64 / 0x4_0000 == c / 0x100_0000 && c / 64 / 0x1000 == c / 0x4_0000 && c / 64 / 0x40 == c / 0x1000;
  }

  // The encoding spelled out, as toml_ucs_to_utf8 writes it.
  function Spelled(code: int): (s: string)
    requires Encodable(code)
    ensures s == Encode(code)
  {
    TopValues(code);
    if code <= 0x7F then
      assert Continuation(code, 0) == "";
      [Byte(code)]
    else if code <= 0x7FF then
      Spell1(code);
      [Byte(0xc0 + code / 0x40), Low(code)]
    else if code <= 0xFFFF then
      Spell2(code);
      [Byte(0xe0 + code / 0x1000), Low(code / 0x40), Low(code)]
    else if code <= 0x1F_FFFF then
      Spell3(code);
      [Byte(0xf0 + code / 0x4_0000), Low(code / 0x1000), Low(code / 0x40), Low(code)]
    else if code <= 0x3FF_FFFF then
      Spell4(code);
      [Byte(0xf8 + code / 0x100_0000), Low(code / 0x4_0000), Low(code / 0x1000), Low(code / 0x40), Low(code)]
    else
      Spell5(code);
      [Byte(0xfc + code / 0x4000_0000), Low(code / 0x100_0000), Low(code / 0x4_0000), Low(code / 0x1000),
       Low(code / 0x40), Low(code)]
  }

  // The one- to three-byte forms of toml_ucs_to_utf8.
  method WriteShort(code: int, buf: array<char>, off: nat) returns (n: nat)
    requires off + 6 <= buf.Length && Encodable(code) && code <= 0xFFFF
    modifies buf
    ensures n == Width(code) && buf[off..off + n] == Spelled(code)
    ensures forall j :: 0 <= j < buf.Length && !(off <= j < off + n) ==> buf[j] == old(buf[j])
  {
    hide Encode, Low;
    if code <= 0x7F {
      buf[off] := Byte(code);
      n := 1;
    } else if code <= 0x7FF {
      buf[off] := Byte(0xc0 + code / 0x40);
      buf[off + 1] := Low(code);
      n := 2;
    } else {
      buf[off] := Byte(0xe0 + code / 0x1000);
      buf[off + 1] := Low(code / 0x40);
      buf[off + 2] := Low(code);
      n := 3;
    }
  }

  // The four-, five- and six-byte forms.
  method WriteFour(code: int, buf: array<char>, off: nat)
    requires off + 6 <= buf.Length && 0xFFFF < code <= 0x1F_FFFF
    modifies buf
    ensures buf[off..off + 4] == Spelled(code)
    ensures forall j :: 0 <= j < buf.Length && !(off <= j < off + 4) ==> buf[j] == old(buf[j])
  {
    hide Encode, Low;
    buf[off] := Byte(0xf0 + code / 0x4_0000);
    buf[off + 1] := Low(code / 0x1000);
    buf[off + 2] := Low(code / 0x40);
    buf[off + 3] := Low(code);
  }

  method WriteFive(code: int, buf: array<char>, off: nat)
    requires off + 6 <= buf.Length && 0x1F_FFFF < code <= 0x3FF_FFFF
    modifies buf
    ensures buf[off..off + 5] == Spelled(code)
    ensures forall j :: 0 <= j < buf.Length && !(off <= j < off + 5) ==> buf[j] == old(buf[j])
  {
    hide Encode, Low;
    buf[off] := Byte(0xf8 + code / 0x100_0000);
    buf[off + 1] := Low(code / 0x4_0000);
    buf[off + 2] := Low(code / 0x1000);
    buf[off + 3] := Low(code / 0x40);
    buf[off + 4] := Low(code);
  }

  method WriteSix(code: int, buf: array<char>, off: nat)
    requires off + 6 <= buf.Length && 0x3FF_FFFF < code <= 0x7FFF_FFFF
    modifies buf
    ensures buf[off..off + 6] == Spelled(code)
    ensures forall j :: 0 <= j < buf.Length && !(off <= j < off + 6) ==> buf[j] == old(buf[j])
  {
    hide Encode, Low;
    buf[off] := Byte(0xfc + code / 0x4000_0000);
    buf[off + 1] := Low(code / 0x100_0000);
    buf[off + 2] := Low(code / 0x4_0000);
    buf[off + 3] := Low(code / 0x1000);
    buf[off + 4] := Low(code / 0x40);
    buf[off + 5] := Low(code);
  }

  method WriteLong(code: int, buf: array<char>, off: nat) returns (n: nat)
    requires off + 6 <= buf.Length && Encodable(code) && code > 0xFFFF
    modifies buf
    ensures n == Width(code) && buf[off..off + n] == Spelled(code)
    ensures forall j :: 0 <= j < buf.Length && !(off <= j < off + n) ==> buf[j] == old(buf[j])
  {
    hide Spelled;
    if code <= 0x1F_FFFF {
      WriteFour(code, buf, off);
      n := 4;
    } else if code <= 0x3FF_FFFF {
      WriteFive(code, buf, off);
      n := 5;
    } else {
      WriteSix(code, buf, off);
      n := 6;
    }
  }

  // toml_ucs_to_utf8, writing at buf[off ..]
  method UcsToUtf8(code: int, buf: array<char>, off: nat) returns (n: int)
    requires off + 6 <= buf.Length
    modifies buf
    ensures n == if Encodable(code) then Width(code) else -1
    ensures n >= 0 ==> buf[off..off + n] == Encode(code)
    ensures forall j :: 0 <= j < buf.Length && !(off <= j < off + n) ==> buf[j] == old(buf[j])
  {
    if 0xd800 <= code <= 0xdfff { return -1; }
    if 0xfffe <= code <= 0xffff { return -1; }
    if code < 0 { return -1; }
    if code <= 0xFFFF {
      n := WriteShort(code, buf, off);
    } else if code <= 0x7FFF_FFFF {
      n := WriteLong(code, buf, off);
    } else {
      return -1;
    }
  }

  // The continuation bytes of a form, folded onto the value so far.
  function Gather(s: string, n: nat, v: nat): Option<nat> {
    if n == 0 then Some(v)
    else if |s| == 0 || !(0x80 <= s[0] as nat < 0xC0) then None
    else Gather(s[1..], n - 1, v * 64 + s[0] as nat % 64)
  }

  // The form a first byte announces, or 0 for no form.
  function Announced(first: char): (n: nat)
    ensures n <= 6
  {
    var i := first as nat;
    if i < 0x80 then 1
    else if 0xc0 <= i < 0xe0 then 2
    else if 0xe0 <= i < 0xf0 then 3
    else if 0xf0 <= i < 0xf8 then 4
    else if 0xf8 <= i < 0xfc then 5
    else if 0xfc <= i < 0xfe then 6
    else 0
  }

  datatype Decoded = Bad | Code(code: nat, width: nat)

  function Decode(orig: string, len: nat): Decoded
    requires |orig| > 0 && len <= |orig|
  {
    var n := Announced(orig[0]);
    if n == 0 || len < n then Bad
    else match Gather(orig[1..], n - 1, orig[0] as nat - Lead(n))
      case None => Bad
      case Some(v) => Code(v, n)
  }

  // toml_utf8_to_ucs: the first byte is read before the length is looked at.
  method Utf8ToUcs(orig: string, len: nat) returns (r: Decoded)
    requires |orig| > 0 && len <= |orig|
    ensures r == Decode(orig, len)
  {
    var n := Announced(orig[0]);
    if n == 0 || len < n { return Bad; }
    var v: nat := orig[0] as nat - Lead(n);
    for j := 0 to n - 1
      invariant Gather(orig[1 + j..], n - 1 - j, v) == Gather(orig[1..], n - 1, orig[0] as nat - Lead(n))
    {
      var i := orig[1 + j];
      if !(0x80 <= i as nat < 0xC0) { return Bad; }
      assert orig[1 + j..][1..] == orig[2 + j..];
      v := v * 64 + i as nat % 64;
    }
    return Code(v, n);
  }

  lemma {:induction false} TopStep(code: nat, n: nat)
    ensures Top(code, n + 1) == Top(code, n) / 64
  {
    if n > 0 { TopStep(code / 64, n - 1); }
  }

  lemma {:induction false} FirstContinuation(code: nat, n: nat)
    ensures Continuation(code, n + 1) == [Low(Top(code, n))] + Continuation(code, n)
  {
    if n > 0 { FirstContinuation(code / 64, n - 1); }
  }

  // Reading the continuation bytes of a code onto its top gives the code back.
  lemma {:induction false} GatherContinuation(code: nat, n: nat, rest: string)
    ensures Gather(Continuation(code, n) + rest, n, Top(code, n)) == Some(code)
  {
    if n > 0 {
      FirstContinuation(code, n - 1);
      TopStep(code, n - 1);
      var s := Continuation(code, n) + rest;
      assert s[1..] == Continuation(code, n - 1) + rest;
      GatherContinuation(code, n - 1, rest);
    }
  }

  // And conversely: bytes that gather onto v are the continuation of the
  // result, whose top is v.
  lemma {:induction false} ContinuationGathered(s: string, n: nat, v: nat)
    requires Gather(s, n, v).Some?
    ensures n <= |s|
    ensures var c := Gather(s, n, v).value; Top(c, n) == v && Continuation(c, n) == s[..n]
  {
    if n > 0 {
      ContinuationGathered(s[1..], n - 1, v * 64 + s[0] as nat % 64);
      var c := Gather(s, n, v).value;
      TopStep(c, n - 1);
      FirstContinuation(c, n - 1);
      assert s[..n] == [s[0]] + s[1..][..n - 1];
    }
  }

  // Decoding undoes encoding, whatever bytes follow.
  lemma DecodeEncode(code: int, rest: string, len: nat)
    requires Encodable(code) && Width(code) <= len <= Width(code) + |rest|
    ensures Decode(Encode(code) + rest, len) == Code(code, Width(code))
  {
    var n, s := Width(code), Encode(code) + rest;
    LeadFits(code);
    assert s[1..] == Continuation(code, n - 1) + rest;
    GatherContinuation(code, n - 1, rest);
    assert Announced(s[0]) == n;
  }

  // So no encoding starts another one.
  lemma PrefixFree(a: int, b: int)
    requires Encodable(a) && Encodable(b) && Encode(a) <= Encode(b)
    ensures a == b
  {
    var rest := Encode(b)[Width(a)..];
    assert Encode(a) + rest == Encode(b) + "";
    DecodeEncode(a, rest, Width(b));
    DecodeEncode(b, "", Width(b));
  }

  // Encoding undoes decoding exactly on the shortest forms of codes the
  // encoder accepts.
  lemma EncodeDecode(orig: string, len: nat)
    requires |orig| > 0 && len <= |orig| && Decode(orig, len).Code?
    ensures var d := Decode(orig, len);
      && d.width <= len && d.code <= 0x7FFF_FFFF
      && (Encodable(d.code) ==> (Encode(d.code) == orig[..d.width] <==> d.width == Width(d.code)))
  {
    var n := Announced(orig[0]);
    ContinuationGathered(orig[1..], n - 1, orig[0] as nat - Lead(n));
    var c := Decode(orig, len).code;
    TopValues(c);
    assert orig[..n] == [orig[0]] + orig[1..][..n - 1];
  }
}
