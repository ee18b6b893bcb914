// When a key stands for the whole text it spells: \u0000 puts a NUL into a
// string that C code then takes to end there.

module NulKeys {
  import opened Wrappers
  import opened Utf8
  import opened BasicString
  import opened TomlKeys

  // ---- where the NUL comes from

  predicate Zeros(s: string, n: nat) {
    |s| >= n && forall i :: 0 <= i < n ==> s[i] == '0'
  }

  // Some escape in the body of a string is \u0000 or \U00000000.
  predicate NulEscaped(s: string, multiline: bool)
    decreases |s|
  {
    if |s| < 2 then false
    else if s[0] != '\\' then NulEscaped(s[1..], multiline)
    else if multiline && LineEnds(s[1..]) then NulEscaped(SkipSpaces(s[1..]), multiline)
    else if s[1] == 'u' || s[1] == 'U' then
      var n := HexCount(s[1]);
      |s| >= 2 + n && (Zeros(s[2..], n) || NulEscaped(s[2 + n..], multiline))
    else NulEscaped(s[2..], multiline)
  }

  lemma {:induction false} HexZero(s: string, n: nat, acc: nat)
    requires ReadHex(s, n, acc).HexCode?
    ensures ReadHex(s, n, acc).code == 0 <==> acc == 0 && Zeros(s, n)
  {
    if n > 0 {
      HexZero(s[1..], n - 1, acc * 16 + HexValue(s[0]));
      HexLength(s[1..], n - 1, acc * 16 + HexValue(s[0]));
      assert Zeros(s, n) <==> s[0] == '0' && Zeros(s[1..], n - 1) by {
        if s[0] == '0' && Zeros(s[1..], n - 1) {
          forall i | 0 <= i < n ensures s[i] == '0' {
            if i > 0 { assert s[i] == s[1..][i - 1]; }
          }
        }
      }
    }
  }

  lemma {:induction false} ContinuationNoNul(code: nat, n: nat)
    ensures '\0' !in Continuation(code, n)
  {
    if n > 0 { ContinuationNoNul(code / 64, n - 1); }
  }

  lemma EncodeNul(code: int)
    requires Encodable(code)
    ensures '\0' in Encode(code) <==> code == 0
  {
    var n := Width(code);
    LeadFits(code);
    ContinuationNoNul(code, n - 1);
    if n == 1 { TopValues(code); }
  }

  // A string decodes to a text with a NUL exactly when one is written in it.
  lemma {:induction false} NulShows(s: string, multiline: bool)
    requires Norm(s, multiline).Good?
    ensures '\0' in Norm(s, multiline).value <==> NulEscaped(s, multiline)
    decreases |s|
  {
    if |s| == 0 {
    } else if s[0] != '\\' {
      NulShows(s[1..], multiline);
    } else if multiline && LineEnds(s[1..]) {
      NulShows(SkipSpaces(s[1..]), multiline);
    } else if s[1] == 'u' || s[1] == 'U' {
      var n := HexCount(s[1]);
      HexLength(s[2..], n, 0);
      HexZero(s[2..], n, 0);
      EncodeNul(ReadHex(s[2..], n, 0).code);
      NulShows(s[2 + n..], multiline);
    } else {
      NulShows(s[2..], multiline);
    }
  }

  // ---- what it does to a key

  lemma {:induction false} CutWhole(s: string)
    ensures Cut(s) == s <==> '\0' !in s
  {
    if |s| > 0 {
      CutWhole(s[1..]);
      assert s == [s[0]] + s[1..];
    }
  }

  predicate Quoted(raw: string) {
    Quote(At(raw, 0)) && |raw| >= 2 * QuoteCount(raw, 0)
  }

  function Body(raw: string): string
    requires Quoted(raw)
  {
    raw[QuoteCount(raw, 0)..|raw| - QuoteCount(raw, 0)]
  }

  // The whole text that a key spells, with whatever follows a NUL.
  function Whole(raw: string): Text {
    if Quoted(raw) && raw[0] == '"' then Norm(Body(raw), QuoteCount(raw, 0) == 3)
    else if Quoted(raw) then Good(Body(raw))
    else Good(raw)
  }

  predicate HasNulEscape(raw: string) {
    Quoted(raw) && raw[0] == '"' && NulEscaped(Body(raw), QuoteCount(raw, 0) == 3)
  }

  // A key is the whole text it spells exactly when no escape in it is a NUL.
  lemma KeyIsWhole(raw: string)
    requires KeyOf(raw).Some? && '\0' !in raw
    ensures Whole(raw).Good? && KeyOf(raw) == Some(Cut(Whole(raw).value))
    ensures KeyOf(raw).value == Whole(raw).value <==> !HasNulEscape(raw)
  {
    hide Norm, NulEscaped;
    CutWhole(Whole(raw).value);
    if Quoted(raw) && raw[0] == '"' { NulShows(Body(raw), QuoteCount(raw, 0) == 3); }
  }

  // Two keys without such an escape are the same exactly when they spell the
  // same text.
  lemma SameKey(a: string, b: string)
    requires KeyOf(a).Some? && '\0' !in a && !HasNulEscape(a)
    requires KeyOf(b).Some? && '\0' !in b && !HasNulEscape(b)
    ensures KeyOf(a) == KeyOf(b) <==> Whole(a) == Whole(b)
  {
    hide KeyOf, Whole, HasNulEscape;
    KeyIsWhole(a);
    KeyIsWhole(b);
  }

  lemma NulDecodes()
    ensures Norm("a\\u0000b", false) == Good("a\0b") && NulEscaped("a\\u0000b", false)
  {
    var s := "a\\u0000b";
    var hex := s[3..];
    assert s[1..][2..] == hex && s[1..][6..] == "b" && "b"[1..] == "";
    assert ReadHex(hex, 4, 0) == ReadHex(hex[1..], 3, 0) == ReadHex(hex[1..][1..], 2, 0);
    assert ReadHex(hex[1..][1..], 2, 0) == ReadHex(hex[1..][1..][1..], 1, 0) == HexCode(0);
    assert Zeros(hex, 4);
    assert Norm("b", false) == Prepend("b", Norm("", false)) == Good("b");
    assert Continuation(0, 0) == "" && Encode(0) == "\0";
    assert Norm(s[1..], false) == Prepend("\0", Norm("b", false));
    assert Norm(s, false) == Prepend("a", Norm(s[1..], false));
  }

  // With one, keys that spell different texts can be the same.
  lemma NulCollision()
    ensures KeyOf("\"a\\u0000b\"") == KeyOf("a") == Some("a")
    ensures Whole("\"a\\u0000b\"") != Whole("a")
    ensures HasNulEscape("\"a\\u0000b\"")
  {
    hide Norm, NulEscaped;
    var raw, body := "\"a\\u0000b\"", "a\\u0000b";
    assert QuoteCount(raw, 0) == 1 && raw[1..|raw| - 1] == body;
    NulDecodes();
    var v := "a\0b";
    assert v[1..] == "\0b" && Cut(v[1..]) == "" && Cut(v) == ['a'] + "" == "a";
    assert Norm(body, false) == Good(v);
    assert At(raw, 0) == '"' && KeyOf(raw) == KeyInside(body, '"', false);
    assert KeyOf(raw) == Some("a");
    assert At("a", 0) == 'a' && KeyOf("a") == Some("a");
  }
}
