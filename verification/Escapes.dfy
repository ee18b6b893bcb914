// What the escapes of a double-quoted string stand for: the decoder undoes a
// writer that knows nothing of it.

module Escapes {
  import opened Utf8
  import opened BasicString

  // ---- hex digits

  function HexText(n: nat, digits: nat): (s: string)
    ensures |s| == digits
  {
    if digits == 0 then "" else HexText(n / 16, digits - 1) + ["0123456789ABCDEF"[n % 16]]
  }

  function Power16(digits: nat): nat {
    if digits == 0 then 1 else 16 * Power16(digits - 1)
  }

  lemma {:induction false} ReadMore(s: string, n: nat, c: char, rest: string, acc: nat)
    requires HexDigit(c) && ReadHex(s, n, acc).HexCode? && |s| == n
    ensures ReadHex(s + [c] + rest, n + 1, acc) == HexCode(16 * ReadHex(s, n, acc).code + HexValue(c))
  {
    var t := s + [c] + rest;
    if n == 0 {
      assert t[0] == c;
    } else {
      assert t[1..] == s[1..] + [c] + rest;
      ReadMore(s[1..], n - 1, c, rest, acc * 16 + HexValue(s[0]));
    }
  }

  lemma DigitValue(d: nat)
    requires d < 16
    ensures HexDigit("0123456789ABCDEF"[d]) && HexValue("0123456789ABCDEF"[d]) == d
  {}

  // The digits of a number are read as that number.
  lemma {:induction false} HexRead(n: nat, digits: nat, rest: string)
    requires n < Power16(digits)
    ensures ReadHex(HexText(n, digits) + rest, digits, 0) == HexCode(n)
    decreases digits
  {
    if digits > 0 {
      var c := "0123456789ABCDEF"[n % 16];
      DigitValue(n % 16);
      HexRead(n / 16, digits - 1, "");
      assert HexText(n / 16, digits - 1) + "" == HexText(n / 16, digits - 1);
      ReadMore(HexText(n / 16, digits - 1), digits - 1, c, rest, 0);
    }
  }

  // \uXXXX and \UXXXXXXXX stand for the encoding of their code.
  lemma CodeEscape(code: nat, long: bool, rest: string, multiline: bool)
    requires code < if long then 0x1_0000_0000 else 0x1_0000
    ensures var s := (if long then "\\U" + HexText(code, 8) else "\\u" + HexText(code, 4)) + rest;
      Norm(s, multiline) == if Encodable(code) then Prepend(Encode(code), Norm(rest, multiline)) else Wrong(BadCode)
  {
    hide Encode, Encodable, ReadHex;
    var digits := if long then 8 else 4;
    var front := if long then "\\U" else "\\u";
    var s := front + HexText(code, digits) + rest;
    assert Power16(4) == 0x1_0000 && Power16(8) == 0x1_0000_0000;
    HexRead(code, digits, rest);
    assert s[2..] == HexText(code, digits) + rest && s[2 + digits..] == rest;
    assert s[1..][0] == front[1];
    NotLineEnd(s[1..]);
  }

  lemma NotLineEnd(s: string)
    requires |s| > 0 && s[0] != ' ' && s[0] != '\t' && s[0] != '\r' && s[0] != '\n'
    ensures !LineEnds(s)
  {}

  // ---- a writer of strings

  // The letter that TOML has for a character behind a backslash, if any.
  function Letter(code: nat): string {
    match code
    case 8 => "b"
    case 9 => "t"
    case 10 => "n"
    case 12 => "f"
    case 13 => "r"
    case 34 => "\""
    case 92 => "\\"
    case _ => ""
  }

  function EscapedChar(c: char): string {
    var code := c as nat;
    if Letter(code) != "" then "\\" + Letter(code)
    else if code < 32 || code == 127 then "\\u" + HexText(code, 4)
    else [c]
  }

  function Escaped(s: string): string {
    if |s| == 0 then "" else EscapedChar(s[0]) + Escaped(s[1..])
  }

  lemma LowCode(code: nat)
    requires code < 0x80
    ensures Encodable(code) && Encode(code) == [code as char]
  {
    assert Continuation(code, 0) == "";
  }

  lemma CharRead(c: char, rest: string, multiline: bool)
    ensures Norm(EscapedChar(c) + rest, multiline) == Prepend([c], Norm(rest, multiline))
  {
    var code := c as nat;
    var s := EscapedChar(c) + rest;
    if Letter(code) != "" {
      assert s[1..][0] == Letter(code)[0] && s[2..] == rest;
      NotLineEnd(s[1..]);
    } else if code < 32 || code == 127 {
      LowCode(code);
      CodeEscape(code, false, rest, multiline);
      assert s == "\\u" + HexText(code, 4) + rest;
    } else {
      assert s[1..] == rest;
    }
  }

  // Every string, written so, is read back.
  lemma {:induction false} WrittenRead(s: string, multiline: bool)
    ensures Norm(Escaped(s), multiline) == Good(s)
  {
    if |s| > 0 {
      WrittenRead(s[1..], multiline);
      CharRead(s[0], Escaped(s[1..]), multiline);
      assert s == [s[0]] + s[1..];
    }
  }

  // ---- characters as they are

  // Tabs, and all from the space on but DEL; line ends in a multi-line string.
  predicate Allowed(c: char, multiline: bool) {
    c == '\t' || (c >= ' ' && c as nat != 127) || (multiline && (c as nat == 10 || c as nat == 13))
  }

  // A text without a backslash stands for itself exactly when all its characters
  // are allowed.
  lemma {:induction false} PlainRead(s: string, multiline: bool)
    requires '\\' !in s
    ensures Norm(s, multiline) ==
            if forall c :: c in s ==> Allowed(c, multiline) then Good(s) else Wrong(ForbiddenChar)
  {
    if |s| > 0 {
      assert s == [s[0]] + s[1..];
      PlainRead(s[1..], multiline);
      assert (forall c :: c in s ==> Allowed(c, multiline)) <==>
             Allowed(s[0], multiline) && forall c :: c in s[1..] ==> Allowed(c, multiline);
    }
  }

  // ---- the line-ending backslash

  predicate Blanks(s: string) {
    forall i :: 0 <= i < |s| ==> s[i] in {' ', '\t', '\r'}
  }

  predicate Spaces(s: string) {
    forall i :: 0 <= i < |s| ==> s[i] in {' ', '\t', '\r', '\n'}
  }

  lemma {:induction false} BlanksSkipped(blanks: string, rest: string)
    requires Blanks(blanks)
    ensures SkipBlanks(blanks + "\n" + rest) == "\n" + rest
  {
    if |blanks| == 0 {
      assert blanks + "\n" + rest == "\n" + rest;
    } else {
      assert (blanks + "\n" + rest)[1..] == blanks[1..] + "\n" + rest;
      BlanksSkipped(blanks[1..], rest);
    }
  }

  lemma {:induction false} SpacesSkipped(spaces: string, rest: string)
    requires Spaces(spaces)
    requires |rest| > 0 ==> rest[0] != ' ' && rest[0] != '\t' && rest[0] != '\r' && rest[0] != '\n'
    ensures SkipSpaces(spaces + rest) == rest
  {
    if |spaces| == 0 {
      assert spaces + rest == rest;
    } else {
      assert (spaces + rest)[1..] == spaces[1..] + rest;
      SpacesSkipped(spaces[1..], rest);
    }
  }

  lemma Joined(s: string)
    requires |s| > 1 && s[0] == '\\' && LineEnds(s[1..])
    ensures Norm(s, true) == Norm(SkipSpaces(s[1..]), true)
  {}

  lemma AllSpaces(blanks: string, spaces: string)
    requires Blanks(blanks)
    requires Spaces(spaces)
    ensures Spaces(blanks + "\n" + spaces)
  {
    var front := blanks + "\n";
    forall i | 0 <= i < |front| ensures front[i] in {' ', '\t', '\r', '\n'} {
      if i < |blanks| { assert front[i] == blanks[i]; }
    }
  }

  // In a multi-line string a backslash at the end of a line takes away that line
  // end and all space up to the next character.
  lemma LineJoined(blanks: string, spaces: string, rest: string)
    requires Blanks(blanks)
    requires Spaces(spaces)
    requires |rest| > 0 ==> rest[0] != ' ' && rest[0] != '\t' && rest[0] != '\r' && rest[0] != '\n'
    ensures Norm("\\" + (blanks + "\n" + spaces + rest), true) == Norm(rest, true)
  {
    hide Norm, SkipSpaces, LineEnds, Blanks, Spaces;
    var all := blanks + "\n" + spaces;
    AllSpaces(blanks, spaces);
    SpacesSkipped(all, rest);
    LineEndFound(blanks, spaces + rest);
    assert all + rest == blanks + "\n" + (spaces + rest);
    var s := "\\" + (all + rest);
    assert s[1..] == all + rest;
    Joined(s);
  }

  lemma LineEndFound(blanks: string, rest: string)
    requires Blanks(blanks)
    ensures LineEnds(blanks + "\n" + rest)
  {
    BlanksSkipped(blanks, rest);
  }
}
