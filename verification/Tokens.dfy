// next_token: the token stream of the TOML reader.

module Tokens {
  import opened Wrappers
  import opened BasicString
  import opened Scanner

  datatype Kind = Dot | Comma | Equal | LBrace | RBrace | Newline | LBracket | RBracket | Word

  datatype Token = Token(kind: Kind, lineno: nat, ptr: nat, len: nat, eof: bool) {
    function End(): nat { ptr + len }
  }

  // The token that stands for the start of a text.
  const START := Token(Newline, 1, 0, 0, false)

  // The delimiter a character is, when dots are or are not special.
  function Delimiter(c: char, dotIsSpecial: bool): Option<Kind> {
    match c
    case '.' => if dotIsSpecial then Some(Dot) else None
    case ',' => Some(Comma)
    case '=' => Some(Equal)
    case '{' => Some(LBrace)
    case '}' => Some(RBrace)
    case '[' => Some(LBracket)
    case ']' => Some(RBracket)
    case '\n' => Some(Newline)
    case _ => None
  }

  function Newlines(s: string): nat {
    if |s| == 0 then 0 else Newlines(s[..|s| - 1]) + if s[|s| - 1] == '\n' then 1 else 0
  }

  // From a '#' to just before the newline.
  function SkipComment(s: string): (r: string)
    ensures |r| <= |s| && (|r| > 0 ==> r[0] == '\n')
  {
    if |s| > 0 && s[0] != '\n' then SkipComment(s[1..]) else s
  }

  // Past blanks and comments.
  function SkipGap(s: string): (r: string)
    ensures |r| <= |s|
    decreases |s|
  {
    if |s| > 0 && s[0] == '#' then SkipComment(s)
    else if |s| > 0 && Blank(s[0]) then SkipGap(s[1..])
    else s
  }

  // What may stand between two tokens: blanks, then at most one comment.
  predicate IsGap(s: string) {
    |s| == 0 || (Blank(s[0]) && IsGap(s[1..])) || (s[0] == '#' && '\n' !in s)
  }

  // The token after `pos`.
  function TokenAt(text: string, pos: nat, lineno: nat, dotIsSpecial: bool): Option<Token>
    requires pos <= |text|
  {
    var rest := SkipGap(text[pos..]);
    var ptr := |text| - |rest|;
    if |rest| == 0 then Some(Token(Newline, lineno, |text|, 0, true))
    else match Delimiter(rest[0], dotIsSpecial)
      case Some(kind) => Some(Token(kind, lineno, ptr, 1, false))
      case None =>
        match Scan(rest, dotIsSpecial)
        case None => None
        case Some(n) => Some(Token(Word, lineno, ptr, n, false))
  }

  // The line a token's successor is on.
  function LineAfter(text: string, tok: Token): nat
    requires tok.End() <= |text|
  {
    tok.lineno + Newlines(text[tok.ptr..tok.End()])
  }

  // The newlines of the token just eaten.
  method EatToken(text: string, tok: Token) returns (lineno: nat)
    requires tok.End() <= |text|
    ensures lineno == LineAfter(text, tok)
  {
    lineno := tok.lineno;
    for p := tok.ptr to tok.End()
      invariant lineno == tok.lineno + Newlines(text[tok.ptr..p])
    {
      assert text[tok.ptr..p + 1][..p - tok.ptr] == text[tok.ptr..p];
      if text[p] == '\n' { lineno := lineno + 1; }
    }
  }

  // The part of the loop of next_token that passes over blanks and comments.
  method PassGap(text: string, pos: nat) returns (p: nat)
    requires pos <= |text|
    ensures pos <= p <= |text| && text[p..] == SkipGap(text[pos..])
  {
    p := pos;
    while p < |text|
      invariant pos <= p <= |text|
      invariant SkipGap(text[p..]) == SkipGap(text[pos..])
    {
      ghost var rest := text[p..];
      assert rest[1..] == text[p + 1..];
      if text[p] == '#' {
        p := p + 1;
        while p < |text| && text[p] != '\n'
          invariant p <= |text| && SkipComment(text[p..]) == SkipComment(rest)
        {
          assert text[p..][1..] == text[p + 1..];
          p := p + 1;
        }
      } else if Blank(text[p]) {
        p := p + 1;
      } else {
        return;
      }
    }
    assert text[p..] == "";
  }

  // next_token
  method NextToken(text: string, tok: Token, dotIsSpecial: bool) returns (next: Option<Token>)
    requires tok.End() <= |text|
    ensures next == TokenAt(text, tok.End(), LineAfter(text, tok), dotIsSpecial)
  {
    var lineno := EatToken(text, tok);
    var p := PassGap(text, tok.End());
    if p == |text| { return Some(Token(Newline, lineno, |text|, 0, true)); }
    var kind := Delimiter(text[p], dotIsSpecial);
    if kind.Some? { return Some(Token(kind.value, lineno, p, 1, false)); }
    var n := ScanString(text[p..], dotIsSpecial);
    return if n.Some? then Some(Token(Word, lineno, p, n.value, false)) else None;
  }

  // Where a token may be: inside the text, on the line its place says, and
  // spanning one character if it is a delimiter.
  ghost predicate Placed(text: string, tok: Token) {
    && tok.End() <= |text|
    && tok.lineno == 1 + Newlines(text[..tok.ptr])
  }

  lemma StartPlaced(text: string)
    ensures Placed(text, START)
  {
    assert text[..0] == "";
  }

  lemma {:induction false} NewlinesAppend(a: string, b: string)
    ensures Newlines(a + b) == Newlines(a) + Newlines(b)
  {
    if |b| == 0 {
      assert a + b == a;
    } else {
      var n := |b| - 1;
      assert (a + b)[..|a| + n] == a + b[..n];
      NewlinesAppend(a, b[..n]);
    }
  }

  lemma {:induction false} NoNewlines(s: string)
    requires '\n' !in s
    ensures Newlines(s) == 0
  {
    if |s| > 0 { NoNewlines(s[..|s| - 1]); }
  }

  lemma {:induction false} CommentSkipped(s: string)
    ensures s == s[..|s| - |SkipComment(s)|] + SkipComment(s)
    ensures '\n' !in s[..|s| - |SkipComment(s)|]
  {
    if |s| > 0 && s[0] != '\n' {
      CommentSkipped(s[1..]);
      var k := |s| - |SkipComment(s)|;
      assert s[..k] == [s[0]] + s[1..][..k - 1];
    } else {
      assert s[..0] == "";
    }
  }

  lemma {:induction false} GapSkipped(s: string)
    ensures s == s[..|s| - |SkipGap(s)|] + SkipGap(s)
    ensures IsGap(s[..|s| - |SkipGap(s)|]) && '\n' !in s[..|s| - |SkipGap(s)|]
  {
    var k := |s| - |SkipGap(s)|;
    if |s| > 0 && s[0] == '#' {
      CommentSkipped(s);
    } else if |s| > 0 && Blank(s[0]) {
      GapSkipped(s[1..]);
      assert s[..k] == [s[0]] + s[1..][..k - 1];
      assert s[..k][1..] == s[1..][..k - 1];
    } else {
      assert s[..0] == "";
    }
  }

  // The gap between a token and the next one.
  lemma GapBetween(text: string, pos: nat) returns (ptr: nat)
    requires pos <= |text|
    ensures pos <= ptr <= |text| && text[ptr..] == SkipGap(text[pos..]) && ptr == |text| - |SkipGap(text[pos..])|
    ensures IsGap(text[pos..ptr]) && Newlines(text[pos..ptr]) == 0
  {
    var rest := text[pos..];
    GapSkipped(rest);
    var k := |rest| - |SkipGap(rest)|;
    ptr := pos + k;
    assert text[pos..ptr] == rest[..k];
    NoNewlines(rest[..k]);
  }

  lemma LinesUpTo(text: string, tok: Token, ptr: nat)
    requires Placed(text, tok) && tok.End() <= ptr <= |text| && Newlines(text[tok.End()..ptr]) == 0
    ensures LineAfter(text, tok) == 1 + Newlines(text[..ptr])
  {
    NewlinesAppend(text[..tok.ptr], text[tok.ptr..tok.End()]);
    NewlinesAppend(text[..tok.End()], text[tok.End()..ptr]);
    assert text[..tok.End()] == text[..tok.ptr] + text[tok.ptr..tok.End()];
    assert text[..ptr] == text[..tok.End()] + text[tok.End()..ptr];
  }

  // Tokens come in order, with nothing but a gap between one and the next; the
  // line number of each counts the newlines before it; and every token that is
  // not a string or the end covers exactly one character.
  lemma NextIsPlaced(text: string, tok: Token, dotIsSpecial: bool)
    requires Placed(text, tok)
    requires TokenAt(text, tok.End(), LineAfter(text, tok), dotIsSpecial).Some?
    ensures var next := TokenAt(text, tok.End(), LineAfter(text, tok), dotIsSpecial).value;
      && tok.End() <= next.ptr
      && Placed(text, next)
      && IsGap(text[tok.End()..next.ptr])
      && (next.eof ==> next.kind.Newline? && next.ptr == |text| && next.len == 0)
      && (!next.eof && !next.kind.Word? ==> next.len == 1 && Delimiter(text[next.ptr], dotIsSpecial) == Some(next.kind))
  {
    var ptr := GapBetween(text, tok.End());
    LinesUpTo(text, tok, ptr);
    if ptr < |text| { assert text[ptr..][0] == text[ptr]; }
  }
}
