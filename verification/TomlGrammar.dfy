// The grammar of TOML documents as the reader takes it: the tree that stands at
// a token of a text, and the token behind it.

module TomlGrammar {
  import opened Wrappers
  import opened Scanner
  import opened Tokens
  import opened TomlKeys
  import opened TomlSyntax

  // A token inside the text; brackets, commas and the like are one character.
  ghost predicate Fit(text: string, tok: Token) {
    && tok.End() <= |text|
    && (!tok.kind.Word? && !tok.kind.Newline? ==> tok.len == 1)
  }

  lemma AfterIsFit(text: string, pos: nat, lineno: nat, dot: bool)
    requires pos <= |text| && TokenAt(text, pos, lineno, dot).Some?
    ensures var next := TokenAt(text, pos, lineno, dot).value;
      && Fit(text, next) && pos <= next.ptr
      && (next.kind.Newline? ==> next.eof || next.len == 1)
      && (next.eof ==> next.kind.Newline? && next.ptr == |text|)
  {
    hide Scan;
    var ptr := GapBetween(text, pos);
  }

  // The next token.
  ghost function After(text: string, tok: Token, dot: bool): (r: Option<Token>)
    requires tok.End() <= |text|
    ensures r.Some? ==>
              && Fit(text, r.value) && tok.End() <= r.value.ptr
              && (r.value.kind.Newline? ==> r.value.eof || r.value.len == 1)
              && (r.value.eof ==> r.value.kind.Newline? && r.value.ptr == |text|)
  {
    var r := TokenAt(text, tok.End(), LineAfter(text, tok), dot);
    if r.Some? then AfterIsFit(text, tok.End(), LineAfter(text, tok), dot); r else None
  }

  // From a token on, the first that is not a newline, or the end.
  ghost function PastNewlines(text: string, tok: Token, dot: bool): (r: Option<Token>)
    requires Fit(text, tok)
    ensures r.Some? ==>
              && Fit(text, r.value) && (r.value == tok || tok.End() <= r.value.ptr)
              && (r.value.kind.Newline? ==> r.value.eof)
    decreases |text| - tok.End(), tok.kind.Newline?
  {
    if !tok.kind.Newline? then Some(tok)
    else match After(text, tok, dot)
      case None => None
      case Some(n) => if n.eof then Some(n) else PastNewlines(text, n, dot)
  }

  // ---- values and entries

  // The value at a token.  `dot` says how the token behind a string is read.
  ghost function NodeAt(text: string, tok: Token, dot: bool): (r: Option<(Node, Token)>)
    requires Fit(text, tok)
    ensures r.Some? ==>
              && Fit(text, r.value.1) && tok.End() <= r.value.1.ptr
              && (tok.kind.Word? || tok.kind.LBracket? || tok.kind.LBrace?)
              && (tok.kind.Word? ==> r.value.0.Raw?) && (tok.kind.LBracket? ==> r.value.0.List?)
              && (tok.kind.LBrace? ==> r.value.0.Dict?)
    decreases |text| - tok.ptr, 0
  {
    match tok.kind
    case Word =>
      (match After(text, tok, dot)
       case None => None
       case Some(n) => Some((Raw(RawText(text, tok)), n)))
    case LBracket =>
      (match After(text, tok, false)
       case None => None
       case Some(n) =>
         match ItemsAt(text, n, [])
         case None => None
         case Some((items, comma, m)) =>
           if !m.kind.RBracket? then None
           else match After(text, m, true)
             case None => None
             case Some(k) => Some((List(items, comma), k)))
    case LBrace =>
      (match After(text, tok, true)
       case None => None
       case Some(n) =>
         match EntriesAt(text, n, [])
         case None => None
         case Some((entries, comma, m)) =>
           if !m.kind.RBrace? then None
           else match After(text, m, true)
             case None => None
             case Some(k) => Some((Dict(entries, comma), k)))
    case _ => None
  }

  // The items of an array, behind those already read.
  ghost function ItemsAt(text: string, tok: Token, done: seq<Node>): (r: Option<(seq<Node>, bool, Token)>)
    requires Fit(text, tok)
    ensures r.Some? ==> Fit(text, r.value.2) && tok.ptr <= r.value.2.ptr && done <= r.value.0
    decreases |text| - tok.ptr, 1
  {
    match PastNewlines(text, tok, false)
    case None => None
    case Some(n) =>
      if n.kind.RBracket? then Some((done, true, n))
      else match NodeAt(text, n, false)
        case None => None
        case Some((v, m)) =>
          match PastNewlines(text, m, false)
          case None => None
          case Some(k) =>
            if !k.kind.Comma? then Some((done + [v], false, k))
            else match After(text, k, false)
              case None => None
              case Some(j) => ItemsAt(text, j, done + [v])
  }

  // The entries of an inline table, behind those already read; no newline may
  // stand between them.
  ghost function EntriesAt(text: string, tok: Token, done: seq<Entry>): (r: Option<(seq<Entry>, bool, Token)>)
    requires Fit(text, tok)
    ensures r.Some? ==> Fit(text, r.value.2) && tok.ptr <= r.value.2.ptr && done <= r.value.0
    decreases |text| - tok.ptr, 1
  {
    if tok.kind.RBrace? then Some((done, true, tok))
    else match EntryAt(text, tok)
      case None => None
      case Some((e, m)) =>
        if m.kind.Newline? then None
        else if !m.kind.Comma? then Some((done + [e], false, m))
        else match After(text, m, true)
          case None => None
          case Some(j) => EntriesAt(text, j, done + [e])
  }

  // key . key = value
  ghost function EntryAt(text: string, tok: Token): (r: Option<(Entry, Token)>)
    requires Fit(text, tok)
    ensures r.Some? ==>
              tok.kind.Word? && Fit(text, r.value.1) && tok.End() < r.value.1.ptr && |r.value.0.keys| > 0
    decreases |text| - tok.ptr, 0
  {
    if !tok.kind.Word? then None
    else match After(text, tok, true)
      case None => None
      case Some(n) =>
        if n.kind.Dot? then
          match After(text, n, true)
          case None => None
          case Some(k) =>
            match EntryAt(text, k)
            case None => None
            case Some((e, b)) => Some((Entry([RawText(text, tok)] + e.keys, e.value), b))
        else if n.kind.Equal? then
          match After(text, n, false)
          case None => None
          case Some(k) =>
            match NodeAt(text, k, true)
            case None => None
            case Some((v, b)) => Some((Entry([RawText(text, tok)], v), b))
        else None
  }

  // ---- lines

  // The keys of a header, behind those already read, up to its bracket.
  ghost function KeysAt(text: string, tok: Token, done: seq<string>): (r: Option<(seq<string>, Token)>)
    requires Fit(text, tok)
    ensures r.Some? ==>
              && Fit(text, r.value.1) && tok.End() <= r.value.1.ptr && r.value.1.kind.RBracket?
              && |done| < |r.value.0| <= MAX_DEPTH && done <= r.value.0
    decreases MAX_DEPTH - |done|
  {
    if |done| >= MAX_DEPTH || !tok.kind.Word? then None
    else match After(text, tok, true)
      case None => None
      case Some(n) =>
        if n.kind.RBracket? then Some((done + [RawText(text, tok)], n))
        else if !n.kind.Dot? then None
        else match After(text, n, true)
          case None => None
          case Some(k) => KeysAt(text, k, done + [RawText(text, tok)])
  }

  // Whether the same bracket stands right behind a token.
  predicate Doubled(text: string, tok: Token, bracket: char) {
    tok.End() < |text| && text[tok.End()] == bracket
  }

  // A bracket right behind a token is the next one.
  lemma BracketNext(text: string, tok: Token, dot: bool)
    requires Fit(text, tok) && (Doubled(text, tok, '[') || Doubled(text, tok, ']'))
    ensures After(text, tok, dot) ==
            Some(Token(if text[tok.End()] == '[' then LBracket else RBracket,
                       LineAfter(text, tok), tok.End(), 1, false))
  {
    assert text[tok.End()..][0] == text[tok.End()];
  }

  // The token behind one bracket, or behind two.
  ghost function Inner(text: string, tok: Token, double: bool): (r: Option<Token>)
    requires Fit(text, tok)
    ensures r.Some? ==> Fit(text, r.value) && tok.End() <= r.value.ptr
  {
    match After(text, tok, true)
    case None => None
    case Some(n) => if double then After(text, n, true) else Some(n)
  }

  // The end of the line behind the last brackets of a header; two must stand
  // side by side.
  ghost function Outer(text: string, tok: Token, double: bool): (r: Option<Token>)
    requires Fit(text, tok)
    ensures r.Some? ==> Fit(text, r.value) && tok.End() <= r.value.ptr && r.value.kind.Newline?
  {
    if !tok.kind.RBracket? || (double && !Doubled(text, tok, ']')) then None
    else match Inner(text, tok, double)
      case None => None
      case Some(n) => if n.kind.Newline? then Some(n) else None
  }

  // [a.b] or [[a.b]]
  ghost function SelectAt(text: string, tok: Token): (r: Option<(bool, seq<string>, Token)>)
    requires Fit(text, tok)
    ensures r.Some? ==> Fit(text, r.value.2) && tok.End() < r.value.2.ptr && r.value.2.kind.Newline?
  {
    var double := Doubled(text, tok, '[');
    match Inner(text, tok, double)
    case None => None
    case Some(n) =>
      match KeysAt(text, n, [])
      case None => None
      case Some((keys, m)) =>
        match Outer(text, m, double)
        case None => None
        case Some(k) => Some((double, keys, k))
  }

  // Where no text is passed over, the end of it follows, or something that is
  // not a newline follows a newline.
  function Rank(tok: Token): nat {
    if tok.eof then 0 else if tok.kind.Newline? then 2 else 1
  }

  ghost function LineAt(text: string, tok: Token): (r: Option<(Line, Token)>)
    requires Fit(text, tok) && !tok.eof
    ensures r.Some? ==>
              var b := r.value.1;
              Fit(text, b) && tok.End() <= b.ptr && (tok.End() < b.End() || Rank(b) < Rank(tok))
  {
    match tok.kind
    case Newline =>
      (match After(text, tok, true)
       case None => None
       case Some(n) => Some((Blank, n)))
    case Word =>
      (match EntryAt(text, tok)
       case None => None
       case Some((e, m)) =>
         if !m.kind.Newline? then None
         else match After(text, m, true)
           case None => None
           case Some(n) => Some((Pair(e), n)))
    case LBracket =>
      (match SelectAt(text, tok)
       case None => None
       case Some((double, keys, n)) => Some((Select(double, keys), n)))
    case _ => None
  }

  ghost function LinesAt(text: string, tok: Token, done: seq<Line>): (r: Option<seq<Line>>)
    requires Fit(text, tok)
    ensures r.Some? ==> done <= r.value
    decreases |text| - tok.End(), Rank(tok)
  {
    if tok.eof then Some(done)
    else match LineAt(text, tok)
      case None => None
      case Some((line, n)) => LinesAt(text, n, done + [line])
  }

  lemma StartIsFit(text: string)
    ensures Fit(text, START)
  {
    assert START == Token(Newline, 1, 0, 0, false);
  }

  // The lines of a whole text, or None if it is no document.
  ghost function Parse(text: string): Option<seq<Line>> {
    StartIsFit(text);
    LinesAt(text, START, [])
  }
}
