// Print_Hash and the header lines main() writes before it.

module PrintLog {
  import opened Triangular
  import opened RoundUp
  import opened AccessLog
  import opened LogSummary
  import opened HashTable

  const SYMBOLS: string := "GArdKMSuDNLmoTnsORWteFXxlv"

  const OP_READLINK: nat := 2
  const OP_OPEN: nat := 16
  const OP_READ: nat := 17

  // The letter or dot at place i of a mask.
  function MaskChar(flags: nat, i: nat): char
    requires i < |SYMBOLS|
  {
    if TestBit(flags, i) then SYMBOLS[i] else '.'
  }

  function MaskOf(flags: nat): (mask: string)
    ensures |mask| == |SYMBOLS|
  {
    seq(|SYMBOLS|, i requires 0 <= i < |SYMBOLS| => MaskChar(flags, i))
  }

  function Digit(d: nat): char
    requires d < 10
  {
    "0123456789"[d]
  }

  function Decimal(n: nat): string {
    if n < 10 then [Digit(n)] else Decimal(n / 10) + [Digit(n % 10)]
  }

  function Zeros(n: nat): string {
    seq(n, _ => '0')
  }

  // %010d of a count
  function Padded(n: nat): string {
    if |Decimal(n)| < 10 then Zeros(10 - |Decimal(n)|) + Decimal(n) else Decimal(n)
  }

  function ValueOf(s: string): nat {
    if |s| == 0 then 0 else 10 * ValueOf(s[..|s| - 1]) + DigitValue(s[|s| - 1])
  }

  function DigitValue(c: char): nat {
    if '0' <= c <= '9' then c as nat - '0' as nat else 0
  }

  // A number can be read off its decimal digits, so different numbers have
  // different ones.
  lemma {:induction false} DecimalValue(n: nat)
    ensures ValueOf(Decimal(n)) == n
  {
    var d := n % 10;
    assert DigitValue(Digit(d)) == d;
    if n < 10 {
      assert [Digit(d)][..0] == "";
    } else {
      DecimalValue(n / 10);
      assert Decimal(n)[..|Decimal(n)| - 1] == Decimal(n / 10);
    }
  }

  lemma {:induction false} ZerosCount(n: nat, s: string)
    ensures ValueOf(Zeros(n) + s) == ValueOf(s)
    decreases |s| + n
  {
    if |s| > 0 {
      ZerosCount(n, s[..|s| - 1]);
      assert (Zeros(n) + s)[..n + |s| - 1] == Zeros(n) + s[..|s| - 1];
    } else if n > 0 {
      ZerosCount(n - 1, "");
      assert (Zeros(n) + s)[..n - 1] == Zeros(n - 1) + "";
    } else {
      assert Zeros(0) + s == s;
    }
  }

  // A count is printed in ten digits, or in as many as it needs, and can be read
  // off them.
  lemma PaddedReads(n: nat)
    ensures ValueOf(Padded(n)) == n && |Padded(n)| >= 10
    ensures forall c :: c in Padded(n) ==> '0' <= c <= '9'
    ensures |Padded(n)| > 10 ==> Padded(n)[0] != '0'
  {
    DecimalDigits(n);
    DecimalValue(n);
    if |Decimal(n)| < 10 { ZerosCount(10 - |Decimal(n)|, Decimal(n)); }
    DecimalHead(n);
  }

  lemma {:induction false} DecimalDigits(n: nat)
    ensures forall c :: c in Decimal(n) ==> '0' <= c <= '9'
  {
    if n >= 10 { DecimalDigits(n / 10); }
  }

  lemma {:induction false} DecimalHead(n: nat)
    ensures |Decimal(n)| > 0 && (|Decimal(n)| > 1 ==> Decimal(n)[0] != '0')
    ensures n > 0 ==> Decimal(n)[0] != '0'
  {
    if n >= 10 { DecimalHead(n / 10); }
  }

  // One line of the log, without its newline.
  function LineOf(path: Path, e: Entry): string {
    "[" + MaskOf(e.flags) + "]:" + Padded(e.count) + ":" + path
  }

  // The lines for these paths of the log, each with its newline.
  function Body(log: Log, order: seq<Path>): string
    requires forall p :: p in order ==> p in log
  {
    if |order| == 0 then ""
    else Body(log, order[..|order| - 1]) + LineOf(order[|order| - 1], log[order[|order| - 1]]) + "\n"
  }

  // Every path of the log once, in some order.
  ghost predicate Orders(order: seq<Path>, log: Log) {
    && (forall i, j :: 0 <= i < j < |order| ==> order[i] != order[j])
    && (forall p :: p in order <==> p in log)
  }

  // A line for every path of the log, each once.
  ghost predicate Printed(log: Log, out: string) {
    exists order :: Orders(order, log) && out == Body(log, order)
  }

  // The mask loop of Print_Hash, over its 27-character buffer.
  method PrintMask(flags: nat) returns (s: string)
    ensures s == MaskOf(flags)
  {
    var mask := new char[27];
    for i := 0 to 26
      invariant forall j :: 0 <= j < i ==> mask[j] == MaskChar(flags, j)
    {
      mask[i] := if TestBit(flags, i) then SYMBOLS[i] else '.';
    }
    mask[26] := '\0';
    s := mask[..26];
  }

  // The mask of the flag 1 << j shows the letter of operation j, and no other.
  lemma MaskOfFlag(j: nat, i: nat)
    requires i < |SYMBOLS| && j < |SYMBOLS|
    ensures MaskOf(Pow2(j))[i] == if i == j then SYMBOLS[j] else '.'
  {
    FlagOf(i, j);
  }

  // One turn of the kh_foreach of Print_Hash.
  method PrintItem(path: Path, item: Item) returns (line: string)
    ensures line == LineOf(path, Entry(item.count, item.flags))
  {
    var mask := PrintMask(item.flags);
    line := "[" + mask + "]:" + Padded(item.count) + ":" + path;
  }

  lemma BodyNext(log: Log, order: seq<Path>, i: nat)
    requires i < |order| && (forall p :: p in order ==> p in log)
    ensures Body(log, order[..i + 1]) == Body(log, order[..i]) + LineOf(order[i], log[order[i]]) + "\n"
  {
    assert order[..i + 1][..i] == order[..i];
  }

  lemma OrderOfEntries<V>(es: seq<(Path, V)>, m: map<Path, V>, log: Log, order: seq<Path>)
    requires Enumerates(es, m) && m.Keys == log.Keys
    requires |order| == |es| && forall i :: 0 <= i < |es| ==> order[i] == es[i].0
    ensures Orders(order, log)
  {
    forall p | p in log
      ensures p in order
    {
      var i :| 0 <= i < |es| && es[i].0 == p;
      assert order[i] == p;
    }
  }

  // Print_Hash
  method PrintHash(logger: Logger) returns (out: string)
    requires logger.Valid()
    ensures Printed(logger.log, out)
  {
    hide Table.Valid, LineOf;
    var es := logger.table.Entries();
    ghost var order := seq(|es|, i requires 0 <= i < |es| => es[i].0);
    OrderOfEntries(es, logger.table.contents, logger.log, order);
    out := "";
    for i := 0 to |es|
      invariant out == Body(logger.log, order[..i])
    {
      assert order[i] in logger.log;
      assert logger.log[order[i]] == Entry(es[i].1.count, es[i].1.flags);
      BodyNext(logger.log, order, i);
      var line := PrintItem(es[i].0, es[i].1);
      out := out + line + "\n";
    }
    assert order[..|es|] == order;
  }

  const LOG_SUCCESS: nat := 1
  const LOG_UNSUCCESS: nat := 2

  // The letter main() prints for the setting of one operation; the first test
  // compares with LOG_UNSUCCESS | LOG_UNSUCCESS.
  function SettingChar(setting: nat): char {
    if setting == Or(LOG_UNSUCCESS, LOG_UNSUCCESS) then 'a'
    else if setting == LOG_SUCCESS then 's'
    else if setting == LOG_UNSUCCESS then 'u'
    else '.'
  }

  // The comment lines main() writes before the entries, without newlines.
  function HeaderLines(size: nat, settings: seq<nat>): seq<string> {
    ["#### Hash size: [" + Decimal(size) + "] ####",
     "#### Log mask/legend:",
     "#" + seq(|settings|, i requires 0 <= i < |settings| => SettingChar(settings[i])) + "####",
     "#" + SYMBOLS]
  }
}
