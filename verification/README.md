# DistillerFS: a verified model

A Dafny model of the three parts of the program that carry its hard
properties, and proofs about them.

**The hash table** (`src/khash.h`, wrapped by `src/utils.c`).
`HashTable.Table` is the open-addressing table as it is: flag words with two
bits a bucket, parallel key and value arrays, power-of-two capacity, probing
by triangular steps, tombstones, and a resize that rehashes inside the same
arrays by kicking entries out. It keeps a ghost map `contents`, and every
method says what it does to that map. Any run of operations answers as a plain
map does (`TableRuns`), up to the one state in which it does not, which is shown
to be reached (`FullTable`). Below lie the number theory of the probe sequence
(`Triangular`), the rounding of capacities and the masking of 32-bit sums
(`RoundUp`), the packed flags (`Flags`) and the half-converted array of a
resize (`Buckets`). `StringHash` is the hash of the string instantiation.

**The access log** (`src/distillerfs.c`, `postprocess/process_log.lua`). The
settings say which outcomes of an operation are logged (`Settings`). Events
pass the prefix filters and are folded into the table under a mutex
(`AccessLog`, `Threads`); every thread's own calls take effect and return in
its own order, and no run gets stuck (`ThreadCalls`); what the table then holds
depends on the events and not on their order (`LogSummary`). The table is
printed (`PrintLog`, with the letters of the script's `Legend`), the text is
read back by the script (`PostProcess`, `Distill`), and the two together copy
exactly the wanted files, each once, if and only if newlines in the logged
paths do no harm (`Pipeline`); each file and directory that was only looked at
is made (`Stubs`).

**The TOML reader** (`src/toml.c`). The UTF-8 coder (`Utf8`), the escape
decoder that writes into a growing buffer (`BasicString`), which undoes a
writer of strings (`Escapes`), the string scanner and its agreement with the
decoder (`Scanner`), the token stream (`Tokens`), keys (`TomlKeys`, `NulKeys`),
and the tables under construction (`TomlTree`), which live in two pools and
refer to each other by place as the pointers of the C code do; what a parse
builds is a tree (`TomlShape`). Three modules say what the reader should do:
`TomlSyntax` has the syntax trees and how they are spelled, `TomlGrammar` the
tree that stands at a place of a text, and `TomlMeaning` the tables that a tree
builds, or that it is refused. The one-pass parser (`TomlParser`) builds tables
while it reads; it is shown to do exactly what reading the tree first and
building its meaning afterwards would do, and to fail exactly when that fails.
Apart from the grammar, `TomlSyntax` says how lines are spelled: the sequence
of signs for a tree, where newlines may come between them, and behind which of
them a dot is taken as a sign of its own. `TomlSpelling` shows that a text is
read as some lines exactly when its tokens, from its start to its end, spell
those lines; so every spelled document is accepted by the grammar, and none has
two readings. `TomlWriting` is a writer of whole documents, which the reader
undoes, with the words that can be written, and `TomlStrings` has the other
ways to write a string. `TomlMeaning` shows that what is written is what is
found, `TomlOrigins` that nothing else is, and `TomlRefusals` exactly when an
entry or a header is refused; `TomlImplicit` follows the tables that headers
make on their way, which a later header may still define once, and `TomlClosed`
those that should get no more keys. The parser terminates on every text: every
round of a loop and every recursive call passes over a non-empty delimiter,
although the tokenizer can return strings of no length.

## Conventions

- A `hide` statement at the head of a body keeps definitions that its proof
  does not need out of it.
- In the parser, failure is an `ok` of false or a `None`; the caller gives up
  at once, as the C code does, and the tables built so far are dropped.
- Functions named `...Makes` in `TomlParser` combine a tree of `TomlGrammar`
  with its meaning; `Document` is that of a whole text.

## Findings

Each is a place where the code does not do what it is for, with an input that
shows it and the exact condition under which it does.

- `src/khash.h:324-348`. A `kh_put` of a new key into a table of 2^31 live
  buckets says that the key was present and returns the bucket of some other
  key, and `Hash_Add` then overwrites that key's value. `FullTable.PutOneMore`
  reaches the state, by 2^31 calls of `Hash_Add` from an empty table;
  `HashTable.Table.Put` has the condition.
- `src/toml.c:622-682`. An escape `\u0000` in a key puts a NUL into it, and
  what follows is lost: `"a\u0000b"` names the key `a`
  (`NulKeys.NulCollision`). A key is the whole text it spells exactly when no
  escape in it is `\u0000` or `\U00000000` (`NulKeys.KeyIsWhole`), and keys
  without one are the same exactly when they spell the same text
  (`NulKeys.SameKey`).
- `postprocess/process_log.lua:88`. The test that should leave out paths under
  `/prebuilts` compares seven characters with ten and is always true:
  `/prebuilts/x` is touched (`PostProcess.PrebuiltTouched`), and a path is left
  out exactly for its flags or for want of a slash
  (`PostProcess.PrebuiltsNeverLeftOut`).
- `postprocess/process_log.lua:113-115`, `src/distillerfs.c:283`. A path with a
  colon is printed on a line that the script refuses, so it is never copied
  (`Distill.EntryCommands`). A path with a newline is printed on two lines, and
  the second can make the script copy a file that no event touched
  (`Pipeline.NewlineForgesCopy`). The script copies exactly the wanted files
  and complains of exactly the paths with colons if and only if every logged
  path with a newline has no colon, is not wanted, and goes on with `#` behind
  each newline (`Pipeline.CopiedExactly`, `Pipeline.Distilled`).
- `src/distillerfs.c:1113-1115`, `src/distillerfs.c:1193-1206`. The setting
  `all` is `LOG_UNSUCCESS | LOG_UNSUCCESS` and logs no successes: `read="all"`
  is the same as `read="unsuccess"` (`Settings.AllIsUnsuccess`). A value logs
  an outcome as it is meant to if and only if it is not `all` or the outcome is
  a failure (`Settings.SettingMeans`). The header makes the same comparison, so
  it has an `a` for `unsuccess`, never a `u`, and a dot for both
  (`Settings.SettingLetters`).
- `src/toml.c:1661-1664`. The closing quotes of a string between three double
  quotes are not looked for right behind a backslash, even if that backslash is
  itself escaped: `"""\\"""` is refused (`TomlStrings.BackslashRefused`). A
  string written so is one token if and only if it does not end in a backslash
  (`TomlStrings.TripleWord`).
- `src/toml.c:1750-1753`. Three apostrophes are refused between double quotes,
  where TOML lets them stand: `"'''"` (`TomlWriting.TripleRefused`). A string
  written between double quotes is one token if and only if it has no three in
  a row (`TomlWriting.QuotedWord`).
- `src/toml.c:310`, `src/toml.c:1246-1305`. A closed inline table should not be
  modified any more, and entries are kept out of it, but `walk_tabpath` and
  `parse_select` do not look at `readonly`: `a = {}` followed by `[a.b]` is
  accepted and puts `b` into it (`TomlClosed.ClosedEntered`). A closed table
  gets a key exactly from a header whose path comes to it and goes on by a key
  it has not (`TomlClosed.ClosedExactly`).

## Model

| member | source | states |
|---|---|---|
| Triangular.ProbeCovers | src/khash.h:233-240 | the first n probe positions reach every bucket, for n a power of two |
| Triangular.ProbeVisitsOnce | src/khash.h:50-51 | ... and reach each exactly once |
| Triangular.FirstReturn | src/khash.h:236-240 | the sequence first comes back to its start at step 2n - 1, so the exit on `i == last` fires only after every bucket has been seen |
| Triangular.Advance | src/khash.h:238-239 | one step of the loop is the next probe position, and meets `last` at that step only |
| RoundUp.RoundsUp | src/khash.h:175-176 | for 1 .. 2^31 the bit smearing gives the least power of two not below its argument; for 0 and larger arguments it wraps to zero |
| RoundUp.RoundsBelow | src/khash.h:311-312 | one below a power of two, from 4 on, rounds back to it |
| RoundUp.RoundsAbove | src/khash.h:315 | one above a power of two rounds to its double, or wraps at 2^31 |
| RoundUp.MaskIsAnd | src/khash.h:234-238 | the bitwise and with n_buckets - 1 is the remainder modulo n_buckets, and what the model's probe computes |
| RoundUp.WrapKeepsBucket | src/khash.h:234-238 | the wrap of the probe's sums at 32 bits does not change the bucket |
| Flags.MarkDelRefines | src/khash.h:171 | the macro changes bucket i to deleted and no other bucket of any word |
| Flags.DropEmptyRefines | src/khash.h:169 | ... an empty bucket to live |
| Flags.DropBothRefines | src/khash.h:170 | ... an empty or deleted bucket to live |
| Flags.FilledIsEmpty | src/khash.h:226 | words of 0xaa read as empty for every bucket they hold |
| Flags.PowerCoversWords | src/khash.h:173 | the number of words is enough for every power of two |
| Flags.IsEmpty | src/khash.h:165 | the test reads the state of that bucket |
| Flags.IsDel | src/khash.h:166 | the test reads the state of that bucket |
| Flags.IsEither | src/khash.h:167 | false exactly for live buckets |
| Flags.SetIsdelTrue | src/khash.h:171 | the array afterwards stands for the buckets with one changed |
| Flags.SetIsemptyFalse | src/khash.h:169 | the array afterwards stands for the buckets with one changed |
| Flags.SetIsbothFalse | src/khash.h:170 | the array afterwards stands for the buckets with one changed |
| Flags.Fill | src/khash.h:255 | the fresh flag block stands for buckets that are all empty |
| Buckets.MissedIsAbsent | src/khash.h:237-241 | a lookup that met an empty bucket, or passed all buckets, has shown the key absent, whatever tombstones lie between |
| Buckets.InsertKeeps | src/khash.h:336-345 | entering an absent key at a reachable free bucket, tombstone or not, keeps every key reachable |
| Buckets.DeleteKeeps | src/khash.h:349-355 | a tombstone keeps every other key reachable |
| Buckets.StartRehash | src/khash.h:268-269 | before the conversion loop, the old entries alone make up the map |
| Buckets.PickUp | src/khash.h:270-276 | taking an old entry in hand keeps the half-converted invariant: old entries, placed entries and the one in hand make up the map, and no bucket is both old-live and new-used |
| Buckets.KickOut | src/khash.h:282-286 | swapping the hand with an old entry in the way keeps it |
| Buckets.PutDown | src/khash.h:287-291 | placing the hand in a free bucket keeps it |
| Buckets.EndRehash | src/khash.h:294-302 | when no old entry is left, the placed entries alone make up the map |
| Buckets.RoomLeft | src/khash.h:281 | with an entry in hand fewer buckets are taken than the map has keys, so the inner probe finds an empty one |
| HashTable.FindEmpty | src/khash.h:278-281 | the inner probe ends, at an empty bucket reachable from the key |
| HashTable.PlaceOne | src/khash.h:277-292 | one kick-out round keeps the half-converted invariant, and a kick leaves strictly fewer old entries |
| HashTable.PlaceChain | src/khash.h:277-292 | the kick-out loop ends with nothing in hand |
| HashTable.Rehash | src/khash.h:268-294 | the conversion loop turns an index of the old buckets into one of the new with the same map, every key reachable, no tombstone |
| HashTable.Convert | src/khash.h:253-298 | the same with growing before and shrinking after, in the same arrays |
| HashTable.Lookup | src/khash.h:232-241 | the loop of kh_get finds the bucket of a key, or a proof that there is none |
| HashTable.Site | src/khash.h:320-334 | the loop of kh_put chooses the key's bucket, or with the key shown absent a reachable free one: the last tombstone on the walk, or the empty bucket at its end if there was none |
| HashTable.WalkMeetsEmpty | src/khash.h:236-240 | below 2^31 buckets, size <= n_occupied <= upper_bound < n_buckets, and every walk meets an empty bucket within n steps |
| HashTable.OnlyFullAtTop | src/khash.h:324-334 | only a table of 2^31 live buckets can be walked round without meeting an empty bucket or the key |
| HashTable.LoadBound | src/khash.h:303 | the load limit is over half of the buckets and under all of them, and grows with a doubling |
| HashTable.UpperBoundRounds | src/khash.h:303 | the load limit is 0.77 of the buckets and a half, rounded down |
| HashTable.Table.Get | src/khash.h:230-243 | the bucket of a key with its value, or n_buckets exactly when the key is absent |
| HashTable.Table.Resize | src/khash.h:244-306 | never changes the map; refused exactly when the size is over the new limit, and then touches nothing; else the new capacity, no tombstone left |
| HashTable.Table.MakeRoom | src/khash.h:310-318 | both resize choices of kh_put succeed and leave n_occupied below the limit, short of 2^31 buckets; a full table keeps its capacity when more than half of it is tombstones, and else doubles, which wraps at 32 bits |
| HashTable.Table.PutInRoom | src/khash.h:320-347 | the code returned is 0, 1 or 2 as the bucket was live, empty or deleted; it becomes live and no other bucket changes |
| HashTable.Table.Neighbours | src/khash.h:311-315 | n - 1 rounds back to n and n + 1 to 2n, as kh_put relies on |
| HashTable.Table.Put | src/khash.h:307-348 | the key is in the bucket returned and other keys are untouched, exactly when it was present or the table has under 2^31 keys; else the bucket is another key's and nothing changes. The code tells a present key, an empty bucket and a tombstone apart, and is never the last in a table without tombstones; the capacity is the old one unless the table was full |
| HashTable.Table.Del | src/khash.h:349-355 | removes the key of a live bucket, and nothing at n_buckets or elsewhere |
| HashTable.Table.Clear | src/khash.h:223-229 | the map is empty |
| HashTable.Table.Entries | src/khash.h:558-564 | kh_foreach visits every entry of the map exactly once, in the order of the buckets |
| HashTable.Table.Add | src/utils.c:12-20 | the map with the key of the returned bucket set, which is the key exactly when it was present or the table has under 2^31 keys |
| HashTable.Table.Find | src/utils.c:34-49 | the value of the key in the map, or none |
| HashTable.Table.Delete | src/utils.c:51-59 | the map without the key |
| StringHash.HashString | src/khash.h:395-400 | the loop computes the X31 hash, which the table is instantiated with |
| StringHash.HashIsSum | src/khash.h:395-400 | the hash is the sum modulo 2^32 of each character, as a signed number, times 31 to the number of characters behind it |
| TableRuns.Run | src/utils.c:12-59 | over every run of adds, finds, deletes, clears and resizes the answers and the final map are those of a plain map |
| TableRuns.ShortRunsFit | src/khash.h:307-348 | every run of at most 2^31 operations from an empty table is such a run |
| TableRuns.FinalIsLastWrite | src/utils.c:12-59 | the final value of a key is the last one written to it and not undone, read off the operations alone |
| FullTable.AddsFill | src/utils.c:12-20 | adding n different strings, for n up to 2^31, is a run that fits, and leaves n keys |
| FullTable.PutOneMore | src/khash.h:307-348 | after n such calls kh_put gives the next string a bucket of its own for n under 2^31, and for n = 2^31 reports it present, gives it another's and leaves it out |
| AccessLog.IsExcluded | src/distillerfs.c:184-191 | some prefix of the list starts the path |
| AccessLog.IsIncluded | src/distillerfs.c:193-204 | the list is empty, or some prefix of it starts the path |
| Settings.SettingMeans | src/distillerfs.c:1107-1117 | each value of the configuration logs the outcomes that it is meant to, if and only if it is not `all` or the outcome is a failure |
| Settings.AllIsUnsuccess | src/distillerfs.c:1113-1115 | `all` is the same setting as `unsuccess`; only an operation that is not named has both outcomes logged |
| Settings.SettingLetters | src/distillerfs.c:1193-1206 | the header has `s` for `success`, `a` for both `all` and `unsuccess`, a dot for `never` and for both outcomes, and no `u` |
| AccessLog.Logger.StoreLocked | src/distillerfs.c:224-241 | the log with the event recorded: count one up, flags or-ed in; for a new path in a log of 2^31 a new item displaces that of another path |
| AccessLog.Logger.Store | src/distillerfs.c:207-242 | an accepted event is recorded and its new count returned, with the same exception; any other leaves the log and returns 0 |
| LogSummary.LogOfRun | src/distillerfs.c:207-242 | after any run a path is in the log exactly when an accepted event was on it, its count is their number, and bit i of its flags is set exactly when one of them had it |
| LogSummary.TestBitIs | src/distillerfs.c:273-275 | the test of bit i is the i-th binary digit, read off by division |
| LogSummary.FlagOf | src/distillerfs.c:273-275 | bit i is set in the flag 1 << j exactly when i is j |
| LogSummary.CountsAddUp | src/distillerfs.c:226-238 | the counts sum to the number of accepted events |
| LogSummary.StepsCommute | src/distillerfs.c:226-238 | two events leave the same log in either order |
| LogSummary.FoldIgnoresOrder | src/distillerfs.c:207-242 | the log depends only on the multiset of events |
| Threads.MoveKeeps | src/distillerfs.c:224-239 | every step of every thread keeps the invariant: one thread at most inside, no accepted event lost or made up, the log that of a sequential history up to what the owner has still to write |
| Threads.EveryRunIsSequential | src/distillerfs.c:142-242 | with the mutex free, the log is the fold of a history of accepted events and the k-th value returned is the count that history gives at that point |
| Threads.NoUpdateLost | src/distillerfs.c:142-242 | when all threads are done the log is the one any sequential order of all calls gives |
| ThreadCalls.EachThreadInOrder | src/distillerfs.c:142-242 | at every moment of every interleaving, what a thread has brought under the mutex are its own accepted events in its own order, and its calls have returned 0 for each event dropped and the values of its own events for the others |
| ThreadCalls.MoveGetsOn | src/distillerfs.c:224-239 | the owner of the mutex, or with the mutex free any thread with a call to make, has fewer moves left after its next |
| ThreadCalls.NeverStuck | src/distillerfs.c:142-242 | however a run has gone so far, it can be continued until all calls are made |
| PrintLog.PrintMask | src/distillerfs.c:272-281 | the loop gives the mask of the flags |
| PrintLog.MaskOfFlag | src/distillerfs.c:272-279 | the mask of the flag 1 << j has the letter of operation j at its place and a dot at every other |
| Legend.LegendHolds | postprocess/process_log.lua:4-30 | the mask of each flag in the script's legend is the letter that the legend has for it, and dots around it |
| Legend.ToldApart | postprocess/process_log.lua:4-30 | the masks of two operations differ |
| PrintLog.PaddedReads | src/distillerfs.c:283 | a count is printed in ten digits, or in as many as it needs without a leading zero, and can be read off them |
| PrintLog.PrintHash | src/distillerfs.c:260-286 | one line for every path of the log, each once |
| PostProcess.Split | postprocess/process_log.lua:59-70 | the pieces between the delimiters |
| PostProcess.SplitOfJoin | postprocess/process_log.lua:59-70 | splitting undoes joining pieces free of the delimiter |
| PostProcess.JoinOfSplit | postprocess/process_log.lua:59-70 | joining undoes splitting, and no piece holds the delimiter |
| PostProcess.GetDirFinds | postprocess/process_log.lua:33-36 | the match succeeds exactly with a slash, and ends at the last one |
| PostProcess.PrebuiltsNeverLeftOut | postprocess/process_log.lua:74-99 | a path gives no command exactly when it has no slash or none of the flags O, R, r and G, so never for lying under /prebuilts |
| PostProcess.PrebuiltTouched | postprocess/process_log.lua:88 | a file under /prebuilts of which only the attributes were read is touched |
| PostProcess.LineTaken | postprocess/process_log.lua:112-115 | a line that starts with # gives nothing, one without exactly two colons is complained of, every other is counted |
| PostProcess.ScriptPrepared | postprocess/process_log.lua:74-99 | in every script each copied file stands right behind the making of its directory, but for the root, and each touched file right behind that of its own |
| PostProcess.ProgressShown | postprocess/process_log.lua:120-123 | every script echoes each full hundred of its counted lines, once and in order |
| PostProcess.ProcessLines | postprocess/process_log.lua:110-126 | the loop prints the commands of each line in turn, with a progress line after every hundredth counted one |
| PostProcess.ReadBack | postprocess/process_log.lua:111 | reading lines written with newlines gives them back, when none holds a newline |
| Distill.SymbolsDistinct | src/distillerfs.c:144 | the 26 symbols are distinct |
| Distill.SymbolShows | src/distillerfs.c:272-279 | a symbol is in the printed mask exactly when its bit is set |
| Distill.LineSplits | postprocess/process_log.lua:113-118 | a printed line with a colon-free path splits into mask, count and path |
| Distill.ColonsBreakLine | postprocess/process_log.lua:113-115 | one with a colon in its path gives more pieces and is refused |
| Distill.EntryCommands | postprocess/process_log.lua:113-119 | the line of an entry gives one copy exactly when wanted, a complaint exactly when its path has a colon |
| Distill.LineIntact | src/distillerfs.c:283 | a line survives being written and read exactly when its path holds no newline |
| Distill.WantedInLog | src/distillerfs.c:207-242 | a copy is wanted of the path in the log exactly when an accepted open, read or readlink event was on it, and it has a slash and no colon |
| Distill.FlagsWanted | src/distillerfs.c:85-102 | an accepted event with the flag 0x4, 0x10000 or 0x20000 on a path with a slash and no colon makes it wanted |
| Distill.CopiesOf | postprocess/process_log.lua:110-126 | a file is copied once if its path is among the printed ones and a copy is wanted, else never |
| Distill.ComplaintsOf | postprocess/process_log.lua:113-115 | every logged path with a colon is complained of |
| Pipeline.TextReadBack | postprocess/process_log.lua:111 | the script sees the header lines and then the lines of each entry, as many as its path has newlines and one more |
| Pipeline.HarmlessEnough | postprocess/process_log.lua:110-126 | paths with newlines that have no colon, are not wanted and go on with # behind each newline leave the copies and complaints as they should be |
| Pipeline.HarmlessNeeded | postprocess/process_log.lua:110-126 | ... and no others do |
| Pipeline.CopiedExactly | src/distillerfs.c:260-286 | the same of the whole printed text, as an if-and-only-if |
| Pipeline.Distilled | src/distillerfs.c:1190-1209 | from any run of events to the script's output: a copy of exactly the wanted files, once each, and complaints about exactly the logged paths with a colon, if and only if newlines in the logged paths do no harm |
| Pipeline.NewlineForgesCopy | src/distillerfs.c:283 | one accepted event on a path of two lines makes the script copy a file that is not in the log |
| Stubs.EntryTouches | postprocess/process_log.lua:87-97 | the line of an entry touches its file, and no other, exactly when its attributes were asked for and it was not opened, read, followed or read as a directory |
| Stubs.ShownExactly | postprocess/process_log.lua:110-126 | where newlines do no harm to the copies, the script touches each file that was only looked at, once and no other, and makes each directory that was read, if and only if no path with a newline is to be made at all |
| Utf8.UcsToUtf8 | src/toml.c:198-276 | writes the encoding at its place and nothing else, or refuses surrogates, noncharacters and what does not fit 31 bits |
| Utf8.Utf8ToUcs | src/toml.c:97-191 | decodes the form that the first byte announces, within the length given |
| Utf8.DecodeEncode | src/toml.c:97-276 | decoding an encoding, with any bytes after it, gives the code and the length back |
| Utf8.EncodeDecode | src/toml.c:97-276 | encoding a decoded code gives the same bytes when they are the shortest form of an accepted code |
| Utf8.PrefixFree | src/toml.c:198-276 | no encoding starts another |
| Utf8.EncodableBlocks | src/toml.c:198-216 | the codes refused are those over 31 bits, of the two blocks of surrogates, and 0xfffe and 0xffff |
| BasicString.NormBasicStr | src/toml.c:489-619 | the decoder over a growing buffer computes the text of the string or its first fault; every write is inside the buffer |
| BasicString.DecodeEscape | src/toml.c:531-600 | one escape is decoded into at most the ten bytes of slack |
| BasicString.NormShrinks | src/toml.c:489-619 | the text is never longer than its source |
| Escapes.WrittenRead | src/toml.c:489-619 | every string, written with the letters of TOML for seven characters, as four hex digits for the other controls and else as it is, decodes to itself |
| Escapes.CodeEscape | src/toml.c:554-583 | four or eight hex digits behind `\u` or `\U` give the encoding of the number they spell, or a fault when the coder refuses it |
| Escapes.PlainRead | src/toml.c:515-531 | a text without backslashes decodes to itself exactly when all its characters are allowed, and else is faulted for one that is not |
| Escapes.LineJoined | src/toml.c:540-549 | in a multi-line string a backslash before blanks and a line end takes away all space up to the next character |
| BasicString.NormLitStr | src/toml.c:440-483 | a literal string is its source, or holds a forbidden character |
| Scanner.ScanString | src/toml.c:1634-1797 | the scanner's state machines find the extent of a token as defined by recursion on the text |
| Scanner.ScannedDecodes | src/toml.c:1653-1767 | an accepted double-quoted token, single or triple, decodes, or fails only on a forbidden character or a code that the coder refuses |
| Scanner.WellEscapedDecodes | src/toml.c:489-619 | complete escapes suffice for that ... |
| Scanner.DecodedWasWellEscaped | src/toml.c:489-619 | ... and decoding without a fault shows that they were complete |
| Scanner.BasicBodyWellEscaped | src/toml.c:1722-1767 | what the single-quote scanner accepts has complete escapes |
| Scanner.ReadString | src/toml.c:2206-2251 | toml_rtos takes the quotes and a first newline off and decodes the rest |
| Scanner.LiteralCopies | src/toml.c:440-483 | a literal string without forbidden characters decodes to itself |
| Tokens.NextToken | src/toml.c:1799-1859 | the next token is the one defined by the text behind the last |
| Tokens.EatToken | src/toml.c:1804-1808 | the line number goes up by the newlines of the token |
| Tokens.NextIsPlaced | src/toml.c:1581-1859 | a token lies inside the text, on the line that one plus the newlines before it give, behind the last with only blanks and comments between |
| TomlWriting.BlanksPassed | src/toml.c:1809-1853 | spaces, tabs and carriage returns are passed over |
| TomlWriting.CommentPassed | src/toml.c:1809-1815 | so is what stands between a `#` and the end of its line |
| TomlKeys.NormalizeKey | src/toml.c:622-682 | the key is a function of the token's own text: unquoted or decoded, cut at a NUL, without newlines |
| TomlKeys.QuotedShape | src/toml.c:628-636 | a quoted token is long enough for its quotes and ends in one or three of them |
| TomlKeys.BareKey | src/toml.c:1781-1797 | letters, digits, `_` and `-` that do not look like a date are one token, up to the blank or sign behind them, and are their own key |
| TomlKeys.BareKeyExactly | src/toml.c:663-682 | an unquoted token is a key exactly when it has those characters alone |
| NulKeys.NulShows | src/toml.c:489-619 | a string decodes to a text with a NUL exactly when one of its escapes is written as one |
| NulKeys.KeyIsWhole | src/toml.c:622-682 | a key is the whole text it spells exactly when no escape in it is a NUL |
| NulKeys.SameKey | src/toml.c:622-682 | keys without such an escape are the same exactly when they spell the same text |
| NulKeys.NulCollision | src/toml.c:646-667 | with one, keys that spell different texts are the same |
| TomlTree.LookupsAgree | src/toml.c:1893-1918 | the four lookups agree and at most one kind is found under a key |
| TomlTree.CheckKeyFinds | src/toml.c:688-724 | a lookup fails exactly when no list of the table has the key |
| TomlTree.FindKey | src/toml.c:688-724 | the three loops find the first entry under the key |
| TomlTree.AddValKeeps | src/toml.c:747-769 | adding a value under an absent key keeps every key of every table unique and is found under it |
| TomlTree.AddTabKeeps | src/toml.c:800-816 | ... a table |
| TomlTree.AddArrKeeps | src/toml.c:840-857 | ... an array |
| TomlTree.MarkKeeps | src/toml.c:794 | the implicit flag only goes off, the readonly flag only on |
| TomlTree.LookStays | src/toml.c:1893-1918 | what a dotted key leads to stays, however the document grows |
| TomlTree.ResolveYounger | src/toml.c:1246-1305 | every step along a header's path goes to a younger table, so no table is inside itself |
| TomlTree.ResolveStays | src/toml.c:1246-1305 | a header's way stays while no step from an older table changes |
| TomlTree.AddTabItemKeeps | src/toml.c:896-913 | adding a table to an array keeps every array's items suited to its kind |
| TomlShape.ReferredOnce | src/toml.c:800-913 | what the tree invariant says: every table but the root, and every array, is referred to exactly once |
| TomlShape.BuildTree | src/toml.c:1398-1474 | every document that lines build satisfies it |
| TomlGrammar.PastNewlines | src/toml.c:915-923 | the token reached is no newline, or the end |
| TomlGrammar.AfterIsFit | src/toml.c:1581-1859 | a token lies behind the last, inside the text, and one character long unless it is a string or the end |
| TomlGrammar.BracketNext | src/toml.c:1312-1324 | a bracket right behind a token is the next token, as the code asserts |
| TomlSpelling.NodeRead | src/toml.c:941-1095 | tokens that spell a value are read as that value, up to the token behind it |
| TomlSpelling.EntryRead | src/toml.c:1102-1185 | ... an entry |
| TomlSpelling.SelectRead | src/toml.c:1308-1396 | ... a header, double or not |
| TomlSpelling.NodeSpelled | src/toml.c:941-1095 | the value read is tidy, and the tokens passed over spell it, with newlines inside arrays and dots where they are signs |
| TomlSpelling.EntrySpelled | src/toml.c:1102-1185 | ... the entry |
| TomlSpelling.SelectSpelled | src/toml.c:1308-1396 | ... the header, with two brackets on each side or one |
| TomlSpelling.ParseSpelled | src/toml.c:1431-1461 | a text is read as some lines exactly when its tokens, from the start to the end, spell those lines, with nothing behind a header on its line |
| TomlSpelling.Unambiguous | src/toml.c:1431-1461 | no text spells two documents |
| TomlSpelling.TokensCover | src/toml.c:1431-1461 | the tokens of a text that is read run on from its start to its end |
| TomlSpelling.StreamPlaced | src/toml.c:1799-1859 | such tokens are in order, on the line they say, with only blanks and comments between |
| TomlWriting.WriteRead | src/toml.c:1398-1474 | any lines, written with a space between tokens but none between two brackets that belong together, are read back as those lines |
| TomlWriting.BareWord | src/toml.c:1781-1797 | a bare key that does not look like a date can be written as it is, and is its own key |
| TomlWriting.BareValue | src/toml.c:1781-1797 | so can a value of such characters, `+` and dots |
| TomlWriting.StampWord | src/toml.c:1769-1779 | what looks like a date or a time is one token up to the first character that cannot be part of one, less the spaces before it |
| TomlWriting.QuotedWord | src/toml.c:1722-1767 | a string, escaped and between double quotes, is one token exactly when it has no three apostrophes in a row |
| TomlWriting.QuotedValue | src/toml.c:2206-2251 | what is read of it is the string itself; as a key, without a NUL, it is the string or refused for a newline |
| TomlWriting.TripleRefused | src/toml.c:1750-1753 | the shortest string with three, which is refused |
| TomlStrings.LiteralWord | src/toml.c:1710-1720 | a string between single quotes, without one or a newline, is one token and read as itself or refused for its characters |
| TomlStrings.TripleLiteral | src/toml.c:1636-1651 | between three single quotes a string without three in a row is one token, with one or two at its end too |
| TomlStrings.TripleLiteralRead | src/toml.c:2206-2251 | it is read as itself, less a newline at its start, or refused for its characters |
| TomlStrings.TripleWord | src/toml.c:1653-1708 | a string, escaped and between three double quotes, is one token exactly when it does not end in a backslash |
| TomlStrings.TripleRead | src/toml.c:2206-2251 | it is read as the string, less a newline at the start |
| TomlStrings.BackslashRefused | src/toml.c:1653-1668 | the shortest string that does, which is refused |
| TomlStrings.LiteralKey | src/toml.c:622-660 | a key between single quotes is the string, whatever characters it has, or refused for a newline |
| TomlStrings.TripleKey | src/toml.c:622-660 | so is one escaped between three double quotes |
| TomlMeaning.NodeStored | src/toml.c:1002-1095 | an array item is stored as written, nested arrays item by item in order |
| TomlMeaning.TableFilled | src/toml.c:941-979 | every entry of an inline table is found in it as written, and it is closed |
| TomlMeaning.NodesKind | src/toml.c:1002-1095 | the kind of an array is that of its items when they are all of one kind, none when there are no items, and else mixed |
| TomlMeaning.EntryStored | src/toml.c:1102-1185 | an entry that is taken is found under its dotted key, with its value as written |
| TomlMeaning.NoKeyTwice | src/toml.c:1102-1185 | an entry is taken only where its dotted key leads to nothing, or, for an inline table, to a table that only headers had made |
| TomlRefusals.RefusedExactly | src/toml.c:1102-1185 | a string, number or date is refused exactly when its keys are bad, or a closed table, a value or an array is in the way of its dotted key, or something stands under the last of them |
| TomlRefusals.HeaderRefusedExactly | src/toml.c:1308-1376 | a header is refused exactly when it has not one to ten good keys, a step of its path meets a value or an array without tables, or its last key stands for anything but an implicit table or, for a double header, an array of tables |
| TomlRefusals.WalkExactly | src/toml.c:1246-1305 | the walk is refused exactly at such a step, and else ends where the path led before, or in a new empty table |
| TomlImplicit.WalkImplicit | src/toml.c:1246-1305 | every table that a walk makes is implicit, and no flag of a table that was there changes |
| TomlImplicit.HeaderLeavesImplicit | src/toml.c:1308-1376 | a header along a path and further, where the path led to nothing, leaves it leading to a new implicit table |
| TomlImplicit.DefinedOnce | src/toml.c:773-817 | the header of an implicit table is taken and opens it, and the same header again is refused |
| TomlImplicit.LineDefines | src/toml.c:1398-1474 | a table stops being implicit only by a line with a header of its own, or by being closed |
| TomlImplicit.HeaderAfter | src/toml.c:1246-1376 | such a header is taken after any further lines, once, unless one of them has opened or closed the table, or opened a table in an array |
| TomlMeaning.StoredStays | src/toml.c:1398-1474 | what is stored stays stored |
| TomlMeaning.AddNode | src/toml.c:1002-1095 | keeps every key unique and every array of one kind or mixed, adds one item to the array and leaves the others' items |
| TomlMeaning.AddEntry | src/toml.c:1102-1185 | keeps every key unique, lets lists only grow, and leaves the items of every array there was |
| TomlMeaning.NewTable | src/toml.c:773-817 | the table found under the key afterwards, explicit, and before either not there or implicit |
| TomlMeaning.WalkResolves | src/toml.c:1246-1305 | the table walked to is the one the path leads to afterwards |
| TomlMeaning.SelectResolves | src/toml.c:1308-1376 | a header opens the table that its whole path leads to afterwards, the new last one for a double header |
| TomlImplicit.HeaderOpens | src/toml.c:1336-1376 | a double header opens a new empty table of its own, a single one an explicit table, new and empty or implicit before |
| TomlMeaning.DocumentStored | src/toml.c:1431-1461 | every entry of a document is found at the end, as written, in the table open at its line |
| TomlOrigins.EntryMakes | src/toml.c:1102-1185 | every key, array item and closed table that an entry adds lies on the entry's dotted key or inside its value |
| TomlOrigins.SelectMakes | src/toml.c:1308-1376 | every key that a header adds lies on its path, and every array item is the table it opens |
| TomlOrigins.NothingElse | src/toml.c:1398-1474 | every key of every table, every item of every array and every closed table of a document was made by some line: by an entry, and then it holds what the entry says or is a table on the way there, or by a header, and then it is no value |
| TomlClosed.EntryLeaves | src/toml.c:1102-1185 | an entry leaves the lists of every closed table as they are |
| TomlClosed.SelectGains | src/toml.c:1246-1376 | a table gets a key from a header exactly when the header's path comes to it and goes on by that key, which it has not |
| TomlClosed.ClosedExactly | src/toml.c:310 | a closed table gets a key from a line exactly when the line is such a header |
| TomlClosed.ClosedEntered | src/toml.c:1246-1305 | a document of two lines in which one does |
| TomlMeaning.OpenUntilNext | src/toml.c:1431-1461 | the table open at a line is the one of the last header |
| TomlParser.Context.CreateKeyval | src/toml.c:732-769 | succeeds exactly when the key is good and absent, and then adds the value, else changes nothing |
| TomlParser.Context.CreateKeytable | src/toml.c:773-817 | gives a table that it never gave before: a new one, or an implicit one made explicit; else changes nothing |
| TomlParser.Context.CreateKeyarray | src/toml.c:821-858 | succeeds exactly when the key is good and absent, and then adds an array |
| TomlParser.Context.SkipNewlines | src/toml.c:915-923 | ends, at the first token that is no newline or at the end |
| TomlParser.Context.ParseInlineTable | src/toml.c:941-979 | succeeds exactly when an inline table stands there whose entries the table takes, and fills and closes it |
| TomlParser.Context.ParseArray | src/toml.c:1002-1095 | succeeds exactly when an array stands there whose items are taken, and adds them in order |
| TomlParser.Context.ParseKeyval | src/toml.c:1102-1185 | succeeds exactly when an entry stands there that the table takes, and adds it |
| TomlParser.Context.FillTabpath | src/toml.c:1197-1241 | succeeds exactly when one to ten good keys stand there up to a bracket, and names them |
| TomlParser.Context.WalkTabpath | src/toml.c:1246-1305 | succeeds exactly when the path can be walked, and opens the table it leads to |
| TomlParser.Context.ParseSelect | src/toml.c:1308-1396 | succeeds exactly when a header stands there that can be opened, double exactly when two brackets stand side by side on both sides |
| TomlParser.Context.ParseLine | src/toml.c:1431-1461 | one round does what the line means, and fails exactly when there is none or it is refused |
| TomlParser.TomlParse | src/toml.c:1398-1474 | ends on every text: with a document exactly when the text spells some lines and they build it, a tree with every key of every table unique; without one exactly when whatever lines the text spells are refused |
| TomlParser.DocumentMeans | src/toml.c:1398-1474 | the same of the function that the parser is proved to compute |

## Left out

- Pipeline.Distilled: the log has at most 2^31 paths.
- LogSummary.LogOfRun: the log is a map without a limit; the table behind it holds 2^31 paths, as `AccessLog.Logger.StoreLocked` says. The same goes for `Threads.NoUpdateLost`, `Threads.EveryRunIsSequential` and `ThreadCalls.EachThreadInOrder`, whose threads insert a new path whatever the size of the log.
- TableRuns.Run: no new key is added to a table of 2^31 keys; `HashTable.Table.Put` and `FullTable.PutOneMore` say what happens then.
- AccessLog.Logger.Store: counts are unbounded, so overflow of the 32-bit counter is not modelled; of a log of 2^31 only the next new path is followed.
- Allocation failures, `free` and the ownership of pointers, in all three parts; NULL arrays are arrays of length zero, and `realloc` is a fresh array with the same contents.
- The parser's pools: tables and arrays are referred to by place in a pool; the freeing of a failed parse is not modelled.
- The step counter and index of a walk are unbounded; `RoundUp.WrapKeepsBucket` shows that their wrap-around leaves the bucket the same.
- The load limit's double 0.77 is (77 n + 50) / 100, which is exact for powers of two.
- The FUSE callbacks, mounting, daemonising, arguments, and of the configuration all but the settings of the operations: the model of the log starts from the calls of `Store_In_Hash` that they make.
- `Print_Hash` of a missing table; the model's table always exists.
- Error messages of the TOML reader, beyond the fault that ends a decoding.
- TomlWriting.WriteRead: the first line is empty, as the reader starts behind a line end of its own.
- Numbers, booleans and timestamps (`toml_rtoi`, `toml_rtod`, `toml_rtots`), and the item type of an array, which depends on them; the array's kind is modelled.
- `toml_parse_file` and the accessors by index: file input, and one-line wrappers.
- `Hash_SoftAdd`, which is the same as `Hash_Add`; `kh_destroy`; hash functions for integers.
- TomlRefusals.RefusedExactly: says when a single value is refused; an array or inline table is also refused for what is inside it.
- Fairness of the mutex: that a thread which waits gets it is left to the scheduler.
