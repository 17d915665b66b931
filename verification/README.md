# Verified models of five cores

This project models the algorithmic cores of the repository in Dafny and proves what they are for:

- **Snappy** (`SnappyFormat`, `SnappyEncode`, `SnappyDecode`, `SnappyRoundTrip`, `Bytes`): the block
  format, the hash-table matcher and its emitters writing into a byte buffer, the decoder with its
  overlapping copies. Decoding an encoded block gives the input back whatever the buffers held; the
  output fits `MaxEncodedLen`; every write is in range; repetitions within reach become copies
  (`SnappyRatio`).
- **Hashes** (`Words`, `Murmur32`, `Murmur128`, `Murmur3`, `Murmur3Digest`, `XXHash32`,
  `XXHashStream`): the one-shot loops and the streaming digests with their partial-block buffers. The
  two agree for every way of cutting the data, and inputs that differ in one place never collide.
- **TOML** (all `Toml*` modules and `StringOrder`): the lexer as a pushdown machine, the parser that
  trusts its items, the table builder, the encoder, and string quoting. What the lexer sends is always
  a prefix of the grammar the parser relies on; exactly the texts written by the rules of comments, keys,
  headers and values are lexed to their end, and parsed to what their statements mean; printing and parsing,
  at the level of headers and keys and at the level of text, rebuild the same tables, which read back as
  the Go value that was printed.
- **Field resolution** (`FieldSearch`, `FieldDominance`, `FieldGoRule`): the breadth-first search through
  embedded structs, the dominance rule, the filter in place, and exactly when the outcome is the one Go's
  rule for promoted fields gives.
- **Counters and reassembly** (`Odometer`, `Counters`, `CmtpFilter`): a digit-by-digit counter against a
  machine-word counter, and the filter that takes a header off a stream however the stream is cut.

Each core comes in two layers. A value-level layer says what the algorithm computes, and the main
results are lemmas about it. An imperative layer follows the source's own loops, fields and buffers,
and every method there is proved against the value-level layer, so the lemmas hold of the methods.
Errors, panics and process exits of the source are outcomes, not preconditions.

Bytes are integers from 0 to 255 where the source does arithmetic on them and bit vectors where it
mixes words. A Go `int` is 64 bits wide. Characters of TOML text stand for runes of one byte.

## Where the code differs from what it promises

- `snappy/decode.go:28-37` rejects a header whose varint ends too early but not one that overflows, nor one
  that announces more than `make` can grant; decoding then panics, exactly on those inputs
  (`SnappyDecode.PanicsExactly`).
- `snappy/decode.go:118` lets a copy of offset 0 through. The result then shows what the destination
  buffer held before; it is independent of the buffer exactly when no copy has offset 0
  (`SnappyDecode.DestinationMatters`), and there are such blocks (`SnappyDecode.ExposingDecodes`).
- `toml/parse.go:150-151` replaces escapes first and looks for `\u` afterwards, so a printed string comes
  back exactly when it has no backslash directly followed by `u` (`TomlQuote.QuoteRoundTrip`). For some
  others, such as a Windows path, reading ends the process (`TomlQuote.QuoteFails`, and exactly which in
  `TomlQuote.ApartReads`).
- The `bug` checks in `setValue` can be met: implicit marks are kept per dotted name and not per array
  element (`TomlFatal.StaleMarkIsFatal`). They are met exactly when a table header lands on a value under a
  mark that was never taken away and a key follows (`TomlFatal.RunFatalExactly`).
- The lexer lets any digits through as a date, and `toml/parse.go:201-205` calls a date the calendar does not
  have a `bug`, which ends the process: exactly those dates (`TomlNames.ImpossibleDateStops`).
- The type of a value is looked up behind pointers (`toml/encode.go:375-376`), but `eElement`
  (`toml/encode.go:173-194`) has no case for them, and its panic is not the one that `safeEncode` turns into an
  error. So a slice of pointers crashes the caller: exactly those values do (`TomlEncode.DirectCrashesExactly`,
  with one in `TomlEncode.PointerCrashes`). A pointer to a time is a text marshaler: it is printed quoted, and a
  nil one inside an interface crashes. A nil slice inside an interface is printed as `[]`.
- The encoder accepts any key that is not empty (`toml/encode.go:510-515`), but not every key comes back from
  its own output. A printed key comes back exactly when its name and its value are safe
  (`TomlNames.KeyComesBackExactly`), a whole map exactly when all of them are (`TomlExact.TextComesBackExactly`);
  with a number sign in the name a key does not come back (`TomlNames.NumberSignCutsKey`).
- `lexConst` returns nil whether or not it has sent an error (`toml/lex.go:740-748`), so after a misspelt
  boolean the lexer sends an error and then a boolean item. The parser stops at the error.
- A NUL is taken for the end of the input: behind a statement it ends the line and the text goes on
  (`toml/lex.go:224-226`), so a line may end in one (`TomlAccepted.AcceptedExactly`).
- A backslash at a line's end in a multi-line string hides the character behind the line's end too
  (`toml/lex.go:491-493`). If the closing quotes stand there, one of them is lost and the lexer turns in place
  for ever (`TomlNames.FoldHidesQuote`).
- At the end of the input inside a multi-line string the lexer turns in place for ever
  (`TomlLexRuns.StuckForever`), inside a raw one exactly when no three quotes follow
  (`TomlLexRuns.RawStuckExactly`, with texts that get there in `TomlNames.UnclosedNeverEnds`).
- The word counter's maximum for eight bytes is one too small and longer counters are cut to eight bytes,
  so it agrees with the digit counter exactly for one to seven bytes (`Odometer.AgreeExactly`), and for eight in
  exactly the runs that never bring all digits to the top (`Odometer.RunAgreesExactly`).
- The search for fields counts how often a struct is embedded in the level above only, where Go calls every
  name ambiguous that two equally short paths lead to. The search keeps every field that Go's rule picks, and
  it keeps another one exactly when a struct further up the field's path is embedded more than once in the
  level before it (`FieldGoRule.MeetsGoRule`); `FieldDominance.DiamondSurvives` is such a graph.
- `TCPFilter.Write` returns 0 and no error when it finishes a tail left over from an earlier call
  (`cmtp/filter.go:312-328`); the contract of `CmtpFilter.TCPFilter.Write` says so.

## Model

| member | source | states |
|---|---|---|
| SnappyRoundTrip.RoundTrip | snappy/encode.go:81-148 | decoding an encoded block returns the input, whatever the destination held, for every input whose literal runs the format can express, where make can grant as many bytes as the input has |
| SnappyRoundTrip.ChunksFit | snappy/encode.go:14-50 | an input of at most 2^32 bytes never needs a longer literal, so encoding it never panics |
| SnappyRoundTrip.RoundTripCheck | snappy/snappy_test.go:22-36 | Encode into one buffer and Decode into another, as methods on arrays, give the input back |
| SnappyRatio.RunCompresses | snappy/encode.go:106-148 | a run of one byte, however long from five on, becomes that byte and a copy of all the rest at distance 1 |
| SnappyRatio.RunIsShort | snappy/encode.go:52-75 | the block of such a run takes at most three bytes for every 64 of it, and 15 more |
| SnappyRatio.CopiesWithinReach | snappy/encode.go:106-141 | a word, zeros and the word again: the second is a copy of the first exactly when the distance is below 1 << 15, and a literal otherwise |
| SnappyEncode.ChunksExpand | snappy/encode.go:97-148 | the chunks the matcher chooses expand to the source from nothing, for every source |
| SnappyEncode.MatcherExpands | snappy/encode.go:106-141 | from any point of the search, with any table of earlier positions, the remaining chunks complete what is already out to the whole source |
| SnappyEncode.BlockBound | snappy/encode.go:150-174 | the header and all chunks together never exceed 32 + n + n / 6 bytes for a source of n, which is MaxEncodedLen |
| SnappyEncode.ItemBound | snappy/encode.go:150-174 | a literal run and the copies after it cost at most seven sixths of the bytes they stand for |
| SnappyEncode.Slot | snappy/encode.go:112-118 | the hash of four bytes is a valid index into the table |
| SnappyEncode.TableBits | snappy/encode.go:97-104 | the table is the smallest power of two that covers the source, between the bounds |
| SnappyEncode.MatchEnd | snappy/encode.go:131-137 | the match is as long as it can be: every byte repeats the one at the distance, and the next does not |
| SnappyEncode.Encode | snappy/encode.go:81-148 | the method writes exactly the block of the source into the given or a fresh buffer, in range, and fails exactly when a literal run cannot be expressed |
| SnappyEncode.EmitLiteral | snappy/encode.go:14-50 | appends the wire form of a literal chunk behind what was written and leaves that alone |
| SnappyEncode.EmitCopy | snappy/encode.go:52-75 | appends the wire form of a copy, split into chunks the format can hold |
| SnappyFormat.ParseInvertsWire | snappy/snappy.go:11-38 | parsing the wire form of any expressible chunks gives those chunks back |
| SnappyFormat.CopyIsPeriodic | snappy/decode.go:117-123 | a copy, overlapping itself or not, is the one extension in which every new byte equals the byte one offset earlier |
| SnappyFormat.CopySplits | snappy/encode.go:52-75 | a copy of a+b bytes is a copy of a bytes and then one of b bytes |
| SnappyDecode.Decode | snappy/decode.go:43-129 | the method's status and bytes are those of the value-level decoding of the source into the old buffer, on every input, in bounds; both panics are outcomes, that of make for any limit on what it grants |
| SnappyDecode.DecodeChunks | snappy/decode.go:53-128 | the loop over tags changes the buffer as applying the chunks one by one does, or fails as it does |
| SnappyDecode.CopyForward | snappy/decode.go:117-123 | the byte loop changes the buffer as the copy chunk says |
| SnappyDecode.LiteralLength | snappy/decode.go:55-95 | reads the length of a literal and agrees with the format's parser, errors included |
| SnappyDecode.CopyOperands | snappy/decode.go:97-111 | reads offset and length of a copy and agrees with the format's parser, errors included |
| SnappyDecode.DecodingIsMeaning | snappy/decode.go:43-129 | without zero offsets, decoding yields some bytes exactly when parsing and expanding the chunks from nothing yields them at the announced length and there is room for them |
| SnappyDecode.DestinationMatters | snappy/decode.go:117-123 | a decoding that succeeds for some destination is the same for every destination that is long enough, or that make can stand in for, exactly when no copy has offset 0 |
| SnappyDecode.ExposingDecodes | snappy/decode.go:117-123 | a five-byte block that decodes to four bytes of whatever the destination held |
| SnappyDecode.PanicsExactly | snappy/decode.go:26-37 | in terms of the bytes: decoding panics with an index out of range exactly when the first header byte below 128 is behind the tenth, or is the tenth and above 1; and with a length out of range exactly when it is neither and the destination and make are both too small for the announced length |
| SnappyDecode.HeaderCount | snappy/decode.go:26-37 | how many header bytes are read, and when that count is zero or negative, in terms of the continuation bits |
| SnappyDecode.OverflowExample | snappy/decode.go:26-37 | an eleven-byte input on which decoding panics |
| SnappyDecode.HugeExample | snappy/decode.go:39-51 | a header that announces 2^62 bytes panics wherever make cannot grant as many |
| Bytes.UvarintInvertsVarint | snappy/encode.go:86-87 | reading a written varint gives the number and its length back, whatever follows |
| Bytes.PutUvarint | snappy/encode.go:86-87 | the loop writes the varint of its argument |
| Murmur32.UndoStep | murmur3/murmur32.go:44-61 | a block step can be undone: the state from the block and the block from the state |
| Murmur128.UndoStep | murmur3/murmur128.go:56-84 | a two-lane block step can be undone: the state from the block and the block from the state |
| Murmur128.UndoFmix | murmur3/murmur128.go:164-171 | the finalizer of one lane can be undone |
| Murmur128.UndoFinal | murmur3/murmur128.go:149-162 | the finalization of both lanes can be undone |
| Murmur3.FoldAppend | murmur3/murmur.go:34-59 | mixing whole blocks and then more is mixing them all at once |
| Murmur3.BlockChangesSum | murmur3/murmur32.go:105-154 | two inputs that differ inside one aligned block, 4 bytes for Sum32 and 16 for Sum128, never have the same hash |
| Murmur3.TailChangesSum | murmur3/murmur128.go:86-162 | two inputs of equal length that differ only behind the last whole block never have the same hash |
| Murmur3.KnownSum32 | murmur3/murmur_test.go:15 | the model gives the 32-bit hash of "hello" that the test table lists |
| Murmur3.KnownSum128 | murmur3/murmur_test.go:15 | the model gives the 128-bit hash of "hello" that the test table lists |
| Murmur3.KnownBlocks32 | murmur3/murmur_test.go:17 | the model gives the 32-bit hash of the table's 25-byte date, six blocks and a tail |
| Murmur3.KnownBlocks128 | murmur3/murmur_test.go:17 | the model gives the 128-bit hash of the same, a whole block and a tail that reaches into the second lane |
| Murmur3Digest.Digest.Write | murmur3/murmur.go:34-59 | the digest keeps the fold over the whole blocks, the rest of at most a block in its own buffer and the length of everything written, although the tail is a slice of that buffer |
| Murmur3Digest.Digest.StickBack | murmur3/murmur.go:38-50 | topping up the buffered tail and mixing it leaves a slice that continues exactly the pending bytes |
| Murmur3Digest.Digest.Bmix | murmur3/murmur32.go:44-61 | mixes the whole blocks of a slice and returns the rest |
| Murmur3Digest.Digest.Reset | murmur3/murmur.go:61-65 | nothing written remains |
| Murmur3Digest.Digest.Sum32 | murmur3/murmur32.go:63-92 | the streaming 32-bit hash is the one-shot hash of everything written |
| Murmur3Digest.Digest.Sum128 | murmur3/murmur128.go:86-162 | the streaming 128-bit hash is the one-shot hash of everything written |
| Murmur3Digest.Sum32 | murmur3/murmur32.go:105-154 | the one-shot method computes the value-level 32-bit hash |
| Murmur3Digest.Sum128 | murmur3/murmur128.go:184-189 | the one-shot method computes the value-level 128-bit hash |
| Murmur3Digest.Incremental | murmur3/murmur_test.go:56-78 | for every way of cutting data into writes, both digests end in the one-shot hashes of the data |
| XXHash32.WordChangesSum | xxhash/xxhash.go:213-276 | two inputs that differ only in one aligned 4-byte word have different hashes for the same seed, through lanes, merge and avalanche |
| XXHash32.ByteChangesSum | xxhash/xxhash.go:264-268 | two inputs that differ only in one of the bytes behind the last whole word have different hashes |
| XXHash32.KnownSumOfStripe | xxhash/xxhash_test.go:58-61 | the model gives the hash of a whole stripe that the test expects |
| XXHash32.KnownSumOfRest | xxhash/xxhash_test.go:53-56 | the model gives the hash of a short input that the test expects |
| XXHashStream.XXHash.Feed | xxhash/xxhash.go:71-135 | lanes, pending bytes and length are again those of everything written |
| XXHashStream.XXHash.TopUp | xxhash/xxhash.go:86-103 | completing the buffered stripe leaves lanes and a slice that continue exactly the pending bytes |
| XXHashStream.XXHash.Write | xxhash/xxhash.go:195-205 | takes all of a piece up to the limit; refuses a nil slice and a longer one; panics on an empty one; and only a piece that is taken is hashed |
| XXHashStream.XXHash.Sum32 | xxhash/xxhash.go:137-172 | the streaming hash is the one-shot hash of everything written |
| XXHashStream.XXHash.Reset | xxhash/xxhash.go:183-191 | the digest is as new, with the same seed |
| XXHashStream.Checksum32Seed | xxhash/xxhash.go:213-276 | the one-shot method computes the value-level hash, and panics exactly on empty data |
| XXHashStream.Streamed | xxhash/xxhash_test.go:64-86 | for every way of cutting data into pieces Write takes, streaming gives the one-shot hash |
| TomlContext.RunAppend | toml/parse.go:58-64 | handling two lists of events one after the other is handling them together |
| TomlContext.Descend | toml/parse.go:241-264 | drilling down to a header's parents ends at a table that exists and leaves the context alone |
| TomlSteps.RefusedExactly | toml/parse.go:233-339 | in terms of the tables: a key is a parse error exactly when its name is taken and unmarked; a header exactly when a value blocks its way, or its name is taken and unmarked, or, for an array of tables, taken by anything else |
| TomlSteps.HeaderOpens | toml/parse.go:266-286 | an accepted header becomes the context; a new one, and each one of an array of tables, finds an empty table there |
| TomlSteps.DescendExactly | toml/parse.go:241-264 | drilling down fails exactly when a value blocks the way; if the way already leads to a table nothing changes, and otherwise an empty table stands at its end |
| TomlParser.Parser.EstablishContext | toml/parse.go:233-287 | the method's status and the parser's new fields are those of the value-level step, errors and process exits included |
| TomlParser.Parser.DrillDown | toml/parse.go:241-264 | the loop over a header's parents creates and marks what is missing and returns the innermost table |
| TomlParser.Parser.SetValue | toml/parse.go:292-339 | the method's status and the parser's new fields are those of the value-level step, errors and process exits included |
| TomlParser.Parser.IsImplicit | toml/parse.go:369-371 | a name is implicit exactly when it is among the marks |
| TomlParser.Parse | toml/parse.go:58-64 | handling events in a loop ends as the value-level run says, with its tables |
| TomlGrowth.StepGrows | toml/parse.go:233-339 | an event only adds: tables gain keys and arrays of tables gain elements at their end |
| TomlGrowth.RunGrows | toml/parse.go:58-64 | the same over a whole parse |
| TomlGrowth.ParsedValuesStay | toml/parse.go:292-339 | a path through fixed array elements that holds a value holds the same value after any further parsing |
| TomlFatal.JoinInjective | toml/decode_meta.go:58-60 | dotted names of pieces without dots are equal only for equal keys |
| TomlFatal.KeyFatal | toml/parse.go:298-314 | setting a key meets a `bug` exactly when the context names no chain of tables |
| TomlFatal.HeadersNotFatal | toml/parse.go:233-287 | a header never meets one |
| TomlFatal.HeaderDangles | toml/parse.go:321-332 | an accepted header leaves the context without a table exactly when it landed on a value |
| TomlFatal.StepDangles | toml/parse.go:233-339 | of all events only such a header, under a stale mark, takes the table away from a sound context |
| TomlFatal.RunFatalExactly | toml/parse.go:233-339 | from a sound context, a parse ends the process exactly when some table header lands on a value while its dotted name still carries an implicit mark, and the next event is a key |
| TomlFatal.NeverFatal | toml/parse.go:233-339 | without headers of arrays of tables, and with names as the lexer yields them, no `bug` of setValue is met |
| TomlFatal.StaleMarkIsFatal | toml/parse.go:357-371 | six events, with an array of tables opened twice, that end the process |
| StringOrder.SortStrings | toml/encode.go:282-283 | sorting distinct keys in any order gives the one sorted list of their set |
| StringOrder.SortedUnique | toml/encode.go:270-271 | a set of keys has only one sorted list |
| TomlEncode.ArrayType | toml/encode.go:402-431 | an array with a table type is not empty and all its elements lead to maps |
| TomlEncode.TypeOf | toml/encode.go:358-395 | which values, followed through pointers and interfaces, have no type, the type of a table, or that of an array of tables |
| TomlEncode.DirectCrashesExactly | toml/encode.go:156-194 | for every value that has a type and is no table: printing it behind a key crashes the caller, and is no encoder error, exactly when a slice in it, at some depth, has an element that is a pointer to something other than a time; otherwise it is printed |
| TomlEncode.PointerCrashes | toml/encode.go:173-194 | a slice of one pointer to an integer has the type of an array, and printing it crashes |
| TomlEncode.EncodeSettles | toml/encode.go:131-149 | a value and what is under its pointers and interfaces have the same type and are printed alike |
| TomlEncoder.Encoder.EMap | toml/encode.go:264-295 | what is written does not depend on the order in which Go hands out map keys |
| TomlEncoder.Encoder.SplitKeys | toml/encode.go:270-280 | in whatever order keys come, they are split into direct keys and sub-tables, and a value without an expressible type is an error |
| TomlEncoder.Encoder.WriteMapKeys | toml/encode.go:282-294 | writes the sorted keys in order, skipping nil, up to the first that is refused or crashes |
| TomlEncoder.Encoder.EArrayOfTables | toml/encode.go:222-237 | writes a header and a map for each element, in order |
| TomlEncoder.Encoder.Encode | toml/encode.go:108-152 | appends exactly the events of the value; panics with an encoder error exactly when it is refused and with anything else exactly when it crashes; pointers, interfaces and nil values of every kind included |
| TomlRebuild.Rebuild | toml/encode.go:86-152 | exactly the tidy maps in which nothing crashes are printed, tidy maps in which something crashes crash, maps that are not tidy and in which nothing crashes are errors; and parsing what was printed rebuilds the same tables, entries that are not written left out, without an implicit mark at any point |
| TomlRebuild.MapRebuilds | toml/encode.go:264-295 | a map printed into a fresh table at any place fills it with exactly its entries and changes nothing else |
| TomlRebuild.KeysRebuild | toml/encode.go:282-294 | a run of direct keys, or of sub-tables after them, adds exactly those entries |
| TomlRebuild.TablesRebuild | toml/encode.go:222-237 | printing an array of tables from any element completes the array with the remaining elements in order |
| TomlRebuild.MapPrints | toml/encode.go:482-515 | printing a map succeeds exactly when every entry has a type, no key is empty, keys of tables hold no brackets or dots, and nowhere a slice holds a pointer or an interface a nil pointer to a time; an error only without the first three, a crash only without the last |
| TomlMeaning.PrintMeans | toml/encode.go:86-152 | what is printed for a map, parsed and its tables read back as a Go value, is that map, pointers and interfaces followed and entries that are not written left out: booleans, integers, texts, slices and maps as themselves |
| TomlMeaning.TextMeans | toml/encode.go:60-92 | the same through the text, by lexer and parser |
| TomlMeaning.ElementMeans | toml/encode.go:156-220 | the value printed behind a key, read back as a Go value, is the value |
| TomlMeaning.ElementsMean | toml/encode.go:212-220 | the j-th printed element of a slice, read back, is its j-th element |
| TomlMeaning.PlainIsSame | toml/encode.go:131-149 | without pointers, nils and interfaces there is nothing to follow or leave out: the value that comes back is the very one |
| TomlQuote.EscapesUndoQuote | toml/parse.go:384-395 | replacing escapes undoes quoting, for every string |
| TomlQuote.QuoteRoundTrip | toml/encode.go:205-207 | reading a quoted string gives it back exactly when it has no backslash directly followed by u |
| TomlQuote.ApartReads | toml/parse.go:417-444 | for strings whose escapes stay apart: the quoted string is read in one pass; reading ends the process exactly when four bytes behind some \u are not all hexadecimal digits, and slices out of range exactly when all are and fewer than four bytes follow the last \u |
| TomlQuote.ReplaceIsDecode | toml/parse.go:417-426 | for such strings, replacing each escape everywhere, again and again, comes to one pass from left to right |
| TomlQuote.QuoteFails | toml/parse.go:417-434 | two paths whose quoted form ends the process, or slices out of range |
| TomlQuote.QuoteChanges | toml/parse.go:417-426 | a string that comes back as another one |
| TomlQuote.ReplaceUnicode | toml/parse.go:417-426 | the replacing ends, leaves strings without an escape alone and makes every other string shorter |
| TomlQuote.ReplaceUnicodeLoop | toml/parse.go:417-426 | the loop computes that |
| TomlQuote.HexDigitsExactly | toml/parse.go:428-435 | the sixteen digits in both cases have the values 0 to 15, and nothing else is a digit |
| TomlQuote.Utf8Names | toml/parse.go:436-443 | the bytes written for a code point are its one, two or three bytes of UTF-8, read back as it, and those of U+FFFD for a surrogate |
| TomlLex.Step | toml/lex.go:77-86 | one turn keeps the input and everything sent before |
| TomlLexStates.StringKeeps | toml/lex.go:464-480 | a basic string is sent only with no bare quote, no line end and only known escapes in it |
| TomlLexStates.StringUnicodeKeeps | toml/lex.go:529-550 | behind a \u the lexer goes on only after four hexadecimal digits |
| TomlLexStates.NumberOrDateKeeps | toml/lex.go:637-654 | digits end in an integer item, or lead on to a float or a date |
| TomlLexStates.DateKeeps | toml/lex.go:658-681 | a date item is sent only with its text in the full form |
| TomlLexStates.BoolKeeps | toml/lex.go:740-769 | a boolean item that is not behind an error reads true or false |
| TomlLexStates.TableNameKeeps | toml/lex.go:277-296 | a piece of a table name is not empty and holds no dot and no NUL, and no bracket behind its first character |
| TomlLexStates.KeyKeeps | toml/lex.go:318-343 | the name of a key holds no equals sign, number sign or line end, and no white space at its ends |
| TomlLexStates.ValueKeeps | toml/lex.go:360-410 | at a value, the lexer moves to a state that fits its first character, or sends an error |
| TomlLexStates.ArrayEndKeeps | toml/lex.go:456-460 | the end of an array leads back to the enclosing array or to the line's end |
| TomlLexStates.CommentKeeps | toml/lex.go:781-789 | a comment returns to the state it interrupted |
| TomlLexRuns.StepKeeps | toml/lex.go:77-86 | every turn of the lexer keeps stack, expected item and pending text in agreement |
| TomlLexRuns.Reached | toml/lex.go:77-151 | in every state a run reaches: what was sent is a prefix of the grammar, start and position are inside the input, the line counts the newlines read, the next state is not nil and a state that pops has something to pop |
| TomlLexRuns.StepShrinks | toml/lex.go:181-797 | every turn makes a measure of remaining input and state rank smaller, unless it sends the last item or is stuck |
| TomlLexRuns.RunEnds | toml/lex.go:554-619 | every run reaches the end or an error, unless it is stuck at the end of the input in a multi-line string, which takes a triple quote |
| TomlLexRuns.StuckForever | toml/lex.go:554-619 | there a turn changes nothing |
| TomlLexRuns.RawStuckExactly | toml/lex.go:589-619 | inside a multi-line raw string the lexer is stuck, with nothing more sent, exactly when no three quotes follow; otherwise the next item is that string |
| TomlLexer.Lexer.Call | toml/lex.go:181-797 | each state method of the lexer object changes its fields as the value-level state function says |
| TomlLexer.Lexer.NextItem | toml/lex.go:77-86 | items of the run are handed out one by one, in order; the call never returns exactly where the lexer is stuck |
| TomlLexer.Lexer.Backup | toml/lex.go:145-151 | stepping back keeps position and line right |
| TomlItems.ParseName | toml/parse.go:107-111 | the loop over name pieces only appends to the key and reads on |
| TomlNoBug.ValueNoBug | toml/parse.go:148-225 | on items of the grammar, reading a value meets no `bug` about the kind of an item or the text of a boolean, an integer, a float or a date, and leaves items of the grammar |
| TomlNoBug.ArrayNoBug | toml/parse.go:207-221 | the same for the elements of an array, comments between them included |
| TomlNoBug.EventNoBug | toml/parse.go:99-144 | the same for a top-level item, and names come out as the lexer lets them through |
| TomlNoBug.ParseTextNeverBugs | toml/parse.go:40-67 | whatever the text, the parser's complaints about unexpected items and literals are never made; a date ends the process only if the lexer sent one the calendar does not have; and the parser hangs only on an unclosed multi-line string |
| TomlNoBug.ParseTextNeverFatal | toml/parse.go:40-67 | a text that opens no array of tables never meets a `bug` in setValue |
| TomlReader.Reader.ReadValue | toml/parse.go:148-225 | the method pulls from the lexer the items of one value and makes of them what the value-level parser does, integers and floats out of range and impossible dates included |
| TomlReader.Reader.ReadArray | toml/parse.go:207-221 | the loop over an array's items does the same for an array |
| TomlReader.Reader.ReadName | toml/parse.go:103-125 | the loop over a table's name collects its pieces up to the closing item |
| TomlReader.Reader.TopLevel | toml/parse.go:99-144 | one top-level item changes the tables and the rest of the items as the value-level parser says, or ends the parse as it does |
| TomlReader.ParseText | toml/parse.go:40-67 | parsing a text ends as the value-level parse of the lexer's items does, with its tables |
| TomlForms.QuotedLexes | toml/lex.go:464-516 | the lexer takes a string in single or double quotes whole and sends exactly what is between them |
| TomlForms.TripledLexes | toml/lex.go:554-619 | the lexer takes a multi-line string of either kind whole and sends exactly what is between its quotes |
| TomlForms.IntegerLexes | toml/lex.go:624-654 | the lexer takes an integer whole and sends exactly its digits |
| TomlForms.NoteLexes | toml/lex.go:772-789 | a comment, wherever one may stand, is sent whole, and the lexer goes on where it was |
| TomlForms.FormLexes | toml/lex.go:360-460 | the lexer takes any value whole, arrays nested to any depth with blanks, line ends and comments between their elements included, and the parser makes of its items what is meant by it |
| TomlWritten.HeaderLexes | toml/lex.go:236-296 | a header of a table or an array of tables is lexed whole and read as that header |
| TomlWritten.AssignLexes | toml/lex.go:300-358 | a key, blanks around its equals sign and any value are lexed whole and read as that key with what is meant by the value |
| TomlWritten.WrittenReads | toml/parse.go:40-67 | on any text written by the rules of comments, blanks, headers, keys and values, lexer and parser do with each statement what is meant by it, and nothing with the rest |
| TomlAccepted.AcceptedExactly | toml/lex.go:181-797 | for every text: the lexer gets to its end without an error exactly when it is written by those rules |
| TomlAccepted.ParsedExactly | toml/parse.go:40-67 | for every text and all tables: it is parsed to those tables exactly when it is written by those rules and its statements lead there |
| TomlRefused.ValueTotal | toml/lex.go:360-769 | at any value, whatever text follows, the lexer takes a value by the rules whole or fails |
| TomlReadings.LayoutChangesNothing | toml/lex.go:181-230 | texts with the same statements in the same order end in the same tables or the same failure, wherever comments, blanks, empty lines and line ends stand, between the elements of arrays too |
| TomlReadings.CommentInFront | toml/lex.go:187-190 | a comment line in front of a text leaves how its parse ends unchanged |
| TomlReadings.DressChangesNothing | toml/lex.go:801-807 | a text whose lines are indented by tabs, have white space behind them and end in a carriage return and a newline is parsed to the same |
| TomlReadings.MultiReads | toml/parse.go:152-157 | under a safe name, any text without its closing quotes, and without a backslash between double ones, put between triple quotes, is parsed to exactly that text; so is the text with a line's end in front |
| TomlReadings.MultiTextExactly | toml/lex.go:554-619 | without a backslash, exactly the texts without three quotes in a row and without one at the end may stand there |
| TomlReadings.FoldsAway | toml/parse.go:406-415 | a backslash at a line's end and the white space behind it add nothing, and what is in front and behind is stripped as if alone |
| TomlReadings.FoldMeans | toml/parse.go:152-155 | a multi-line string that is folded at one place means its two parts put together, byte for byte |
| TomlReadings.TokenMeans | toml/parse.go:148-205 | raw strings, and basic ones without a backslash, mean what is between their quotes; booleans what they say; floats and dates keep their texts, and an impossible date ends the process |
| TomlReadings.EscapeMeans | toml/parse.go:384-395 | each escape of one letter stands for its character, and what is around it stays |
| TomlReadings.UniformExactly | toml/parse.go:207-221 | an array's elements are of one type exactly when they are all strings, all integers, all booleans, all floats, all dates or all arrays |
| TomlReadings.KeyReadsAs | toml/parse.go:127-140 | a text of one key is parsed to that key with what is meant by its value, for every notation |
| TomlReadings.KnownValues | toml/parse.go:148-225 | what some notations are parsed to under every safe name: a negative integer and float, a boolean, dates with a leap day among them, arrays with line ends and a comment inside |
| TomlReadings.LexerMeetsParser | toml/lex.go:809-817 | the lexer lets through exactly the hexadecimal digits to which the parser gives a value, as digits those below ten, and exactly the escapes the parser replaces |
| TomlText.DecimalReads | toml/parse.go:169-184 | the digits of a number read as that number |
| TomlText.FloatLexes | toml/lex.go:684-735 | the lexer takes a printed float whole, sign and point included, and sends exactly its text |
| TomlText.DateLexes | toml/lex.go:656-681 | the lexer takes a printed date whole and sends exactly its text |
| TomlText.RegainedExactly | toml/parse.go:148-225 | a printed value comes back as itself exactly when its strings hold no \u, its integers fit 64 bits, its floats are in range, its dates are on the calendar and its arrays are of one type |
| TomlDocument.DocumentReads | toml/encode.go:222-295 | lexer and parser together, on a printed document with safe names, however indented and spaced, do with each line what is regained of it, and end as the first line that fails does |
| TomlDocument.PrintedMeans | toml/encode.go:156-220 | whatever the printed value, what is meant by its print is what is regained of it, a value or a failure, for strings, integers, booleans, floats, dates and nested arrays |
| TomlDocument.LinesWritten | toml/encode.go:222-295 | a printed document, however indented and spaced, is a text written by the rules, whose statements mean what is regained of its lines |
| TomlDocument.TextRoundTrip | toml/encode.go:60-92 | a tidy map in which nothing crashes, with names and printed values the text can carry, comes back as the same tables through encoder, text, lexer and parser |
| TomlDocument.MapSafe | toml/encode.go:264-295 | a printed map comes out as safe lines, names the lexer takes whole and values that come back, exactly when the text can carry its names and values |
| TomlNames.KeyComesBackExactly | toml/encode.go:433-447 | one printed key with a value of printed form comes back as that key and value, and nothing else, exactly when its name and its value are safe |
| TomlNames.NumberSignCutsKey | toml/encode.go:510-515 | a key with a number sign in it, which the encoder accepts, does not come back |
| TomlNames.TextIsNatural | toml/parse.go:40-67 | whatever the text, it is parsed to values only under trimmed names without equals signs, number signs and line ends, to tables only under pieces without dots, NULs or later brackets, and only to numbers in range, dates of the calendar and arrays of one type |
| TomlNames.ImpossibleDateStops | toml/parse.go:201-205 | under any safe name, a date of the full form ends the process exactly when the calendar or the clock does not have it |
| TomlNames.UnclosedNeverEnds | toml/lex.go:589-619 | a text whose raw string is not closed leaves the lexer stuck and the parser waiting |
| TomlNames.FoldHidesQuote | toml/lex.go:489-498 | a text whose multi-line string has a backslash at a line's end right in front of its closing quotes leaves the lexer stuck and the parser waiting, whatever the string before that |
| TomlNames.StrayValueFails | toml/encode.go:181-203 | a value that begins like no TOML value, as the print of an infinity or a not-a-number does, is a parse error under any safe name |
| TomlExact.TextComesBackExactly | toml/encode.go:60-92 | a printed map, however indented and spaced, comes back as the same tables exactly when the text can carry every name and every value in it; a map with a key that begins with a bracket or a NUL cannot be carried |
| TomlExact.AllRegained | toml/parse.go:292-339 | if the lines of a document lead to the tables they were printed from, every value was read as it was printed |
| TomlExact.SameValue | toml/parse.go:292-339 | two keys that differ in their values never lead to the same tables, whatever is parsed behind them |
| TomlExact.RunFromNatural | toml/parse.go:233-339 | if events lead to tables some text is parsed to, each of their names and values is one that text can hold |
| FieldSearch.CandidatesLead | toml/type_fields.go:67-137 | the index of every candidate leads through embedded structs to a field of its name, tag and type |
| FieldSearch.CandidatesComplete | toml/type_fields.go:67-137 | for every path to a field, however long, there is a candidate of its name no deeper |
| FieldSearch.ScanLevelMoves | toml/type_fields.go:83-137 | a level visits every struct queued for it, and queues nothing when it visits nothing new, so the search ends on cycles too |
| FieldDominance.DominantField | toml/type_fields.go:181-211 | returns the candidate that beats all others of its name, or reports that there is none |
| FieldDominance.Filter | toml/type_fields.go:147-168 | writing over the sorted candidates in place keeps exactly the survivors, one to a name |
| FieldDominance.NameOrder | toml/type_fields.go:32-44 | byName.Less is an order, so the sort is well defined |
| FieldDominance.IndexOrder | toml/type_fields.go:52-62 | byIndex.Less is an order |
| FieldDominance.TypeFields | toml/type_fields.go:67-173 | for every finite type graph, cyclic or not, exactly the surviving candidates are returned, one to a name, in index order |
| FieldDominance.SurvivorIsShallowest | toml/type_fields.go:141-168 | a survivor is where its index says, and no path leads to a field of its name at a lesser depth |
| FieldDominance.DiamondSurvives | toml/type_fields.go:129-134 | a graph in which a field survives although two equally short paths lead to it |
| FieldGoRule.MeetsGoRule | toml/type_fields.go:63-173 | for every type graph: a field is the one Go's rule picks among all paths to its name exactly when it survives the search and no struct above its own on its path is embedded more than once in the level before |
| FieldGoRule.DiamondNotPicked | toml/type_fields.go:129-134 | a field of the diamond survives the search although Go's rule does not pick it |
| FieldGoRule.SurvivorAmbiguous | toml/type_fields.go:83-137 | a survivor has a rival, by another path of the same length, exactly when some struct on its path above its own is embedded more than once in the level before |
| FieldGoRule.PickedSurvives | toml/type_fields.go:83-173 | every field Go's rule picks survives the search |
| FieldGoRule.CandidatesFaithful | toml/type_fields.go:83-137 | every struct is searched at the end of a shortest path to it; its fields are candidates, twice if it is embedded twice in the level above; and no candidate is repeated unless its struct has a second path |
| FieldGoRule.TwoPathsMeet | toml/type_fields.go:129-134 | two equally short paths to a struct part and meet again where a struct is embedded twice |
| Odometer.ValueRange | bigcounter/bigcounter.go:507-528 | digits within their bounds count from zero, all at the lower bounds, to the capacity less one, all at the upper |
| Odometer.PlusCounts | bigcounter/bigcounter.go:768-788 | Plus adds one in the mixed radix and fails exactly at the top |
| Odometer.AddCounts | bigcounter/bigcounter.go:698-705 | AddUint64 adds when the sum fits, and otherwise fails and starts over |
| Odometer.AddWord | bigcounter/bigcounter.go:436-445 | the word counter's repeated increments add when the sum fits, and otherwise fail and start over |
| Odometer.OpAgrees | bigcounter/bigcounter.go:436-490 | one operation keeps a digit counter and a word counter of up to seven bytes at the same number with the same error |
| Odometer.AgreeExactly | bigcounter/bigcounter.go:214-239 | the two counters give the same errors and bytes in every run exactly for sizes of one to seven bytes |
| Odometer.RunAgreesExactly | bigcounter/bigcounter.go:214-239 | a run of any size: the two counters agree in it exactly when the size is at most seven, or is eight and no step of the run brings all eight digits to the top |
| Odometer.EightFails | bigcounter/bigcounter.go:225-226 | for eight bytes, counting goes on up to 2^64 - 2, and the first increment past that fails and starts over |
| Counters.Any255Base.Plus | bigcounter/bigcounter.go:768-788 | the carry loop over the digits in place computes Plus, and keeps track of the first digit that may differ from its lower bound |
| Counters.Any255Base.AddUint64 | bigcounter/bigcounter.go:698-705 | the loop computes AddUint64 in place |
| Counters.Any255Base.Reset | bigcounter/bigcounter.go:882-899 | every digit is at its lower, or upper, bound |
| Counters.Any255Base.FillBytes | bigcounter/bigcounter.go:834-844 | the low digits, as many as fit, are right-aligned in the buffer and the rest of it is untouched |
| Counters.Fix64Base.constructor | bigcounter/bigcounter.go:214-239 | the size is brought into one to eight and the doubling loop computes the maximum for it: 2^64 - 2 for eight bytes, otherwise two to the bits less one |
| Counters.Fix64Base.Plus | bigcounter/bigcounter.go:465-472 | the method computes the word counter's Plus |
| Counters.Fix64Base.AddUint64 | bigcounter/bigcounter.go:436-445 | the loop computes the word counter's AddUint64 |
| Counters.Fix64Base.FillBytes | bigcounter/bigcounter.go:359-383 | shifting the word byte by byte writes its low bytes, as many as fit, right-aligned, and nothing else |
| CmtpFilter.HeaderRoundTrip | cmtp/filter.go:131-145 | taking the header off a stream that was put behind it gives address and body back |
| CmtpFilter.HeaderInBytes | cmtp/filter.go:131-145 | the header is the length in four bytes, the highest first, and the encrypted address |
| CmtpFilter.LengthInBytes | cmtp/filter.go:247-256 | the length read from a header is its first four bytes, the highest first, and it is refused exactly when above 2048 |
| CmtpFilter.TCPFilter.Write | cmtp/filter.go:230-337 | whatever was acknowledged is kept or was forwarded in order, in every state, however much the connection takes; the dialled address is the decryption of the header's info; what each call acknowledges |
| CmtpFilter.TCPFilter.WriteTail | cmtp/filter.go:312-328 | the loop ends with the tail written, or with the unwritten part still pending after an attempt without progress |
| CmtpFilter.TCPFilter.Dial | cmtp/filter.go:277-310 | dialling fails exactly when the address decrypts and does not answer, decryption exactly when it does; both leave the filter where it was |
| CmtpFilter.TCPFilter.ReadHeader | cmtp/filter.go:174-187 | the header goes out in order, piece by piece, and the state changes with its last byte |
| CmtpFilter.TCPFilter.MarshalHeader | cmtp/filter.go:131-145 | lays out the length and the encrypted address, to be read from the start |
| CmtpFilter.SendAll | cmtp/filter.go:160-187 | read with buffers of any sizes, the assembling side yields exactly the header, then turns to the connection |
| CmtpFilter.HandOver | cmtp/filter.go:230-337 | for every way of cutting header and body into writes, a call without an error takes its whole piece; so the address dialled is the decrypted one and exactly the body is forwarded, unless decryption fails or the decrypted address does not answer, each reported exactly when it is so, or the connection refused a write |

## Left out

- TomlEncoder.Encoder.Encode: structs and text marshalers other than times; a MarshalText that fails, as that of a time does beyond the year 9999; channels, functions and other kinds without a TOML type; cyclic values.
- TomlText.RegainedExactly: values of printed form only, that is floats with digits on both sides of a point and dates of the full form; what is printed for infinities and not-a-numbers is a parse error (`TomlNames.StrayValueFails`), and years beyond 9999 are outside the model.
- TomlExact.TextComesBackExactly: for a map with a key that begins with a bracket or a NUL it says only that the text cannot carry it; that it does not come back is proved where that key is alone (`TomlNames.KeyComesBackExactly`).
- TomlQuote.ApartReads: an escape that names the backslash or the letter u, or that has a backslash among the four bytes behind it, can make or mend others while it is replaced; there the outcome is what the replacing itself computes (`TomlQuote.ReplaceUnicodeLoop`).
- TomlReader.Reader.ReadValue: floats keep their text, so rounding is not modelled; days of a month are checked as `time.Parse` has done since Go 1.8, where older releases let some through.
- TomlRebuild.Rebuild: kinds of encoder errors are merged into one, because which error comes first depends on Go's map order.
- SnappyDecode.Decode: what `make` grants is a parameter; running out of memory below that is not modelled.
- CmtpFilter.HandOver: decryption and which addresses answer are parameters; an address that answers once answers always.
- SnappyRoundTrip.RoundTripCheck: the two buffers are different arrays and the source is a value, so overlapping source and destination are not modelled.
- Snappy: `MaxEncodedLen` for lengths near the end of the integer range; `encoding/binary` as of Go 1.4 is modelled after its documentation and is not part of this repository.
- Murmur3: `Sum` appends the state before finalization and is not modelled; the 64-bit form is the first lane of the 128-bit one. Unsafe loads are read as little-endian.
- xxHash: inputs of 2^64 bytes or more are not considered.
- TOML lexer: runes of several bytes, and the texts of error items.
- TOML parser: the `types` and `ordered` lists; line numbers in errors.
- TOML decoding into Go values by reflection.
- Field resolution: the field cache and its lock; a struct field's type is followed through one pointer, and structs are numbered.
- Counters: `Mimus`, `Cmp`, `Mul`, conversions, and bounds set by `SetInit` or `SetMax` in the agreement of the two counters.
- Filter: sockets, goroutines and channels; reading behind the header waits on them. The connection takes any part of a write and reports an error when it takes less than all. Closing a filter is not modelled.
- AES, the remaining multiplexer, logging, HTTP, queues, allocators and string helpers.
