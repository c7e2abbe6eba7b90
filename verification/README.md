# Proofs about the components of this repository

Six groups of components, each modelled in the form its source has (objects with fields and loops where the
source updates in place, step machines where threads interleave, functions where it only computes), and proved
against specifications that do not mention how the source goes about it. `dafny verify dfyconfig.toml` checks the
whole project.

- **The Lox scanner** (`LoxGrammar`, `LoxTokens`, `LoxScanner`, `LoxLocality`, `LoxRoundTrip`, `LoxAlphabet`).
  `LoxGrammar.Matches` says which texts are pieces of which kind and nothing about how to find them; `Tiles` cuts a
  text into longest pieces. The scanner object computes exactly that. On top of it: keywords, line numbers, the
  print-and-rescan round trip, the exact condition under which a text can be scanned apart from what follows, and what
  each character, word, operator and literal comes out as on its own.
- **The write-ahead-log store** (`WalCodec`, `WalStore`, `WalSchedule`). The log is a sequence of bytes: JSON objects
  with the escapes of section 7 of RFC 8259 as Go's encoder writes them, one a line. A cut may fall at any byte.
  Concurrent callers are runs of separate log and apply steps.
- **The slotted page and the page manager** (`PageModel`, `PageImage`, `StoragePage`, `PageManager`). 16- and 32-bit
  arithmetic wraps; a page refines the history of its tuples; the file is a sequence of bytes.
- **Three concurrent programs as step machines** (`BoundedBuffer`, `BufferOutputs`, `TryLock`, `ChatServer`), with
  their constants (50, 100, 5) as parameters, and the poll server's sweep (`PollSweep`).
- **The query parser** (`LalrTables`, `LalrParser`, `QueryLexer`): the grammar and its language, Bison's packed
  tables, the driver with its stacks, labels and error recovery, and the longest-match lexer in front of it.
- **The file-backed key-value engine** (`FileStore`), against the in-memory engine it stands for.

`Sequences`, `Lines` and `Bytes` are shared vocabulary.

## What the proofs show about the code as it stands

- Slot reuse never happens. `database/simple_page_impl/main.go` announces it, but a deleted slot gets size 0, so the
  branch that reuses one is only taken for an empty tuple, and then slices past the end of the page and panics
  (`PageModel.AddIsPromised`, `PageModel.NonemptyTuplesBound`). The layout comment of `page.go` promises 4 bytes a
  slot after an 8-byte header; the space check counts 2 bytes a slot and no header.
- A loaded page holds its tuple bytes below their offsets, by the size of header and directory
  (`PageImage.LoadedTupleIsShifted`), and loses slots as soon as one is dead (`PageImage.SlotsSurviveIffAllLive`).
  Many short tuples lie over the slot directory of the saved page: 818 one-byte tuples are taken, and their directory
  does not come back (`PageImage.OneByteTuples`, `PageImage.PlainSlotsReturnIff`).
- Writing on after a torn log line loses the first new entry (`WalStore.AppendAfterTear`), and one entry of 64 KiB
  makes every later start fail (`WalStore.RestartSucceedsIffEntriesFit`).
- Two overlapping calls of different outcome on one key can always end with the map and the log apart
  (`WalSchedule.OverlapDiverges`); `WalSchedule.AgreesHoweverFinishedIffSettled` is the exact condition.
- The collector of `try_lock_std.cpp` can hang: it can get out of its loop exactly while no collection has taken, or
  will have to take, more than one of a counter (`TryLock.CanExitIffNotDoomed`).
- The chat server can deliver a direct message to a client that connected after it was looked up
  (`ChatServer.MisdeliveryIsPossible`); apart from that gap it never does (`ChatServer.DirectArrivesIffNotClosed`).
- A value or key the line format cannot carry does not survive a reopening (`FileStore.WriteLastsIffClean`).

## Model

| member | source | states |
|---|---|---|
| LoxGrammar.NextIsLongest | jlox_interpriter/src/main/java/lox/Scanner.java:51-175 | what one round of the switch consumes is a piece of the grammar, and no longer prefix of the remaining text is a piece of any kind |
| LoxGrammar.LongestIsUnique | jlox_interpriter/src/main/java/lox/Scanner.java:51-175 | conversely, whatever length and kind the grammar calls longest is the one the scanner takes |
| LoxGrammar.KindIsUnique | jlox_interpriter/src/main/java/lox/Scanner.java:51-175 | a text is a piece of at most one kind: keywords, names, operators and comments do not overlap |
| LoxGrammar.NumberIsLongest | jlox_interpriter/src/main/java/lox/Scanner.java:136-149 | a number takes all its digits, and a point only with a digit behind it |
| LoxGrammar.WordIsLongest | jlox_interpriter/src/main/java/lox/Scanner.java:128-134 | a word is taken whole, and is a keyword exactly when its whole text is reserved |
| LoxGrammar.StringIsLongest | jlox_interpriter/src/main/java/lox/Scanner.java:163-175 | a string ends at its first closing quote, or takes the rest of the text and is unterminated |
| LoxTokens.PiecesAreTheTiling | jlox_interpriter/src/main/java/lox/Scanner.java:42-49 | a list of pieces is the scan of a text exactly when it tiles the text with longest pieces |
| LoxTokens.PiecesCoverTheText | jlox_interpriter/src/main/java/lox/Scanner.java:42-49 | lexemes and skipped stretches joined in order are the source text: no gap, no overlap |
| LoxTokens.TokenLine | jlox_interpriter/src/main/java/lox/Scanner.java:110-112 | a token's line is the first line plus the newlines up to the token's end |
| LoxTokens.PiecesCoverAPrefix | jlox_interpriter/src/main/java/lox/Scanner.java:42-49 | the first pieces of a scan spell out the beginning of the text, so that line is a line of the source |
| LoxTokens.TokensAreWellSpelled | jlox_interpriter/src/main/java/lox/Scanner.java:42-205 | every token's lexeme is a text of its type, with the literal that text denotes |
| LoxTokens.KeywordsAreNotIdentifiers | jlox_interpriter/src/main/java/lox/Scanner.java:128-134 | a token whose lexeme is reserved has the reserved word's type |
| LoxScanner.Scanner.constructor | jlox_interpriter/src/main/java/lox/Scanner.java:38-40 | a scanner starts at the beginning of its source on line 1 with no tokens |
| LoxScanner.Scanner.Advance | jlox_interpriter/src/main/java/lox/Scanner.java:193-196 | moves over one character and returns it |
| LoxScanner.Scanner.Match | jlox_interpriter/src/main/java/lox/Scanner.java:177-182 | moves over the next character exactly when it is the expected one |
| LoxScanner.Scanner.AddToken | jlox_interpriter/src/main/java/lox/Scanner.java:198-205 | appends one token whose lexeme is the text from start to current |
| LoxScanner.Scanner.ScanIdentifier | jlox_interpriter/src/main/java/lox/Scanner.java:128-134 | consumes the longest piece, a word, and appends its token |
| LoxScanner.Scanner.ScanNumber | jlox_interpriter/src/main/java/lox/Scanner.java:136-144 | consumes the longest piece, a number, and appends its token |
| LoxScanner.Scanner.ScanString | jlox_interpriter/src/main/java/lox/Scanner.java:163-175 | consumes the longest piece, counts the newlines in it, and appends a token or reports an unterminated string on its last line |
| LoxScanner.Scanner.SkipComment | jlox_interpriter/src/main/java/lox/Scanner.java:97-100 | consumes the comment up to the newline and appends nothing |
| LoxScanner.Scanner.Operator | jlox_interpriter/src/main/java/lox/Scanner.java:54-104 | the type and length of the one- or two-character operator at hand; the slash is left to its own case |
| LoxScanner.Scanner.ScanToken | jlox_interpriter/src/main/java/lox/Scanner.java:51-126 | one round consumes exactly the longest piece and leaves its token, report and newlines |
| LoxScanner.Scanner.ScanTokens | jlox_interpriter/src/main/java/lox/Scanner.java:42-49 | the loop ends with exactly the tokens and reports of the tiling, and the end token on the last line |
| LoxLocality.NextIgnoresTail | jlox_interpriter/src/main/java/lox/Scanner.java:51-175 | a piece does not depend on what follows a newline after it, nor on what follows a space after a whole lexeme |
| LoxLocality.StartingLaterRaises | jlox_interpriter/src/main/java/lox/Scanner.java:110-112 | starting a scan some lines later changes its tokens and reports in their lines only, by as many |
| LoxLocality.ScanSplitsAtNewline | jlox_interpriter/src/main/java/lox/Scanner.java:42-182 | if the first text leaves no string open, scanning two texts joined by a newline gives the tokens and reports of one followed by the other's, raised by the lines before |
| LoxLocality.OpenTextSwallowsTheNextLine | jlox_interpriter/src/main/java/lox/Scanner.java:163-175 | if it leaves one open, a closing quote on the next line makes a token neither scan has |
| LoxLocality.ScansApartIffClosed | jlox_interpriter/src/main/java/lox/Scanner.java:42-182 | a text can be scanned apart from every continuation exactly when it leaves no string open |
| LoxLocality.PromptAgreesWithFile | jlox_interpriter/src/main/java/lox/Lox.java:30-50 | scanning line by line with fresh scanners, as the prompt does, gives the tokens and reports of scanning the joined text, line numbers counted on, if no line but the last leaves a string open |
| LoxRoundTrip.PrintedFallsApart | jlox_interpriter/src/main/java/lox/Scanner.java:42-205 | well-spelled lexemes joined by single spaces fall apart into those lexemes and those spaces |
| LoxRoundTrip.PrintThenScan | jlox_interpriter/src/main/java/lox/Scanner.java:42-205 | for every source text, joining the lexemes with single spaces and scanning again gives the same types, lexemes and literals, and no error |
| LoxAlphabet.LettersAre | jlox_interpriter/src/main/java/lox/Scanner.java:151-153 | the letters of words are those of the English alphabet and the underscore |
| LoxAlphabet.DigitsAre | jlox_interpriter/src/main/java/lox/Scanner.java:159-161 | the digits are the ten decimal ones |
| LoxAlphabet.WordAlone | jlox_interpriter/src/main/java/lox/Scanner.java:18-134 | a word scans to one token of its own: each of the sixteen reserved words its type, any other word an identifier |
| LoxAlphabet.NumberAlone | jlox_interpriter/src/main/java/lox/Scanner.java:136-144 | digits, with or without a point and more digits, scan to one number |
| LoxAlphabet.StringAlone | jlox_interpriter/src/main/java/lox/Scanner.java:163-175 | a quoted text scans to one string with the text between the quotes, on the line where it ends |
| LoxAlphabet.OpenStringAlone | jlox_interpriter/src/main/java/lox/Scanner.java:163-171 | without its closing quote it scans to no token and one report on its last line |
| LoxAlphabet.CommentAlone | jlox_interpriter/src/main/java/lox/Scanner.java:95-100 | two slashes and the rest of the line scan to nothing |
| LoxAlphabet.SymbolAlone | jlox_interpriter/src/main/java/lox/Scanner.java:54-104 | each of the nineteen operators, brackets and separators scans to its own token, and no other text is one |
| LoxAlphabet.OtherCharacterAlone | jlox_interpriter/src/main/java/lox/Scanner.java:105-123 | blank, tab, carriage return and newline scan to nothing; any other character that starts no piece is reported |
| LoxAlphabet.ErrorLine | jlox_interpriter/src/main/java/lox/Scanner.java:110-171 | a report's line is the first line plus the newlines up to the end of what it is about |
| Bytes.EncodedIsRead | database/wal_kvstore/main.go:90-95 | reading the UTF-8 encoding of any scalar value takes exactly its bytes, whatever follows |
| Bytes.CodePointEncodes | database/wal_kvstore/main.go:90-95 | conversely, bytes read as one character are the encoding of the scalar value their payload bits make |
| Bytes.ValidIffText | database/wal_kvstore/main.go:90-95 | well-formed UTF-8 is exactly what encoding a sequence of scalar values gives |
| WalCodec.CleanIffValid | database/wal_kvstore/main.go:89-97 | a text comes back from the log as it was exactly when it is well-formed UTF-8; each stray byte becomes U+FFFD |
| WalCodec.CharacterIsKept | database/wal_kvstore/main.go:90 | past ASCII only U+2028 and U+2029 are escaped, every other character is written as it is, and all come back |
| WalCodec.StrayByteIsReplaced | database/wal_kvstore/main.go:90 | a byte that starts no character is written, and comes back, as U+FFFD |
| WalCodec.EscapedAsciiLength | database/wal_kvstore/main.go:90 | which ASCII characters are escaped, and by two bytes or six |
| WalCodec.EscapedLength | database/wal_kvstore/main.go:90 | escaping makes a text at most six times as long and never shorter |
| WalCodec.MarshalText | database/wal_kvstore/main.go:11-15 | the entry as JSON text, character for character |
| WalCodec.StringDecodes | database/wal_kvstore/main.go:89-97 | decoding an escaped text up to its closing quote gives the text and leaves what follows |
| WalCodec.LetterEscapes | database/wal_kvstore/main.go:49 | what a backslash and a letter stand for in a string read back, and that any other letter, or a bare control character, makes the line undecodable |
| WalCodec.CodeUnitEscape | database/wal_kvstore/main.go:49 | a four-digit escape stands for its code unit, digits of either case; half a surrogate pair for U+FFFD |
| WalCodec.SurrogatePairEscape | database/wal_kvstore/main.go:49 | two escaped halves of a pair stand for the one character they make |
| WalCodec.LoneHighSurrogate | database/wal_kvstore/main.go:49 | a high half before an escape that is no low half stands for U+FFFD, and the other escape is read by itself |
| WalCodec.EscapedHasNoControl | database/wal_kvstore/main.go:89-97 | escaped text holds no control character, so no entry is split over two lines |
| WalCodec.MarshalRoundTrip | database/wal_kvstore/main.go:48-51 | every entry written decodes to its cleaned type, key and value |
| WalCodec.MarshalShape | database/wal_kvstore/main.go:89-97 | every entry starts with the same head and holds neither newline nor carriage return |
| WalCodec.TornEntryFails | database/wal_kvstore/main.go:48-51 | no proper prefix of an entry decodes |
| WalCodec.GluedEntryFails | database/wal_kvstore/main.go:48-51 | a nonempty piece of an entry with another entry glued to it does not decode either |
| WalStore.SurvivorsMeaning | database/wal_kvstore/main.go:45-58 | an operation survives a cut exactly when its JSON text lies wholly before it |
| WalStore.CrashRecovery | database/wal_kvstore/main.go:39-97 | for every history and every byte position of the cut, recovery gives the map after the surviving operations and no other, or fails exactly when a whole or torn line left by the cut is too long for the line scanner |
| WalStore.RestartSucceedsIffEntriesFit | database/wal_kvstore/main.go:45-59 | a restart replays the whole log if every entry fits the line scanner's 64 KiB, and otherwise fails |
| WalStore.EntryText | database/wal_kvstore/main.go:64-77 | the line of a put or a deletion, character for character but for its own texts |
| WalStore.EntryLength | database/wal_kvstore/main.go:64-95 | its length |
| WalStore.RestartBySize | database/wal_kvstore/main.go:45-59 | a restart replays everything exactly when no entry reaches 65536 bytes, and otherwise fails |
| WalStore.ShortTextsRestart | database/wal_kvstore/main.go:45-59 | texts whose sixfold length leaves room for the rest of the line always come back |
| WalStore.LongTextFails | database/wal_kvstore/main.go:45-59 | a single text of 65536 bytes or more makes every restart fail |
| WalStore.TextsComeBack | database/wal_kvstore/main.go:39-97 | short keys and values made of Unicode characters come back as they were |
| WalStore.LogGrowsByALine | database/wal_kvstore/main.go:95 | an operation adds its entry and one newline to the log |
| WalStore.CarriageReturnIsDropped | database/wal_kvstore/main.go:45-47 | a carriage return before the newline makes no difference to recovery |
| WalStore.OtherTypesAreIgnored | database/wal_kvstore/main.go:52-57 | an entry whose type is neither put nor delete changes nothing when replayed |
| WalStore.AppendAfterCrash | database/wal_kvstore/main.go:39-97 | what a restart gives after writing on behind any cut: the entries with their newline before the cut, and the new ones, without the first one if the cut left a fragment; or failure, exactly when one of these lines, the glued one included, is too long |
| WalStore.AppendAfterTear | database/wal_kvstore/main.go:39-97 | behind a fragment the first new entry is lost, or the glued line too long to be read at all |
| WalStore.UndecodableLineIsSkipped | database/wal_kvstore/main.go:45-59 | a line that does not decode leaves no trace among the entries around it, if it is short enough to be read; otherwise recovery fails |
| WalStore.KVStore.NewKVStore | database/wal_kvstore/main.go:23-37 | opening fails exactly when recovery does, and otherwise holds the recovered map |
| WalStore.KVStore.RecoverFromWAL | database/wal_kvstore/main.go:39-60 | the line loop replays exactly the lines of the log, in order, and stops with an error at a line too long |
| WalStore.KVStore.WriteToWAL | database/wal_kvstore/main.go:89-97 | appends one encoded entry and a newline, and nothing else |
| WalStore.KVStore.Put | database/wal_kvstore/main.go:63-73 | appends the operation's entry to the log and applies it to the map |
| WalStore.KVStore.Delete | database/wal_kvstore/main.go:76-86 | appends the operation's entry to the log and applies it to the map |
| WalSchedule.RunsKeepInv | database/wal_kvstore/main.go:63-97 | in every interleaving each operation is applied at most once and only once it is in the log, and the map is what applying them in that order gives |
| WalSchedule.StoredValuesAreLogged | database/wal_kvstore/main.go:63-97 | every stored value comes from a logged put on its key |
| WalSchedule.StoreAgreesWithLog | database/wal_kvstore/main.go:63-97 | for a key that never has two calls in flight, the map agrees with replaying the log whenever none is pending |
| WalSchedule.RestartGivesTheStore | database/wal_kvstore/main.go:39-97 | if that holds of every key and the texts and entries are durable, reopening the log's bytes gives the map |
| WalSchedule.AgreesHoweverFinishedIffSettled | database/wal_kvstore/main.go:63-97 | in every reachable state and for every key: however the calls in flight are finished, map and log end up agreeing on the key, if and only if each call in flight on it would leave what the last logged one leaves, and, if none is in flight, the last one applied has left that |
| WalSchedule.FinishingIsARun | database/wal_kvstore/main.go:63-97 | each order of finishing the calls in flight is a way for the run to go on |
| WalSchedule.RestartGivesTheStoreIffSettled | database/wal_kvstore/main.go:39-97 | overlaps allowed: with durable texts and no call in flight, reopening the log's bytes gives the map if and only if every key is settled in that sense |
| WalSchedule.OverlapDiverges | database/wal_kvstore/main.go:65-84 | from every reachable state with two calls of different outcome in flight on one key, puts or deletions, some run finishes all calls and leaves the map apart from the log |
| PageModel.AddIsPromised | database/simple_page_impl/storage/page.go:101-127 | whether a tuple is added, refused or panics is told by the history of tuples alone: panic exactly for an empty tuple with some slot dead, refusal exactly when bytes and two per slot no longer fit |
| PageModel.AddRefines | database/simple_page_impl/storage/page.go:101-127 | after an added tuple the page is the page of the longer history; a refused one changes nothing |
| PageModel.DeleteRefines | database/simple_page_impl/storage/page.go:129-137 | deleting a slot kills that tuple and no other |
| PageModel.LiveSlotReadsBack | database/simple_page_impl/storage/page.go:101-137 | a live slot's extent lies inside the tuple data and reads back, byte for byte, what was added |
| PageModel.ExtentsAreDisjoint | database/simple_page_impl/storage/page.go:101-137 | live extents are pairwise disjoint, later tuples below earlier ones |
| PageModel.RunsRefine | database/simple_page_impl/storage/page.go:101-137 | through every run of additions and deletions, of any slot, the page refines its history; in particular its free space and all bytes ever added make up 4096 |
| PageModel.TupleCountIsLiveCount | database/simple_page_impl/storage/page.go:125-135 | the tuple count is the number of live slots exactly when no dead slot was deleted again, up to 16-bit wrap-around |
| PageModel.NonemptyTuplesBound | database/simple_page_impl/storage/page.go:105-115 | with nonempty tuples there are at most 1366 slots and the reuse branch is never taken |
| PageModel.RegularRuns | database/simple_page_impl/storage/page.go:101-137 | from a new page on, over every run of adding nonempty tuples and deleting live slots: the page refines its history, the tuple count is the live count, there are at most 1366 slots, and no call panics |
| PageModel.BoundIsReached | database/simple_page_impl/storage/page.go:113-126 | up to 1366 one-byte tuples all go into a new page, so the bound is tight |
| PageImage.LoadedPage | database/simple_page_impl/storage/page.go:47-85 | for every page whose directory fits and whose tuples leave the header alone: number, count and free-space offset come back, and every slot written below that offset; loading panics exactly when the counted directory leaves the page; each data byte past that directory comes back lower by its end |
| PageImage.LoadedTupleIsShifted | database/simple_page_impl/storage/page.go:83-84 | each byte of a live tuple past the counted directory stands in the loaded page at its place less 8 + 4 times the count |
| PageImage.SlotsReturnIffCounted | database/simple_page_impl/storage/page.go:74-82 | with the directory clear of the tuples, the slots come back exactly when the tuple count is the number of slots |
| PageImage.SlotsSurviveIffAllLive | database/simple_page_impl/storage/page.go:74-82 | that is, exactly when no slot is dead, unless a dead slot was deleted again; then exactly when the wrapped count happens to match |
| PageImage.OverrunSlotsReturnIff | database/simple_page_impl/storage/page.go:55-62 | with tuples over the directory but not the header, exactly when the count matches and the tuple bytes there are the directory's own |
| PageImage.LastSlotIsOverwritten | database/simple_page_impl/storage/page.go:55-62 | if a byte that is not zero lies over the end of the directory and the last size is below 256, the last slot is lost |
| PageImage.PlainSlotsReturnIff | database/simple_page_impl/storage/page.go:55-82 | for tuples below 256 bytes and without zero bytes, the slots come back if and only if all are counted and the directory ends at or below the free-space offset |
| PageImage.OneByteTuples | database/simple_page_impl/storage/page.go:55-127 | a page of n one-byte tuples that are not zero, all of which AddTuple takes, gets its slots back exactly for n up to 817 |
| PageImage.HeaderReturnsIffClear | database/simple_page_impl/storage/page.go:51-62 | with no zero byte in the tuple data, the free-space offset comes back exactly when the tuples leave the header alone |
| StoragePage.Page.New | database/simple_page_impl/storage/page_,manager.go:48-54 | the empty page |
| StoragePage.Page.AddTuple | database/simple_page_impl/storage/page.go:101-127 | the search, copy and append in place give the page value and the answer of the specification |
| StoragePage.Page.DeleteTuple | database/simple_page_impl/storage/page.go:129-137 | marks the slot in place, and refuses an index out of range without a change |
| StoragePage.Page.WriteHeader | database/simple_page_impl/storage/page.go:50-53 | the three header fields, little-endian, and zeros behind them |
| StoragePage.Page.WriteSlot | database/simple_page_impl/storage/page.go:56-60 | one more slot behind the directory written so far |
| StoragePage.Page.Serialize | database/simple_page_impl/storage/page.go:47-64 | the filled buffer is the page's little-endian image; a directory longer than the page panics |
| StoragePage.Page.DeserializePage | database/simple_page_impl/storage/page.go:66-85 | the loaded page is the image's; a count whose directory leaves the page panics |
| PageManager.WriteKeepsHolds | database/simple_page_impl/storage/page_,manager.go:33-39 | writing one page changes that page of the file and the bytes of no other, at the end or past it too |
| PageManager.EmptyLoadsBack | database/simple_page_impl/storage/page_,manager.go:41-60 | the empty page comes back as it was written |
| PageManager.SavedPageIsRead | database/simple_page_impl/storage/page_,manager.go:21-39 | a page written among others, whose directory of 8 and 4 a slot ends at or below its tuples, is read back with its number, count and free-space offset, and its counted slots |
| PageManager.ReadGivesItsNumber | database/simple_page_impl/storage/page_,manager.go:21-31 | reading page i gives a page numbered i exactly when i is 0 or was written |
| PageManager.NewNumberIsFresh | database/simple_page_impl/storage/page_,manager.go:47 | a new number is the number of pages exactly while there are fewer than 2^32, and then wraps to page 0 |
| PageManager.RunsHold | database/simple_page_impl/storage/page_,manager.go:21-60 | over every run from an empty file, the file is a whole number of pages, page i the last one written as i |
| PageManager.AllocationInARun | database/simple_page_impl/storage/page_,manager.go:41-60 | an allocation adds one page under a number none had, every other page reads as before, and the new one reads empty |
| PageManager.PageManager.ReadPage | database/simple_page_impl/storage/page_,manager.go:21-31 | reads that page's bytes and loads them; a page not wholly in the file is an error |
| PageManager.PageManager.WritePage | database/simple_page_impl/storage/page_,manager.go:33-39 | overwrites the file at the page's place with its image |
| PageManager.PageManager.AllocateNewPage | database/simple_page_impl/storage/page_,manager.go:41-60 | writes and returns the empty page under the new number |
| PageManager.PageManager.Stats | database/simple_page_impl/storage/page_,manager.go:69-77 | the file's size and its page count cut to 32 bits |
| BoundedBuffer.StepKeepsInv | cpp/multi_threading/producer_consumer.cpp:13-41 | every step of either thread keeps mutual exclusion, that a sleeper has nothing to do or a notify coming, and the order of buffer and output |
| BoundedBuffer.Safety | cpp/multi_threading/producer_consumer.cpp:13-41 | in every reachable state the buffer is within capacity, one thread at a time stands between taking and giving up the mutex, consumed plus buffered values are exactly the produced ones, not both threads sleep, and no small, large, middle value comes out in that order |
| BoundedBuffer.StuckIffFinished | cpp/multi_threading/producer_consumer.cpp:13-41 | the only state without progress is the one with the producer done and every value consumed once: no wakeup is lost |
| BoundedBuffer.EveryRunEnds | cpp/multi_threading/producer_consumer.cpp:13-41 | under any scheduler a run has at most 12 n + 4 steps, and three more for each spurious wakeup |
| BoundedBuffer.ZeroCapacityDeadlocks | cpp/multi_threading/producer_consumer.cpp:18-34 | with capacity 0 both sides can fall asleep for good, so positive capacity is needed above |
| BufferOutputs.CompleteRunsArePrintable | cpp/multi_threading/producer_consumer.cpp:13-41 | what a complete run prints is an arrangement of 1 to n that avoids 1-3-2 and never asks for more room than the capacity |
| BufferOutputs.OutputsExactly | cpp/multi_threading/producer_consumer.cpp:13-41 | and each such arrangement is printed by some complete run: these are the possible outputs, exactly |
| TryLock.RunsKeepInv | cpp/multi_threading/try_lock_std.cpp:16-50 | every run keeps the locking discipline and the counts of increments, collections and amounts taken |
| TryLock.NothingIsLost | cpp/multi_threading/try_lock_std.cpp:16-50 | in every reachable state X + Y + XplusY is the number of increments done |
| TryLock.ExitMeansAllCollected | cpp/multi_threading/try_lock_std.cpp:27-50 | if the collector exits, X and Y are 0, XplusY is twice the rounds and both threads are done |
| TryLock.DoomedNeverExits | cpp/multi_threading/try_lock_std.cpp:36-47 | once the sum is past two for each collection, or a counter holds or is about to hold two, no continuation lets the collector exit |
| TryLock.CanExitIffNotDoomed | cpp/multi_threading/try_lock_std.cpp:16-50 | and in every other reachable state, for any number of rounds, some continuation does: the condition is exact |
| TryLock.ExitIsPossible | cpp/multi_threading/try_lock_std.cpp:16-50 | for every number of rounds, none included, some schedule lets it exit |
| TryLock.HangIsPossibleIff | cpp/multi_threading/try_lock_std.cpp:16-50 | a state from which no continuation lets it exit can be reached exactly when there are two rounds or more |
| ChatServer.WrittenCommandIsRead | cpp/socket_programming/multi_client_server/server.cpp:140-145 | an event name, a colon and any data, colons included, parse to that event with that data |
| ChatServer.BareEventIsRead | cpp/socket_programming/multi_client_server/server.cpp:140-145 | a text without a colon is read as that event with no data |
| ChatServer.EventsAreRead | cpp/socket_programming/multi_client_server/server.cpp:30-35 | the five event names are understood, the bare logout and online-users too, and any other event is invalid, whatever its data |
| ChatServer.Server.BroadcastMessage | cpp/socket_programming/multi_client_server/server.cpp:44-55 | the loop sends to each listed socket but the sender's, in order, and then the acknowledgement |
| ChatServer.Server.HandleLoginClient | cpp/socket_programming/multi_client_server/server.cpp:57-61 | the name now stands for the sender's socket, other names are as before |
| ChatServer.Server.Unregister | cpp/socket_programming/multi_client_server/server.cpp:65-79 | erasing while iterating removes exactly the names of that socket, and the list loses that socket and keeps its order |
| ChatServer.Server.HandleOnlineUsers | cpp/socket_programming/multi_client_server/server.cpp:84-93 | the answer lists exactly the names in the map |
| ChatServer.Server.FindReceiver | cpp/socket_programming/multi_client_server/server.cpp:97-113 | the socket and text of a direct message, an unknown receiver, or a malformed message |
| ChatServer.RunsKeepInv | cpp/socket_programming/multi_client_server/server.cpp:44-235 | every run of accepts, messages, logouts and disconnects, with descriptors handed out again after close, keeps the invariant of sockets, list, names and messages under way |
| ChatServer.ListedOnceAndServed | cpp/socket_programming/multi_client_server/server.cpp:215-235 | no socket is listed twice, each listed one is open, and has exactly one handler to unregister it, or is about to get it |
| ChatServer.OnlineIffLastLoginIsRegistered | cpp/socket_programming/multi_client_server/server.cpp:57-79 | a name is in the map exactly while the last connection to log in with it is registered, and stands for that connection's listed socket |
| ChatServer.EveryRunIsSafe | cpp/socket_programming/multi_client_server/server.cpp:44-235 | all this holds after every run from the server's start |
| ChatServer.CommandsAreAnswered | cpp/socket_programming/multi_client_server/server.cpp:57-116 | the replies word for word and what else each command does; online-users lists exactly the names whose last login is registered |
| ChatServer.LogoutIsAnnounced | cpp/socket_programming/multi_client_server/server.cpp:80-81 | a connection is told of its logout, and then it and its descriptor are gone and no other |
| ChatServer.BroadcastReachesTheOthersOnce | cpp/socket_programming/multi_client_server/server.cpp:44-55 | a broadcast arrives exactly once at each other registered connection, nowhere else, and its sender gets the acknowledgement |
| ChatServer.DirectFindsTheLastLogin | cpp/socket_programming/multi_client_server/server.cpp:95-116 | a direct message is addressed to the name's last login, and refused exactly when that is not registered |
| ChatServer.DirectArrivesIffNotClosed | cpp/socket_programming/multi_client_server/server.cpp:102-105 | it reaches that connection exactly when it has not closed since the look-up |
| ChatServer.IsHandedOut | cpp/socket_programming/multi_client_server/server.cpp:215-235 | although accept gives out the lowest free descriptor, enough new clients bring any free one back |
| ChatServer.MisdeliveryIsPossible | cpp/socket_programming/multi_client_server/server.cpp:102-105 | from every reachable state with sender, receiver and acceptor idle, some run delivers the message to a connection accepted later |
| PollSweep.Sweep | socket_prog/multi_client_poll.cpp:53-85 | the index loop that erases and appends as it walks does, for the ready entries in order, what each asks for, and ends with the survivors and the accepted descriptor |
| PollSweep.EntriesAfterASweep | socket_prog/multi_client_poll.cpp:53-85 | after a sweep the vector holds exactly the entries that were not ready, the listener, the clients whose recv gave at least one byte, and the positive descriptor a ready listener accepted |
| PollSweep.ClientsInASweep | socket_prog/multi_client_poll.cpp:68-83 | a client is closed exactly if it was ready and recv gave 0 or an error, and echoed its bytes exactly if recv gave some |
| PollSweep.ListenerInASweep | socket_prog/multi_client_poll.cpp:57-67 | accept is called exactly if the listener was ready, and the listener is never closed |
| PollSweep.ReadyHandledOnce | socket_prog/multi_client_poll.cpp:53-85 | every descriptor ready on entry is handled exactly once and no other at all |
| PollSweep.SurvivorsKeepOrder | socket_prog/multi_client_poll.cpp:74-77 | the survivors are exactly the entries not closed, in their order |
| PollSweep.ListenerStays | socket_prog/multi_client_poll.cpp:76-77 | the listener stays at index 0, so the index never goes below it |
| PollSweep.SweepKeepsListening | socket_prog/multi_client_poll.cpp:53-85 | after a sweep the listener is first and no descriptor is listed twice, given that accept returns one not open |
| PollSweep.SweepKeepsOpen | socket_prog/multi_client_poll.cpp:53-85 | after a sweep the vector lists exactly the sockets still open |
| PollSweep.ListedIsOpen | socket_prog/multi_client_poll.cpp:44-86 | and so it is after any number of rounds |
| PollSweep.ListedFromTheStart | socket_prog/multi_client_poll.cpp:41-86 | so it is from the start, with the listener alone in the vector: after any rounds the listener is first, the vector lists exactly the open sockets, each once |
| LalrTables.LanguageIsOneSentence | simple-parsing/parser.y:19-28 | what the start symbol derives in any number of steps is SELECT IDENTIFIER FROM IDENTIFIER SEMICOLON and the end marker, and nothing else |
| LalrTables.PackedTables | simple-parsing/parser.tab.c:528-593 | what the packed tables decide in each state on each symbol |
| LalrTables.RulesAreTheGrammar | simple-parsing/parser.tab.c:584-594 | the tables of left-hand sides and lengths are those of the grammar, rule by rule |
| LalrParser.PathShifts | simple-parsing/parser.tab.c:954-1022 | on the accepting path the tables decide to shift the expected symbol to the next state and to fail on every other |
| LalrParser.NoStateShiftsError | simple-parsing/parser.tab.c:1163-1191 | no state shifts the error symbol, so recovery pops everything and gives up |
| LalrParser.Parser.StackDerivesTheInput | simple-parsing/parser.tab.c:541-593 | at every label of a parse that has not failed, the accessing symbols of the stack followed by the tokens not shifted derive the whole input; the driver's loop keeps it |
| LalrParser.AgreementIsMembership | simple-parsing/parser.tab.c:814-1258 | the leading tokens agree with the sentence throughout exactly when the kinds up to the first end marker are a string of the language |
| LalrParser.AcceptedCodes | simple-parsing/parser.tab.h:53-60 | told by the codes of the lexer, the accepted streams are 258, 261, 259, 261, 260 and then a code that is not positive |
| LalrParser.Parser.constructor | simple-parsing/parser.tab.c:817-858 | the empty stacks, the start state and no lookahead |
| LalrParser.Parser.StoreState | simple-parsing/parser.tab.c:873-948 | stores the state, accepts in the final one, and never exhausts the stack |
| LalrParser.Parser.Peek | simple-parsing/parser.tab.c:965-992 | the kind of the next token, read only if there is no lookahead; codes that are not positive end the input |
| LalrParser.Parser.BackUp | simple-parsing/parser.tab.c:954-1022 | shifts exactly when the tables decide so, to the state they name: the token that continues the sentence and no other; the completed rule is left to the default without a lookahead |
| LalrParser.Parser.ShiftToken | simple-parsing/parser.tab.c:1008-1022 | pushes the token's value and drops the lookahead |
| LalrParser.Parser.DefaultAction | simple-parsing/parser.tab.c:1028-1032 | reduces or fails as the tables decide: the completed rule is reduced, anything else is an error |
| LalrParser.Parser.Reduce | simple-parsing/parser.tab.c:1038-1100 | runs the action with the second and fourth value and goes to the state after a query |
| LalrParser.Parser.ReportError | simple-parsing/parser.tab.c:1106-1138 | reports one error and goes on to recovery |
| LalrParser.Parser.RefusalIsReported | simple-parsing/parser.tab.c:978-986 | a failed parse has reported one error, unless the token that failed it is the code 256 by which a lexer says it has reported |
| LalrParser.Parser.PopStates | simple-parsing/parser.tab.c:1163-1191 | pops the stack to its bottom and aborts |
| LalrParser.Parser.Parse | simple-parsing/parser.tab.c:814-1258 | for every token stream the parse ends, with 0 exactly when the kinds to the first end marker are in the language and otherwise 1; the action runs exactly when the first five tokens are the rule's, with the identifiers' texts; at most six states; no token is read past the deciding one |
| QueryLexer.LongestThenFirst | simple-parsing/lexer.l:11-24 | each match is the longest of any pattern and, among those, of the first rule |
| QueryLexer.CharactersAre | simple-parsing/lexer.l:15-20 | the letters and digits of words, and the white space |
| QueryLexer.ReadIffWritten | simple-parsing/lexer.l:11-24 | a text is read as a list of tokens exactly when it is written as those tokens with white space and unknown characters between them, no word running on |
| QueryLexer.ValueStays | simple-parsing/lexer.l:11-18 | only an identifier changes the value handed to the parser |
| QueryLexer.InLanguageIffQuery | simple-parsing/parser.y:19-28 | the kinds the parser sees are in its language exactly when the text is written as a query |
| QueryLexer.PlainQuery | simple-parsing/lexer.l:11-20 | a query written with single spaces between its words is written as a query, whatever the names of its column and its table |
| QueryLexer.ParseText | simple-parsing/parser.tab.c:814-1258 | lexer and parser together accept exactly the texts written as SELECT, a column, FROM, a table and a semicolon, and hand the action that column and that table |
| FileStore.LoadedIsClean | simple-kv-cpp/src/file_based_kv_store.cpp:69-91 | whatever the file, no loaded key holds '=' and nothing loaded holds a newline |
| FileStore.SavedLoadsBackIffClean | simple-kv-cpp/src/file_based_kv_store.cpp:69-106 | saving a map in any order and loading gives it back exactly when its keys and values fit the line format |
| FileStore.LoadSaveLoad | simple-kv-cpp/src/file_based_kv_store.cpp:69-106 | for every file content, load, save in any order and load give the same map |
| FileStore.OrderNamesEachKeyOnce | simple-kv-cpp/src/file_based_kv_store.cpp:102-105 | a saved file lists each key of the map exactly once and no other |
| FileStore.LastLineWins | simple-kv-cpp/src/file_based_kv_store.cpp:79-90 | a key stands for what follows the first '=' on the last line that carries it; lines without '=' do nothing |
| FileStore.WriteLastsIffClean | simple-kv-cpp/src/file_based_kv_store.cpp:15-30 | a write survives a reopening exactly when its key has no '=' and neither text a newline |
| FileStore.FileEngineRefinesMemory | simple-kv-cpp/src/file_based_kv_store.cpp:9-106 | over every run of writes, reads, erasures and reopenings with such texts, from any file, the answers are the in-memory engine's and the file keeps parsing to the map |
| FileStore.NewEngineRefinesNewMemory | simple-kv-cpp/src/file_based_kv_store.cpp:69-106 | opened without a file, or on an empty one, the engine answers through every such run as a new, empty in-memory engine does |
| FileStore.AnswersTellTheHistory | simple-kv-cpp/src/in_memory_kv_store.cpp:7-55 | a read gives the last value written and not erased since, an erasure says whether there was one, and an empty key is refused |
| FileStore.InMemoryStorageEngine.Write | simple-kv-cpp/src/in_memory_kv_store.cpp:7-21 | sets one key; an empty key is refused |
| FileStore.InMemoryStorageEngine.Read | simple-kv-cpp/src/in_memory_kv_store.cpp:23-41 | the key's value, or nothing |
| FileStore.InMemoryStorageEngine.Erase | simple-kv-cpp/src/in_memory_kv_store.cpp:43-55 | removes the key and says whether it was there |
| FileStore.FileBasedStorageEngine.constructor | simple-kv-cpp/src/file_based_kv_store.cpp:9-13 | opening loads the file; without one, or on an empty one, the store is empty |
| FileStore.FileBasedStorageEngine.LoadFromFile | simple-kv-cpp/src/file_based_kv_store.cpp:69-91 | the line loop gives the map the text stands for |
| FileStore.FileBasedStorageEngine.SaveToFile | simple-kv-cpp/src/file_based_kv_store.cpp:93-106 | the file is the map printed in some order, each key once |
| FileStore.FileBasedStorageEngine.Write | simple-kv-cpp/src/file_based_kv_store.cpp:15-30 | one step of the file engine: map and file change together |
| FileStore.FileBasedStorageEngine.Read | simple-kv-cpp/src/file_based_kv_store.cpp:32-48 | looks the key up and changes nothing |
| FileStore.FileBasedStorageEngine.Erase | simple-kv-cpp/src/file_based_kv_store.cpp:50-67 | one step of the file engine: the file is rewritten exactly when a key was erased |

## Left out

- LoxScanner.Scanner.ScanNumber: keeps a number's digits, not the double they denote; texts are sequences of Unicode scalars where Java has UTF-16 units.
- LoxLocality.PromptAgreesWithFile: takes a prompt line as a text without its newline; the prompt's carriage-return handling and the printing of tokens are not modelled.
- WalCodec.MarshalRoundTrip: the decoder covers objects of the shape the encoder writes, not other JSON a foreign writer could put on a line.
- WalStore.CrashRecovery: the log is cut, not garbled, and each entry's write is one append.
- WalSchedule.RunsKeepInv: one log append is one step, as O_APPEND gives it; I/O errors, Display and Close are not modelled.
- PageImage.LoadedPage: takes a page whose tuples leave the header alone; if they reach into it, tuple bytes are loaded as header (PageImage.HeaderReturnsIffClear).
- PageManager.RunsHold: takes written pages whose directory ends at or below the tuple data, as the format asks, and page counts below 2^32 for allocation; failing reads and writes of the file system are not modelled.
- StoragePage.Page.AddTuple: a Go panic is a result of its own that leaves the page as it is; the whole-file helpers WriteToFile and ReadFromFile, and the commented-out code, are not modelled.
- BoundedBuffer.Safety: the start value is not negative, as in the program; for a negative one the countdown wraps around the whole int range.
- TryLock.NothingIsLost: a run is a schedule of single steps under the two mutexes; the one-second pauses and the output are not modelled.
- ChatServer.RunsKeepInv: each access of the name map is one step, although login and look-up take no lock; the two look-ups of a direct message are one. The signal handler, the framing of messages by a length prefix and the size of the receive buffer are not modelled. It holds for any choice of free descriptors; ChatServer.MisdeliveryIsPossible is about the lowest one.
- ChatServer.Server.HandleOnlineUsers: the answer is the set of names; their order and the text around them are not modelled.
- PollSweep.Sweep: an index of -1 would be a wrapped size_t in the source; it does not occur. Failing polls and the echoed bytes are not modelled.
- LalrParser.Parser.Parse: growing the stacks is a label that is never reached; debug output and the symbol destructors, which are empty, are not modelled.
- QueryLexer.ParseText: the message for each unknown character is not modelled.
- FileStore.FileBasedStorageEngine.SaveToFile: a file that cannot be opened for writing is not modelled, nor is a crash while the file is rewritten.
- The bloom filter and the chat room's message header: short loops over small domains, or sizes computed in floating point.
- The HTTP server, the socket, file and memory tutorials, the other threading samples and the Go basics: plumbing, or facts read off one body.
- The UTF-8 reader of the Java sources rests on Unicode tables and library code that are not part of this model.
