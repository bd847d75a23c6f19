# dbmysqlpool in Dafny

A model, with proofs, of parts of dbmysqlpool that carry state, loops or exact arithmetic: the log replay tool,
the query monitor's thread, and the inline code of the MySQL client headers it ships. `dafny verify dfyconfig.toml` checks everything.

| file | models |
|---|---|
| `CStrings.dfy` | NUL-terminated strings and `strstr` |
| `GeneralLog.dfy` | the loop of MySQLLogExecute that cuts a general log into statements, on its 8192-byte buffer |
| `LogFormat.dfy` | reads of bounded size against whole lines |
| `LogPrinter.dfy` | a log printer, and when the loop inverts it |
| `BulkMerge.dfy` | the replay loop, and the text it fuses many INSERT statements into |
| `InsertHead.dfy` | an INSERT up to its VALUES keyword, and where the bulk replay looks for that |
| `InsertEffects.dfy` | what INSERT statements insert, and whether the fused one inserts the same |
| `QueryMonitor.dfy` | `gbRun` and `gbStop`: start, stop and worker steps interleaved; the sleep arithmetic |
| `TrailingSpace.dfy` | `skip_trailing_space`, word by word at any address |
| `IoCache.dfy` | the `my_b_*` macros over a buffer and a file |
| `HeadPrinter.dfy`, `RowPrinter.dfy` | printers of INSERT heads and row lists, and that the readers invert them |
| `Sequences.dfy` | concatenation is associative |
| `Bytes.dfy`, `ByteOrder.dfy`, `NetworkOrder.dfy` | n-byte numbers, bit operators, and the store and load macros of five headers |
| `Timespec.dfy`, `Rounding.dfy` | absolute times, `MY_ALIGN`, `rint` |

How things are modelled:

- Text is `string` with one character per byte; `'\0'` ends a C string, and a buffer is an `array<char>` that is
  overwritten in place. The binary headers use bytes `0..255` and unbounded integers with every wrap-around,
  truncation and sign conversion written out.
- `fgets` is a method with its libc meaning, files are the sequence of bytes left to read, and statements given to
  the database are the sequence `executed`.
- In `QueryMonitor` every read or write of a shared flag is one atomic step; runs are arbitrary sequences of steps of
  the controlling thread and any number of workers.
- `read_function`, `write_function`, `_my_b_get`, `_my_b_write` and `my_b_flush_io_cache` are function pointers or external routines whose
  code is not in the repository. The methods standing for them carry the contract that the comments on `IO_CACHE` give
  them, and the macros are proved against that contract alone.
- Bit operators are defined on natural numbers, one binary digit at a time, so the masks are proved at every width.
- The Dafny loops are the C++ loops; functions such as `Statements`, `Fuse` or `NaiveEnd` are what the methods are
  proved against, and the lemmas in the table say what those functions mean.

Promises that do not hold in general, each with the exact condition under which it does:

- A log line longer than the buffer can yield a statement of its own when a later chunk looks like a header
  (`SplitHeaderExample`), and a line that ends one byte past the buffer leaves a `'\r'` in the statement
  (`KeptReturnHappens`); otherwise the statements of a log with LF and CR LF line ends are right
  (`ChunkingIsTransparent`). A `'\r'` one byte before a last
  byte that is not `'\n'` costs that byte (`StripIsExact`).
- A statement whose first line leaves the header line shorter than 20 or 34 bytes, such as one that begins with a line
  break, is lost (`ShortFirstLineHappens`). A continuation line that looks like a header splits its statement, and a
  23-byte prefix that shows "Query" at offset 9 is captured with it. These are all the cases (`ReplayRoundTrip`).
- The fused statement of a bulk replay does what two or more statements do one by one if and only if every statement is
  an INSERT or REPLACE of rows into the same destination, nothing but blanks and closed comments stands behind the rows
  of any but the last, and no clause behind those of the last (`BulkMergePreservesEffects`). This holds if the search
  finds each statement's own keyword, which means in upper case with no `VALUES` in front of it
  (`KeywordFoundExactly`); otherwise the rows that the texts put together read as decide. Statements of the SET form
  that call VALUES() (`SetFormSpoils`), clauses and `;` behind rows (`AfterCleanEnd`) and a first statement without the
  keyword, which is not checked for it (`FirstIsNotChecked`, `FirstStatementExample`), break it; a keyword in lower
  case in the first statement does not (`LowerCaseFirstMerges`).
- A Start or Stop made before a new worker's first step is not seen by it (`EarlyCalls`, `TwoWorkersExample`). A Stop
  called on the thread that owns the window can return if and only if no worker is at its query or at a SendMessage
  (`WindowThreadStopReturns`), and is sure to if the worker is past its sends (`WindowThreadStopProceeds`).
- `my_b_write_byte` writes behind the buffer when the flush it ignores made no room (`WriteByte`,
  `FailedFlushOverruns`).
- `MY_ALIGN` returns 0 for addresses past the last multiple (`MyAlignIsLeastMultiple`), which breaks their order
  (`MyAlignIsIdempotentAndMonotone`).
- The tick arithmetic is exact only below one wrap of the counter (`SleepSecondsIsExact`), and the constructed
  absolute time only without 64-bit overflow (`MakeTimeIsExact`).

## Model

| member | source | states |
|---|---|---|
| GeneralLog.FGets | MySQLLogExecute/MySQLLogExecute.cpp:74 | one read delivers the bytes through the first line feed, at most 8191 of them, then a NUL, and nothing else in the buffer changes |
| GeneralLog.StripInPlace | MySQLLogExecute/MySQLLogExecute.cpp:76-85 | overwriting one byte with NUL leaves the buffer holding the line without the bytes the code strips |
| GeneralLog.StripIsExact | MySQLLogExecute/MySQLLogExecute.cpp:78-85 | the stripping removes exactly the line terminator unless '\r' stands before a last byte that is not '\n', and exactly then it loses that byte |
| GeneralLog.CapturedIsNonEmpty | MySQLLogExecute/MySQLLogExecute.cpp:87-103 | the thresholds 20 and 34 leave at least three captured bytes, so an empty `strSQL` means no header was seen |
| GeneralLog.EmptyUntilFirstHeader | MySQLLogExecute/MySQLLogExecute.cpp:87-108 | after any number of reads of any log, `strSQL` is empty if and only if no header has been seen, and finished plus open statements are as many as the headers |
| GeneralLog.OneStatementPerHeader | MySQLLogExecute/MySQLLogExecute.cpp:87-116 | there are as many statements as lines recognised as headers |
| GeneralLog.ProcessBuffer | MySQLLogExecute/MySQLLogExecute.cpp:76-110 | the loop body on the real buffer changes list and open statement as the classified item says, and leaves the buffer cleared |
| GeneralLog.SplitLog | MySQLLogExecute/MySQLLogExecute.cpp:66-116 | the buffer loop with its accumulator and final flush yields, for every log, one statement per header: its text and the following non-header lines |
| LogFormat.ChunkingIsTransparent | MySQLLogExecute/MySQLLogExecute.cpp:66-116 | for every log the 8191-byte reads give at least as many statements as the whole lines, and as many if and only if no chunk after the first of its line looks like a header; for logs with LF or CR LF line ends they give the same statements if and only if, besides, no chunk of a statement ends between CR and LF |
| LogFormat.CuttingIsTransparent | MySQLLogExecute/MySQLLogExecute.cpp:66-111 | the same equivalence for every buffer with room for 34 bytes or more |
| LogFormat.FittingLinesAreReadWhole | MySQLLogExecute/MySQLLogExecute.cpp:66-74 | lines that fit the buffer are read whole, whatever characters they hold |
| LogFormat.BufferLimit | MySQLLogExecute/MySQLLogExecute.cpp:66-74 | a line of 8191 bytes is read whole, one of 8192 is cut after 8191 |
| LogFormat.StatementsAreOneLine | MySQLLogExecute/MySQLLogExecute.cpp:76-116 | no statement captured from any log is empty or holds a line feed |
| LogPrinter.RoundTrip | MySQLLogExecute/MySQLLogExecute.cpp:66-116 | printing statements in either header layout, with LF and CR LF line ends mixed and lines of any length, and reading with a buffer of any size gives back the same list, line breaks removed, if and only if every entry by itself has a long enough first line, a clear prefix, no continuation line and no later chunk that looks like a header, and no kept return |
| LogPrinter.PrintParseRoundTrip | MySQLLogExecute/MySQLLogExecute.cpp:76-116 | read line by line, the list comes back if and only if every first line reaches 20 or 34 bytes, no 23-byte prefix shows "Query" at offset 9 and no continuation line looks like a header |
| LogPrinter.FittingReplayRoundTrip | MySQLLogExecute/MySQLLogExecute.cpp:66-116 | the same equivalence for the program's own buffered loop when the printed lines fit the buffer |
| LogPrinter.ReplayRoundTrip | MySQLLogExecute/MySQLLogExecute.cpp:66-116 | for the program's own loop and lines of any length the equivalence of `RoundTrip` holds at 8191 bytes |
| LogPrinter.ShortFirstLineHappens | MySQLLogExecute/MySQLLogExecute.cpp:87-108 | a printed list whose second statement begins with a line break does not come back |
| LogPrinter.SplitHeaderHappens | MySQLLogExecute/MySQLLogExecute.cpp:66-111 | a line that fills the buffer with anything before the text of a printed header line is no statement, yet the reads make it one |
| LogPrinter.KeptReturnHappens | MySQLLogExecute/MySQLLogExecute.cpp:66-85 | for every buffer there is a recognised statement whose line end is cut between CR and LF |
| BulkMerge.Replay | MySQLLogExecute/MySQLLogExecute.cpp:127-159 | without bulk every statement is executed in order; with bulk one fused statement is, or nothing; an empty list executes the one empty string |
| BulkMerge.Execute | MySQLLogExecute/MySQLLogExecute.cpp:66-159 | the whole program from log bytes to executed statements; a bulk run of a log without headers executes exactly the empty string |
| BulkMerge.NoBorder | MySQLLogExecute/MySQLLogExecute.cpp:139 | no proper prefix of VALUES is one of its suffixes |
| BulkMerge.KeywordPosition | MySQLLogExecute/MySQLLogExecute.cpp:139-147 | `strstr` finds the keyword written after a prefix if and only if the prefix does not contain the keyword |
| BulkMerge.BulkIsAllOrNothing | MySQLLogExecute/MySQLLogExecute.cpp:139-144 | something is executed if and only if every statement after the first contains VALUES |
| BulkMerge.FirstIsNotChecked | MySQLLogExecute/MySQLLogExecute.cpp:127-148 | the first statement is taken as it is, with or without VALUES: the result is its text and the row texts of the later ones, if those all have the keyword |
| BulkMerge.FirstStatementExample | MySQLLogExecute/MySQLLogExecute.cpp:131-148 | SET NAMES utf8 followed by an INSERT is executed as one statement that is neither |
| BulkMerge.FusedStatement | MySQLLogExecute/MySQLLogExecute.cpp:131-148 | the fused statement is the first one's text through VALUES and all row texts joined by commas in order |
| BulkMerge.CommonPrefixMerge | MySQLLogExecute/MySQLLogExecute.cpp:131-148 | for two or more statements P VALUES rows the result is P VALUES rows,rows,... if and only if P does not contain VALUES |
| InsertHead.ReadHeadAppend | MySQLLogExecute/MySQLLogExecute.cpp:131-148 | how a statement is read up to its keyword does not depend on what is appended behind it, so the fused statement keeps the first one's destination |
| InsertHead.KeywordFoundExactly | MySQLLogExecute/MySQLLogExecute.cpp:139-147 | the search finds the statement's own keyword if and only if that is written in upper case as VALUES and nothing in front of it contains those letters |
| InsertHead.OtherFormIsNoInsertOfRows | MySQLLogExecute/MySQLLogExecute.cpp:139-147 | INSERT INTO table SET or SELECT is no INSERT of rows, whatever VALUES() functions its clauses call |
| InsertHead.ReadPlainInsert | MySQLLogExecute/MySQLLogExecute.cpp:131-147 | INSERT INTO table VALUES (or VALUE) rows, in any case, is read as that table and those rows |
| InsertHead.PlainTables | MySQLLogExecute/MySQLLogExecute.cpp:131-147 | such a statement with an unquoted table name is an INSERT of rows if and only if the name has a character other than a digit and is none of the ten keywords in any case |
| InsertHead.WordCharacters | MySQLLogExecute/MySQLLogExecute.cpp:139-147 | a word is ended by every character except letters, digits, underscore, dollar sign and everything outside ASCII |
| InsertHead.UpperIsByAlphabet | MySQLLogExecute/MySQLLogExecute.cpp:139-147 | the case that keywords and column names ignore is that of the 26 letters, and of no other character |
| HeadPrinter.HeadRoundTrip | MySQLLogExecute/MySQLLogExecute.cpp:131-148 | for every verb, priority, IGNORE, INTO, table with or without database and column list, plain or in backquotes, in any case and with any blanks and comments between, the printed head is read as exactly the destination its parts denote and leaves exactly the text behind the keyword |
| HeadPrinter.ReadsPrintedHeadsOnly | MySQLLogExecute/MySQLLogExecute.cpp:131-148 | a text is read as the beginning of an INSERT of rows if and only if it is such a printed head with something behind it |
| RowPrinter.RowsRoundTrip | MySQLLogExecute/MySQLLogExecute.cpp:146-147 | for every non-empty list of rows of numbers, words, nested parentheses, comments and strings in any of the three quotes with escaped and doubled characters, the printed list reads as exactly those rows without a clause, and ends cleanly |
| RowPrinter.ClauseRoundTrip | MySQLLogExecute/MySQLLogExecute.cpp:146-147 | with a clause behind the rows, exactly the rows and the text of the clause are read |
| RowPrinter.OtherEnds | MySQLLogExecute/MySQLLogExecute.cpp:146-147 | a comment to the end of the text behind the rows, or a ';' with blanks and comments behind it, leaves the rows, but the end is not clean |
| RowPrinter.NoRowLists | MySQLLogExecute/MySQLLogExecute.cpp:146-147 | something else than a row in its place, nothing behind a comma, something behind a ';', or an unclosed row or comment is no list of rows |
| RowPrinter.OpenString | MySQLLogExecute/MySQLLogExecute.cpp:146-147 | nor is a list with an unclosed string |
| RowPrinter.InsertRoundTrip | MySQLLogExecute/MySQLLogExecute.cpp:131-148 | a whole printed INSERT is read as the destination of its head and the rows of its list |
| RowPrinter.DifferentColumnsSpoil | MySQLLogExecute/MySQLLogExecute.cpp:127-159 | two statements whose column lists differ in upper case are never replayed faithfully |
| RowPrinter.DifferentHeadsSpoil | MySQLLogExecute/MySQLLogExecute.cpp:127-159 | nor are two that differ in table, REPLACE or IGNORE |
| InsertEffects.ReadAfterClean | MySQLLogExecute/MySQLLogExecute.cpp:146-147 | a row list that ends outside quotes, parentheses and comments with nothing behind its rows is continued by the next one's rows |
| InsertEffects.ReadAfterUnclean | MySQLLogExecute/MySQLLogExecute.cpp:146-147 | any other row list breaks, or swallows all later rows into its clause or comment |
| InsertEffects.AfterCleanEnd | MySQLLogExecute/MySQLLogExecute.cpp:146-147 | a '#', a ';' or the beginning of a clause behind the rows spoils the end, a blank does not |
| InsertEffects.DuplicateKeyExample | MySQLLogExecute/MySQLLogExecute.cpp:146-147 | a row list with ON DUPLICATE KEY UPDATE behind it does not end cleanly |
| InsertEffects.BulkMergePreservesEffects | MySQLLogExecute/MySQLLogExecute.cpp:127-159 | a bulk replay executes a single statement as it is; for every list of several it does what the statements do one by one if and only if all are INSERTs of rows with one destination and clause and the texts it puts together read as their rows; when the search finds each statement's own keyword, that is if and only if all row lists but the last end cleanly and none has a clause |
| InsertEffects.BulkReplayOfLog | MySQLLogExecute/MySQLLogExecute.cpp:66-159 | the same for the statements of every log |
| InsertEffects.BulkReplayOfPrintedLog | MySQLLogExecute/MySQLLogExecute.cpp:66-159 | from printed statements through the buffered loop to what is executed, the same equivalence about the printed statements |
| InsertEffects.OtherStatementSpoils | MySQLLogExecute/MySQLLogExecute.cpp:127-159 | a list of several with a statement that is no INSERT of rows is never replayed faithfully |
| InsertEffects.SetFormSpoils | MySQLLogExecute/MySQLLogExecute.cpp:127-159 | statements of the SET form with a VALUES() function are fused, and the result does not do what they do |
| InsertEffects.LowerCaseFirstMerges | MySQLLogExecute/MySQLLogExecute.cpp:131-148 | a first statement with its keyword in lower case is fused rightly |
| QueryMonitor.RunsAreSafe | MySQLQueryMonitor/MySQLQueryThread.cpp:48-128 | over every interleaving without a call between a spawn and the worker's first step: at most one worker is live, `gbRun` is true exactly between its first and last flag writes, `gbStop` only during a Stop's wait, and no worker is live when a new one is spawned |
| QueryMonitor.StopReturnsClean | MySQLQueryMonitor/MySQLQueryThread.cpp:113-128 | the wait of a Stop ends exactly when every worker has made its last write, and both flags are then false |
| QueryMonitor.EarlyCalls | MySQLQueryMonitor/MySQLQueryThread.cpp:102-128 | a Start makes two live workers, and a Stop leaves a live one alone, exactly when the last worker has not made its first step |
| QueryMonitor.AloneIsARun | MySQLQueryMonitor/MySQLQueryThread.cpp:102-128 | those calls are runs of the step relation, so the failures are reachable |
| QueryMonitor.TwoWorkersExample | MySQLQueryMonitor/MySQLQueryThread.cpp:102-111 | from the initial state two Starts in a row reach a state with two live workers |
| QueryMonitor.ShutdownIsBounded | MySQLQueryMonitor/MySQLQueryThread.cpp:70-97 | while `gbStop` is true a worker moves at most twelve times, with at most one more query and one more one-second sleep, in any interleaving |
| QueryMonitor.StopEnds | MySQLQueryMonitor/MySQLQueryThread.cpp:48-128 | in every run without early calls the workers make at most twelve moves during a Stop's wait, the wait ends at the next look exactly when none is left, and while one is left and window calls return some worker can make it |
| QueryMonitor.LiveWorkerCanMove | MySQLQueryMonitor/MySQLQueryThread.cpp:48-100 | a worker has a next move if and only if it has not exited |
| QueryMonitor.WindowThreadStopHangs | MySQLQueryMonitor/MySQLQueryThread.cpp:70-128 | when the thread that owns the window is inside Stop and the worker is at its query or a SendMessage, no continuation ever leaves the wait |
| QueryMonitor.WindowThreadStopReturns | MySQLQueryMonitor/MySQLQueryThread.cpp:70-128 | from every safe state of such a wait some continuation returns with both flags false if and only if no worker is at its query or at a SendMessage |
| QueryMonitor.WindowThreadStopProceeds | MySQLQueryMonitor/MySQLQueryThread.cpp:55-128 | whatever happens next, the active worker can move until it is out, if and only if it is past its sends |
| QueryMonitor.WindowThreadStopIsBounded | MySQLQueryMonitor/MySQLQueryThread.cpp:82-97 | it then leaves within eight moves in every continuation |
| QueryMonitor.StartOutcomes | MySQLQueryMonitor/MySQLQueryThread.cpp:48-111 | without a live worker a Start leads to a query, with any period of the setup file and at any tick, or to the message of an error, or its spawn fails and nothing has changed |
| QueryMonitor.StopHangsExample | MySQLQueryMonitor/MySQLQueryThread.cpp:48-128 | a run without early calls reaches a wait with the worker at its query |
| QueryMonitor.SleepSecondsIsExact | MySQLQueryMonitor/MySQLQueryThread.cpp:74-82 | across tick wrap-around the unsigned subtraction and conversion give period minus whole seconds elapsed if and only if less than 2^32 ms went by |
| QueryMonitor.SleepsPerRound | MySQLQueryMonitor/MySQLQueryThread.cpp:74-88 | undisturbed, from its measurement to its next test a worker makes exactly max(n, 0) one-second sleeps, n being the computed `iSleepSecond`, in every interleaving |
| QueryMonitor.PauseHappens | MySQLQueryMonitor/MySQLQueryThread.cpp:82-88 | such a run exists from every measurement |
| QueryMonitor.OneQueryPerRound | MySQLQueryMonitor/MySQLQueryThread.cpp:70-88 | in every round a worker makes one query and sends one refresh, and measures from the query's start |
| QueryMonitor.TestLeadsToQuery | MySQLQueryMonitor/MySQLQueryThread.cpp:68-91 | a test without a stop leads to a query, one with a stop to the closing, and nothing else does |
| QueryMonitor.LeavesInOrder | MySQLQueryMonitor/MySQLQueryThread.cpp:91-97 | on its way out a worker closes its connection if it has one, ends the library once and clears `gbRun` last, in three moves |
| QueryMonitor.RoundTime | MySQLQueryMonitor/MySQLQueryThread.cpp:70-88 | a round takes the measured work and a second for every sleep it makes |
| QueryMonitor.CycleTimeBounds | MySQLQueryMonitor/MySQLQueryThread.cpp:74-88 | an undisturbed round lasts from 1000p to 1000p+999 ms, or exactly the work when that takes longer |
| TrailingSpace.NaiveEndIsUnique | mysql/32bit/include/m_string.h:275-277 | the naive loop's end is the only offset with spaces behind it and none before it |
| TrailingSpace.WordIsSpaces | mysql/32bit/include/m_string.h:211-218 | a word equals SPACE_INT if and only if each of its bytes is a space, for 4 and 8 bytes and both byte orders |
| TrailingSpace.SkipTrailingSpace | mysql/32bit/include/m_string.h:254-278 | for every string, address, word size and byte order the three-zone scan returns the end of the naive scan; every byte read is inside the string and every word read also aligned |
| IoCache.ReadCache.Read | mysql/32bit/include/my_sys.h:530-534 | delivers exactly the next bytes of the stream and moves `my_b_tell` by their number, from the buffer or through any read function |
| IoCache.ReadCache.Get | mysql/32bit/include/my_sys.h:542-545 | the same for one byte, and my_b_EOF only when the cache was empty |
| IoCache.ReadCache.FillCache | mysql/32bit/include/my_sys.h:553-557 | dropping the cached bytes and refilling does not move the position |
| IoCache.RunReads | mysql/32bit/include/my_sys.h:530-557 | over any mix of `my_b_read`, `my_b_get` and `my_b_fill_cache` on one cache no byte is lost or repeated, and the position counts what was delivered |
| IoCache.WriteCache.Write | mysql/32bit/include/my_sys.h:536-540 | flushed bytes followed by pending bytes grow by exactly what was accepted, and nothing behind `write_end` changes |
| IoCache.WriteCache.WriteByte | mysql/32bit/include/my_sys.h:546-551 | the byte is appended inside the buffer if and only if there was room before the call or the flush it ignores makes some; otherwise it overwrites the byte at `write_end` |
| IoCache.FailedFlushOverruns | mysql/32bit/include/my_sys.h:546-551 | a buffer of any size, filled, overruns when the flush of the next byte fails |
| IoCache.WriteCache.TellCountsContents | mysql/32bit/include/my_sys.h:556-557 | `my_b_tell` is the start offset plus the bytes written |
| IoCache.RunWrites | mysql/32bit/include/my_sys.h:536-557 | over any mix of `my_b_write` and `my_b_write_byte` on one cache, up to the first overrun, the contents grow by what was accepted, the position counts it, and nothing behind the buffer changes; only a byte whose flush makes no room overruns |
| IoCache.WriteThenRead | mysql/32bit/include/my_sys.h:530-557 | what any run of writes through one cache comes back in order from any run of reads through another, whatever the buffer sizes; after successful flushes the file holds all of it |
| Bytes.LoadStore | mysql/32bit/include/byte_order_generic.h:35-95 | storing n bytes and loading them gives the value modulo 256^n, for every n and every sign |
| Bytes.StoreLoad | mysql/32bit/include/byte_order_generic.h:35-95 | loading bytes and storing the number gives the bytes back |
| ByteOrder.MaskedWord | mysql/32bit/include/byte_order_generic_x86.h:30-40 | the four-byte load masked with 0xFFFFFF is the three-byte number whatever the fourth byte holds |
| ByteOrder.UintKorr | mysql/32bit/include/byte_order_generic.h:35-63 | on all three platforms and at every width the load macro is the n-byte little-endian number |
| ByteOrder.Uint3Korr | mysql/32bit/include/byte_order_generic_x86_64.h:30-40 | sum form and mask form give the same three-byte number |
| ByteOrder.Sint2Korr | mysql/32bit/include/byte_order_generic_x86.h:19 | the two's complement reading of the two bytes, on every platform |
| ByteOrder.Sint3Korr | mysql/32bit/include/byte_order_generic.h:22-29 | OR-ing in a byte of ones gives the two's complement reading of three bytes |
| ByteOrder.Int3Store | mysql/32bit/include/byte_order_generic_x86.h:57-60 | writes the three low bytes of the value and nothing else, though one of them is taken through an unsigned cast |
| ByteOrder.Int8Store | mysql/32bit/include/byte_order_generic.h:91-95 | the two 32-bit halves are the bytes of one 64-bit store, and nothing else changes |
| ByteOrder.IntStore | mysql/32bit/include/byte_order_generic_x86_64.h:56-83 | every store macro on every platform writes exactly the n low bytes and nothing else |
| ByteOrder.FieldsRoundTrip | mysql/32bit/include/byte_order_generic.h:20-95 | any sequence of fields stored at consecutive offsets is read back modulo 256^width by the loads of any platform |
| ByteOrder.SignedRoundTrip | mysql/32bit/include/byte_order_generic.h:20-34 | signed fields of 2, 3, 4 and 8 bytes come back over their whole range |
| NetworkOrder.ShortStore | mysql/32bit/include/big_endian.h:67-69 | writes the two low bytes, high byte first, and nothing else |
| NetworkOrder.LongStore | mysql/32bit/include/big_endian.h:70-73 | writes the four low bytes, high byte first, and nothing else |
| NetworkOrder.Int4Net | mysql/32bit/include/my_byteorder.h:24-27 | the OR of shifted bytes is the signed big-endian number |
| NetworkOrder.BigEndianRoundTrip | mysql/32bit/include/big_endian.h:51-73 | the big-endian loads undo the stores, and `int4net` undoes `longstore` |
| NetworkOrder.Int4NetReversesUint4Korr | mysql/32bit/include/my_byteorder.h:24-27 | modulo 2^32 `int4net` is `uint4korr` of the reversed bytes, on every platform |
| NetworkOrder.FloatRoundTrip | mysql/32bit/include/little_endian.h:28-46 | the reversed and word-swapped floating-point stores lose nothing |
| NetworkOrder.Float4Store | mysql/32bit/include/big_endian.h:19-29 | writes the four bytes reversed and nothing else, and the load gives the number back |
| NetworkOrder.Float8Store | mysql/32bit/include/big_endian.h:31-49 | writes the eight bytes reversed and nothing else, and the load gives the number back |
| NetworkOrder.DoubleStoreSwapped | mysql/32bit/include/little_endian.h:28-35 | writes the eight bytes with the words swapped and nothing else, and the load gives the number back |
| NetworkOrder.Mb2PlatformsAgree | mysql/32bit/include/m_ctype.h:49-55 | both platforms lay down high byte then low byte if and only if bits 16 to 23 of the code are zero |
| NetworkOrder.StoreMb2 | mysql/32bit/include/m_ctype.h:49-55 | writing a code through the pair of macros changes two bytes, to its high and low byte exactly under that condition |
| Timespec.AbsTime.SetTimeNsec | mysql/32bit/include/my_pthread.h:427-432 | afterwards the nanoseconds are below one billion, and the time is 100*TIME+NSEC ns if and only if the 64-bit count does not overflow |
| Timespec.MakeTimeIsExact | mysql/32bit/include/my_pthread.h:427-432 | the stored time is 100*TIME+NSEC ns if and only if the 64-bit count does not overflow |
| Timespec.CmpIsSign | mysql/32bit/include/my_pthread.h:454-458 | the lexicographic comparison is the sign of the difference |
| Timespec.DiffIsExact | mysql/32bit/include/my_pthread.h:469-470 | the unsigned difference is exact modulo 2^64, and exact if and only if it is in range |
| Timespec.ConstructedTimes | mysql/32bit/include/my_pthread.h:427-470 | comparing and subtracting constructed times is comparing and subtracting what they were built from |
| Timespec.WinCmpIsSign | mysql/32bit/include/my_pthread.h:107-129 | the Windows comparison is the sign of the difference of the 100 ns counts, so it is 0 if and only if the POSIX times fall in one unit; the millisecond field is exact if and only if it is below 2^31 ms |
| Timespec.WindowsBelowPosix | mysql/32bit/include/my_pthread.h:107-132 | the Windows time is the POSIX time rounded down by less than 100 ns, never orders two times otherwise, and its differences are within 100 ns |
| Timespec.MaxTimeoutIsExact | mysql/32bit/include/my_pthread.h:109 | the 32-bit millisecond bound is exact if and only if it is below 2^31 ms |
| Rounding.MyAlignIsLeastMultiple | mysql/32bit/include/my_global.h:824 | the mask gives the least multiple of L not below A if and only if A + L does not pass 2^width (or A is 0) |
| Rounding.MyAlignIsIdempotentAndMonotone | mysql/32bit/include/my_global.h:824 | aligning twice is aligning once for every address; alignment keeps the order of two addresses if and only if the second does not pass the last multiple, or the first does too or is 0 |
| Rounding.MyAlignIsStartWords | mysql/32bit/include/m_string.h:262-263 | the mask form equals the division form that finds the first aligned word |
| Rounding.RintRoundsToNearestEven | mysql/32bit/include/my_global.h:1160-1177 | the result is within one half, and is the nearest integer with ties to even if and only if the argument is not an odd tie beyond 2^53-1; no double is one |
| Rounding.RintOnDoubles | mysql/32bit/include/my_global.h:1145-1177 | on doubles the result is unique, fixes integers, is odd and monotone |

## Left out

- Connecting, querying, `printf`, `gettimeofday`, file opening and configuration reading: input and output. `Execute`
  is a trace and its result is ignored, as the program ignores it.
- LogFormat.ChunkingIsTransparent: for logs with NUL, or with '\r' outside CR LF pairs, only the number of statements is compared when lines
  pass the buffer, because a NUL or '\r' that a chunk end isolates loses or adds text that another line can make up for.
- InsertEffects.BulkMergePreservesEffects: names are compared as written, apart from the case of columns, and rows and clauses as text, so a row
  that depends on what was executed before it (LAST_INSERT_ID(), a subquery on the table) is not covered. PARTITION lists, executable comments
  (`/*! */`), SQL modes other than the default, casting and the server's own errors, names that are reserved words outside INSERT among them, are not modelled.
- QueryMonitor.SleepsPerRound: the tick counts around a query are arbitrary, and the period is read with the configuration and stays; the dialogs that
  write the configuration are not part of this model.
- QueryMonitor.RunsAreSafe: flags are sequentially consistent; the plain `bool`s of the source give no such guarantee. A worker
  is counted as gone after its last flag write.
- QueryMonitor.ShutdownIsBounded: bounds the worker's own steps; that the scheduler runs it, and that database and
  window calls return, is taken for granted.
- IoCache.ReadCache.ReadFunction: asynchronous reads, shared caches and SEQ_READ_APPEND caches are not modelled; `request_pos` is the start of the
  window and `current_pos` is `read_pos` or `write_pos`.
- IoCache.WriteCache.WriteByte: assumes a buffer of at least one byte and one writable byte behind it, where the overrun lands; the routines
  behind it leave `write_end` where it is.
- TrailingSpace.SkipTrailingSpace: the string lies below 2^64; the sign extension of 32-bit pointers is not modelled. The assertion that
  the address is at least SIZEOF_INT is not needed.
- ByteOrder.Sint4Korr: shifts into the sign bit, undefined in C, are read as wrapping.
- NetworkOrder.FloatRoundTrip: a float is the bytes of its representation; the x86 `doubleget_union` copies and the `memcpy` forms are
  not repeated.
- Timespec.WindowsBelowPosix: `time_t` and `long` are wide enough for the seconds and nanoseconds.
- Rounding.RintRoundsToNearestEven: doubles are reals, so rounding of the additions does not occur.
- `DbMySQLPool`, `SipPlatform`, `XmlParser`, `ServerPlatform`, the dialog classes and the other tools are not part of this model.
