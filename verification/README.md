# Serial monitor ingestion core, modelled in Dafny

The web serial monitor reads decoded text from a serial device, reassembles it
into lines, logs every non-blank line to a newest-first terminal log of at most
50 entries, and records every line that parses as a JSON object as a sensor
reading in a chronological history of at most 100 entries. A dashboard dialog
offers the keys of the newest reading as chart widgets.

This project models that core as pure functions over immutable values:

- `strings.dfy` (`Strings`): the ECMAScript string operations the loop relies on:
  `split` on one character and its inverse `join`, `trim` over the full
  ECMAScript whitespace set, `startsWith`/`endsWith` on one character, and `toUpperCase`.
- `arrays.dfy` (`Arrays`): `pop` (as `Last`/`DropLast`), `slice` with ECMAScript
  relative indices, and `filter`.
- `data_store.dfy` (`DataStore`): the store record (`logs`, `history`, `widgets`,
  `maxDataPoints`) and its transitions `addLog`, `addData`, `addWidget`,
  `removeWidget`, `clearAll`.
- `web_serial.dfy` (`WebSerial`): the body of the read loop as a step function
  `(buffer, chunk) -> (buffer', pieces, lines, store calls)`, plus the replay of
  those calls on the store.
- `add_widget_dialog.dfy` (`AddWidgetDialog`): the available keys, the widget
  asked for by each key's button, and its colour number.
- `optional.dfy` (`Optional`): `Option`, standing for `undefined` and for a throwing parse.

`JSON.parse` is a function parameter `parse: string -> Option<SensorData>` about
which nothing is assumed: the parsed values may be numbers or anything else,
because the code does not check. The wall clock is a sequence of `Instant`
readings, one per store call (the formatted time for `addLog`, the millisecond
count for `addData`), and widget ids are arguments.

The model follows the code where it is looser than a stated design might be:
a record is stored for any line that starts with `{`, ends with `}` and parses,
whether or not its values are numbers or flat; and the history is in timestamp
order only when the clock does not run backwards, which is therefore a
precondition of `WebSerial.ApplyAllKeepsChronological`.

## Model

| member | source | states |
|---|---|---|
| Strings.Split | src/hooks/useWebSerial.ts:40 | `split("\n")` yields one piece more than there are line feeds, and no piece contains a line feed |
| Strings.JoinSplit | src/hooks/useWebSerial.ts:40 | joining the pieces of a split with the separator gives back the original text |
| Strings.SplitJoin | src/hooks/useWebSerial.ts:40 | splitting a join of separator-free pieces gives back the pieces (the inverse direction) |
| Strings.SplitAppend | src/hooks/useWebSerial.ts:39-41 | splitting `a + b` keeps the complete pieces of `a` and continues its unfinished last piece with `b` |
| Strings.SplitWithoutSeparator | src/hooks/useWebSerial.ts:40 | text without a line feed splits into itself alone |
| Strings.LastPieceIsTail | src/hooks/useWebSerial.ts:41 | the popped piece is the text after the last separator, or all of it when there is none |
| Strings.Trim | src/hooks/useWebSerial.ts:43 | `trim` leaves no whitespace at either end, is empty exactly for whitespace-only input, and is the infix left once an all-whitespace prefix and suffix are removed |
| Strings.TrimOfTrimmed | src/hooks/useWebSerial.ts:43 | trimming text without edge whitespace changes nothing, so `trim` is idempotent |
| Strings.StartsWith | src/hooks/useWebSerial.ts:46 | `startsWith("{")`: a definition without a contract, holding exactly when the text is non-empty and its first character is the given one; `WebSerial.Classify` states its use |
| Strings.EndsWith | src/hooks/useWebSerial.ts:46 | `endsWith("}")`: a definition without a contract, holding exactly when the text is non-empty and its last character is the given one; `WebSerial.Classify` states its use |
| Strings.ToUpper | src/components/dashboard/AddWidgetDialog.tsx:24 | upper-casing keeps the length, leaves no lower-case ASCII letter, and keeps every other character |
| Strings.ToUpperIdempotent | src/components/dashboard/AddWidgetDialog.tsx:24 | upper-casing twice is upper-casing once |
| Arrays.Last | src/hooks/useWebSerial.ts:41 | the element `pop()` returns; a definition without a contract, characterised by `Arrays.DropLast` |
| Arrays.DropLast | src/hooks/useWebSerial.ts:41 | what `pop()` leaves: one element fewer, and followed by the popped element it is the original array |
| Arrays.Slice | src/store/useDataStore.ts:45-49 | `slice` with relative indices never yields more than the array; `Arrays.SliceHead` and `Arrays.SliceLast` characterise the two uses |
| Arrays.SliceHead | src/store/useDataStore.ts:45 | `slice(0, n)`, as `addLog` uses it with `n` = 50, keeps the first `n` entries, or all of them when there are fewer |
| Arrays.SliceLast | src/store/useDataStore.ts:49 | `slice(-n)` is the last `n` elements, or all of them when there are fewer, and everything for `n == 0` |
| Arrays.SliceLastAppend | src/store/useDataStore.ts:49 | cutting to the last `n` after each append is the same as cutting once after all of them |
| Arrays.Filter | src/store/useDataStore.ts:59 | `filter` keeps exactly the elements the test accepts: every survivor is accepted and comes from the array, and every accepted element survives |
| Arrays.FilterAppend | src/store/useDataStore.ts:59 | `filter` is element-wise, so survivors keep their relative order |
| DataStore.Keys | src/components/dashboard/AddWidgetDialog.tsx:11 | `Object.keys` gives one key per property, the `i`-th key naming the `i`-th property |
| WebSerial.Classify | src/hooks/useWebSerial.ts:44-51 | every line is logged first; a reading follows exactly when the line starts with `{`, ends with `}` and parses |
| WebSerial.ClassifyAll | src/hooks/useWebSerial.ts:42-53 | the `for` loop over the lines: a definition without a contract, characterised by `WebSerial.OneLogPerLine`, `WebSerial.RecordsAreParsedObjects` and `WebSerial.ParseFailureIsLocal` |
| WebSerial.EmitFrame | src/hooks/useWebSerial.ts:43-44 | a piece contributes nothing iff it is blank, and otherwise one trimmed non-empty line |
| WebSerial.Emit | src/hooks/useWebSerial.ts:42-44 | every emitted line is trimmed and non-empty, and there are no more lines than pieces |
| WebSerial.EmitOne | src/hooks/useWebSerial.ts:43-44 | a whitespace-only piece emits nothing; any other piece emits its trimmed text |
| WebSerial.Process | src/hooks/useWebSerial.ts:38-41 | an absent or empty chunk changes nothing; otherwise the new buffer has no line feed and there is one piece per line feed |
| WebSerial.BufferIsUnterminatedTail | src/hooks/useWebSerial.ts:39-41 | the carried buffer is the text after the last line feed of `buffer + chunk`, or all of it |
| WebSerial.FramingRoundTrip | src/hooks/useWebSerial.ts:38-41 | for every chunk, the complete pieces and the carried buffer, joined with line feeds, are exactly `buffer + chunk` |
| WebSerial.ChunkBoundaryIndependent | src/hooks/useWebSerial.ts:39-53 | stepping `a` then `b` gives the same pieces, lines, store calls and buffer as stepping `a + b` |
| WebSerial.Feed | src/hooks/useWebSerial.ts:32-55 | the `while` loop over the delivered values: a definition without a contract, characterised by `WebSerial.FeedIsOneStep` and `WebSerial.FragmentationIndependent` |
| WebSerial.FeedIsOneStep | src/hooks/useWebSerial.ts:31-54 | running the loop over a list of chunks is one step on their concatenation |
| WebSerial.FragmentationIndependent | src/hooks/useWebSerial.ts:31-54 | two chunkings of the same stream produce the same lines, store calls and buffer |
| WebSerial.PartialLineWaits | src/hooks/useWebSerial.ts:38-41 | a chunk without a line feed, after a buffer without one, only extends the buffer: no lines, no store calls |
| WebSerial.UnterminatedTailNeverLogged | src/hooks/useWebSerial.ts:31-41 | a stream read from the start that ends in a piece without a line feed makes the same store calls and emits the same lines as the stream without it; the piece only waits in the buffer |
| WebSerial.StepCallsFollowLines | src/hooks/useWebSerial.ts:38-51 | a step's lines are the emitted lines of its pieces, its `addLog` texts are exactly those lines, and its `addData` records are exactly the parses of the object-like lines that parse, in order |
| WebSerial.EmitAppend | src/hooks/useWebSerial.ts:42-44 | lines are emitted piece by piece, in the order of the pieces |
| WebSerial.OneLogPerLine | src/hooks/useWebSerial.ts:42-45 | the `addLog` calls carry exactly the emitted lines, one each, in order |
| WebSerial.RecordsAreParsedObjects | src/hooks/useWebSerial.ts:46-50 | the `addData` calls carry exactly the parses of the lines that look like objects and parse, in order |
| WebSerial.ParseFailureIsLocal | src/hooks/useWebSerial.ts:47-50 | a line that does not parse is logged only, and the lines after it are handled as if it had not failed |
| WebSerial.ApplyAll | src/hooks/useWebSerial.ts:45-49 | replaying the calls leaves the widgets and capacity alone and keeps the store within its bounds |
| WebSerial.HistoryAfterReplay | src/store/useDataStore.ts:48-50 | after a replay the history is the old history followed by each stored reading stamped with its own call's clock, cut to the last `maxDataPoints`; without readings it is unchanged |
| WebSerial.ApplyAllKeepsChronological | src/store/useDataStore.ts:48-50 | with a clock that never runs backwards, the history stays in timestamp order |
| WebSerial.LoggedEntries | src/store/useDataStore.ts:39-45 | the entries the `addLog` calls make, each with its own call's time; their texts are exactly the logged texts, in call order |
| WebSerial.LogsAfterReplay | src/store/useDataStore.ts:39-46 | after a replay the log is the new entries, each with its own call's time, newest first, before the old entries, cut to 50 |
| WebSerial.LogsNewestFirst | src/store/useDataStore.ts:39-46 | after a replay the log texts are the logged lines newest first, before the old entries, cut to 50 |
| WebSerial.OnChunk | src/hooks/useWebSerial.ts:33-54 | an absent or empty chunk leaves buffer and store unchanged; the new buffer is the step's carried buffer; any chunk keeps the store within bounds and its widgets unchanged |
| WebSerial.OnChunkEffect | src/hooks/useWebSerial.ts:38-50 | after a delivered value the log is the value's entries (its lines, each with its own call's time) newest first in front of the old entries, cut to 50, and the history gains one stamped reading per line that parses, cut to `maxDataPoints` |
| DataStore.Initial | src/store/useDataStore.ts:33-37 | the store starts empty with room for 100 readings |
| DataStore.AddLog | src/store/useDataStore.ts:39-46 | the new entry is at index 0, older entries shift by one, at most 50 stay (the oldest is dropped), nothing else changes |
| DataStore.WithTimestamp | src/store/useDataStore.ts:49 | the stored record's `timestamp` is the ingestion time, every other incoming property is kept in place, and `timestamp` is appended only when missing |
| DataStore.AddData | src/store/useDataStore.ts:48-50 | the stamped record is last, the history is a suffix of old history plus record, at most `maxDataPoints` stay (the oldest is dropped), nothing else changes |
| DataStore.AddDataKeepsChronological | src/store/useDataStore.ts:48-50 | adding a record stamped no earlier than the newest keeps the history in timestamp order |
| DataStore.AddWidget | src/store/useDataStore.ts:53-55 | the widget list grows by one at the end, carrying the given fields and id, and nothing else changes |
| DataStore.RemoveWidget | src/store/useDataStore.ts:58-60 | no widget with the id remains, every other widget does, and nothing else changes |
| DataStore.RemoveWidgetIdempotent | src/store/useDataStore.ts:58-60 | removing an id twice is removing it once |
| DataStore.RemoveUndoesAdd | src/store/useDataStore.ts:53-60 | removing a widget just added under an unused id restores the store |
| DataStore.RemoveWidgetKeepsOrder | src/store/useDataStore.ts:58-60 | removal works part by part, so the remaining widgets keep their order |
| DataStore.ClearAll | src/store/useDataStore.ts:62 | logs and history become empty; widgets and `maxDataPoints` are unchanged |
| AddWidgetDialog.AvailableKeys | src/components/dashboard/AddWidgetDialog.tsx:9-12 | no keys without history; otherwise exactly the newest reading's keys except `timestamp` |
| AddWidgetDialog.KeysFromNewestOnly | src/components/dashboard/AddWidgetDialog.tsx:9-11 | older readings never contribute keys |
| AddWidgetDialog.AllKeysWithoutTimestamp | src/components/dashboard/AddWidgetDialog.tsx:11 | a reading without `timestamp` offers all its keys in their order |
| AddWidgetDialog.OnlyTimestampRemoved | src/components/dashboard/AddWidgetDialog.tsx:11 | wherever `timestamp` stands, only it is removed and the other keys keep their order |
| AddWidgetDialog.KeysAfterAddData | src/components/dashboard/AddWidgetDialog.tsx:9-12 | right after a reading is stored, the keys offered are the device's keys minus `timestamp`, in order |
| AddWidgetDialog.NoKeysAfterClear | src/components/dashboard/AddWidgetDialog.tsx:9-12 | after `clearAll` no keys are offered |
| AddWidgetDialog.SpecFor | src/components/dashboard/AddWidgetDialog.tsx:24 | a key's widget is a line chart of that key, titled with the key in capitals: same length, each lower-case ASCII letter replaced by its capital, every other character kept |
| AddWidgetDialog.ColourIndex | src/components/dashboard/AddWidgetDialog.tsx:30 | the colour number is between 1 and 5 |
| AddWidgetDialog.ColoursCycle | src/components/dashboard/AddWidgetDialog.tsx:30 | the first five buttons get colours 1 to 5, neighbours differ, and colours repeat every five |
| AddWidgetDialog.Buttons | src/components/dashboard/AddWidgetDialog.tsx:19-30 | one button per available key, in order: the `i`-th is for the `i`-th key, has colour `ColourIndex(i)` in 1..5, and asks for that key's line chart |
| AddWidgetDialog.PressingAddsChartOfLatestKey | src/components/dashboard/AddWidgetDialog.tsx:19-26 | pressing the `i`-th button appends a line chart of the `i`-th available key, titled with it in capitals: a key of the newest reading, never `timestamp` |

## Left out

- The connection lifecycle in src/hooks/useWebSerial.ts:15-30 and 56-113 (`connect`, `disconnect`, the reading guard, `reader.cancel()`, the pipe task and the cleanup): asynchronous cancellation over the Web Serial and Streams interfaces, which has no pure model here. The loop condition and the stop flag (lines 32 and 36) are left out with it. An absent chunk (`None`) stands for the `if (value)` test at line 38 failing, not for the end of the stream.
- The end of the stream: when the read reports `done`, or the stop flag is cleared (line 36), the loop is left, `startReading` returns and the carried buffer is discarded, so a last line without a line feed is never logged or parsed. There is no separate end-of-stream operation; `WebSerial.UnterminatedTailNeverLogged` states that such a line causes no store call.
- Byte decoding (`TextDecoderStream`): chunks are already-decoded strings.
- `JSON.parse` itself: a parameter about which nothing is assumed. Its result is taken as the object's own properties in enumeration order, which the model does not recompute (for instance, that integer-like keys come first).
- The `console.error` on a parse failure and the `console.log` calls: output only.
- The formatting of the log time with `toLocaleTimeString` and `getMilliseconds`: locale- and clock-dependent, so the formatted time is an input.
- `Date.now()`: an input; history order is proved under a non-decreasing clock only.
- Random widget ids (`Math.random().toString(36)`): the id is an argument; ids are not unique in general, so `DataStore.RemoveUndoesAdd` requires an id not yet in use.
- JavaScript numbers are reals in the model, not IEEE doubles.
- Strings.ToUpper: upper-cases the ASCII letters only; the full Unicode case mapping of `toUpperCase` (which can change a string's length, as for `ß`) is not modelled.
- Rendering, styling and scrolling in src/App.tsx, src/components/charts/RealTimeLineChart.tsx and src/components/dashboard/SerialTerminal.tsx, and the store's subscription mechanism.
