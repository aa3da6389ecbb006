/** The body of the serial read loop: each chunk of decoded text is appended to
    a carry buffer, the buffer is cut into lines at every line feed, the
    unfinished last piece is carried over, and every non-blank complete line is
    logged and, when it parses as an object, also recorded as a sensor reading.
    The step is a pure function producing the store calls it makes, in order;
    a second function replays those calls on the store. */
module WebSerial {
  import opened Optional
  import opened Arrays
  import opened Strings
  import opened DataStore

  /** `JSON.parse`, as far as the loop sees it: the parsed object's own
      properties, or `None` where it throws. Nothing is assumed about it. */
  type Parser = string -> Option<SensorData>

  /** A store call made by the loop: `addLog(text)` or `addData(record)`. */
  datatype Action = AppendLog(text: string) | AppendData(record: SensorData)

  /** The outcome of one chunk: the new carry buffer, the complete raw pieces
      cut off it, the non-blank trimmed lines among them, and the store calls. */
  datatype Step = Step(buffer: string, frames: seq<string>, lines: seq<string>, actions: seq<Action>)

  /** A step that keeps the buffer and does nothing else. */
  function Idle(buffer: string): Step
  {
    Step(buffer, [], [], [])
  }

  /** One step after another: the second's buffer, everything else concatenated. */
  function Then(first: Step, second: Step): Step
  {
    Step(second.buffer, first.frames + second.frames, first.lines + second.lines,
         first.actions + second.actions)
  }

  /** The test a line passes before `JSON.parse` is tried on it. */
  predicate LooksLikeObject(line: string)
  {
    StartsWith(line, '{') && EndsWith(line, '}')
  }

  /** The calls made for one line: always `addLog`, then `addData` when the line
      looks like an object and parses. A parse failure only loses the reading. */
  function Classify(line: string, parse: Parser): (acts: seq<Action>)
    ensures 1 <= |acts| <= 2 && acts[0] == AppendLog(line)
    ensures |acts| == 2 <==> LooksLikeObject(line) && parse(line).Some?
    ensures |acts| == 2 ==> acts[1] == AppendData(parse(line).value)
  {
    [AppendLog(line)] +
      if LooksLikeObject(line) then
        match parse(line)
        case Some(o) => [AppendData(o)]
        case None => []
      else []
  }

  function ClassifyAll(lines: seq<string>, parse: Parser): seq<Action>
    decreases |lines|
  {
    if |lines| == 0 then [] else Classify(lines[0], parse) + ClassifyAll(lines[1..], parse)
  }

  /** What one piece contributes: the piece trimmed, unless that leaves nothing. */
  function EmitFrame(frame: string): (lines: seq<string>)
    ensures |lines| <= 1
    ensures lines == [] <==> AllWhitespace(frame)
    ensures lines != [] ==> lines[0] != [] && IsTrimmed(lines[0])
  {
    var t := Trim(frame);
    if t == [] then [] else [t]
  }

  /** The trimmed, non-blank pieces, in order. */
  function Emit(frames: seq<string>): (lines: seq<string>)
    ensures |lines| <= |frames|
    ensures forall i :: 0 <= i < |lines| ==> lines[i] != [] && IsTrimmed(lines[i])
    decreases |frames|
  {
    if |frames| == 0 then [] else EmitFrame(frames[0]) + Emit(frames[1..])
  }

  /** One iteration of the read loop on the value `reader.read()` delivered:
      `None` for an absent value, and an empty string, change nothing; otherwise
      `buffer + chunk` is split at line feeds, the last piece becomes the buffer
      and the others are trimmed, filtered and classified in order. */
  function Process(buffer: string, chunk: Option<string>, parse: Parser): (r: Step)
    ensures chunk.None? || chunk.value == [] ==> r == Idle(buffer)
    ensures chunk.Some? && chunk.value != [] ==>
      && Newline !in r.buffer
      && |r.frames| == Count(buffer + chunk.value, Newline)
      && (forall i :: 0 <= i < |r.frames| ==> Newline !in r.frames[i])
  {
    if chunk.None? || chunk.value == [] then Idle(buffer)
    else FromPieces(Split(buffer + chunk.value, Newline), parse)
  }

  /** The step once the text is split: the last piece is carried over and the
      others are trimmed, filtered and classified in order. */
  function FromPieces(parts: seq<string>, parse: Parser): (r: Step)
    requires |parts| > 0
    ensures r.buffer == Last(parts) && r.frames == DropLast(parts)
  {
    var frames := DropLast(parts);
    var lines := Emit(frames);
    Step(Last(parts), frames, lines, ClassifyAll(lines, parse))
  }

  /** The carried buffer holds no line feed: it is the text after the last line
      feed of `buffer + chunk`, or all of it when there is none. */
  lemma BufferIsUnterminatedTail(buffer: string, chunk: string, parse: Parser)
    requires chunk != []
    ensures var b := Process(buffer, Some(chunk), parse).buffer;
      Newline !in b && IsTailAfter(buffer + chunk, b, Newline)
  {
    ProcessCarriesLastPiece(buffer, chunk, parse);
    LastPieceIsTail(buffer + chunk, Newline);
  }

  /** Text after the last line feed is never logged: a stream read from the
      start that ends in a piece without a line feed makes the same store calls
      and emits the same lines as the stream without that piece, which only
      waits in the buffer. When the read reports `done`, or the reader is told
      to stop, the loop is left and the buffer, with that piece, is dropped. */
  lemma UnterminatedTailNeverLogged(chunks: seq<string>, tail: string, parse: Parser)
    requires Newline !in tail
    ensures var before, after := Feed([], chunks, parse), Feed([], chunks + [tail], parse);
      && after.lines == before.lines && after.actions == before.actions
      && after.buffer == before.buffer + tail
  {
    var text := Concat(chunks);
    assert Concat(chunks + [tail]) == text + tail by {
      ConcatAppend(chunks, tail);
    }
    FeedIsOneStep([], chunks, parse);
    FeedIsOneStep([], chunks + [tail], parse);
    ChunkBoundaryIndependent([], text, tail, parse);
    var first := Process([], Some(text), parse);
    assert Newline !in first.buffer;
    PartialLineWaits(first.buffer, tail, parse);
    assert first.lines + [] == first.lines && first.actions + [] == first.actions;
  }

  /** A chunk with no line feed, after a buffer with none, only extends the buffer. */
  lemma PartialLineWaits(buffer: string, chunk: string, parse: Parser)
    requires Newline !in buffer && Newline !in chunk
    ensures Process(buffer, Some(chunk), parse) == Idle(buffer + chunk)
  {
    if chunk == [] {
      assert buffer + chunk == buffer;
    } else {
      assert Newline !in buffer + chunk;
      SplitWithoutSeparator(buffer + chunk, Newline);
    }
  }

  lemma {:induction false} ConcatAppend(chunks: seq<string>, tail: string)
    ensures Concat(chunks + [tail]) == Concat(chunks) + tail
    decreases |chunks|
  {
    if |chunks| == 0 {
      assert chunks + [tail] == [tail];
      assert Concat([tail][1..]) == [];
    } else {
      assert (chunks + [tail])[1..] == chunks[1..] + [tail];
      ConcatAppend(chunks[1..], tail);
    }
  }

  /** For a non-empty chunk the carried buffer is the last piece of the split. */
  lemma ProcessCarriesLastPiece(buffer: string, chunk: string, parse: Parser)
    requires chunk != []
    ensures Process(buffer, Some(chunk), parse).buffer == Last(Split(buffer + chunk, Newline))
  {
  }

  /** Nothing is lost or invented: the complete pieces and the carried buffer,
      joined with line feeds, are exactly `buffer + chunk`. */
  lemma FramingRoundTrip(buffer: string, chunk: string, parse: Parser)
    ensures var r := Process(buffer, Some(chunk), parse);
      Join(r.frames + [r.buffer], Newline) == buffer + chunk
  {
    if chunk == [] {
      assert buffer + chunk == buffer;
      return;
    }
    var parts := Split(buffer + chunk, Newline);
    assert DropLast(parts) + [Last(parts)] == parts;
    JoinSplit(buffer + chunk, Newline);
  }

  lemma {:induction false} EmitAppend(a: seq<string>, b: seq<string>)
    ensures Emit(a + b) == Emit(a) + Emit(b)
    decreases |a|
  {
    if |a| == 0 {
      assert a + b == b;
    } else {
      assert (a + b)[1..] == a[1..] + b;
      EmitAppend(a[1..], b);
    }
  }

  lemma {:induction false} ClassifyAllAppend(a: seq<string>, b: seq<string>, parse: Parser)
    ensures ClassifyAll(a + b, parse) == ClassifyAll(a, parse) + ClassifyAll(b, parse)
    decreases |a|
  {
    if |a| == 0 {
      assert a + b == b;
    } else {
      assert (a + b)[1..] == a[1..] + b;
      ClassifyAllAppend(a[1..], b, parse);
    }
  }

  /** Chunk boundaries do not matter: processing `a` and then `b` gives the same
      pieces, lines, store calls and final buffer as processing `a + b` at once. */
  lemma ChunkBoundaryIndependent(buffer: string, a: string, b: string, parse: Parser)
    ensures var first := Process(buffer, Some(a), parse);
      Process(buffer, Some(a + b), parse) == Then(first, Process(first.buffer, Some(b), parse))
  {
    if a == [] {
      assert a + b == b;
    } else if b == [] {
      assert a + b == a;
    } else {
      ChunksBothNonEmpty(buffer, a, b, parse);
    }
  }

  lemma ChunksBothNonEmpty(buffer: string, a: string, b: string, parse: Parser)
    requires a != [] && b != []
    ensures var first := Process(buffer, Some(a), parse);
      Process(buffer, Some(a + b), parse) == Then(first, Process(first.buffer, Some(b), parse))
  {
    var pa := Split(buffer + a, Newline);
    var q := Split(Last(pa) + b, Newline);
    assert Split(buffer + (a + b), Newline) == DropLast(pa) + q by {
      assert buffer + (a + b) == (buffer + a) + b;
      SplitAppend(buffer + a, b, Newline);
    }
    assert Process(buffer, Some(a + b), parse) == FromPieces(DropLast(pa) + q, parse);
    assert Process(buffer, Some(a), parse) == FromPieces(pa, parse);
    assert Process(Last(pa), Some(b), parse) == FromPieces(q, parse);
    FromPiecesCompose(pa, q, parse);
  }

  /** Continuing the last piece of `p` with the pieces `q` is the step on `p`
      followed by the step on `q`. */
  lemma FromPiecesCompose(p: seq<string>, q: seq<string>, parse: Parser)
    requires |p| > 0 && |q| > 0
    ensures FromPieces(DropLast(p) + q, parse) == Then(FromPieces(p, parse), FromPieces(q, parse))
  {
    var x := DropLast(p);
    assert DropLast(x + q) == x + DropLast(q);
    assert Last(x + q) == Last(q);
    EmitAppend(x, DropLast(q));
    ClassifyAllAppend(Emit(x), Emit(DropLast(q)), parse);
  }

  /** The concatenation of a list of chunks. */
  function Concat(chunks: seq<string>): string
    decreases |chunks|
  {
    if |chunks| == 0 then [] else chunks[0] + Concat(chunks[1..])
  }

  /** The read loop over the chunks `chunks`, in order, from carry buffer `buffer`. */
  function Feed(buffer: string, chunks: seq<string>, parse: Parser): Step
    decreases |chunks|
  {
    if |chunks| == 0 then Idle(buffer)
    else
      var first := Process(buffer, Some(chunks[0]), parse);
      Then(first, Feed(first.buffer, chunks[1..], parse))
  }

  /** Feeding chunk by chunk is processing their concatenation in one go. */
  lemma {:induction false} FeedIsOneStep(buffer: string, chunks: seq<string>, parse: Parser)
    ensures Feed(buffer, chunks, parse) == Process(buffer, Some(Concat(chunks)), parse)
    decreases |chunks|
  {
    if |chunks| > 0 {
      var first := Process(buffer, Some(chunks[0]), parse);
      FeedIsOneStep(first.buffer, chunks[1..], parse);
      ChunkBoundaryIndependent(buffer, chunks[0], Concat(chunks[1..]), parse);
      if Concat(chunks[1..]) == [] {
        assert Concat(chunks) == chunks[0];
      }
    }
  }

  /** However one stream is cut into chunks, the loop emits the same lines and
      makes the same store calls, and ends with the same buffer. */
  lemma FragmentationIndependent(buffer: string, c1: seq<string>, c2: seq<string>, parse: Parser)
    requires Concat(c1) == Concat(c2)
    ensures Feed(buffer, c1, parse) == Feed(buffer, c2, parse)
  {
    FeedIsOneStep(buffer, c1, parse);
    FeedIsOneStep(buffer, c2, parse);
  }

  /** A piece becomes a line exactly when it is not blank, and the line is the
      piece trimmed; blank pieces emit nothing. */
  lemma EmitOne(frame: string)
    ensures Emit([frame]) == if AllWhitespace(frame) then [] else [Trim(frame)]
  {
  }

  /** The texts of the `addLog` calls, in order. */
  function LogTexts(acts: seq<Action>): seq<string>
    decreases |acts|
  {
    if |acts| == 0 then []
    else (if acts[0].AppendLog? then [acts[0].text] else []) + LogTexts(acts[1..])
  }

  /** The records of the `addData` calls, in order. */
  function Records(acts: seq<Action>): seq<SensorData>
    decreases |acts|
  {
    if |acts| == 0 then []
    else (if acts[0].AppendData? then [acts[0].record] else []) + Records(acts[1..])
  }

  lemma {:induction false} LogTextsAppend(a: seq<Action>, b: seq<Action>)
    ensures LogTexts(a + b) == LogTexts(a) + LogTexts(b)
    decreases |a|
  {
    if |a| == 0 {
      assert a + b == b;
    } else {
      var h := if a[0].AppendLog? then [a[0].text] else [];
      assert (a + b)[0] == a[0];
      assert (a + b)[1..] == a[1..] + b;
      LogTextsAppend(a[1..], b);
      assert LogTexts(a + b) == h + LogTexts(a[1..] + b);
      assert LogTexts(a) == h + LogTexts(a[1..]);
    }
  }

  lemma {:induction false} RecordsAppend(a: seq<Action>, b: seq<Action>)
    ensures Records(a + b) == Records(a) + Records(b)
    decreases |a|
  {
    if |a| == 0 {
      assert a + b == b;
    } else {
      var h := if a[0].AppendData? then [a[0].record] else [];
      assert (a + b)[0] == a[0];
      assert (a + b)[1..] == a[1..] + b;
      RecordsAppend(a[1..], b);
      assert Records(a + b) == h + Records(a[1..] + b);
      assert Records(a) == h + Records(a[1..]);
    }
  }

  /** Every emitted line is logged exactly once, in the order of the lines. */
  lemma {:induction false} OneLogPerLine(lines: seq<string>, parse: Parser)
    ensures LogTexts(ClassifyAll(lines, parse)) == lines
    decreases |lines|
  {
    if |lines| > 0 {
      var acts := Classify(lines[0], parse);
      OneLogPerLine(lines[1..], parse);
      LogTextsAppend(acts, ClassifyAll(lines[1..], parse));
      assert LogTexts(acts) == [lines[0]] by {
        assert acts[1..] == [] || LogTexts(acts[1..]) == [];
      }
      assert lines == [lines[0]] + lines[1..];
    }
  }

  /** The step's lines are the emitted lines of its pieces, and its store calls
      are one `addLog` per line, in order, and one `addData` for each line that
      looks like an object and parses, in order. */
  lemma StepCallsFollowLines(buffer: string, chunk: Option<string>, parse: Parser)
    ensures var r := Process(buffer, chunk, parse);
      && r.lines == Emit(r.frames)
      && r.actions == ClassifyAll(r.lines, parse)
      && LogTexts(r.actions) == r.lines
      && Records(r.actions) == ParsedObjects(r.lines, parse)
  {
    var r := Process(buffer, chunk, parse);
    if chunk.Some? && chunk.value != [] {
      assert r == FromPieces(Split(buffer + chunk.value, Newline), parse);
    }
    OneLogPerLine(r.lines, parse);
    RecordsAreParsedObjects(r.lines, parse);
  }

  /** Whether a line yields a reading. */
  function Parses(parse: Parser): string -> bool
  {
    (l: string) => LooksLikeObject(l) && parse(l).Some?
  }

  /** The readings the lines should yield: the parsed objects of the lines that
      look like objects and parse, in order. */
  function ParsedObjects(lines: seq<string>, parse: Parser): (objs: seq<SensorData>)
  {
    var ok := Filter(lines, Parses(parse));
    seq(|ok|, i requires 0 <= i < |ok| => parse(ok[i]).value)
  }

  /** A reading is recorded for a line exactly when it looks like an object and
      parses, and the readings keep the order of the lines. */
  lemma {:induction false} RecordsAreParsedObjects(lines: seq<string>, parse: Parser)
    ensures Records(ClassifyAll(lines, parse)) == ParsedObjects(lines, parse)
    decreases |lines|
  {
    if |lines| > 0 {
      RecordsAreParsedObjects(lines[1..], parse);
      RecordsAppend(Classify(lines[0], parse), ClassifyAll(lines[1..], parse));
      RecordsOfLine(lines[0], parse);
      ParsedObjectsCons(lines, parse);
    }
  }

  /** The reading, if any, one line yields. */
  function LineRecord(l: string, parse: Parser): seq<SensorData>
  {
    if Parses(parse)(l) then [parse(l).value] else []
  }

  lemma RecordsOfLine(l: string, parse: Parser)
    ensures Records(Classify(l, parse)) == LineRecord(l, parse)
  {
    var acts := Classify(l, parse);
    assert Parses(parse)(l) == (LooksLikeObject(l) && parse(l).Some?);
    if |acts| == 2 {
      assert acts[1..][1..] == [];
      assert Records(acts[1..]) == [parse(l).value];
    } else {
      assert acts[1..] == [];
    }
  }

  lemma ParsedObjectsCons(lines: seq<string>, parse: Parser)
    requires |lines| > 0
    ensures ParsedObjects(lines, parse) == LineRecord(lines[0], parse) + ParsedObjects(lines[1..], parse)
  {
    assert lines == [lines[0]] + lines[1..];
    FilterAppend([lines[0]], lines[1..], Parses(parse));
  }

  /** A line that does not yield a reading is logged and nothing more, and the
      lines after it are handled exactly as if it had not failed. */
  lemma ParseFailureIsLocal(before: seq<string>, line: string, after: seq<string>, parse: Parser)
    requires !LooksLikeObject(line) || parse(line).None?
    ensures ClassifyAll(before + [line] + after, parse)
         == ClassifyAll(before, parse) + [AppendLog(line)] + ClassifyAll(after, parse)
  {
    ClassifyAllAppend(before + [line], after, parse);
    ClassifyAllAppend(before, [line], parse);
  }

  /** A wall-clock reading: the formatted time `addLog` stores, and the
      millisecond count `addData` stores. */
  datatype Instant = Instant(time: string, millis: int)

  /** Performs one store call at time `now`. */
  function Apply(s: Store, a: Action, now: Instant): Store
  {
    match a
    case AppendLog(text) => AddLog(s, text, now.time)
    case AppendData(o) => AddData(s, o, now.millis)
  }

  /** Performs the calls in order, the `i`-th at time `clock[i]`. The calls leave
      the widgets alone and keep the store within its bounds. */
  function ApplyAll(s: Store, acts: seq<Action>, clock: seq<Instant>): (r: Store)
    requires |clock| == |acts|
    ensures r.widgets == s.widgets && r.maxDataPoints == s.maxDataPoints
    ensures Valid(s) ==> Valid(r)
    decreases |acts|
  {
    if |acts| == 0 then s else ApplyAll(Apply(s, acts[0], clock[0]), acts[1..], clock[1..])
  }

  /** The readings the calls store, each stamped by `addData` with the
      millisecond reading of its own call's clock. */
  function StampedRecords(acts: seq<Action>, clock: seq<Instant>): (rs: seq<SensorData>)
    requires |clock| == |acts|
    ensures |rs| == |Records(acts)|
    decreases |acts|
  {
    if |acts| == 0 then []
    else
      (if acts[0].AppendData? then [WithTimestamp(acts[0].record, clock[0].millis)] else [])
      + StampedRecords(acts[1..], clock[1..])
  }

  /** A history after the readings `added` are stored one by one, each store
      cutting it to the last `max`: untouched when there are none. */
  function WithReadings(h: seq<SensorData>, added: seq<SensorData>, max: nat): seq<SensorData>
  {
    if added == [] then h else SliceLast(h + added, max)
  }

  lemma WithReadingsCons(h: seq<SensorData>, x: SensorData, rest: seq<SensorData>, max: nat)
    ensures WithReadings(SliceLast(h + [x], max), rest, max) == WithReadings(h, [x] + rest, max)
  {
    if rest != [] {
      SliceLastAppend(h + [x], rest, max);
      AppendAssociates(h, [x], rest);
    }
  }

  /** One store call's effect on the history. */
  lemma ApplyHistory(s: Store, a: Action, now: Instant)
    ensures Apply(s, a, now).maxDataPoints == s.maxDataPoints
    ensures Apply(s, a, now).history
         == if a.AppendData? then SliceLast(s.history + [WithTimestamp(a.record, now.millis)], s.maxDataPoints)
            else s.history
  {
  }

  /** After the replay the history is the old history followed by the stamped
      readings, cut to the last `maxDataPoints`; without readings it is untouched. */
  lemma {:induction false} HistoryAfterReplay(s: Store, acts: seq<Action>, clock: seq<Instant>)
    requires |clock| == |acts|
    ensures ApplyAll(s, acts, clock).history
         == WithReadings(s.history, StampedRecords(acts, clock), s.maxDataPoints)
    decreases |acts|
  {
    if |acts| > 0 {
      var s' := Apply(s, acts[0], clock[0]);
      var rest := StampedRecords(acts[1..], clock[1..]);
      HistoryAfterReplay(s', acts[1..], clock[1..]);
      ApplyHistory(s, acts[0], clock[0]);
      if acts[0].AppendData? {
        var st := WithTimestamp(acts[0].record, clock[0].millis);
        assert StampedRecords(acts, clock) == [st] + rest;
        WithReadingsCons(s.history, st, rest, s.maxDataPoints);
      } else {
        assert StampedRecords(acts, clock) == rest;
      }
    }
  }

  predicate NonDecreasing(clock: seq<Instant>)
  {
    forall i, j :: 0 <= i < j < |clock| ==> clock[i].millis <= clock[j].millis
  }

  /** One store call at time `now`, no earlier than the newest reading, keeps
      the history in timestamp order and leaves its newest reading no later than `now`. */
  lemma ApplyKeepsChronological(s: Store, a: Action, now: Instant)
    requires Chronological(s.history)
    requires |s.history| > 0 ==> StampOf(Last(s.history)) <= now.millis as real
    ensures var h := Apply(s, a, now).history;
      Chronological(h) && (|h| > 0 ==> StampOf(Last(h)) <= now.millis as real)
  {
    if a.AppendData? {
      AddDataKeepsChronological(s, a.record, now.millis);
    }
  }

  lemma NonDecreasingTail(clock: seq<Instant>)
    requires |clock| > 0 && NonDecreasing(clock)
    ensures NonDecreasing(clock[1..])
    ensures |clock| > 1 ==> clock[0].millis <= clock[1..][0].millis
  {
    var tail := clock[1..];
    forall i, j | 0 <= i < j < |tail|
      ensures tail[i].millis <= tail[j].millis
    {
      assert tail[i] == clock[i + 1] && tail[j] == clock[j + 1];
    }
  }

  /** With a clock that never runs backwards and starts no earlier than the
      newest reading, the history stays in timestamp order. */
  lemma {:induction false} ApplyAllKeepsChronological(s: Store, acts: seq<Action>, clock: seq<Instant>)
    requires |clock| == |acts|
    requires Chronological(s.history)
    requires NonDecreasing(clock)
    requires |s.history| > 0 && |clock| > 0 ==> StampOf(Last(s.history)) <= clock[0].millis as real
    ensures Chronological(ApplyAll(s, acts, clock).history)
    decreases |acts|
  {
    if |acts| > 0 {
      var s' := Apply(s, acts[0], clock[0]);
      ApplyKeepsChronological(s, acts[0], clock[0]);
      var tail := clock[1..];
      NonDecreasingTail(clock);
      ApplyAllKeepsChronological(s', acts[1..], tail);
    }
  }

  function Texts(logs: seq<LogEntry>): seq<string>
  {
    seq(|logs|, i requires 0 <= i < |logs| => logs[i].text)
  }

  /** The entries the `addLog` calls make, in call order, each carrying the
      time of its own call's clock reading. */
  function LoggedEntries(acts: seq<Action>, clock: seq<Instant>): (es: seq<LogEntry>)
    requires |clock| == |acts|
    ensures Texts(es) == LogTexts(acts)
    decreases |acts|
  {
    if |acts| == 0 then []
    else
      var first := if acts[0].AppendLog? then [LogEntry(acts[0].text, clock[0].time)] else [];
      var rest := LoggedEntries(acts[1..], clock[1..]);
      TextsAppend(first, rest);
      first + rest
  }

  lemma TextsAppend(a: seq<LogEntry>, b: seq<LogEntry>)
    ensures Texts(a + b) == Texts(a) + Texts(b)
  {
  }

  /** One store call's effect on the log: its entry, if it logs, goes in front
      and the log is cut to 50. */
  lemma ApplyEntries(s: Store, a: Action, now: Instant)
    requires |s.logs| <= LogCapacity
    ensures Apply(s, a, now).logs
         == Take((if a.AppendLog? then [LogEntry(a.text, now.time)] else []) + s.logs, LogCapacity)
    ensures |Apply(s, a, now).logs| <= LogCapacity
  {
    if a.AppendLog? {
      AddLogIsTake(s, a.text, now.time);
    } else {
      TakeAll(s.logs, LogCapacity);
    }
  }

  lemma AddLogIsTake(s: Store, t: string, time: string)
    ensures AddLog(s, t, time).logs == Take([LogEntry(t, time)] + s.logs, LogCapacity)
  {
    SliceHead([LogEntry(t, time)] + s.logs, LogCapacity);
  }

  /** The log after the calls is newest first: the entries of the `addLog`
      calls, each with its own call's time, in reverse call order in front of
      the old entries, cut to the first 50. */
  lemma {:induction false} LogsAfterReplay(s: Store, acts: seq<Action>, clock: seq<Instant>)
    requires |clock| == |acts|
    requires |s.logs| <= LogCapacity
    ensures ApplyAll(s, acts, clock).logs
         == Take(Reverse(LoggedEntries(acts, clock)) + s.logs, LogCapacity)
    decreases |acts|
  {
    if |acts| > 0 {
      var s' := Apply(s, acts[0], clock[0]);
      var first := if acts[0].AppendLog? then [LogEntry(acts[0].text, clock[0].time)] else [];
      var rest := LoggedEntries(acts[1..], clock[1..]);
      ApplyEntries(s, acts[0], clock[0]);
      LogsAfterReplay(s', acts[1..], clock[1..]);
      assert LoggedEntries(acts, clock) == first + rest;
      ReverseAppend(first, rest);
      assert Reverse(first) == first by {
        if first != [] {
          assert first[1..] == [];
          assert Reverse(first) == Reverse(first[1..]) + [first[0]];
        }
      }
      TakeAfterTake(Reverse(rest), first, s.logs, LogCapacity);
    }
  }

  /** The log after the calls is newest first: the logged texts in reverse
      order in front of the old entries, cut to the first 50. */
  lemma LogsNewestFirst(s: Store, acts: seq<Action>, clock: seq<Instant>)
    requires |clock| == |acts|
    requires |s.logs| <= LogCapacity
    ensures Texts(ApplyAll(s, acts, clock).logs)
         == Take(Reverse(LogTexts(acts)) + Texts(s.logs), LogCapacity)
  {
    var es := LoggedEntries(acts, clock);
    LogsAfterReplay(s, acts, clock);
    TextsOfTake(Reverse(es) + s.logs, LogCapacity);
    TextsAppend(Reverse(es), s.logs);
    TextsReverse(es);
  }

  lemma {:induction false} TextsReverse(es: seq<LogEntry>)
    ensures Texts(Reverse(es)) == Reverse(Texts(es))
    decreases |es|
  {
    if |es| > 0 {
      TextsReverse(es[1..]);
      TextsAppend(Reverse(es[1..]), [es[0]]);
      assert Texts(es)[1..] == Texts(es[1..]);
    }
  }

  lemma TextsOfTake(l: seq<LogEntry>, n: nat)
    ensures Texts(Take(l, n)) == Take(Texts(l), n)
  {
  }

  /** The reader's state between chunks: the carry buffer and the store. */
  datatype Reader = Reader(buffer: string, store: Store)

  /** One chunk, from `reader.read()` to the last store call it causes. */
  function OnChunk(rd: Reader, chunk: Option<string>, parse: Parser, clock: seq<Instant>): (r: Reader)
    requires |clock| == |Process(rd.buffer, chunk, parse).actions|
    ensures chunk.None? || chunk.value == [] ==> r == rd
    ensures r.buffer == Process(rd.buffer, chunk, parse).buffer
    ensures Valid(rd.store) ==> Valid(r.store)
    ensures r.store.widgets == rd.store.widgets
  {
    var step := Process(rd.buffer, chunk, parse);
    Reader(step.buffer, ApplyAll(rd.store, step.actions, clock))
  }

  /** What one delivered value does to the store: its lines are logged newest
      first in front of the old entries, cut to 50, and the readings of the lines
      that parse, stamped, are appended to the history, cut to `maxDataPoints`. */
  lemma OnChunkEffect(rd: Reader, chunk: Option<string>, parse: Parser, clock: seq<Instant>)
    requires |clock| == |Process(rd.buffer, chunk, parse).actions|
    requires |rd.store.logs| <= LogCapacity
    ensures var step, r := Process(rd.buffer, chunk, parse), OnChunk(rd, chunk, parse, clock);
      && Texts(r.store.logs) == Take(Reverse(step.lines) + Texts(rd.store.logs), LogCapacity)
      && r.store.logs == Take(Reverse(LoggedEntries(step.actions, clock)) + rd.store.logs, LogCapacity)
      && Texts(LoggedEntries(step.actions, clock)) == step.lines
      && |StampedRecords(step.actions, clock)| == |ParsedObjects(step.lines, parse)|
      && r.store.history
           == WithReadings(rd.store.history, StampedRecords(step.actions, clock), rd.store.maxDataPoints)
  {
    var step := Process(rd.buffer, chunk, parse);
    StepCallsFollowLines(rd.buffer, chunk, parse);
    LogsNewestFirst(rd.store, step.actions, clock);
    LogsAfterReplay(rd.store, step.actions, clock);
    HistoryAfterReplay(rd.store, step.actions, clock);
  }
}
