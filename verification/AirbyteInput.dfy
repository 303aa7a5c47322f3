/** What the destination writer does with its input lines
    (packages/airbyte-destination/src/destination.ts:84-193): every record of a
    consumed line is submitted or pending, in order, and every consumed STATE line
    is emitted. */
module AirbyteInput {
  import opened Collections
  import CanonicalJson
  import opened AirbyteWriter

  type Text = CanonicalJson.Text

  // ---- the input and the output -----------------------------------------------

  /** The records of a route among the lines, in order. */
  function RecordsOf(lines: seq<Line>, key: RouteKey): seq<Text> {
    if lines == [] then []
    else
      var last := lines[|lines| - 1];
      RecordsOf(lines[..|lines| - 1], key) +
      if last.RecordLine? && last.key == key && last.serialized.Some? then [last.serialized.value] else []
  }

  function StatesOf(lines: seq<Line>): seq<Text> {
    if lines == [] then []
    else StatesOf(lines[..|lines| - 1]) + if lines[|lines| - 1].StateLine? then [lines[|lines| - 1].line] else []
  }

  function EmittedIn(log: seq<Entry>): seq<Text> {
    if log == [] then []
    else EmittedIn(log[..|log| - 1]) + if log[|log| - 1].Emitted? then [log[|log| - 1].line] else []
  }

  /** Everything that left for a route or waits to leave. */
  function Handled(w: Writer, key: RouteKey): seq<Text> {
    SubmittedFor(w.log, key) + PendingFor(w, key)
  }

  // ---- one flush --------------------------------------------------------------

  lemma EmittedAppended(log: seq<Entry>, entry: Entry)
    ensures EmittedIn(log + [entry]) == EmittedIn(log) + if entry.Emitted? then [entry.line] else []
  {
    assert (log + [entry])[..|log|] == log;
  }

  lemma FlushTakesNothing(accepts: nat -> bool, w: Writer, key: RouteKey, k: RouteKey)
    ensures var after := Flush(accepts, w, key).0;
            AcceptedFor(after.log, k) == AcceptedFor(w.log, k) && EmittedIn(after.log) == EmittedIn(w.log)
  {
    hide AcceptedFor, EmittedIn;
    if key in w.pending && w.pending[key].records != [] && accepts(w.sequence + 1) {
      var entry := Submitted(key, w.pending[key].records, w.sequence + 1);
      Logged(w.log, entry, k);
      EmittedAppended(w.log, entry);
    }
  }

  lemma {:induction false} FlushesTakeNothing(accepts: nat -> bool, w: Writer, keys: seq<RouteKey>, k: RouteKey)
    ensures var after := FlushKeys(accepts, w, keys).0;
            AcceptedFor(after.log, k) == AcceptedFor(w.log, k) && EmittedIn(after.log) == EmittedIn(w.log)
  {
    hide Flush, AcceptedFor, EmittedIn;
    if keys != [] {
      var n := |keys| - 1;
      FlushesTakeNothing(accepts, w, keys[..n], k);
      FlushTakesNothing(accepts, FlushKeys(accepts, w, keys[..n]).0, keys[n], k);
    }
  }

  // ---- one line ---------------------------------------------------------------

  /** The record alone fits a batch of its route. */
  ghost predicate IsAcceptable(config: Config, key: RouteKey, serialized: Option<Text>) {
    key in config.catalog && key in config.routes && serialized.Some? &&
    ByteLength(Body([serialized.value])) <= config.maximumBytes
  }

  /** The buffered batch with one more record keeps both limits. */
  ghost predicate HasRoom(config: Config, w: Writer, key: RouteKey, record: Text) {
    |PendingFor(w, key)| < config.maximumRecords &&
    ByteLength(Body(PendingFor(w, key) + [record])) <= config.maximumBytes
  }

  lemma AcceptableMeans(config: Config, key: RouteKey, record: Text)
    ensures ByteLength(Body([record])) == EMPTY_ENVELOPE + ByteLength(record)
  {
    CountIsBodyLength([record]);
    CountGrows([], record);
    assert [] + [record] == [record];
  }

  lemma RoomMeans(config: Config, w: Writer, key: RouteKey, record: Text)
    requires Sound(config, w) && config.maximumRecords >= 1 &&
             EMPTY_ENVELOPE + ByteLength(record) <= config.maximumBytes
    ensures HasRoom(config, w, key, record) <==> !IsFull(config, w, key, record)
  {
    hide AcceptedFor, SubmittedFor, ByteLength, LogFits, Body;
    CountIsBodyLength(PendingFor(w, key) + [record]);
    CountGrows(PendingFor(w, key), record);
    if key !in w.pending { assert PendingFor(w, key) == []; }
  }

  /** What a record line does.  It is refused exactly when its stream is not
      configured, it does not normalize or it exceeds the byte limit alone.  The
      batch before it is submitted exactly when the record no longer fits, and
      afterwards the record is the last of its route; other routes stay. */
  lemma RecordLineMeans(config: Config, accepts: nat -> bool, w: Writer, key: RouteKey, serialized: Option<Text>,
                        other: RouteKey)
    requires Sound(config, w) && config.maximumRecords >= 1
    ensures var (after, outcome) := AcceptLine(config, accepts, w, RecordLine(key, serialized));
            EmittedIn(after.log) == EmittedIn(w.log) &&
            if !IsAcceptable(config, key, serialized) then outcome == ProtocolError && after == w
            else if HasRoom(config, w, key, serialized.value) then
              outcome == Done && SubmittedFor(after.log, key) == SubmittedFor(w.log, key) &&
              PendingFor(after, key) == PendingFor(w, key) + [serialized.value] &&
              (other != key ==> SubmittedFor(after.log, other) == SubmittedFor(w.log, other) &&
                                PendingFor(after, other) == PendingFor(w, other))
            else if accepts(w.sequence + 1) then
              outcome == Done && SubmittedFor(after.log, key) == Handled(w, key) &&
              PendingFor(after, key) == [serialized.value] &&
              (other != key ==> SubmittedFor(after.log, other) == SubmittedFor(w.log, other) &&
                                PendingFor(after, other) == PendingFor(w, other))
            else outcome == SubmitError && after == w.(sequence := w.sequence + 1)
  {
    hide AcceptedFor, SubmittedFor, EmittedIn, ByteLength, LogFits, Body, NothingIsLost;
    if serialized.Some? {
      var record := serialized.value;
      AcceptableMeans(config, key, record);
      if IsAcceptable(config, key, serialized) {
        RoomMeans(config, w, key, record);
        if IsFull(config, w, key, record) {
          assert FitsLimits(config, w.pending[key].records);
          var entry := Submitted(key, w.pending[key].records, w.sequence + 1);
          var flushed := Flush(accepts, w, key).0;
          Logged(w.log, entry, key);
          Logged(w.log, entry, other);
          EmittedAppended(w.log, entry);
          PushMeans(flushed, key, record, other);
        } else {
          PushMeans(w, key, record, other);
        }
      }
    }
  }

  lemma PushMeans(w: Writer, key: RouteKey, record: Text, other: RouteKey)
    ensures var after := Push(w, key, record);
            SubmittedFor(after.log, key) == SubmittedFor(w.log, key) &&
            SubmittedFor(after.log, other) == SubmittedFor(w.log, other) &&
            PendingFor(after, key) == PendingFor(w, key) + [record] &&
            (other != key ==> PendingFor(after, other) == PendingFor(w, other)) &&
            EmittedIn(after.log) == EmittedIn(w.log)
  {
    hide AcceptedFor, SubmittedFor, EmittedIn, ByteLength;
    Logged(w.log, Accepted(key, record), key);
    Logged(w.log, Accepted(key, record), other);
    EmittedAppended(w.log, Accepted(key, record));
  }

  /** What a STATE line does: without a payload it is refused; otherwise, once
      everything pending was submitted, exactly its text is emitted. */
  lemma StateLineMeans(config: Config, accepts: nat -> bool, w: Writer, hasPayload: bool, text: Text, key: RouteKey)
    requires Sound(config, w) && config.maximumRecords >= 1
    ensures var (after, outcome) := AcceptLine(config, accepts, w, StateLine(hasPayload, text));
            (outcome == ProtocolError <==> !hasPayload) && (!hasPayload ==> after == w) &&
            (outcome == Done ==> after.pending == map[]) &&
            Handled(after, key) == Handled(w, key) &&
            EmittedIn(after.log) == EmittedIn(w.log) + if outcome == Done then [text] else []
  {
    var (after, outcome) := AcceptLine(config, accepts, w, StateLine(hasPayload, text));
    AcceptLineIsSound(config, accepts, w, StateLine(hasPayload, text));
    FlushesTakeNothing(accepts, w, SortedKeys(w.pending.Keys), key);
    FlushAllSettles(config, accepts, w);
    assert AcceptedFor(w.log, key) == Handled(w, key) && AcceptedFor(after.log, key) == Handled(after, key);
    hide AcceptedFor, EmittedIn, FlushKeys, SortedKeys, Sound;
    if hasPayload {
      var flushed := FlushAll(accepts, w).0;
      Logged(flushed.log, Emitted(text), key);
      EmittedAppended(flushed.log, Emitted(text));
    }
  }

  /** Blank lines and messages of other known types change nothing; unreadable
      and unknown ones are refused. */
  lemma OtherLinesMean(config: Config, accepts: nat -> bool, w: Writer, line: Line)
    requires !line.RecordLine? && !line.StateLine?
    ensures AcceptLine(config, accepts, w, line) ==
            (w, if line.Unreadable? || line.Unsupported? then ProtocolError else Done)
  {
  }

  /** A consumed line hands over exactly its record and emits exactly its state;
      a refused one neither loses nor adds anything. */
  lemma LineIsHandled(config: Config, accepts: nat -> bool, w: Writer, line: Line, key: RouteKey)
    requires Sound(config, w) && config.maximumRecords >= 1
    ensures var (after, outcome) := AcceptLine(config, accepts, w, line);
            Handled(after, key) == Handled(w, key) +
              (if outcome == Done && line.RecordLine? && line.key == key && line.serialized.Some?
               then [line.serialized.value] else []) &&
            EmittedIn(after.log) == EmittedIn(w.log) + if outcome == Done && line.StateLine? then [line.line] else []
  {
    hide AcceptLine, SubmittedFor, EmittedIn, Sound, HasRoom, ByteLength, Body;
    match line
    case RecordLine(route, serialized) =>
      RecordLineMeans(config, accepts, w, route, serialized, key);
      if serialized.Some? { Regroup(SubmittedFor(w.log, key), PendingFor(w, key), [serialized.value]); }
    case StateLine(hasPayload, text) => StateLineMeans(config, accepts, w, hasPayload, text, key);
    case _ => OtherLinesMean(config, accepts, w, line);
  }

  lemma Regroup(a: seq<Text>, b: seq<Text>, c: seq<Text>)
    ensures a + (b + c) == a + b + c
  {
  }

  // ---- the whole input --------------------------------------------------------

  /** How many lines were consumed before an error ended the input. */
  ghost function Consumed(config: Config, accepts: nat -> bool, lines: seq<Line>): (n: nat)
    ensures n <= |lines|
  {
    if lines == [] then 0
    else
      var earlier := lines[..|lines| - 1];
      if AcceptLines(config, accepts, earlier).1 && AcceptLines(config, accepts, lines).1 then |lines|
      else Consumed(config, accepts, earlier)
  }

  lemma {:induction false} AllConsumed(config: Config, accepts: nat -> bool, lines: seq<Line>)
    requires AcceptLines(config, accepts, lines).1
    ensures Consumed(config, accepts, lines) == |lines|
  {
    hide AcceptLine;
    if lines != [] { AllConsumed(config, accepts, lines[..|lines| - 1]); }
  }

  /** Over every input the records submitted or pending for a route are the
      records of its consumed lines, in order, and the emitted states are the
      consumed STATE lines, in order. */
  lemma {:induction false} ConsumedLinesAreHandled(config: Config, accepts: nat -> bool, lines: seq<Line>,
                                                   key: RouteKey)
    requires config.maximumRecords >= 1
    ensures var w, consumed := AcceptLines(config, accepts, lines).0, lines[..Consumed(config, accepts, lines)];
            Handled(w, key) == RecordsOf(consumed, key) && EmittedIn(w.log) == StatesOf(consumed)
  {
    hide AcceptLine, Handled, EmittedIn, Sound;
    if lines == [] {
      NothingHandled(key);
    } else {
      var n := |lines| - 1;
      var (before, ok) := AcceptLines(config, accepts, lines[..n]);
      ConsumedLinesAreHandled(config, accepts, lines[..n], key);
      assert lines[..n][..Consumed(config, accepts, lines[..n])] == lines[..Consumed(config, accepts, lines[..n])];
      if ok {
        EveryInputIsSound(config, accepts, lines[..n]);
        LineIsHandled(config, accepts, before, lines[n], key);
        AllConsumed(config, accepts, lines[..n]);
        assert lines[..|lines|] == lines;
      }
    }
  }

  lemma NothingHandled(key: RouteKey)
    ensures Handled(NEW_WRITER, key) == [] && EmittedIn(NEW_WRITER.log) == []
  {
  }

  /** When a STATE line has gone out, every record of an earlier line has been
      submitted. */
  lemma StatesAreCheckpoints(config: Config, accepts: nat -> bool, lines: seq<Line>, key: RouteKey)
    requires config.maximumRecords >= 1 && lines != [] && lines[|lines| - 1].StateLine?
    requires AcceptLines(config, accepts, lines).1
    ensures SubmittedFor(AcceptLines(config, accepts, lines).0.log, key) == RecordsOf(lines[..|lines| - 1], key)
  {
    hide AcceptLine, SubmittedFor, EmittedIn, Sound;
    var n := |lines| - 1;
    var before := AcceptLines(config, accepts, lines[..n]).0;
    EveryInputIsSound(config, accepts, lines[..n]);
    StateLineMeans(config, accepts, before, lines[n].hasPayload, lines[n].line, key);
    AllConsumed(config, accepts, lines);
    ConsumedLinesAreHandled(config, accepts, lines, key);
    assert lines[..|lines|] == lines;
    var after := AcceptLines(config, accepts, lines).0;
    assert after == AcceptLine(config, accepts, before, lines[n]).0 && PendingFor(after, key) == [];
    assert Handled(after, key) == SubmittedFor(after.log, key);
    assert RecordsOf(lines, key) == RecordsOf(lines[..n], key);
  }

  /** An input that was consumed and finished without an error has been submitted:
      per route exactly the records of its lines, in order. */
  lemma FinishedInputIsDelivered(config: Config, accepts: nat -> bool, lines: seq<Line>, key: RouteKey)
    requires config.maximumRecords >= 1 && AcceptLines(config, accepts, lines).1
    requires FlushAll(accepts, AcceptLines(config, accepts, lines).0).1
    ensures SubmittedFor(FlushAll(accepts, AcceptLines(config, accepts, lines).0).0.log, key) == RecordsOf(lines, key)
  {
    hide AcceptLines, SubmittedFor, AcceptedFor, FlushKeys, SortedKeys, EmittedIn;
    var w := AcceptLines(config, accepts, lines).0;
    AllConsumed(config, accepts, lines);
    assert lines[..|lines|] == lines;
    ConsumedLinesAreHandled(config, accepts, lines, key);
    EveryInputIsSound(config, accepts, lines);
    FlushAllSettles(config, accepts, w);
    FlushesTakeNothing(accepts, w, SortedKeys(w.pending.Keys), key);
    assert AcceptedFor(w.log, key) == Handled(w, key);
  }
}
