/** The Airbyte destination writer (packages/airbyte-destination/src/
    destination.ts:20-193): buffers per route with a running byte count, limits,
    and the STATE barrier. */
module AirbyteWriter {
  import opened Collections
  import opened CanonicalJson

  // ---- UTF-8 length -----------------------------------------------------------

  function UnitBytes(u: Unit): nat {
    if u < 0x80 then 1 else if u < 0x800 then 2 else 3
  }

  /** What TextEncoder produces: four bytes for a surrogate pair, three for a lone
      surrogate (the replacement character). */
  function ByteLength(text: Text): nat {
    if text == [] then 0
    else if |text| > 1 && IsLead(text[0]) && IsTrail(text[1]) then 4 + ByteLength(text[2..])
    else UnitBytes(text[0]) + ByteLength(text[1..])
  }

  /** Lengths add up unless a surrogate pair is torn apart. */
  lemma {:induction false} ByteLengthAdds(a: Text, b: Text)
    requires a == [] || b == [] || !IsLead(a[|a| - 1]) || !IsTrail(b[0])
    ensures ByteLength(a + b) == ByteLength(a) + ByteLength(b)
    decreases |a|
  {
    hide IsLead, IsTrail, UnitBytes;
    if a == [] {
      assert a + b == b;
    } else if b == [] {
      assert a + b == a;
    } else if |a| > 1 && IsLead(a[0]) && IsTrail(a[1]) {
      assert (a + b)[2..] == a[2..] + b;
      ByteLengthAdds(a[2..], b);
    } else {
      assert (a + b)[1..] == a[1..] + b;
      ByteLengthAdds(a[1..], b);
    }
  }

  // ---- batch bodies -----------------------------------------------------------

  /** {"records":[ and ]}. */
  const OPENING: Text := [123, 34, 114, 101, 99, 111, 114, 100, 115, 34, 58, 91]
  const CLOSING: Text := [93, 125]
  const EMPTY_ENVELOPE: nat := 14

  function Body(records: seq<Text>): Text {
    OPENING + Join(records) + CLOSING
  }

  /** The count the writer keeps: the envelope, the records, the commas. */
  function RecordBytes(records: seq<Text>): nat {
    if records == [] then 0 else RecordBytes(records[..|records| - 1]) + ByteLength(records[|records| - 1])
  }

  function CountedBytes(records: seq<Text>): nat {
    EMPTY_ENVELOPE + RecordBytes(records) + if records == [] then 0 else |records| - 1
  }

  lemma {:induction false} JoinAppended(records: seq<Text>, last: Text)
    ensures Join(records + [last]) == if records == [] then last else Join(records) + [COMMA] + last
  {
    var all := records + [last];
    if records == [] {
      assert all == [last];
    } else {
      assert all[1..] == records[1..] + [last] && all[0] == records[0];
      JoinAppended(records[1..], last);
      if |records| == 1 {
        assert records[1..] == [];
      } else {
        assert records[0] + [COMMA] + (Join(records[1..]) + [COMMA] + last) == records[0] + [COMMA] +
               Join(records[1..]) + [COMMA] + last;
      }
    }
  }

  lemma {:induction false} JoinedBytes(records: seq<Text>)
    ensures ByteLength(Join(records)) == RecordBytes(records) + if records == [] then 0 else |records| - 1
  {
    if records != [] {
      var n := |records| - 1;
      var earlier, last := records[..n], records[n];
      assert records == earlier + [last];
      JoinAppended(earlier, last);
      JoinedBytes(earlier);
      if earlier != [] {
        ByteLengthAdds(Join(earlier), [COMMA]);
        ByteLengthAdds(Join(earlier) + [COMMA], last);
        CommaIsOneByte();
      }
    }
  }

  lemma CommaIsOneByte()
    ensures ByteLength([COMMA]) == 1
  {
    assert [COMMA][1..] == [];
  }

  lemma EnvelopeBytes()
    ensures ByteLength(OPENING) == 12 && ByteLength(CLOSING) == 2
  {
    hide ByteLength;
    Ascii(OPENING);
    Ascii(CLOSING);
  }

  lemma {:induction false} Ascii(text: Text)
    requires forall i :: 0 <= i < |text| ==> text[i] < 0x80
    ensures ByteLength(text) == |text|
  {
    if text != [] { Ascii(text[1..]); }
  }

  /** The running count is the encoded length of the body, so the consistency
      check of a flush never fails. */
  lemma CountIsBodyLength(records: seq<Text>)
    ensures ByteLength(Body(records)) == CountedBytes(records)
  {
    hide ByteLength;
    JoinedBytes(records);
    EnvelopeBytes();
    ByteLengthAdds(OPENING, Join(records));
    ByteLengthAdds(OPENING + Join(records), CLOSING);
  }

  // ---- the writer -------------------------------------------------------------

  type RouteKey = nat

  /** Streams of the catalog, and those with a route and a verified endpoint. */
  datatype Config = Config(maximumRecords: nat, maximumBytes: nat, catalog: set<RouteKey>, routes: set<RouteKey>)

  /** What parsing a protocol line yields; None is a record that
      parseRecordMessage or normalizeRecord refuses. */
  datatype Line =
    | Blank
    | Unreadable
    | RecordLine(key: RouteKey, serialized: Option<Text>)
    | StateLine(hasPayload: bool, line: Text)
    | Ignored
    | Unsupported

  datatype Pending = Pending(byteCount: nat, records: seq<Text>)

  datatype Entry =
    | Accepted(key: RouteKey, record: Text)
    | Submitted(key: RouteKey, records: seq<Text>, sequence: nat)
    | Emitted(line: Text)

  datatype Writer = Writer(pending: map<RouteKey, Pending>, sequence: nat, log: seq<Entry>)

  const NEW_WRITER: Writer := Writer(map[], 0, [])

  /** One flush; false when the endpoint refuses the batch.  `accepts` tells
      which submissions get through, by their sequence number. */
  function Flush(accepts: nat -> bool, w: Writer, key: RouteKey): (Writer, bool) {
    if key !in w.pending || w.pending[key].records == [] then (w, true)
    else
      var next := w.(sequence := w.sequence + 1);
      if !accepts(next.sequence) then (next, false)
      else (next.(pending := w.pending - {key}, log := w.log + [Submitted(key, w.pending[key].records, next.sequence)]),
            true)
  }

  /** flushAll over its sorted keys, stopping at the first refusal. */
  function FlushKeys(accepts: nat -> bool, w: Writer, keys: seq<RouteKey>): (Writer, bool) {
    if keys == [] then (w, true)
    else
      var (before, ok) := FlushKeys(accepts, w, keys[..|keys| - 1]);
      if !ok then (before, false) else Flush(accepts, before, keys[|keys| - 1])
  }

  function Push(w: Writer, key: RouteKey, record: Text): Writer {
    var pending := if key in w.pending then w.pending[key] else Pending(EMPTY_ENVELOPE, []);
    var grown := Pending(pending.byteCount + ByteLength(record) + (if pending.records == [] then 0 else 1),
                         pending.records + [record]);
    w.(pending := w.pending[key := grown], log := w.log + [Accepted(key, record)])
  }

  predicate IsFull(config: Config, w: Writer, key: RouteKey, record: Text) {
    key in w.pending &&
    (|w.pending[key].records| >= config.maximumRecords ||
     w.pending[key].byteCount + ByteLength(record) +
       (if w.pending[key].records == [] then 0 else 1) > config.maximumBytes)
  }

  datatype Outcome = Done | ProtocolError | SubmitError

  /** #acceptRecord. */
  function AcceptRecord(config: Config, accepts: nat -> bool, w: Writer, key: RouteKey,
                        serialized: Option<Text>): (Writer, Outcome) {
    if key !in config.catalog || key !in config.routes then (w, ProtocolError)
    else
      match serialized
      case None => (w, ProtocolError)
      case Some(record) =>
        if EMPTY_ENVELOPE + ByteLength(record) > config.maximumBytes then (w, ProtocolError)
        else if IsFull(config, w, key, record) then
          var (flushed, ok) := Flush(accepts, w, key);
          if ok then (Push(flushed, key, record), Done) else (flushed, SubmitError)
        else (Push(w, key, record), Done)
  }

  ghost function SortedKeys(keys: set<RouteKey>): (r: seq<RouteKey>)
    ensures Ascending(r) && Elements(r) == keys
  {
    KeysInOrder(keys);
    var sorted: seq<RouteKey> :| Ascending(sorted) && Elements(sorted) == keys;
    sorted
  }

  lemma {:induction false} KeysInOrder(keys: set<RouteKey>)
    ensures exists sorted: seq<RouteKey> :: Ascending(sorted) && Elements(sorted) == keys
  {
    if keys == {} {
      assert Ascending([]) && Elements([]) == keys;
    } else {
      var x :| x in keys;
      KeysInOrder(keys - {x});
      var rest: seq<RouteKey> :| Ascending(rest) && Elements(rest) == keys - {x};
      InsertAscends(x, rest);
      InsertElements(x, rest);
      assert keys == {x} + (keys - {x});
    }
  }

  ghost function FlushAll(accepts: nat -> bool, w: Writer): (Writer, bool) {
    FlushKeys(accepts, w, SortedKeys(w.pending.Keys))
  }

  /** acceptLine. */
  ghost function AcceptLine(config: Config, accepts: nat -> bool, w: Writer, line: Line): (Writer, Outcome) {
    match line
    case Blank => (w, Done)
    case Unreadable => (w, ProtocolError)
    case RecordLine(key, serialized) => AcceptRecord(config, accepts, w, key, serialized)
    case StateLine(hasPayload, text) =>
      if !hasPayload then (w, ProtocolError)
      else
        var (flushed, ok) := FlushAll(accepts, w);
        if ok then (flushed.(log := flushed.log + [Emitted(text)]), Done) else (flushed, SubmitError)
    case Ignored => (w, Done)
    case Unsupported => (w, ProtocolError)
  }

  // ---- what the log says ------------------------------------------------------

  function AcceptedFor(log: seq<Entry>, key: RouteKey): seq<Text> {
    if log == [] then []
    else
      var last := log[|log| - 1];
      AcceptedFor(log[..|log| - 1], key) + if last.Accepted? && last.key == key then [last.record] else []
  }

  function SubmittedFor(log: seq<Entry>, key: RouteKey): seq<Text> {
    if log == [] then []
    else
      var last := log[|log| - 1];
      SubmittedFor(log[..|log| - 1], key) + if last.Submitted? && last.key == key then last.records else []
  }

  function PendingFor(w: Writer, key: RouteKey): seq<Text> {
    if key in w.pending then w.pending[key].records else []
  }

  ghost predicate FitsLimits(config: Config, records: seq<Text>) {
    0 < |records| <= config.maximumRecords && ByteLength(Body(records)) <= config.maximumBytes
  }

  /** Buffers are within the limits and counted right. */
  ghost predicate BuffersFit(config: Config, w: Writer) {
    forall key :: key in w.pending ==>
      w.pending[key].byteCount == CountedBytes(w.pending[key].records) && FitsLimits(config, w.pending[key].records)
  }

  /** Per route, what was submitted followed by what is pending is what was
      accepted, in order. */
  ghost predicate NothingIsLost(w: Writer) {
    forall key: RouteKey :: AcceptedFor(w.log, key) == SubmittedFor(w.log, key) + PendingFor(w, key)
  }

  ghost predicate IsSettled(log: seq<Entry>) {
    forall key: RouteKey :: AcceptedFor(log, key) == SubmittedFor(log, key)
  }

  /** What each entry promises about the log before it. */
  ghost predicate EntryFits(config: Config, log: seq<Entry>, entry: Entry) {
    match entry
    case Accepted(key, _) => key in config.catalog && key in config.routes
    case Submitted(_, records, sequence) =>
      FitsLimits(config, records) && forall k :: 0 <= k < |log| && log[k].Submitted? ==> log[k].sequence < sequence
    case Emitted(_) => IsSettled(log)
  }

  ghost predicate LogFits(config: Config, log: seq<Entry>) {
    forall k :: 0 <= k < |log| ==> EntryFits(config, log[..k], log[k])
  }

  ghost predicate Sound(config: Config, w: Writer) {
    BuffersFit(config, w) && NothingIsLost(w) && LogFits(config, w.log) &&
    forall k :: 0 <= k < |w.log| && w.log[k].Submitted? ==> w.log[k].sequence <= w.sequence
  }

  // ---- every call keeps it ----------------------------------------------------

  lemma Logged(log: seq<Entry>, entry: Entry, key: RouteKey)
    ensures AcceptedFor(log + [entry], key) == AcceptedFor(log, key) +
            if entry.Accepted? && entry.key == key then [entry.record] else []
    ensures SubmittedFor(log + [entry], key) == SubmittedFor(log, key) +
            if entry.Submitted? && entry.key == key then entry.records else []
  {
    assert (log + [entry])[..|log|] == log;
  }

  lemma LoggedFits(config: Config, log: seq<Entry>, entry: Entry)
    requires LogFits(config, log) && EntryFits(config, log, entry)
    ensures LogFits(config, log + [entry])
  {
    hide EntryFits;
    var all := log + [entry];
    forall k | 0 <= k < |all| ensures EntryFits(config, all[..k], all[k]) {
      if k < |log| { assert all[..k] == log[..k]; } else { assert all[..k] == log; }
    }
  }

  lemma FlushIsSound(config: Config, accepts: nat -> bool, w: Writer, key: RouteKey)
    requires Sound(config, w)
    ensures Sound(config, Flush(accepts, w, key).0)
  {
    hide FitsLimits, AcceptedFor, SubmittedFor, CountedBytes, IsSettled;
    var (after, ok) := Flush(accepts, w, key);
    if key in w.pending && accepts(w.sequence + 1) {
      var entry := Submitted(key, w.pending[key].records, w.sequence + 1);
      assert FitsLimits(config, w.pending[key].records);
      if w.pending[key].records != [] {
        LoggedFits(config, w.log, entry);
        forall k: RouteKey ensures AcceptedFor(after.log, k) == SubmittedFor(after.log, k) + PendingFor(after, k) {
          Logged(w.log, entry, k);
          assert AcceptedFor(w.log, k) == SubmittedFor(w.log, k) + PendingFor(w, k);
        }
      }
    }
  }

  lemma FlushEmpties(config: Config, accepts: nat -> bool, w: Writer, key: RouteKey)
    requires Sound(config, w)
    ensures Flush(accepts, w, key).1 ==> Flush(accepts, w, key).0.pending == w.pending - {key}
    ensures Flush(accepts, w, key).0.pending.Keys <= w.pending.Keys
  {
    hide AcceptedFor, SubmittedFor, CountedBytes, LogFits, NothingIsLost;
    if key in w.pending { assert FitsLimits(config, w.pending[key].records); }
  }

  lemma {:induction false} FlushKeysIsSound(config: Config, accepts: nat -> bool, w: Writer, keys: seq<RouteKey>)
    requires Sound(config, w)
    ensures var (after, ok) := FlushKeys(accepts, w, keys);
            Sound(config, after) && (ok ==> after.pending == w.pending - Elements(keys))
  {
    hide Sound, Flush;
    if keys == [] {
      assert w.pending - Elements(keys) == w.pending;
    } else {
      var n := |keys| - 1;
      FlushKeysIsSound(config, accepts, w, keys[..n]);
      var before := FlushKeys(accepts, w, keys[..n]).0;
      FlushIsSound(config, accepts, before, keys[n]);
      FlushEmpties(config, accepts, before, keys[n]);
      AppendElements(keys[..n], keys[n]);
      assert keys[..n] + [keys[n]] == keys;
      assert w.pending - Elements(keys[..n]) - {keys[n]} == w.pending - Elements(keys);
    }
  }

  lemma FlushAllSettles(config: Config, accepts: nat -> bool, w: Writer)
    requires Sound(config, w)
    ensures var (after, ok) := FlushAll(accepts, w);
            Sound(config, after) && (ok ==> after.pending == map[] && IsSettled(after.log))
  {
    hide FlushKeys, AcceptedFor, SubmittedFor, LogFits, BuffersFit;
    FlushKeysIsSound(config, accepts, w, SortedKeys(w.pending.Keys));
    var (after, ok) := FlushAll(accepts, w);
    if ok {
      assert after.pending == map[];
      forall key: RouteKey ensures AcceptedFor(after.log, key) == SubmittedFor(after.log, key) {
        assert AcceptedFor(after.log, key) == SubmittedFor(after.log, key) + PendingFor(after, key);
      }
    }
  }

  lemma CountGrows(records: seq<Text>, record: Text)
    ensures CountedBytes([]) == EMPTY_ENVELOPE
    ensures CountedBytes(records + [record]) == CountedBytes(records) + ByteLength(record) +
            if records == [] then 0 else 1
  {
    assert (records + [record])[..|records|] == records;
  }

  lemma PushIsSound(config: Config, w: Writer, key: RouteKey, record: Text)
    requires Sound(config, w) && config.maximumRecords >= 1 && key in config.catalog && key in config.routes
    requires EMPTY_ENVELOPE + ByteLength(record) <= config.maximumBytes && !IsFull(config, w, key, record)
    ensures Sound(config, Push(w, key, record))
  {
    hide AcceptedFor, SubmittedFor, ByteLength, IsSettled, CountedBytes, Body;
    var after := Push(w, key, record);
    var records := PendingFor(w, key);
    assert after.pending[key].records == records + [record];
    CountGrows(records, record);
    CountIsBodyLength(records + [record]);
    assert key in w.pending ==> w.pending[key].byteCount == CountedBytes(records);
    assert after.pending[key].byteCount == CountedBytes(records + [record]);
    LoggedFits(config, w.log, Accepted(key, record));
    forall k: RouteKey ensures AcceptedFor(after.log, k) == SubmittedFor(after.log, k) + PendingFor(after, k) {
      Logged(w.log, Accepted(key, record), k);
      assert AcceptedFor(w.log, k) == SubmittedFor(w.log, k) + PendingFor(w, k);
    }
  }

  lemma AcceptRecordIsSound(config: Config, accepts: nat -> bool, w: Writer, key: RouteKey, serialized: Option<Text>)
    requires Sound(config, w) && config.maximumRecords >= 1
    ensures Sound(config, AcceptRecord(config, accepts, w, key, serialized).0)
  {
    hide Sound, Push, Flush, ByteLength;
    if key in config.catalog && key in config.routes && serialized.Some? &&
       EMPTY_ENVELOPE + ByteLength(serialized.value) <= config.maximumBytes {
      var record := serialized.value;
      if IsFull(config, w, key, record) {
        FlushIsSound(config, accepts, w, key);
        FlushEmpties(config, accepts, w, key);
        if Flush(accepts, w, key).1 { PushIsSound(config, Flush(accepts, w, key).0, key, record); }
      } else {
        PushIsSound(config, w, key, record);
      }
    }
  }

  lemma EmitIsSound(config: Config, w: Writer, line: Text)
    requires Sound(config, w) && IsSettled(w.log)
    ensures Sound(config, w.(log := w.log + [Emitted(line)]))
  {
    hide AcceptedFor, SubmittedFor, FitsLimits;
    LoggedFits(config, w.log, Emitted(line));
    var after := w.(log := w.log + [Emitted(line)]);
    forall k: RouteKey ensures AcceptedFor(after.log, k) == SubmittedFor(after.log, k) + PendingFor(after, k) {
      Logged(w.log, Emitted(line), k);
      assert AcceptedFor(w.log, k) == SubmittedFor(w.log, k) + PendingFor(w, k);
    }
  }

  lemma AcceptLineIsSound(config: Config, accepts: nat -> bool, w: Writer, line: Line)
    requires Sound(config, w) && config.maximumRecords >= 1
    ensures Sound(config, AcceptLine(config, accepts, w, line).0)
  {
    hide Sound, FlushAll, AcceptRecord;
    match line
    case RecordLine(key, serialized) => AcceptRecordIsSound(config, accepts, w, key, serialized);
    case StateLine(hasPayload, text) =>
      FlushAllSettles(config, accepts, w);
      if FlushAll(accepts, w).1 { EmitIsSound(config, FlushAll(accepts, w).0, text); }
    case _ =>
  }

  // ---- whole inputs -----------------------------------------------------------

  /** The writer after a prefix of the input; errors end it. */
  ghost function AcceptLines(config: Config, accepts: nat -> bool, lines: seq<Line>): (Writer, bool) {
    if lines == [] then (NEW_WRITER, true)
    else
      var (before, ok) := AcceptLines(config, accepts, lines[..|lines| - 1]);
      if !ok then (before, false)
      else
        var (after, outcome) := AcceptLine(config, accepts, before, lines[|lines| - 1]);
        (after, outcome == Done)
  }

  lemma {:induction false} EveryInputIsSound(config: Config, accepts: nat -> bool, lines: seq<Line>)
    requires config.maximumRecords >= 1
    ensures Sound(config, AcceptLines(config, accepts, lines).0)
  {
    hide Sound, AcceptLine;
    if lines == [] {
      NewIsSound(config);
    } else {
      EveryInputIsSound(config, accepts, lines[..|lines| - 1]);
      AcceptLineIsSound(config, accepts, AcceptLines(config, accepts, lines[..|lines| - 1]).0, lines[|lines| - 1]);
    }
  }

  lemma NewIsSound(config: Config)
    ensures Sound(config, NEW_WRITER)
  {
  }

  /** A STATE line goes out only when every record accepted before it has been
      submitted; every submitted body meets both limits; batches leave under
      ascending sequence numbers. */
  lemma StatesFollowTheirRecords(config: Config, accepts: nat -> bool, lines: seq<Line>, k: nat, key: RouteKey)
    requires config.maximumRecords >= 1
    requires k < |AcceptLines(config, accepts, lines).0.log|
    ensures var log := AcceptLines(config, accepts, lines).0.log;
            (log[k].Emitted? ==> AcceptedFor(log[..k], key) == SubmittedFor(log[..k], key)) &&
            (log[k].Submitted? ==>
             |log[k].records| <= config.maximumRecords && ByteLength(Body(log[k].records)) <= config.maximumBytes) &&
            forall j :: 0 <= j < k && log[j].Submitted? && log[k].Submitted? ==> log[j].sequence < log[k].sequence
  {
    hide AcceptLines, ByteLength, AcceptedFor, SubmittedFor;
    EveryInputIsSound(config, accepts, lines);
    var log := AcceptLines(config, accepts, lines).0.log;
    assert EntryFits(config, log[..k], log[k]);
    assert forall j :: 0 <= j < k ==> log[..k][j] == log[j];
  }

  /** finish leaves nothing pending: per route exactly the accepted records were
      submitted, in order. */
  lemma FinishedInputIsSubmitted(config: Config, accepts: nat -> bool, lines: seq<Line>, key: RouteKey)
    requires config.maximumRecords >= 1
    ensures var (end, ok) := FlushAll(accepts, AcceptLines(config, accepts, lines).0);
            ok ==> end.pending == map[] && SubmittedFor(end.log, key) == AcceptedFor(end.log, key)
  {
    hide AcceptLines, FlushAll, Sound;
    EveryInputIsSound(config, accepts, lines);
    FlushAllSettles(config, accepts, AcceptLines(config, accepts, lines).0);
  }

  // ---- the class --------------------------------------------------------------

  class DestinationWriter {
    const config: Config
    const accepts: nat -> bool
    var batchByRoute: map<RouteKey, Pending>
    var batchSequence: nat
    ghost var log: seq<Entry>

    constructor (config: Config, accepts: nat -> bool)
      requires config.maximumRecords >= 1
      ensures this.config == config && this.accepts == accepts
      ensures State() == NEW_WRITER && Valid()
    {
      this.config, this.accepts := config, accepts;
      batchByRoute, batchSequence, log := map[], 0, [];
    }

    ghost function State(): Writer
      reads this
    {
      Writer(batchByRoute, batchSequence, log)
    }

    ghost predicate Valid()
      reads this
    {
      Sound(config, State()) && config.maximumRecords >= 1
    }

    method AcceptOneLine(line: Line) returns (outcome: Outcome)
      requires Valid()
      modifies this
      ensures (State(), outcome) == AcceptLine(config, accepts, old(State()), line) && Valid()
    {
      AcceptLineIsSound(config, accepts, State(), line);
      hide FlushAll, AcceptRecord;
      match line
      case Blank => return Done;
      case Unreadable => return ProtocolError;
      case RecordLine(key, serialized) => outcome := AcceptOneRecord(key, serialized);
      case StateLine(hasPayload, text) =>
        if !hasPayload { return ProtocolError; }
        var ok := FlushEverything();
        if !ok { return SubmitError; }
        log := log + [Emitted(text)];
        return Done;
      case Ignored => return Done;
      case Unsupported => return ProtocolError;
    }

    method Finish() returns (ok: bool)
      requires Valid()
      modifies this
      ensures (State(), ok) == FlushAll(accepts, old(State())) && Valid()
      ensures ok ==> forall key: RouteKey :: SubmittedFor(log, key) == AcceptedFor(log, key)
    {
      FlushAllSettles(config, accepts, State());
      hide Sound;
      ok := FlushEverything();
    }

    method FlushEverything() returns (ok: bool)
      requires Valid()
      modifies this
      ensures (State(), ok) == FlushAll(accepts, old(State())) && Valid()
    {
      ghost var before := State();
      var keys := SortKeys();
      hide Sound, Flush;
      var k := 0;
      ok := true;
      while k < |keys| && ok
        invariant 0 <= k <= |keys|
        invariant (State(), ok) == FlushKeys(accepts, before, keys[..k]) && Valid()
      {
        assert keys[..k + 1][..k] == keys[..k];
        ok := FlushRoute(keys[k]);
        k := k + 1;
      }
      if !ok { StoppedFlush(before, keys, k); }
      assert ok ==> keys[..k] == keys;
    }

    lemma {:induction false} StoppedFlush(w: Writer, keys: seq<RouteKey>, k: nat)
      requires k <= |keys| && !FlushKeys(accepts, w, keys[..k]).1
      ensures FlushKeys(accepts, w, keys) == FlushKeys(accepts, w, keys[..k])
    {
      hide Flush;
      if k == |keys| {
        assert keys[..k] == keys;
      } else {
        assert keys[..|keys| - 1][..k] == keys[..k];
        StoppedFlush(w, keys[..|keys| - 1], k);
      }
    }

    method SortKeys() returns (keys: seq<RouteKey>)
      ensures keys == SortedKeys(batchByRoute.Keys)
    {
      keys := [];
      var left := batchByRoute.Keys;
      while left != {}
        invariant left <= batchByRoute.Keys && Ascending(keys) && Elements(keys) == batchByRoute.Keys - left
        decreases |left|
      {
        var key :| key in left;
        InsertAscends(key, keys);
        InsertElements(key, keys);
        keys := Insert(key, keys);
        left := left - {key};
      }
      AscendingUnique(keys, SortedKeys(batchByRoute.Keys));
    }

    /** #flush: the byte checkpoint it asserts always holds. */
    method FlushRoute(key: RouteKey) returns (ok: bool)
      requires Valid()
      modifies this
      ensures (State(), ok) == Flush(accepts, old(State()), key) && Valid()
    {
      FlushIsSound(config, accepts, State(), key);
      hide CountedBytes, AcceptedFor, SubmittedFor, ByteLength, LogFits, NothingIsLost;
      if key !in batchByRoute || batchByRoute[key].records == [] { return true; }
      var pending := batchByRoute[key];
      CountIsBodyLength(pending.records);
      assert ByteLength(Body(pending.records)) == pending.byteCount;
      batchSequence := batchSequence + 1;
      if !accepts(batchSequence) { return false; }
      log := log + [Submitted(key, pending.records, batchSequence)];
      batchByRoute := batchByRoute - {key};
      return true;
    }

    method AcceptOneRecord(key: RouteKey, serialized: Option<Text>) returns (outcome: Outcome)
      requires Valid()
      modifies this
      ensures (State(), outcome) == AcceptRecord(config, accepts, old(State()), key, serialized) && Valid()
    {
      AcceptRecordIsSound(config, accepts, State(), key, serialized);
      hide ByteLength, AcceptedFor, SubmittedFor, LogFits, NothingIsLost, BuffersFit, Flush, Push, IsFull;
      if key !in config.catalog || key !in config.routes || serialized.None? { return ProtocolError; }
      var record := serialized.value;
      if EMPTY_ENVELOPE + ByteLength(record) > config.maximumBytes { return ProtocolError; }
      var full := NextIsTooMuch(key, record);
      if full {
        var ok := FlushRoute(key);
        if !ok { return SubmitError; }
      }
      PushRecord(key, record);
      return Done;
    }

    method PushRecord(key: RouteKey, record: Text)
      modifies this`batchByRoute, this`log
      ensures State() == Push(old(State()), key, record)
    {
      hide ByteLength;
      var pending := if key in batchByRoute then batchByRoute[key] else Pending(EMPTY_ENVELOPE, []);
      var comma := if pending.records == [] then 0 else 1;
      batchByRoute := batchByRoute[key := Pending(pending.byteCount + ByteLength(record) + comma,
                                                  pending.records + [record])];
      log := log + [Accepted(key, record)];
    }

    method NextIsTooMuch(key: RouteKey, record: Text) returns (full: bool)
      ensures full <==> IsFull(config, State(), key, record)
    {
      if key !in batchByRoute { return false; }
      var pending := batchByRoute[key];
      var nextByteCount := pending.byteCount + ByteLength(record) + (if pending.records == [] then 0 else 1);
      return |pending.records| >= config.maximumRecords || nextByteCount > config.maximumBytes;
    }
  }
}
