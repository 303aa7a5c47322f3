/** Staged push batches (packages/db/src/ingestion.ts:191-276, 331-743): every
    interleaving of staging, claiming, chunk application and worker failure
    refines upserting the accepted records one by one. */
module Ingestion {
  import opened Collections
  import opened IngestionMapping
  import opened Upsert
  import opened ChunkUpsert

  const MAXIMUM_RECORDS: nat := 1000

  /** The code reads Cancelled but no statement sets it. */
  datatype Status = Queued | Running | Succeeded | Failed | Cancelled

  datatype Request = Request(idempotencyKey: string, digest: string, fields: seq<string>, records: seq<Record>)

  datatype Batch = Batch(request: Request, processed: nat, created: nat, updated: nat, status: Status, attempt: nat)

  /** An endpoint: its batches in creation order, its mapping and its table. */
  datatype Endpoint = Endpoint(batches: seq<Batch>, schema: Schema, grid: Grid)

  // ---- transactions -----------------------------------------------------------

  predicate IsOpen(status: Status) {
    status == Queued || status == Running
  }

  predicate RequestFits(request: Request) {
    1 <= |request.records| <= MAXIMUM_RECORDS && 1 <= |request.fields| <= MAXIMUM_FIELDS &&
    forall i, j :: 0 <= i < j < |request.records| ==> request.records[i].key != request.records[j].key
  }

  function FindKey(batches: seq<Batch>, key: string): (r: Option<nat>)
    ensures r.Some? ==> r.value < |batches| && batches[r.value].request.idempotencyKey == key
    ensures r.None? ==> forall i :: 0 <= i < |batches| ==> batches[i].request.idempotencyKey != key
  {
    if batches == [] then None
    else
      var n := |batches| - 1;
      if batches[n].request.idempotencyKey == key then Some(n) else FindKey(batches[..n], key)
  }

  datatype StageResult = Created | Replayed(batch: nat) | Conflict | Rejected

  /** stageIngestionBatch for a valid token. */
  function Stage(e: Endpoint, request: Request): (Endpoint, StageResult) {
    match FindKey(e.batches, request.idempotencyKey)
    case Some(i) => (e, if e.batches[i].request.digest == request.digest then Replayed(i) else Conflict)
    case None =>
      if !RequestFits(request) then (e, Rejected)
      else (e.(batches := e.batches + [Batch(request, 0, 0, 0, Queued, 0)]), Created)
  }

  predicate HasEarlierOpen(batches: seq<Batch>, i: nat) {
    exists j :: 0 <= j < |batches| && j < i && IsOpen(batches[j].status)
  }

  datatype ClaimResult = Ready | AlreadySucceeded | AlreadyCancelled | Waiting | CannotStart

  /** markIngestionBatchRunning. */
  function MarkRunning(e: Endpoint, i: nat): (Endpoint, ClaimResult)
    requires i < |e.batches|
  {
    var batch := e.batches[i];
    if batch.status == Succeeded then (e, AlreadySucceeded)
    else if batch.status == Cancelled then (e, AlreadyCancelled)
    else if !IsOpen(batch.status) then (e, CannotStart)
    else if HasEarlierOpen(e.batches, i) then (e, Waiting)
    else (e.(batches := e.batches[i := batch.(attempt := batch.attempt + 1, status := Running)]), Ready)
  }

  function ChunkLimit(size: int): (r: nat)
    ensures 1 <= r <= 1000
  {
    if size < 1 then 1 else if size > 1000 then 1000 else size
  }

  function Pushes(request: Request, from: nat, to: nat): (r: seq<Push>)
    requires from <= to <= |request.records|
    ensures |r| == to - from
  {
    seq(to - from, k requires 0 <= k < to - from => Push(request.fields, request.records[from + k], false))
  }

  function Advance(batch: Batch, count: nat, created: nat): Batch
    requires created <= count
  {
    batch.(processed := batch.processed + count, created := batch.created + created,
           updated := batch.updated + count - created)
  }

  /** applyIngestionBatchChunk; None is an abort. */
  function ApplyChunk(naming: Naming, e: Endpoint, i: nat, size: int): Option<Endpoint>
    requires i < |e.batches| && e.batches[i].processed <= |e.batches[i].request.records|
  {
    var batch := e.batches[i];
    var left := |batch.request.records| - batch.processed;
    var count := if ChunkLimit(size) < left then ChunkLimit(size) else left;
    if batch.status != Running then None
    else if count == 0 then Some(e.(batches := e.batches[i := batch.(status := Succeeded)]))
    else
      var pushes := Pushes(batch.request, batch.processed, batch.processed + count);
      match WriteChunk(naming, e.schema, e.grid, batch.request.fields, pushes)
      case None => None
      case Some((schema, grid)) =>
        Some(Endpoint(e.batches[i := Advance(batch, count, NewCount(e.grid.identities, pushes))], schema, grid))
  }

  /** setIngestionBatchWorkerFailure. */
  function WorkerFailure(e: Endpoint, i: nat, retrying: bool): Endpoint
    requires i < |e.batches|
  {
    if IsOpen(e.batches[i].status) then
      e.(batches := e.batches[i := e.batches[i].(status := if retrying then Queued else Failed)])
    else e
  }

  // ---- the sequential reference -----------------------------------------------

  /** One record alone: extend the mapping for its batch's fields, then upsert. */
  function PushOne(naming: Naming, schema: Schema, grid: Grid, push: Push): Option<(Schema, Grid)> {
    match ExtendMapping(naming, schema, push.fields)
    case None => None
    case Some(next) =>
      match UpsertRecord(naming, next.mapping, grid, push)
      case None => None
      case Some(after) => Some((next, after))
  }

  function Replay(naming: Naming, schema: Schema, grid: Grid, pushes: seq<Push>): Option<(Schema, Grid)> {
    if pushes == [] then Some((schema, grid))
    else
      match Replay(naming, schema, grid, pushes[..|pushes| - 1])
      case None => None
      case Some(next) => PushOne(naming, next.0, next.1, pushes[|pushes| - 1])
  }

  lemma {:induction false} ReplayAppended(naming: Naming, schema: Schema, grid: Grid, first: seq<Push>,
                                          second: seq<Push>)
    ensures Replay(naming, schema, grid, first + second) ==
            match Replay(naming, schema, grid, first) case None => None case Some(next) =>
              Replay(naming, next.0, next.1, second)
  {
    hide PushOne;
    if second == [] {
      assert first + second == first;
    } else {
      var n := |second| - 1;
      ReplayAppended(naming, schema, grid, first, second[..n]);
      assert (first + second)[..|first + second| - 1] == first + second[..n];
    }
  }

  ghost predicate HaveFields(pushes: seq<Push>, fields: seq<string>) {
    forall i :: 0 <= i < |pushes| ==> pushes[i].fields == fields
  }

  /** Records of one batch need its mapping extended only once. */
  lemma {:induction false} OneExtensionServesAll(naming: Naming, schema: Schema, grid: Grid, fields: seq<string>,
                                                 pushes: seq<Push>)
    requires HaveFields(pushes, fields) && pushes != []
    ensures Replay(naming, schema, grid, pushes) ==
            match ExtendMapping(naming, schema, fields)
            case None => None
            case Some(next) =>
              match UpsertAll(naming, next.mapping, grid, pushes) case None => None case Some(after) =>
                Some((next, after))
  {
    hide ExtendMapping, UpsertRecord;
    var n := |pushes| - 1;
    var extended := ExtendMapping(naming, schema, fields);
    if n == 0 {
      assert pushes[..n] == [];
    } else {
      OneExtensionServesAll(naming, schema, grid, fields, pushes[..n]);
      if extended.Some? { ExtendingTwiceIsOnce(naming, schema, fields); }
    }
  }

  /** A chunk is the replay of its records, aborts included. */
  lemma ChunkIsReplay(naming: Naming, schema: Schema, grid: Grid, fields: seq<string>, pushes: seq<Push>)
    requires GridIsSound(grid) && KeysAreDistinct(pushes) && HaveFields(pushes, fields) && pushes != []
    ensures Replay(naming, schema, grid, pushes) == WriteChunk(naming, schema, grid, fields, pushes)
  {
    hide ExtendMapping, UpsertChunk, UpsertAll, Replay;
    OneExtensionServesAll(naming, schema, grid, fields, pushes);
    var extended := ExtendMapping(naming, schema, fields);
    if extended.Some? { ChunkIsSequential(naming, extended.value.mapping, grid, pushes); }
  }

  // ---- the invariant ----------------------------------------------------------

  function Applied(batch: Batch): seq<Push>
    requires batch.processed <= |batch.request.records|
  {
    Pushes(batch.request, 0, batch.processed)
  }

  ghost predicate BatchIsSound(batch: Batch) {
    RequestFits(batch.request) && batch.processed <= |batch.request.records| &&
    batch.created + batch.updated == batch.processed &&
    (batch.status == Succeeded ==> batch.processed == |batch.request.records|)
  }

  ghost predicate AllSound(batches: seq<Batch>) {
    forall i :: 0 <= i < |batches| ==> BatchIsSound(batches[i])
  }

  /** A batch that runs or has applied anything comes after finished ones only. */
  ghost predicate InOrder(batches: seq<Batch>) {
    forall i, j :: 0 <= i < j < |batches| && (batches[j].status == Running || batches[j].processed > 0) ==>
      !IsOpen(batches[i].status)
  }

  ghost predicate KeysAreUnique(batches: seq<Batch>) {
    forall i, j :: 0 <= i < j < |batches| ==> batches[i].request.idempotencyKey != batches[j].request.idempotencyKey
  }

  ghost predicate WellFormed(batches: seq<Batch>) {
    AllSound(batches) && InOrder(batches) && KeysAreUnique(batches)
  }

  /** The accepted records in batch creation order, then ordinal order. */
  ghost function History(batches: seq<Batch>): seq<Push>
    requires AllSound(batches)
  {
    if batches == [] then [] else History(batches[..|batches| - 1]) + Applied(batches[|batches| - 1])
  }

  function CreatedRows(batches: seq<Batch>): nat {
    if batches == [] then 0 else CreatedRows(batches[..|batches| - 1]) + batches[|batches| - 1].created
  }

  ghost predicate Refines(naming: Naming, start: Endpoint, e: Endpoint) {
    AllSound(e.batches) &&
    Replay(naming, start.schema, start.grid, History(e.batches)) == Some((e.schema, e.grid)) &&
    GridIsSound(e.grid) && e.grid.nextRow == start.grid.nextRow + CreatedRows(e.batches)
  }

  ghost predicate Sound(naming: Naming, start: Endpoint, e: Endpoint) {
    WellFormed(e.batches) && Refines(naming, start, e)
  }

  // ---- every transaction keeps it ---------------------------------------------

  lemma {:induction false} HistoryOfIdleTail(batches: seq<Batch>, i: nat)
    requires AllSound(batches) && i < |batches| && forall j :: i < j < |batches| ==> batches[j].processed == 0
    ensures History(batches) == History(batches[..i]) + Applied(batches[i])
  {
    var n := |batches| - 1;
    if i < n {
      HistoryOfIdleTail(batches[..n], i);
      assert batches[..n][..i] == batches[..i];
      assert Applied(batches[n]) == [];
    }
  }

  lemma {:induction false} HistoryUnchanged(before: seq<Batch>, after: seq<Batch>)
    requires AllSound(before) && AllSound(after) && |before| == |after|
    requires forall i :: 0 <= i < |before| ==>
               before[i].request == after[i].request && before[i].processed == after[i].processed &&
               before[i].created == after[i].created
    ensures History(before) == History(after) && CreatedRows(before) == CreatedRows(after)
  {
    if before != [] {
      var n := |before| - 1;
      HistoryUnchanged(before[..n], after[..n]);
    }
  }

  lemma {:induction false} CreatedAfterUpdate(batches: seq<Batch>, i: nat, batch: Batch)
    requires i < |batches| && batch.created >= batches[i].created
    ensures CreatedRows(batches[i := batch]) == CreatedRows(batches) + batch.created - batches[i].created
  {
    var n := |batches| - 1;
    if i == n {
      assert batches[i := batch][..n] == batches[..n];
    } else {
      assert batches[i := batch][..n] == batches[..n][i := batch];
      CreatedAfterUpdate(batches[..n], i, batch);
    }
  }

  lemma StageIsSound(naming: Naming, start: Endpoint, e: Endpoint, request: Request)
    requires Sound(naming, start, e)
    ensures Sound(naming, start, Stage(e, request).0)
  {
    hide Replay, GridIsSound;
    var after := Stage(e, request).0;
    if after != e {
      assert after.batches[..|e.batches|] == e.batches;
      assert Applied(after.batches[|e.batches|]) == [];
      assert History(after.batches) == History(e.batches);
    }
  }

  lemma MarkRunningIsSound(naming: Naming, start: Endpoint, e: Endpoint, i: nat)
    requires Sound(naming, start, e) && i < |e.batches|
    ensures Sound(naming, start, MarkRunning(e, i).0)
  {
    hide Replay, GridIsSound, RequestFits;
    HistoryUnchanged(e.batches, MarkRunning(e, i).0.batches);
  }

  lemma WorkerFailureIsSound(naming: Naming, start: Endpoint, e: Endpoint, i: nat, retrying: bool)
    requires Sound(naming, start, e) && i < |e.batches|
    ensures Sound(naming, start, WorkerFailure(e, i, retrying))
  {
    hide Replay, GridIsSound, RequestFits;
    HistoryUnchanged(e.batches, WorkerFailure(e, i, retrying).batches);
  }

  lemma PushesAreDistinct(request: Request, from: nat, to: nat)
    requires RequestFits(request) && from <= to <= |request.records|
    ensures KeysAreDistinct(Pushes(request, from, to)) && HaveFields(Pushes(request, from, to), request.fields)
  {
  }

  lemma AdvanceIsWellFormed(batches: seq<Batch>, i: nat, count: nat, created: nat)
    requires WellFormed(batches) && i < |batches| && batches[i].status == Running
    requires created <= count && batches[i].processed + count <= |batches[i].request.records|
    ensures WellFormed(batches[i := Advance(batches[i], count, created)])
  {
    hide RequestFits;
  }

  lemma AdvanceAppendsToHistory(batches: seq<Batch>, i: nat, count: nat, created: nat)
    requires WellFormed(batches) && i < |batches| && batches[i].status == Running
    requires created <= count && batches[i].processed + count <= |batches[i].request.records|
    ensures WellFormed(batches[i := Advance(batches[i], count, created)])
    ensures History(batches[i := Advance(batches[i], count, created)]) ==
            History(batches) + Pushes(batches[i].request, batches[i].processed, batches[i].processed + count)
  {
    hide RequestFits;
    AdvanceIsWellFormed(batches, i, count, created);
    var after := batches[i := Advance(batches[i], count, created)];
    assert after[..i] == batches[..i];
    forall j | i < j < |batches| ensures batches[j].processed == 0 {}
    HistoryOfIdleTail(batches, i);
    HistoryOfIdleTail(after, i);
    var more := Pushes(batches[i].request, batches[i].processed, batches[i].processed + count);
    assert Applied(after[i]) == Applied(batches[i]) + more;
    assert History(batches[..i]) + Applied(batches[i]) + more == History(batches[..i]) + (Applied(batches[i]) + more);
  }

  lemma ChunkFinishes(naming: Naming, start: Endpoint, e: Endpoint, i: nat)
    requires Sound(naming, start, e) && i < |e.batches| && e.batches[i].status == Running
    requires e.batches[i].processed == |e.batches[i].request.records|
    ensures Sound(naming, start, e.(batches := e.batches[i := e.batches[i].(status := Succeeded)]))
  {
    hide Replay, GridIsSound, RequestFits;
    HistoryUnchanged(e.batches, e.batches[i := e.batches[i].(status := Succeeded)]);
  }

  lemma ChunkAdvances(naming: Naming, start: Endpoint, e: Endpoint, i: nat, count: nat, schema: Schema, grid: Grid)
    requires Sound(naming, start, e) && i < |e.batches| && e.batches[i].status == Running
    requires 0 < count && e.batches[i].processed + count <= |e.batches[i].request.records|
    requires WriteChunk(naming, e.schema, e.grid, e.batches[i].request.fields,
                        Pushes(e.batches[i].request, e.batches[i].processed, e.batches[i].processed + count)) ==
                          Some((schema, grid))
    ensures var created := NewCount(e.grid.identities,
                                    Pushes(e.batches[i].request, e.batches[i].processed,
                                           e.batches[i].processed + count));
            Sound(naming, start, Endpoint(e.batches[i := Advance(e.batches[i], count, created)], schema, grid))
  {
    hide Replay, WriteChunk, ExtendMapping, RequestFits, GridIsSound, UpsertAll;
    var batch := e.batches[i];
    var pushes := Pushes(batch.request, batch.processed, batch.processed + count);
    PushesAreDistinct(batch.request, batch.processed, batch.processed + count);
    var created := NewCount(e.grid.identities, pushes);
    AdvanceAppendsToHistory(e.batches, i, count, created);
    ReplayAppended(naming, start.schema, start.grid, History(e.batches), pushes);
    ChunkIsReplay(naming, e.schema, e.grid, batch.request.fields, pushes);
    WrittenChunk(naming, e.schema, e.grid, batch.request.fields, pushes);
    CreatedAfterUpdate(e.batches, i, Advance(batch, count, created));
  }

  lemma ChunkIsSound(naming: Naming, start: Endpoint, e: Endpoint, i: nat, size: int)
    requires Sound(naming, start, e) && i < |e.batches|
    ensures ApplyChunk(naming, e, i, size).Some? ==> Sound(naming, start, ApplyChunk(naming, e, i, size).value)
  {
    hide Replay, WriteChunk, Refines, InOrder, KeysAreUnique, RequestFits;
    var batch := e.batches[i];
    var left := |batch.request.records| - batch.processed;
    var count := if ChunkLimit(size) < left then ChunkLimit(size) else left;
    var after := ApplyChunk(naming, e, i, size);
    if after.Some? {
      if count == 0 { ChunkFinishes(naming, start, e, i); }
      else { ChunkAdvances(naming, start, e, i, count, after.value.schema, after.value.grid); }
    }
  }

  // ---- runs -------------------------------------------------------------------

  datatype Event =
    | StageRequest(request: Request)
    | Claim(batch: nat)
    | Chunk(batch: nat, size: int)
    | Failure(batch: nat, retrying: bool)

  function Step(naming: Naming, e: Endpoint, event: Event): Endpoint
    requires AllSound(e.batches)
  {
    match event
    case StageRequest(request) => Stage(e, request).0
    case Claim(i) => if i < |e.batches| then MarkRunning(e, i).0 else e
    case Chunk(i, size) => if i < |e.batches| then ApplyChunk(naming, e, i, size).GetOr(e) else e
    case Failure(i, retrying) => if i < |e.batches| then WorkerFailure(e, i, retrying) else e
  }

  lemma StepIsSound(naming: Naming, start: Endpoint, e: Endpoint, event: Event)
    requires Sound(naming, start, e)
    ensures Sound(naming, start, Step(naming, e, event))
  {
    hide Sound, Stage, MarkRunning, ApplyChunk, WorkerFailure;
    SoundIsAllSound(naming, start, e);
    match event
    case StageRequest(request) => StageIsSound(naming, start, e, request);
    case Claim(i) => if i < |e.batches| { MarkRunningIsSound(naming, start, e, i); }
    case Chunk(i, size) => if i < |e.batches| { ChunkIsSound(naming, start, e, i, size); }
    case Failure(i, retrying) => if i < |e.batches| { WorkerFailureIsSound(naming, start, e, i, retrying); }
  }

  lemma SoundIsAllSound(naming: Naming, start: Endpoint, e: Endpoint)
    requires Sound(naming, start, e)
    ensures AllSound(e.batches)
  {
  }

  ghost predicate IsRun(naming: Naming, states: seq<Endpoint>, events: seq<Event>) {
    |states| == |events| + 1 &&
    forall k :: 0 <= k < |events| ==> AllSound(states[k].batches) && states[k + 1] == Step(naming, states[k], events[k])
  }

  ghost predicate StartsEmpty(e: Endpoint) {
    e.batches == [] && GridIsSound(e.grid)
  }

  /** Whatever is staged, claimed, retried and however it is chunked, the table
      is what the accepted records make of it one by one. */
  lemma {:induction false} EveryRunIsSound(naming: Naming, states: seq<Endpoint>, events: seq<Event>)
    requires IsRun(naming, states, events) && StartsEmpty(states[0])
    ensures Sound(naming, states[0], states[|events|])
  {
    hide Step;
    if events == [] {
      assert History([]) == [];
    } else {
      var n := |events| - 1;
      EveryRunIsSound(naming, states[..n + 1], events[..n]);
      StepIsSound(naming, states[0], states[n], events[n]);
    }
  }

  lemma AtMostOneRuns(naming: Naming, start: Endpoint, e: Endpoint, i: nat, j: nat)
    requires Sound(naming, start, e) && i < |e.batches| && j < |e.batches|
    requires e.batches[i].status == Running && e.batches[j].status == Running
    ensures i == j
  {
    hide Refines;
  }

  /** All requests as one stream of records. */
  function Everything(batches: seq<Batch>): seq<Push> {
    if batches == [] then []
    else
      var request := batches[|batches| - 1].request;
      Everything(batches[..|batches| - 1]) + Pushes(request, 0, |request.records|)
  }

  lemma {:induction false} SucceededHistory(batches: seq<Batch>)
    requires AllSound(batches) && forall i :: 0 <= i < |batches| ==> batches[i].status == Succeeded
    ensures History(batches) == Everything(batches)
  {
    hide RequestFits;
    if batches != [] { SucceededHistory(batches[..|batches| - 1]); }
  }

  /** Two endpoints that accepted the same requests and finished them all hold
      the same table, however differently they were chunked, retried and
      interrupted. */
  lemma ChunkingIsInvisible(naming: Naming, start: Endpoint, a: Endpoint, b: Endpoint)
    requires Sound(naming, start, a) && Sound(naming, start, b)
    requires |a.batches| == |b.batches| && forall i :: 0 <= i < |a.batches| ==>
               a.batches[i].request == b.batches[i].request
    requires forall i :: 0 <= i < |a.batches| ==> a.batches[i].status == Succeeded && b.batches[i].status == Succeeded
    ensures a.schema == b.schema && a.grid == b.grid
    ensures Replay(naming, start.schema, start.grid, Everything(a.batches)) == Some((a.schema, a.grid))
  {
    hide Replay, GridIsSound;
    SucceededHistory(a.batches);
    SucceededHistory(b.batches);
    SameRequests(a.batches, b.batches);
  }

  lemma {:induction false} SameRequests(a: seq<Batch>, b: seq<Batch>)
    requires |a| == |b| && forall i :: 0 <= i < |a| ==> a[i].request == b[i].request
    ensures Everything(a) == Everything(b)
  {
    if a != [] { SameRequests(a[..|a| - 1], b[..|b| - 1]); }
  }

  /** Delivering a request again changes nothing and names the first delivery. */
  lemma ReplayedRequestChangesNothing(e: Endpoint, request: Request)
    requires KeysAreUnique(e.batches)
    ensures var (once, result) := Stage(e, request);
            result == Created ==> Stage(once, request) == (once, Replayed(|e.batches|))
    ensures var (once, result) := Stage(e, request);
            result != Created ==> once == e
  {
  }

  /** Some open batch can always be claimed: the earliest one. */
  lemma EarliestOpenBatchIsReady(e: Endpoint, i: nat)
    requires i < |e.batches| && IsOpen(e.batches[i].status)
    ensures exists j :: 0 <= j <= i && IsOpen(e.batches[j].status) && MarkRunning(e, j).1 == Ready
    decreases i
  {
    if HasEarlierOpen(e.batches, i) {
      var j :| 0 <= j < |e.batches| && j < i && IsOpen(e.batches[j].status);
      EarliestOpenBatchIsReady(e, j);
    } else {
      assert MarkRunning(e, i).1 == Ready;
    }
  }
}
