/** What staging, claiming, applying and failing pushed batches do, read from the
    requests, the batches and the record keys alone
    (packages/db/src/ingestion.ts:191-276, 331-743). */
module IngestionOutcomes {
  import opened Collections
  import opened IngestionMapping
  import opened Upsert
  import opened ChunkUpsert
  import opened Ingestion

  // ---- staging ----------------------------------------------------------------

  /** Between one and a thousand records under separate keys, and between one and
      a hundred fields. */
  ghost predicate IsStageable(request: Request) {
    1 <= |request.records| <= 1_000 && 1 <= |request.fields| <= 100 &&
    forall i, j :: 0 <= i < |request.records| && 0 <= j < |request.records| && i != j ==>
      request.records[i].key != request.records[j].key
  }

  ghost predicate IsKnownAt(e: Endpoint, request: Request, i: nat) {
    i < |e.batches| && e.batches[i].request.idempotencyKey == request.idempotencyKey
  }

  /** A request whose idempotency key is new becomes one more queued batch if it
      is stageable and is rejected otherwise; one whose key is known names the
      batch that has it, or conflicts when its content differs. */
  lemma StagingIsExact(e: Endpoint, request: Request, i: nat)
    requires KeysAreUnique(e.batches) && i <= |e.batches|
    requires if i < |e.batches| then IsKnownAt(e, request, i) else forall j :: !IsKnownAt(e, request, j)
    ensures var (after, result) := Stage(e, request);
            if i < |e.batches| then
              after == e && result == (if e.batches[i].request.digest == request.digest then Replayed(i) else Conflict)
            else if !IsStageable(request) then after == e && result == Rejected
            else
              result == Created && after == e.(batches := after.batches) && |after.batches| == i + 1 &&
              after.batches[..i] == e.batches && after.batches[i].request == request &&
              after.batches[i].status == Queued && after.batches[i].processed == 0 && after.batches[i].attempt == 0
  {
    var found := FindKey(e.batches, request.idempotencyKey);
    if found.Some? && i == |e.batches| { assert IsKnownAt(e, request, found.value); }
  }

  // ---- claiming and failing ---------------------------------------------------

  ghost predicate IsUnderWay(batch: Batch) {
    batch.status == Queued || batch.status == Running
  }

  ghost predicate IsFirstUnderWay(e: Endpoint, i: nat)
    requires i < |e.batches|
  {
    IsUnderWay(e.batches[i]) && forall j :: 0 <= j < i ==> !IsUnderWay(e.batches[j])
  }

  /** A batch is claimed exactly when it is the first one under way, as one more
      attempt; it waits exactly when it is under way but not the first. */
  lemma ClaimIsExact(e: Endpoint, i: nat)
    requires i < |e.batches|
    ensures var (after, result) := MarkRunning(e, i);
            (result == Ready <==> IsFirstUnderWay(e, i)) &&
            (result == Waiting <==> IsUnderWay(e.batches[i]) && !IsFirstUnderWay(e, i)) &&
            (result == AlreadySucceeded <==> e.batches[i].status == Succeeded) &&
            (result == CannotStart <==> e.batches[i].status == Failed) &&
            after == if IsFirstUnderWay(e, i)
                     then e.(batches := e.batches[i := e.batches[i].(status := Running,
                                                                     attempt := e.batches[i].attempt + 1)])
                     else e
  {
    if HasEarlierOpen(e.batches, i) {
      var j :| 0 <= j < |e.batches| && j < i && IsOpen(e.batches[j].status);
      assert IsUnderWay(e.batches[j]);
    }
  }

  /** After a failure to be retried a claimed batch can be claimed again and goes
      on behind the records it has applied; after the last one it can neither be
      claimed nor apply a record, and the batches behind it no longer wait. */
  lemma FailureMeans(naming: Naming, e: Endpoint, i: nat, retrying: bool, size: int)
    requires AllSound(e.batches) && i < |e.batches| && IsFirstUnderWay(e, i)
    ensures var after := WorkerFailure(e, i, retrying);
            after == e.(batches := e.batches[i := after.batches[i]]) &&
            after.batches[i].request == e.batches[i].request && after.batches[i].processed == e.batches[i].processed &&
            if retrying then MarkRunning(after, i).1 == Ready
            else
              MarkRunning(after, i) == (after, CannotStart) && ApplyChunk(naming, after, i, size).None? &&
              forall j :: i < j < |e.batches| && IsUnderWay(e.batches[j]) &&
                          (forall k :: i < k < j ==> !IsUnderWay(e.batches[k])) ==>
                MarkRunning(after, j).1 == Ready
  {
    hide WriteChunk;
    var after := WorkerFailure(e, i, retrying);
    if retrying {
      ClaimIsExact(after, i);
    } else {
      forall j | i < j < |e.batches| && IsUnderWay(e.batches[j]) &&
                 (forall k :: i < k < j ==> !IsUnderWay(e.batches[k]))
        ensures MarkRunning(after, j).1 == Ready
      {
        ClaimIsExact(after, j);
      }
    }
  }

  lemma EndedBatchesStay(e: Endpoint, i: nat, retrying: bool)
    requires i < |e.batches| && !IsUnderWay(e.batches[i])
    ensures WorkerFailure(e, i, retrying) == e
  {
  }

  // ---- one chunk --------------------------------------------------------------

  /** How many of the records left a chunk takes: the asked number, at least one
      and at most a thousand. */
  ghost predicate IsChunkSize(size: int, left: nat, count: nat) {
    1 <= count <= left && count <= 1_000 && (count > 1 ==> count <= size) &&
    (count == left || count == 1_000 || count >= size)
  }

  /** The batch's records behind the applied ones, as pushes. */
  ghost predicate IsNextSlice(batch: Batch, pushes: seq<Push>) {
    batch.processed + |pushes| <= |batch.request.records| &&
    forall k :: 0 <= k < |pushes| ==>
      pushes[k] == Push(batch.request.fields, batch.request.records[batch.processed + k], false)
  }

  lemma SliceIsUnique(batch: Batch, pushes: seq<Push>)
    requires IsNextSlice(batch, pushes)
    ensures pushes == Pushes(batch.request, batch.processed, batch.processed + |pushes|)
  {
  }

  /** A batch that moved on by `count` records, `known` of them under known keys. */
  ghost predicate MovesOn(before: Batch, after: Batch, count: nat, known: nat) {
    after.request == before.request && after.status == before.status && after.attempt == before.attempt &&
    after.processed == before.processed + count && after.updated == before.updated + known &&
    after.created + known == before.created + count
  }

  /** A chunk of a running batch takes its next records and is aborted exactly
      when replaying them one by one is; otherwise the table is the replayed one
      and the batch moves on behind them, counting the known keys as updated and
      the others as created. */
  lemma ChunkIsExact(naming: Naming, start: Endpoint, e: Endpoint, i: nat, size: int, pushes: seq<Push>)
    requires Sound(naming, start, e) && i < |e.batches| && e.batches[i].status == Running
    requires e.batches[i].processed < |e.batches[i].request.records|
    requires IsNextSlice(e.batches[i], pushes)
    requires IsChunkSize(size, |e.batches[i].request.records| - e.batches[i].processed, |pushes|)
    ensures var batch, after := e.batches[i], ApplyChunk(naming, e, i, size);
            var replayed := Replay(naming, e.schema, e.grid, pushes);
            (after.Some? <==> replayed.Some?) &&
            (after.Some? ==>
               (after.value.schema, after.value.grid) == replayed.value &&
               after.value.batches == e.batches[i := after.value.batches[i]] &&
               MovesOn(batch, after.value.batches[i], |pushes|, |Keys(pushes) * e.grid.identities.Keys|))
  {
    hide Replay, WriteChunk, RequestFits, GridIsSound, KeysAreDistinct, NewCount, Keys;
    var batch := e.batches[i];
    SliceIsUnique(batch, pushes);
    PushesAreDistinct(batch.request, batch.processed, batch.processed + |pushes|);
    KnownKeysAreCounted(e.grid.identities, pushes);
    ChunkIsReplay(naming, e.schema, e.grid, batch.request.fields, pushes);
  }

  /** When no record is left the chunk only ends the batch. */
  lemma LastChunkEnds(naming: Naming, e: Endpoint, i: nat, size: int)
    requires AllSound(e.batches) && i < |e.batches|
    ensures var after := ApplyChunk(naming, e, i, size);
            (e.batches[i].status != Running ==> after.None?) &&
            (e.batches[i].status == Running && e.batches[i].processed == |e.batches[i].request.records| ==>
               after == Some(e.(batches := e.batches[i := e.batches[i].(status := Succeeded)])))
  {
    hide WriteChunk;
  }
}
