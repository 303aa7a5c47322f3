/** The ingestion transactions statement by statement, over an endpoint and its
    table (packages/db/src/ingestion.ts:191-276, 331-743). */
module IngestionEndpoint {
  import opened Collections
  import opened IngestionMapping
  import opened Upsert
  import opened ChunkUpsert
  import opened Ingestion
  import opened TableWriter

  datatype ChunkResult = Aborted | Applied | Done

  class IngestionEndpoint {
    const table: TableWriter
    var batches: seq<Batch>

    constructor (naming: Naming, columns: seq<Column>)
      ensures fresh(table) && table.naming == naming
      ensures State() == Endpoint([], Schema(columns, []), Grid(map[], map[], 0, []))
      ensures Sound(naming, State(), State())
    {
      table := new TableWriter(naming, columns);
      batches := [];
      new;
      assert History([]) == [];
    }

    function State(): Endpoint
      reads this, table
    {
      Endpoint(batches, table.SchemaState(), table.TableState())
    }

    method StageIngestionBatch(request: Request, ghost start: Endpoint) returns (result: StageResult)
      requires Sound(table.naming, start, State())
      modifies this`batches
      ensures (State(), result) == Stage(old(State()), request)
      ensures Sound(table.naming, start, State())
    {
      StageIsSound(table.naming, start, State(), request);
      hide Sound;
      var existing := FindKey(batches, request.idempotencyKey);
      if existing.Some? {
        return if batches[existing.value].request.digest == request.digest then Replayed(existing.value) else Conflict;
      }
      if !RequestFits(request) { return Rejected; }
      batches := batches + [Batch(request, 0, 0, 0, Queued, 0)];
      return Created;
    }

    method MarkIngestionBatchRunning(i: nat, ghost start: Endpoint) returns (result: ClaimResult)
      requires Sound(table.naming, start, State()) && i < |batches|
      modifies this`batches
      ensures (State(), result) == MarkRunning(old(State()), i)
      ensures Sound(table.naming, start, State())
    {
      MarkRunningIsSound(table.naming, start, State(), i);
      hide Sound;
      match batches[i].status
      case Succeeded => return AlreadySucceeded;
      case Cancelled => return AlreadyCancelled;
      case Failed => return CannotStart;
      case _ =>
        var j := 0;
        while j < i
          invariant 0 <= j <= i
          invariant forall k :: 0 <= k < j ==> !IsOpen(batches[k].status)
        {
          if IsOpen(batches[j].status) { return Waiting; }
          j := j + 1;
        }
        batches := batches[i := batches[i].(attempt := batches[i].attempt + 1, status := Running)];
        return Ready;
    }

    method SetWorkerFailure(i: nat, retrying: bool, ghost start: Endpoint)
      requires Sound(table.naming, start, State()) && i < |batches|
      modifies this`batches
      ensures State() == WorkerFailure(old(State()), i, retrying)
      ensures Sound(table.naming, start, State())
    {
      WorkerFailureIsSound(table.naming, start, State(), i, retrying);
      hide Sound;
      if IsOpen(batches[i].status) {
        batches := batches[i := batches[i].(status := if retrying then Queued else Failed)];
      }
    }

    // ---- applying a chunk -----------------------------------------------------

    /** applyIngestionBatchChunk; an abort rolls everything back. */
    method ApplyIngestionBatchChunk(i: nat, size: int, ghost start: Endpoint) returns (result: ChunkResult)
      requires Sound(table.naming, start, State()) && i < |batches|
      modifies this, table
      ensures result == Aborted <==> ApplyChunk(table.naming, old(State()), i, size).None?
      ensures State() == ApplyChunk(table.naming, old(State()), i, size).GetOr(old(State()))
      ensures Sound(table.naming, start, State())
      ensures result == Done ==> batches[i].status == Succeeded
    {
      hide ApplyChunk, Sound;
      ghost var before := State();
      ChunkIsSound(table.naming, start, before, i, size);
      SoundParts(table.naming, start, before, i);
      result := ChunkTransaction(i, size);
    }

    method ChunkTransaction(i: nat, size: int) returns (result: ChunkResult)
      requires i < |batches| && BatchIsSound(batches[i]) && GridIsSound(table.TableState())
      modifies this, table
      ensures result == Aborted <==> ApplyChunk(table.naming, old(State()), i, size).None?
      ensures State() == ApplyChunk(table.naming, old(State()), i, size).GetOr(old(State()))
      ensures result == Done ==> i < |batches| && batches[i].status == Succeeded
    {
      hide WriteChunk, NewCount, RequestFits, GridIsSound, KeysAreDistinct;
      var batch := batches[i];
      if batch.status != Running { return Aborted; }
      var count := StagedCount(i, size);
      if count == 0 {
        batches := batches[i := batch.(status := Succeeded)];
        return Done;
      }
      var pushes := Pushes(batch.request, batch.processed, batch.processed + count);
      PushesAreDistinct(batch.request, batch.processed, batch.processed + count);
      var created := table.WriteRecords(batch.request.fields, pushes);
      if created.None? { return Aborted; }
      batches := batches[i := Advance(batch, count, created.value)];
      return Applied;
    }

    lemma SoundParts(naming: Naming, start: Endpoint, e: Endpoint, i: nat)
      requires Sound(naming, start, e) && i < |e.batches|
      ensures GridIsSound(e.grid) && BatchIsSound(e.batches[i])
    {
    }

    method StagedCount(i: nat, size: int) returns (count: nat)
      requires i < |batches| && batches[i].processed <= |batches[i].request.records|
      ensures count == var left := |batches[i].request.records| - batches[i].processed;
                       if ChunkLimit(size) < left then ChunkLimit(size) else left
    {
      var left := |batches[i].request.records| - batches[i].processed;
      count := if ChunkLimit(size) < left then ChunkLimit(size) else left;
    }
  }
}
