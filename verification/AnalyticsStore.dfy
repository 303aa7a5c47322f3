/** The purge, projection and erasure transactions as updates of fields
    (packages/db/src/workspaces.ts:239-269; packages/db/src/analytics.ts:166-316;
    apps/analytics-projector/src/projector.ts:48-142). */
module AnalyticsStore {
  import opened Collections
  import opened Leases
  import opened AnalyticsErasure

  class AnalyticsStore {
    const timing: Timing
    var now: int
    var alive: set<WorkspaceId>
    var receipts: map<WorkspaceId, Item>
    var tasks: map<nat, Task>
    var erasers: map<nat, Eraser>
    var stored: set<Row>

    constructor (timing: Timing, now: int)
      ensures this.timing == timing && State() == Initial(now)
      ensures Sound(State(), timing) && CheckedInThePast(State())
    {
      this.timing, this.now := timing, now;
      alive, receipts, tasks, erasers, stored := {}, map[], map[], map[], {};
    }

    function State(): System
      reads this
    {
      System(now, alive, receipts, tasks, erasers, stored)
    }

    /** What every step below needs and keeps. */
    ghost predicate Valid()
      reads this
    {
      Sound(State(), timing) && CheckedInThePast(State()) && TimingFits(timing) &&
      timing.latency + timing.delay <= GRACE
    }

    /** purgeWorkspace: the receipt, then the cascading delete. */
    method PurgeWorkspace(w: WorkspaceId, purgedAt: int)
      requires Valid() && Enabled(State(), timing, Purge(w, purgedAt))
      modifies this`alive, this`receipts
      ensures State() == AnalyticsErasure.Step(old(State()), Purge(w, purgedAt)) && Valid()
    {
      StepIsSound(State(), timing, Purge(w, purgedAt));
      hide Sound;
      receipts := receipts[w := Item(true, purgedAt, false, None, None, 0)];
      alive := alive - {w};
    }

    /** listPurgedAnalyticsWorkspaceIds and the filter behind it. */
    method CheckPurgedWorkspaces(t: nat)
      requires Valid() && Enabled(State(), timing, CheckPurged(t))
      modifies this`tasks
      ensures State() == AnalyticsErasure.Step(old(State()), CheckPurged(t)) && Valid()
    {
      StepIsSound(State(), timing, CheckPurged(t));
      hide Sound;
      var rows := tasks[t].rows;
      var eligible := [];
      var i := 0;
      while i < |rows|
        invariant 0 <= i <= |rows|
        invariant eligible == Unpurged(rows[..i], receipts)
      {
        assert rows[..i + 1][..i] == rows[..i];
        if rows[i].workspaceId !in receipts { eligible := eligible + [rows[i]]; }
        i := i + 1;
      }
      assert rows[..i] == rows;
      tasks := tasks[t := CheckedTask(eligible, now)];
    }

    /** The analytics store receives a checked batch. */
    method InsertRows(t: nat)
      requires Valid() && Enabled(State(), timing, Insert(t))
      modifies this`stored
      ensures State() == AnalyticsErasure.Step(old(State()), Insert(t)) && Valid()
      ensures forall w :: w in receipts && receipts[w].done ==> IsAbsent(State(), w)
    {
      StepIsSound(State(), timing, Insert(t));
      hide InTime, CarriersCheckedEarly, ErasersAreRipe, CheckedInThePast;
      stored := stored + Elements(tasks[t].rows);
    }

    /** claimWorkspaceAnalyticsErasures for one receipt. */
    method ClaimWorkspaceErasure(e: nat, w: WorkspaceId, claimId: ClaimId, at: int, leaseSeconds: int,
                                 graceSeconds: int) returns (claimed: bool)
      requires Valid() && e !in erasers && w in receipts && at <= now
      modifies this`receipts, this`erasers
      ensures claimed <==> Enabled(old(State()), timing, ClaimErasure(e, w, claimId, at, leaseSeconds, graceSeconds))
      ensures State() ==
              if claimed
              then AnalyticsErasure.Step(old(State()), ClaimErasure(e, w, claimId, at, leaseSeconds, graceSeconds))
              else old(State())
      ensures Valid()
    {
      var request := ErasureRequest(claimId, at, leaseSeconds, graceSeconds);
      if !Wants(receipts[w], request) { return false; }
      StepIsSound(State(), timing, ClaimErasure(e, w, claimId, at, leaseSeconds, graceSeconds));
      hide Sound;
      receipts := receipts[w := Grant(receipts[w], request)];
      erasers := erasers[e := Eraser(w, claimId, false)];
      return true;
    }

    /** The analytics store deletes every row of the workspace. */
    method EraseWorkspace(e: nat)
      requires Valid() && e in erasers
      modifies this`stored, this`erasers
      ensures State() == AnalyticsErasure.Step(old(State()), Wipe(e)) && Valid()
    {
      StepIsSound(State(), timing, Wipe(e));
      hide Sound;
      stored := set r | r in stored && r.workspaceId != erasers[e].workspaceId;
      erasers := erasers[e := erasers[e].(wiped := true)];
    }

    /** completeWorkspaceAnalyticsErasure; false is its conflict error. */
    method CompleteWorkspaceErasure(e: nat) returns (completed: bool)
      requires Valid() && Enabled(State(), timing, CompleteErasure(e))
      modifies this`receipts
      ensures State() == AnalyticsErasure.Step(old(State()), CompleteErasure(e)) && Valid()
      ensures completed ==> erasers[e].workspaceId in receipts && receipts[erasers[e].workspaceId].done &&
                            IsAbsent(State(), erasers[e].workspaceId) && NobodyCarries(State(), erasers[e].workspaceId)
    {
      StepIsSound(State(), timing, CompleteErasure(e));
      var w := erasers[e].workspaceId;
      if w !in receipts || !Holds(receipts[w], erasers[e].claimId) { return false; }
      receipts := receipts[w := Finish(receipts[w])];
      RipeIsCarriedByNobody(State(), timing, w);
      return true;
    }

    /** retryWorkspaceAnalyticsErasure; false is its conflict error. */
    method RetryWorkspaceErasure(e: nat, retryAt: int) returns (retried: bool)
      requires Valid() && e in erasers
      modifies this`receipts
      ensures State() == AnalyticsErasure.Step(old(State()), RetryErasure(e, retryAt)) && Valid()
    {
      StepIsSound(State(), timing, RetryErasure(e, retryAt));
      hide Sound;
      var w := erasers[e].workspaceId;
      if w !in receipts || !Holds(receipts[w], erasers[e].claimId) { return false; }
      receipts := receipts[w := Release(receipts[w], retryAt)];
      return true;
    }
  }
}
