/** Erasing a purged workspace from the analytics store
    (packages/db/src/workspaces.ts:239-269; packages/db/src/analytics.ts:166-316;
    apps/analytics-projector/src/projector.ts:26-142).  Projectors check for
    purge receipts and insert later; the erasure waits out a grace period. */
module AnalyticsErasure {
  import opened Collections
  import opened Leases

  type WorkspaceId = nat
  type EventId = nat
  datatype Row = Row(workspaceId: WorkspaceId, eventId: EventId)

  /** WORKSPACE_ANALYTICS_ERASURE_GRACE_SECONDS, in milliseconds. */
  const GRACE: int := 3_600 * 1_000

  /** How slow the parts may be: an insert lands less than `latency` after its
      purge check, and a purge commits at most `delay` after its timestamp. */
  datatype Timing = Timing(latency: int, delay: int)

  predicate TimingFits(timing: Timing) {
    timing.latency > 0 && timing.delay >= 0
  }

  /** A projector's batch: claimed, or checked against the receipts. */
  datatype Task =
    | ClaimedTask(rows: seq<Row>)
    | CheckedTask(rows: seq<Row>, checkedAt: int)

  /** An eraser that claimed a receipt, and whether its wipe has run. */
  datatype Eraser = Eraser(workspaceId: WorkspaceId, claimId: ClaimId, wiped: bool)

  /** A receipt is a lease row: `since` is purgedAt, `done` is erased. */
  datatype System = System(now: int, alive: set<WorkspaceId>, receipts: map<WorkspaceId, Item>, tasks: map<nat, Task>,
                           erasers: map<nat, Eraser>, stored: set<Row>)

  // ---- steps ------------------------------------------------------------------

  datatype Event =
    | Tick(now: int)
    | CreateWorkspace(workspaceId: WorkspaceId)
    | Purge(workspaceId: WorkspaceId, purgedAt: int)
    | ClaimRows(task: nat, rows: seq<Row>)
    | CheckPurged(task: nat)
    | Insert(task: nat)
    | Drop(task: nat)
    | ClaimErasure(eraser: nat, workspaceId: WorkspaceId, claimId: ClaimId, now: int, leaseSeconds: int,
                   graceSeconds: int)
    | Wipe(eraser: nat)
    | CompleteErasure(eraser: nat)
    | RetryErasure(eraser: nat, retryAt: int)

  function Unpurged(rows: seq<Row>, receipts: map<WorkspaceId, Item>): seq<Row> {
    if rows == [] then []
    else
      var last := rows[|rows| - 1];
      Unpurged(rows[..|rows| - 1], receipts) + if last.workspaceId in receipts then [] else [last]
  }

  function ErasureRequest(claimId: ClaimId, now: int, leaseSeconds: int, graceSeconds: int): Request {
    var grace := if graceSeconds > 3_600 then graceSeconds else 3_600;
    Request(claimId, now, leaseSeconds, 1, 250, now - grace * 1_000)
  }

  ghost predicate InTime(s: System, timing: Timing, now: int) {
    forall t :: t in s.tasks && s.tasks[t].CheckedTask? ==> now < s.tasks[t].checkedAt + timing.latency
  }

  /** What may happen next.  The clock never passes a checked batch's deadline:
      by then it has been inserted or dropped. */
  ghost predicate Enabled(s: System, timing: Timing, event: Event) {
    match event
    case Tick(now) => s.now <= now && InTime(s, timing, now)
    case CreateWorkspace(w) => w !in s.alive && w !in s.receipts
    case Purge(w, purgedAt) => w in s.alive && purgedAt <= s.now <= purgedAt + timing.delay
    case ClaimRows(t, rows) => t !in s.tasks && forall i :: 0 <= i < |rows| ==> rows[i].workspaceId in s.alive
    case CheckPurged(t) => t in s.tasks && s.tasks[t].ClaimedTask?
    case Insert(t) => t in s.tasks && s.tasks[t].CheckedTask?
    case Drop(t) => t in s.tasks
    case ClaimErasure(e, w, claimId, now, leaseSeconds, graceSeconds) =>
      e !in s.erasers && w in s.receipts && now <= s.now &&
      Wants(s.receipts[w], ErasureRequest(claimId, now, leaseSeconds, graceSeconds))
    case Wipe(e) => e in s.erasers
    case CompleteErasure(e) => e in s.erasers && s.erasers[e].wiped
    case RetryErasure(e, _) => e in s.erasers
  }

  function WithReceipt(s: System, w: WorkspaceId, item: Item): System {
    s.(receipts := s.receipts[w := item])
  }

  function Step(s: System, event: Event): System {
    match event
    case Tick(now) => s.(now := now)
    case CreateWorkspace(w) => s.(alive := s.alive + {w})
    case Purge(w, purgedAt) => WithReceipt(s.(alive := s.alive - {w}), w, Item(true, purgedAt, false, None, None, 0))
    case ClaimRows(t, rows) => s.(tasks := s.tasks[t := ClaimedTask(rows)])
    case CheckPurged(t) =>
      if t !in s.tasks then s else s.(tasks := s.tasks[t := CheckedTask(Unpurged(s.tasks[t].rows, s.receipts), s.now)])
    case Insert(t) => if t !in s.tasks then s else s.(stored := s.stored + Elements(s.tasks[t].rows))
    case Drop(t) => s.(tasks := s.tasks - {t})
    case ClaimErasure(e, w, claimId, now, leaseSeconds, graceSeconds) =>
      if w !in s.receipts then s
      else WithReceipt(s.(erasers := s.erasers[e := Eraser(w, claimId, false)]), w,
                       Grant(s.receipts[w], ErasureRequest(claimId, now, leaseSeconds, graceSeconds)))
    case Wipe(e) =>
      if e !in s.erasers then s
      else s.(stored := (set r | r in s.stored && r.workspaceId != s.erasers[e].workspaceId),
              erasers := s.erasers[e := s.erasers[e].(wiped := true)])
    case CompleteErasure(e) =>
      if e in s.erasers && s.erasers[e].workspaceId in s.receipts &&
         Holds(s.receipts[s.erasers[e].workspaceId], s.erasers[e].claimId)
      then WithReceipt(s, s.erasers[e].workspaceId, Finish(s.receipts[s.erasers[e].workspaceId]))
      else s
    case RetryErasure(e, retryAt) =>
      if e in s.erasers && s.erasers[e].workspaceId in s.receipts &&
         Holds(s.receipts[s.erasers[e].workspaceId], s.erasers[e].claimId)
      then WithReceipt(s, s.erasers[e].workspaceId, Release(s.receipts[s.erasers[e].workspaceId], retryAt))
      else s
  }

  // ---- safety -----------------------------------------------------------------

  ghost predicate Carries(task: Task, w: WorkspaceId) {
    task.CheckedTask? && exists i :: 0 <= i < |task.rows| && task.rows[i].workspaceId == w
  }

  ghost predicate IsAbsent(s: System, w: WorkspaceId) {
    forall r :: r in s.stored ==> r.workspaceId != w
  }

  ghost predicate NobodyCarries(s: System, w: WorkspaceId) {
    forall t :: t in s.tasks ==> !Carries(s.tasks[t], w)
  }

  /** The grace period has passed for w, which is purged. */
  ghost predicate IsRipe(s: System, w: WorkspaceId) {
    w in s.receipts && s.receipts[w].since + GRACE <= s.now
  }

  /** A batch that carries a purged workspace was checked before the purge. */
  ghost predicate CarriersCheckedEarly(s: System, timing: Timing) {
    forall t, w :: t in s.tasks && w in s.receipts && Carries(s.tasks[t], w) ==>
      s.tasks[t].checkedAt <= s.receipts[w].since + timing.delay
  }

  ghost predicate ErasersAreRipe(s: System) {
    forall e :: e in s.erasers ==> IsRipe(s, s.erasers[e].workspaceId)
  }

  ghost predicate WipedStaysWiped(s: System) {
    (forall e :: e in s.erasers && s.erasers[e].wiped ==> IsAbsent(s, s.erasers[e].workspaceId)) &&
    (forall w :: w in s.receipts && s.receipts[w].done ==> IsRipe(s, w) && IsAbsent(s, w))
  }

  ghost predicate Sound(s: System, timing: Timing) {
    s.alive * s.receipts.Keys == {} && InTime(s, timing, s.now) && CarriersCheckedEarly(s, timing) &&
    ErasersAreRipe(s) && WipedStaysWiped(s)
  }

  /** When the delays fit the grace period, nobody carries a ripe workspace. */
  lemma RipeIsCarriedByNobody(s: System, timing: Timing, w: WorkspaceId)
    requires Sound(s, timing) && timing.latency + timing.delay <= GRACE && IsRipe(s, w)
    ensures NobodyCarries(s, w)
  {
    hide WipedStaysWiped, ErasersAreRipe;
    forall t | t in s.tasks ensures !Carries(s.tasks[t], w) {
      assert s.tasks[t].CheckedTask? ==> s.now < s.tasks[t].checkedAt + timing.latency;
    }
  }

  lemma {:induction false} UnpurgedRows(rows: seq<Row>, receipts: map<WorkspaceId, Item>)
    ensures forall r :: r in Unpurged(rows, receipts) <==> r in rows && r.workspaceId !in receipts
  {
    if rows != [] {
      var n := |rows| - 1;
      UnpurgedRows(rows[..n], receipts);
      assert rows == rows[..n] + [rows[n]];
    }
  }

  lemma TaskStepIsSound(s: System, timing: Timing, event: Event)
    requires Sound(s, timing) && Enabled(s, timing, event) && TimingFits(timing)
    requires event.ClaimRows? || event.CheckPurged? || event.Drop? || event.Tick? || event.CreateWorkspace?
    ensures Sound(Step(s, event), timing)
  {
    hide Wants, Unpurged;
    if event.CheckPurged? { UnpurgedRows(s.tasks[event.task].rows, s.receipts); }
    var after := Step(s, event);
    assert CarriersCheckedEarly(after, timing);
  }

  lemma InsertIsSound(s: System, timing: Timing, t: nat)
    requires Sound(s, timing) && Enabled(s, timing, Insert(t)) && timing.latency + timing.delay <= GRACE
    ensures Sound(Step(s, Insert(t)), timing)
  {
    hide Sound;
    var after := Step(s, Insert(t));
    forall w | IsRipe(s, w) && IsAbsent(s, w) ensures IsAbsent(after, w) {
      RipeIsCarriedByNobody(s, timing, w);
      assert !Carries(s.tasks[t], w);
    }
    InsertKeepsWiped(s, timing, t);
  }

  lemma InsertKeepsWiped(s: System, timing: Timing, t: nat)
    requires Sound(s, timing) && t in s.tasks
    requires forall w :: IsRipe(s, w) && IsAbsent(s, w) ==> IsAbsent(Step(s, Insert(t)), w)
    ensures Sound(Step(s, Insert(t)), timing)
  {
    hide Elements, IsAbsent;
    var after := Step(s, Insert(t));
    forall e | e in s.erasers && s.erasers[e].wiped ensures IsAbsent(after, s.erasers[e].workspaceId) {
      assert IsRipe(s, s.erasers[e].workspaceId);
    }
    forall w | w in s.receipts && s.receipts[w].done ensures IsAbsent(after, w) {
      assert IsRipe(s, w);
    }
  }

  lemma CarriersAreChecked(task: Task, w: WorkspaceId)
    requires Carries(task, w)
    ensures task.CheckedTask?
  {
  }

  lemma PurgeIsSound(s: System, timing: Timing, w: WorkspaceId, purgedAt: int)
    requires Sound(s, timing) && Enabled(s, timing, Purge(w, purgedAt)) && TimingFits(timing)
    requires CheckedInThePast(s)
    ensures Sound(Step(s, Purge(w, purgedAt)), timing)
  {
    hide Carries;
    assert w !in s.alive * s.receipts.Keys;
    var after := Step(s, Purge(w, purgedAt));
    forall t, v | t in s.tasks && v in after.receipts && Carries(s.tasks[t], v)
      ensures s.tasks[t].CheckedTask? && s.tasks[t].checkedAt <= after.receipts[v].since + timing.delay
    {
      CarriersAreChecked(s.tasks[t], v);
    }
    assert forall v :: v in s.receipts ==> v != w && after.receipts[v] == s.receipts[v];
  }

  ghost predicate CheckedInThePast(s: System) {
    forall t :: t in s.tasks && s.tasks[t].CheckedTask? ==> s.tasks[t].checkedAt <= s.now
  }

  ghost predicate OnlyLeaseChanges(before: Item, after: Item) {
    after.since == before.since && after.done == before.done
  }

  lemma ClaimErasureIsSound(s: System, timing: Timing, event: Event)
    requires Sound(s, timing) && Enabled(s, timing, event) && event.ClaimErasure?
    ensures Sound(Step(s, event), timing)
  {
    hide Carries, IsAbsent, StaleBefore, Limit, Clamp, InTime, CarriersCheckedEarly, WipedStaysWiped, ErasersAreRipe;
    var w := event.workspaceId;
    var item := Grant(s.receipts[w], ErasureRequest(event.claimId, event.now, event.leaseSeconds, event.graceSeconds));
    assert OnlyLeaseChanges(s.receipts[w], item) && IsRipe(s, w);
    var claimed := WithReceipt(s, w, item);
    ReceiptChangeIsSound(s, timing, w, item);
    NewEraserIsSound(claimed, timing, event.eraser, Eraser(w, event.claimId, false));
  }

  lemma NewEraserIsSound(s: System, timing: Timing, e: nat, eraser: Eraser)
    requires Sound(s, timing) && e !in s.erasers && !eraser.wiped && IsRipe(s, eraser.workspaceId)
    ensures Sound(s.(erasers := s.erasers[e := eraser]), timing)
  {
    hide Carries;
    SameStore(s, s.(erasers := s.erasers[e := eraser]));
  }

  lemma ReceiptChangeIsSound(s: System, timing: Timing, w: WorkspaceId, item: Item)
    requires Sound(s, timing) && w in s.receipts && item.since == s.receipts[w].since
    requires item.done ==> s.receipts[w].done || (IsRipe(s, w) && IsAbsent(s, w))
    ensures Sound(WithReceipt(s, w, item), timing)
  {
    hide Carries, IsAbsent;
    var after := WithReceipt(s, w, item);
    assert after.receipts.Keys == s.receipts.Keys;
    SameStore(s, after);
  }

  lemma LeaseStepIsSound(s: System, timing: Timing, event: Event)
    requires Sound(s, timing) && Enabled(s, timing, event)
    requires event.CompleteErasure? || event.RetryErasure?
    ensures Sound(Step(s, event), timing)
  {
    hide Carries, IsAbsent, InTime, CarriersCheckedEarly;
    var eraser := s.erasers[event.eraser];
    assert IsRipe(s, eraser.workspaceId);
    var w := eraser.workspaceId;
    if Holds(s.receipts[w], eraser.claimId) {
      ReceiptChangeIsSound(s, timing, w, if event.CompleteErasure? then Finish(s.receipts[w])
                                         else Release(s.receipts[w], event.retryAt));
    }
  }

  lemma SameStore(s: System, after: System)
    requires after.stored == s.stored
    ensures forall w :: IsAbsent(after, w) <==> IsAbsent(s, w)
  {
  }

  lemma WipeIsSound(s: System, timing: Timing, e: nat)
    requires Sound(s, timing) && Enabled(s, timing, Wipe(e))
    ensures Sound(Step(s, Wipe(e)), timing)
  {
    hide Carries;
    var after := Step(s, Wipe(e));
    forall w | IsAbsent(s, w) ensures IsAbsent(after, w) {}
    assert IsAbsent(after, s.erasers[e].workspaceId);
  }

  lemma StepIsSound(s: System, timing: Timing, event: Event)
    requires Sound(s, timing) && CheckedInThePast(s) && Enabled(s, timing, event)
    requires TimingFits(timing) && timing.latency + timing.delay <= GRACE
    ensures Sound(Step(s, event), timing) && CheckedInThePast(Step(s, event))
  {
    hide Sound;
    match event
    case Insert(t) => InsertIsSound(s, timing, t);
    case Purge(w, purgedAt) => PurgeIsSound(s, timing, w, purgedAt);
    case Wipe(e) => WipeIsSound(s, timing, e);
    case ClaimErasure(_, _, _, _, _, _) => ClaimErasureIsSound(s, timing, event);
    case CompleteErasure(_) => LeaseStepIsSound(s, timing, event);
    case RetryErasure(_, _) => LeaseStepIsSound(s, timing, event);
    case _ => TaskStepIsSound(s, timing, event);
  }

  // ---- runs -------------------------------------------------------------------

  function Initial(now: int): System {
    System(now, {}, map[], map[], map[], {})
  }

  ghost predicate IsRun(timing: Timing, states: seq<System>, events: seq<Event>) {
    |states| == |events| + 1 &&
    forall k :: 0 <= k < |events| ==>
      Enabled(states[k], timing, events[k]) && states[k + 1] == Step(states[k], events[k])
  }

  /** An erased workspace has no row in the store. */
  ghost predicate Erased(s: System) {
    forall w :: w in s.receipts && s.receipts[w].done ==> IsAbsent(s, w)
  }

  lemma {:induction false} EveryRunIsSound(timing: Timing, states: seq<System>, events: seq<Event>)
    requires IsRun(timing, states, events) && states[0] == Initial(states[0].now)
    requires TimingFits(timing) && timing.latency + timing.delay <= GRACE
    ensures Sound(states[|events|], timing) && CheckedInThePast(states[|events|])
  {
    hide Step, Enabled;
    if events != [] {
      var n := |events| - 1;
      EveryRunIsSound(timing, states[..n + 1], events[..n]);
      StepIsSound(states[n], timing, events[n]);
    }
  }

  /** Once an erasure is complete it stays complete. */
  lemma ErasureIsFinal(s: System, timing: Timing, event: Event, w: WorkspaceId)
    requires Sound(s, timing) && Enabled(s, timing, event)
    requires w in s.receipts && s.receipts[w].done
    ensures w in Step(s, event).receipts && Step(s, event).receipts[w].done
  {
    hide InTime, CarriersCheckedEarly, ErasersAreRipe, WipedStaysWiped;
    assert w !in s.alive * s.receipts.Keys;
  }

  ghost predicate IsSafe(timing: Timing) {
    forall states: seq<System>, events: seq<Event> ::
      IsRun(timing, states, events) && states[0] == Initial(states[0].now) ==> Erased(states[|events|])
  }

  /** The grace period suffices exactly when the insert latency and the time a
      purge takes to commit fit into it together. */
  lemma GraceSufficesIff(timing: Timing)
    requires TimingFits(timing)
    ensures IsSafe(timing) <==> timing.latency + timing.delay <= GRACE
  {
    hide Initial, Enabled, Step;
    if timing.latency + timing.delay <= GRACE {
      forall states: seq<System>, events: seq<Event> | IsRun(timing, states, events) &&
             states[0] == Initial(states[0].now)
        ensures Erased(states[|events|])
      {
        EveryRunIsSound(timing, states, events);
      }
    } else {
      LateInsertResurrects(timing);
    }
  }

  // ---- what arrives and what goes ---------------------------------------------

  /** A checked batch stores exactly the rows whose workspace had not been purged
      when it was checked. */
  lemma CheckedRowsArrive(s: System, t: nat, later: System, row: Row)
    requires t in s.tasks && t in later.tasks && later.tasks[t] == Step(s, CheckPurged(t)).tasks[t]
    ensures row in Step(later, Insert(t)).stored <==>
            row in later.stored || (row in s.tasks[t].rows && row.workspaceId !in s.receipts)
  {
    hide Unpurged;
    UnpurgedRows(s.tasks[t].rows, s.receipts);
  }

  /** A wipe removes the rows of its workspace and no others. */
  lemma WipeIsExact(s: System, e: nat, row: Row)
    requires e in s.erasers
    ensures row in Step(s, Wipe(e)).stored <==> row in s.stored && row.workspaceId != s.erasers[e].workspaceId
    ensures Step(s, Wipe(e)).erasers[e].wiped && Step(s, Wipe(e)).receipts == s.receipts
  {
  }

  /** A purged workspace can always be erased: once the grace period has passed
      and its receipt may be claimed, claiming, wiping and completing are enabled
      one after the other and leave it erased, and absent from the store. */
  lemma ErasureCanFinish(s: System, timing: Timing, w: WorkspaceId, e: nat, claimId: ClaimId, leaseSeconds: int)
    requires w in s.receipts && e !in s.erasers
    requires MayBeClaimed(s.receipts[w], Request(claimId, s.now, leaseSeconds, 1, 250, s.now - GRACE))
    ensures var claim := ClaimErasure(e, w, claimId, s.now, leaseSeconds, 3_600);
            var claimed := Step(s, claim);
            var wiped := Step(claimed, Wipe(e));
            var after := Step(wiped, CompleteErasure(e));
            Enabled(s, timing, claim) && Enabled(claimed, timing, Wipe(e)) &&
            Enabled(wiped, timing, CompleteErasure(e)) && after.receipts[w].done && IsAbsent(after, w) &&
            after.receipts[w].attempts == s.receipts[w].attempts + 1
  {
    hide MayBeClaimed, Wants;
    WantsMeans(s.receipts[w], Request(claimId, s.now, leaseSeconds, 1, 250, s.now - GRACE));
  }

  // ---- the run that escapes a short grace period ------------------------------

  function LateEvents(timing: Timing): seq<Event> {
    var late := if timing.delay > GRACE then timing.delay else GRACE;
    [CreateWorkspace(0), ClaimRows(0, [Row(0, 0)]), Tick(timing.delay), CheckPurged(0), Purge(0, 0), Tick(late),
     ClaimErasure(0, 0, 0, late, 300, 0), Wipe(0), CompleteErasure(0), Insert(0)]
  }

  /** The states of that run. */
  function LateState(timing: Timing, k: nat): System {
    var rows := [Row(0, 0)];
    var late := if timing.delay > GRACE then timing.delay else GRACE;
    var now := if k <= 2 then 0 else if k <= 5 then timing.delay else late;
    var purged := Item(true, 0, false, None, None, 0);
    var claimed := Item(true, 0, false, Some(Claim(0, late)), None, 1);
    System(now,
           if 1 <= k <= 4 then {0} else {},
           if k <= 4 then map[] else map[0 := if k <= 6 then purged else if k <= 8 then claimed else Finish(claimed)],
           if k <= 1 then map[] else map[0 := if k <= 3 then ClaimedTask(rows) else CheckedTask(rows, timing.delay)],
           if k <= 6 then map[] else map[0 := Eraser(0, 0, k >= 8)],
           if k == 10 then {Row(0, 0)} else {})
  }

  lemma LateInsertResurrects(timing: Timing)
    requires TimingFits(timing) && timing.latency + timing.delay > GRACE
    ensures exists states: seq<System>, events: seq<Event> ::
              IsRun(timing, states, events) && states[0] == Initial(states[0].now) && !Erased(states[|events|])
  {
    var events := LateEvents(timing);
    var states := seq(11, k requires 0 <= k < 11 => LateState(timing, k));
    forall k | 0 <= k < 10
      ensures Enabled(states[k], timing, events[k]) && states[k + 1] == Step(states[k], events[k])
    {
      if k < 5 { EarlyStep(timing, k); } else { LateStep(timing, k); }
    }
    assert IsRun(timing, states, events);
    assert Row(0, 0) in states[10].stored;
  }

  lemma OneRowIsKept()
    ensures Unpurged([Row(0, 0)], map[]) == [Row(0, 0)]
  {
    assert [Row(0, 0)][..0] == [];
  }

  lemma EarlyStep(timing: Timing, k: nat)
    requires TimingFits(timing) && k < 5
    ensures Enabled(LateState(timing, k), timing, LateEvents(timing)[k])
    ensures LateState(timing, k + 1) == Step(LateState(timing, k), LateEvents(timing)[k])
  {
    hide Wants, Unpurged;
    OneRowIsKept();
    assert {0} - {0} == {} && {} + {0} == {0};
  }

  lemma LateStep(timing: Timing, k: nat)
    requires TimingFits(timing) && timing.latency + timing.delay > GRACE && 5 <= k < 10
    ensures Enabled(LateState(timing, k), timing, LateEvents(timing)[k])
    ensures LateState(timing, k + 1) == Step(LateState(timing, k), LateEvents(timing)[k])
  {
    hide Unpurged;
    var late := if timing.delay > GRACE then timing.delay else GRACE;
    assert ErasureRequest(0, late, 300, 0).readyBefore == late - GRACE;
    assert Elements([Row(0, 0)]) == {Row(0, 0)} by { assert [Row(0, 0)][0] == Row(0, 0); }
    assert {} + {Row(0, 0)} == {Row(0, 0)};
    assert (set r | r in LateState(timing, 7).stored && r.workspaceId != 0) == {};
  }
}
