/** Expiring claims (packages/db/src/outbox-dispatch.ts:33-171; the same shape
    serves analytics projections and erasures,
    packages/db/src/analytics.ts:24-164, 180-316). */
module Leases {
  import opened Collections

  type ClaimId = nat

  /** Instants are milliseconds. */
  datatype Claim = Claim(id: ClaimId, at: int)

  /** What a lease needs of a row: whether its type is dispatched at all, the
      instant it must have reached (`since`), and the lease columns. */
  datatype Item = Item(dispatchable: bool, since: int, done: bool, claim: Option<Claim>, nextAttemptAt: Option<int>,
                       attempts: nat)

  /** What committed, in order. */
  datatype Entry =
    | Claimed(item: nat, claim: Claim, staleBefore: int)
    | Completed(item: nat, claimId: ClaimId)
    | Rescheduled(item: nat, claimId: ClaimId, retryAt: int)

  /** Rows in creation order, and the log. */
  datatype Table = Table(items: seq<Item>, log: seq<Entry>)

  // ---- transactions -----------------------------------------------------------

  function Clamp(value: int, least: int, greatest: int): (r: int)
    requires least <= greatest
    ensures least <= r <= greatest && (least <= value <= greatest ==> r == value)
  {
    var capped := if value < greatest then value else greatest;
    if capped > least then capped else least
  }

  function StaleBefore(now: int, leaseSeconds: int): int {
    now - Clamp(leaseSeconds, 30, 3_600) * 1_000
  }

  predicate IsEligible(item: Item, now: int, staleBefore: int, readyBefore: int) {
    item.dispatchable && item.since <= readyBefore && !item.done &&
    (item.nextAttemptAt.None? || item.nextAttemptAt.value <= now) &&
    (item.claim.None? || item.claim.value.at < staleBefore)
  }

  /** A batch's parameters, as passed by its dispatcher. */
  datatype Request = Request(claimId: ClaimId, now: int, leaseSeconds: int, limit: int, maximum: nat, readyBefore: int)

  predicate Wants(item: Item, request: Request) {
    IsEligible(item, request.now, StaleBefore(request.now, request.leaseSeconds), request.readyBefore)
  }

  function Limit(request: Request): nat {
    if request.maximum < 1 then 1 else Clamp(request.limit, 1, request.maximum)
  }

  function Grant(item: Item, request: Request): Item {
    item.(claim := Some(Claim(request.claimId, request.now)), nextAttemptAt := None, attempts := item.attempts + 1)
  }

  /** The first `limit` eligible rows get the claim; the count says how many. */
  function ClaimFirst(items: seq<Item>, request: Request): (r: (seq<Item>, seq<Entry>))
    ensures |r.0| == |items|
  {
    if items == [] then ([], [])
    else
      var n := |items| - 1;
      var (before, entries) := ClaimFirst(items[..n], request);
      if |entries| < Limit(request) && Wants(items[n], request) then
        (before + [Grant(items[n], request)],
         entries + [Claimed(n, Claim(request.claimId, request.now), StaleBefore(request.now, request.leaseSeconds))])
      else (before + [items[n]], entries)
  }

  function ClaimBatch(table: Table, request: Request): Table {
    var (items, entries) := ClaimFirst(table.items, request);
    Table(items, table.log + entries)
  }

  predicate Holds(item: Item, claimId: ClaimId) {
    item.claim.Some? && item.claim.value.id == claimId && !item.done
  }

  function Finish(item: Item): Item {
    item.(claim := None, nextAttemptAt := None, done := true)
  }

  function Release(item: Item, retryAt: int): Item {
    item.(claim := None, nextAttemptAt := Some(retryAt))
  }

  /** Completing one row; the caller throws when it no longer holds it. */
  function Complete(table: Table, i: nat, claimId: ClaimId): Table {
    if i < |table.items| && Holds(table.items[i], claimId) then
      Table(table.items[i := Finish(table.items[i])], table.log + [Completed(i, claimId)])
    else table
  }

  function Reschedule(table: Table, i: nat, claimId: ClaimId, retryAt: int): Table {
    if i < |table.items| && Holds(table.items[i], claimId) then
      Table(table.items[i := Release(table.items[i], retryAt)], table.log + [Rescheduled(i, claimId, retryAt)])
    else table
  }

  function Publish(table: Table, dispatchable: bool, since: int): Table {
    table.(items := table.items + [Item(dispatchable, since, false, None, None, 0)])
  }

  // ---- reading the log --------------------------------------------------------

  /** The claim the log leaves on a row. */
  ghost function Holder(log: seq<Entry>, i: nat): Option<Claim> {
    if log == [] then None
    else
      var last := log[|log| - 1];
      if last.item != i then Holder(log[..|log| - 1], i)
      else if last.Claimed? then Some(last.claim)
      else None
  }

  /** The instant the log asks a row's next attempt to wait for. */
  ghost function RetryAt(log: seq<Entry>, i: nat): Option<int> {
    if log == [] then None
    else
      var last := log[|log| - 1];
      if last.item != i then RetryAt(log[..|log| - 1], i)
      else if last.Rescheduled? then Some(last.retryAt)
      else None
  }

  ghost predicate IsFinished(log: seq<Entry>, i: nat) {
    exists k :: 0 <= k < |log| && log[k].item == i && log[k].Completed?
  }

  function ClaimCount(log: seq<Entry>, i: nat): nat {
    if log == [] then 0
    else ClaimCount(log[..|log| - 1], i) + if log[|log| - 1].item == i && log[|log| - 1].Claimed? then 1 else 0
  }

  /** An entry is in order after the log before it: a claim, under a lease of at
      least thirty seconds, takes a free or stale unfinished row whose retry
      instant has come, and only the holder completes or reschedules. */
  ghost predicate EntryFits(log: seq<Entry>, entry: Entry) {
    !IsFinished(log, entry.item) &&
    var holder := Holder(log, entry.item);
    if entry.Claimed? then
      entry.staleBefore <= entry.claim.at - 30_000 &&
      (holder.None? || holder.value.at < entry.staleBefore) &&
      (RetryAt(log, entry.item).None? || RetryAt(log, entry.item).value <= entry.claim.at)
    else holder.Some? && holder.value.id == entry.claimId
  }

  ghost predicate LogFits(log: seq<Entry>) {
    forall k :: 0 <= k < |log| ==> EntryFits(log[..k], log[k])
  }

  ghost predicate ItemAgrees(log: seq<Entry>, item: Item, i: nat) {
    item.claim == Holder(log, i) && item.nextAttemptAt == RetryAt(log, i) && (item.done <==> IsFinished(log, i)) &&
    item.attempts == ClaimCount(log, i)
  }

  ghost predicate Agrees(table: Table) {
    LogFits(table.log) &&
    (forall k :: 0 <= k < |table.log| ==>
     table.log[k].item < |table.items| && table.items[table.log[k].item].dispatchable) &&
    forall i :: 0 <= i < |table.items| ==> ItemAgrees(table.log, table.items[i], i)
  }

  // ---- every transaction agrees with the log ----------------------------------

  lemma Appended(log: seq<Entry>, entry: Entry, i: nat)
    ensures Holder(log + [entry], i) ==
            if entry.item != i then Holder(log, i) else if entry.Claimed? then Some(entry.claim) else None
    ensures RetryAt(log + [entry], i) ==
            if entry.item != i then RetryAt(log, i) else if entry.Rescheduled? then Some(entry.retryAt) else None
    ensures IsFinished(log + [entry], i) <==> IsFinished(log, i) || (entry.item == i && entry.Completed?)
    ensures ClaimCount(log + [entry], i) == ClaimCount(log, i) + if entry.item == i && entry.Claimed? then 1 else 0
  {
    var all := log + [entry];
    assert all[..|log|] == log;
    if IsFinished(log, i) {
      var k :| 0 <= k < |log| && log[k].item == i && log[k].Completed?;
      assert all[k] == log[k];
    }
    if entry.item == i && entry.Completed? { assert all[|log|] == entry; }
  }

  lemma AppendedFits(log: seq<Entry>, entry: Entry)
    requires LogFits(log) && EntryFits(log, entry)
    ensures LogFits(log + [entry])
  {
    var all := log + [entry];
    forall k | 0 <= k < |all| ensures EntryFits(all[..k], all[k]) {
      if k < |log| { assert all[..k] == log[..k]; } else { assert all[..k] == log; }
    }
  }

  /** One row and one entry at a time. */
  lemma OneEntryAgrees(table: Table, entry: Entry, item: Item)
    requires Agrees(table) && entry.item < |table.items| && EntryFits(table.log, entry)
    requires table.items[entry.item].dispatchable && item.dispatchable
    requires ItemAgrees(table.log + [entry], item, entry.item)
    ensures Agrees(Table(table.items[entry.item := item], table.log + [entry]))
  {
    hide Holder, RetryAt, IsFinished, ClaimCount, EntryFits;
    AppendedFits(table.log, entry);
    forall i | 0 <= i < |table.items| && i != entry.item ensures ItemAgrees(table.log + [entry], table.items[i], i) {
      Appended(table.log, entry, i);
      assert ItemAgrees(table.log, table.items[i], i);
    }
  }

  lemma GrantAgrees(table: Table, i: nat, request: Request)
    requires Agrees(table) && i < |table.items| && Wants(table.items[i], request)
    ensures Agrees(Table(table.items[i := Grant(table.items[i], request)],
                         table.log + [Claimed(i, Claim(request.claimId, request.now),
                                              StaleBefore(request.now, request.leaseSeconds))]))
  {
    hide Holder, RetryAt, IsFinished, ClaimCount;
    var entry := Claimed(i, Claim(request.claimId, request.now), StaleBefore(request.now, request.leaseSeconds));
    assert ItemAgrees(table.log, table.items[i], i);
    Appended(table.log, entry, i);
    OneEntryAgrees(table, entry, Grant(table.items[i], request));
  }

  lemma {:induction false} ClaimFirstAgrees(items: seq<Item>, rest: seq<Item>, log: seq<Entry>, request: Request)
    requires Agrees(Table(items + rest, log))
    ensures var (claimed, entries) := ClaimFirst(items, request);
            Agrees(Table(claimed + rest, log + entries))
  {
    hide Agrees, Wants, Grant, StaleBefore, Limit;
    if items == [] {
      assert log + [] == log;
    } else {
      var n := |items| - 1;
      assert items[..n] + ([items[n]] + rest) == items + rest;
      ClaimFirstAgrees(items[..n], [items[n]] + rest, log, request);
      var (before, entries) := ClaimFirst(items[..n], request);
      var all := before + ([items[n]] + rest);
      assert all[n] == items[n];
      if |entries| < Limit(request) && Wants(items[n], request) {
        GrantAgrees(Table(all, log + entries), n, request);
        assert all[n := Grant(items[n], request)] == before + [Grant(items[n], request)] + rest;
        var entry := Claimed(n, Claim(request.claimId, request.now), StaleBefore(request.now, request.leaseSeconds));
        assert log + entries + [entry] == log + (entries + [entry]);
      } else {
        assert all == before + [items[n]] + rest;
      }
    }
  }

  lemma ClaimBatchAgrees(table: Table, request: Request)
    requires Agrees(table)
    ensures Agrees(ClaimBatch(table, request))
  {
    hide Agrees;
    assert table.items + [] == table.items;
    ClaimFirstAgrees(table.items, [], table.log, request);
    assert ClaimFirst(table.items, request).0 + [] == ClaimFirst(table.items, request).0;
  }

  lemma HeldIsDispatchable(table: Table, i: nat)
    requires Agrees(table) && i < |table.items| && table.items[i].claim.Some?
    ensures table.items[i].dispatchable
  {
    assert ItemAgrees(table.log, table.items[i], i);
    HolderSpokeLast(table.log, i);
  }

  lemma CompleteAgrees(table: Table, i: nat, claimId: ClaimId)
    requires Agrees(table)
    ensures Agrees(Complete(table, i, claimId))
  {
    hide Holder, RetryAt, IsFinished, ClaimCount;
    if i < |table.items| && Holds(table.items[i], claimId) {
      assert ItemAgrees(table.log, table.items[i], i);
      HeldIsDispatchable(table, i);
      Appended(table.log, Completed(i, claimId), i);
      OneEntryAgrees(table, Completed(i, claimId), Finish(table.items[i]));
    }
  }

  lemma RescheduleAgrees(table: Table, i: nat, claimId: ClaimId, retryAt: int)
    requires Agrees(table)
    ensures Agrees(Reschedule(table, i, claimId, retryAt))
  {
    hide Holder, RetryAt, IsFinished, ClaimCount;
    if i < |table.items| && Holds(table.items[i], claimId) {
      assert ItemAgrees(table.log, table.items[i], i);
      HeldIsDispatchable(table, i);
      Appended(table.log, Rescheduled(i, claimId, retryAt), i);
      OneEntryAgrees(table, Rescheduled(i, claimId, retryAt), Release(table.items[i], retryAt));
    }
  }

  lemma {:induction false} UnmentionedIsUntouched(log: seq<Entry>, i: nat)
    requires forall k :: 0 <= k < |log| ==> log[k].item != i
    ensures Holder(log, i) == None && RetryAt(log, i) == None && !IsFinished(log, i) && ClaimCount(log, i) == 0
  {
    if log != [] { UnmentionedIsUntouched(log[..|log| - 1], i); }
  }

  lemma PublishAgrees(table: Table, dispatchable: bool, since: int)
    requires Agrees(table)
    ensures Agrees(Publish(table, dispatchable, since))
  {
    hide Holder, RetryAt, IsFinished, ClaimCount, EntryFits;
    UnmentionedIsUntouched(table.log, |table.items|);
  }

  // ---- all interleavings ------------------------------------------------------

  datatype Event =
    | PublishEvent(dispatchable: bool, since: int)
    | ClaimEvent(request: Request)
    | CompleteEvent(item: nat, claimId: ClaimId)
    | RescheduleEvent(item: nat, claimId: ClaimId, retryAt: int)

  function Step(table: Table, event: Event): Table {
    match event
    case PublishEvent(dispatchable, since) => Publish(table, dispatchable, since)
    case ClaimEvent(request) => ClaimBatch(table, request)
    case CompleteEvent(i, claimId) => Complete(table, i, claimId)
    case RescheduleEvent(i, claimId, retryAt) => Reschedule(table, i, claimId, retryAt)
  }

  function RunAll(events: seq<Event>): Table {
    if events == [] then Table([], []) else Step(RunAll(events[..|events| - 1]), events[|events| - 1])
  }

  lemma {:induction false} EveryRunAgrees(events: seq<Event>)
    ensures Agrees(RunAll(events))
  {
    hide Agrees, Publish, ClaimBatch, Complete, Reschedule;
    if events == [] {
      NothingAgrees();
    } else {
      var before := RunAll(events[..|events| - 1]);
      EveryRunAgrees(events[..|events| - 1]);
      match events[|events| - 1]
      case PublishEvent(dispatchable, since) => PublishAgrees(before, dispatchable, since);
      case ClaimEvent(request) => ClaimBatchAgrees(before, request);
      case CompleteEvent(i, claimId) => CompleteAgrees(before, i, claimId);
      case RescheduleEvent(i, claimId, retryAt) => RescheduleAgrees(before, i, claimId, retryAt);
    }
  }

  lemma NothingAgrees()
    ensures Agrees(Table([], []))
  {
  }

  // ---- what it means ----------------------------------------------------------

  ghost predicate SilentAbout(log: seq<Entry>, i: nat, from: nat, to: nat)
    requires to <= |log|
  {
    forall k :: from <= k < to ==> log[k].item != i
  }

  /** The holder's claim is the last thing the log says about the row. */
  ghost predicate LastWord(log: seq<Entry>, i: nat, claim: Claim, j: nat) {
    j < |log| && log[j].item == i && log[j].Claimed? && log[j].claim == claim && SilentAbout(log, i, j + 1, |log|)
  }

  lemma {:induction false} HolderSpokeLast(log: seq<Entry>, i: nat)
    requires Holder(log, i).Some?
    ensures exists j :: LastWord(log, i, Holder(log, i).value, j)
  {
    var n := |log| - 1;
    if log[n].item == i {
      assert LastWord(log, i, log[n].claim, n);
    } else {
      HolderSpokeLast(log[..n], i);
      var j :| LastWord(log[..n], i, Holder(log[..n], i).value, j);
      assert LastWord(log, i, Holder(log, i).value, j);
    }
  }

  /** Nothing happens to a row after its completion. */
  lemma CompletionIsFinal(log: seq<Entry>, j: nat)
    requires LogFits(log) && j < |log| && log[j].Completed?
    ensures SilentAbout(log, log[j].item, j + 1, |log|)
  {
    forall k | j < k < |log| ensures log[k].item != log[j].item {
      assert EntryFits(log[..k], log[k]);
      assert log[..k][j] == log[j];
    }
  }

  /** An event is published at most once, and only under its current claim:
      nothing happens to the event between that claim and the completion, and
      nothing afterwards. */
  lemma PublishedOnceUnderItsClaim(events: seq<Event>, k: nat)
    requires k < |RunAll(events).log| && RunAll(events).log[k].Completed?
    ensures var log := RunAll(events).log;
            (forall j :: 0 <= j < k && log[j].Completed? ==> log[j].item != log[k].item) &&
            SilentAbout(log, log[k].item, k + 1, |log|) &&
            exists j, claim: Claim :: claim.id == log[k].claimId && LastWord(log[..k], log[k].item, claim, j)
  {
    var log := RunAll(events).log;
    EveryRunAgrees(events);
    CompletionIsFinal(log, k);
    assert EntryFits(log[..k], log[k]);
    HolderSpokeLast(log[..k], log[k].item);
    var claim := Holder(log[..k], log[k].item).value;
    var j :| LastWord(log[..k], log[k].item, claim, j);
    forall l | 0 <= l < k && log[l].Completed? ensures log[l].item != log[k].item {
      CompletionIsFinal(log, l);
    }
  }

  /** Only rows of a dispatched type are ever claimed. */
  lemma OnlyDispatchedTypesAreClaimed(events: seq<Event>, k: nat)
    requires k < |RunAll(events).log|
    ensures var table := RunAll(events);
            table.log[k].item < |table.items| && table.items[table.log[k].item].dispatchable
  {
    EveryRunAgrees(events);
  }

  /** A rescheduled event is not claimed again before its retry instant. */
  lemma RetriesWait(events: seq<Event>, j: nat, k: nat)
    requires j < k < |RunAll(events).log|
    requires var log := RunAll(events).log;
             log[j].Rescheduled? && log[k].Claimed? && log[k].item == log[j].item &&
             SilentAbout(log, log[j].item, j + 1, k)
    ensures RunAll(events).log[j].retryAt <= RunAll(events).log[k].claim.at
  {
    hide RunAll;
    var log := RunAll(events).log;
    EveryRunAgrees(events);
    RetryAfter(log, j, k);
    assert EntryFits(log[..k], log[k]);
  }

  lemma {:induction false} RetryAfter(log: seq<Entry>, j: nat, k: nat)
    requires j < k <= |log| && log[j].Rescheduled? && SilentAbout(log, log[j].item, j + 1, k)
    ensures RetryAt(log[..k], log[j].item) == Some(log[j].retryAt)
  {
    var n := k - 1;
    assert log[..k][..n] == log[..n];
    if n > j { RetryAfter(log, j, n); }
  }

  /** Attempts count claims. */
  lemma AttemptsCountClaims(events: seq<Event>, i: nat)
    requires i < |RunAll(events).items|
    ensures RunAll(events).items[i].attempts == ClaimCount(RunAll(events).log, i)
  {
    EveryRunAgrees(events);
    assert ItemAgrees(RunAll(events).log, RunAll(events).items[i], i);
  }

  /** Claim instants never go back: dispatchers share a clock. */
  ghost predicate ClockAdvances(log: seq<Entry>) {
    forall j, k :: 0 <= j < k < |log| && log[j].Claimed? && log[k].Claimed? ==> log[j].claim.at <= log[k].claim.at
  }

  /** The claim of entry j was neither completed nor given back before k. */
  ghost predicate NotReleased(log: seq<Entry>, j: nat, k: nat)
    requires j < k < |log| && log[j].Claimed?
  {
    forall l :: j < l < k && log[l].item == log[j].item && !log[l].Claimed? ==> log[l].claimId != log[j].claim.id
  }

  lemma {:induction false} NextClaimFindsHolder(log: seq<Entry>, j: nat, k: nat)
    requires LogFits(log) && j < k < |log| && log[j].Claimed? && log[k].Claimed? && log[k].item == log[j].item
    requires NotReleased(log, j, k)
    ensures exists l :: j < l <= k && IsOvertaking(log, j, l)
    decreases k - j
  {
    var i := log[j].item;
    if l :| j < l < k && log[l].item == i {
      NextWordIsAClaim(log, j, k);
    } else {
      HolderAfter(log, j, k);
      assert EntryFits(log[..k], log[k]);
      assert IsOvertaking(log, j, k);
    }
  }

  /** Entry l is the next word about j's row, a claim that found j's stale. */
  ghost predicate IsOvertaking(log: seq<Entry>, j: nat, l: nat) {
    j < l < |log| && log[j].Claimed? && log[l].Claimed? && log[l].item == log[j].item &&
    log[j].claim.at < log[l].staleBefore
  }

  lemma {:induction false} HolderAfter(log: seq<Entry>, j: nat, k: nat)
    requires j < k <= |log| && log[j].Claimed? && SilentAbout(log, log[j].item, j + 1, k)
    ensures Holder(log[..k], log[j].item) == Some(log[j].claim)
  {
    var n := k - 1;
    assert log[..k][..n] == log[..n];
    if n > j { HolderAfter(log, j, n); }
  }

  lemma NextWordIsAClaim(log: seq<Entry>, j: nat, k: nat)
    requires LogFits(log) && j < k < |log| && log[j].Claimed? && NotReleased(log, j, k)
    requires exists l :: j < l < k && log[l].item == log[j].item
    ensures exists l :: j < l <= k && IsOvertaking(log, j, l)
  {
    var l := FirstWord(log, j, k);
    HolderAfter(log, j, l);
    assert EntryFits(log[..l], log[l]);
    assert IsOvertaking(log, j, l);
  }

  lemma {:induction false} FirstWord(log: seq<Entry>, j: nat, k: nat) returns (l: nat)
    requires j < k <= |log| && exists m :: j < m < k && log[m].item == log[j].item
    ensures j < l < k && log[l].item == log[j].item && SilentAbout(log, log[j].item, j + 1, l)
  {
    l :| j < l < k && log[l].item == log[j].item;
    if m :| j < m < l && log[m].item == log[j].item { l := FirstWord(log, j, l); }
  }

  /** Two claims on one event are never both alive: while the earlier one has
      not been given back, a later one is granted only after more than the
      granting dispatcher's lease, itself at least 30 seconds. */
  lemma ClaimsDoNotOverlap(events: seq<Event>, j: nat, k: nat)
    requires var log := RunAll(events).log;
             ClockAdvances(log) && LeasesAgree(log) &&
             j < k < |log| && log[j].Claimed? && log[k].Claimed? && log[k].item == log[j].item && NotReleased(log, j, k)
    ensures var log := RunAll(events).log;
            log[j].claim.at < log[k].staleBefore && log[j].claim.at + 30_000 < log[k].claim.at
  {
    hide RunAll, ItemAgrees, NotReleased;
    var log := RunAll(events).log;
    EveryRunAgrees(events);
    NextClaimFindsHolder(log, j, k);
    var l :| j < l <= k && IsOvertaking(log, j, l);
    assert EntryFits(log[..k], log[k]);
    if l < k { assert log[l].claim.at <= log[k].claim.at; }
  }

  /** All dispatchers use one lease length. */
  ghost predicate LeasesAgree(log: seq<Entry>) {
    forall j, k :: 0 <= j < |log| && 0 <= k < |log| && log[j].Claimed? && log[k].Claimed? ==>
      log[j].claim.at - log[j].staleBefore == log[k].claim.at - log[k].staleBefore
  }

  /** No identifier is drawn twice for one row. */
  ghost predicate ClaimsAreFresh(log: seq<Entry>) {
    forall j, k :: 0 <= j < k < |log| && log[j].Claimed? && log[k].Claimed? && log[j].item == log[k].item ==>
      log[j].claim.id != log[k].claim.id
  }

  ghost predicate IsReclaimed(log: seq<Entry>, j: nat, k: nat) {
    j < k < |log| && log[j].Claimed? && log[k].Claimed? && log[j].item == log[k].item
  }

  /** The log only grows. */
  lemma {:induction false} LogGrows(events: seq<Event>, later: seq<Event>)
    ensures RunAll(events).log <= RunAll(events + later).log
  {
    hide ClaimFirst, Holds;
    if later == [] {
      assert events + later == events;
    } else {
      var n := |later| - 1;
      LogGrows(events, later[..n]);
      assert (events + later)[..|events| + n] == events + later[..n];
    }
  }

  /** After a second claim the first one's identifier no longer holds the row. */
  lemma HolderIsLater(log: seq<Entry>, j: nat, k: nat)
    requires ClaimsAreFresh(log) && IsReclaimed(log, j, k) && Holder(log, log[j].item).Some?
    ensures Holder(log, log[j].item).value.id != log[j].claim.id
  {
    HolderSpokeLast(log, log[j].item);
    var m: nat :| LastWord(log, log[j].item, Holder(log, log[j].item).value, m);
    assert m >= k;
  }

  /** Once a row has been claimed again, whatever happens later, the overtaken
      identifier never completes or reschedules it: no later entry carries it,
      and trying to changes nothing. */
  lemma OvertakenIsFenced(events: seq<Event>, later: seq<Event>, j: nat, k: nat, retryAt: int)
    requires IsReclaimed(RunAll(events).log, j, k) && ClaimsAreFresh(RunAll(events + later).log)
    ensures var table, first := RunAll(events + later), RunAll(events).log[j];
            IsReclaimed(table.log, j, k) && table.log[j] == first &&
            (forall l :: k < l < |table.log| && table.log[l].item == first.item && !table.log[l].Claimed? ==>
              table.log[l].claimId != first.claim.id) &&
            Complete(table, first.item, first.claim.id) == table &&
            Reschedule(table, first.item, first.claim.id, retryAt) == table
  {
    hide RunAll, Holder, LastWord;
    LogGrows(events, later);
    EveryRunAgrees(events + later);
    var table := RunAll(events + later);
    var i, id := table.log[j].item, table.log[j].claim.id;
    forall l | k < l < |table.log| && table.log[l].item == i && !table.log[l].Claimed?
      ensures table.log[l].claimId != id
    {
      assert EntryFits(table.log[..l], table.log[l]);
      HolderIsLater(table.log[..l], j, k);
    }
    assert ItemAgrees(table.log, table.items[i], i);
    if Holder(table.log, i).Some? { HolderIsLater(table.log, j, k); }
  }

  // ---- which rows a batch claims ----------------------------------------------

  /** A batch claims the first eligible rows, at most `limit` of them, and leaves
      an eligible row only when it is full. */
  lemma {:induction false} BatchTakesTheFirst(items: seq<Item>, request: Request)
    ensures var (claimed, entries) := ClaimFirst(items, request);
            |entries| <= Limit(request) &&
            (forall i :: 0 <= i < |items| ==>
             claimed[i] == items[i] || (Wants(items[i], request) && claimed[i] == Grant(items[i], request))) &&
            (forall i, j :: 0 <= i < j < |items| && Wants(items[i], request) && claimed[j] != items[j] ==>
             claimed[i] == Grant(items[i], request)) &&
            (|entries| < Limit(request) ==> forall i :: 0 <= i < |items| && Wants(items[i], request) ==>
             claimed[i] == Grant(items[i], request))
  {
    hide Wants, Grant, StaleBefore, Limit;
    if items != [] {
      var n := |items| - 1;
      BatchTakesTheFirst(items[..n], request);
      var (before, entries) := ClaimFirst(items[..n], request);
      assert forall i :: 0 <= i < n ==> items[..n][i] == items[i];
    }
  }

  /** The lease in milliseconds: the dispatcher's seconds, but between thirty
      seconds and an hour. */
  ghost predicate IsLease(seconds: int, lease: int) {
    lease == if seconds < 30 then 30_000 else if seconds > 3_600 then 3_600_000 else seconds * 1_000
  }

  /** Unpublished, of a dispatched type and ready, its retry instant reached, and
      free or claimed longer ago than the lease. */
  ghost predicate MayBeClaimed(item: Item, request: Request) {
    item.dispatchable && item.since <= request.readyBefore && !item.done &&
    (item.nextAttemptAt.Some? ==> item.nextAttemptAt.value <= request.now) &&
    (item.claim.Some? ==>
       exists lease :: IsLease(request.leaseSeconds, lease) && request.now - item.claim.value.at > lease)
  }

  ghost function CountClaimable(items: seq<Item>, request: Request): nat {
    if items == [] then 0
    else CountClaimable(items[..|items| - 1], request) + if MayBeClaimed(items[|items| - 1], request) then 1 else 0
  }

  /** How many rows a batch takes: the asked number, at least one and at most the
      dispatcher's maximum. */
  ghost predicate IsRoom(request: Request, room: nat) {
    room >= 1 &&
    (1 <= request.limit <= request.maximum ==> room == request.limit) &&
    (1 <= request.maximum < request.limit ==> room == request.maximum) &&
    (request.limit < 1 || request.maximum < 1 ==> room == 1)
  }

  lemma WantsMeans(item: Item, request: Request)
    ensures Wants(item, request) <==> MayBeClaimed(item, request)
  {
    var lease := Clamp(request.leaseSeconds, 30, 3_600) * 1_000;
    assert IsLease(request.leaseSeconds, lease);
  }

  lemma {:induction false} ClaimedAreCounted(items: seq<Item>, request: Request, room: nat)
    requires IsRoom(request, room)
    ensures |ClaimFirst(items, request).1| ==
            if CountClaimable(items, request) < room then CountClaimable(items, request) else room
  {
    hide Wants, Grant, StaleBefore, MayBeClaimed;
    if items != [] {
      ClaimedAreCounted(items[..|items| - 1], request, room);
      WantsMeans(items[|items| - 1], request);
    }
  }

  /** A batch claims a row exactly when it may be claimed and fewer claimable rows
      than the batch has room for precede it; the claim is the batch's, counts one
      attempt and clears the retry instant. */
  lemma {:induction false} BatchIsExact(items: seq<Item>, request: Request, room: nat, i: nat)
    requires IsRoom(request, room) && i < |items|
    ensures ClaimFirst(items, request).0[i] ==
            if MayBeClaimed(items[i], request) && CountClaimable(items[..i], request) < room
            then Item(items[i].dispatchable, items[i].since, items[i].done, Some(Claim(request.claimId, request.now)),
                      None,
                      items[i].attempts + 1)
            else items[i]
  {
    hide Wants, StaleBefore, MayBeClaimed, CountClaimable;
    var n := |items| - 1;
    if i < n {
      BatchIsExact(items[..n], request, room, i);
      assert items[..n][..i] == items[..i];
    } else {
      ClaimedAreCounted(items[..n], request, room);
      WantsMeans(items[n], request);
    }
  }

  /** In any state that can arise: an event whose last claim neither completed nor
      was given back, as of a dispatcher that crashed, is claimed again by every
      batch with room for it that comes later than the lease. */
  lemma CrashedClaimsAreTaken(events: seq<Event>, request: Request, room: nat, i: nat, lease: int)
    requires var table := RunAll(events);
             i < |table.items| && table.items[i].dispatchable && table.items[i].since <= request.readyBefore &&
             !IsFinished(table.log, i) && Holder(table.log, i).Some? &&
             IsLease(request.leaseSeconds, lease) && request.now - Holder(table.log, i).value.at > lease
    requires IsRoom(request, room) && CountClaimable(RunAll(events).items[..i], request) < room
    ensures Holder(ClaimBatch(RunAll(events), request).log, i) == Some(Claim(request.claimId, request.now))
  {
    hide RunAll, Holder, RetryAt, IsFinished, ClaimCount, CountClaimable, ClaimFirst;
    var table := RunAll(events);
    EveryRunAgrees(events);
    assert ItemAgrees(table.log, table.items[i], i);
    HeldHasNoRetry(table.log, i);
    BatchIsExact(table.items, request, room, i);
    ClaimBatchAgrees(table, request);
    assert ItemAgrees(ClaimBatch(table, request).log, ClaimBatch(table, request).items[i], i);
  }

  lemma {:induction false} HeldHasNoRetry(log: seq<Entry>, i: nat)
    requires Holder(log, i).Some?
    ensures RetryAt(log, i) == None
  {
    if log[|log| - 1].item != i { HeldHasNoRetry(log[..|log| - 1], i); }
  }

  // ---- the transactions -------------------------------------------------------

  class LeaseTable {
    var items: seq<Item>
    ghost var log: seq<Entry>

    constructor ()
      ensures State() == Table([], []) && Agrees(State())
    {
      items, log := [], [];
    }

    ghost function State(): Table
      reads this
    {
      Table(items, log)
    }

    /** claimOutboxEvents: select the first eligible rows, then stamp them. */
    method ClaimEvents(request: Request) returns (claimed: seq<nat>)
      requires Agrees(State())
      modifies this
      ensures State() == ClaimBatch(old(State()), request) && Agrees(State())
      ensures |claimed| == |log| - |old(log)| <= Limit(request)
      ensures forall k :: 0 <= k < |claimed| ==> log[|old(log)| + k].item == claimed[k]
    {
      ClaimBatchAgrees(State(), request);
      BatchTakesTheFirst(items, request);
      hide Agrees;
      claimed := StampFirst(request);
    }

    method StampFirst(request: Request) returns (claimed: seq<nat>)
      modifies this
      ensures State() == ClaimBatch(old(State()), request)
      ensures |claimed| == |log| - |old(log)|
      ensures forall k :: 0 <= k < |claimed| ==> log[|old(log)| + k].item == claimed[k]
    {
      hide Wants, Grant, StaleBefore, Limit;
      claimed := [];
      ghost var entries: seq<Entry> := [];
      var stamped := [];
      var i := 0;
      while i < |items|
        invariant 0 <= i <= |items| == |old(items)| && items == old(items) && log == old(log)
        invariant (stamped, entries) == ClaimFirst(items[..i], request)
        invariant |claimed| == |entries| && forall k :: 0 <= k < |claimed| ==> entries[k].item == claimed[k]
      {
        assert items[..i + 1][..i] == items[..i];
        if |claimed| < Limit(request) && Wants(items[i], request) {
          stamped := stamped + [Grant(items[i], request)];
          claimed := claimed + [i];
          entries := entries + [Claimed(i, Claim(request.claimId, request.now),
                                        StaleBefore(request.now, request.leaseSeconds))];
        } else {
          stamped := stamped + [items[i]];
        }
        i := i + 1;
      }
      assert items[..i] == items;
      items := stamped;
      log := log + entries;
    }

    /** completeOutboxEvent; false is its conflict error. */
    method CompleteEvent(i: nat, claimId: ClaimId) returns (completed: bool)
      requires Agrees(State())
      modifies this
      ensures State() == Complete(old(State()), i, claimId) && Agrees(State())
      ensures completed <==> Holder(old(log), i).Some? && Holder(old(log), i).value.id == claimId
      ensures |log| == |old(log)| + if completed then 1 else 0
    {
      CompleteAgrees(State(), i, claimId);
      HolderHolds(State(), i, claimId);
      if i >= |items| || !Holds(items[i], claimId) { return false; }
      items := items[i := Finish(items[i])];
      log := log + [Completed(i, claimId)];
      return true;
    }

    /** retryOutboxEvent; false is its conflict error. */
    method RetryEvent(i: nat, claimId: ClaimId, retryAt: int) returns (retried: bool)
      requires Agrees(State())
      modifies this
      ensures State() == Reschedule(old(State()), i, claimId, retryAt) && Agrees(State())
      ensures retried <==> Holder(old(log), i).Some? && Holder(old(log), i).value.id == claimId
    {
      RescheduleAgrees(State(), i, claimId, retryAt);
      HolderHolds(State(), i, claimId);
      if i >= |items| || !Holds(items[i], claimId) { return false; }
      items := items[i := Release(items[i], retryAt)];
      log := log + [Rescheduled(i, claimId, retryAt)];
      return true;
    }

    /** completeAnalyticsEvents: rows still held are completed even when others
        are not and the call reports a conflict. */
    method CompleteEvents(ids: seq<nat>, claimId: ClaimId) returns (allCompleted: bool)
      requires Agrees(State())
      modifies this
      ensures State() == CompleteEach(old(State()), ids, claimId) && Agrees(State())
      ensures allCompleted <==> |log| == |old(log)| + |ids|
    {
      allCompleted := true;
      ghost var before := State();
      var k := 0;
      while k < |ids|
        invariant 0 <= k <= |ids| && Agrees(State())
        invariant State() == CompleteEach(before, ids[..k], claimId)
        invariant |log| <= |before.log| + k && (allCompleted <==> |log| == |before.log| + k)
      {
        assert ids[..k + 1][..k] == ids[..k];
        var completed := CompleteEvent(ids[k], claimId);
        allCompleted := allCompleted && completed;
        k := k + 1;
      }
      assert ids[..k] == ids;
    }
  }

  function CompleteEach(table: Table, ids: seq<nat>, claimId: ClaimId): Table {
    if ids == [] then table else Complete(CompleteEach(table, ids[..|ids| - 1], claimId), ids[|ids| - 1], claimId)
  }

  /** A row holds a claim exactly when the log says so. */
  lemma HolderHolds(table: Table, i: nat, claimId: ClaimId)
    requires Agrees(table)
    ensures i < |table.items| && Holds(table.items[i], claimId) <==>
            Holder(table.log, i).Some? && Holder(table.log, i).value.id == claimId
  {
    if i < |table.items| {
      assert ItemAgrees(table.log, table.items[i], i);
      if IsFinished(table.log, i) { FinishedIsNotHeld(table.log, i); }
    } else {
      UnmentionedIsUntouched(table.log, i);
    }
  }

  lemma PrefixFits(log: seq<Entry>, n: nat)
    requires LogFits(log) && n <= |log|
    ensures LogFits(log[..n])
    ensures n < |log| ==> EntryFits(log[..n], log[n])
  {
    hide EntryFits;
    forall k | 0 <= k < n ensures EntryFits(log[..n][..k], log[..n][k]) { assert log[..n][..k] == log[..k]; }
  }

  lemma {:induction false} FinishedIsNotHeld(log: seq<Entry>, i: nat)
    requires LogFits(log) && IsFinished(log, i)
    ensures Holder(log, i).None?
  {
    hide LogFits;
    var n := |log| - 1;
    PrefixFits(log, n);
    Appended(log[..n], log[n], i);
    assert log == log[..n] + [log[n]];
    if log[n].item != i { FinishedIsNotHeld(log[..n], i); }
  }
}
