/** The exact condition for a relay call to mean that its event is allowed.
  *
  * A review resolved by opening must stay resolved. It does unless the gate has, besides the barrier the
  * resolution opens and locks, another active barrier under whose key the worker expires the same review.
  * A gate whose first barrier has no controller cannot be opened by a resolution, so it does no harm.
  */
module AllowRace {
  import opened Common
  import opened Domain
  import opened Engine
  import opened Queries
  import opened Transactions
  import opened Outbox
  import opened System
  import opened Chains
  import opened CoreSafety
  import opened LooseChains
  import opened EndToEnd
  import opened LockRace
  import opened Growth

  /** A review of this passage can be resolved by opening. */
  predicate Openable(cfg: Config, e: CameraEvent) {
    var b := BarrierAt(cfg, e.gate);
    b.Some? && b.value.controller.Some?
  }

  /** An owned gate that a resolution can open has no second active barrier. */
  ghost predicate OpeningKeysCoincide(cfg: Config) {
    forall b :: b in cfg.barriers && b.active && GateOwned(cfg, b.gate) ==> OpenedUnderOneKey(cfg, b)
  }

  predicate OpenedUnderOneKey(cfg: Config, b: Barrier) {
    var first := FirstActiveBarrier(cfg.barriers, b.gate);
    first.Some? && first.value.controller.Some? ==> b.id == first.value.id
  }

  // ---------------------------------------------------------------- the invariant

  ghost predicate ResolutionsLast(decisions: seq<Decision>) {
    forall i, k :: 0 <= i < k < |decisions| && Resolution(decisions[i]) ==> decisions[k].event != decisions[i].event
  }

  ghost predicate ResolvedOpenable(cfg: Config, db: Db) {
    forall i :: 0 <= i < |db.decisions| && Resolution(db.decisions[i]) && db.decisions[i].event < |db.events| ==>
      Openable(cfg, db.events[db.decisions[i].event])
  }

  /** Whoever may expire a review that can be opened holds the key of its event, and it is not resolved. */
  ghost predicate MayExpire(cfg: Config, db: Db, key: Id, event: nat) {
    event < |db.events| && Openable(cfg, db.events[event]) ==>
      key == EventKey(cfg, db.events[event]) && Unresolved(db.decisions, event)
  }

  ghost predicate FirmHeld(cfg: Config, db: Db, key: Id, t: Txn) {
    match t
    case Resolving(r, plan, _, _) =>
      && MayExpire(cfg, db, key, r.event)
      && (plan.OpenPlan? && r.event < |db.events| ==> Openable(cfg, db.events[r.event]))
    case Expiring(i) => i < |db.decisions| ==> MayExpire(cfg, db, key, db.decisions[i].event)
    case OpeningBarrier(_, _, _, overdue, _) =>
      forall k :: 0 <= k < |overdue| ==>
        overdue[k] < |db.decisions| && MayExpire(cfg, db, key, db.decisions[overdue[k]].event)
    case _ => true
  }

  ghost predicate FirmDue(cfg: Config, db: Db, row: DueRow) {
    && row.decision < |db.decisions| && db.decisions[row.decision].event < |db.events|
    && (Openable(cfg, db.events[db.decisions[row.decision].event])
        ==> row.key == EventKey(cfg, db.events[db.decisions[row.decision].event]))
  }

  ghost predicate FirmInv(cfg: Config, s: Sys) {
    && LooseInv(cfg, s) && ResolutionsLast(s.db.decisions) && ResolvedOpenable(cfg, s.db)
    && (forall key :: key in s.held ==> FirmHeld(cfg, s.db, key, s.held[key]))
    && (forall row :: row in s.due ==> FirmDue(cfg, s.db, row))
  }

  // ---------------------------------------------------------------- commits

  /** New rows belong to new events or to events not resolved before, and resolve only what can be opened. */
  ghost predicate FirmRows(cfg: Config, before: Db, after: Db) {
    && |before.decisions| <= |after.decisions|
    && (forall i :: |before.decisions| <= i < |after.decisions| ==>
          Unresolved(before.decisions, after.decisions[i].event))
    && (forall i :: |before.decisions| <= i < |after.decisions| && Resolution(after.decisions[i]) ==>
          i == |after.decisions| - 1 && after.decisions[i].event < |after.events|
          && Openable(cfg, after.events[after.decisions[i].event]))
  }

  lemma FirmRowsKeep(cfg: Config, before: Db, after: Db)
    requires ResolutionsLast(before.decisions) && ResolvedOpenable(cfg, before)
    requires LooseChain(before.decisions, |before.events|)
    requires Prefix(before.events, after.events) && Prefix(before.decisions, after.decisions)
    requires FirmRows(cfg, before, after)
    ensures ResolutionsLast(after.decisions) && ResolvedOpenable(cfg, after)
  {
    PrefixAt(before.events, after.events);
    PrefixAt(before.decisions, after.decisions);
  }

  /** A review under its key is not resolved, whether or not it can be opened. */
  lemma MayExpireUnresolved(cfg: Config, db: Db, key: Id, event: nat)
    requires ResolvedOpenable(cfg, db) && LooseChain(db.decisions, |db.events|) && MayExpire(cfg, db, key, event)
    ensures Unresolved(db.decisions, event)
  {
    forall i | 0 <= i < |db.decisions| && Resolution(db.decisions[i]) ensures db.decisions[i].event != event {
      assert RowOk(db.decisions, i);
    }
  }

  lemma {:induction false} ExpiredEvents(decisions: seq<Decision>, n: nat, ids: seq<nat>)
    requires LooseChain(decisions, n) && forall k :: 0 <= k < |ids| ==> ids[k] < |decisions|
    ensures forall i :: |decisions| <= i < |ExpireListed(decisions, ids)| ==>
              !Resolution(ExpireListed(decisions, ids)[i])
              && exists k :: 0 <= k < |ids| && ExpireListed(decisions, ids)[i].event == decisions[ids[k]].event
  {
    LooseExpiry(decisions, n, ids);
    if ids != [] {
      var front, last := ids[..|ids| - 1], ids[|ids| - 1];
      ExpiredEvents(decisions, n, front);
      var r, all := ExpireListed(decisions, front), ExpireListed(decisions, ids);
      assert r[last] == r[..|decisions|][last];
      forall i | |decisions| <= i < |all|
        ensures exists k :: 0 <= k < |ids| && all[i].event == decisions[ids[k]].event
      {
        if i < |r| {
          assert all[i] == r[i];
          var k :| 0 <= k < |front| && r[i].event == decisions[front[k]].event;
          assert ids[k] == front[k];
        } else {
          assert all[i].event == decisions[ids[|ids| - 1]].event;
        }
      }
    }
  }

  lemma CommitIsFirm(cfg: Config, reg: Registry, db: Db, key: Id, t: Txn, clock: Instant)
    requires LooseChain(db.decisions, |db.events|) && ResolvedOpenable(cfg, db)
    requires LooseHeld(cfg, db, key, t) && FirmHeld(cfg, db, key, t)
    ensures FirmRows(cfg, db, CommitDb(cfg, reg, db, t, clock).0)
  {
    match t
    case Ingesting(ticket, started) => IngestIsFirm(cfg, reg, db, ticket, started, clock);
    case Resolving(r, plan, current, started) => MayExpireUnresolved(cfg, db, key, r.event);
    case Expiring(i) => MayExpireUnresolved(cfg, db, key, db.decisions[i].event);
    case OpeningBarrier(r, controller, gate, overdue, started) =>
      OpeningIsFirm(cfg, db, key, r, controller, gate, overdue, started, clock);
    case Redeeming(_, _, _, _, _) =>
  }

  lemma IngestIsFirm(cfg: Config, reg: Registry, db: Db, t: Ticket, started: Instant, clock: Instant)
    requires LooseChain(db.decisions, |db.events|)
    ensures FirmRows(cfg, db, CommitIngest(cfg, reg, db, t, started, clock).0)
  {
    if FindEvent(db.events, t.input.controller, t.input.eventId).None? {
      RecordedRows(cfg, reg, db, t, started, clock);
    }
  }

  lemma OpeningIsFirm(cfg: Config, db: Db, key: Id, r: OpenRequest, controller: Id, gate: Id, overdue: seq<nat>,
                      started: Instant, clock: Instant)
    requires LooseChain(db.decisions, |db.events|) && ResolvedOpenable(cfg, db)
    requires FirmHeld(cfg, db, key, OpeningBarrier(r, controller, gate, overdue, started))
    ensures FirmRows(cfg, db, CommitOpen(db, r, controller, gate, overdue, started, clock).0)
  {
    OpenedRows(db, r, controller, gate, overdue, started, clock);
    ExpiredEvents(db.decisions, |db.events|, overdue);
    forall k | 0 <= k < |overdue| ensures Unresolved(db.decisions, db.decisions[overdue[k]].event) {
      MayExpireUnresolved(cfg, db, key, db.decisions[overdue[k]].event);
    }
  }

  lemma MayExpireStable(cfg: Config, before: Db, after: Db, key: Id, other: Id, event: nat)
    requires LooseCommit(cfg, before, after, key) && other != key && MayExpire(cfg, before, other, event)
    requires event < |before.events|
    ensures MayExpire(cfg, after, other, event)
  {
    PrefixAt(before.events, after.events);
    PrefixAt(before.decisions, after.decisions);
  }

  lemma FirmStable(cfg: Config, before: Db, after: Db, key: Id, other: Id, t: Txn)
    requires LooseCommit(cfg, before, after, key) && other != key && LooseChain(before.decisions, |before.events|)
    requires LooseHeld(cfg, before, other, t) && FirmHeld(cfg, before, other, t)
    ensures FirmHeld(cfg, after, other, t)
  {
    PrefixAt(before.events, after.events);
    PrefixAt(before.decisions, after.decisions);
    match t
    case Resolving(r, _, _, _) => MayExpireStable(cfg, before, after, key, other, r.event);
    case Expiring(i) => MayExpireStable(cfg, before, after, key, other, before.decisions[i].event);
    case OpeningBarrier(_, _, _, overdue, _) =>
      forall k | 0 <= k < |overdue| ensures MayExpire(cfg, after, other, after.decisions[overdue[k]].event) {
        MayExpireStable(cfg, before, after, key, other, before.decisions[overdue[k]].event);
      }
    case _ =>
  }

  lemma CommitKeepsFirm(cfg: Config, s: Sys, key: Id, clock: Instant)
    requires FirmInv(cfg, s)
    ensures FirmInv(cfg, CommitApply(cfg, s, key, clock))
  {
    if key in s.held {
      var after := CommitApply(cfg, s, key, clock);
      CommitKeepsLoose(cfg, s, key, clock);
      CommitIsLoose(cfg, s.reg, s.db, key, s.held[key], clock);
      CommitIsFirm(cfg, s.reg, s.db, key, s.held[key], clock);
      FirmRowsKeep(cfg, s.db, after.db);
      forall other | other in after.held ensures FirmHeld(cfg, after.db, other, after.held[other]) {
        FirmStable(cfg, s.db, after.db, key, other, s.held[other]);
      }
      DueStable(cfg, s, after);
    }
  }

  lemma DueStable(cfg: Config, s: Sys, after: Sys)
    requires Prefix(s.db.events, after.db.events) && Prefix(s.db.decisions, after.db.decisions) && after.due == s.due
    requires forall row :: row in s.due ==> FirmDue(cfg, s.db, row)
    ensures forall row :: row in after.due ==> FirmDue(cfg, after.db, row)
  {
    PrefixAt(s.db.events, after.db.events);
    PrefixAt(s.db.decisions, after.db.decisions);
    forall row | row in after.due ensures FirmDue(cfg, after.db, row) {
      assert FirmDue(cfg, s.db, row);
    }
  }

  // ---------------------------------------------------------------- begins

  /** Any active barrier of the gate of a passage that can be opened carries the passage's key. */
  lemma OpenableKey(cfg: Config, e: CameraEvent, b: Barrier)
    requires OpeningKeysCoincide(cfg) && Openable(cfg, e) && b in cfg.barriers && b.active && e.gate == Some(b.gate)
    requires GateBelongs(cfg, b.gate, e.controller)
    ensures b.id == EventKey(cfg, e)
  {
    assert GateOwned(cfg, b.gate) && OpenedUnderOneKey(cfg, b);
  }

  lemma FirmBeginResolve(cfg: Config, s: Sys, r: ResolveRequest, started: Instant)
    requires FirmInv(cfg, s)
    ensures FirmInv(cfg, BeginResolveApply(cfg, s, r, started))
  {
    LooseBeginResolve(cfg, s, r, started);
    var b := BeginResolve(cfg, s.db, r);
    if b.Planned? {
      PendingIsUnresolved(s.db.decisions, |s.db.events|, b.current);
    }
  }

  lemma OverdueMayExpire(cfg: Config, db: Db, barrier: Barrier, i: nat, now: Instant)
    requires GatesOwned(cfg, db.events) && LooseChain(db.decisions, |db.events|) && OpeningKeysCoincide(cfg)
    requires barrier in cfg.barriers && barrier.active && OverduePendingAt(db, barrier.gate, now, i)
    ensures MayExpire(cfg, db, barrier.id, db.decisions[i].event)
  {
    PendingIsUnresolved(db.decisions, |db.events|, i);
    var e := db.events[db.decisions[i].event];
    if Openable(cfg, e) {
      OpenableKey(cfg, e, barrier);
    }
  }

  lemma FirmBeginOpen(cfg: Config, s: Sys, r: OpenRequest, started: Instant)
    requires FirmInv(cfg, s) && OpeningKeysCoincide(cfg)
    ensures FirmInv(cfg, BeginOpenApply(cfg, s, r, started))
  {
    LooseQuiet(cfg, s, BeginOpenStep(r, started));
    var b := BeginOpen(cfg, s.db, r);
    if b.Granted? {
      forall k | 0 <= k < |b.overdue|
        ensures MayExpire(cfg, s.db, r.barrier, s.db.decisions[b.overdue[k]].event)
      {
        OverdueMayExpire(cfg, s.db, FindBarrier(cfg.barriers, r.barrier).value, b.overdue[k], r.now);
      }
    }
  }

  lemma FirmList(cfg: Config, s: Sys, now: Instant)
    requires FirmInv(cfg, s) && OpeningKeysCoincide(cfg)
    ensures FirmInv(cfg, s.(due := s.due + DueRows(cfg, s.db, now, |s.db.decisions|)))
  {
    forall row | row in DueRows(cfg, s.db, now, |s.db.decisions|) ensures FirmDue(cfg, s.db, row) {
      assert DueAs(cfg, s.db, now, row);
      JoinedKeyOpenable(cfg, s.db.events[s.db.decisions[row.decision].event], row.key);
    }
    var due := DueRows(cfg, s.db, now, |s.db.decisions|);
    forall row | row in s.due + due ensures FirmDue(cfg, s.db, row) {
      assert row in s.due || row in due;
    }
  }

  lemma JoinedKeyOpenable(cfg: Config, e: CameraEvent, key: Id)
    requires OpeningKeysCoincide(cfg) && key in JoinedKeys(cfg, e)
    requires e.gate.Some? ==> GateBelongs(cfg, e.gate.value, e.controller)
    ensures Openable(cfg, e) ==> key == EventKey(cfg, e)
  {
    if Openable(cfg, e) {
      var ids := ActiveBarrierIds(cfg.barriers, e.gate.value);
      var first := BarrierAt(cfg, e.gate).value;
      assert first.id in ids;
      var b :| b in cfg.barriers && b.gate == e.gate.value && b.active && b.id == key;
      OpenableKey(cfg, e, b);
    }
  }

  /** A row still pending under the lock is not resolved. */
  lemma StillPendingUnresolved(decisions: seq<Decision>, n: nat, i: nat)
    requires LooseChain(decisions, n) && StillPending(decisions, i)
    ensures Unresolved(decisions, decisions[i].event)
  {
    forall k | 0 <= k < |decisions| && Resolution(decisions[k]) ensures decisions[k].event != decisions[i].event {
      assert RowOk(decisions, k) && RowOk(decisions, i);
      assert decisions[k] in decisions;
    }
  }

  lemma FirmTake(cfg: Config, s: Sys, index: nat)
    requires FirmInv(cfg, s)
    ensures FirmInv(cfg, WorkerTakeApply(s, index))
  {
    LooseTake(cfg, s, index);
    if index < |s.due| && s.due[index].key !in s.held {
      var row := s.due[index];
      assert row in s.due && FirmDue(cfg, s.db, row);
      if StillPending(s.db.decisions, row.decision) {
        StillPendingUnresolved(s.db.decisions, |s.db.events|, row.decision);
      }
    }
  }

  lemma FirmQuiet(cfg: Config, s: Sys, step: Step)
    requires FirmInv(cfg, s)
    requires !step.BeginIngestStep? && !step.BeginResolveStep? && !step.BeginOpenStep? && !step.WorkerRead?
    requires !step.WorkerTake? && !step.Commit?
    ensures FirmInv(cfg, Apply(cfg, s, step))
  {
    LooseQuiet(cfg, s, step);
    FirmRest(cfg, s, Apply(cfg, s, step));
  }

  /** Only events, decisions, the list and the holders of keys matter. */
  lemma FirmRest(cfg: Config, s: Sys, after: Sys)
    requires FirmInv(cfg, s) && LooseInv(cfg, after) && after.due == s.due
    requires after.db.events == s.db.events && after.db.decisions == s.db.decisions
    requires forall key :: key in after.held ==>
               || (key in s.held && after.held[key] == s.held[key])
               || after.held[key].Ingesting? || after.held[key].Redeeming?
    ensures FirmInv(cfg, after)
  {
    forall key | key in after.held ensures FirmHeld(cfg, after.db, key, after.held[key]) {
      if key in s.held && after.held[key] == s.held[key] {
        assert FirmHeld(cfg, s.db, key, s.held[key]);
      }
    }
    forall row | row in after.due ensures FirmDue(cfg, after.db, row) {
      assert FirmDue(cfg, s.db, row);
    }
  }

  lemma FirmBeginIngest(cfg: Config, s: Sys, x: Input, started: Instant)
    requires FirmInv(cfg, s)
    ensures FirmInv(cfg, BeginIngestApply(cfg, s, x, started))
  {
    LooseBeginIngest(cfg, s, x, started);
    FirmRest(cfg, s, BeginIngestApply(cfg, s, x, started));
  }

  lemma FirmStep(cfg: Config, s: Sys, step: Step)
    requires FirmInv(cfg, s) && OpeningKeysCoincide(cfg)
    ensures FirmInv(cfg, Apply(cfg, s, step))
  {
    match step
    case BeginIngestStep(x, started) => FirmBeginIngest(cfg, s, x, started);
    case BeginResolveStep(r, started) => FirmBeginResolve(cfg, s, r, started);
    case BeginOpenStep(r, started) => FirmBeginOpen(cfg, s, r, started);
    case WorkerRead(now) => FirmList(cfg, s, now);
    case WorkerTake(index) => FirmTake(cfg, s, index);
    case Commit(key, clock) => CommitKeepsFirm(cfg, s, key, clock);
    case _ => FirmQuiet(cfg, s, step);
  }

  lemma {:induction false} FirmRun(cfg: Config, reg: Registry, steps: seq<Step>)
    requires OpeningKeysCoincide(cfg)
    ensures FirmInv(cfg, Run(cfg, Start(reg), steps))
  {
    if steps != [] {
      FirmRun(cfg, reg, steps[..|steps| - 1]);
      FirmStep(cfg, Run(cfg, Start(reg), steps[..|steps| - 1]), steps[|steps| - 1]);
    }
  }

  // ---------------------------------------------------------------- calls are allowed

  /** An ordering decision is the last of its event. */
  lemma OrderIsLast(decisions: seq<Decision>, n: nat, d: nat)
    requires LooseChain(decisions, n) && ResolutionsLast(decisions) && d < |decisions| && Orders(decisions[d])
    ensures LatestOf(decisions, decisions[d].event) == Some(d)
  {
    assert RowOk(decisions, d);
    forall k | d < k < |decisions| ensures decisions[k].event != decisions[d].event {
      assert RowOk(decisions, k);
      assert decisions[d].supersedes.Some? ==> Resolution(decisions[d]);
    }
  }

  lemma FirmCallsAllowed(cfg: Config, reg: Registry, steps: seq<Step>)
    requires WellFormed(cfg) && OpeningKeysCoincide(cfg)
    ensures CallsAllowed(Run(cfg, Start(reg), steps))
  {
    var s := Run(cfg, Start(reg), steps);
    FullRun(cfg, Start(reg), steps);
    FirmRun(cfg, reg, steps);
    forall i | 0 <= i < |s.edge.relayCalls| && CauseOf(s, i).Some? ensures AllowedNow(s.db, CauseOf(s, i).value) {
      var c := s.edge.relayCalls[i].1;
      assert CommandOk(s.db, c);
      OrderIsLast(s.db.decisions, |s.db.events|, s.db.commands[c].decision.value);
    }
  }

  // ---------------------------------------------------------------- the failing run

  /** An operator resolves the review by opening. */
  function OpenFirst(first: Barrier): ResolveRequest {
    ResolveRequest(0, OpenAction, 1, Some("x"), Some(first.id), Some(0), 0)
  }

  function OpeningTxn(first: Barrier, controller: Id): Txn {
    Resolving(OpenFirst(first), OpenPlan(first.id, controller), 0, 0)
  }

  lemma OpeningHeld(cfg: Config, s: Sys, gate: Id, first: Barrier, controller: Id)
    requires OnePending(s, gate) && FirstActiveBarrier(cfg.barriers, gate) == Some(first)
    requires first.controller == Some(controller)
    ensures BeginResolveApply(cfg, s, OpenFirst(first), 0) == Hold(s, first.id, OpeningTxn(first, controller))
  {
    assert LatestOf(s.db.decisions, 0) == Some(0);
    assert "x"[0] in "x" && !IsSpace("x"[0]);
    assert BeginResolve(cfg, s.db, OpenFirst(first)) == Planned(OpenPlan(first.id, controller), 0);
  }

  /** The opening holds the first key, the worker's list names the second. */
  ghost predicate Listed(s: Sys, first: Barrier, controller: Id, other: Id, index: nat) {
    && OneReview(s.db) && s.edge == Edge({}, map[], [])
    && s.held == map[first.id := OpeningTxn(first, controller)]
    && index < |s.due| && s.due[index] == DueRow(0, other)
  }

  /** One event with one pending decision and no command. */
  ghost predicate OneReview(db: Db) {
    && db.commands == [] && |db.decisions| == 1 && |db.events| == 1
    && db.decisions[0].event == 0 && db.decisions[0].supersedes.None? && db.decisions[0].status == PendingReview
  }

  lemma ReachListed(cfg: Config, s: Sys, gate: Id, first: Barrier, controller: Id, other: Barrier)
    returns (index: nat)
    requires OnePending(s, gate) && FirstActiveBarrier(cfg.barriers, gate) == Some(first)
    requires first.controller == Some(controller)
    requires other in cfg.barriers && other.active && other.gate == gate
    ensures Listed(Run(cfg, s, [BeginResolveStep(OpenFirst(first), 0), WorkerRead(LATE)]), first, controller, other.id,
                   index)
  {
    index := WorkerSeesSecondKey(cfg, s.db, gate, other);
    index := |s.due| + index;
    OpeningThenList(cfg, s, gate, first, controller);
  }

  lemma OpeningThenList(cfg: Config, s: Sys, gate: Id, first: Barrier, controller: Id)
    requires OnePending(s, gate) && FirstActiveBarrier(cfg.barriers, gate) == Some(first)
    requires first.controller == Some(controller)
    ensures Run(cfg, s, [BeginResolveStep(OpenFirst(first), 0), WorkerRead(LATE)])
         == s.(held := map[first.id := OpeningTxn(first, controller)], due := s.due + DueRows(cfg, s.db, LATE, 1))
  {
    RunTwo(cfg, s, BeginResolveStep(OpenFirst(first), 0), WorkerRead(LATE));
    OpeningHeld(cfg, s, gate, first, controller);
    ListRead(cfg, Hold(s, first.id, OpeningTxn(first, controller)));
  }

  /** Both keys are held, for one review. */
  ghost predicate BothHeld(s: Sys, first: Barrier, controller: Id, other: Id) {
    && OneReview(s.db) && s.edge == Edge({}, map[], []) && first.id != other
    && s.held == map[first.id := OpeningTxn(first, controller), other := Expiring(0)]
  }

  lemma TakeBoth(s: Sys, first: Barrier, controller: Id, other: Id, index: nat)
    requires Listed(s, first, controller, other, index) && first.id != other
    ensures BothHeld(WorkerTakeApply(s, index), first, controller, other)
  {
    assert StillPending(s.db.decisions, 0);
  }

  /** The review is resolved, its command waits, the worker still holds the second key. */
  ghost predicate CommandWaits(s: Sys, controller: Id, other: Id) {
    && |s.db.decisions| == 2 && s.db.decisions[0].event == 0 && s.db.decisions[1].event == 0
    && |s.db.commands| == 1 && s.db.commands[0].decision == Some(1) && s.db.commands[0].controller == controller
    && s.db.commands[0].expiresAt == Some(MANUAL_COMMAND_TTL)
    && other in s.held && s.held[other] == Expiring(0)
  }

  lemma OpeningCommits(cfg: Config, s: Sys, first: Barrier, controller: Id, other: Id)
    requires BothHeld(s, first, controller, other)
    ensures var after := CommitApply(cfg, s, first.id, 0);
            CommandWaits(after, controller, other) && after.edge == s.edge && after.db.commands[0].status == Pending
  {
  }

  lemma LeaseGoesOut(s: Sys, controller: Id, other: Id)
    requires CommandWaits(s, controller, other) && s.db.commands[0].status == Pending && s.edge == Edge({}, map[], [])
    ensures var after := LeaseApply(s, controller, "t", 0);
            CommandWaits(after, controller, other) && after.edge == Edge({Pulled(controller, 0, "t")}, map[], [])
  {
    assert Leasable(s.db.commands[0], controller, LEASE_TTL, 0);
  }

  lemma Called(s: Sys, controller: Id, other: Id)
    requires CommandWaits(s, controller, other) && s.edge == Edge({Pulled(controller, 0, "t")}, map[], [])
    ensures var after := HandleApply(s, Pulled(controller, 0, "t"), true, 0);
            CommandWaits(after, controller, other) && after.edge.relayCalls == [(controller, 0)]
  {
  }

  /** The worker's commit makes the expiry the current decision of the event that was opened. */
  lemma ExpiredAfterCall(cfg: Config, s: Sys, controller: Id, other: Id)
    requires CommandWaits(s, controller, other) && s.edge.relayCalls == [(controller, 0)]
    ensures !CallsAllowed(CommitApply(cfg, s, other, 0))
  {
    var after := CommitApply(cfg, s, other, 0);
    assert after.db == CommitExpire(s.db, 0);
    assert LatestOf(after.db.decisions, 0) == Some(2);
    assert CauseOf(after, 0) == Some(0) && !AllowedNow(after.db, 0);
  }

  /** The last four steps of the race. */
  function Finish(first: Barrier, controller: Id, other: Id): seq<Step> {
    [Commit(first.id, 0), LeaseStep(controller, "t", 0)]
    + [HandleStep(Pulled(controller, 0, "t"), true, 0), Commit(other, 0)]
  }

  lemma OpenAndLease(cfg: Config, s: Sys, first: Barrier, controller: Id, other: Id)
    requires BothHeld(s, first, controller, other)
    ensures var after := Run(cfg, s, [Commit(first.id, 0), LeaseStep(controller, "t", 0)]);
            CommandWaits(after, controller, other) && after.edge == Edge({Pulled(controller, 0, "t")}, map[], [])
  {
    RunTwo(cfg, s, Commit(first.id, 0), LeaseStep(controller, "t", 0));
    OpeningCommits(cfg, s, first, controller, other);
    LeaseGoesOut(CommitApply(cfg, s, first.id, 0), controller, other);
  }

  lemma CallAndExpire(cfg: Config, s: Sys, controller: Id, other: Id)
    requires CommandWaits(s, controller, other) && s.edge == Edge({Pulled(controller, 0, "t")}, map[], [])
    ensures !CallsAllowed(Run(cfg, s, [HandleStep(Pulled(controller, 0, "t"), true, 0), Commit(other, 0)]))
  {
    RunTwo(cfg, s, HandleStep(Pulled(controller, 0, "t"), true, 0), Commit(other, 0));
    Called(s, controller, other);
    ExpiredAfterCall(cfg, HandleApply(s, Pulled(controller, 0, "t"), true, 0), controller, other);
  }

  lemma RaceFinishes(cfg: Config, s: Sys, first: Barrier, controller: Id, other: Id)
    requires BothHeld(s, first, controller, other)
    ensures !CallsAllowed(Run(cfg, s, Finish(first, controller, other)))
  {
    RunConcat(cfg, s, [Commit(first.id, 0), LeaseStep(controller, "t", 0)],
              [HandleStep(Pulled(controller, 0, "t"), true, 0), Commit(other, 0)]);
    OpenAndLease(cfg, s, first, controller, other);
    CallAndExpire(cfg, Run(cfg, s, [Commit(first.id, 0), LeaseStep(controller, "t", 0)]), controller, other);
  }

  /** The first three steps: the resolution begins, the worker reads its list and takes the row. */
  lemma RaceStarts(cfg: Config, s: Sys, gate: Id, first: Barrier, controller: Id, other: Barrier)
    returns (steps: seq<Step>)
    requires OnePending(s, gate) && FirstActiveBarrier(cfg.barriers, gate) == Some(first)
    requires first.controller == Some(controller) && first.id != other.id
    requires other in cfg.barriers && other.active && other.gate == gate
    ensures BothHeld(Run(cfg, s, steps), first, controller, other.id)
  {
    var index := ReachListed(cfg, s, gate, first, controller, other);
    var begun := [BeginResolveStep(OpenFirst(first), 0), WorkerRead(LATE)];
    TakeBoth(Run(cfg, s, begun), first, controller, other.id, index);
    TakeAfter(cfg, s, begun, index);
    steps := begun + [WorkerTake(index)];
  }

  lemma TakeAfter(cfg: Config, s: Sys, front: seq<Step>, index: nat)
    ensures Run(cfg, s, front + [WorkerTake(index)]) == WorkerTakeApply(Run(cfg, s, front), index)
  {
    RunSnoc(cfg, s, front, WorkerTake(index));
  }

  /** A second active barrier at a gate that a resolution can open: some relay call is not allowed. */
  lemma SecondBarrierBreaksCalls(cfg: Config, reg: Registry, b: Barrier) returns (steps: seq<Step>)
    requires b in cfg.barriers && b.active && GateOwned(cfg, b.gate) && !OpenedUnderOneKey(cfg, b)
    ensures !CallsAllowed(Run(cfg, Start(reg), steps))
  {
    var sender: Id :| GateBelongs(cfg, b.gate, sender);
    var first := FirstActiveBarrier(cfg.barriers, b.gate).value;
    var controller := first.controller.value;
    var prefix := ReachPending(cfg, reg, sender, b.gate, first);
    var s := Run(cfg, Start(reg), prefix);
    var middle := RaceStarts(cfg, s, b.gate, first, controller, b);
    RaceFinishes(cfg, Run(cfg, s, middle), first, controller, b.id);
    RunConcat(cfg, s, middle, Finish(first, controller, b.id));
    RunConcat(cfg, Start(reg), prefix, middle + Finish(first, controller, b.id));
    steps := prefix + (middle + Finish(first, controller, b.id));
  }

  ghost predicate CallsAlwaysAllowed(cfg: Config) {
    forall reg: Registry, steps: seq<Step> :: CallsAllowed(Run(cfg, Start(reg), steps))
  }

  /** In every run the events whose barrier was opened are allowed now, exactly when no owned gate that a
    * resolution can open has a second active barrier. */
  lemma CallsAllowedExactlyWhenOpeningKeysCoincide(cfg: Config)
    requires WellFormed(cfg)
    ensures CallsAlwaysAllowed(cfg) <==> OpeningKeysCoincide(cfg)
  {
    if OpeningKeysCoincide(cfg) {
      forall reg: Registry, steps: seq<Step> ensures CallsAllowed(Run(cfg, Start(reg), steps)) {
        FirmCallsAllowed(cfg, reg, steps);
      }
    } else {
      var b :| b in cfg.barriers && b.active && GateOwned(cfg, b.gate) && !OpenedUnderOneKey(cfg, b);
      var steps := SecondBarrierBreaksCalls(cfg, Registry([], [], [], map[], [], [], {}), b);
    }
  }
}
