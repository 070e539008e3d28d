/** Safety of concurrent runs: idempotent receipt, the deduplication window and the decision chain
  * hold in every reachable state, because the lock keys of all paths coincide. */
module CoreSafety {
  import opened Common
  import opened Domain
  import opened Engine
  import opened Queries
  import opened Transactions
  import opened Outbox
  import opened System
  import opened Chains

  ghost predicate GateOwned(cfg: Config, gate: Id) {
    exists c: Id :: GateBelongs(cfg, gate, c)
  }

  /** No gate that belongs to a controller has two active barriers. */
  ghost predicate LocksCoincide(cfg: Config) {
    forall b, c :: b in cfg.barriers && c in cfg.barriers && b.active && c.active && b.gate == c.gate ==>
      (GateOwned(cfg, b.gate) ==> b.id == c.id)
  }

  // ---------------------------------------------------------------- the invariant

  ghost predicate SamePassage(a: CameraEvent, b: CameraEvent) {
    a.gate.Some? && a.gate == b.gate && a.direction == b.direction && a.plate.Some? && a.plate == b.plate
  }

  /** Two captures lie strictly more than the window apart. */
  ghost predicate Apart(window: nat, a: CameraEvent, b: CameraEvent) {
    a.capturedAt + window < b.capturedAt || b.capturedAt + window < a.capturedAt
  }

  /** Keys are unique, a stored gate belongs to the sender, repeats of a passage are far apart. */
  ghost predicate EventsOk(cfg: Config, events: seq<CameraEvent>) {
    && (forall i, j :: 0 <= i < j < |events| ==> !SameKey(events[i], events[j].controller, events[j].eventId))
    && (forall i :: 0 <= i < |events| && events[i].gate.Some?
                    ==> GateBelongs(cfg, events[i].gate.value, events[i].controller))
    && (forall i, j :: 0 <= i < j < |events| && SamePassage(events[i], events[j])
                       ==> Apart(cfg.dedupWindow, events[i], events[j]))
  }

  /** The form of an engine answer: a direct status that matches its decision. */
  predicate EngineForm(e: EngineDecision) {
    (e.status == Allowed || e.status == Denied || e.status == PendingReview) && StatusMatches(e.decision, e.status)
  }

  ghost predicate TicketOk(cfg: Config, events: seq<CameraEvent>, key: Id, t: Ticket) {
    && key == KeyAt(cfg, t.input.gate, t.input.controller)
    && t.barrier == BarrierIdAt(cfg, t.input.gate)
    && (t.input.gate.Some? ==> GateBelongs(cfg, t.input.gate.value, t.input.controller))
    && EngineForm(t.engine)
    && forall i :: 0 <= i < |events| ==> !WindowMatch(events[i], t.input, cfg.dedupWindow)
  }

  /** The decision is pending, and the key is that of its event. */
  ghost predicate PendingUnder(cfg: Config, db: Db, key: Id, i: nat) {
    && StillPending(db.decisions, i) && db.decisions[i].event < |db.events|
    && key == EventKey(cfg, db.events[db.decisions[i].event])
  }

  ghost predicate OpenOk(cfg: Config, db: Db, r: OpenRequest, controller: Id, gate: Id, overdue: seq<nat>) {
    && FindBarrier(cfg.barriers, r.barrier) == Some(Barrier(r.barrier, gate, Some(controller), true))
    && (forall k :: 0 <= k < |overdue| ==>
          StillPending(db.decisions, overdue[k]) && OverduePendingAt(db, gate, r.now, overdue[k]))
    && (forall j, k :: 0 <= j < k < |overdue| ==> overdue[j] != overdue[k])
    && (forall i :: 0 <= i < |db.decisions| && OverduePendingAt(db, gate, r.now, i) ==> i in overdue)
  }

  /** What a transaction read under its lock is still true. */
  ghost predicate HeldOk(cfg: Config, db: Db, key: Id, t: Txn) {
    match t
    case Ingesting(ticket, _) => TicketOk(cfg, db.events, key, ticket)
    case Resolving(r, plan, current, _) =>
      && PendingUnder(cfg, db, key, current) && db.decisions[current].event == r.event
      && (plan.OpenPlan? ==> key == plan.barrier)
    case Expiring(i) => PendingUnder(cfg, db, key, i)
    case OpeningBarrier(r, controller, gate, overdue, _) =>
      key == r.barrier && OpenOk(cfg, db, r, controller, gate, overdue)
    case Redeeming(_, _, barrier, _, _) => key == barrier
  }

  ghost predicate DueOk(cfg: Config, db: Db, row: DueRow) {
    && row.decision < |db.decisions| && db.decisions[row.decision].event < |db.events|
    && row.key == EventKey(cfg, db.events[db.decisions[row.decision].event])
  }

  ghost predicate CoreInv(cfg: Config, s: Sys) {
    && EventsOk(cfg, s.db.events)
    && Chain(s.db.decisions, |s.db.events|)
    && (forall key :: key in s.held ==> HeldOk(cfg, s.db, key, s.held[key]))
    && (forall row :: row in s.due ==> DueOk(cfg, s.db, row))
  }

  // ---------------------------------------------------------------- keys

  /** An active barrier of an owned gate is the one whose id keys the gate's passages. */
  lemma SoleBarrier(cfg: Config, b: Barrier, controller: Id)
    requires LocksCoincide(cfg) && b in cfg.barriers && b.active && GateOwned(cfg, b.gate)
    ensures KeyAt(cfg, Some(b.gate), controller) == b.id
  {
    var first := FirstActiveBarrier(cfg.barriers, b.gate);
    assert first.Some?;
  }

  lemma JoinedKeyIsEventKey(cfg: Config, e: CameraEvent, key: Id)
    requires LocksCoincide(cfg) && key in JoinedKeys(cfg, e)
    requires e.gate.Some? ==> GateBelongs(cfg, e.gate.value, e.controller)
    ensures key == EventKey(cfg, e)
  {
    if e.gate.Some? {
      var ids := ActiveBarrierIds(cfg.barriers, e.gate.value);
      assert GateOwned(cfg, e.gate.value);
      if ids == [] {
        assert FirstActiveBarrier(cfg.barriers, e.gate.value).None?;
      } else {
        var b :| b in cfg.barriers && b.gate == e.gate.value && b.active && b.id == key;
        SoleBarrier(cfg, b, e.controller);
      }
    }
  }

  // ---------------------------------------------------------------- reads stay true under the lock

  /** The tables grew, and everything new about decisions concerns events keyed `key`. */
  ghost predicate GrewUnder(cfg: Config, before: Db, after: Db, key: Id) {
    && |before.events| <= |after.events| && after.events[..|before.events|] == before.events
    && |before.decisions| <= |after.decisions| && after.decisions[..|before.decisions|] == before.decisions
    && (forall i :: |before.events| <= i < |after.events| ==> EventKey(cfg, after.events[i]) == key)
    && (forall i :: |before.decisions| <= i < |after.decisions| ==>
          after.decisions[i].event < |after.events| && EventKey(cfg, after.events[after.decisions[i].event]) == key)
  }

  lemma OldRows(cfg: Config, before: Db, after: Db, key: Id)
    requires GrewUnder(cfg, before, after, key)
    ensures forall i :: 0 <= i < |before.events| ==> after.events[i] == before.events[i]
    ensures forall i :: 0 <= i < |before.decisions| ==> after.decisions[i] == before.decisions[i]
  {
    forall i | 0 <= i < |before.events| ensures after.events[i] == before.events[i] {
      assert after.events[..|before.events|][i] == before.events[i];
    }
    forall i | 0 <= i < |before.decisions| ensures after.decisions[i] == before.decisions[i] {
      assert after.decisions[..|before.decisions|][i] == before.decisions[i];
    }
  }

  /** Events stored under another key match nothing a ticket read. */
  lemma TicketStable(cfg: Config, before: seq<CameraEvent>, after: seq<CameraEvent>, key: Id, other: Id, t: Ticket)
    requires |before| <= |after| && forall i :: 0 <= i < |before| ==> after[i] == before[i]
    requires forall i :: |before| <= i < |after| ==> EventKey(cfg, after[i]) == key
    requires other != key && TicketOk(cfg, before, other, t)
    ensures TicketOk(cfg, after, other, t)
  {
    forall i | 0 <= i < |after| ensures !WindowMatch(after[i], t.input, cfg.dedupWindow) {
      if i >= |before| {
        assert EventKey(cfg, after[i]) == key;
      }
    }
  }

  /** A decision that is pending under one key stays pending while another key commits. */
  lemma PendingStable(cfg: Config, before: Db, after: Db, key: Id, i: nat)
    requires GrewUnder(cfg, before, after, key) && Chain(after.decisions, |after.events|)
    requires StillPending(before.decisions, i) && before.decisions[i].event < |before.events|
    requires EventKey(cfg, before.events[before.decisions[i].event]) != key
    ensures StillPending(after.decisions, i) && after.decisions[i] == before.decisions[i]
  {
    OldRows(cfg, before, after, key);
    forall k | 0 <= k < |after.decisions| ensures after.decisions[k].supersedes != Some(i) {
      assert RowOk(after.decisions, k);
      if k < |before.decisions| {
        assert before.decisions[k] in before.decisions;
      }
    }
  }

  /** Overdue pending rows at a gate keyed otherwise are not created by a commit. */
  lemma OverdueStable(cfg: Config, before: Db, after: Db, key: Id, gate: Id, now: Instant, i: nat)
    requires GrewUnder(cfg, before, after, key)
    requires Chain(before.decisions, |before.events|) && Chain(after.decisions, |after.events|)
    requires OverduePendingAt(after, gate, now, i)
    requires EventKey(cfg, after.events[after.decisions[i].event]) != key
    ensures i < |before.decisions| && OverduePendingAt(before, gate, now, i)
  {
    OldRows(cfg, before, after, key);
    PendingTwoWays(after.decisions, |after.events|, i);
    assert i < |before.decisions|;
    forall d | d in before.decisions ensures d.supersedes != Some(i) {
      assert d in after.decisions[..|before.decisions|];
    }
    PendingTwoWays(before.decisions, |before.events|, i);
  }

  lemma OpenStable(cfg: Config, before: Db, after: Db, key: Id, r: OpenRequest, controller: Id, gate: Id,
                   overdue: seq<nat>)
    requires LocksCoincide(cfg) && GrewUnder(cfg, before, after, key) && r.barrier != key
    requires EventsOk(cfg, after.events)
    requires Chain(before.decisions, |before.events|) && Chain(after.decisions, |after.events|)
    requires OpenOk(cfg, before, r, controller, gate, overdue)
    ensures OpenOk(cfg, after, r, controller, gate, overdue)
  {
    OldRows(cfg, before, after, key);
    forall e | 0 <= e < |after.events| && after.events[e].gate == Some(gate)
      ensures EventKey(cfg, after.events[e]) == r.barrier
    {
      SoleBarrier(cfg, Barrier(r.barrier, gate, Some(controller), true), after.events[e].controller);
    }
    forall k | 0 <= k < |overdue|
      ensures StillPending(after.decisions, overdue[k]) && OverduePendingAt(after, gate, r.now, overdue[k])
    {
      assert OverduePendingAt(before, gate, r.now, overdue[k]);
      PendingStable(cfg, before, after, key, overdue[k]);
      PendingTwoWays(after.decisions, |after.events|, overdue[k]);
    }
    forall i | 0 <= i < |after.decisions| && OverduePendingAt(after, gate, r.now, i) ensures i in overdue {
      OverdueStable(cfg, before, after, key, gate, r.now, i);
    }
  }

  /** While one key commits, what every other transaction read stays true. */
  lemma HeldStable(cfg: Config, before: Db, after: Db, key: Id, other: Id, t: Txn)
    requires LocksCoincide(cfg) && GrewUnder(cfg, before, after, key) && other != key
    requires EventsOk(cfg, after.events)
    requires Chain(before.decisions, |before.events|) && Chain(after.decisions, |after.events|)
    requires HeldOk(cfg, before, other, t)
    ensures HeldOk(cfg, after, other, t)
  {
    OldRows(cfg, before, after, key);
    match t
    case Ingesting(ticket, _) => TicketStable(cfg, before.events, after.events, key, other, ticket);
    case Resolving(_, _, current, _) => PendingStable(cfg, before, after, key, current);
    case Expiring(i) => PendingStable(cfg, before, after, key, i);
    case OpeningBarrier(r, controller, gate, overdue, _) =>
      OpenStable(cfg, before, after, key, r, controller, gate, overdue);
    case Redeeming(_, _, _, _, _) =>
  }

  // ---------------------------------------------------------------- what each commit does

  /** A commit keeps the tables sound and touches only decisions under its key. */
  ghost predicate SoundCommit(cfg: Config, before: Db, after: Db, key: Id) {
    EventsOk(cfg, after.events) && Chain(after.decisions, |after.events|) && GrewUnder(cfg, before, after, key)
  }

  lemma NoChange(cfg: Config, db: Db, after: Db, key: Id)
    requires EventsOk(cfg, db.events) && Chain(db.decisions, |db.events|)
    requires after.events == db.events && after.decisions == db.decisions
    ensures SoundCommit(cfg, db, after, key)
  {
  }

  lemma EventAdded(cfg: Config, events: seq<CameraEvent>, key: Id, t: Ticket)
    requires EventsOk(cfg, events) && TicketOk(cfg, events, key, t)
    requires FindEvent(events, t.input.controller, t.input.eventId).None?
    ensures EventsOk(cfg, events + [ToEvent(t.input)])
  {
    var after := events + [ToEvent(t.input)];
    forall i, j | 0 <= i < j < |after| && SamePassage(after[i], after[j])
      ensures Apart(cfg.dedupWindow, after[i], after[j])
    {
      if j == |events| {
        assert !WindowMatch(events[i], t.input, cfg.dedupWindow);
      }
    }
  }

  lemma SettledForm(db: Db, t: Ticket, clock: Instant)
    requires EngineForm(t.engine)
    ensures var s := Settle(db, t, clock); InitialStatus(s.status) && StatusMatches(s.engine.decision, s.status)
  {
  }

  /** Recording a passage appends one event and its initial decision. */
  lemma RecordedRows(cfg: Config, reg: Registry, db: Db, t: Ticket, started: Instant, clock: Instant)
    ensures var after := RecordPassage(cfg, reg, db, t, started, clock).0;
            && after.events == db.events + [ToEvent(t.input)]
            && after.decisions == db.decisions + [InitialRow(|db.events|, Settle(db, t, clock))]
  {
  }

  lemma RecordSound(cfg: Config, reg: Registry, db: Db, after: Db, key: Id, t: Ticket, s: Settled)
    requires EventsOk(cfg, db.events) && Chain(db.decisions, |db.events|) && TicketOk(cfg, db.events, key, t)
    requires FindEvent(db.events, t.input.controller, t.input.eventId).None?
    requires InitialStatus(s.status) && StatusMatches(s.engine.decision, s.status)
    requires after.events == db.events + [ToEvent(t.input)]
    requires after.decisions == db.decisions + [InitialRow(|db.events|, s)]
    ensures SoundCommit(cfg, db, after, key)
  {
    EventAdded(cfg, db.events, key, t);
    AppendInitial(db.decisions, |db.events|, InitialRow(|db.events|, s));
    RecordGrows(cfg, db, after, key, t, s);
  }

  lemma RecordGrows(cfg: Config, db: Db, after: Db, key: Id, t: Ticket, s: Settled)
    requires key == KeyAt(cfg, t.input.gate, t.input.controller)
    requires after.events == db.events + [ToEvent(t.input)]
    requires after.decisions == db.decisions + [InitialRow(|db.events|, s)]
    ensures GrewUnder(cfg, db, after, key)
  {
  }

  lemma IngestSound(cfg: Config, reg: Registry, db: Db, key: Id, t: Ticket, started: Instant, clock: Instant)
    requires EventsOk(cfg, db.events) && Chain(db.decisions, |db.events|) && TicketOk(cfg, db.events, key, t)
    ensures SoundCommit(cfg, db, CommitIngest(cfg, reg, db, t, started, clock).0, key)
  {
    if FindEvent(db.events, t.input.controller, t.input.eventId).Some? {
      NoChange(cfg, db, db, key);
    } else {
      SettledForm(db, t, clock);
      RecordedRows(cfg, reg, db, t, started, clock);
      RecordSound(cfg, reg, db, RecordPassage(cfg, reg, db, t, started, clock).0, key, t, Settle(db, t, clock));
    }
  }

  lemma TransitionSound(cfg: Config, db: Db, after: Db, key: Id, i: nat, d: DecisionType, st: DecisionStatus,
                        who: Option<Id>)
    requires EventsOk(cfg, db.events) && Chain(db.decisions, |db.events|) && PendingUnder(cfg, db, key, i)
    requires TerminalStatus(st) && StatusMatches(d, st)
    requires after.events == db.events && after.decisions == db.decisions + [Transition(db.decisions, i, d, st, who)]
    ensures SoundCommit(cfg, db, after, key)
  {
    AppendTransition(db.decisions, |db.events|, i, d, st, who);
  }

  lemma ResolveSound(cfg: Config, db: Db, key: Id, r: ResolveRequest, plan: Plan, current: nat, started: Instant,
                     clock: Instant)
    requires EventsOk(cfg, db.events) && Chain(db.decisions, |db.events|) && PendingUnder(cfg, db, key, current)
    ensures SoundCommit(cfg, db, CommitResolve(db, r, plan, current, started, clock).0, key)
  {
    var after := CommitResolve(db, r, plan, current, started, clock).0;
    match plan
    case ExpirePlan => TransitionSound(cfg, db, after, key, current, ManualReview, Expired, None);
    case DenyPlan => TransitionSound(cfg, db, after, key, current, Deny, DeniedManually, Some(r.operator));
    case OpenPlan(_, _) => TransitionSound(cfg, db, after, key, current, Allow, AllowedManually, Some(r.operator));
  }

  /** Every overdue row of a standalone opening is keyed by the barrier it locks. */
  lemma OverdueKeyed(cfg: Config, db: Db, r: OpenRequest, controller: Id, gate: Id, overdue: seq<nat>, k: nat)
    requires LocksCoincide(cfg) && EventsOk(cfg, db.events) && OpenOk(cfg, db, r, controller, gate, overdue)
    requires k < |overdue|
    ensures PendingUnder(cfg, db, r.barrier, overdue[k])
  {
    assert OverduePendingAt(db, gate, r.now, overdue[k]);
    var e := db.events[db.decisions[overdue[k]].event];
    assert GateBelongs(cfg, gate, e.controller);
    SoleBarrier(cfg, Barrier(r.barrier, gate, Some(controller), true), e.controller);
  }

  lemma ExpiredRowsKeyed(cfg: Config, db: Db, rows: seq<Decision>, key: Id, overdue: seq<nat>)
    requires Expires(db.decisions, overdue, rows)
    requires forall k :: 0 <= k < |overdue| ==> PendingUnder(cfg, db, key, overdue[k])
    ensures GrewUnder(cfg, db, db.(decisions := rows), key)
  {
    forall i | |db.decisions| <= i < |rows|
      ensures rows[i].event < |db.events| && EventKey(cfg, db.events[rows[i].event]) == key
    {
      var k := i - |db.decisions|;
      assert PendingUnder(cfg, db, key, overdue[k]);
      assert rows[|db.decisions| + k].event == db.decisions[overdue[k]].event;
    }
  }

  /** Expiring rows that are all pending under one key is a sound commit under that key. */
  lemma ExpirySound(cfg: Config, db: Db, after: Db, key: Id, overdue: seq<nat>)
    requires EventsOk(cfg, db.events) && Chain(db.decisions, |db.events|)
    requires forall k :: 0 <= k < |overdue| ==> PendingUnder(cfg, db, key, overdue[k])
    requires forall j, k :: 0 <= j < k < |overdue| ==> overdue[j] != overdue[k]
    requires after.events == db.events && after.decisions == ExpireListed(db.decisions, overdue)
    ensures SoundCommit(cfg, db, after, key)
  {
    forall k | 0 <= k < |overdue| ensures StillPending(db.decisions, overdue[k]) {
      assert PendingUnder(cfg, db, key, overdue[k]);
    }
    ExpireListedRows(db.decisions, |db.events|, overdue);
    ExpiredRowsKeyed(cfg, db, after.decisions, key, overdue);
    var same := db.(decisions := after.decisions);
    assert after.events == same.events && after.decisions == same.decisions;
  }

  lemma OpenedRows(db: Db, r: OpenRequest, controller: Id, gate: Id, overdue: seq<nat>, started: Instant,
                   clock: Instant)
    ensures var after := CommitOpen(db, r, controller, gate, overdue, started, clock).0;
            after.events == db.events && after.decisions == ExpireListed(db.decisions, overdue)
  {
  }

  lemma CommitSound(cfg: Config, reg: Registry, db: Db, key: Id, t: Txn, clock: Instant)
    requires LocksCoincide(cfg)
    requires EventsOk(cfg, db.events) && Chain(db.decisions, |db.events|) && HeldOk(cfg, db, key, t)
    ensures SoundCommit(cfg, db, CommitDb(cfg, reg, db, t, clock).0, key)
  {
    match t
    case Ingesting(ticket, started) => IngestSound(cfg, reg, db, key, ticket, started, clock);
    case Resolving(r, plan, current, started) => ResolveSound(cfg, db, key, r, plan, current, started, clock);
    case Expiring(i) => TransitionSound(cfg, db, CommitExpire(db, i), key, i, ManualReview, Expired, None);
    case OpeningBarrier(r, controller, gate, overdue, started) =>
      OpenedRows(db, r, controller, gate, overdue, started, clock);
      forall k | 0 <= k < |overdue| ensures PendingUnder(cfg, db, key, overdue[k]) {
        OverdueKeyed(cfg, db, r, controller, gate, overdue, k);
      }
      ExpirySound(cfg, db, CommitDb(cfg, reg, db, t, clock).0, key, overdue);
    case Redeeming(r, p, barrier, controller, started) =>
      NoChange(cfg, db, CommitRedeem(db, r, p, barrier, controller, started, clock).0, key);
  }

  lemma CommitKeeps(cfg: Config, s: Sys, key: Id, clock: Instant)
    requires LocksCoincide(cfg) && CoreInv(cfg, s)
    ensures CoreInv(cfg, CommitApply(cfg, s, key, clock))
  {
    if key in s.held {
      var after := CommitApply(cfg, s, key, clock);
      CommitSound(cfg, s.reg, s.db, key, s.held[key], clock);
      OldRows(cfg, s.db, after.db, key);
      forall other | other in after.held ensures HeldOk(cfg, after.db, other, after.held[other]) {
        HeldStable(cfg, s.db, after.db, key, other, s.held[other]);
      }
      forall row | row in after.due ensures DueOk(cfg, after.db, row) {
        assert DueOk(cfg, s.db, row);
      }
    }
  }

  // ---------------------------------------------------------------- what each begin reads

  lemma EngineAnswers(cfg: Config, reg: Registry, db: Db, x: Input, violation: bool)
    ensures EngineForm(Judge(cfg, reg, db, x, violation))
  {
  }

  lemma ScopeFacts(cfg: Config, x: Input)
    ensures var s := AuthorizeScope(cfg, x);
            && s.barrier == BarrierIdAt(cfg, s.gate)
            && (s.gate.Some? ==> GateBelongs(cfg, s.gate.value, x.controller))
            && IngestKey(cfg, x) == KeyAt(cfg, s.gate, x.controller)
  {
    var g := FirstActiveGate(cfg.gates, x.controller);
    assert g.Some? ==> GateBelongs(cfg, g.value, x.controller);
  }

  /** An accepted passage repeats nothing stored. */
  lemma AcceptedIsOk(cfg: Config, reg: Registry, db: Db, x: Input)
    requires forall e :: 0 <= e < |db.events| ==> InitialOf(db.decisions, e).Some?
    requires BeginIngest(cfg, reg, db, x).Accepted?
    ensures TicketOk(cfg, db.events, IngestKey(cfg, x), BeginIngest(cfg, reg, db, x).ticket)
  {
    ScopeFacts(cfg, x);
    EngineAnswers(cfg, reg, db, Sanitise(cfg, x), AuthorizeScope(cfg, x).violation);
    var b := BeginIngest(cfg, reg, db, x);
    forall i | 0 <= i < |db.events| ensures !WindowMatch(db.events[i], b.ticket.input, cfg.dedupWindow) {
      assert InitialOf(db.decisions, i).Some?;
      assert !DuplicateOf(db.events, db.decisions, b.ticket.input, cfg.dedupWindow, i);
    }
  }

  lemma IngestReads(cfg: Config, s: Sys, x: Input, started: Instant)
    requires CoreInv(cfg, s)
    ensures CoreInv(cfg, BeginIngestApply(cfg, s, x, started))
  {
    if BeginIngest(cfg, s.reg, s.db, x).Accepted? {
      AcceptedIsOk(cfg, s.reg, s.db, x);
    }
  }

  lemma ResolveReads(cfg: Config, s: Sys, r: ResolveRequest, started: Instant)
    requires CoreInv(cfg, s)
    ensures CoreInv(cfg, BeginResolveApply(cfg, s, r, started))
  {
    var b := BeginResolve(cfg, s.db, r);
    if b.Planned? {
      PendingTwoWays(s.db.decisions, |s.db.events|, b.current);
    }
  }

  lemma GrantedIsOk(cfg: Config, db: Db, r: OpenRequest)
    requires Chain(db.decisions, |db.events|) && BeginOpen(cfg, db, r).Granted?
    ensures var b := BeginOpen(cfg, db, r); OpenOk(cfg, db, r, b.controller, b.gate, b.overdue)
  {
    var b := BeginOpen(cfg, db, r);
    forall k | 0 <= k < |b.overdue| ensures StillPending(db.decisions, b.overdue[k]) {
      PendingTwoWays(db.decisions, |db.events|, b.overdue[k]);
    }
  }

  lemma OpenReads(cfg: Config, s: Sys, r: OpenRequest, started: Instant)
    requires CoreInv(cfg, s)
    ensures CoreInv(cfg, BeginOpenApply(cfg, s, r, started))
  {
    var b := BeginOpen(cfg, s.db, r);
    if b.Granted? {
      GrantedIsOk(cfg, s.db, r);
      HoldKeeps(cfg, s, r.barrier, OpeningBarrier(r, b.controller, b.gate, b.overdue, started));
    }
  }

  lemma WorkerListOk(cfg: Config, db: Db, now: Instant)
    requires LocksCoincide(cfg) && EventsOk(cfg, db.events)
    ensures forall row :: row in DueRows(cfg, db, now, |db.decisions|) ==> DueOk(cfg, db, row)
  {
    forall row | row in DueRows(cfg, db, now, |db.decisions|) ensures DueOk(cfg, db, row) {
      assert DueAs(cfg, db, now, row);
      JoinedKeyIsEventKey(cfg, db.events[db.decisions[row.decision].event], row.key);
    }
  }

  lemma WorkerReadKeeps(cfg: Config, s: Sys, now: Instant)
    requires LocksCoincide(cfg) && CoreInv(cfg, s)
    ensures CoreInv(cfg, Apply(cfg, s, WorkerRead(now)))
  {
    WorkerListOk(cfg, s.db, now);
    var due := DueRows(cfg, s.db, now, |s.db.decisions|);
    forall row | row in s.due + due ensures DueOk(cfg, s.db, row) {
      assert row in s.due || row in due;
    }
  }

  /** The invariant looks only at events, decisions, held transactions and the worker's list. */
  lemma RestIrrelevant(cfg: Config, s: Sys, after: Sys)
    requires CoreInv(cfg, s)
    requires after.db.events == s.db.events && after.db.decisions == s.db.decisions
    requires forall key :: key in after.held ==> key in s.held && after.held[key] == s.held[key]
    requires forall row :: row in after.due ==> row in s.due
    ensures CoreInv(cfg, after)
  {
    forall key | key in after.held ensures HeldOk(cfg, after.db, key, after.held[key]) {
      assert HeldOk(cfg, s.db, key, s.held[key]);
    }
    forall row | row in after.due ensures DueOk(cfg, after.db, row) {
      assert DueOk(cfg, s.db, row);
    }
  }

  /** Taking a free lock with reads that are true keeps the invariant. */
  lemma HoldKeeps(cfg: Config, s: Sys, key: Id, t: Txn)
    requires CoreInv(cfg, s) && HeldOk(cfg, s.db, key, t)
    ensures CoreInv(cfg, Hold(s, key, t))
  {
  }

  lemma WorkerTakeKeeps(cfg: Config, s: Sys, index: nat)
    requires CoreInv(cfg, s)
    ensures CoreInv(cfg, WorkerTakeApply(s, index))
  {
    if index < |s.due| && s.due[index].key !in s.held {
      var row := s.due[index];
      var rest := s.(due := s.due[..index] + s.due[index + 1..]);
      RestIrrelevant(cfg, s, rest);
      assert DueOk(cfg, s.db, row);
      if StillPending(s.db.decisions, row.decision) {
        HoldKeeps(cfg, rest, row.key, Expiring(row.decision));
      }
    }
  }

  lemma RedeemReads(cfg: Config, s: Sys, r: RedeemRequest, started: Instant)
    requires CoreInv(cfg, s)
    ensures CoreInv(cfg, BeginRedeemApply(cfg, s, r, started))
  {
    var b := BeginRedeem(cfg, s.db, r);
    if b.Candidate? {
      HoldKeeps(cfg, s, b.barrier, Redeeming(r, b.pass, b.barrier, b.controller, started));
    }
  }

  // ---------------------------------------------------------------- every run

  lemma CoreStep(cfg: Config, s: Sys, step: Step)
    requires LocksCoincide(cfg) && CoreInv(cfg, s)
    ensures CoreInv(cfg, Apply(cfg, s, step))
  {
    match step
    case BeginIngestStep(x, started) => IngestReads(cfg, s, x, started);
    case BeginResolveStep(r, started) => ResolveReads(cfg, s, r, started);
    case BeginOpenStep(r, started) => OpenReads(cfg, s, r, started);
    case BeginRedeemStep(r, started) => RedeemReads(cfg, s, r, started);
    case WorkerRead(now) => WorkerReadKeeps(cfg, s, now);
    case WorkerTake(index) => WorkerTakeKeeps(cfg, s, index);
    case Commit(key, clock) => CommitKeeps(cfg, s, key, clock);
    case _ => QuietStep(cfg, s, step);
  }

  lemma QuietStep(cfg: Config, s: Sys, step: Step)
    requires CoreInv(cfg, s)
    requires !step.BeginIngestStep? && !step.BeginResolveStep? && !step.BeginOpenStep? && !step.BeginRedeemStep?
    requires !step.WorkerRead? && !step.WorkerTake? && !step.Commit?
    ensures CoreInv(cfg, Apply(cfg, s, step))
  {
    RestIrrelevant(cfg, s, Apply(cfg, s, step));
  }

  lemma {:induction false} CoreRun(cfg: Config, s: Sys, steps: seq<Step>)
    requires LocksCoincide(cfg) && CoreInv(cfg, s)
    ensures CoreInv(cfg, Run(cfg, s, steps))
  {
    if steps != [] {
      CoreRun(cfg, s, steps[..|steps| - 1]);
      CoreStep(cfg, Run(cfg, s, steps[..|steps| - 1]), steps[|steps| - 1]);
    }
  }

  /** In every reachable state each event has one initial decision and at most one transition, keys are
    * unique, and repeats of one passage are stored strictly more than the window apart. */
  lemma ReachableIsSound(cfg: Config, reg: Registry, steps: seq<Step>)
    requires LocksCoincide(cfg)
    ensures CoreInv(cfg, Run(cfg, Start(reg), steps))
  {
    CoreRun(cfg, Start(reg), steps);
  }
}
