/** From a camera to a relay: each event opens a barrier at most once, and only if its decision is allow. */
module EndToEnd {
  import opened Common
  import opened Domain
  import opened Engine
  import opened Queries
  import opened Transactions
  import opened Outbox
  import opened System
  import opened Chains
  import opened CoreSafety
  import opened LooseChains
  import Growth

  // ---------------------------------------------------------------- commands

  /** The decision is one that orders an opening: a direct allow, or a review resolved by opening. */
  predicate Orders(d: Decision) {
    d.decision == Allow && d.status == (if d.supersedes.None? then Allowed else AllowedManually)
  }

  ghost predicate CommandOk(db: Db, i: nat)
    requires i < |db.commands|
  {
    db.commands[i].decision.Some? ==>
      var d := db.commands[i].decision.value;
      && d < |db.decisions| && Orders(db.decisions[d]) && db.decisions[d].event < |db.events|
      && (db.decisions[d].supersedes.None? ==> db.commands[i].controller == db.events[db.decisions[d].event].controller)
  }

  /** Every command that serves a decision serves an ordering one, and no two serve the same. */
  ghost predicate CommandsOk(db: Db) {
    && (forall i :: 0 <= i < |db.commands| ==> CommandOk(db, i))
    && (forall i, j :: 0 <= i < j < |db.commands| && db.commands[i].decision.Some?
                       ==> db.commands[i].decision != db.commands[j].decision)
  }

  /** Growing the events and decisions keeps the commands in order. */
  lemma CommandsKept(before: Db, after: Db)
    requires CommandsOk(before)
    requires |before.events| <= |after.events|
    requires forall i :: 0 <= i < |before.events| ==> after.events[i] == before.events[i]
    requires |before.decisions| <= |after.decisions|
    requires forall i :: 0 <= i < |before.decisions| ==> after.decisions[i] == before.decisions[i]
    requires after.commands == before.commands
    ensures CommandsOk(after)
  {
    forall i | 0 <= i < |after.commands| ensures CommandOk(after, i) {
      assert CommandOk(before, i);
    }
  }

  /** So does adding a command for nothing, or for an ordering decision that had none. */
  lemma CommandAdded(before: Db, after: Db, c: Command)
    requires CommandsOk(before)
    requires after.events == before.events && after.decisions == before.decisions
    requires after.commands == before.commands + [c]
    requires c.decision.Some? ==> CommandFor(before.commands, c.decision.value).None?
    requires CommandOk(after, |before.commands|)
    ensures CommandsOk(after)
  {
    forall i | 0 <= i < |after.commands| ensures CommandOk(after, i) {
      if i < |before.commands| {
        assert CommandOk(before, i);
      }
    }
  }

  lemma NoCommandYet(db: Db)
    requires CommandsOk(db)
    ensures CommandFor(db.commands, |db.decisions|).None?
  {
    forall i | 0 <= i < |db.commands| ensures db.commands[i].decision != Some(|db.decisions|) {
      assert CommandOk(db, i);
    }
  }

  lemma IngestCommands(cfg: Config, reg: Registry, db: Db, t: Ticket, started: Instant, clock: Instant)
    requires CommandsOk(db) && EngineForm(t.engine)
    ensures CommandsOk(CommitIngest(cfg, reg, db, t, started, clock).0)
  {
    if FindEvent(db.events, t.input.controller, t.input.eventId).None? {
      var after := RecordPassage(cfg, reg, db, t, started, clock).0;
      var middle := after.(commands := db.commands);
      RecordedRows(cfg, reg, db, t, started, clock);
      CommandsKept(db, middle);
      NoCommandYet(db);
      if Commanded(Settle(db, t, clock), t.barrier) {
        CommandAdded(middle, after, after.commands[|db.commands|]);
      }
    }
  }

  lemma ResolveCommands(db: Db, r: ResolveRequest, plan: Plan, current: nat, started: Instant, clock: Instant)
    requires CommandsOk(db) && current < |db.decisions| && db.decisions[current].event < |db.events|
    ensures CommandsOk(CommitResolve(db, r, plan, current, started, clock).0)
  {
    var after := CommitResolve(db, r, plan, current, started, clock).0;
    var middle := after.(commands := db.commands);
    CommandsKept(db, middle);
    NoCommandYet(db);
    if plan.OpenPlan? {
      CommandAdded(middle, after, after.commands[|db.commands|]);
    }
  }

  lemma OpenCommands(db: Db, r: OpenRequest, controller: Id, gate: Id, overdue: seq<nat>, started: Instant,
                     clock: Instant)
    requires CommandsOk(db)
    ensures CommandsOk(CommitOpen(db, r, controller, gate, overdue, started, clock).0)
  {
    var expired := db.(decisions := ExpireListed(db.decisions, overdue));
    forall i | 0 <= i < |db.decisions| ensures expired.decisions[i] == db.decisions[i] {
      assert expired.decisions[..|db.decisions|][i] == db.decisions[i];
    }
    CommandsKept(db, expired);
    var after := CommitOpen(db, r, controller, gate, overdue, started, clock).0;
    if ActivePendingAt(expired, gate, r.now, |expired.decisions|).None? {
      CommandAdded(expired, after, after.commands[|db.commands|]);
    } else {
      assert after == expired;
    }
  }

  lemma CommitCommands(cfg: Config, reg: Registry, db: Db, key: Id, t: Txn, clock: Instant)
    requires CommandsOk(db) && LooseHeld(cfg, db, key, t)
    ensures CommandsOk(CommitDb(cfg, reg, db, t, clock).0)
  {
    match t
    case Ingesting(ticket, started) => IngestCommands(cfg, reg, db, ticket, started, clock);
    case Resolving(r, plan, current, started) => ResolveCommands(db, r, plan, current, started, clock);
    case Expiring(i) => CommandsKept(db, CommitExpire(db, i));
    case OpeningBarrier(r, controller, gate, overdue, started) =>
      OpenCommands(db, r, controller, gate, overdue, started, clock);
    case Redeeming(r, p, barrier, controller, started) =>
      var after := CommitRedeem(db, r, p, barrier, controller, started, clock).0;
      if |after.commands| > |db.commands| {
        CommandAdded(db, after, after.commands[|db.commands|]);
      }
  }

  /** Leases and acknowledgements change neither owner nor purpose of a command. */
  lemma CommandsRelabelled(before: Db, after: Db)
    requires CommandsOk(before) && after.events == before.events && after.decisions == before.decisions
    requires |after.commands| == |before.commands|
    requires forall i :: 0 <= i < |after.commands| ==>
               && after.commands[i].decision == before.commands[i].decision
               && after.commands[i].controller == before.commands[i].controller
    ensures CommandsOk(after)
  {
    forall i | 0 <= i < |after.commands| ensures CommandOk(after, i) {
      assert CommandOk(before, i);
    }
  }

  lemma CommandsStep(cfg: Config, s: Sys, step: Step)
    requires LooseInv(cfg, s) && CommandsOk(s.db)
    ensures CommandsOk(Apply(cfg, s, step).db)
  {
    match step
    case Commit(key, clock) =>
      if key in s.held {
        CommitCommands(cfg, s.reg, s.db, key, s.held[key], clock);
      }
    case _ => QuietForCommands(cfg, s, step);
  }

  lemma QuietForCommands(cfg: Config, s: Sys, step: Step)
    requires CommandsOk(s.db) && !step.Commit?
    ensures CommandsOk(Apply(cfg, s, step).db)
  {
    CommandsRelabelled(s.db, Apply(cfg, s, step).db);
  }

  /** The event whose decision a command serves. */
  function EventOf(db: Db, command: nat): Option<nat> {
    if command < |db.commands| && db.commands[command].decision.Some?
       && db.commands[command].decision.value < |db.decisions|
    then Some(db.decisions[db.commands[command].decision.value].event) else None
  }

  /** An event has at most one command over its whole chain. */
  lemma OneCommandPerEvent(db: Db, i: nat, j: nat)
    requires LooseChain(db.decisions, |db.events|) && CommandsOk(db)
    requires EventOf(db, i).Some? && EventOf(db, i) == EventOf(db, j)
    ensures i == j
  {
    assert CommandOk(db, i) && CommandOk(db, j);
    OneOrder(db.decisions, |db.events|, db.commands[i].decision.value, db.commands[j].decision.value);
  }

  /** An event has at most one ordering decision: its direct allow, or the one resolution by opening. */
  lemma OneOrder(decisions: seq<Decision>, n: nat, a: nat, b: nat)
    requires LooseChain(decisions, n) && a < |decisions| && b < |decisions|
    requires Orders(decisions[a]) && Orders(decisions[b]) && decisions[a].event == decisions[b].event
    ensures a == b
  {
    assert RowOk(decisions, a) && RowOk(decisions, b);
    assert decisions[a].supersedes.Some? <==> Resolution(decisions[a]);
    assert decisions[b].supersedes.Some? <==> Resolution(decisions[b]);
  }

  /** An ordering decision is current for good. */
  lemma OrderIsCurrent(decisions: seq<Decision>, n: nat, d: nat)
    requires Chain(decisions, n) && d < |decisions| && Orders(decisions[d])
    ensures LatestOf(decisions, decisions[d].event) == Some(d)
  {
    FinalRowsStay(decisions, n, d);
    LatestIsUnsuperseded(decisions, n, d);
  }

  // ---------------------------------------------------------------- edge devices

  ghost predicate DeliveryOk(commands: seq<Command>, d: Delivery) {
    d.command < |commands| && commands[d.command].controller == d.controller
  }

  /** Deliveries reach the controller their command belongs to; the relay log has no repeats and every
    * call in it is on record as processed. */
  ghost predicate EdgeOk(s: Sys) {
    && (forall d :: d in s.edge.inbox ==> DeliveryOk(s.db.commands, d))
    && (forall i :: 0 <= i < |s.edge.relayCalls| ==>
          && s.edge.relayCalls[i] in s.edge.processed
          && s.edge.relayCalls[i].1 < |s.db.commands|
          && s.db.commands[s.edge.relayCalls[i].1].controller == s.edge.relayCalls[i].0)
    && (forall i, j :: 0 <= i < j < |s.edge.relayCalls| ==> s.edge.relayCalls[i] != s.edge.relayCalls[j])
  }

  /** The command of an event's initial decision belongs to the controller that reported the event. */
  lemma StoredAnswerOwner(db: Db, event: nat)
    requires CommandsOk(db) && event < |db.events|
    ensures var r := LoadExisting(db, event);
            r.command.Some? ==> DeliveryOk(db.commands, Fast(db.events[event].controller, r.command.value.command))
  {
    var d := InitialOf(db.decisions, event);
    if d.Some? {
      var c := CommandFor(db.commands, d.value);
      if c.Some? {
        assert CommandOk(db, c.value);
      }
    }
  }

  lemma GateHasOneController(cfg: Config, gate: Id, a: Id, b: Id)
    requires WellFormed(cfg) && GateBelongs(cfg, gate, a) && GateBelongs(cfg, gate, b)
    ensures a == b
  {
    var g :| g in cfg.gates && g.id == gate && g.controller == Some(a);
    var h :| h in cfg.gates && h.id == gate && h.controller == Some(b);
    var i :| 0 <= i < |cfg.gates| && cfg.gates[i] == g;
    var j :| 0 <= j < |cfg.gates| && cfg.gates[j] == h;
    assert i == j;
  }

  lemma BeginDelivers(cfg: Config, s: Sys, x: Input, started: Instant)
    requires WellFormed(cfg) && LooseInv(cfg, s) && CommandsOk(s.db) && EdgeOk(s)
    ensures EdgeOk(BeginIngestApply(cfg, s, x, started))
  {
    var y := Sanitise(cfg, x);
    var existing := FindEvent(s.db.events, y.controller, y.eventId);
    ScopeFacts(cfg, x);
    if existing.Some? {
      StoredAnswerOwner(s.db, existing.value);
    } else {
      var dup := FindWindowDuplicate(s.db.events, s.db.decisions, y, cfg.dedupWindow, |s.db.events|);
      if dup.Some? {
        StoredAnswerOwner(s.db, dup.value);
        GateHasOneController(cfg, y.gate.value, s.db.events[dup.value].controller, x.controller);
      }
    }
  }

  /** What an ingestion commit hands to the edge is a command of the reporting controller. */
  lemma CommitAnswerOwner(cfg: Config, reg: Registry, db: Db, t: Ticket, started: Instant, clock: Instant)
    requires CommandsOk(db)
    ensures var r := CommitIngest(cfg, reg, db, t, started, clock);
            r.1.command.Some? ==> DeliveryOk(r.0.commands, Fast(t.input.controller, r.1.command.value.command))
  {
    var existing := FindEvent(db.events, t.input.controller, t.input.eventId);
    if existing.Some? {
      StoredAnswerOwner(db, existing.value);
    } else {
      NoCommandYet(db);
    }
  }

  /** Only the identity of commands matters to the edge. */
  lemma EdgeKept(s: Sys, after: Sys)
    requires EdgeOk(s) && after.edge.relayCalls == s.edge.relayCalls && after.edge.processed == s.edge.processed
    requires |s.db.commands| <= |after.db.commands|
    requires forall i :: 0 <= i < |s.db.commands| ==> after.db.commands[i].controller == s.db.commands[i].controller
    requires forall d :: d in after.edge.inbox ==> d in s.edge.inbox || DeliveryOk(after.db.commands, d)
    ensures EdgeOk(after)
  {
    forall d | d in after.edge.inbox ensures DeliveryOk(after.db.commands, d) {
      assert d in s.edge.inbox ==> DeliveryOk(s.db.commands, d);
    }
  }

  lemma CommitDelivers(cfg: Config, s: Sys, key: Id, clock: Instant)
    requires CommandsOk(s.db) && EdgeOk(s)
    ensures EdgeOk(CommitApply(cfg, s, key, clock))
  {
    if key in s.held {
      var t := s.held[key];
      var after := CommitApply(cfg, s, key, clock);
      Growth.CommitGrows(cfg, s.reg, s.db, t, clock);
      forall i | 0 <= i < |s.db.commands| ensures after.db.commands[i].controller == s.db.commands[i].controller {
        assert Growth.SameCommand(s.db.commands[i], after.db.commands[i]);
      }
      if t.Ingesting? {
        CommitAnswerOwner(cfg, s.reg, s.db, t.ticket, t.started, clock);
      }
      EdgeKept(s, after);
    }
  }

  lemma HandleCalls(s: Sys, d: Delivery, answer: bool, now: Instant)
    requires EdgeOk(s)
    ensures EdgeOk(HandleApply(s, d, answer, now))
  {
    if d in s.edge.inbox {
      assert DeliveryOk(s.db.commands, d);
    }
  }

  lemma EdgeStep(cfg: Config, s: Sys, step: Step)
    requires WellFormed(cfg) && LooseInv(cfg, s) && CommandsOk(s.db) && EdgeOk(s)
    ensures EdgeOk(Apply(cfg, s, step))
  {
    match step
    case BeginIngestStep(x, started) => BeginDelivers(cfg, s, x, started);
    case Commit(key, clock) => CommitDelivers(cfg, s, key, clock);
    case HandleStep(d, answer, now) => HandleCalls(s, d, answer, now);
    case _ => QuietAtTheEdge(cfg, s, step);
  }

  lemma QuietAtTheEdge(cfg: Config, s: Sys, step: Step)
    requires EdgeOk(s) && !step.BeginIngestStep? && !step.Commit? && !step.HandleStep?
    ensures EdgeOk(Apply(cfg, s, step))
  {
    EdgeKept(s, Apply(cfg, s, step));
  }

  // ---------------------------------------------------------------- every run

  ghost predicate FullInv(cfg: Config, s: Sys) {
    LooseInv(cfg, s) && CommandsOk(s.db) && EdgeOk(s)
  }

  lemma {:induction false} FullRun(cfg: Config, s: Sys, steps: seq<Step>)
    requires WellFormed(cfg) && FullInv(cfg, s)
    ensures FullInv(cfg, Run(cfg, s, steps))
  {
    if steps != [] {
      var front := Run(cfg, s, steps[..|steps| - 1]);
      FullRun(cfg, s, steps[..|steps| - 1]);
      LooseStep(cfg, front, steps[|steps| - 1]);
      CommandsStep(cfg, front, steps[|steps| - 1]);
      EdgeStep(cfg, front, steps[|steps| - 1]);
    }
  }

  /** In every run, over all relays together, a command is opened at most once. */
  lemma CommandOpenedAtMostOnce(s: Sys, i: nat, j: nat)
    requires EdgeOk(s) && i < |s.edge.relayCalls| && j < |s.edge.relayCalls|
    requires s.edge.relayCalls[i].1 == s.edge.relayCalls[j].1
    ensures i == j
  {
    assert s.edge.relayCalls[i] == s.edge.relayCalls[j];
  }

  /** The camera event behind the i-th relay call; none for a standalone or guest-code opening. */
  function CauseOf(s: Sys, i: nat): Option<nat>
    requires i < |s.edge.relayCalls|
  {
    EventOf(s.db, s.edge.relayCalls[i].1)
  }

  lemma OneCallPerEvent(cfg: Config, s: Sys, i: nat, j: nat)
    requires FullInv(cfg, s) && i < |s.edge.relayCalls| && j < |s.edge.relayCalls|
    requires CauseOf(s, i).Some? && CauseOf(s, i) == CauseOf(s, j)
    ensures i == j
  {
    OneCommandPerEvent(s.db, s.edge.relayCalls[i].1, s.edge.relayCalls[j].1);
    CommandOpenedAtMostOnce(s, i, j);
  }

  /** Every relay call that an event caused is of an event whose current decision is allow. */
  ghost predicate CallsAllowed(s: Sys) {
    forall i :: 0 <= i < |s.edge.relayCalls| && CauseOf(s, i).Some? ==> AllowedNow(s.db, CauseOf(s, i).value)
  }

  ghost predicate AllowedNow(db: Db, event: nat) {
    var d := LatestOf(db.decisions, event);
    d.Some? && db.decisions[d.value].decision == Allow
  }

  lemma CallIsAllowed(cfg: Config, s: Sys, i: nat)
    requires FullInv(cfg, s) && Chain(s.db.decisions, |s.db.events|)
    requires i < |s.edge.relayCalls| && CauseOf(s, i).Some?
    ensures AllowedNow(s.db, CauseOf(s, i).value)
  {
    var c := s.edge.relayCalls[i].1;
    assert CommandOk(s.db, c);
    OrderIsCurrent(s.db.decisions, |s.db.events|, s.db.commands[c].decision.value);
  }

  /** End to end: whatever the interleaving, replays, lost messages, restarts and barriers, a camera event causes
    * at most one relay call; and where lock keys coincide its current decision is then allow. */
  lemma AtMostOneOpeningPerEvent(cfg: Config, reg: Registry, steps: seq<Step>)
    requires WellFormed(cfg)
    ensures var s := Run(cfg, Start(reg), steps);
            && (forall i, j :: 0 <= i < j < |s.edge.relayCalls| ==>
                  CauseOf(s, i).None? || CauseOf(s, i) != CauseOf(s, j))
            && (LocksCoincide(cfg) ==> CallsAllowed(s))
  {
    FullRun(cfg, Start(reg), steps);
    var s := Run(cfg, Start(reg), steps);
    forall i, j | 0 <= i < j < |s.edge.relayCalls| ensures CauseOf(s, i).None? || CauseOf(s, i) != CauseOf(s, j) {
      if CauseOf(s, i).Some? && CauseOf(s, i) == CauseOf(s, j) {
        OneCallPerEvent(cfg, s, i, j);
      }
    }
    if LocksCoincide(cfg) {
      ReachableIsSound(cfg, reg, steps);
      forall i | 0 <= i < |s.edge.relayCalls| && CauseOf(s, i).Some? ensures AllowedNow(s.db, CauseOf(s, i).value) {
        CallIsAllowed(cfg, s, i);
      }
    }
  }
}
