/** Which barrier a command opens. In every run a command orders the barrier its cause is about, and goes to the
  * controller that serves it: the passage's barrier, the barrier of the review's gate, or the barrier named by the
  * operator. */
module BarrierLaws {
  import opened Common
  import opened Domain
  import opened Engine
  import opened Queries
  import opened Transactions
  import opened Outbox
  import opened System
  import opened Chains
  import opened CoreSafety
  import opened LooseChains
  import opened EndToEnd
  import opened ScopeLaws
  import opened ResolveLaws
  import PassageLaws
  import Growth

  // ---------------------------------------------------------------- rows

  /** The equipment has an active barrier with this id that this controller serves. */
  ghost predicate ServedBy(cfg: Config, barrier: Id, controller: Id) {
    exists b :: b in cfg.barriers && b.id == barrier && b.active && b.controller == Some(controller)
  }

  /** The command orders the opening's barrier, for the opening's decision, from the controller that serves it. */
  ghost predicate OpeningOk(cfg: Config, db: Db, o: Opening) {
    && o.command < |db.commands|
    && db.commands[o.command].barrier == o.barrier && db.commands[o.command].decision == o.decision
    && ServedBy(cfg, o.barrier, db.commands[o.command].controller)
  }

  /** The passage's gate has an active barrier, and `barrier` is the first. */
  ghost predicate AtFirstBarrier(cfg: Config, e: CameraEvent, barrier: Id) {
    e.gate.Some? && exists b :: FirstBarrierOf(cfg, e.gate.value, b) && b.id == barrier
  }

  /** A command for a decision orders the first barrier of its event's gate. A direct allow is carried out by the
    * controller that reported the passage, a resolution by the one that serves the barrier. A command for no decision
    * is that of an opening. */
  ghost predicate CommandPlaced(cfg: Config, db: Db, i: nat)
    requires i < |db.commands|
  {
    match db.commands[i].decision
    case None => exists k :: 0 <= k < |db.openings| && db.openings[k].command == i
    case Some(d) =>
      && d < |db.decisions| && db.decisions[d].event < |db.events|
      && AtFirstBarrier(cfg, db.events[db.decisions[d].event], db.commands[i].barrier)
      && if db.decisions[d].supersedes.None?
         then db.commands[i].controller == db.events[db.decisions[d].event].controller
         else OpenedBy(cfg, db.events[db.decisions[d].event], db.commands[i].barrier, db.commands[i].controller)
  }

  ghost predicate Placed(cfg: Config, db: Db) {
    && (forall i :: 0 <= i < |db.commands| ==> CommandPlaced(cfg, db, i))
    && (forall k :: 0 <= k < |db.openings| ==> OpeningOk(cfg, db, db.openings[k]))
    && (forall j, k :: 0 <= j < k < |db.openings| ==> db.openings[j].command != db.openings[k].command)
  }

  /** A transaction in flight will order the right barrier. */
  ghost predicate WillPlace(cfg: Config, db: Db, t: Txn) {
    match t
    case Ingesting(ticket, _) => ticket.barrier == BarrierIdAt(cfg, ticket.input.gate)
    case Resolving(r, plan, _, _) =>
      plan.OpenPlan? ==> r.event < |db.events| && OpenedBy(cfg, db.events[r.event], plan.barrier, plan.controller)
    case OpeningBarrier(r, controller, _, _, _) => ServedBy(cfg, r.barrier, controller)
    case Redeeming(_, _, barrier, controller, _) => ServedBy(cfg, barrier, controller)
    case Expiring(_) => true
  }

  ghost predicate PlacedInv(cfg: Config, s: Sys) {
    && LooseInv(cfg, s) && CommandsOk(s.db) && Placed(cfg, s.db)
    && forall key :: key in s.held ==> WillPlace(cfg, s.db, s.held[key])
  }

  // ---------------------------------------------------------------- commits

  /** Growing tables keep every command and opening in place. */
  lemma PlacedKept(cfg: Config, before: Db, after: Db)
    requires Placed(cfg, before) && after.openings == before.openings
    requires Growth.Prefix(before.events, after.events) && Growth.Prefix(before.decisions, after.decisions)
    requires |after.commands| == |before.commands|
    requires forall i :: 0 <= i < |before.commands| ==> Growth.SameCommand(before.commands[i], after.commands[i])
    ensures Placed(cfg, after)
  {
    Growth.PrefixAt(before.events, after.events);
    Growth.PrefixAt(before.decisions, after.decisions);
    forall i | 0 <= i < |after.commands| ensures CommandPlaced(cfg, after, i) {
      assert CommandPlaced(cfg, before, i);
    }
    forall k | 0 <= k < |after.openings| ensures OpeningOk(cfg, after, after.openings[k]) {
      assert OpeningOk(cfg, before, before.openings[k]);
    }
  }

  /** One more command, for a decision; an opening with it or none. */
  lemma PlacedMore(cfg: Config, before: Db, after: Db, c: Command, rows: seq<Opening>)
    requires Placed(cfg, before) && after.events == before.events && after.decisions == before.decisions
    requires after.commands == before.commands + [c] && after.openings == before.openings + rows
    requires |rows| <= 1 && (c.decision.None? ==> |rows| == 1)
    requires |rows| == 1 ==> rows[0].command == |before.commands|
    requires c.decision.Some? ==> CommandPlaced(cfg, after, |before.commands|)
    requires |rows| == 1 ==> OpeningOk(cfg, after, rows[0])
    ensures Placed(cfg, after)
  {
    forall i | 0 <= i < |after.commands| ensures CommandPlaced(cfg, after, i) {
      if i < |before.commands| {
        assert CommandPlaced(cfg, before, i);
        if before.commands[i].decision.None? {
          var k :| 0 <= k < |before.openings| && before.openings[k].command == i;
          assert after.openings[k].command == i;
        }
      } else if c.decision.None? {
        assert after.openings[|before.openings|].command == i;
      }
    }
    forall k | 0 <= k < |after.openings| ensures OpeningOk(cfg, after, after.openings[k]) {
      if k < |before.openings| {
        assert OpeningOk(cfg, before, before.openings[k]);
      }
    }
    forall j, k | 0 <= j < k < |after.openings| ensures after.openings[j].command != after.openings[k].command {
      assert OpeningOk(cfg, before, before.openings[j]);
    }
  }

  lemma IngestPlaces(cfg: Config, reg: Registry, db: Db, t: Ticket, started: Instant, clock: Instant)
    requires WellFormed(cfg) && CommandsOk(db) && Placed(cfg, db) && t.barrier == BarrierIdAt(cfg, t.input.gate)
    ensures Placed(cfg, CommitIngest(cfg, reg, db, t, started, clock).0)
  {
    if FindEvent(db.events, t.input.controller, t.input.eventId).None? {
      var after := RecordPassage(cfg, reg, db, t, started, clock).0;
      var middle := after.(commands := db.commands);
      RecordedRows(cfg, reg, db, t, started, clock);
      PlacedKept(cfg, db, middle);
      NoCommandYet(db);
      if Commanded(Settle(db, t, clock), t.barrier) {
        FirstBarrier(cfg, ToEvent(t.input));
        PlacedMore(cfg, middle, after, after.commands[|db.commands|], []);
      }
    }
  }

  lemma FirstBarrier(cfg: Config, e: CameraEvent)
    requires WellFormed(cfg)
    ensures var b := BarrierIdAt(cfg, e.gate); b.Some? ==> AtFirstBarrier(cfg, e, b.value)
  {
    if e.gate.Some? {
      LeastBarrier(cfg.barriers, e.gate.value);
      var b := BarrierAt(cfg, e.gate);
      assert b.Some? ==> FirstBarrierOf(cfg, e.gate.value, b.value);
    }
  }

  lemma ServesItsBarrier(cfg: Config, e: CameraEvent, barrier: Id, controller: Id)
    requires OpenedBy(cfg, e, barrier, controller)
    ensures ServedBy(cfg, barrier, controller) && AtFirstBarrier(cfg, e, barrier)
  {
  }

  lemma ResolvePlaces(cfg: Config, db: Db, r: ResolveRequest, plan: Plan, current: nat, started: Instant,
                      clock: Instant)
    requires CommandsOk(db) && Placed(cfg, db) && current < |db.decisions|
    requires db.decisions[current].event == r.event < |db.events|
    requires plan.OpenPlan? ==> OpenedBy(cfg, db.events[r.event], plan.barrier, plan.controller)
    ensures Placed(cfg, CommitResolve(db, r, plan, current, started, clock).0)
  {
    var after := CommitResolve(db, r, plan, current, started, clock).0;
    var middle := after.(commands := db.commands, openings := db.openings);
    PlacedKept(cfg, db, middle);
    NoCommandYet(db);
    if plan.OpenPlan? {
      ServesItsBarrier(cfg, db.events[r.event], plan.barrier, plan.controller);
      PlacedMore(cfg, middle, after, after.commands[|db.commands|], [after.openings[|db.openings|]]);
    } else {
      assert middle == after;
    }
  }

  lemma OpenPlaces(cfg: Config, db: Db, r: OpenRequest, controller: Id, gate: Id, overdue: seq<nat>, started: Instant,
                   clock: Instant)
    requires Placed(cfg, db) && ServedBy(cfg, r.barrier, controller)
    ensures Placed(cfg, CommitOpen(db, r, controller, gate, overdue, started, clock).0)
  {
    var expired := db.(decisions := ExpireListed(db.decisions, overdue));
    var after := CommitOpen(db, r, controller, gate, overdue, started, clock).0;
    PlacedKept(cfg, db, expired);
    if ActivePendingAt(expired, gate, r.now, |expired.decisions|).None? {
      PlacedMore(cfg, expired, after, after.commands[|db.commands|], [after.openings[|db.openings|]]);
    } else {
      assert after == expired;
    }
  }

  lemma RedeemPlaces(cfg: Config, db: Db, r: RedeemRequest, p: nat, barrier: Id, controller: Id, started: Instant,
                     clock: Instant)
    requires Placed(cfg, db) && ServedBy(cfg, barrier, controller)
    ensures Placed(cfg, CommitRedeem(db, r, p, barrier, controller, started, clock).0)
  {
    var after := CommitRedeem(db, r, p, barrier, controller, started, clock).0;
    if |after.commands| > |db.commands| {
      PlacedMore(cfg, db, after, after.commands[|db.commands|], [after.openings[|db.openings|]]);
    } else {
      assert after == db;
    }
  }

  lemma CommitPlaces(cfg: Config, reg: Registry, db: Db, key: Id, t: Txn, clock: Instant)
    requires WellFormed(cfg) && CommandsOk(db) && Placed(cfg, db) && LooseHeld(cfg, db, key, t) && WillPlace(cfg, db, t)
    ensures Placed(cfg, CommitDb(cfg, reg, db, t, clock).0)
  {
    match t
    case Ingesting(ticket, started) => IngestPlaces(cfg, reg, db, ticket, started, clock);
    case Resolving(r, plan, current, started) => ResolvePlaces(cfg, db, r, plan, current, started, clock);
    case Expiring(i) => PlacedKept(cfg, db, CommitExpire(db, i));
    case OpeningBarrier(r, controller, gate, overdue, started) =>
      OpenPlaces(cfg, db, r, controller, gate, overdue, started, clock);
    case Redeeming(r, p, barrier, controller, started) =>
      RedeemPlaces(cfg, db, r, p, barrier, controller, started, clock);
  }

  lemma WillPlaceStable(cfg: Config, before: Db, after: Db, t: Txn)
    requires Growth.Prefix(before.events, after.events) && WillPlace(cfg, before, t)
    ensures WillPlace(cfg, after, t)
  {
    Growth.PrefixAt(before.events, after.events);
  }

  lemma CommitStepPlaces(cfg: Config, s: Sys, key: Id, clock: Instant)
    requires WellFormed(cfg) && PlacedInv(cfg, s)
    ensures PlacedInv(cfg, CommitApply(cfg, s, key, clock))
  {
    LooseStep(cfg, s, Commit(key, clock));
    CommandsStep(cfg, s, Commit(key, clock));
    if key in s.held {
      var after := CommitApply(cfg, s, key, clock);
      CommitPlaces(cfg, s.reg, s.db, key, s.held[key], clock);
      Growth.CommitGrows(cfg, s.reg, s.db, s.held[key], clock);
      forall other | other in after.held ensures WillPlace(cfg, after.db, after.held[other]) {
        WillPlaceStable(cfg, s.db, after.db, s.held[other]);
      }
    }
  }

  // ---------------------------------------------------------------- begins

  lemma HeldPlaces(cfg: Config, s: Sys, key: Id, t: Txn)
    requires WillPlace(cfg, s.db, t) && forall k :: k in s.held ==> WillPlace(cfg, s.db, s.held[k])
    ensures var after := Hold(s, key, t); forall k :: k in after.held ==> WillPlace(cfg, after.db, after.held[k])
  {
  }

  lemma ZoneBarrierServes(cfg: Config, barriers: seq<Barrier>, zone: Id)
    ensures var b := ZoneBarrier(cfg, barriers, zone); b.Some? ==> b.value in barriers && b.value.active
  {
  }

  /** A transaction that begins will order the right barrier. */
  lemma BeginsPlaced(cfg: Config, s: Sys, step: Step)
    requires WellFormed(cfg) && forall k :: k in s.held ==> WillPlace(cfg, s.db, s.held[k])
    requires step.BeginIngestStep? || step.BeginResolveStep? || step.BeginOpenStep? || step.BeginRedeemStep?
    ensures var after := Apply(cfg, s, step); forall k :: k in after.held ==> WillPlace(cfg, after.db, after.held[k])
  {
    match step
    case BeginIngestStep(x, started) =>
      ScopeFacts(cfg, x);
    case BeginResolveStep(r, started) =>
      if r.event < |s.db.events| {
        OpenableBarrier(cfg, s.db.events[r.event]);
      }
    case BeginOpenStep(r, started) =>
    case BeginRedeemStep(r, started) => RedeemBegins(cfg, s, r, started);
  }

  lemma RedeemBegins(cfg: Config, s: Sys, r: RedeemRequest, started: Instant)
    requires forall k :: k in s.held ==> WillPlace(cfg, s.db, s.held[k])
    ensures var after := BeginRedeemApply(cfg, s, r, started);
            forall k :: k in after.held ==> WillPlace(cfg, after.db, after.held[k])
  {
    forall zone: Id ensures var b := ZoneBarrier(cfg, cfg.barriers, zone);
                            b.Some? ==> b.value in cfg.barriers && b.value.active {
      ZoneBarrierServes(cfg, cfg.barriers, zone);
    }
  }

  lemma NothingBegins(cfg: Config, s: Sys, step: Step)
    requires !step.BeginIngestStep? && !step.BeginResolveStep? && !step.BeginOpenStep? && !step.BeginRedeemStep?
    ensures var after := Apply(cfg, s, step);
            forall k :: k in after.held ==> (k in s.held && after.held[k] == s.held[k]) || after.held[k].Expiring?
  {
  }

  lemma SameTables(cfg: Config, s: Sys, step: Step)
    requires !step.Commit?
    ensures var db := Apply(cfg, s, step).db;
            && db.events == s.db.events && db.decisions == s.db.decisions && db.openings == s.db.openings
            && |db.commands| == |s.db.commands|
  {
  }

  lemma OtherStepPlaces(cfg: Config, s: Sys, step: Step)
    requires WellFormed(cfg) && PlacedInv(cfg, s) && !step.Commit?
    ensures PlacedInv(cfg, Apply(cfg, s, step))
  {
    var after := Apply(cfg, s, step);
    LooseStep(cfg, s, step);
    CommandsStep(cfg, s, step);
    Growth.StepGrows(cfg, s, step);
    SameTables(cfg, s, step);
    PlacedKept(cfg, s.db, after.db);
    if step.BeginIngestStep? || step.BeginResolveStep? || step.BeginOpenStep? || step.BeginRedeemStep? {
      BeginsPlaced(cfg, s, step);
    } else {
      NothingBegins(cfg, s, step);
      forall k | k in after.held ensures WillPlace(cfg, after.db, after.held[k]) {
        if k in s.held && after.held[k] == s.held[k] {
          WillPlaceStable(cfg, s.db, after.db, s.held[k]);
        }
      }
    }
  }

  lemma {:induction false} PlacedRun(cfg: Config, reg: Registry, steps: seq<Step>)
    requires WellFormed(cfg)
    ensures PlacedInv(cfg, Run(cfg, Start(reg), steps))
  {
    if steps != [] {
      var front := Run(cfg, Start(reg), steps[..|steps| - 1]);
      PlacedRun(cfg, reg, steps[..|steps| - 1]);
      match steps[|steps| - 1]
      case Commit(key, clock) => CommitStepPlaces(cfg, front, key, clock);
      case step => OtherStepPlaces(cfg, front, step);
    }
  }

  // ---------------------------------------------------------------- every run

  /** In every run the command of an opening orders that opening's barrier, from the controller the equipment gives it,
    * and no two openings share a command. */
  lemma OpeningsOrderTheirBarrier(cfg: Config, reg: Registry, steps: seq<Step>, j: nat, k: nat)
    requires WellFormed(cfg) && j <= k < |Run(cfg, Start(reg), steps).db.openings|
    ensures var db := Run(cfg, Start(reg), steps).db;
            var o := db.openings[k];
            && o.command < |db.commands| && db.commands[o.command].barrier == o.barrier
            && db.commands[o.command].decision == o.decision
            && (exists b :: b in cfg.barriers && b.id == o.barrier && b.active
                            && b.controller == Some(db.commands[o.command].controller))
            && (j < k ==> db.openings[j].command != o.command)
  {
    PlacedRun(cfg, reg, steps);
    var db := Run(cfg, Start(reg), steps).db;
    assert OpeningOk(cfg, db, db.openings[k]);
  }

  /** In every run a command is placed: one for a decision orders the first barrier of the gate its event passed, one
    * for none belongs to an opening. */
  lemma CommandsOrderTheirBarrier(cfg: Config, reg: Registry, steps: seq<Step>, i: nat)
    requires WellFormed(cfg) && i < |Run(cfg, Start(reg), steps).db.commands|
    ensures CommandPlaced(cfg, Run(cfg, Start(reg), steps).db, i)
  {
    PlacedRun(cfg, reg, steps);
  }

  /** In every run a relay call that an event caused opens the first barrier of the gate the event passed. */
  lemma CallsOpenTheirBarrier(cfg: Config, reg: Registry, steps: seq<Step>, i: nat)
    requires WellFormed(cfg) && i < |Run(cfg, Start(reg), steps).edge.relayCalls|
    ensures var s := Run(cfg, Start(reg), steps);
            var c := s.edge.relayCalls[i].1;
            && c < |s.db.commands| && CommandPlaced(cfg, s.db, c)
            && s.edge.relayCalls[i].0 == s.db.commands[c].controller
            && (CauseOf(s, i).Some? ==>
                  && CauseOf(s, i).value < |s.db.events|
                  && AtFirstBarrier(cfg, s.db.events[CauseOf(s, i).value], s.db.commands[c].barrier))
  {
    PlacedRun(cfg, reg, steps);
    FullRun(cfg, Start(reg), steps);
    var s := Run(cfg, Start(reg), steps);
    assert s.edge.relayCalls[i] in s.edge.processed;
    assert CommandPlaced(cfg, s.db, s.edge.relayCalls[i].1);
  }

  // ---------------------------------------------------------------- from the camera to the relay

  /** What a device has processed it has called. */
  ghost predicate Called(s: Sys) {
    forall k :: k in s.edge.processed ==> k in s.edge.relayCalls
  }

  lemma CalledStep(cfg: Config, s: Sys, step: Step)
    requires Called(s)
    ensures Called(Apply(cfg, s, step))
  {
    var after := Apply(cfg, s, step);
    if step.HandleStep? {
      forall k | k in after.edge.processed ensures k in after.edge.relayCalls {
        assert k in s.edge.processed ==> k in s.edge.relayCalls;
      }
    } else {
      NothingHandled(cfg, s, step);
    }
  }

  lemma NothingHandled(cfg: Config, s: Sys, step: Step)
    requires !step.HandleStep?
    ensures var after := Apply(cfg, s, step).edge;
            after.processed == s.edge.processed && after.relayCalls == s.edge.relayCalls
  {
  }

  lemma {:induction false} CalledRun(cfg: Config, reg: Registry, steps: seq<Step>)
    ensures Called(Run(cfg, Start(reg), steps))
  {
    if steps != [] {
      CalledRun(cfg, reg, steps[..|steps| - 1]);
      CalledStep(cfg, Run(cfg, Start(reg), steps[..|steps| - 1]), steps[|steps| - 1]);
    }
  }

  /** The passage is allowed directly, at a barrier, and if it needs a pass the pass has an entry left. */
  predicate AllowedHere(db: Db, t: Ticket) {
    && t.engine.decision == Allow && t.engine.status == Allowed && t.barrier.Some?
    && (PassageLaws.SpendsPass(t.engine) ==> PassageLaws.EntryLeft(db.passes, t.engine))
  }

  /** In every run, once a passage that is allowed directly at a barrier is recorded and its answer reaches the device,
    * the relay of its controller is called, for that passage's barrier. */
  lemma AllowedPassageOpens(cfg: Config, reg: Registry, before: seq<Step>, x: Input, started: Instant, clock: Instant,
                            answer: bool, now: Instant)
    requires WellFormed(cfg)
    requires var s := Run(cfg, Start(reg), before);
             PassageLaws.Receivable(cfg, s, x) && AllowedHere(s.db, BeginIngest(cfg, s.reg, s.db, x).ticket)
    ensures var s := Run(cfg, Start(reg), before);
            var c := |s.db.commands|;
            var after := Apply(cfg, Run(cfg, s, PassageLaws.Receive(cfg, x, started, clock)),
                               HandleStep(Fast(x.controller, c), answer, now));
            && after.edge.relayCalls == s.edge.relayCalls + [(x.controller, c)]
            && c < |after.db.commands| && AuthorizeScope(cfg, x).barrier == Some(after.db.commands[c].barrier)
  {
    var s := Run(cfg, Start(reg), before);
    var c := |s.db.commands|;
    PlacedRun(cfg, reg, before);
    FullRun(cfg, Start(reg), before);
    CalledRun(cfg, reg, before);
    FreshCommand(s, x.controller);
    ReceivedIsDelivered(cfg, s, x, started, clock);
    HandledCalls(cfg, Run(cfg, s, PassageLaws.Receive(cfg, x, started, clock)), x.controller, c, answer, now);
  }

  /** No device has processed a command that does not exist yet. */
  lemma FreshCommand(s: Sys, controller: Id)
    requires EdgeOk(s) && Called(s)
    ensures (controller, |s.db.commands|) !in s.edge.processed
  {
    var k := (controller, |s.db.commands|);
    forall i | 0 <= i < |s.edge.relayCalls| ensures s.edge.relayCalls[i] != k {
    }
    assert k !in s.edge.relayCalls;
  }

  lemma HandledCalls(cfg: Config, s: Sys, controller: Id, c: nat, answer: bool, now: Instant)
    requires Fast(controller, c) in s.edge.inbox && (controller, c) !in s.edge.processed
    ensures var after := Apply(cfg, s, HandleStep(Fast(controller, c), answer, now));
            after.db == s.db && after.edge.relayCalls == s.edge.relayCalls + [(controller, c)]
  {
  }

  lemma ReceivedIsDelivered(cfg: Config, s: Sys, x: Input, started: Instant, clock: Instant)
    requires CommandsOk(s.db) && PassageLaws.Receivable(cfg, s, x)
    requires AllowedHere(s.db, BeginIngest(cfg, s.reg, s.db, x).ticket)
    ensures var c := |s.db.commands|;
            var after := Run(cfg, s, PassageLaws.Receive(cfg, x, started, clock));
            && |after.db.commands| == c + 1 && Fast(x.controller, c) in after.edge.inbox
            && AuthorizeScope(cfg, x).barrier == Some(after.db.commands[c].barrier)
            && after.edge.processed == s.edge.processed && after.edge.relayCalls == s.edge.relayCalls
  {
    var t := BeginIngest(cfg, s.reg, s.db, x).ticket;
    PassageLaws.PassRuns(cfg, s, x, started, clock);
    PassageLaws.AcceptedCarries(cfg, s.reg, s.db, x);
    OrderReturned(cfg, s.reg, s.db, t, started, clock);
    AnswerDelivered(cfg, s, x, started, clock);
  }

  /** The command of a recorded passage's answer is on its way to the device. */
  lemma AnswerDelivered(cfg: Config, s: Sys, x: Input, started: Instant, clock: Instant)
    requires PassageLaws.Receivable(cfg, s, x)
    ensures var t := BeginIngest(cfg, s.reg, s.db, x).ticket;
            var r := CommitIngest(cfg, s.reg, s.db, t, started, clock).1;
            var edge := Run(cfg, s, PassageLaws.Receive(cfg, x, started, clock)).edge;
            && edge.processed == s.edge.processed && edge.relayCalls == s.edge.relayCalls
            && (r.command.Some? ==> Fast(x.controller, r.command.value.command) in edge.inbox)
  {
    var t, key := BeginIngest(cfg, s.reg, s.db, x).ticket, IngestKey(cfg, x);
    RunTwo(cfg, s, BeginIngestStep(x, started), Commit(key, clock));
    assert BeginIngestApply(cfg, s, x, started) == Hold(s, key, Ingesting(t, started));
    HandedOver(cfg, Hold(s, key, Ingesting(t, started)), key, clock);
  }

  /** Recording such a passage adds a command for its barrier and answers with it. */
  lemma OrderReturned(cfg: Config, reg: Registry, db: Db, t: Ticket, started: Instant, clock: Instant)
    requires CommandsOk(db) && AllowedHere(db, t)
    requires FindEvent(db.events, t.input.controller, t.input.eventId).None?
    ensures var (after, r) := CommitIngest(cfg, reg, db, t, started, clock);
            && |after.commands| == |db.commands| + 1 && after.commands[|db.commands|].barrier == t.barrier.value
            && r.command.Some? && r.command.value.command == |db.commands|
  {
    NoCommandYet(db);
    PassageLaws.PassageWritten(cfg, reg, db, t, started, clock);
    forall i | 0 <= i < |db.events| ensures !SameKey(db.events[i], t.input.controller, t.input.eventId) {
    }
  }

  /** The command of an answer travels with it. */
  lemma HandedOver(cfg: Config, s: Sys, key: Id, clock: Instant)
    requires key in s.held && s.held[key].Ingesting?
    ensures var t := s.held[key];
            var r := CommitIngest(cfg, s.reg, s.db, t.ticket, t.started, clock).1;
            var after := CommitApply(cfg, s, key, clock).edge;
            && after.processed == s.edge.processed && after.relayCalls == s.edge.relayCalls
            && (r.command.Some? ==> Fast(t.ticket.input.controller, r.command.value.command) in after.inbox)
  {
  }
}
