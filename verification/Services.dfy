/** The services, statement by statement, against the tables; each is proved equal to the transaction
  * the transition system uses for it. */
module Services {
  import opened Common
  import opened Domain
  import opened Engine
  import opened Queries
  import opened Transactions
  import opened Outbox
  import opened Repositories
  import opened Expiry

  // ---------------------------------------------------------------- ingestion

  /** Spend the pass the engine allowed by, and match a manual review with a recent opening. */
  method SettleAnswer(t: Tables, ticket: Ticket, clock: Instant)
    returns (engine: EngineDecision, finalStatus: DecisionStatus, deadline: Option<Instant>)
    modifies t`passes
    ensures Settled(engine, finalStatus, deadline, t.passes) == Settle(old(t.Contents()), ticket, clock)
  {
    engine := ticket.engine;
    finalStatus := engine.status;
    deadline := None;
    if TaxiAllow(engine) {
      var spent := t.ConsumeTaxiEntry(engine.pass.value);
      if !spent {
        engine := DenyFor(PassAlreadyUsed, None, engine.pass);
        finalStatus := engine.status;
      }
    }
    if engine.decision == ManualReview {
      if ticket.barrier.Some? && RecentOpenExists(t.openings, ticket.barrier.value, ticket.input.capturedAt) {
        engine := engine.(decision := Allow, status := AllowedManually);
        finalStatus := AllowedManually;
      } else {
        finalStatus := PendingReview;
        deadline := Some(clock + MANUAL_REVIEW_DEADLINE);
      }
    }
  }

  /** An allowed exit ends the vehicle's session, a directly allowed entry starts one. */
  method UpdateSessions(reg: Registry, t: Tables, x: Input, event: nat, s: Settled)
    modifies t`sessions
    ensures t.sessions == TrackPresence(reg, old(t.sessions), x, event, s)
  {
    if s.engine.decision == Allow && s.engine.vehicle.Some? && x.zone.Some? {
      var vehicle := s.engine.vehicle.value;
      if x.direction == Exit {
        var _ := t.CloseOpenSession(vehicle, x.zone.value, x.capturedAt, event);
      } else if s.status == Allowed {
        var _ := t.OpenSession(vehicle, ApartmentOf(reg.links, vehicle), x.zone.value, x.capturedAt, event);
      }
    }
  }

  /** A direct allow at a barrier orders one opening. */
  method OrderOpening(cfg: Config, t: Tables, x: Input, s: Settled, barrier: Option<Id>, decision: nat,
                      started: Instant, clock: Instant) returns (command: Option<CommandOut>)
    modifies t`commands
    ensures var place := if barrier.Some? then barrier.value else 1;
            var created := Transactions.CreateOpenCommand(old(t.commands), x.controller, place, Some(decision), started,
                                                          clock + cfg.commandTtl);
            if Commanded(s, barrier) then t.commands == created.0 && command == Some(created.1)
            else t.commands == old(t.commands) && command == None
  {
    command := None;
    if s.engine.decision == Allow && s.status == Allowed && barrier.Some? {
      var out := t.CreateOpenCommand(x.controller, barrier.value, Some(decision), started, clock + cfg.commandTtl);
      command := Some(out);
    }
  }

  /** Write an accepted passage. Another transaction may have stored its key since it was looked up. */
  method RecordIngest(cfg: Config, reg: Registry, t: Tables, ticket: Ticket, started: Instant, clock: Instant)
    returns (result: IngestResult)
    modifies t
    ensures (t.Contents(), result) == CommitIngest(cfg, reg, old(t.Contents()), ticket, started, clock)
  {
    var x := ticket.input;
    var inserted := t.InsertIdempotent(x);
    if inserted.None? {
      var existing := FindEvent(t.events, x.controller, x.eventId);
      return LoadExisting(t.Contents(), existing.value);
    }
    var event := inserted.value;
    var engine, finalStatus, deadline := SettleAnswer(t, ticket, clock);
    var s := Settled(engine, finalStatus, deadline, t.passes);
    assert s == Settle(old(t.Contents()), ticket, clock);

    var decision := t.InsertInitial(event, engine, finalStatus, deadline);
    assert t.decisions == old(t.decisions) + [InitialRow(event, s)];
    var apartment := if engine.vehicle.Some? then ApartmentOf(reg.links, engine.vehicle.value) else None;
    t.Journal(Passage(decision, t.decisions[decision], x.zone, x.direction, apartment));

    var command := OrderOpening(cfg, t, x, s, ticket.barrier, decision, started, clock);
    UpdateSessions(reg, t, x, event, s);
    result := IngestResult(engine.decision, finalStatus, engine.reason, Some(decision), command, false);
  }

  method RunIngest(cfg: Config, reg: Registry, t: Tables, claimed: Input, started: Instant, clock: Instant)
    returns (result: IngestResult)
    modifies t
    ensures match BeginIngest(cfg, reg, old(t.Contents()), claimed)
            case Replayed(saved) => result == saved && t.Contents() == old(t.Contents())
            case Accepted(ticket) =>
              (t.Contents(), result) == CommitIngest(cfg, reg, old(t.Contents()), ticket, started, clock)
  {
    var scope := AuthorizeScope(cfg, claimed);
    var x := claimed.(zone := scope.zone, gate := scope.gate);
    var existing := FindEvent(t.events, x.controller, x.eventId);
    if existing.Some? {
      return LoadExisting(t.Contents(), existing.value);
    }
    var duplicate := FindWindowDuplicate(t.events, t.decisions, x, cfg.dedupWindow, |t.events|);
    if duplicate.Some? {
      return LoadExisting(t.Contents(), duplicate.value);
    }
    var engine;
    if scope.violation {
      engine := DenyFor(ZoneNotAllowed, None, None);
    } else if x.direction == Exit {
      engine := DecideExit(reg, x.plate);
    } else {
      engine := Decide(reg, t.passes, t.sessions, EngineInputOf(x), cfg.threshold);
    }
    result := RecordIngest(cfg, reg, t, Ticket(x, scope.barrier, engine), started, clock);
  }

  // ---------------------------------------------------------------- lifecycle

  method ResolveEvent(cfg: Config, t: Tables, r: ResolveRequest, started: Instant, clock: Instant)
    returns (outcome: ResolveOutcome)
    modifies t
    ensures match BeginResolve(cfg, old(t.Contents()), r)
            case Answered(saved) => outcome == saved && t.Contents() == old(t.Contents())
            case Planned(plan, i) =>
              (t.Contents(), outcome) == CommitResolve(old(t.Contents()), r, plan, i, started, clock)
  {
    if r.action == UnknownAction {
      return InvalidAction;
    }
    if r.event >= |t.events| {
      return NoPendingReview;
    }
    var latest := LatestOf(t.decisions, r.event);
    if latest.None? {
      return NoPendingReview;
    }
    var current := latest.value;
    var row := t.decisions[current];
    if row.status == PendingReview && row.deadline.Some? && row.deadline.value < r.now {
      var expired := t.InsertTransition(current, Expired, ManualReview, None);
      t.Journal(ReviewExpired(expired, true));
      return Resolved(Expired, expired, None, false);
    }
    if row.status != PendingReview {
      return Resolved(row.status, current,
                      if row.status == AllowedManually then CommandFor(t.commands, current) else None, true);
    }
    if r.decision.Some? && r.decision.value != current {
      return DecisionMismatch;
    }
    if r.action == OpenAction {
      if Blank(r.reason) || r.barrier.None? || r.decision.None? {
        return InvalidAction;
      }
      var b := BarrierAt(cfg, t.events[r.event].gate);
      if b.None? || b.value.controller.None? {
        return BarrierUnavailable;
      }
      var id := t.InsertTransition(current, AllowedManually, Allow, Some(r.operator));
      var out := t.CreateOpenCommand(b.value.controller.value, b.value.id, Some(id), started,
                                     clock + MANUAL_COMMAND_TTL);
      var _ := t.InsertOpening(Opening(b.value.id, out.command, Some(id), r.operator, r.reason.value, Some(r.event),
                                       started));
      t.Journal(ReviewOpened(id, r.operator));
      return Resolved(AllowedManually, id, Some(out.command), false);
    }
    if Blank(r.reason) {
      return InvalidAction;
    }
    var id := t.InsertTransition(current, DeniedManually, Deny, Some(r.operator));
    t.Journal(ReviewDenied(id, r.operator));
    outcome := Resolved(DeniedManually, id, None, false);
  }

  /** Expire every listed review that is still pending. */
  method LazyExpire(t: Tables, ids: seq<nat>)
    modifies t`decisions
    ensures t.decisions == ExpireListed(old(t.decisions), ids)
  {
    var k := 0;
    while k < |ids|
      invariant k <= |ids| && t.decisions == ExpireListed(old(t.decisions), ids[..k])
    {
      assert ids[..k + 1][..k] == ids[..k];
      var id := ids[k];
      if id < |t.decisions| && t.decisions[id].status == PendingReview {
        var _ := t.InsertTransition(id, Expired, ManualReview, None);
      }
      k := k + 1;
    }
    assert ids[..k] == ids;
  }

  /** Open the barrier unless a review is still pending at its gate. */
  method OpenUnlessPending(t: Tables, r: OpenRequest, controller: Id, gate: Id, started: Instant, clock: Instant)
    returns (outcome: OpenOutcome)
    modifies t
    ensures (t.Contents(), outcome) == CommitOpen(old(t.Contents()), r, controller, gate, [], started, clock)
  {
    var active := ActivePendingAt(t.Contents(), gate, r.now, |t.decisions|);
    assert t.Contents().(decisions := ExpireListed(t.decisions, [])) == t.Contents();
    if active.Some? {
      return PendingConflict(t.decisions[active.value].event);
    }
    var out := t.CreateOpenCommand(controller, r.barrier, None, started, clock + MANUAL_COMMAND_TTL);
    var id := t.InsertOpening(Opening(r.barrier, out.command, None, r.operator, r.reason, None, started));
    t.Journal(BarrierOpened(r.barrier, r.operator));
    outcome := Opened(id, out.command, r.barrier);
  }

  lemma ExpireThenOpen(db: Db, r: OpenRequest, controller: Id, gate: Id, ids: seq<nat>, started: Instant,
                       clock: Instant)
    ensures CommitOpen(db, r, controller, gate, ids, started, clock)
            == CommitOpen(db.(decisions := ExpireListed(db.decisions, ids)), r, controller, gate, [], started, clock)
  {
    var expired := db.(decisions := ExpireListed(db.decisions, ids));
    assert expired.(decisions := ExpireListed(expired.decisions, [])) == expired;
  }

  method ManualOpenBarrier(cfg: Config, t: Tables, r: OpenRequest, started: Instant, clock: Instant)
    returns (outcome: OpenOutcome)
    modifies t
    ensures match BeginOpen(cfg, old(t.Contents()), r)
            case Refused(answer) => outcome == answer && t.Contents() == old(t.Contents())
            case Granted(controller, gate, overdue) =>
              (t.Contents(), outcome)
              == CommitOpen(old(t.Contents()), r, controller, gate, overdue, started, clock)
  {
    if Blank(Some(r.reason)) {
      return ReasonRequired;
    }
    var controller := ActiveController(cfg, r.barrier);
    if controller.None? {
      return UnknownBarrier;
    }
    var gate := FindBarrier(cfg.barriers, r.barrier).value.gate;
    var overdue := OverdueAt(t.Contents(), gate, r.now, |t.decisions|);
    ExpireThenOpen(t.Contents(), r, controller.value, gate, overdue, started, clock);
    LazyExpire(t, overdue);
    outcome := OpenUnlessPending(t, r, controller.value, gate, started, clock);
  }

  // ---------------------------------------------------------------- expiry worker

  /** Lock one listed row, check it again, and expire it if it is still pending. */
  method TakeDueRow(t: Tables, row: DueRow) returns (expired: nat)
    modifies t
    ensures (t.Contents(), expired) == TakeRow(old(t.Contents()), row)
  {
    if !StillPending(t.decisions, row.decision) {
      return 0;
    }
    var id := t.InsertTransition(row.decision, Expired, ManualReview, None);
    t.Journal(ReviewExpired(id, false));
    expired := 1;
  }

  /** Take the rows of a list, which may be stale, one after another. */
  method TakeList(t: Tables, due: seq<DueRow>) returns (count: nat)
    modifies t
    ensures (t.Contents(), count) == TakeRows(old(t.Contents()), due)
  {
    ghost var before := t.Contents();
    count := 0;
    var k := 0;
    while k < |due|
      invariant k <= |due|
      invariant t.Contents() == TakeRows(before, due[..k]).0 && count == TakeRows(before, due[..k]).1
    {
      TakeOneMore(before, due, k);
      var expired := TakeDueRow(t, due[k]);
      count := count + expired;
      k := k + 1;
    }
    assert due[..k] == due;
  }

  /** One tick: read the list once, then lock, check again and expire row by row. */
  method ExpireDueReviews(cfg: Config, t: Tables, now: Instant) returns (count: nat)
    modifies t
    ensures (t.Contents(), count) == Tick(cfg, old(t.Contents()), now)
  {
    var due := DueRows(cfg, t.Contents(), now, |t.decisions|);
    count := TakeList(t, due);
  }

  // ---------------------------------------------------------------- guest codes

  /** Spend the candidate pass and open the barrier; the pass may have been spent meanwhile. */
  method FinishRedeem(t: Tables, r: RedeemRequest, p: nat, barrier: Id, controller: Id, started: Instant,
                      clock: Instant)
    returns (outcome: RedeemOutcome)
    modifies t
    ensures (t.Contents(), outcome) == CommitRedeem(old(t.Contents()), r, p, barrier, controller, started, clock)
  {
    var spent := t.SpendGuestEntry(p);
    if !spent {
      return CodeRejected;
    }
    var out := t.CreateOpenCommand(controller, barrier, None, started, clock + GUEST_CODE_COMMAND_TTL);
    var _ := t.InsertOpening(Opening(barrier, out.command, None, r.operator, "guest_code", None, started));
    t.Journal(CodeRedeemed(p, r.operator));
    outcome := Redeemed(p, t.passes[p].apartment, out.command, barrier);
  }

  method RedeemCode(cfg: Config, t: Tables, r: RedeemRequest, started: Instant, clock: Instant)
    returns (outcome: RedeemOutcome)
    modifies t
    ensures match BeginRedeem(cfg, old(t.Contents()), r)
            case Rejected(answer) => outcome == answer && t.Contents() == old(t.Contents())
            case Candidate(p, barrier, controller) =>
              (t.Contents(), outcome) == CommitRedeem(old(t.Contents()), r, p, barrier, controller, started, clock)
  {
    var candidate := FindRedeemable(t.passes, r.hash, r.now);
    if candidate.None? {
      return CodeRejected;
    }
    var pass := t.passes[candidate.value];
    if r.barrier.Some? {
      var controller := ActiveController(cfg, r.barrier.value);
      if controller.None? {
        return CodeRejected;
      }
      outcome := FinishRedeem(t, r, candidate.value, r.barrier.value, controller.value, started, clock);
    } else {
      if pass.zone.None? {
        return CodeRejected;
      }
      var b := ZoneBarrier(cfg, cfg.barriers, pass.zone.value);
      if b.None? {
        return CodeRejected;
      }
      if b.value.controller.None? {
        return ServerFault;
      }
      outcome := FinishRedeem(t, r, candidate.value, b.value.id, b.value.controller.value, started, clock);
    }
  }

  // ---------------------------------------------------------------- presence

  /** Close a session by hand. `seen` is the row as read earlier; another transaction may have closed it
    * since, but rows never vanish and closed sessions stay closed. */
  method ClosePresenceSession(t: Tables, session: nat, seen: Option<Session>, operator: Id, reason: string,
                              now: Instant)
    returns (outcome: CloseOutcome)
    requires seen.Some? ==> session < |t.sessions| && (!seen.value.open ==> !t.sessions[session].open)
    modifies t
    ensures seen.None? ==> outcome == SessionNotFound && t.Contents() == old(t.Contents())
    ensures seen.Some? ==> (t.Contents(), outcome) == ClosePresence(old(t.Contents()), session, operator, reason, now)
  {
    if seen.None? {
      return SessionNotFound;
    }
    if !seen.value.open {
      return Closed(true);
    }
    var closed := t.CloseSessionManual(session, operator, reason[..Min(32, |reason|)], now);
    if !closed {
      return Closed(true);
    }
    t.Journal(PresenceClosed(session, t.sessions[session].vehicle, t.sessions[session].zone, operator));
    outcome := Closed(false);
  }

  // ---------------------------------------------------------------- durable channel

  method LeaseOnce(t: Tables, controller: Id, hash: string, ttl: int, now: Instant) returns (leased: Option<nat>)
    modifies t`commands
    ensures (t.commands, leased) == TryLease(old(t.commands), controller, hash, ttl, now)
  {
    leased := NextLeasable(t.commands, controller, ttl, now);
    if leased.Some? {
      var c := t.commands[leased.value];
      t.commands := t.commands[leased.value := c.(status := Leased, leaseToken := Some(hash),
                                                  leaseExpiresAt := Some(now + ttl), attempts := c.attempts + 1)];
    }
  }

  method AckCommand(t: Tables, controller: Id, command: nat, hash: string, result: Option<string>)
    returns (outcome: AckOutcome)
    modifies t`commands
    ensures (t.commands, outcome) == Acknowledge(old(t.commands), controller, command, hash, result)
  {
    if command < |t.commands| && t.commands[command].controller == controller
       && t.commands[command].leaseToken == Some(hash) && t.commands[command].status == Leased
    {
      t.commands := t.commands[command := t.commands[command].(status := Acked, ackResult := result)];
      return Acknowledged(result, false);
    }
    if command < |t.commands| && t.commands[command].controller == controller
       && t.commands[command].status == Acked && t.commands[command].leaseToken == Some(hash)
    {
      return Acknowledged(t.commands[command].ackResult, true);
    }
    outcome := AckConflict;
  }
}
