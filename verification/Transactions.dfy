/** What each transaction of the service does to the tables.
  *
  * Every transaction that touches decisions runs under one advisory lock. It is split where the
  * original reads under that lock and later writes: `Begin...` is what is read when the lock is
  * taken, `Commit...` is what is written before it is released. `started` is the database time of
  * the transaction (row creation times), `clock` the service's clock when it writes.
  */
module Transactions {
  import opened Common
  import opened Domain
  import opened Engine
  import opened Queries

  // ---------------------------------------------------------------- shared writes

  datatype CommandOut = CommandOut(command: nat, barrier: Id, expiresAt: Option<Instant>)

  function NewCommand(controller: Id, barrier: Id, decision: Option<nat>, started: Instant, expires: Instant)
    : Command
  {
    Command(decision, controller, barrier, started, Some(expires), Pending, None, None, 0, None)
  }

  /** Create an opening command; for a decision that already has one, return that one. */
  function CreateOpenCommand(commands: seq<Command>, controller: Id, barrier: Id, decision: Option<nat>,
                             started: Instant, expires: Instant): (seq<Command>, CommandOut)
  {
    var existing := if decision.Some? then CommandFor(commands, decision.value) else None;
    match existing
    case Some(c) => (commands, CommandOut(c, commands[c].barrier, commands[c].expiresAt))
    case None =>
      (commands + [NewCommand(controller, barrier, decision, started, expires)],
       CommandOut(|commands|, barrier, Some(expires)))
  }

  /** The row that moves decision `i` to a terminal status. */
  function Transition(decisions: seq<Decision>, i: nat, decision: DecisionType, status: DecisionStatus,
                      who: Option<Id>): Decision
    requires i < |decisions|
  {
    decisions[i].(supersedes := Some(i), decision := decision, status := status, deadline := None, resolvedBy := who)
  }

  // ---------------------------------------------------------------- ingestion

  datatype Scope = Scope(zone: Option<Id>, gate: Option<Id>, barrier: Option<Id>, violation: bool)

  /** The scope the controller is entitled to; a claim on another zone or gate is a violation. */
  function AuthorizeScope(cfg: Config, x: Input): Scope {
    var own := if x.controller in cfg.controllers then cfg.controllers[x.controller] else None;
    if x.zone.Some? && own.Some? && x.zone != own then Scope(own, None, None, true)
    else
      var zone := if own.Some? then own else x.zone;
      if x.gate.Some? && !GateBelongs(cfg, x.gate.value, x.controller) then Scope(zone, None, None, true)
      else
        var gate := if x.gate.Some? then x.gate else FirstActiveGate(cfg.gates, x.controller);
        Scope(zone, gate, BarrierIdAt(cfg, gate), false)
  }

  /** The submitted passage with its claims replaced by the authorised scope. */
  function Sanitise(cfg: Config, x: Input): Input {
    var s := AuthorizeScope(cfg, x);
    x.(zone := s.zone, gate := s.gate)
  }

  function IngestKey(cfg: Config, x: Input): Id {
    var s := AuthorizeScope(cfg, x);
    CanonicalLockKey(s.barrier, s.gate, x.controller)
  }

  datatype IngestResult = IngestResult(
    decision: DecisionType, status: DecisionStatus, reason: Option<Reason>,
    decisionId: Option<nat>, command: Option<CommandOut>, replayed: bool)

  /** The stored answer of an event: its initial decision and that decision's command. */
  function LoadExisting(db: Db, event: nat): IngestResult {
    match InitialOf(db.decisions, event)
    case None => IngestResult(Deny, Denied, None, None, None, true)
    case Some(d) =>
      var c := CommandFor(db.commands, d);
      var out := if c.None? then None
                 else Some(CommandOut(c.value, db.commands[c.value].barrier, db.commands[c.value].expiresAt));
      var row := db.decisions[d];
      IngestResult(row.decision, row.status, row.reason, Some(d), out, true)
  }

  /** A passage accepted for recording, with the engine's answer computed from what it read. */
  datatype Ticket = Ticket(input: Input, barrier: Option<Id>, engine: EngineDecision)

  datatype IngestBegun = Replayed(result: IngestResult) | Accepted(ticket: Ticket)

  function EngineInputOf(x: Input): EngineInput {
    EngineInput(x.zone, if x.plate.Some? then x.plate.value else "", x.direction, x.confidence, x.capturedAt)
  }

  function Judge(cfg: Config, reg: Registry, db: Db, x: Input, violation: bool): EngineDecision {
    if violation then DenyFor(ZoneNotAllowed, None, None)
    else if x.direction == Exit then DecideExit(reg, x.plate)
    else Decide(reg, db.passes, db.sessions, EngineInputOf(x), cfg.threshold)
  }

  function BeginIngest(cfg: Config, reg: Registry, db: Db, claimed: Input): IngestBegun {
    var scope := AuthorizeScope(cfg, claimed);
    var x := Sanitise(cfg, claimed);
    var existing := FindEvent(db.events, x.controller, x.eventId);
    if existing.Some? then Replayed(LoadExisting(db, existing.value))
    else
      var dup := FindWindowDuplicate(db.events, db.decisions, x, cfg.dedupWindow, |db.events|);
      if dup.Some? then Replayed(LoadExisting(db, dup.value))
      else Accepted(Ticket(x, scope.barrier, Judge(cfg, reg, db, x, scope.violation)))
  }

  /** Spend one entry of a pass, if it still has one. */
  function ConsumeTaxi(passes: seq<Pass>, p: nat): Option<seq<Pass>> {
    if p < |passes| && passes[p].usedEntries < passes[p].maxEntries
    then Some(passes[p := Spend(passes[p])]) else None
  }

  function Spend(p: Pass): Pass {
    p.(usedEntries := p.usedEntries + 1,
       status := if p.usedEntries + 1 >= p.maxEntries then UsedPass else p.status)
  }

  predicate TaxiAllow(e: EngineDecision) {
    e.decision == Allow && e.reason == Some(TemporaryPassAllowed) && e.pass.Some?
  }

  datatype Settled = Settled(
    engine: EngineDecision, status: DecisionStatus, deadline: Option<Instant>, passes: seq<Pass>)

  /** The engine's answer after the pass is spent (or found spent by another) and after a manual
    * review is either matched with a recent opening or given a deadline. */
  function Settle(db: Db, t: Ticket, clock: Instant): Settled {
    var spent := if TaxiAllow(t.engine) then ConsumeTaxi(db.passes, t.engine.pass.value) else Some(db.passes);
    var engine := if spent.Some? then t.engine else DenyFor(PassAlreadyUsed, None, t.engine.pass);
    var passes := if spent.Some? then spent.value else db.passes;
    if engine.decision != ManualReview then Settled(engine, engine.status, None, passes)
    else if t.barrier.Some? && RecentOpenExists(db.openings, t.barrier.value, t.input.capturedAt)
    then Settled(engine.(decision := Allow, status := AllowedManually), AllowedManually, None, passes)
    else Settled(engine, PendingReview, Some(clock + MANUAL_REVIEW_DEADLINE), passes)
  }

  function InitialRow(event: nat, s: Settled): Decision {
    Decision(event, None, s.engine.decision, s.status, s.engine.reason, s.engine.vehicle, s.engine.pass,
             s.deadline, None)
  }

  function OpenSession(sessions: seq<Session>, vehicle: nat, apartment: Option<Id>, zone: Id, at: Instant,
                       event: nat): seq<Session>
  {
    if FindOpenSession(sessions, vehicle, zone).Some? then sessions
    else sessions + [Session(vehicle, apartment, zone, at, None, true, Some(event), None, None, None)]
  }

  function EndSession(sessions: seq<Session>, vehicle: nat, zone: Id, at: Instant, event: nat): seq<Session> {
    match FindOpenSession(sessions, vehicle, zone)
    case None => sessions
    case Some(i) =>
      sessions[i := sessions[i].(open := false, exitedAt := Some(at), exitEvent := Some(event),
                                 closeReason := Some("exit_event"))]
  }

  /** Presence after a passage: an allowed exit ends the session, an allowed entry starts one. */
  function TrackPresence(reg: Registry, sessions: seq<Session>, x: Input, event: nat, s: Settled): seq<Session> {
    if s.engine.decision != Allow || s.engine.vehicle.None? || x.zone.None? then sessions
    else if x.direction == Exit
    then EndSession(sessions, s.engine.vehicle.value, x.zone.value, x.capturedAt, event)
    else if s.status == Allowed
    then OpenSession(sessions, s.engine.vehicle.value, ApartmentOf(reg.links, s.engine.vehicle.value),
                     x.zone.value, x.capturedAt, event)
    else sessions
  }

  function VehicleApartment(reg: Registry, vehicle: Option<nat>): Option<Id> {
    if vehicle.Some? then ApartmentOf(reg.links, vehicle.value) else None
  }

  predicate Commanded(s: Settled, barrier: Option<Id>) {
    s.engine.decision == Allow && s.status == Allowed && barrier.Some?
  }

  function RecordPassage(cfg: Config, reg: Registry, db: Db, t: Ticket, started: Instant, clock: Instant)
    : (Db, IngestResult)
  {
    var s := Settle(db, t, clock);
    var event, decision := |db.events|, |db.decisions|;
    var row := InitialRow(event, s);
    var entry := Passage(decision, row, t.input.zone, t.input.direction, VehicleApartment(reg, s.engine.vehicle));
    var created := if Commanded(s, t.barrier)
                   then CreateOpenCommand(db.commands, t.input.controller, t.barrier.value, Some(decision),
                                          started, clock + cfg.commandTtl)
                   else (db.commands, CommandOut(0, t.input.controller, None));
    (db.(events := db.events + [ToEvent(t.input)], decisions := db.decisions + [row], commands := created.0,
         passes := s.passes, sessions := TrackPresence(reg, db.sessions, t.input, event, s),
         log := db.log + [entry]),
     IngestResult(s.engine.decision, s.status, s.engine.reason, Some(decision),
                  if Commanded(s, t.barrier) then Some(created.1) else None, false))
  }

  /** Record an accepted passage, unless its key was stored meanwhile under another lock. */
  function CommitIngest(cfg: Config, reg: Registry, db: Db, t: Ticket, started: Instant, clock: Instant)
    : (Db, IngestResult)
  {
    match FindEvent(db.events, t.input.controller, t.input.eventId)
    case Some(e) => (db, LoadExisting(db, e))
    case None => RecordPassage(cfg, reg, db, t, started, clock)
  }

  // ---------------------------------------------------------------- resolving a manual review

  datatype Action = OpenAction | DenyAction | UnknownAction

  datatype ResolveRequest = ResolveRequest(
    event: nat, action: Action, operator: Id, reason: Option<string>, barrier: Option<Id>,
    decision: Option<nat>, now: Instant)

  datatype ResolveOutcome =
    | Resolved(status: DecisionStatus, decision: nat, command: Option<nat>, replayed: bool)
    | InvalidAction | NoPendingReview | DecisionMismatch | BarrierUnavailable

  predicate IsSpace(c: char) {
    c == ' ' || '\t' <= c <= '\r' || '\U{1c}' <= c <= '\U{1f}'
  }

  predicate Blank(reason: Option<string>) {
    reason.None? || forall c | c in reason.value :: IsSpace(c)
  }

  /** What a resolution writes once its checks have passed. */
  datatype Plan = ExpirePlan | OpenPlan(barrier: Id, controller: Id) | DenyPlan

  datatype ResolveBegun = Answered(outcome: ResolveOutcome) | Planned(plan: Plan, current: nat)

  /** The saved outcome of a decision that is already terminal. */
  function ReplayResolution(db: Db, i: nat): ResolveOutcome
    requires i < |db.decisions|
  {
    Resolved(db.decisions[i].status, i,
             if db.decisions[i].status == AllowedManually then CommandFor(db.commands, i) else None, true)
  }

  function BeginResolve(cfg: Config, db: Db, r: ResolveRequest): ResolveBegun {
    if r.action == UnknownAction then Answered(InvalidAction)
    else if r.event >= |db.events| then Answered(NoPendingReview)
    else
      match LatestOf(db.decisions, r.event)
      case None => Answered(NoPendingReview)
      case Some(i) =>
        if db.decisions[i].status == PendingReview && Overdue(db.decisions[i], r.now)
        then Planned(ExpirePlan, i)
        else if db.decisions[i].status != PendingReview then Answered(ReplayResolution(db, i))
        else if r.decision.Some? && r.decision.value != i then Answered(DecisionMismatch)
        else if r.action == OpenAction then
          if Blank(r.reason) || r.barrier.None? || r.decision.None? then Answered(InvalidAction)
          else
            var b := BarrierAt(cfg, db.events[r.event].gate);
            if b.None? || b.value.controller.None? then Answered(BarrierUnavailable)
            else Planned(OpenPlan(b.value.id, b.value.controller.value), i)
        else if Blank(r.reason) then Answered(InvalidAction)
        else Planned(DenyPlan, i)
  }

  function CommitResolve(db: Db, r: ResolveRequest, plan: Plan, current: nat, started: Instant, clock: Instant)
    : (Db, ResolveOutcome)
    requires current < |db.decisions|
  {
    var id := |db.decisions|;
    match plan
    case ExpirePlan =>
      (db.(decisions := db.decisions + [Transition(db.decisions, current, ManualReview, Expired, None)],
           log := db.log + [ReviewExpired(id, true)]),
       Resolved(Expired, id, None, false))
    case DenyPlan =>
      (db.(decisions := db.decisions + [Transition(db.decisions, current, Deny, DeniedManually, Some(r.operator))],
           log := db.log + [ReviewDenied(id, r.operator)]),
       Resolved(DeniedManually, id, None, false))
    case OpenPlan(barrier, controller) =>
      var created := CreateOpenCommand(db.commands, controller, barrier, Some(id), started,
                                       clock + MANUAL_COMMAND_TTL);
      var reason := if r.reason.Some? then r.reason.value else "";
      (db.(decisions := db.decisions + [Transition(db.decisions, current, Allow, AllowedManually, Some(r.operator))],
           commands := created.0,
           openings := db.openings + [Opening(barrier, created.1.command, Some(id), r.operator, reason,
                                              Some(r.event), started)],
           log := db.log + [ReviewOpened(id, r.operator)]),
       Resolved(AllowedManually, id, Some(created.1.command), false))
  }

  // ---------------------------------------------------------------- expiry worker

  /** One row of the worker's list: a decision and the lock key found for it by the join. */
  datatype DueRow = DueRow(decision: nat, key: Id)

  /** The keys of the rows a left join of an event with the active barriers of its gate yields. */
  function JoinedKeys(cfg: Config, e: CameraEvent): (r: seq<Id>)
    ensures |r| > 0
  {
    var joined := if e.gate.Some? then ActiveBarrierIds(cfg.barriers, e.gate.value) else [];
    if joined == [] then [CanonicalLockKey(None, e.gate, e.controller)] else joined
  }

  function ActiveBarrierIds(barriers: seq<Barrier>, gate: Id): (r: seq<Id>)
    ensures forall b :: b in barriers && b.gate == gate && b.active ==> b.id in r
    ensures forall k :: k in r ==> exists b :: b in barriers && b.gate == gate && b.active && b.id == k
  {
    if barriers == [] then []
    else (if barriers[0].gate == gate && barriers[0].active then [barriers[0].id] else [])
         + ActiveBarrierIds(barriers[1..], gate)
  }

  function RowsFor(decision: nat, keys: seq<Id>): (r: seq<DueRow>)
    ensures |r| == |keys| && forall k :: 0 <= k < |r| ==> r[k] == DueRow(decision, keys[k])
  {
    seq(|keys|, k requires 0 <= k < |keys| => DueRow(decision, keys[k]))
  }

  predicate Due(db: Db, now: Instant, i: nat) {
    CurrentPending(db.decisions, i) && Overdue(db.decisions[i], now) && db.decisions[i].event < |db.events|
  }

  /** The row belongs in the list of a worker that reads the tables at `now`. */
  predicate DueAs(cfg: Config, db: Db, now: Instant, row: DueRow) {
    Due(db, now, row.decision) && row.key in JoinedKeys(cfg, db.events[db.decisions[row.decision].event])
  }

  /** The worker's list: a row for each active barrier joined to each overdue current pending decision. */
  function DueRows(cfg: Config, db: Db, now: Instant, n: nat): (r: seq<DueRow>)
    requires n <= |db.decisions|
    ensures forall k :: 0 <= k < |r| ==> r[k].decision < n && DueAs(cfg, db, now, r[k])
    ensures forall row: DueRow :: row.decision < n && DueAs(cfg, db, now, row) ==> row in r
  {
    if n == 0 then []
    else
      var earlier := DueRows(cfg, db, now, n - 1);
      if Due(db, now, n - 1)
      then
        var keys := JoinedKeys(cfg, db.events[db.decisions[n - 1].event]);
        var rows := RowsFor(n - 1, keys);
        assert forall key :: key in keys ==> DueRow(n - 1, key) in rows by {
          forall key | key in keys ensures DueRow(n - 1, key) in rows {
            var k :| 0 <= k < |keys| && keys[k] == key;
            assert rows[k] == DueRow(n - 1, key);
          }
        }
        earlier + rows
      else earlier
  }

  /** The re-check under the lock: still pending and not superseded. */
  predicate StillPending(decisions: seq<Decision>, i: nat) {
    i < |decisions| && decisions[i].status == PendingReview && !Superseded(decisions, i)
  }

  function CommitExpire(db: Db, i: nat): Db
    requires i < |db.decisions|
  {
    db.(decisions := db.decisions + [Transition(db.decisions, i, ManualReview, Expired, None)],
        log := db.log + [ReviewExpired(|db.decisions|, false)])
  }

  // ---------------------------------------------------------------- standalone manual opening

  datatype OpenRequest = OpenRequest(barrier: Id, operator: Id, reason: string, now: Instant)

  datatype OpenOutcome = Opened(opening: nat, command: nat, barrier: Id) | PendingConflict(event: nat)
    | ReasonRequired | UnknownBarrier

  datatype OpenBegun = Refused(outcome: OpenOutcome) | Granted(controller: Id, gate: Id, overdue: seq<nat>)

  function BeginOpen(cfg: Config, db: Db, r: OpenRequest): OpenBegun {
    if Blank(Some(r.reason)) then Refused(ReasonRequired)
    else
      var b := FindBarrier(cfg.barriers, r.barrier);
      if b.None? || !b.value.active || b.value.controller.None? then Refused(UnknownBarrier)
      else Granted(b.value.controller.value, b.value.gate,
                   OverdueAt(db, b.value.gate, r.now, |db.decisions|))
  }

  /** Expire the listed rows that are still pending, in order. */
  function ExpireListed(decisions: seq<Decision>, ids: seq<nat>): (r: seq<Decision>)
    ensures |r| >= |decisions| && r[..|decisions|] == decisions
  {
    if ids == [] then decisions
    else
      var earlier := ExpireListed(decisions, ids[..|ids| - 1]);
      var i := ids[|ids| - 1];
      if i < |earlier| && earlier[i].status == PendingReview
      then earlier + [Transition(earlier, i, ManualReview, Expired, None)]
      else earlier
  }

  function CommitOpen(db: Db, r: OpenRequest, controller: Id, gate: Id, overdue: seq<nat>, started: Instant,
                      clock: Instant): (Db, OpenOutcome)
  {
    var expired := db.(decisions := ExpireListed(db.decisions, overdue));
    match ActivePendingAt(expired, gate, r.now, |expired.decisions|)
    case Some(i) => (expired, PendingConflict(expired.decisions[i].event))
    case None =>
      var created := CreateOpenCommand(db.commands, controller, r.barrier, None, started,
                                       clock + MANUAL_COMMAND_TTL);
      (expired.(commands := created.0,
                openings := db.openings + [Opening(r.barrier, created.1.command, None, r.operator, r.reason,
                                                   None, started)],
                log := db.log + [BarrierOpened(r.barrier, r.operator)]),
       Opened(|db.openings|, created.1.command, r.barrier))
  }

  // ---------------------------------------------------------------- redeeming a guest code

  datatype RedeemRequest = RedeemRequest(hash: string, operator: Id, barrier: Option<Id>, now: Instant)

  datatype RedeemOutcome = Redeemed(pass: nat, apartment: Id, command: nat, barrier: Id) | CodeRejected | ServerFault

  datatype RedeemBegun = Rejected(outcome: RedeemOutcome) | Candidate(pass: nat, barrier: Id, controller: Id)

  /** The first active barrier at a gate of the zone. */
  function ZoneBarrier(cfg: Config, barriers: seq<Barrier>, zone: Id): (r: Option<Barrier>)
    ensures r.Some? ==> r.value in barriers
  {
    if barriers == [] then None
    else if barriers[0].active && exists g | g in cfg.gates :: g.id == barriers[0].gate && g.zone == zone
    then Some(barriers[0])
    else ZoneBarrier(cfg, barriers[1..], zone)
  }

  function BeginRedeem(cfg: Config, db: Db, r: RedeemRequest): RedeemBegun {
    match FindRedeemable(db.passes, r.hash, r.now)
    case None => Rejected(CodeRejected)
    case Some(p) =>
      if r.barrier.Some? then
        match ActiveController(cfg, r.barrier.value)
        case None => Rejected(CodeRejected)
        case Some(c) => Candidate(p, r.barrier.value, c)
      else if db.passes[p].zone.None? then Rejected(CodeRejected)
      else
        match ZoneBarrier(cfg, cfg.barriers, db.passes[p].zone.value)
        case None => Rejected(CodeRejected)
        case Some(b) => if b.controller.None? then Rejected(ServerFault) else Candidate(p, b.id, b.controller.value)
  }

  function CommitRedeem(db: Db, r: RedeemRequest, p: nat, barrier: Id, controller: Id, started: Instant,
                        clock: Instant): (Db, RedeemOutcome)
  {
    if p >= |db.passes| || db.passes[p].status != ActivePass || db.passes[p].usedEntries >= db.passes[p].maxEntries
    then (db, CodeRejected)
    else
      var created := CreateOpenCommand(db.commands, controller, barrier, None, started,
                                       clock + GUEST_CODE_COMMAND_TTL);
      (db.(passes := db.passes[p := Spend(db.passes[p])],
           commands := created.0,
           openings := db.openings + [Opening(barrier, created.1.command, None, r.operator, "guest_code", None,
                                              started)],
           log := db.log + [CodeRedeemed(p, r.operator)]),
       Redeemed(p, db.passes[p].apartment, created.1.command, barrier))
  }

  // ---------------------------------------------------------------- closing a presence session

  datatype CloseOutcome = Closed(replayed: bool) | SessionNotFound

  /** Close a session by hand. The update is conditional on the session still being open. */
  function ClosePresence(db: Db, session: nat, operator: Id, reason: string, now: Instant): (Db, CloseOutcome) {
    if session >= |db.sessions| then (db, SessionNotFound)
    else if !db.sessions[session].open then (db, Closed(true))
    else
      var s := db.sessions[session];
      (db.(sessions := db.sessions[session := s.(open := false, exitedAt := Some(now), closedBy := Some(operator),
                                                 closeReason := Some(reason[..Min(32, |reason|)]))],
           log := db.log + [PresenceClosed(session, s.vehicle, s.zone, operator)]),
       Closed(false))
  }
}
