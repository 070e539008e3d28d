/** The service and its edge devices as one transition system.
  *
  * A step begins or commits one transaction, runs the worker, moves a command along the durable
  * channel, or happens at an edge device. A transaction that has begun holds its lock key until it
  * commits or aborts; other transactions interleave freely between the two. A step that is not
  * enabled leaves the state as it is, so a run is any finite list of steps.
  */
module System {
  import opened Common
  import opened Domain
  import opened Engine
  import opened Queries
  import opened Transactions
  import opened Outbox

  /** A transaction between its reads and its writes. `started` is its database time. */
  datatype Txn =
    | Ingesting(ticket: Ticket, started: Instant)
    | Resolving(resolve: ResolveRequest, plan: Plan, current: nat, started: Instant)
    | Expiring(decision: nat)
    | OpeningBarrier(open: OpenRequest, controller: Id, gate: Id, overdue: seq<nat>, started: Instant)
    | Redeeming(redeem: RedeemRequest, pass: nat, barrier: Id, controller: Id, started: Instant)

  /** A command on its way to, or at, the edge of a controller. Fast-path deliveries carry no lease. */
  datatype Delivery = Fast(controller: Id, command: nat) | Pulled(controller: Id, command: nat, token: string)

  /** Edge devices: messages in flight, the persisted record of processed commands with the relay's
    * answer, and the log of every call to a relay. */
  datatype Edge = Edge(inbox: set<Delivery>, processed: map<(Id, nat), bool>, relayCalls: seq<(Id, nat)>)

  /** `due` collects the lists of all workers; each worker takes rows of its own. */
  datatype Sys = Sys(db: Db, reg: Registry, held: map<Id, Txn>, due: seq<DueRow>, edge: Edge)

  /** A run starts with empty tables, no lock held and idle edge devices. */
  function Start(reg: Registry): Sys {
    Sys(EMPTY_DB, reg, map[], [], Edge({}, map[], []))
  }

  datatype Step =
    | BeginIngestStep(input: Input, started: Instant)
    | BeginResolveStep(resolve: ResolveRequest, started: Instant)
    | BeginOpenStep(open: OpenRequest, started: Instant)
    | BeginRedeemStep(redeem: RedeemRequest, started: Instant)
    | WorkerRead(now: Instant)
    | WorkerTake(index: nat)
    | Commit(key: Id, clock: Instant)
    | Abort(key: Id)
    | CloseSessionStep(session: nat, operator: Id, reason: string, now: Instant)
    | LeaseStep(controller: Id, token: string, now: Instant)
    | AckStep(controller: Id, command: nat, token: string, result: Option<string>)
    | HandleStep(delivery: Delivery, answer: bool, now: Instant)
    | RestartStep(controller: Id)
    | EditRegistry(reg: Registry)
    | AddPass(pass: Pass)
    | EditPass(index: nat, pass: Pass)

  /** A pass as first stored: a positive limit, nothing used. */
  predicate FreshPass(p: Pass) {
    p.maxEntries > 0 && p.usedEntries == 0
  }

  /** An edit may change anything but the number of entries used, within the table's check. */
  predicate PassEditable(before: Pass, after: Pass) {
    after.maxEntries > 0 && after.usedEntries == before.usedEntries <= after.maxEntries
  }

  /** The answer of an ingestion reaches the edge; its command, if any, travels with it. */
  function Deliver(edge: Edge, controller: Id, result: IngestResult): Edge {
    if result.command.Some? then edge.(inbox := edge.inbox + {Fast(controller, result.command.value.command)})
    else edge
  }

  function Hold(s: Sys, key: Id, t: Txn): Sys {
    s.(held := s.held[key := t])
  }

  function BeginIngestApply(cfg: Config, s: Sys, x: Input, started: Instant): Sys {
    var key := IngestKey(cfg, x);
    if key in s.held then s
    else
      match BeginIngest(cfg, s.reg, s.db, x)
      case Replayed(result) => s.(edge := Deliver(s.edge, x.controller, result))
      case Accepted(t) => Hold(s, key, Ingesting(t, started))
  }

  /** The key a resolution locks; an unknown event has none. */
  function ResolveKey(cfg: Config, db: Db, r: ResolveRequest): Id {
    if r.event < |db.events| then EventKey(cfg, db.events[r.event]) else 1
  }

  function BeginResolveApply(cfg: Config, s: Sys, r: ResolveRequest, started: Instant): Sys {
    var key := ResolveKey(cfg, s.db, r);
    if key in s.held then s
    else
      match BeginResolve(cfg, s.db, r)
      case Answered(_) => s
      case Planned(plan, current) => Hold(s, key, Resolving(r, plan, current, started))
  }

  function BeginOpenApply(cfg: Config, s: Sys, r: OpenRequest, started: Instant): Sys {
    if r.barrier in s.held then s
    else
      match BeginOpen(cfg, s.db, r)
      case Refused(_) => s
      case Granted(controller, gate, overdue) =>
        Hold(s, r.barrier, OpeningBarrier(r, controller, gate, overdue, started))
  }

  function BeginRedeemApply(cfg: Config, s: Sys, r: RedeemRequest, started: Instant): Sys {
    match BeginRedeem(cfg, s.db, r)
    case Rejected(_) => s
    case Candidate(p, barrier, controller) =>
      if barrier in s.held then s else Hold(s, barrier, Redeeming(r, p, barrier, controller, started))
  }

  /** The worker takes one row of its list: lock its key and check the decision again. */
  function WorkerTakeApply(s: Sys, index: nat): Sys {
    if index >= |s.due| || s.due[index].key in s.held then s
    else
      var row := s.due[index];
      var rest := s.(due := s.due[..index] + s.due[index + 1..]);
      if StillPending(s.db.decisions, row.decision) then Hold(rest, row.key, Expiring(row.decision)) else rest
  }

  /** The tables, and the ingestion answer if there is one, when the transaction commits. */
  function CommitDb(cfg: Config, reg: Registry, db: Db, t: Txn, clock: Instant): (Db, Option<IngestResult>) {
    match t
    case Ingesting(ticket, started) =>
      var r := CommitIngest(cfg, reg, db, ticket, started, clock);
      (r.0, Some(r.1))
    case Resolving(r, plan, current, started) =>
      (if current < |db.decisions| then CommitResolve(db, r, plan, current, started, clock).0 else db, None)
    case Expiring(i) => (if i < |db.decisions| then CommitExpire(db, i) else db, None)
    case OpeningBarrier(r, controller, gate, overdue, started) =>
      (CommitOpen(db, r, controller, gate, overdue, started, clock).0, None)
    case Redeeming(r, p, barrier, controller, started) =>
      (CommitRedeem(db, r, p, barrier, controller, started, clock).0, None)
  }

  function CommitApply(cfg: Config, s: Sys, key: Id, clock: Instant): Sys {
    if key !in s.held then s
    else
      var t := s.held[key];
      var r := CommitDb(cfg, s.reg, s.db, t, clock);
      var edge := if t.Ingesting? && r.1.Some? then Deliver(s.edge, t.ticket.input.controller, r.1.value) else s.edge;
      s.(db := r.0, held := s.held - {key}, edge := edge)
  }

  function LeaseApply(s: Sys, controller: Id, token: string, now: Instant): Sys {
    var r := TryLease(s.db.commands, controller, token, LEASE_TTL, now);
    if r.1.None? then s
    else s.(db := s.db.(commands := r.0),
            edge := s.edge.(inbox := s.edge.inbox + {Pulled(controller, r.1.value, token)}))
  }

  /** An edge handles a delivery: an expired pulled command is skipped; a command already processed is
    * not opened again; otherwise the relay is called once and its answer persisted. */
  function HandleApply(s: Sys, d: Delivery, answer: bool, now: Instant): Sys {
    if d !in s.edge.inbox then s
    else if d.Pulled? && d.command < |s.db.commands| && s.db.commands[d.command].expiresAt.Some?
            && s.db.commands[d.command].expiresAt.value <= now
    then s
    else if (d.controller, d.command) in s.edge.processed then s
    else s.(edge := s.edge.(processed := s.edge.processed[(d.controller, d.command) := answer],
                            relayCalls := s.edge.relayCalls + [(d.controller, d.command)]))
  }

  function Apply(cfg: Config, s: Sys, step: Step): Sys {
    match step
    case BeginIngestStep(x, started) => BeginIngestApply(cfg, s, x, started)
    case BeginResolveStep(r, started) => BeginResolveApply(cfg, s, r, started)
    case BeginOpenStep(r, started) => BeginOpenApply(cfg, s, r, started)
    case BeginRedeemStep(r, started) => BeginRedeemApply(cfg, s, r, started)
    case WorkerRead(now) => s.(due := s.due + DueRows(cfg, s.db, now, |s.db.decisions|))
    case WorkerTake(index) => WorkerTakeApply(s, index)
    case Commit(key, clock) => CommitApply(cfg, s, key, clock)
    case Abort(key) => s.(held := s.held - {key})
    case CloseSessionStep(i, operator, reason, now) => s.(db := ClosePresence(s.db, i, operator, reason, now).0)
    case LeaseStep(controller, token, now) => LeaseApply(s, controller, token, now)
    case AckStep(controller, command, token, result) =>
      s.(db := s.db.(commands := Acknowledge(s.db.commands, controller, command, token, result).0))
    case HandleStep(d, answer, now) => HandleApply(s, d, answer, now)
    case RestartStep(controller) =>
      s.(edge := s.edge.(inbox := set d | d in s.edge.inbox && d.controller != controller))
    case EditRegistry(reg) => s.(reg := reg)
    case AddPass(p) => if FreshPass(p) then s.(db := s.db.(passes := s.db.passes + [p])) else s
    case EditPass(i, p) =>
      if i < |s.db.passes| && PassEditable(s.db.passes[i], p) then s.(db := s.db.(passes := s.db.passes[i := p]))
      else s
  }

  function Run(cfg: Config, s: Sys, steps: seq<Step>): Sys {
    if steps == [] then s else Apply(cfg, Run(cfg, s, steps[..|steps| - 1]), steps[|steps| - 1])
  }

  lemma RunSnoc(cfg: Config, s: Sys, steps: seq<Step>, last: Step)
    ensures Run(cfg, s, steps + [last]) == Apply(cfg, Run(cfg, s, steps), last)
  {
    assert (steps + [last])[..|steps + [last]| - 1] == steps;
  }

  lemma RunTwo(cfg: Config, s: Sys, a: Step, b: Step)
    ensures Run(cfg, s, [a, b]) == Apply(cfg, Apply(cfg, s, a), b)
  {
    RunSnoc(cfg, s, [], a);
    RunSnoc(cfg, s, [a], b);
    assert [] + [a] == [a] && [a] + [b] == [a, b];
  }

  lemma {:induction false} RunConcat(cfg: Config, s: Sys, a: seq<Step>, b: seq<Step>)
    ensures Run(cfg, s, a + b) == Run(cfg, Run(cfg, s, a), b)
  {
    if b == [] {
      assert a + b == a;
    } else {
      assert (a + b)[..|a + b| - 1] == a + b[..|b| - 1];
      RunConcat(cfg, s, a, b[..|b| - 1]);
    }
  }
}
