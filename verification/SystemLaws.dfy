/** The transition system does what the services do: a transaction that nothing interrupts leaves the tables as the
  * service's own transaction does, and releases its key. */
module SystemLaws {
  import opened Common
  import opened Domain
  import opened Engine
  import opened Queries
  import opened Transactions
  import opened Outbox
  import opened System
  import opened Expiry
  import OpeningLaws
  import RedeemEndpoint
  import ResolveLaws

  /** Begin and commit in one go. */
  function Both(first: Step, key: Id, clock: Instant): seq<Step> {
    [first, Commit(key, clock)]
  }

  lemma HeldThenCommitted(cfg: Config, s: Sys, first: Step, key: Id, t: Txn, clock: Instant)
    requires key !in s.held && Apply(cfg, s, first) == Hold(s, key, t)
    ensures var after := Run(cfg, s, Both(first, key, clock));
            && after.db == CommitDb(cfg, s.reg, s.db, t, clock).0 && after.held == s.held && after.reg == s.reg
            && after.due == s.due
  {
    RunTwo(cfg, s, first, Commit(key, clock));
    HeldCommits(cfg, s, key, t, clock);
  }

  lemma HeldCommits(cfg: Config, s: Sys, key: Id, t: Txn, clock: Instant)
    requires key !in s.held
    ensures var after := CommitApply(cfg, Hold(s, key, t), key, clock);
            && after.db == CommitDb(cfg, s.reg, s.db, t, clock).0 && after.held == s.held && after.reg == s.reg
            && after.due == s.due
  {
    assert Hold(s, key, t).held - {key} == s.held;
  }

  lemma NotHeld(cfg: Config, s: Sys, first: Step, key: Id, clock: Instant)
    requires key !in s.held && Apply(cfg, s, first) == s
    ensures Run(cfg, s, Both(first, key, clock)) == s
  {
    RunTwo(cfg, s, first, Commit(key, clock));
  }

  /** Receiving a passage. */
  lemma IngestIsAtomic(cfg: Config, s: Sys, x: Input, started: Instant, clock: Instant)
    requires IngestKey(cfg, x) !in s.held
    ensures var after := Run(cfg, s, Both(BeginIngestStep(x, started), IngestKey(cfg, x), clock));
            && after.held == s.held
            && after.db == match BeginIngest(cfg, s.reg, s.db, x)
                           case Replayed(_) => s.db
                           case Accepted(t) => CommitIngest(cfg, s.reg, s.db, t, started, clock).0
  {
    var key, first := IngestKey(cfg, x), BeginIngestStep(x, started);
    match BeginIngest(cfg, s.reg, s.db, x)
    case Replayed(_) => RunTwo(cfg, s, first, Commit(key, clock));
    case Accepted(t) => HeldThenCommitted(cfg, s, first, key, Ingesting(t, started), clock);
  }

  /** Resolving a review. */
  lemma ResolveIsAtomic(cfg: Config, s: Sys, r: ResolveRequest, started: Instant, clock: Instant)
    requires ResolveKey(cfg, s.db, r) !in s.held
    ensures var after := Run(cfg, s, Both(BeginResolveStep(r, started), ResolveKey(cfg, s.db, r), clock));
            after.held == s.held && after.db == ResolveLaws.Resolve(cfg, s.db, r, started, clock).0
  {
    var key, first := ResolveKey(cfg, s.db, r), BeginResolveStep(r, started);
    match BeginResolve(cfg, s.db, r)
    case Answered(_) => NotHeld(cfg, s, first, key, clock);
    case Planned(plan, current) => HeldThenCommitted(cfg, s, first, key, Resolving(r, plan, current, started), clock);
  }

  /** Opening a barrier by hand. */
  lemma OpenIsAtomic(cfg: Config, s: Sys, r: OpenRequest, started: Instant, clock: Instant)
    requires r.barrier !in s.held
    ensures var after := Run(cfg, s, Both(BeginOpenStep(r, started), r.barrier, clock));
            after.held == s.held && after.db == OpeningLaws.OpenNow(cfg, s.db, r, started, clock).0
  {
    var first := BeginOpenStep(r, started);
    match BeginOpen(cfg, s.db, r)
    case Refused(_) => NotHeld(cfg, s, first, r.barrier, clock);
    case Granted(controller, gate, overdue) =>
      HeldThenCommitted(cfg, s, first, r.barrier, OpeningBarrier(r, controller, gate, overdue, started), clock);
  }

  /** Redeeming a guest code, which locks the barrier it opens. */
  lemma RedeemIsAtomic(cfg: Config, s: Sys, r: RedeemRequest, key: Id, started: Instant, clock: Instant)
    requires key !in s.held && var b := BeginRedeem(cfg, s.db, r); b.Candidate? ==> key == b.barrier
    ensures var after := Run(cfg, s, Both(BeginRedeemStep(r, started), key, clock));
            after.held == s.held && after.db == RedeemEndpoint.Attempt(cfg, s.db, r, started, clock).0
  {
    var first := BeginRedeemStep(r, started);
    match BeginRedeem(cfg, s.db, r)
    case Rejected(_) => NotHeld(cfg, s, first, key, clock);
    case Candidate(p, barrier, controller) =>
      HeldThenCommitted(cfg, s, first, key, Redeeming(r, p, barrier, controller, started), clock);
  }

  /** A worker that takes one row of its list. */
  lemma TakeIsAtomic(cfg: Config, s: Sys, index: nat, clock: Instant)
    requires index < |s.due| && s.due[index].key !in s.held
    ensures var after := Run(cfg, s, Both(WorkerTake(index), s.due[index].key, clock));
            && after.held == s.held && after.db == TakeRow(s.db, s.due[index]).0
            && after.due == s.due[..index] + s.due[index + 1..]
  {
    var row := s.due[index];
    var rest := s.(due := s.due[..index] + s.due[index + 1..]);
    RunTwo(cfg, s, WorkerTake(index), Commit(row.key, clock));
    if StillPending(s.db.decisions, row.decision) {
      assert Apply(cfg, s, WorkerTake(index)) == Hold(rest, row.key, Expiring(row.decision));
      assert Hold(rest, row.key, Expiring(row.decision)).held - {row.key} == s.held;
    }
  }

  /** The steps that are one update. */
  lemma UpdatesAreTheirs(cfg: Config, s: Sys, now: Instant, i: nat, who: Id, reason: string, controller: Id,
                         token: string, result: Option<string>)
    ensures Apply(cfg, s, WorkerRead(now)).due == s.due + DueRows(cfg, s.db, now, |s.db.decisions|)
    ensures Apply(cfg, s, CloseSessionStep(i, who, reason, now)).db == ClosePresence(s.db, i, who, reason, now).0
    ensures Apply(cfg, s, LeaseStep(controller, token, now)).db.commands
         == TryLease(s.db.commands, controller, token, LEASE_TTL, now).0
    ensures var taken := TryLease(s.db.commands, controller, token, LEASE_TTL, now).1;
            taken.Some? ==> Pulled(controller, taken.value, token)
                            in Apply(cfg, s, LeaseStep(controller, token, now)).edge.inbox
    ensures Apply(cfg, s, AckStep(controller, i, token, result)).db.commands
         == Acknowledge(s.db.commands, controller, i, token, result).0
  {
  }

  /** A restarted device loses its messages and keeps its record; other devices notice nothing. */
  lemma RestartForgetsMessages(cfg: Config, s: Sys, controller: Id)
    ensures var after := Apply(cfg, s, RestartStep(controller));
            && after.db == s.db && after.held == s.held
            && after.edge.processed == s.edge.processed && after.edge.relayCalls == s.edge.relayCalls
            && forall d :: d in after.edge.inbox <==> d in s.edge.inbox && d.controller != controller
  {
  }
}
