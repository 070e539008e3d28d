/** The durable channel over whole runs: one lease, in creation order, and one frozen result. */
module OutboxLaws {
  import opened Common
  import opened Domain
  import opened Engine
  import opened Queries
  import opened Transactions
  import opened Outbox
  import opened System
  import opened Growth

  /** The only way a command changes: pending, then leased, then acknowledged under the same lease. */
  predicate Advances(a: Command, b: Command) {
    && SameCommand(a, b)
    && match a.status
       case Pending => b == a || b.status == Leased || b.status == Acked
       case Leased =>
         b == a || (b.status == Acked && b.leaseToken == a.leaseToken && b.leaseExpiresAt == a.leaseExpiresAt
                    && b.attempts == a.attempts)
       case Acked => b == a
       case Dead => b == a
  }

  /** How a command looks in each status; a lease always ends before the command does. */
  predicate Shaped(c: Command) {
    match c.status
    case Pending => c.attempts == 0 && c.leaseToken.None? && c.ackResult.None?
    case Leased => LeasedOnce(c) && c.ackResult.None?
    case Acked => LeasedOnce(c)
    case Dead => false
  }

  predicate LeasedOnce(c: Command) {
    && c.attempts == 1 && c.leaseToken.Some? && c.leaseExpiresAt.Some?
    && (c.expiresAt.Some? ==> c.leaseExpiresAt.value < c.expiresAt.value)
  }

  ghost predicate AllAdvance(a: seq<Command>, b: seq<Command>) {
    |a| <= |b| && forall i :: 0 <= i < |a| ==> Advances(a[i], b[i])
  }

  ghost predicate AllShaped(s: seq<Command>) {
    forall i :: 0 <= i < |s| ==> Shaped(s[i])
  }

  lemma AdvancesTransitive(a: Command, b: Command, c: Command)
    requires Advances(a, b) && Advances(b, c)
    ensures Advances(a, c)
  {
  }

  lemma CommitAdvances(cfg: Config, reg: Registry, db: Db, t: Txn, clock: Instant)
    requires AllShaped(db.commands)
    ensures AllAdvance(db.commands, CommitDb(cfg, reg, db, t, clock).0.commands)
    ensures AllShaped(CommitDb(cfg, reg, db, t, clock).0.commands)
  {
    match t
    case Ingesting(ticket, started) =>
    case Resolving(r, plan, current, started) =>
    case Expiring(i) =>
    case OpeningBarrier(r, controller, gate, overdue, started) =>
    case Redeeming(r, p, barrier, controller, started) =>
  }

  lemma StepAdvances(cfg: Config, s: Sys, step: Step)
    requires AllShaped(s.db.commands)
    ensures AllAdvance(s.db.commands, Apply(cfg, s, step).db.commands) && AllShaped(Apply(cfg, s, step).db.commands)
  {
    match step
    case Commit(key, clock) =>
      if key in s.held {
        CommitAdvances(cfg, s.reg, s.db, s.held[key], clock);
      }
    case LeaseStep(controller, token, now) => LeaseAdvances(s, controller, token, now);
    case AckStep(controller, command, token, result) =>
      AckAdvances(s.db.commands, controller, command, token, result);
    case _ => OtherwiseAdvances(cfg, s, step);
  }

  lemma LeaseAdvances(s: Sys, controller: Id, token: string, now: Instant)
    requires AllShaped(s.db.commands)
    ensures var after := LeaseApply(s, controller, token, now).db.commands;
            AllAdvance(s.db.commands, after) && AllShaped(after)
  {
  }

  lemma AckAdvances(commands: seq<Command>, controller: Id, command: nat, token: string, result: Option<string>)
    requires AllShaped(commands)
    ensures var after := Acknowledge(commands, controller, command, token, result).0;
            AllAdvance(commands, after) && AllShaped(after)
  {
  }

  lemma OtherwiseAdvances(cfg: Config, s: Sys, step: Step)
    requires AllShaped(s.db.commands) && !step.Commit? && !step.LeaseStep? && !step.AckStep?
    ensures AllAdvance(s.db.commands, Apply(cfg, s, step).db.commands) && AllShaped(Apply(cfg, s, step).db.commands)
  {
  }

  /** Over any run statuses only advance, no command is leased twice and every lease is outlived. */
  lemma {:induction false} RunAdvances(cfg: Config, s: Sys, steps: seq<Step>)
    requires AllShaped(s.db.commands)
    ensures AllAdvance(s.db.commands, Run(cfg, s, steps).db.commands) && AllShaped(Run(cfg, s, steps).db.commands)
  {
    if steps != [] {
      var front := Run(cfg, s, steps[..|steps| - 1]);
      RunAdvances(cfg, s, steps[..|steps| - 1]);
      StepAdvances(cfg, front, steps[|steps| - 1]);
      forall i | 0 <= i < |s.db.commands| ensures Advances(s.db.commands[i], Run(cfg, s, steps).db.commands[i]) {
        AdvancesTransitive(s.db.commands[i], front.db.commands[i], Run(cfg, s, steps).db.commands[i]);
      }
    }
  }

  /** In every reachable state the commands have the form these laws start from. */
  lemma ReachableShaped(cfg: Config, reg: Registry, steps: seq<Step>)
    ensures AllShaped(Run(cfg, Start(reg), steps).db.commands)
  {
    RunAdvances(cfg, Start(reg), steps);
  }

  /** Two leases of one controller, the later not before the earlier: among commands already in the
    * table at the first, they come in creation order and never twice. */
  lemma LeasesFollowCreation(cfg: Config, s: Sys, controller: Id, first: string, now: Instant, steps: seq<Step>,
                             second: string, later: Instant)
    requires AllShaped(s.db.commands) && now <= later
    ensures var a := TryLease(s.db.commands, controller, first, LEASE_TTL, now).1;
            var s2 := Run(cfg, LeaseApply(s, controller, first, now), steps);
            var b := TryLease(s2.db.commands, controller, second, LEASE_TTL, later).1;
            a.Some? && b.Some? && b.value < |s.db.commands|
            ==> a != b && s.db.commands[a.value].createdAt <= s.db.commands[b.value].createdAt
  {
    var s1 := LeaseApply(s, controller, first, now);
    StepAdvances(cfg, s, LeaseStep(controller, first, now));
    RunAdvances(cfg, s1, steps);
    var s2 := Run(cfg, s1, steps);
    var b := TryLease(s2.db.commands, controller, second, LEASE_TTL, later).1;
    if b.Some? && b.value < |s.db.commands| {
      AdvancesTransitive(s.db.commands[b.value], s1.db.commands[b.value], s2.db.commands[b.value]);
      assert Leasable(s2.db.commands[b.value], controller, LEASE_TTL, later);
      assert Leasable(s.db.commands[b.value], controller, LEASE_TTL, now);
    }
  }

  /** Nothing leasable was passed over for good: what a lease skips is never leasable later. */
  lemma SkippedStaysSkipped(cfg: Config, s: Sys, controller: Id, now: Instant, steps: seq<Step>, later: Instant, i: nat)
    requires AllShaped(s.db.commands) && now <= later && i < |s.db.commands|
    requires s.db.commands[i].controller == controller
    requires !Leasable(s.db.commands[i], controller, LEASE_TTL, now)
    ensures i < |Run(cfg, s, steps).db.commands|
            && !Leasable(Run(cfg, s, steps).db.commands[i], controller, LEASE_TTL, later)
  {
    RunAdvances(cfg, s, steps);
  }

  /** The first acknowledgement fixes the result: every later one under that token returns it, marked
    * as a replay, and changes nothing. */
  lemma FirstResultFrozen(cfg: Config, s: Sys, controller: Id, command: nat, token: string, result: Option<string>,
                          steps: seq<Step>, again: Option<string>)
    requires AllShaped(s.db.commands)
    requires Acknowledge(s.db.commands, controller, command, token, result).1.Acknowledged?
    ensures var (acked, outcome) := Acknowledge(s.db.commands, controller, command, token, result);
            var later := Run(cfg, Apply(cfg, s, AckStep(controller, command, token, result)), steps);
            && (!outcome.replayed ==> outcome.result == result)
            && Acknowledge(later.db.commands, controller, command, token, again)
            == (later.db.commands, Acknowledged(outcome.result, true))
  {
    var s1 := Apply(cfg, s, AckStep(controller, command, token, result));
    StepAdvances(cfg, s, AckStep(controller, command, token, result));
    RunAdvances(cfg, s1, steps);
    assert s1.db.commands[command].status == Acked;
    assert Run(cfg, s1, steps).db.commands[command] == s1.db.commands[command];
  }

  /** Only the controller that leased the command, with the token of that lease, can complete it. */
  lemma OnlyTheLeaseHolderCompletes(commands: seq<Command>, controller: Id, command: nat, token: string,
                                    result: Option<string>)
    requires AllShaped(commands) && command < |commands|
    ensures Acknowledge(commands, controller, command, token, result).0 != commands
            <==> commands[command].status == Leased && commands[command].controller == controller
                 && commands[command].leaseToken == Some(token)
  {
    var after := Acknowledge(commands, controller, command, token, result).0;
    assert after != commands ==> after[command] != commands[command];
  }

  /** The command waits for its controller and outlives a lease that starts now. */
  predicate OnOffer(c: Command, controller: Id, now: Instant) {
    c.controller == controller && c.status == Pending && (c.expiresAt.Some? ==> now + 30_000_000 < c.expiresAt.value)
  }

  /** A lease takes an oldest command on offer, for thirty seconds and under the given token, and changes nothing else;
    * it takes none only when none is on offer. */
  lemma LeaseTakes(commands: seq<Command>, controller: Id, token: string, now: Instant)
    ensures var (after, taken) := TryLease(commands, controller, token, LEASE_TTL, now);
            match taken
            case None => after == commands && forall c :: c in commands ==> !OnOffer(c, controller, now)
            case Some(i) =>
              && i < |commands| && OnOffer(commands[i], controller, now)
              && (forall c :: c in commands && OnOffer(c, controller, now) ==> commands[i].createdAt <= c.createdAt)
              && var c := commands[i];
                 after == commands[i := Command(c.decision, c.controller, c.barrier, c.createdAt, c.expiresAt, Leased,
                                                Some(token), Some(now + 30_000_000), c.attempts + 1, c.ackResult)]
  {
    var taken := NextLeasable(commands, controller, LEASE_TTL, now);
    forall c | c in commands && OnOffer(c, controller, now)
      ensures taken.Some? && commands[taken.value].createdAt <= c.createdAt
    {
      var i :| 0 <= i < |commands| && commands[i] == c;
      assert Leasable(commands[i], controller, LEASE_TTL, now);
    }
  }

  /** An acknowledgement under the lease's token closes the command with its result, a repeat returns the saved result,
    * anything else conflicts; only the first changes the table. */
  lemma AckCloses(commands: seq<Command>, controller: Id, i: nat, token: string, result: Option<string>)
    ensures var (after, outcome) := Acknowledge(commands, controller, i, token, result);
            var holder := i < |commands| && commands[i].controller == controller
                          && commands[i].leaseToken == Some(token);
            if holder && commands[i].status == Leased then
              var c := commands[i];
              && outcome == Acknowledged(result, false)
              && after == commands[i := Command(c.decision, c.controller, c.barrier, c.createdAt, c.expiresAt, Acked,
                                                c.leaseToken, c.leaseExpiresAt, c.attempts, result)]
            else
              && after == commands
              && outcome == if holder && commands[i].status == Acked then Acknowledged(commands[i].ackResult, true)
                            else AckConflict
  {
  }

  // ---------------------------------------------------------------- from empty tables

  /** In every run leases of a controller come in creation order. */
  lemma LeasesFollowCreationInEveryRun(cfg: Config, reg: Registry, before: seq<Step>, controller: Id, first: string,
                                       now: Instant, steps: seq<Step>, second: string, later: Instant)
    requires now <= later
    ensures var s := Run(cfg, Start(reg), before);
            var a := TryLease(s.db.commands, controller, first, LEASE_TTL, now).1;
            var s2 := Run(cfg, LeaseApply(s, controller, first, now), steps);
            var b := TryLease(s2.db.commands, controller, second, LEASE_TTL, later).1;
            a.Some? && b.Some? && b.value < |s.db.commands|
            ==> a != b && s.db.commands[a.value].createdAt <= s.db.commands[b.value].createdAt
  {
    ReachableShaped(cfg, reg, before);
    LeasesFollowCreation(cfg, Run(cfg, Start(reg), before), controller, first, now, steps, second, later);
  }

  /** In every run what is not leasable at one time is not leasable later. */
  lemma SkippedInEveryRun(cfg: Config, reg: Registry, before: seq<Step>, controller: Id, now: Instant,
                          steps: seq<Step>, later: Instant, i: nat)
    requires now <= later
    requires var commands := Run(cfg, Start(reg), before).db.commands;
             && i < |commands| && commands[i].controller == controller
             && !Leasable(commands[i], controller, LEASE_TTL, now)
    ensures var after := Run(cfg, Run(cfg, Start(reg), before), steps).db.commands;
            i < |after| && !Leasable(after[i], controller, LEASE_TTL, later)
  {
    ReachableShaped(cfg, reg, before);
    SkippedStaysSkipped(cfg, Run(cfg, Start(reg), before), controller, now, steps, later, i);
  }

  /** In every run the first acknowledgement fixes the result. */
  lemma FirstResultInEveryRun(cfg: Config, reg: Registry, before: seq<Step>, controller: Id, command: nat,
                              token: string, result: Option<string>, steps: seq<Step>, again: Option<string>)
    requires var commands := Run(cfg, Start(reg), before).db.commands;
             Acknowledge(commands, controller, command, token, result).1.Acknowledged?
    ensures var s := Run(cfg, Start(reg), before);
            var outcome := Acknowledge(s.db.commands, controller, command, token, result).1;
            var later := Run(cfg, Apply(cfg, s, AckStep(controller, command, token, result)), steps);
            && (!outcome.replayed ==> outcome.result == result)
            && Acknowledge(later.db.commands, controller, command, token, again)
            == (later.db.commands, Acknowledged(outcome.result, true))
  {
    ReachableShaped(cfg, reg, before);
    FirstResultFrozen(cfg, Run(cfg, Start(reg), before), controller, command, token, result, steps, again);
  }

  /** In every run only the holder of a lease completes its command. */
  lemma OnlyTheHolderInEveryRun(cfg: Config, reg: Registry, before: seq<Step>, controller: Id, command: nat,
                                token: string, result: Option<string>)
    requires command < |Run(cfg, Start(reg), before).db.commands|
    ensures var commands := Run(cfg, Start(reg), before).db.commands;
            Acknowledge(commands, controller, command, token, result).0 != commands
            <==> commands[command].status == Leased && commands[command].controller == controller
                 && commands[command].leaseToken == Some(token)
  {
    ReachableShaped(cfg, reg, before);
    OnlyTheLeaseHolderCompletes(Run(cfg, Start(reg), before).db.commands, controller, command, token, result);
  }
}
