/** What no step ever undoes: the append-only tables keep their rows, commands keep their identity. */
module Growth {
  import opened Common
  import opened Domain
  import opened Engine
  import opened Queries
  import opened Transactions
  import opened Outbox
  import opened System

  ghost predicate Prefix<T>(a: seq<T>, b: seq<T>) {
    |a| <= |b| && b[..|a|] == a
  }

  lemma PrefixAt<T>(a: seq<T>, b: seq<T>)
    requires Prefix(a, b)
    ensures forall i :: 0 <= i < |a| ==> b[i] == a[i]
  {
    forall i | 0 <= i < |a| ensures b[i] == a[i] {
      assert b[..|a|][i] == a[i];
    }
  }

  lemma PrefixTransitive<T>(a: seq<T>, b: seq<T>, c: seq<T>)
    requires Prefix(a, b) && Prefix(b, c)
    ensures Prefix(a, c)
  {
    assert c[..|a|] == c[..|b|][..|a|];
  }

  /** The same command: what it opens, for which decision, and until when. */
  predicate SameCommand(a: Command, b: Command) {
    && a.decision == b.decision && a.controller == b.controller && a.barrier == b.barrier
    && a.createdAt == b.createdAt && a.expiresAt == b.expiresAt
  }

  /** Commands keep their identity, and new ones serve no decision older than `n`. */
  ghost predicate CommandsGrew(a: seq<Command>, b: seq<Command>, n: nat) {
    && |a| <= |b|
    && (forall i :: 0 <= i < |a| ==> SameCommand(a[i], b[i]))
    && (forall i :: |a| <= i < |b| && b[i].decision.Some? ==> b[i].decision.value >= n)
  }

  ghost predicate Grew(a: Db, b: Db) {
    && Prefix(a.events, b.events) && Prefix(a.decisions, b.decisions)
    && Prefix(a.openings, b.openings) && Prefix(a.log, b.log)
    && |a.passes| <= |b.passes| && |a.sessions| <= |b.sessions|
    && CommandsGrew(a.commands, b.commands, |a.decisions|)
  }

  lemma GrewTransitive(a: Db, b: Db, c: Db)
    requires Grew(a, b) && Grew(b, c)
    ensures Grew(a, c)
  {
    PrefixTransitive(a.events, b.events, c.events);
    PrefixTransitive(a.decisions, b.decisions, c.decisions);
    PrefixTransitive(a.openings, b.openings, c.openings);
    PrefixTransitive(a.log, b.log, c.log);
  }

  lemma CommitGrows(cfg: Config, reg: Registry, db: Db, t: Txn, clock: Instant)
    ensures Grew(db, CommitDb(cfg, reg, db, t, clock).0)
  {
    match t
    case Ingesting(ticket, started) =>
    case Resolving(r, plan, current, started) =>
    case Expiring(i) =>
    case OpeningBarrier(r, controller, gate, overdue, started) =>
    case Redeeming(r, p, barrier, controller, started) =>
  }

  lemma StepGrows(cfg: Config, s: Sys, step: Step)
    ensures Grew(s.db, Apply(cfg, s, step).db)
  {
    match step
    case Commit(key, clock) =>
      if key in s.held {
        CommitGrows(cfg, s.reg, s.db, s.held[key], clock);
      }
    case LeaseStep(controller, token, now) => LeaseGrows(s, controller, token, now);
    case AckStep(controller, command, token, result) =>
      AckGrows(s.db, controller, command, token, result);
    case _ => OtherwiseGrows(cfg, s, step);
  }

  lemma LeaseGrows(s: Sys, controller: Id, token: string, now: Instant)
    ensures Grew(s.db, LeaseApply(s, controller, token, now).db)
  {
  }

  lemma AckGrows(db: Db, controller: Id, command: nat, token: string, result: Option<string>)
    ensures Grew(db, db.(commands := Acknowledge(db.commands, controller, command, token, result).0))
  {
  }

  lemma OtherwiseGrows(cfg: Config, s: Sys, step: Step)
    requires !step.Commit? && !step.LeaseStep? && !step.AckStep?
    ensures Grew(s.db, Apply(cfg, s, step).db)
  {
  }

  lemma {:induction false} RunGrows(cfg: Config, s: Sys, steps: seq<Step>)
    ensures Grew(s.db, Run(cfg, s, steps).db)
  {
    if steps != [] {
      RunGrows(cfg, s, steps[..|steps| - 1]);
      StepGrows(cfg, Run(cfg, s, steps[..|steps| - 1]), steps[|steps| - 1]);
      GrewTransitive(s.db, Run(cfg, s, steps[..|steps| - 1]).db, Run(cfg, s, steps).db);
    }
  }
}
