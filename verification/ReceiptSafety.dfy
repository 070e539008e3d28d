/** What every run keeps of the receipt of passages, whatever the equipment: ingestion always locks the first
  * active barrier of its gate, so unique keys, separated repeats and initial decisions need no hypothesis on
  * how the other paths lock. */
module ReceiptSafety {
  import opened Common
  import opened Domain
  import opened Engine
  import opened Queries
  import opened Transactions
  import opened System
  import opened CoreSafety
  import opened Growth

  /** Every event has an initial decision, and decisions are of stored events. */
  ghost predicate Decided(db: Db) {
    && (forall e :: 0 <= e < |db.events| ==> InitialOf(db.decisions, e).Some?)
    && (forall i :: 0 <= i < |db.decisions| ==> db.decisions[i].event < |db.events|)
  }

  ghost predicate ReceiptInv(cfg: Config, s: Sys) {
    && EventsOk(cfg, s.db.events) && Decided(s.db)
    && forall key :: key in s.held && s.held[key].Ingesting? ==> TicketOk(cfg, s.db.events, key, s.held[key].ticket)
  }

  // ---------------------------------------------------------------- commits

  /** An initial decision stays the initial decision of its event. */
  lemma InitialKept(before: seq<Decision>, after: seq<Decision>, event: nat)
    requires Prefix(before, after) && InitialOf(before, event).Some?
    ensures InitialOf(after, event) == InitialOf(before, event)
  {
    PrefixAt(before, after);
    assert Initial(after[InitialOf(before, event).value], event);
  }

  /** What a commit that is not an ingestion appends: decisions of stored events, none of them pending. */
  ghost predicate OnlyTransitions(before: Db, after: Db) {
    && after.events == before.events && Prefix(before.decisions, after.decisions)
    && forall i :: |before.decisions| <= i < |after.decisions| ==>
         after.decisions[i].status != PendingReview && after.decisions[i].supersedes.Some?
         && exists k :: 0 <= k < |before.decisions| && after.decisions[i].event == before.decisions[k].event
  }

  /** The row is an expiry of an old row's event. */
  ghost predicate ExpiryOf(decisions: seq<Decision>, row: Decision) {
    && row.status == Expired && row.supersedes.Some?
    && exists k :: 0 <= k < |decisions| && row.event == decisions[k].event
  }

  lemma {:induction false} ExpiredRows(decisions: seq<Decision>, ids: seq<nat>)
    ensures forall j :: |decisions| <= j < |ExpireListed(decisions, ids)| ==>
              ExpiryOf(decisions, ExpireListed(decisions, ids)[j])
  {
    if ids != [] {
      var front, i := ids[..|ids| - 1], ids[|ids| - 1];
      var r, all := ExpireListed(decisions, front), ExpireListed(decisions, ids);
      ExpiredRows(decisions, front);
      PrefixAt(decisions, r);
      if i < |r| && r[i].status == PendingReview {
        assert !ExpiryOf(decisions, r[i]);
        assert i < |decisions|;
      }
      forall j | |decisions| <= j < |all| ensures ExpiryOf(decisions, all[j]) {
        if j < |r| {
          assert all[j] == r[j];
        } else {
          assert all[j] == Transition(r, i, ManualReview, Expired, None);
          assert all[j].event == decisions[i].event;
        }
      }
    }
  }

  lemma OtherCommits(cfg: Config, reg: Registry, db: Db, t: Txn, clock: Instant)
    requires !t.Ingesting?
    ensures OnlyTransitions(db, CommitDb(cfg, reg, db, t, clock).0)
  {
    CommitGrows(cfg, reg, db, t, clock);
    match t
    case Resolving(r, plan, current, started) =>
    case Expiring(i) =>
    case OpeningBarrier(r, controller, gate, overdue, started) =>
      OpenedRows(db, r, controller, gate, overdue, started, clock);
      ExpiredRows(db.decisions, overdue);
    case Redeeming(r, p, barrier, controller, started) =>
  }

  lemma TransitionsDecided(before: Db, after: Db)
    requires Decided(before) && OnlyTransitions(before, after)
    ensures Decided(after)
  {
    PrefixAt(before.decisions, after.decisions);
    forall e | 0 <= e < |after.events| ensures InitialOf(after.decisions, e).Some? {
      InitialKept(before.decisions, after.decisions, e);
    }
  }

  lemma PassageDecided(before: Db, after: Db, e: CameraEvent, s: Settled)
    requires Decided(before) && after.events == before.events + [e]
    requires after.decisions == before.decisions + [InitialRow(|before.events|, s)]
    ensures Decided(after)
  {
    assert after.decisions[..|before.decisions|] == before.decisions;
    assert Initial(after.decisions[|before.decisions|], |before.events|);
    forall e | 0 <= e < |after.events| ensures InitialOf(after.decisions, e).Some? {
      if e < |before.events| {
        InitialKept(before.decisions, after.decisions, e);
      }
    }
  }

  /** A commit keeps the receipt and stores events under its key only. */
  ghost predicate ReceivedUnder(cfg: Config, before: Db, after: Db, key: Id) {
    && EventsOk(cfg, after.events) && Decided(after) && Prefix(before.events, after.events)
    && forall i :: |before.events| <= i < |after.events| ==> EventKey(cfg, after.events[i]) == key
  }

  lemma IngestReceives(cfg: Config, reg: Registry, db: Db, key: Id, t: Ticket, started: Instant, clock: Instant)
    requires EventsOk(cfg, db.events) && Decided(db) && TicketOk(cfg, db.events, key, t)
    ensures ReceivedUnder(cfg, db, CommitIngest(cfg, reg, db, t, started, clock).0, key)
  {
    if FindEvent(db.events, t.input.controller, t.input.eventId).None? {
      RecordedRows(cfg, reg, db, t, started, clock);
      EventAdded(cfg, db.events, key, t);
      PassageDecided(db, RecordPassage(cfg, reg, db, t, started, clock).0, ToEvent(t.input), Settle(db, t, clock));
    }
  }

  lemma CommitReceives(cfg: Config, reg: Registry, db: Db, key: Id, t: Txn, clock: Instant)
    requires EventsOk(cfg, db.events) && Decided(db)
    requires t.Ingesting? ==> TicketOk(cfg, db.events, key, t.ticket)
    ensures ReceivedUnder(cfg, db, CommitDb(cfg, reg, db, t, clock).0, key)
  {
    if t.Ingesting? {
      IngestReceives(cfg, reg, db, key, t.ticket, t.started, clock);
    } else {
      OtherCommits(cfg, reg, db, t, clock);
      TransitionsDecided(db, CommitDb(cfg, reg, db, t, clock).0);
    }
  }

  lemma CommitKeepsReceipt(cfg: Config, s: Sys, key: Id, clock: Instant)
    requires ReceiptInv(cfg, s)
    ensures ReceiptInv(cfg, CommitApply(cfg, s, key, clock))
  {
    if key in s.held {
      var after := CommitApply(cfg, s, key, clock);
      CommitReceives(cfg, s.reg, s.db, key, s.held[key], clock);
      PrefixAt(s.db.events, after.db.events);
      forall other | other in after.held && after.held[other].Ingesting?
        ensures TicketOk(cfg, after.db.events, other, after.held[other].ticket)
      {
        TicketStable(cfg, s.db.events, after.db.events, key, other, s.held[other].ticket);
      }
    }
  }

  // ---------------------------------------------------------------- every run

  lemma BeginReceives(cfg: Config, s: Sys, x: Input, started: Instant)
    requires ReceiptInv(cfg, s)
    ensures ReceiptInv(cfg, BeginIngestApply(cfg, s, x, started))
  {
    if BeginIngest(cfg, s.reg, s.db, x).Accepted? {
      AcceptedIsOk(cfg, s.reg, s.db, x);
    }
  }

  /** Only commits write events and decisions. */
  lemma OnlyCommitsDecide(cfg: Config, s: Sys, step: Step)
    requires !(step.Commit? && step.key in s.held)
    ensures Apply(cfg, s, step).db.events == s.db.events && Apply(cfg, s, step).db.decisions == s.db.decisions
  {
  }

  lemma QuietReceipt(cfg: Config, s: Sys, step: Step)
    requires ReceiptInv(cfg, s) && !step.BeginIngestStep? && !step.Commit?
    ensures ReceiptInv(cfg, Apply(cfg, s, step))
  {
    OnlyCommitsDecide(cfg, s, step);
    NoNewIngestion(cfg, s, step);
  }

  lemma NoNewIngestion(cfg: Config, s: Sys, step: Step)
    requires !step.BeginIngestStep?
    ensures var after := Apply(cfg, s, step);
            forall key :: key in after.held && after.held[key].Ingesting? ==>
              key in s.held && after.held[key] == s.held[key]
  {
  }

  lemma ReceiptStep(cfg: Config, s: Sys, step: Step)
    requires ReceiptInv(cfg, s)
    ensures ReceiptInv(cfg, Apply(cfg, s, step))
  {
    match step
    case BeginIngestStep(x, started) => BeginReceives(cfg, s, x, started);
    case Commit(key, clock) => CommitKeepsReceipt(cfg, s, key, clock);
    case _ => QuietReceipt(cfg, s, step);
  }

  lemma {:induction false} ReceiptRun(cfg: Config, s: Sys, steps: seq<Step>)
    requires ReceiptInv(cfg, s)
    ensures ReceiptInv(cfg, Run(cfg, s, steps))
  {
    if steps != [] {
      ReceiptRun(cfg, s, steps[..|steps| - 1]);
      ReceiptStep(cfg, Run(cfg, s, steps[..|steps| - 1]), steps[|steps| - 1]);
    }
  }

  /** In every reachable state of every configuration keys are unique, stored repeats of a passage are strictly
    * more than the window apart, and every event has an initial decision. */
  lemma ReachableReceipt(cfg: Config, reg: Registry, steps: seq<Step>)
    ensures ReceiptInv(cfg, Run(cfg, Start(reg), steps))
  {
    ReceiptRun(cfg, Start(reg), steps);
  }
}
