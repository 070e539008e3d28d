/** What every run keeps whatever the equipment: without the hypothesis that lock keys coincide, a pending
  * row may be superseded more than once, but an event still has one initial decision and at most one
  * resolution by opening, because both paths lock the same key. */
module LooseChains {
  import opened Common
  import opened Domain
  import opened Engine
  import opened Queries
  import opened Transactions
  import opened System
  import opened Chains
  import opened CoreSafety
  import opened Growth

  /** A review resolved by opening. */
  predicate Resolution(d: Decision) {
    d.supersedes.Some? && d.status == AllowedManually
  }

  ghost predicate LooseChain(decisions: seq<Decision>, n: nat) {
    && (forall i :: 0 <= i < |decisions| ==> decisions[i].event < n && RowOk(decisions, i))
    && (forall i, j :: 0 <= i < j < |decisions| && decisions[i].supersedes.None? && decisions[j].supersedes.None?
                       ==> decisions[i].event != decisions[j].event)
    && (forall i, j :: 0 <= i < j < |decisions| && Resolution(decisions[i]) && Resolution(decisions[j])
                       ==> decisions[i].event != decisions[j].event)
  }

  /** A stored gate belongs to the controller that reported the passage. */
  ghost predicate GatesOwned(cfg: Config, events: seq<CameraEvent>) {
    forall i :: 0 <= i < |events| && events[i].gate.Some? ==>
      GateBelongs(cfg, events[i].gate.value, events[i].controller)
  }

  ghost predicate Unresolved(decisions: seq<Decision>, event: nat) {
    forall i :: 0 <= i < |decisions| && Resolution(decisions[i]) ==> decisions[i].event != event
  }

  ghost predicate LooseHeld(cfg: Config, db: Db, key: Id, t: Txn) {
    match t
    case Ingesting(ticket, _) =>
      && EngineForm(ticket.engine)
      && (ticket.input.gate.Some? ==> GateBelongs(cfg, ticket.input.gate.value, ticket.input.controller))
    case Resolving(r, plan, current, _) =>
      && current < |db.decisions| && db.decisions[current].status == PendingReview
      && db.decisions[current].event == r.event < |db.events| && key == EventKey(cfg, db.events[r.event])
      && (plan.OpenPlan? ==> Unresolved(db.decisions, r.event))
    case Expiring(i) => i < |db.decisions| && db.decisions[i].status == PendingReview
    case _ => true
  }

  ghost predicate LooseInv(cfg: Config, s: Sys) {
    && GatesOwned(cfg, s.db.events) && LooseChain(s.db.decisions, |s.db.events|)
    && forall key :: key in s.held ==> LooseHeld(cfg, s.db, key, s.held[key])
  }

  // ---------------------------------------------------------------- appending rows

  lemma LooseInitial(decisions: seq<Decision>, n: nat, row: Decision)
    requires LooseChain(decisions, n) && row.event == n && row.supersedes.None?
    requires InitialStatus(row.status) && StatusMatches(row.decision, row.status)
    ensures LooseChain(decisions + [row], n + 1)
  {
    var after := decisions + [row];
    forall i | 0 <= i < |after| ensures after[i].event < n + 1 && RowOk(after, i) {
      if i < |decisions| {
        assert RowOk(decisions, i);
      }
    }
  }

  lemma LooseTransition(decisions: seq<Decision>, n: nat, i: nat, d: DecisionType, s: DecisionStatus, who: Option<Id>)
    requires LooseChain(decisions, n) && i < |decisions| && decisions[i].status == PendingReview
    requires TerminalStatus(s) && StatusMatches(d, s)
    requires s == AllowedManually ==> Unresolved(decisions, decisions[i].event)
    ensures LooseChain(decisions + [Transition(decisions, i, d, s, who)], n)
  {
    var after := decisions + [Transition(decisions, i, d, s, who)];
    assert RowOk(decisions, i);
    forall k | 0 <= k < |after| ensures after[k].event < n && RowOk(after, k) {
      if k < |decisions| {
        assert RowOk(decisions, k);
      }
    }
  }

  /** Expiring any list resolves nothing. */
  lemma {:induction false} LooseExpiry(decisions: seq<Decision>, n: nat, ids: seq<nat>)
    requires LooseChain(decisions, n)
    ensures LooseChain(ExpireListed(decisions, ids), n)
    ensures forall i :: |decisions| <= i < |ExpireListed(decisions, ids)| ==>
              !Resolution(ExpireListed(decisions, ids)[i])
  {
    if ids != [] {
      var front, i := ids[..|ids| - 1], ids[|ids| - 1];
      LooseExpiry(decisions, n, front);
      var r := ExpireListed(decisions, front);
      if i < |r| && r[i].status == PendingReview {
        LooseTransition(r, n, i, ManualReview, Expired, None);
      }
    }
  }

  // ---------------------------------------------------------------- commits

  /** A commit keeps the tables and resolves only events of its key. */
  ghost predicate LooseCommit(cfg: Config, before: Db, after: Db, key: Id) {
    && GatesOwned(cfg, after.events) && LooseChain(after.decisions, |after.events|)
    && Prefix(before.events, after.events) && Prefix(before.decisions, after.decisions)
    && forall i :: |before.decisions| <= i < |after.decisions| && Resolution(after.decisions[i]) ==>
         after.decisions[i].event < |before.events| && EventKey(cfg, before.events[after.decisions[i].event]) == key
  }

  lemma LooseIngest(cfg: Config, reg: Registry, db: Db, key: Id, t: Ticket, started: Instant, clock: Instant)
    requires GatesOwned(cfg, db.events) && LooseChain(db.decisions, |db.events|)
    requires LooseHeld(cfg, db, key, Ingesting(t, started))
    ensures LooseCommit(cfg, db, CommitIngest(cfg, reg, db, t, started, clock).0, key)
  {
    if FindEvent(db.events, t.input.controller, t.input.eventId).None? {
      SettledForm(db, t, clock);
      RecordedRows(cfg, reg, db, t, started, clock);
      LooseInitial(db.decisions, |db.events|, InitialRow(|db.events|, Settle(db, t, clock)));
    }
  }

  lemma LooseResolve(cfg: Config, db: Db, key: Id, r: ResolveRequest, plan: Plan, current: nat, started: Instant,
                     clock: Instant)
    requires GatesOwned(cfg, db.events) && LooseChain(db.decisions, |db.events|)
    requires LooseHeld(cfg, db, key, Resolving(r, plan, current, started))
    ensures LooseCommit(cfg, db, CommitResolve(db, r, plan, current, started, clock).0, key)
  {
    match plan
    case ExpirePlan => LooseTransition(db.decisions, |db.events|, current, ManualReview, Expired, None);
    case DenyPlan => LooseTransition(db.decisions, |db.events|, current, Deny, DeniedManually, Some(r.operator));
    case OpenPlan(_, _) =>
      LooseTransition(db.decisions, |db.events|, current, Allow, AllowedManually, Some(r.operator));
  }

  lemma LooseOpen(cfg: Config, db: Db, key: Id, r: OpenRequest, controller: Id, gate: Id, overdue: seq<nat>,
                  started: Instant, clock: Instant)
    requires GatesOwned(cfg, db.events) && LooseChain(db.decisions, |db.events|)
    ensures LooseCommit(cfg, db, CommitOpen(db, r, controller, gate, overdue, started, clock).0, key)
  {
    OpenedRows(db, r, controller, gate, overdue, started, clock);
    LooseExpiry(db.decisions, |db.events|, overdue);
  }

  lemma CommitIsLoose(cfg: Config, reg: Registry, db: Db, key: Id, t: Txn, clock: Instant)
    requires GatesOwned(cfg, db.events) && LooseChain(db.decisions, |db.events|) && LooseHeld(cfg, db, key, t)
    ensures LooseCommit(cfg, db, CommitDb(cfg, reg, db, t, clock).0, key)
  {
    match t
    case Ingesting(ticket, started) => LooseIngest(cfg, reg, db, key, ticket, started, clock);
    case Resolving(r, plan, current, started) => LooseResolve(cfg, db, key, r, plan, current, started, clock);
    case Expiring(i) => LooseTransition(db.decisions, |db.events|, i, ManualReview, Expired, None);
    case OpeningBarrier(r, controller, gate, overdue, started) =>
      LooseOpen(cfg, db, key, r, controller, gate, overdue, started, clock);
    case Redeeming(_, _, _, _, _) =>
  }

  /** What the transactions under other keys read is still true. */
  lemma LooseStable(cfg: Config, before: Db, after: Db, key: Id, other: Id, t: Txn)
    requires LooseCommit(cfg, before, after, key) && other != key && LooseHeld(cfg, before, other, t)
    ensures LooseHeld(cfg, after, other, t)
  {
    PrefixAt(before.events, after.events);
    PrefixAt(before.decisions, after.decisions);
  }

  lemma CommitKeepsLoose(cfg: Config, s: Sys, key: Id, clock: Instant)
    requires LooseInv(cfg, s)
    ensures LooseInv(cfg, CommitApply(cfg, s, key, clock))
  {
    if key in s.held {
      var after := CommitApply(cfg, s, key, clock);
      CommitIsLoose(cfg, s.reg, s.db, key, s.held[key], clock);
      forall other | other in after.held ensures LooseHeld(cfg, after.db, other, after.held[other]) {
        LooseStable(cfg, s.db, after.db, key, other, s.held[other]);
      }
    }
  }

  // ---------------------------------------------------------------- begins

  lemma LooseBeginIngest(cfg: Config, s: Sys, x: Input, started: Instant)
    requires LooseInv(cfg, s)
    ensures LooseInv(cfg, BeginIngestApply(cfg, s, x, started))
  {
    ScopeFacts(cfg, x);
    EngineAnswers(cfg, s.reg, s.db, Sanitise(cfg, x), AuthorizeScope(cfg, x).violation);
  }

  /** A pending latest row means that nothing of the event was resolved. */
  lemma PendingIsUnresolved(decisions: seq<Decision>, n: nat, i: nat)
    requires LooseChain(decisions, n) && CurrentPending(decisions, i)
    ensures Unresolved(decisions, decisions[i].event)
  {
    forall k | 0 <= k < |decisions| && Resolution(decisions[k]) ensures decisions[k].event != decisions[i].event {
      assert RowOk(decisions, k) && RowOk(decisions, i);
      assert k > i ==> decisions[k].event != decisions[i].event;
    }
  }

  lemma LooseBeginResolve(cfg: Config, s: Sys, r: ResolveRequest, started: Instant)
    requires LooseInv(cfg, s)
    ensures LooseInv(cfg, BeginResolveApply(cfg, s, r, started))
  {
    var b := BeginResolve(cfg, s.db, r);
    if b.Planned? {
      PendingIsUnresolved(s.db.decisions, |s.db.events|, b.current);
    }
  }

  lemma LooseTake(cfg: Config, s: Sys, index: nat)
    requires LooseInv(cfg, s)
    ensures LooseInv(cfg, WorkerTakeApply(s, index))
  {
  }

  lemma LooseQuiet(cfg: Config, s: Sys, step: Step)
    requires LooseInv(cfg, s)
    requires !step.BeginIngestStep? && !step.BeginResolveStep? && !step.WorkerTake? && !step.Commit?
    ensures LooseInv(cfg, Apply(cfg, s, step))
  {
    var after := Apply(cfg, s, step);
    assert after.db.events == s.db.events && after.db.decisions == s.db.decisions;
    forall key | key in after.held ensures LooseHeld(cfg, after.db, key, after.held[key]) {
      if key in s.held {
        assert LooseHeld(cfg, s.db, key, s.held[key]);
      }
    }
  }

  lemma LooseStep(cfg: Config, s: Sys, step: Step)
    requires LooseInv(cfg, s)
    ensures LooseInv(cfg, Apply(cfg, s, step))
  {
    match step
    case BeginIngestStep(x, started) => LooseBeginIngest(cfg, s, x, started);
    case BeginResolveStep(r, started) => LooseBeginResolve(cfg, s, r, started);
    case WorkerTake(index) => LooseTake(cfg, s, index);
    case Commit(key, clock) => CommitKeepsLoose(cfg, s, key, clock);
    case _ => LooseQuiet(cfg, s, step);
  }

  /** In every reachable state of every configuration an event has one initial decision, transitions only leave
    * that decision while it is pending, and at most one of them resolves the event by opening. */
  lemma {:induction false} ReachableIsLoose(cfg: Config, reg: Registry, steps: seq<Step>)
    ensures LooseInv(cfg, Run(cfg, Start(reg), steps))
  {
    if steps != [] {
      ReachableIsLoose(cfg, reg, steps[..|steps| - 1]);
      LooseStep(cfg, Run(cfg, Start(reg), steps[..|steps| - 1]), steps[|steps| - 1]);
    }
  }
}
