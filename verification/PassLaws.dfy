/** Temporary passes: entries used equal entries granted, in every interleaving. */
module PassLaws {
  import opened Common
  import opened Domain
  import opened Engine
  import opened Queries
  import opened Transactions
  import opened System

  /** An initial decision that admitted a passage on this pass. */
  predicate AdmittedOn(d: Decision, p: nat) {
    && d.supersedes.None? && d.decision == Allow && d.status == Allowed
    && d.reason == Some(TemporaryPassAllowed) && d.pass == Some(p)
  }

  predicate RedeemedOn(e: LogEntry, p: nat) {
    e.CodeRedeemed? && e.pass == p
  }

  function Admissions(decisions: seq<Decision>, p: nat): nat {
    Count(decisions, (d: Decision) => AdmittedOn(d, p))
  }

  function Redemptions(log: seq<LogEntry>, p: nat): nat {
    Count(log, (e: LogEntry) => RedeemedOn(e, p))
  }

  /** What the journals say was granted on a pass. */
  function Granted(db: Db, p: nat): nat {
    Admissions(db.decisions, p) + Redemptions(db.log, p)
  }

  function UsedEntries(passes: seq<Pass>, p: nat): nat {
    if p < |passes| then passes[p].usedEntries else 0
  }

  /** Entries used are exactly the entries granted, and within the limit. */
  ghost predicate PassesOk(db: Db) {
    && (forall p: nat :: UsedEntries(db.passes, p) == Granted(db, p))
    && (forall p :: 0 <= p < |db.passes| ==> db.passes[p].usedEntries <= db.passes[p].maxEntries)
  }

  /** A taxi allow in flight is a direct allow. */
  predicate DirectTaxi(t: Txn) {
    t.Ingesting? && TaxiAllow(t.ticket.engine) ==> t.ticket.engine.status == Allowed
  }

  ghost predicate PassInv(s: Sys) {
    PassesOk(s.db) && AllDirect(s.held)
  }

  ghost predicate AllDirect(held: map<Id, Txn>) {
    forall key :: key in held ==> DirectTaxi(held[key])
  }

  /** Transitions grant nothing. */
  lemma {:induction false} ExpiriesGrantNothing(decisions: seq<Decision>, ids: seq<nat>, p: nat)
    ensures Admissions(ExpireListed(decisions, ids), p) == Admissions(decisions, p)
  {
    if ids != [] {
      var front, i := ids[..|ids| - 1], ids[|ids| - 1];
      ExpiriesGrantNothing(decisions, front, p);
      var earlier := ExpireListed(decisions, front);
      if i < |earlier| && earlier[i].status == PendingReview {
        CountOne(earlier, Transition(earlier, i, ManualReview, Expired, None), (d: Decision) => AdmittedOn(d, p));
      }
    }
  }

  lemma SpendOne(passes: seq<Pass>, i: nat, p: nat)
    requires i < |passes|
    ensures UsedEntries(passes[i := Spend(passes[i])], p) == UsedEntries(passes, p) + (if p == i then 1 else 0)
  {
  }

  lemma RecordConserves(cfg: Config, reg: Registry, db: Db, t: Ticket, started: Instant, clock: Instant)
    requires PassesOk(db) && (TaxiAllow(t.engine) ==> t.engine.status == Allowed)
    ensures PassesOk(RecordPassage(cfg, reg, db, t, started, clock).0)
  {
    var after := RecordPassage(cfg, reg, db, t, started, clock).0;
    var s := Settle(db, t, clock);
    var row := InitialRow(|db.events|, s);
    forall p: nat ensures UsedEntries(after.passes, p) == Granted(after, p) {
      CountOne(db.decisions, row, (d: Decision) => AdmittedOn(d, p));
      CountOne(db.log, after.log[|db.log|], (e: LogEntry) => RedeemedOn(e, p));
      assert after.log == db.log + [after.log[|db.log|]];
      assert UsedEntries(db.passes, p) == Granted(db, p);
      if TaxiAllow(t.engine) && ConsumeTaxi(db.passes, t.engine.pass.value).Some? {
        SpendOne(db.passes, t.engine.pass.value, p);
      }
    }
  }

  /** One more journal entry and one more transition that are not grants. */
  lemma TransitionConserves(db: Db, after: Db, row: Decision, entry: LogEntry)
    requires PassesOk(db) && row.supersedes.Some? && !entry.CodeRedeemed?
    requires after.passes == db.passes && after.decisions == db.decisions + [row] && after.log == db.log + [entry]
    ensures PassesOk(after)
  {
    forall p: nat ensures UsedEntries(after.passes, p) == Granted(after, p) {
      CountOne(db.decisions, row, (d: Decision) => AdmittedOn(d, p));
      CountOne(db.log, entry, (e: LogEntry) => RedeemedOn(e, p));
      assert UsedEntries(db.passes, p) == Granted(db, p);
    }
  }

  lemma OpenConserves(db: Db, r: OpenRequest, controller: Id, gate: Id, overdue: seq<nat>, started: Instant,
                      clock: Instant)
    requires PassesOk(db)
    ensures PassesOk(CommitOpen(db, r, controller, gate, overdue, started, clock).0)
  {
    var after := CommitOpen(db, r, controller, gate, overdue, started, clock).0;
    forall p: nat ensures UsedEntries(after.passes, p) == Granted(after, p) {
      ExpiriesGrantNothing(db.decisions, overdue, p);
      CountOne(db.log, BarrierOpened(r.barrier, r.operator), (e: LogEntry) => RedeemedOn(e, p));
      assert UsedEntries(db.passes, p) == Granted(db, p);
    }
  }

  lemma RedeemConserves(db: Db, r: RedeemRequest, i: nat, barrier: Id, controller: Id, started: Instant, clock: Instant)
    requires PassesOk(db)
    ensures PassesOk(CommitRedeem(db, r, i, barrier, controller, started, clock).0)
  {
    var after := CommitRedeem(db, r, i, barrier, controller, started, clock).0;
    if after.log != db.log {
      forall p: nat ensures UsedEntries(after.passes, p) == Granted(after, p) {
        CountOne(db.log, CodeRedeemed(i, r.operator), (e: LogEntry) => RedeemedOn(e, p));
        SpendOne(db.passes, i, p);
        assert UsedEntries(db.passes, p) == Granted(db, p);
      }
    }
  }

  lemma CommitConserves(cfg: Config, reg: Registry, db: Db, t: Txn, clock: Instant)
    requires PassesOk(db) && DirectTaxi(t)
    ensures PassesOk(CommitDb(cfg, reg, db, t, clock).0)
  {
    var after := CommitDb(cfg, reg, db, t, clock).0;
    match t
    case Ingesting(ticket, started) =>
      if FindEvent(db.events, ticket.input.controller, ticket.input.eventId).None? {
        RecordConserves(cfg, reg, db, ticket, started, clock);
      }
    case Resolving(r, plan, current, started) =>
      if current < |db.decisions| {
        TransitionConserves(db, after, after.decisions[|db.decisions|], after.log[|db.log|]);
      }
    case Expiring(i) =>
      if i < |db.decisions| {
        TransitionConserves(db, after, after.decisions[|db.decisions|], after.log[|db.log|]);
      }
    case OpeningBarrier(r, controller, gate, overdue, started) =>
      OpenConserves(db, r, controller, gate, overdue, started, clock);
    case Redeeming(r, p, barrier, controller, started) =>
      RedeemConserves(db, r, p, barrier, controller, started, clock);
  }

  lemma CloseConserves(db: Db, session: nat, operator: Id, reason: string, now: Instant)
    requires PassesOk(db)
    ensures PassesOk(ClosePresence(db, session, operator, reason, now).0)
  {
    var after := ClosePresence(db, session, operator, reason, now).0;
    if after.log != db.log {
      forall p: nat ensures UsedEntries(after.passes, p) == Granted(after, p) {
        CountOne(db.log, after.log[|db.log|], (e: LogEntry) => RedeemedOn(e, p));
        assert after.log == db.log + [after.log[|db.log|]];
        assert UsedEntries(db.passes, p) == Granted(db, p);
      }
    }
  }

  /** Administration may add unused passes and edit limits, never the entries used. */
  lemma EditConserves(db: Db, after: Db)
    requires PassesOk(db) && after.decisions == db.decisions && after.log == db.log
    requires forall p: nat :: UsedEntries(after.passes, p) == UsedEntries(db.passes, p)
    requires forall p :: 0 <= p < |after.passes| ==> after.passes[p].usedEntries <= after.passes[p].maxEntries
    ensures PassesOk(after)
  {
    forall p: nat ensures UsedEntries(after.passes, p) == Granted(after, p) {
      assert UsedEntries(db.passes, p) == Granted(db, p);
    }
  }

  lemma HeldDirect(cfg: Config, s: Sys, step: Step)
    requires AllDirect(s.held)
    ensures AllDirect(Apply(cfg, s, step).held)
  {
    match step
    case BeginIngestStep(x, started) => IngestDirect(cfg, s, x, started);
    case _ => OtherDirect(cfg, s, step);
  }

  lemma IngestDirect(cfg: Config, s: Sys, x: Input, started: Instant)
    requires AllDirect(s.held)
    ensures AllDirect(BeginIngestApply(cfg, s, x, started).held)
  {
    var b := BeginIngest(cfg, s.reg, s.db, x);
    assert b.Accepted? ==> DirectTaxi(Ingesting(b.ticket, started));
  }

  lemma OtherDirect(cfg: Config, s: Sys, step: Step)
    requires AllDirect(s.held) && !step.BeginIngestStep?
    ensures AllDirect(Apply(cfg, s, step).held)
  {
  }

  lemma TablesConserve(cfg: Config, s: Sys, step: Step)
    requires PassesOk(s.db) && AllDirect(s.held)
    ensures PassesOk(Apply(cfg, s, step).db)
  {
    match step
    case Commit(key, clock) =>
      if key in s.held {
        CommitConserves(cfg, s.reg, s.db, s.held[key], clock);
      }
    case CloseSessionStep(i, operator, reason, now) => CloseConserves(s.db, i, operator, reason, now);
    case _ => QuietConserves(cfg, s, step);
  }

  lemma QuietConserves(cfg: Config, s: Sys, step: Step)
    requires PassesOk(s.db) && !step.Commit? && !step.CloseSessionStep?
    ensures PassesOk(Apply(cfg, s, step).db)
  {
    EditConserves(s.db, Apply(cfg, s, step).db);
  }

  lemma PassStep(cfg: Config, s: Sys, step: Step)
    requires PassInv(s)
    ensures PassInv(Apply(cfg, s, step))
  {
    HeldDirect(cfg, s, step);
    TablesConserve(cfg, s, step);
  }

  lemma {:induction false} PassRun(cfg: Config, s: Sys, steps: seq<Step>)
    requires PassInv(s)
    ensures PassInv(Run(cfg, s, steps))
  {
    if steps != [] {
      PassRun(cfg, s, steps[..|steps| - 1]);
      PassStep(cfg, Run(cfg, s, steps[..|steps| - 1]), steps[|steps| - 1]);
    }
  }

  /** In every reachable state a pass has used exactly the entries its recorded admissions and code
    * redemptions granted, never more than its limit, however stale the engine's reads were. */
  lemma PassConservation(cfg: Config, reg: Registry, steps: seq<Step>, p: nat)
    ensures var db := Run(cfg, Start(reg), steps).db;
            p < |db.passes| ==>
              db.passes[p].usedEntries == Granted(db, p) && Granted(db, p) <= db.passes[p].maxEntries
  {
    PassRun(cfg, Start(reg), steps);
    var db := Run(cfg, Start(reg), steps).db;
    assert UsedEntries(db.passes, p) == Granted(db, p);
  }

  /** An engine allow that finds its pass spent by another transaction is recorded as a denial: no
    * command, no session, no entry used. */
  lemma LostRaceIsDenied(cfg: Config, reg: Registry, db: Db, t: Ticket, started: Instant, clock: Instant)
    requires TaxiAllow(t.engine) && t.engine.pass.value < |db.passes|
    requires db.passes[t.engine.pass.value].usedEntries >= db.passes[t.engine.pass.value].maxEntries
    ensures var (after, r) := RecordPassage(cfg, reg, db, t, started, clock);
            && r.decision == Deny && r.status == Denied && r.reason == Some(PassAlreadyUsed) && r.command.None?
            && after.decisions == db.decisions + [Decision(|db.events|, None, Deny, Denied, Some(PassAlreadyUsed), None,
                                                           t.engine.pass, None, None)]
            && after.passes == db.passes && after.commands == db.commands && after.sessions == db.sessions
  {
  }

  /** Two transactions that both read the last free entry: one admits, the other is denied. */
  lemma LastEntryGoesOnce(cfg: Config, reg: Registry, db: Db, a: Ticket, b: Ticket, started: Instant, clock: Instant,
                          p: nat)
    requires p < |db.passes| && db.passes[p].usedEntries + 1 == db.passes[p].maxEntries
    requires TaxiAllow(a.engine) && TaxiAllow(b.engine) && a.engine.pass == Some(p) == b.engine.pass
    requires a.engine.status == Allowed
    ensures var (mid, first) := RecordPassage(cfg, reg, db, a, started, clock);
            var (after, second) := RecordPassage(cfg, reg, mid, b, started, clock);
            && first.decision == Allow && second.decision == Deny && second.reason == Some(PassAlreadyUsed)
            && after.passes[p].usedEntries == after.passes[p].maxEntries && after.passes[p].status == UsedPass
  {
    var mid := RecordPassage(cfg, reg, db, a, started, clock).0;
    assert mid.passes == db.passes[p := Spend(db.passes[p])];
    LostRaceIsDenied(cfg, reg, mid, b, started, clock);
  }
}
