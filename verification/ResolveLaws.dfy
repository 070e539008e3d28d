/** What resolving a review answers and writes, in the fields of the rows: an overdue review expires before
  * anything else, an open one is opened or denied as asked, a resolved one answers as before. */
module ResolveLaws {
  import opened Common
  import opened Domain
  import opened Engine
  import opened Queries
  import opened Transactions
  import opened System
  import opened Chains
  import opened CoreSafety
  import opened Growth
  import opened ReceiptSafety
  import opened ScopeLaws

  /** The whole resolution, when nothing comes between its reads and its writes. */
  function Resolve(cfg: Config, db: Db, r: ResolveRequest, started: Instant, clock: Instant): (Db, ResolveOutcome) {
    match BeginResolve(cfg, db, r)
    case Answered(outcome) => (db, outcome)
    case Planned(plan, current) =>
      if current < |db.decisions| then CommitResolve(db, r, plan, current, started, clock) else (db, NoPendingReview)
  }

  /** Row `i` is the latest of the event and pending. */
  ghost predicate Open(db: Db, event: nat, i: nat) {
    && i < |db.decisions| && db.decisions[i].event == event && db.decisions[i].status == PendingReview
    && forall k :: i < k < |db.decisions| ==> db.decisions[k].event != event
  }

  ghost predicate Past(d: Decision, now: Instant) {
    d.deadline.Some? && d.deadline.value < now
  }

  predicate Known(r: ResolveRequest) {
    r.action == OpenAction || r.action == DenyAction
  }

  /** One row follows the latest: the same case, closed with this decision by this operator. */
  ghost predicate Closes(db: Db, after: Db, i: nat, decision: DecisionType, status: DecisionStatus, who: Option<Id>)
    requires i < |db.decisions|
  {
    var d := db.decisions[i];
    && after.events == db.events && after.passes == db.passes && after.sessions == db.sessions
    && after.decisions == db.decisions + [Decision(d.event, Some(i), decision, status, d.reason, d.vehicle, d.pass,
                                                   None, who)]
    && LatestOf(after.decisions, d.event) == Some(|db.decisions|)
  }

  /** An overdue review expires whatever is asked: no command, no opening, and the journal says so. */
  lemma OverdueExpires(cfg: Config, db: Db, r: ResolveRequest, i: nat, started: Instant, clock: Instant)
    requires Known(r) && r.event < |db.events| && Open(db, r.event, i) && Past(db.decisions[i], r.now)
    ensures var (after, outcome) := Resolve(cfg, db, r, started, clock);
            && outcome == Resolved(Expired, |db.decisions|, None, false)
            && Closes(db, after, i, ManualReview, Expired, None)
            && after.commands == db.commands && after.openings == db.openings
            && after.log == db.log + [ReviewExpired(|db.decisions|, true)]
  {
    assert LatestOf(db.decisions, r.event) == Some(i);
  }

  predicate Empty(reason: Option<string>) {
    reason.None? || forall c | c in reason.value :: c in " \t\n\r\U{b}\U{c}\U{1c}\U{1d}\U{1e}\U{1f}"
  }

  lemma BlankIsEmpty(reason: Option<string>)
    ensures Blank(reason) <==> Empty(reason)
  {
    var spaces := " \t\n\r\U{b}\U{c}\U{1c}\U{1d}\U{1e}\U{1f}";
    forall c: char ensures IsSpace(c) <==> c in spaces {
      SpaceListed(c);
    }
  }

  lemma SpaceListed(c: char)
    ensures IsSpace(c) <==> c in " \t\n\r\U{b}\U{c}\U{1c}\U{1d}\U{1e}\U{1f}"
  {
    var spaces := " \t\n\r\U{b}\U{c}\U{1c}\U{1d}\U{1e}\U{1f}";
    assert spaces[0] == ' ' && spaces[1] == '\t' && spaces[2] == '\n' && spaces[3] == '\r' && spaces[4] == '\U{b}';
    assert spaces[5] == '\U{c}' && spaces[6] == '\U{1c}' && spaces[7] == '\U{1d}' && spaces[8] == '\U{1e}';
    assert spaces[9] == '\U{1f}';
  }

  /** The request names another decision than the one that is pending. */
  predicate Misses(r: ResolveRequest, i: nat) {
    r.decision.Some? && r.decision.value != i
  }

  /** Opening was asked for with a reason, a barrier and the decision. */
  predicate OpensFully(r: ResolveRequest) {
    r.action == OpenAction && !Empty(r.reason) && r.barrier.Some? && r.decision.Some?
  }

  /** The barrier an event's review opens, and the controller that serves it. */
  ghost predicate OpenedBy(cfg: Config, e: CameraEvent, barrier: Id, controller: Id) {
    e.gate.Some?
    && exists b :: FirstBarrierOf(cfg, e.gate.value, b) && b.id == barrier && b.controller == Some(controller)
  }

  ghost predicate CanBeOpened(cfg: Config, e: CameraEvent) {
    exists barrier: Id, controller: Id :: OpenedBy(cfg, e, barrier, controller)
  }

  /** The command of an opening and the opening itself, for the barrier of the event's gate. */
  ghost predicate OpensBarrier(cfg: Config, db: Db, after: Db, r: ResolveRequest, started: Instant, clock: Instant) {
    r.reason.Some? && r.event < |db.events|
    && exists barrier: Id, controller: Id ::
         && OpenedBy(cfg, db.events[r.event], barrier, controller)
         && after.commands == db.commands + [Command(Some(|db.decisions|), controller, barrier, started,
                                                     Some(clock + 120_000_000), Pending, None, None, 0, None)]
         && after.openings == db.openings + [Opening(barrier, |db.commands|, Some(|db.decisions|), r.operator,
                                                     r.reason.value, Some(r.event), started)]
  }

  /** An open review is opened exactly when the request is complete, names it, and its gate has a barrier that can be
    * opened; then the barrier's command, the opening and the transition are written. */
  lemma OpensExactlyWhen(cfg: Config, db: Db, r: ResolveRequest, i: nat, started: Instant, clock: Instant)
    requires WellFormed(cfg) && r.event < |db.events| && Open(db, r.event, i) && !Past(db.decisions[i], r.now)
    requires r.action == OpenAction && forall c | c in db.commands :: c.decision != Some(|db.decisions|)
    ensures var (after, outcome) := Resolve(cfg, db, r, started, clock);
            if OpensFully(r) && !Misses(r, i) && CanBeOpened(cfg, db.events[r.event]) then
              && outcome == Resolved(AllowedManually, |db.decisions|, Some(|db.commands|), false)
              && Closes(db, after, i, Allow, AllowedManually, Some(r.operator))
              && OpensBarrier(cfg, db, after, r, started, clock)
              && after.log == db.log + [ReviewOpened(|db.decisions|, r.operator)]
            else
              after == db && outcome == if Misses(r, i) then DecisionMismatch
                                        else if !OpensFully(r) then InvalidAction
                                        else BarrierUnavailable
  {
    assert LatestOf(db.decisions, r.event) == Some(i);
    BlankIsEmpty(r.reason);
    var e := db.events[r.event];
    OpenableBarrier(cfg, e);
    assert CommandFor(db.commands, |db.decisions|).None?;
    var b := BarrierAt(cfg, e.gate);
    if OpensFully(r) && !Misses(r, i) && b.Some? && b.value.controller.Some? {
      assert OpenedBy(cfg, e, b.value.id, b.value.controller.value);
    }
  }

  lemma OpenableBarrier(cfg: Config, e: CameraEvent)
    requires WellFormed(cfg)
    ensures var b := BarrierAt(cfg, e.gate);
            && (b.Some? && b.value.controller.Some? ==> OpenedBy(cfg, e, b.value.id, b.value.controller.value))
            && (CanBeOpened(cfg, e) ==> b.Some? && b.value.controller.Some?)
  {
    if e.gate.Some? {
      LeastBarrier(cfg.barriers, e.gate.value);
      var b := BarrierAt(cfg, e.gate);
      assert b.Some? ==> FirstBarrierOf(cfg, e.gate.value, b.value);
      if CanBeOpened(cfg, e) {
        var barrier: Id, controller: Id :| OpenedBy(cfg, e, barrier, controller);
        var c :| FirstBarrierOf(cfg, e.gate.value, c) && c.id == barrier && c.controller == Some(controller);
        SameBarrier(cfg, b.value, c);
      }
    }
  }

  /** Barrier ids are unique. */
  lemma SameBarrier(cfg: Config, b: Barrier, c: Barrier)
    requires WellFormed(cfg) && b in cfg.barriers && c in cfg.barriers && b.id == c.id
    ensures b == c
  {
    var i :| 0 <= i < |cfg.barriers| && cfg.barriers[i] == b;
    var j :| 0 <= j < |cfg.barriers| && cfg.barriers[j] == c;
    assert i == j;
  }

  /** An open review is denied exactly when the request gives a reason and names it or names none; no command, no
    * opening. */
  lemma DeniesExactlyWhen(cfg: Config, db: Db, r: ResolveRequest, i: nat, started: Instant, clock: Instant)
    requires r.event < |db.events| && Open(db, r.event, i) && !Past(db.decisions[i], r.now) && r.action == DenyAction
    ensures var (after, outcome) := Resolve(cfg, db, r, started, clock);
            if !Empty(r.reason) && !Misses(r, i) then
              && outcome == Resolved(DeniedManually, |db.decisions|, None, false)
              && Closes(db, after, i, Deny, DeniedManually, Some(r.operator))
              && after.commands == db.commands && after.openings == db.openings
              && after.log == db.log + [ReviewDenied(|db.decisions|, r.operator)]
            else after == db && outcome == if Misses(r, i) then DecisionMismatch else InvalidAction
  {
    assert LatestOf(db.decisions, r.event) == Some(i);
    BlankIsEmpty(r.reason);
  }

  /** Anything else changes nothing: an unknown action, an unknown event, an event without a decision, and a case that
    * is already closed, which answers with its status and the command of its opening. */
  lemma OthersOnlyAnswer(cfg: Config, db: Db, r: ResolveRequest, started: Instant, clock: Instant)
    requires !(Known(r) && r.event < |db.events| && exists i: nat :: Open(db, r.event, i))
    ensures var (after, outcome) := Resolve(cfg, db, r, started, clock);
            && after == db
            && match outcome
               case InvalidAction => r.action == UnknownAction
               case NoPendingReview =>
                 Known(r) && (r.event >= |db.events| || forall d | d in db.decisions :: d.event != r.event)
               case Resolved(status, i, command, replayed) =>
                 && Known(r) && r.event < |db.events| && i < |db.decisions| && db.decisions[i].event == r.event
                 && status == db.decisions[i].status && status != PendingReview && replayed
                 && (forall k :: i < k < |db.decisions| ==> db.decisions[k].event != r.event)
                 && (command.Some? ==> status == AllowedManually && command.value < |db.commands|
                                       && db.commands[command.value].decision == Some(i))
                 && (command.None? && status == AllowedManually ==>
                       forall c | c in db.commands :: c.decision != Some(i))
               case _ => false
  {
    var latest := LatestOf(db.decisions, r.event);
    if latest.Some? && db.decisions[latest.value].status == PendingReview {
      assert Open(db, r.event, latest.value);
    }
  }

  // ---------------------------------------------------------------- every run

  /** A resolution in flight that opens or denies was asked for before the deadline. */
  ghost predicate InTime(db: Db, t: Txn) {
    t.Resolving? && !t.plan.ExpirePlan? ==> t.current < |db.decisions| && !Past(db.decisions[t.current], t.resolve.now)
  }

  ghost predicate AllInTime(s: Sys) {
    forall key :: key in s.held ==> InTime(s.db, s.held[key])
  }

  lemma NoNewResolution(cfg: Config, s: Sys, step: Step)
    requires !step.BeginResolveStep?
    ensures var after := Apply(cfg, s, step);
            forall key :: key in after.held && after.held[key].Resolving? ==>
              key in s.held && after.held[key] == s.held[key]
  {
  }

  lemma InTimeStep(cfg: Config, s: Sys, step: Step)
    requires AllInTime(s)
    ensures AllInTime(Apply(cfg, s, step))
  {
    StepGrows(cfg, s, step);
    var after := Apply(cfg, s, step);
    PrefixAt(s.db.decisions, after.db.decisions);
    if step.BeginResolveStep? {
      ResolveBegins(cfg, s, step.resolve, step.started);
    } else {
      NoNewResolution(cfg, s, step);
      forall key | key in after.held ensures InTime(after.db, after.held[key]) {
        if after.held[key].Resolving? {
          assert InTime(s.db, s.held[key]);
        }
      }
    }
  }

  lemma ResolveBegins(cfg: Config, s: Sys, r: ResolveRequest, started: Instant)
    requires AllInTime(s)
    ensures AllInTime(BeginResolveApply(cfg, s, r, started))
  {
  }

  lemma {:induction false} AlwaysInTime(cfg: Config, reg: Registry, steps: seq<Step>)
    ensures AllInTime(Run(cfg, Start(reg), steps))
  {
    if steps != [] {
      AlwaysInTime(cfg, reg, steps[..|steps| - 1]);
      InTimeStep(cfg, Run(cfg, Start(reg), steps[..|steps| - 1]), steps[|steps| - 1]);
    }
  }

  /** A row that closes a review by hand. */
  predicate ByHand(d: Decision) {
    d.supersedes.Some? && (d.status == AllowedManually || d.status == DeniedManually)
  }

  /** In every run each review closed by hand was closed by a resolution whose time was not past the deadline of the
    * row it supersedes. */
  lemma ClosedInTime(cfg: Config, reg: Registry, steps: seq<Step>, step: Step, k: nat)
    requires var s := Run(cfg, Start(reg), steps);
             var after := Apply(cfg, s, step);
             |s.db.decisions| <= k < |after.db.decisions| && ByHand(after.db.decisions[k])
    ensures var s := Run(cfg, Start(reg), steps);
            var d := Apply(cfg, s, step).db.decisions[k];
            && step.Commit? && step.key in s.held && s.held[step.key].Resolving?
            && var r := s.held[step.key].resolve;
               && d.supersedes == Some(s.held[step.key].current) && d.resolvedBy == Some(r.operator)
               && d.supersedes.value < |s.db.decisions| && !Past(s.db.decisions[d.supersedes.value], r.now)
               && (d.status == AllowedManually <==> s.held[step.key].plan.OpenPlan?)
  {
    var s := Run(cfg, Start(reg), steps);
    AlwaysInTime(cfg, reg, steps);
    if step.Commit? && step.key in s.held {
      assert InTime(s.db, s.held[step.key]);
      HandRows(cfg, s.reg, s.db, s.held[step.key], step.clock, k);
    } else {
      OnlyCommitsDecide(cfg, s, step);
    }
  }

  /** A standalone opening closes no review by hand. */
  lemma OpeningClosesNone(db: Db, r: OpenRequest, controller: Id, gate: Id, overdue: seq<nat>, started: Instant,
                          clock: Instant)
    ensures var after := CommitOpen(db, r, controller, gate, overdue, started, clock).0;
            forall k :: |db.decisions| <= k < |after.decisions| ==> !ByHand(after.decisions[k])
  {
    var rows := ExpireListed(db.decisions, overdue);
    OpenedRows(db, r, controller, gate, overdue, started, clock);
    ExpiredRows(db.decisions, overdue);
    forall k | |db.decisions| <= k < |rows| ensures !ByHand(rows[k]) {
      assert ExpiryOf(db.decisions, rows[k]);
    }
  }

  lemma HandRows(cfg: Config, reg: Registry, db: Db, t: Txn, clock: Instant, k: nat)
    requires var after := CommitDb(cfg, reg, db, t, clock).0;
             |db.decisions| <= k < |after.decisions| && ByHand(after.decisions[k])
    ensures var d := CommitDb(cfg, reg, db, t, clock).0.decisions[k];
            && t.Resolving? && !t.plan.ExpirePlan? && d.supersedes == Some(t.current)
            && d.resolvedBy == Some(t.resolve.operator) && (d.status == AllowedManually <==> t.plan.OpenPlan?)
  {
    match t
    case Ingesting(ticket, started) =>
    case Resolving(r, plan, current, started) =>
    case Expiring(i) =>
    case OpeningBarrier(r, controller, gate, overdue, started) =>
      OpeningClosesNone(db, r, controller, gate, overdue, started, clock);
    case Redeeming(r, p, barrier, controller, started) =>
  }
}
