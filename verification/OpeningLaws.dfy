/** Standalone manual openings and pending reviews exclude each other at a barrier. */
module OpeningLaws {
  import opened Common
  import opened Domain
  import opened Engine
  import opened Queries
  import opened Transactions
  import opened System
  import opened Chains
  import opened CoreSafety
  import opened Growth
  import opened ReceiptSafety
  import opened LockRace
  import ResolveLaws

  // ---------------------------------------------------------------- the opening clears the gate

  /** Rows pending at the gate after the lazy expiry were pending before it and not overdue. */
  lemma SurvivorsWereActive(cfg: Config, db: Db, r: OpenRequest, controller: Id, gate: Id, overdue: seq<nat>, i: nat)
    requires Chain(db.decisions, |db.events|) && OpenOk(cfg, db, r, controller, gate, overdue)
    requires PendingAt(db.(decisions := ExpireListed(db.decisions, overdue)), gate, i)
    ensures i < |db.decisions| && PendingAt(db, gate, i) && !Overdue(db.decisions[i], r.now)
  {
    var rows := ExpireListed(db.decisions, overdue);
    ExpireListedRows(db.decisions, |db.events|, overdue);
    PendingTwoWays(rows, |db.events|, i);
    PendingAfterExpiry(db.decisions, overdue, rows, i);
    PendingTwoWays(db.decisions, |db.events|, i);
    assert OverduePendingAt(db, gate, r.now, i) ==> i in overdue;
  }

  /** Conversely, a row that is pending and not overdue survives the lazy expiry. */
  lemma ActiveSurvives(cfg: Config, db: Db, r: OpenRequest, controller: Id, gate: Id, overdue: seq<nat>, i: nat)
    requires Chain(db.decisions, |db.events|) && OpenOk(cfg, db, r, controller, gate, overdue)
    requires PendingAt(db, gate, i) && !Overdue(db.decisions[i], r.now)
    ensures PendingAt(db.(decisions := ExpireListed(db.decisions, overdue)), gate, i)
    ensures ExpireListed(db.decisions, overdue)[i] == db.decisions[i]
  {
    var rows := ExpireListed(db.decisions, overdue);
    ExpireListedRows(db.decisions, |db.events|, overdue);
    UnlistedStays(db.decisions, overdue, rows, i);
    PendingTwoWays(db.decisions, |db.events|, i);
    PendingTwoWays(rows, |db.events|, i);
  }

  /** A standalone opening succeeds exactly when every pending review at the gate is overdue, and then
    * leaves none pending; otherwise it reports one that is active and opens nothing. */
  lemma OpeningClearsTheGate(cfg: Config, db: Db, r: OpenRequest, controller: Id, gate: Id, overdue: seq<nat>,
                             started: Instant, clock: Instant)
    requires Chain(db.decisions, |db.events|) && OpenOk(cfg, db, r, controller, gate, overdue)
    ensures var (after, outcome) := CommitOpen(db, r, controller, gate, overdue, started, clock);
            && (outcome.Opened? <==> forall i: nat :: PendingAt(db, gate, i) ==> Overdue(db.decisions[i], r.now))
            && (outcome.Opened? ==> forall i: nat :: !PendingAt(after, gate, i))
            && (!outcome.Opened? ==> after.commands == db.commands && after.openings == db.openings
                                     && outcome.PendingConflict?
                                     && exists i: nat ::
                                          PendingAt(db, gate, i) && db.decisions[i].event == outcome.event)
  {
    var expired := db.(decisions := ExpireListed(db.decisions, overdue));
    var active := ActivePendingAt(expired, gate, r.now, |expired.decisions|);
    var (after, outcome) := CommitOpen(db, r, controller, gate, overdue, started, clock);
    forall i: nat | PendingAt(expired, gate, i)
      ensures i < |db.decisions| && PendingAt(db, gate, i) && !Overdue(db.decisions[i], r.now)
      ensures expired.decisions[i] == db.decisions[i]
    {
      SurvivorsWereActive(cfg, db, r, controller, gate, overdue, i);
      ActiveSurvives(cfg, db, r, controller, gate, overdue, i);
    }
    forall i: nat | PendingAt(db, gate, i) && !Overdue(db.decisions[i], r.now)
      ensures PendingAt(expired, gate, i) && expired.decisions[i] == db.decisions[i]
    {
      ActiveSurvives(cfg, db, r, controller, gate, overdue, i);
    }
    forall i: nat ensures PendingAt(after, gate, i) <==> PendingAt(expired, gate, i) {
      assert after.decisions == expired.decisions && after.events == expired.events;
    }
    if active.None? {
      assert forall i: nat :: !PendingAt(expired, gate, i);
    }
  }

  // ---------------------------------------------------------------- all that an opening writes

  /** The whole standalone opening, when nothing comes between its reads and its writes. */
  function OpenNow(cfg: Config, db: Db, r: OpenRequest, started: Instant, clock: Instant): (Db, OpenOutcome) {
    match BeginOpen(cfg, db, r)
    case Refused(outcome) => (db, outcome)
    case Granted(controller, gate, overdue) => CommitOpen(db, r, controller, gate, overdue, started, clock)
  }

  /** The barrier the operator named: active, and served by a controller. */
  predicate Named(cfg: Config, r: OpenRequest, b: Barrier) {
    b in cfg.barriers && b.id == r.barrier && b.active && b.controller.Some?
  }

  /** Only decisions changed: exactly the overdue pending reviews of the gate are expired, each once. */
  ghost predicate OverdueClosed(db: Db, after: Db, gate: Id, now: Instant) {
    exists ids: seq<nat> :: ListClosed(db, after.decisions, gate, now, ids)
  }

  ghost predicate ListClosed(db: Db, rows: seq<Decision>, gate: Id, now: Instant, ids: seq<nat>) {
    && Expires(db.decisions, ids, rows)
    && (forall i: nat :: i in ids <==> OverduePendingAt(db, gate, now, i))
    && forall j, k :: 0 <= j < k < |ids| ==> ids[j] != ids[k]
  }

  /** An opening without a reason, or of a barrier that nobody serves, changes nothing. Any other expires the overdue
    * reviews of the gate; then, if it goes through, it orders the named barrier from its controller for two minutes,
    * and records the opening and the audit row; else it writes nothing more. */
  lemma OpeningWrites(cfg: Config, db: Db, r: OpenRequest, started: Instant, clock: Instant)
    requires WellFormed(cfg) && Chain(db.decisions, |db.events|)
    ensures var (after, outcome) := OpenNow(cfg, db, r, started, clock);
            if ResolveLaws.Empty(Some(r.reason)) then after == db && outcome == ReasonRequired
            else if forall b :: !Named(cfg, r, b) then after == db && outcome == UnknownBarrier
            else
              exists b :: Named(cfg, r, b) && OverdueClosed(db, after, b.gate, r.now)
                          && (outcome.Opened? || outcome.PendingConflict?)
                          && Writes(db, after, r, b, outcome, started, clock)
  {
    ResolveLaws.BlankIsEmpty(Some(r.reason));
    var found := FindBarrier(cfg.barriers, r.barrier);
    assert found.Some? && found.value.active && found.value.controller.Some? ==> Named(cfg, r, found.value);
    if !Blank(Some(r.reason)) && exists b :: Named(cfg, r, b) {
      var b :| Named(cfg, r, b);
      ResolveLaws.SameBarrier(cfg, found.value, b);
      OverdueListClosed(db, r, b.gate, started, clock, b.controller.value);
      var (after, outcome) := OpenNow(cfg, db, r, started, clock);
      assert Writes(db, after, r, b, outcome, started, clock);
    }
  }

  /** What is written beside the expiries. */
  predicate Writes(db: Db, after: Db, r: OpenRequest, b: Barrier, outcome: OpenOutcome, started: Instant,
                   clock: Instant)
  {
    && b.controller.Some? && after.events == db.events && after.passes == db.passes && after.sessions == db.sessions
    && if outcome.Opened? then
         && outcome == Opened(|db.openings|, |db.commands|, b.id)
         && after.commands == db.commands + [Command(None, b.controller.value, b.id, started,
                                                     Some(clock + 120_000_000), Pending, None, None, 0, None)]
         && after.openings == db.openings + [Opening(b.id, |db.commands|, None, r.operator, r.reason, None, started)]
         && after.log == db.log + [BarrierOpened(b.id, r.operator)]
       else after.commands == db.commands && after.openings == db.openings && after.log == db.log
  }

  lemma OverdueListClosed(db: Db, r: OpenRequest, gate: Id, started: Instant, clock: Instant, controller: Id)
    requires Chain(db.decisions, |db.events|)
    ensures var ids := OverdueAt(db, gate, r.now, |db.decisions|);
            OverdueClosed(db, CommitOpen(db, r, controller, gate, ids, started, clock).0, gate, r.now)
  {
    var ids := OverdueAt(db, gate, r.now, |db.decisions|);
    OpenedRows(db, r, controller, gate, ids, started, clock);
    OverdueExpired(db, gate, r.now);
    var after := CommitOpen(db, r, controller, gate, ids, started, clock).0;
    assert ListClosed(db, after.decisions, gate, r.now, ids);
  }

  lemma OverdueExpired(db: Db, gate: Id, now: Instant)
    requires Chain(db.decisions, |db.events|)
    ensures var ids := OverdueAt(db, gate, now, |db.decisions|);
            ListClosed(db, ExpireListed(db.decisions, ids), gate, now, ids)
  {
    var ids := OverdueAt(db, gate, now, |db.decisions|);
    forall k | 0 <= k < |ids| ensures StillPending(db.decisions, ids[k]) {
      PendingTwoWays(db.decisions, |db.events|, ids[k]);
    }
    ExpireListedRows(db.decisions, |db.events|, ids);
  }

  // ---------------------------------------------------------------- in every run

  /** If the step recorded an opening held under the key, no review is left pending at its gate. */
  ghost predicate ClearsIfOpened(s: Sys, after: Sys, key: Id) {
    key in s.held && s.held[key].OpeningBarrier? && |after.db.openings| > |s.db.openings| ==>
      forall i: nat :: !PendingAt(after.db, s.held[key].gate, i)
  }

  ghost predicate OpeningsClear(cfg: Config) {
    forall reg: Registry, steps: seq<Step>, key: Id, clock: Instant ::
      var s := Run(cfg, Start(reg), steps); ClearsIfOpened(s, CommitApply(cfg, s, key, clock), key)
  }

  /** A standalone opening finds this barrier and may open it. */
  predicate CanOpen(cfg: Config, b: Barrier) {
    FindBarrier(cfg.barriers, b.id) == Some(b) && b.active && b.controller.Some?
  }

  /** Every barrier of an owned gate that an operator can open is the one whose id keys the gate's passages. */
  ghost predicate OpenersCoincide(cfg: Config) {
    forall b :: b in cfg.barriers && CanOpen(cfg, b) && GateOwned(cfg, b.gate) ==>
      BarrierIdAt(cfg, Some(b.gate)) == Some(b.id)
  }

  /** What an opening in flight knows: its barrier, and every overdue pending review of its gate. */
  ghost predicate Informed(cfg: Config, db: Db, key: Id, t: Txn) {
    t.OpeningBarrier? ==>
      && FindBarrier(cfg.barriers, key) == Some(Barrier(key, t.gate, Some(t.controller), true))
      && forall i :: 0 <= i < |db.decisions| && OverduePendingAt(db, t.gate, t.open.now, i) ==> i in t.overdue
  }

  ghost predicate OpeningInv(cfg: Config, s: Sys) {
    ReceiptInv(cfg, s) && forall key :: key in s.held ==> Informed(cfg, s.db, key, s.held[key])
  }

  /** A row still pending after an expiry of listed rows was pending before and is not listed. */
  lemma {:induction false} PendingIsUnlisted(decisions: seq<Decision>, ids: seq<nat>, i: nat)
    requires CurrentPending(ExpireListed(decisions, ids), i)
    ensures i < |decisions| && CurrentPending(decisions, i) && i !in ids
  {
    if ids != [] {
      var front, j := ids[..|ids| - 1], ids[|ids| - 1];
      var r, all := ExpireListed(decisions, front), ExpireListed(decisions, ids);
      assert ids == front + [j];
      assert i < |r| && all[i] == r[i];
      assert CurrentPending(r, i);
      assert i != j;
      PendingIsUnlisted(decisions, front, i);
    }
  }

  /** An opening that goes through found every review that is still pending overdue. */
  lemma OpenedFoundOverdue(db: Db, r: OpenRequest, controller: Id, gate: Id, overdue: seq<nat>, started: Instant,
                           clock: Instant)
    ensures var after := CommitOpen(db, r, controller, gate, overdue, started, clock).0;
            |after.openings| > |db.openings| ==>
              forall i: nat :: PendingAt(after, gate, i) ==> Overdue(after.decisions[i], r.now)
  {
    var after := CommitOpen(db, r, controller, gate, overdue, started, clock).0;
    var expired := db.(decisions := ExpireListed(db.decisions, overdue));
    var active := ActivePendingAt(expired, gate, r.now, |expired.decisions|);
    if active.None? {
      forall i: nat | PendingAt(after, gate, i) ensures Overdue(after.decisions[i], r.now) {
        assert PendingAt(expired, gate, i);
        assert OverduePendingAt(expired, gate, r.now, i);
      }
    }
  }

  /** An informed opening that goes through leaves nothing pending. */
  lemma InformedClears(cfg: Config, s: Sys, key: Id, clock: Instant)
    requires key in s.held ==> Informed(cfg, s.db, key, s.held[key])
    ensures ClearsIfOpened(s, CommitApply(cfg, s, key, clock), key)
  {
    if key in s.held && s.held[key].OpeningBarrier? {
      var t, db := s.held[key], s.db;
      var after := CommitApply(cfg, s, key, clock).db;
      OpenedRows(db, t.open, t.controller, t.gate, t.overdue, t.started, clock);
      OpenedFoundOverdue(db, t.open, t.controller, t.gate, t.overdue, t.started, clock);
      forall i: nat | PendingAt(after, t.gate, i) ensures !Overdue(after.decisions[i], t.open.now) {
        PendingIsUnlisted(db.decisions, t.overdue, i);
        PrefixAt(db.decisions, after.decisions);
        assert PendingAt(db, t.gate, i);
      }
    }
  }

  /** New rows that are not overdue reviews of its gate leave the opening informed. */
  lemma StaysInformed(cfg: Config, before: Db, after: Db, key: Id, t: Txn)
    requires Decided(before) && Prefix(before.events, after.events) && Prefix(before.decisions, after.decisions)
    requires Informed(cfg, before, key, t)
    requires t.OpeningBarrier? ==> forall i :: |before.decisions| <= i < |after.decisions| ==>
               !OverduePendingAt(after, t.gate, t.open.now, i)
    ensures Informed(cfg, after, key, t)
  {
    PrefixAt(before.events, after.events);
    PrefixAt(before.decisions, after.decisions);
    if t.OpeningBarrier? {
      forall i | 0 <= i < |after.decisions| && OverduePendingAt(after, t.gate, t.open.now, i) ensures i in t.overdue {
        assert i < |before.decisions| && OverduePendingAt(before, t.gate, t.open.now, i);
      }
    }
  }

  /** No opening in flight took its time more than the review deadline after the clock of this commit. */
  ghost predicate TimelyStep(s: Sys, step: Step) {
    step.Commit? ==> forall key :: key in s.held && s.held[key].OpeningBarrier? ==>
      s.held[key].open.now <= step.clock + MANUAL_REVIEW_DEADLINE
  }

  /** Under another key no overdue review of the gate is recorded. */
  lemma NoNewOverdue(cfg: Config, reg: Registry, db: Db, key: Id, t: Txn, clock: Instant, other: Id, o: Txn)
    requires Decided(db) && o.OpeningBarrier? && Informed(cfg, db, other, o)
    requires t.Ingesting? ==> key != other && TicketOk(cfg, db.events, key, t.ticket)
    requires OpenersCoincide(cfg) || o.open.now <= clock + MANUAL_REVIEW_DEADLINE
    ensures var after := CommitDb(cfg, reg, db, t, clock).0;
            forall i :: |db.decisions| <= i < |after.decisions| ==> !OverduePendingAt(after, o.gate, o.open.now, i)
  {
    if t.Ingesting? {
      if FindEvent(db.events, t.ticket.input.controller, t.ticket.input.eventId).None? {
        RecordedRows(cfg, reg, db, t.ticket, t.started, clock);
        assert CanOpen(cfg, Barrier(other, o.gate, Some(o.controller), true));
      }
    } else {
      OtherCommits(cfg, reg, db, t, clock);
    }
  }

  lemma CommitInforms(cfg: Config, s: Sys, key: Id, clock: Instant)
    requires OpeningInv(cfg, s) && (OpenersCoincide(cfg) || TimelyStep(s, Commit(key, clock)))
    ensures OpeningInv(cfg, CommitApply(cfg, s, key, clock))
  {
    CommitKeepsReceipt(cfg, s, key, clock);
    if key in s.held {
      var after := CommitApply(cfg, s, key, clock);
      CommitGrows(cfg, s.reg, s.db, s.held[key], clock);
      forall other | other in after.held ensures Informed(cfg, after.db, other, after.held[other]) {
        var t := s.held[other];
        assert Informed(cfg, s.db, other, t);
        if t.OpeningBarrier? {
          NoNewOverdue(cfg, s.reg, s.db, key, s.held[key], clock, other, t);
        }
        StaysInformed(cfg, s.db, after.db, other, t);
      }
    }
  }

  lemma BeginInforms(cfg: Config, s: Sys, r: OpenRequest, started: Instant)
    requires OpeningInv(cfg, s)
    ensures OpeningInv(cfg, BeginOpenApply(cfg, s, r, started))
  {
    ReceiptStep(cfg, s, BeginOpenStep(r, started));
  }

  lemma NoNewOpening(cfg: Config, s: Sys, step: Step)
    requires !step.BeginOpenStep?
    ensures var after := Apply(cfg, s, step);
            forall key :: key in after.held && after.held[key].OpeningBarrier? ==>
              key in s.held && after.held[key] == s.held[key]
  {
  }

  lemma OtherInforms(cfg: Config, s: Sys, step: Step)
    requires OpeningInv(cfg, s) && !step.BeginOpenStep? && !(step.Commit? && step.key in s.held)
    ensures OpeningInv(cfg, Apply(cfg, s, step))
  {
    var after := Apply(cfg, s, step);
    ReceiptStep(cfg, s, step);
    OnlyCommitsDecide(cfg, s, step);
    NoNewOpening(cfg, s, step);
    forall key | key in after.held ensures Informed(cfg, after.db, key, after.held[key]) {
      if key in s.held && after.held[key] == s.held[key] {
        assert Informed(cfg, s.db, key, s.held[key]);
        StaysInformed(cfg, s.db, after.db, key, s.held[key]);
      }
    }
  }

  lemma OpeningStep(cfg: Config, s: Sys, step: Step)
    requires OpeningInv(cfg, s) && (OpenersCoincide(cfg) || TimelyStep(s, step))
    ensures OpeningInv(cfg, Apply(cfg, s, step))
  {
    if step.BeginOpenStep? {
      BeginInforms(cfg, s, step.open, step.started);
    } else if step.Commit? && step.key in s.held {
      CommitInforms(cfg, s, step.key, step.clock);
    } else {
      OtherInforms(cfg, s, step);
    }
  }

  /** Every step of the run is timely. */
  ghost predicate TimelyRun(cfg: Config, s: Sys, steps: seq<Step>) {
    forall n :: 0 <= n < |steps| ==> TimelyStep(Run(cfg, s, steps[..n]), steps[n])
  }

  lemma {:induction false} OpeningRun(cfg: Config, reg: Registry, steps: seq<Step>)
    requires OpenersCoincide(cfg) || TimelyRun(cfg, Start(reg), steps)
    ensures OpeningInv(cfg, Run(cfg, Start(reg), steps))
  {
    if steps != [] {
      var front := steps[..|steps| - 1];
      assert TimelyRun(cfg, Start(reg), steps) ==> TimelyRun(cfg, Start(reg), front) by {
        forall n | 0 <= n < |front| && TimelyRun(cfg, Start(reg), steps)
          ensures TimelyStep(Run(cfg, Start(reg), front[..n]), front[n])
        {
          assert front[..n] == steps[..n];
          assert TimelyStep(Run(cfg, Start(reg), steps[..n]), steps[n]);
        }
      }
      OpeningRun(cfg, reg, front);
      OpeningStep(cfg, Run(cfg, Start(reg), front), steps[|steps| - 1]);
    }
  }

  /** On any equipment: while clocks differ by less than the review deadline, a standalone opening that commits
    * leaves no review pending at its gate. */
  lemma TimelyOpeningClears(cfg: Config, reg: Registry, steps: seq<Step>, key: Id, clock: Instant)
    requires TimelyRun(cfg, Start(reg), steps)
    ensures var s := Run(cfg, Start(reg), steps); ClearsIfOpened(s, CommitApply(cfg, s, key, clock), key)
  {
    OpeningRun(cfg, reg, steps);
    InformedClears(cfg, Run(cfg, Start(reg), steps), key, clock);
  }

  // ---------------------------------------------------------------- with arbitrary clocks

  /** An opening at the barrier by a clock past the deadline of reviews recorded at time 0. */
  function EarlyBird(barrier: Id): OpenRequest {
    OpenRequest(barrier, 1, "x", LATE)
  }

  function OpeningOf(b: Barrier, controller: Id): Txn {
    OpeningBarrier(EarlyBird(b.id), controller, b.gate, [], 0)
  }

  lemma OpeningBegins(cfg: Config, reg: Registry, b: Barrier, controller: Id)
    requires CanOpen(cfg, b) && b.controller == Some(controller)
    ensures BeginOpenApply(cfg, Start(reg), EarlyBird(b.id), 0) == Hold(Start(reg), b.id, OpeningOf(b, controller))
  {
    assert "x"[0] in "x" && !IsSpace("x"[0]);
    assert BeginOpen(cfg, EMPTY_DB, EarlyBird(b.id)) == Granted(controller, b.gate, []);
  }

  /** Beside it a doubtful passage at the gate begins under the gate's key. */
  lemma PassageBegins(cfg: Config, reg: Registry, owner: Id, first: Barrier, b: Barrier, controller: Id)
    returns (t: Ticket)
    requires GateBelongs(cfg, b.gate, owner) && FirstActiveBarrier(cfg.barriers, b.gate) == Some(first)
    requires first.id != b.id
    ensures var s := Hold(Start(reg), b.id, OpeningOf(b, controller));
            BeginIngestApply(cfg, s, Doubtful(cfg, owner, b.gate), 0) == Hold(s, first.id, Ingesting(t, 0))
    ensures OnePending(CommitApply(cfg, Hold(Start(reg), first.id, Ingesting(t, 0)), first.id, 0), b.gate)
  {
    DoubtfulBegins(cfg, reg, owner, b.gate, first);
    var x := Doubtful(cfg, owner, b.gate);
    t :| BeginIngestApply(cfg, Start(reg), x, 0) == Hold(Start(reg), first.id, Ingesting(t, 0))
         && t.input.gate == Some(b.gate) && t.engine == ReviewFor(LowConfidence, None);
    DoubtRecorded(cfg, reg, b.gate, first.id, t);
    assert IngestKey(cfg, x) == first.id;
    var begun := BeginIngest(cfg, reg, EMPTY_DB, x);
    assert begun.Accepted?;
    assert Hold(Start(reg), first.id, Ingesting(begun.ticket, 0)).held[first.id]
        == Hold(Start(reg), first.id, Ingesting(t, 0)).held[first.id];
  }

  /** The passage commits first; its review is overdue by the opening's clock but not in its list. */
  lemma PassageCommits(cfg: Config, reg: Registry, b: Barrier, controller: Id, first: Id, t: Ticket)
    requires first != b.id
    requires OnePending(CommitApply(cfg, Hold(Start(reg), first, Ingesting(t, 0)), first, 0), b.gate)
    ensures var s := Hold(Hold(Start(reg), b.id, OpeningOf(b, controller)), first, Ingesting(t, 0));
            var mid := CommitApply(cfg, s, first, 0);
            && mid.held == map[b.id := OpeningOf(b, controller)]
            && mid.db == CommitApply(cfg, Hold(Start(reg), first, Ingesting(t, 0)), first, 0).db
  {
  }

  lemma OpeningMisses(cfg: Config, s: Sys, alone: Sys, b: Barrier, controller: Id)
    requires s.held == map[b.id := OpeningOf(b, controller)] && s.db == alone.db && OnePending(alone, b.gate)
    ensures !ClearsIfOpened(s, CommitApply(cfg, s, b.id, 0), b.id)
  {
    var db := s.db;
    assert LatestOf(db.decisions, 0) == Some(0);
    assert PendingAt(db, b.gate, 0) && Overdue(db.decisions[0], LATE);
    assert ExpireListed(db.decisions, []) == db.decisions;
    assert ActivePendingAt(db, b.gate, LATE, 1).None?;
    assert db.(decisions := db.decisions) == db;
    var after := CommitApply(cfg, s, b.id, 0);
    assert after.db.decisions == db.decisions && after.db.events == db.events;
    assert PendingAt(after.db, b.gate, 0);
  }

  /** Another barrier that can be opened lets some run open it while a review of the gate stays pending. */
  lemma SecondOpenerMisses(cfg: Config, reg: Registry, b: Barrier) returns (steps: seq<Step>)
    requires CanOpen(cfg, b) && b in cfg.barriers && GateOwned(cfg, b.gate)
    requires BarrierIdAt(cfg, Some(b.gate)) != Some(b.id)
    ensures var s := Run(cfg, Start(reg), steps); !ClearsIfOpened(s, CommitApply(cfg, s, b.id, 0), b.id)
  {
    var owner: Id :| GateBelongs(cfg, b.gate, owner);
    var first := FirstActiveBarrier(cfg.barriers, b.gate).value;
    var controller := b.controller.value;
    OpeningBegins(cfg, reg, b, controller);
    var t := PassageBegins(cfg, reg, owner, first, b, controller);
    PassageCommits(cfg, reg, b, controller, first.id, t);
    var open, come := BeginOpenStep(EarlyBird(b.id), 0), BeginIngestStep(Doubtful(cfg, owner, b.gate), 0);
    RunTwo(cfg, Start(reg), open, come);
    RunSnoc(cfg, Start(reg), [open, come], Commit(first.id, 0));
    steps := [open, come] + [Commit(first.id, 0)];
    OpeningMisses(cfg, Run(cfg, Start(reg), steps),
                  CommitApply(cfg, Hold(Start(reg), first.id, Ingesting(t, 0)), first.id, 0), b, controller);
  }

  /** With arbitrary clocks: a standalone opening that commits leaves no review pending at its gate, in every run,
    * exactly when the barriers of owned gates that can be opened are those whose ids key the gates. */
  lemma OpeningsClearExactlyWhenOpenersCoincide(cfg: Config)
    ensures OpeningsClear(cfg) <==> OpenersCoincide(cfg)
  {
    if OpenersCoincide(cfg) {
      forall reg: Registry, steps: seq<Step>, key: Id, clock: Instant
        ensures var s := Run(cfg, Start(reg), steps); ClearsIfOpened(s, CommitApply(cfg, s, key, clock), key)
      {
        OpeningRun(cfg, reg, steps);
        InformedClears(cfg, Run(cfg, Start(reg), steps), key, clock);
      }
    } else {
      var b :| b in cfg.barriers && CanOpen(cfg, b) && GateOwned(cfg, b.gate)
               && BarrierIdAt(cfg, Some(b.gate)) != Some(b.id);
      var steps := SecondOpenerMisses(cfg, Registry([], [], [], map[], [], [], {}), b);
    }
  }

  // ---------------------------------------------------------------- later reviews are later passages

  /** Every pending review recorded from row `n` on was captured after opening `o` of its barrier. */
  ghost predicate LaterReviewsCapturedAfter(cfg: Config, db: Db, n: nat, o: Opening) {
    forall i :: n <= i < |db.decisions| && db.decisions[i].status == PendingReview
                && db.decisions[i].event < |db.events|
                && BarrierIdAt(cfg, db.events[db.decisions[i].event].gate) == Some(o.barrier) ==>
      o.createdAt < db.events[db.decisions[i].event].capturedAt
  }

  lemma TransitionsKeep(cfg: Config, db: Db, after: Db, n: nat, o: Opening)
    requires OnlyTransitions(db, after) && LaterReviewsCapturedAfter(cfg, db, n, o)
    ensures LaterReviewsCapturedAfter(cfg, after, n, o)
  {
    PrefixAt(db.decisions, after.decisions);
  }

  /** A new review is of a passage for which the ingestion found no opening since its capture. */
  lemma NewReviewIsRecent(cfg: Config, reg: Registry, db: Db, key: Id, t: Ticket, started: Instant, clock: Instant,
                          n: nat, o: Opening)
    requires TicketOk(cfg, db.events, key, t) && o in db.openings && LaterReviewsCapturedAfter(cfg, db, n, o)
    requires forall i :: 0 <= i < |db.decisions| ==> db.decisions[i].event < |db.events|
    ensures LaterReviewsCapturedAfter(cfg, RecordPassage(cfg, reg, db, t, started, clock).0, n, o)
  {
    RecordedRows(cfg, reg, db, t, started, clock);
    PendingMeansNoOpening(db, t, clock, o);
  }

  lemma PendingMeansNoOpening(db: Db, t: Ticket, clock: Instant, o: Opening)
    requires EngineForm(t.engine) && o in db.openings
    ensures Settle(db, t, clock).status == PendingReview && t.barrier == Some(o.barrier)
            ==> o.createdAt < t.input.capturedAt
  {
    assert RecentOpenExists(db.openings, o.barrier, t.input.capturedAt) <== t.input.capturedAt <= o.createdAt;
  }

  lemma CommitKeepsLater(cfg: Config, reg: Registry, db: Db, key: Id, t: Txn, clock: Instant, n: nat, o: Opening)
    requires Decided(db) && (t.Ingesting? ==> TicketOk(cfg, db.events, key, t.ticket))
    requires o in db.openings && LaterReviewsCapturedAfter(cfg, db, n, o)
    ensures LaterReviewsCapturedAfter(cfg, CommitDb(cfg, reg, db, t, clock).0, n, o)
  {
    if t.Ingesting? {
      NewReviewIsRecent(cfg, reg, db, key, t.ticket, t.started, clock, n, o);
    } else {
      OtherCommits(cfg, reg, db, t, clock);
      TransitionsKeep(cfg, db, CommitDb(cfg, reg, db, t, clock).0, n, o);
    }
  }

  /** Once a barrier was opened by hand, every review recorded for it later is of a passage captured
    * strictly after that opening. */
  lemma {:induction false} LaterReviewsAreLaterPassages(cfg: Config, s: Sys, steps: seq<Step>, o: Opening)
    requires ReceiptInv(cfg, s) && o in s.db.openings
    ensures LaterReviewsCapturedAfter(cfg, Run(cfg, s, steps).db, |s.db.decisions|, o)
  {
    if steps != [] {
      var front := Run(cfg, s, steps[..|steps| - 1]);
      var last := steps[|steps| - 1];
      LaterReviewsAreLaterPassages(cfg, s, steps[..|steps| - 1], o);
      ReceiptRun(cfg, s, steps[..|steps| - 1]);
      RunGrows(cfg, s, steps[..|steps| - 1]);
      assert o in front.db.openings[..|s.db.openings|];
      LaterStep(cfg, front, last, |s.db.decisions|, o);
    }
  }

  lemma LaterStep(cfg: Config, s: Sys, step: Step, n: nat, o: Opening)
    requires ReceiptInv(cfg, s) && o in s.db.openings && LaterReviewsCapturedAfter(cfg, s.db, n, o)
    ensures LaterReviewsCapturedAfter(cfg, Apply(cfg, s, step).db, n, o)
  {
    if step.Commit? && step.key in s.held {
      CommitKeepsLater(cfg, s.reg, s.db, step.key, s.held[step.key], step.clock, n, o);
    } else {
      OnlyCommitsDecide(cfg, s, step);
    }
  }

  /** In every run: a review recorded after an opening of its barrier is of a passage captured after it. */
  lemma LaterReviewsInEveryRun(cfg: Config, reg: Registry, before: seq<Step>, steps: seq<Step>, o: Opening)
    requires o in Run(cfg, Start(reg), before).db.openings
    ensures var s := Run(cfg, Start(reg), before);
            LaterReviewsCapturedAfter(cfg, Run(cfg, s, steps).db, |s.db.decisions|, o)
  {
    ReachableReceipt(cfg, reg, before);
    LaterReviewsAreLaterPassages(cfg, Run(cfg, Start(reg), before), steps, o);
  }
}
