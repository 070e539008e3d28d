/** Redelivered passages: replays of a key are stutters, window duplicates keep their answer. */
module Redelivery {
  import opened Common
  import opened Domain
  import opened Engine
  import opened Queries
  import opened Transactions
  import opened System
  import opened Chains
  import opened CoreSafety
  import opened Growth
  import opened ReceiptSafety

  // ---------------------------------------------------------------- commands refer to recorded decisions

  /** A command serves a recorded decision, or none. */
  ghost predicate CommandsRecorded(db: Db) {
    forall i :: 0 <= i < |db.commands| && db.commands[i].decision.Some?
                ==> db.commands[i].decision.value < |db.decisions|
  }

  lemma RecordedStep(cfg: Config, s: Sys, step: Step)
    requires CommandsRecorded(s.db)
    ensures CommandsRecorded(Apply(cfg, s, step).db)
  {
    match step
    case Commit(key, clock) =>
      if key in s.held {
        RecordedCommit(cfg, s.reg, s.db, s.held[key], clock);
      }
    case _ => RecordedOtherwise(cfg, s, step);
  }

  lemma RecordedCommit(cfg: Config, reg: Registry, db: Db, t: Txn, clock: Instant)
    requires CommandsRecorded(db)
    ensures CommandsRecorded(CommitDb(cfg, reg, db, t, clock).0)
  {
    match t
    case Ingesting(ticket, started) =>
    case Resolving(r, plan, current, started) =>
    case Expiring(i) =>
    case OpeningBarrier(r, controller, gate, overdue, started) =>
    case Redeeming(r, p, barrier, controller, started) =>
  }

  lemma RecordedOtherwise(cfg: Config, s: Sys, step: Step)
    requires CommandsRecorded(s.db) && !step.Commit?
    ensures CommandsRecorded(Apply(cfg, s, step).db)
  {
  }

  lemma {:induction false} RecordedRun(cfg: Config, s: Sys, steps: seq<Step>)
    requires CommandsRecorded(s.db)
    ensures CommandsRecorded(Run(cfg, s, steps).db)
  {
    if steps != [] {
      RecordedRun(cfg, s, steps[..|steps| - 1]);
      RecordedStep(cfg, Run(cfg, s, steps[..|steps| - 1]), steps[|steps| - 1]);
    }
  }

  // ---------------------------------------------------------------- replay of the same key

  /** The stored answer of an event never changes. */
  lemma AnswerFrozen(before: Db, after: Db, event: nat)
    requires Grew(before, after) && InitialOf(before.decisions, event).Some?
    ensures LoadExisting(after, event) == LoadExisting(before, event)
  {
    PrefixAt(before.decisions, after.decisions);
    InitialKept(before.decisions, after.decisions, event);
    var d := InitialOf(before.decisions, event).value;
    var c := CommandFor(before.commands, d);
    if c.Some? {
      assert SameCommand(before.commands[c.value], after.commands[c.value]);
      assert CommandFor(after.commands, d) == c;
    } else {
      forall i | 0 <= i < |after.commands| ensures after.commands[i].decision != Some(d) {
        assert i < |before.commands| ==> SameCommand(before.commands[i], after.commands[i]);
      }
    }
  }

  lemma KeyFound(before: Db, after: Db, controller: Id, eventId: string)
    requires Prefix(before.events, after.events) && FindEvent(before.events, controller, eventId).Some?
    ensures FindEvent(after.events, controller, eventId) == FindEvent(before.events, controller, eventId)
  {
    PrefixAt(before.events, after.events);
    var e := FindEvent(before.events, controller, eventId).value;
    assert SameKey(after.events[e], controller, eventId);
  }

  /** Whatever ran in between, redelivering a stored key returns the stored answer and changes no
    * table, lock or list, whatever else the repeated message claims. */
  lemma ReplayIsAStutter(cfg: Config, s: Sys, steps: seq<Step>, x: Input, started: Instant)
    requires ReceiptInv(cfg, s) && FindEvent(s.db.events, x.controller, x.eventId).Some?
    ensures var e := FindEvent(s.db.events, x.controller, x.eventId).value;
            var later := Run(cfg, s, steps);
            var after := BeginIngestApply(cfg, later, x, started);
            && BeginIngest(cfg, later.reg, later.db, x) == Replayed(LoadExisting(s.db, e))
            && after.db == later.db && after.held == later.held && after.due == later.due && after.reg == later.reg
  {
    var e := FindEvent(s.db.events, x.controller, x.eventId).value;
    RunGrows(cfg, s, steps);
    KeyFound(s.db, Run(cfg, s, steps).db, x.controller, x.eventId);
    assert InitialOf(s.db.decisions, e).Some?;
    AnswerFrozen(s.db, Run(cfg, s, steps).db, e);
  }

  /** The answer given when a passage is recorded is the one its event stores. */
  lemma RecordedAnswer(cfg: Config, reg: Registry, db: Db, t: Ticket, started: Instant, clock: Instant)
    requires Decided(db) && CommandsRecorded(db)
    ensures var r := RecordPassage(cfg, reg, db, t, started, clock);
            LoadExisting(r.0, |db.events|) == r.1.(replayed := true)
  {
    var r := RecordPassage(cfg, reg, db, t, started, clock);
    RecordedRows(cfg, reg, db, t, started, clock);
    var event, d := |db.events|, |db.decisions|;
    assert r.0.decisions[d] == InitialRow(event, Settle(db, t, clock));
    forall i | 0 <= i < d ensures !Initial(r.0.decisions[i], event) {
      assert r.0.decisions[i] == db.decisions[i];
    }
    assert InitialOf(r.0.decisions, event) == Some(d);
    assert CommandFor(db.commands, d).None?;
  }

  /** The first delivery of a passage and every later redelivery give the same answer, the repeats
    * marked as replays. */
  lemma FirstAnswerForever(cfg: Config, s: Sys, key: Id, clock: Instant, steps: seq<Step>, x: Input)
    requires ReceiptInv(cfg, s) && CommandsRecorded(s.db)
    requires key in s.held && s.held[key].Ingesting?
    requires var t := s.held[key].ticket;
             && x.controller == t.input.controller && x.eventId == t.input.eventId
             && FindEvent(s.db.events, t.input.controller, t.input.eventId).None?
    ensures var t := s.held[key].ticket;
            var first := CommitIngest(cfg, s.reg, s.db, t, s.held[key].started, clock).1;
            var later := Run(cfg, CommitApply(cfg, s, key, clock), steps);
            && !first.replayed
            && BeginIngest(cfg, later.reg, later.db, x) == Replayed(first.(replayed := true))
  {
    var t, started := s.held[key].ticket, s.held[key].started;
    var s1 := CommitApply(cfg, s, key, clock);
    CommitKeepsReceipt(cfg, s, key, clock);
    RecordedAnswer(cfg, s.reg, s.db, t, started, clock);
    RecordedRows(cfg, s.reg, s.db, t, started, clock);
    var e := |s.db.events|;
    assert SameKey(s1.db.events[e], x.controller, x.eventId);
    forall i | 0 <= i < e ensures !SameKey(s1.db.events[i], x.controller, x.eventId) {
      assert s1.db.events[i] == s.db.events[i];
    }
    assert FindEvent(s1.db.events, x.controller, x.eventId) == Some(e);
    ReplayIsAStutter(cfg, s1, steps, x, 0);
  }

  // ---------------------------------------------------------------- duplicates within the window

  /** Stored repeats of a passage are separated. */
  ghost predicate Separated(events: seq<CameraEvent>, window: nat) {
    forall i, j :: 0 <= i < j < |events| && SamePassage(events[i], events[j])
                   ==> Apart(window, events[i], events[j])
  }

  /** Event `i` is the earliest captured match for `x`: the one whose answer `x` gets. */
  ghost predicate AnsweredBy(events: seq<CameraEvent>, x: Input, window: nat, i: nat) {
    && i < |events| && WindowMatch(events[i], x, window)
    && forall j :: 0 <= j < |events| && j != i && WindowMatch(events[j], x, window)
                   ==> events[i].capturedAt < events[j].capturedAt
  }

  /** Separation leaves room for at most two matches of one passage. */
  lemma AtMostTwoMatches(events: seq<CameraEvent>, x: Input, window: nat, i: nat, j: nat, k: nat)
    requires Separated(events, window) && i < j < k < |events|
    ensures !(WindowMatch(events[i], x, window) && WindowMatch(events[j], x, window)
              && WindowMatch(events[k], x, window))
  {
    if WindowMatch(events[i], x, window) && WindowMatch(events[j], x, window) && WindowMatch(events[k], x, window) {
      assert SamePassage(events[i], events[j]) && SamePassage(events[j], events[k]);
      assert SamePassage(events[i], events[k]);
    }
  }

  lemma EarlierMatchAnswers(events: seq<CameraEvent>, x: Input, window: nat, i: nat)
    requires Separated(events, window) && i < |events| && WindowMatch(events[i], x, window)
    requires events[i].capturedAt <= x.capturedAt
    ensures AnsweredBy(events, x, window, i)
  {
    forall j | 0 <= j < |events| && j != i && WindowMatch(events[j], x, window)
      ensures events[i].capturedAt < events[j].capturedAt
    {
      assert SamePassage(events[i], events[j]) && SamePassage(events[j], events[i]);
      assert Apart(window, events[Min(i, j)], events[if i < j then j else i]);
    }
  }

  /** A match keeps answering in every separated table exactly when it was not captured after `x`. */
  lemma StableExactlyWhenNotLater(x: Input, e: CameraEvent, window: nat)
    requires WindowMatch(e, x, window)
    ensures (forall events: seq<CameraEvent>, i: nat ::
               Separated(events, window) && i < |events| && events[i] == e ==> AnsweredBy(events, x, window, i))
            <==> e.capturedAt <= x.capturedAt
  {
    if e.capturedAt <= x.capturedAt {
      forall events: seq<CameraEvent>, i: nat | Separated(events, window) && i < |events| && events[i] == e
        ensures AnsweredBy(events, x, window, i)
      {
        EarlierMatchAnswers(events, x, window, i);
      }
    } else {
      var earlier := e.(capturedAt := x.capturedAt - window);
      var events := [e, earlier];
      assert Separated(events, window) && events[0] == e;
      assert WindowMatch(events[1], x, window);
      assert !AnsweredBy(events, x, window, 0);
    }
  }

  lemma DuplicateFound(cfg: Config, db: Db, x: Input, i: nat)
    requires Decided(db) && AnsweredBy(db.events, x, cfg.dedupWindow, i)
    ensures FindWindowDuplicate(db.events, db.decisions, x, cfg.dedupWindow, |db.events|) == Some(i)
  {
    assert InitialOf(db.decisions, i).Some?;
    assert DuplicateOf(db.events, db.decisions, x, cfg.dedupWindow, i);
    var r := FindWindowDuplicate(db.events, db.decisions, x, cfg.dedupWindow, |db.events|);
    assert r.Some? && DuplicateOf(db.events, db.decisions, x, cfg.dedupWindow, r.value);
  }

  /** Submissions of the key in these steps all carry the message `x`. */
  ghost predicate OnlyMessage(steps: seq<Step>, x: Input) {
    forall i :: 0 <= i < |steps| && steps[i].BeginIngestStep? ==>
      (SameKey(ToEvent(steps[i].input), x.controller, x.eventId) ==> steps[i].input == x)
  }

  /** The key of `x` is neither stored nor being stored. */
  ghost predicate KeyUnused(s: Sys, x: Input) {
    && FindEvent(s.db.events, x.controller, x.eventId).None?
    && forall key :: key in s.held && s.held[key].Ingesting?
                     ==> !SameKey(ToEvent(s.held[key].ticket.input), x.controller, x.eventId)
  }

  /** `x`, once sanitised, matches the stored event `i` not captured after it. */
  ghost predicate RepeatOf(cfg: Config, s: Sys, x: Input, i: nat) {
    && i < |s.db.events| && WindowMatch(s.db.events[i], Sanitise(cfg, x), cfg.dedupWindow)
    && s.db.events[i].capturedAt <= x.capturedAt
  }

  lemma RepeatPersists(cfg: Config, s: Sys, steps: seq<Step>, x: Input, i: nat)
    requires RepeatOf(cfg, s, x, i)
    ensures RepeatOf(cfg, Run(cfg, s, steps), x, i)
  {
    RunGrows(cfg, s, steps);
    PrefixAt(s.db.events, Run(cfg, s, steps).db.events);
  }

  lemma RepeatAnswered(cfg: Config, s: Sys, x: Input, i: nat)
    requires ReceiptInv(cfg, s) && RepeatOf(cfg, s, x, i) && KeyUnused(s, x)
    ensures BeginIngest(cfg, s.reg, s.db, x) == Replayed(LoadExisting(s.db, i))
  {
    EarlierMatchAnswers(s.db.events, Sanitise(cfg, x), cfg.dedupWindow, i);
    DuplicateFound(cfg, s.db, Sanitise(cfg, x), i);
  }

  lemma IngestAdds(cfg: Config, reg: Registry, db: Db, t: Ticket, started: Instant, clock: Instant)
    ensures var after := CommitIngest(cfg, reg, db, t, started, clock).0;
            after.events == db.events || after.events == db.events + [ToEvent(t.input)]
  {
    if FindEvent(db.events, t.input.controller, t.input.eventId).None? {
      RecordedRows(cfg, reg, db, t, started, clock);
    }
  }

  lemma NotAmong(before: seq<CameraEvent>, after: seq<CameraEvent>, y: Input, x: Input)
    requires after == before || after == before + [ToEvent(y)]
    requires FindEvent(before, x.controller, x.eventId).None? && !SameKey(ToEvent(y), x.controller, x.eventId)
    ensures FindEvent(after, x.controller, x.eventId).None?
  {
    forall i | 0 <= i < |after| ensures !SameKey(after[i], x.controller, x.eventId) {
      if i < |before| {
        assert after[i] == before[i];
      }
    }
  }

  lemma NotStoredByCommit(cfg: Config, s: Sys, key: Id, clock: Instant, x: Input)
    requires KeyUnused(s, x)
    ensures KeyUnused(CommitApply(cfg, s, key, clock), x)
  {
    if key in s.held && s.held[key].Ingesting? {
      var t := s.held[key].ticket;
      var after := CommitApply(cfg, s, key, clock);
      IngestAdds(cfg, s.reg, s.db, t, s.held[key].started, clock);
      NotAmong(s.db.events, after.db.events, t.input, x);
    } else {
      assert CommitApply(cfg, s, key, clock).db.events == s.db.events;
    }
  }

  lemma NotStoredByBegin(cfg: Config, s: Sys, y: Input, started: Instant, x: Input, i: nat)
    requires ReceiptInv(cfg, s) && RepeatOf(cfg, s, x, i) && KeyUnused(s, x)
    requires SameKey(ToEvent(y), x.controller, x.eventId) ==> y == x
    ensures KeyUnused(BeginIngestApply(cfg, s, y, started), x)
  {
    if y == x {
      RepeatAnswered(cfg, s, x, i);
    }
  }

  lemma NotStoredByStep(cfg: Config, s: Sys, step: Step, x: Input, i: nat)
    requires ReceiptInv(cfg, s) && RepeatOf(cfg, s, x, i) && KeyUnused(s, x) && OnlyMessage([step], x)
    ensures KeyUnused(Apply(cfg, s, step), x)
  {
    match step
    case BeginIngestStep(y, started) =>
      assert [step][0] == step;
      NotStoredByBegin(cfg, s, y, started, x, i);
    case Commit(key, clock) => NotStoredByCommit(cfg, s, key, clock, x);
    case _ => NotStoredByOthers(cfg, s, step, x);
  }

  lemma NotStoredByOthers(cfg: Config, s: Sys, step: Step, x: Input)
    requires KeyUnused(s, x) && !step.BeginIngestStep? && !step.Commit?
    ensures KeyUnused(Apply(cfg, s, step), x)
  {
    assert Apply(cfg, s, step).db.events == s.db.events;
  }

  /** A duplicate of an event not captured after it is never stored, and every later redelivery gets
    * that event's answer. */
  lemma {:induction false} DuplicateKeepsItsAnswer(cfg: Config, s: Sys, steps: seq<Step>, x: Input, i: nat)
    requires ReceiptInv(cfg, s)
    requires RepeatOf(cfg, s, x, i) && KeyUnused(s, x) && OnlyMessage(steps, x)
    ensures var later := Run(cfg, s, steps);
            && KeyUnused(later, x)
            && BeginIngest(cfg, later.reg, later.db, x) == Replayed(LoadExisting(s.db, i))
  {
    if steps != [] {
      var front := steps[..|steps| - 1];
      DuplicateKeepsItsAnswer(cfg, s, front, x, i);
      ReceiptRun(cfg, s, front);
      RepeatPersists(cfg, s, front, x, i);
      NotStoredByStep(cfg, Run(cfg, s, front), steps[|steps| - 1], x, i);
    }
    ReceiptRun(cfg, s, steps);
    RepeatPersists(cfg, s, steps, x, i);
    RepeatAnswered(cfg, Run(cfg, s, steps), x, i);
    RunGrows(cfg, s, steps);
    assert InitialOf(s.db.decisions, i).Some?;
    AnswerFrozen(s.db, Run(cfg, s, steps).db, i);
  }

  // ---------------------------------------------------------------- from empty tables

  /** In every run: once a key is stored, redelivering it later changes no table and returns what was stored. */
  lemma ReplayInEveryRun(cfg: Config, reg: Registry, before: seq<Step>, steps: seq<Step>, x: Input, started: Instant)
    requires FindEvent(Run(cfg, Start(reg), before).db.events, x.controller, x.eventId).Some?
    ensures var s := Run(cfg, Start(reg), before);
            var later := Run(cfg, s, steps);
            && BeginIngest(cfg, later.reg, later.db, x)
            == Replayed(LoadExisting(s.db, FindEvent(s.db.events, x.controller, x.eventId).value))
            && BeginIngestApply(cfg, later, x, started).db == later.db
  {
    ReachableReceipt(cfg, reg, before);
    ReplayIsAStutter(cfg, Run(cfg, Start(reg), before), steps, x, started);
  }

  /** In every run: the answer given when a passage is recorded is the answer to every later redelivery. */
  lemma FirstAnswerInEveryRun(cfg: Config, reg: Registry, before: seq<Step>, key: Id, clock: Instant, steps: seq<Step>,
                              x: Input)
    requires var s := Run(cfg, Start(reg), before);
             && key in s.held && s.held[key].Ingesting?
             && var t := s.held[key].ticket;
             && x.controller == t.input.controller && x.eventId == t.input.eventId
             && FindEvent(s.db.events, t.input.controller, t.input.eventId).None?
    ensures var s := Run(cfg, Start(reg), before);
            var first := CommitIngest(cfg, s.reg, s.db, s.held[key].ticket, s.held[key].started, clock).1;
            var later := Run(cfg, CommitApply(cfg, s, key, clock), steps);
            && !first.replayed
            && BeginIngest(cfg, later.reg, later.db, x) == Replayed(first.(replayed := true))
  {
    ReachableReceipt(cfg, reg, before);
    RecordedRun(cfg, Start(reg), before);
    FirstAnswerForever(cfg, Run(cfg, Start(reg), before), key, clock, steps, x);
  }

  /** In every run: a duplicate of an event stored by then and not captured after it keeps that event's answer. */
  lemma DuplicateInEveryRun(cfg: Config, reg: Registry, before: seq<Step>, steps: seq<Step>, x: Input, i: nat)
    requires OnlyMessage(steps, x)
    requires RepeatOf(cfg, Run(cfg, Start(reg), before), x, i) && KeyUnused(Run(cfg, Start(reg), before), x)
    ensures var s := Run(cfg, Start(reg), before);
            var later := Run(cfg, s, steps);
            && KeyUnused(later, x)
            && BeginIngest(cfg, later.reg, later.db, x) == Replayed(LoadExisting(s.db, i))
  {
    ReachableReceipt(cfg, reg, before);
    DuplicateKeepsItsAnswer(cfg, Run(cfg, Start(reg), before), steps, x, i);
  }
}
