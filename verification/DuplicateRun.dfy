/** When a window duplicate can change its answer.
  *
  * A duplicate is answered by the earliest captured event it matches. If that event was captured after
  * the duplicate, an event captured before the duplicate may still be stored and answer from then on.
  */
module DuplicateRun {
  import opened Common
  import opened Domain
  import opened Engine
  import opened Queries
  import opened Transactions
  import opened System
  import opened CoreSafety
  import opened Redelivery

  /** The event that answers `x` as a window duplicate. */
  predicate DuplicateBy(cfg: Config, s: Sys, x: Input, i: nat) {
    FindWindowDuplicate(s.db.events, s.db.decisions, Sanitise(cfg, x), cfg.dedupWindow, |s.db.events|) == Some(i)
  }

  /** In no run does a duplicate that was answered by one event get anything else later. */
  ghost predicate DuplicatesKeepTheirAnswer(cfg: Config) {
    forall reg: Registry, before: seq<Step>, steps: seq<Step>, x: Input, i: nat ::
      Answered(cfg, reg, before, x, i) && OnlyMessage(steps, x) ==> StillAnswered(cfg, reg, before, steps, x, i)
  }

  ghost predicate Answered(cfg: Config, reg: Registry, before: seq<Step>, x: Input, i: nat) {
    var s := Run(cfg, Start(reg), before);
    KeyUnused(s, x) && DuplicateBy(cfg, s, x, i)
  }

  ghost predicate StillAnswered(cfg: Config, reg: Registry, before: seq<Step>, steps: seq<Step>, x: Input, i: nat) {
    var s := Run(cfg, Start(reg), before);
    var later := Run(cfg, s, steps);
    BeginIngest(cfg, later.reg, later.db, x) == Replayed(LoadExisting(s.db, i))
  }

  // ---------------------------------------------------------------- the failing run

  /** One vehicle's exit at the gate, under key `id`, captured at `at`. */
  function Exiting(controller: Id, gate: Id, id: string, at: Instant): Input {
    Input(controller, id, None, Some(gate), Some("A"), Exit, None, at)
  }

  /** The duplicate, a passage captured a window later, and one captured a window earlier. */
  function Repeat(controller: Id, gate: Id): Input {
    Exiting(controller, gate, "x", 0)
  }

  function Late(cfg: Config, controller: Id, gate: Id): Input {
    Exiting(controller, gate, "late", cfg.dedupWindow)
  }

  function Early(cfg: Config, controller: Id, gate: Id): Input {
    var window: int := cfg.dedupWindow;
    Exiting(controller, gate, "early", -window)
  }

  lemma ExitScope(cfg: Config, controller: Id, gate: Id, id: string, at: Instant)
    requires GateBelongs(cfg, gate, controller)
    ensures var x := Exiting(controller, gate, id, at);
            && !AuthorizeScope(cfg, x).violation
            && Sanitise(cfg, x) == x.(zone := AuthorizeScope(cfg, x).zone)
            && IngestKey(cfg, x) == KeyAt(cfg, Some(gate), controller)
  {
  }

  /** Receiving an exit that repeats nothing stored adds one event with its decision. */
  lemma ExitStored(cfg: Config, s: Sys, x: Input)
    requires s.held == map[] && !AuthorizeScope(cfg, x).violation && x.direction == Exit
    requires FindEvent(s.db.events, x.controller, x.eventId).None?
    requires forall i :: 0 <= i < |s.db.events| ==> !WindowMatch(s.db.events[i], Sanitise(cfg, x), cfg.dedupWindow)
    ensures var after := Run(cfg, s, [BeginIngestStep(x, 0), Commit(IngestKey(cfg, x), 0)]);
            && after.held == map[] && after.db.events == s.db.events + [ToEvent(Sanitise(cfg, x))]
            && |after.db.decisions| == |s.db.decisions| + 1
            && after.db.decisions[..|s.db.decisions|] == s.db.decisions
            && Initial(after.db.decisions[|s.db.decisions|], |s.db.events|)
  {
    var key := IngestKey(cfg, x);
    RunTwo(cfg, s, BeginIngestStep(x, 0), Commit(key, 0));
    var b := BeginIngest(cfg, s.reg, s.db, x);
    assert b.Accepted?;
    var mid := Hold(s, key, Ingesting(b.ticket, 0));
    assert BeginIngestApply(cfg, s, x, 0) == mid;
    ExitCommitted(cfg, mid, key, b.ticket);
    assert mid.held - {key} == map[];
  }

  lemma ExitCommitted(cfg: Config, s: Sys, key: Id, t: Ticket)
    requires key in s.held && s.held[key] == Ingesting(t, 0)
    requires FindEvent(s.db.events, t.input.controller, t.input.eventId).None?
    ensures var after := CommitApply(cfg, s, key, 0);
            && after.held == s.held - {key} && after.db.events == s.db.events + [ToEvent(t.input)]
            && |after.db.decisions| == |s.db.decisions| + 1
            && after.db.decisions[..|s.db.decisions|] == s.db.decisions
            && Initial(after.db.decisions[|s.db.decisions|], |s.db.events|)
  {
    RecordedRows(cfg, s.reg, s.db, t, 0, 0);
  }

  function Store(cfg: Config, x: Input): seq<Step> {
    [BeginIngestStep(x, 0), Commit(IngestKey(cfg, x), 0)]
  }

  lemma Scopes(cfg: Config, controller: Id, gate: Id)
    requires GateBelongs(cfg, gate, controller)
    ensures var zone := AuthorizeScope(cfg, Repeat(controller, gate)).zone;
            && Sanitise(cfg, Repeat(controller, gate)) == Repeat(controller, gate).(zone := zone)
            && Sanitise(cfg, Late(cfg, controller, gate)) == Late(cfg, controller, gate).(zone := zone)
            && Sanitise(cfg, Early(cfg, controller, gate)) == Early(cfg, controller, gate).(zone := zone)
            && !AuthorizeScope(cfg, Late(cfg, controller, gate)).violation
            && !AuthorizeScope(cfg, Early(cfg, controller, gate)).violation
  {
    var window: int := cfg.dedupWindow;
    ExitScope(cfg, controller, gate, "x", 0);
    ExitScope(cfg, controller, gate, "late", window);
    ExitScope(cfg, controller, gate, "early", -window);
  }

  lemma KeysDiffer()
    ensures "x" != "late" && "x" != "early" && "late" != "early"
  {
    assert "x"[0] != "late"[0] && "x"[0] != "early"[0] && "late"[0] != "early"[0];
  }

  /** Tables with the later passage alone. */
  ghost predicate LateOnly(cfg: Config, s: Sys, controller: Id, gate: Id) {
    && s.held == map[] && |s.db.events| == 1 && |s.db.decisions| == 1 && Initial(s.db.decisions[0], 0)
    && s.db.events[0] == ToEvent(Sanitise(cfg, Late(cfg, controller, gate)))
  }

  /** Then the earlier one as well. */
  ghost predicate EarlyToo(cfg: Config, s: Sys, after: Sys, controller: Id, gate: Id) {
    && after.db.events == s.db.events + [ToEvent(Sanitise(cfg, Early(cfg, controller, gate)))]
    && |after.db.decisions| == 2 && after.db.decisions[..1] == s.db.decisions && Initial(after.db.decisions[1], 1)
  }

  lemma LateStored(cfg: Config, reg: Registry, controller: Id, gate: Id)
    requires GateBelongs(cfg, gate, controller)
    ensures LateOnly(cfg, Run(cfg, Start(reg), Store(cfg, Late(cfg, controller, gate))), controller, gate)
  {
    Scopes(cfg, controller, gate);
    ExitStored(cfg, Start(reg), Late(cfg, controller, gate));
  }

  lemma EarlyStored(cfg: Config, s: Sys, controller: Id, gate: Id)
    requires GateBelongs(cfg, gate, controller) && LateOnly(cfg, s, controller, gate) && cfg.dedupWindow > 0
    ensures EarlyToo(cfg, s, Run(cfg, s, Store(cfg, Early(cfg, controller, gate))), controller, gate)
  {
    KeysDiffer();
    Scopes(cfg, controller, gate);
    ExitStored(cfg, s, Early(cfg, controller, gate));
    assert s.db.decisions[..1] == s.db.decisions;
  }

  lemma LateAnswers(cfg: Config, s: Sys, controller: Id, gate: Id)
    requires GateBelongs(cfg, gate, controller) && LateOnly(cfg, s, controller, gate)
    ensures KeyUnused(s, Repeat(controller, gate)) && DuplicateBy(cfg, s, Repeat(controller, gate), 0)
    ensures LoadExisting(s.db, 0).decisionId == Some(0)
  {
    KeysDiffer();
    Scopes(cfg, controller, gate);
    assert InitialOf(s.db.decisions, 0) == Some(0);
    assert WindowMatch(s.db.events[0], Sanitise(cfg, Repeat(controller, gate)), cfg.dedupWindow);
  }

  lemma EarlyAnswers(cfg: Config, s: Sys, after: Sys, controller: Id, gate: Id)
    requires GateBelongs(cfg, gate, controller) && LateOnly(cfg, s, controller, gate) && cfg.dedupWindow > 0
    requires EarlyToo(cfg, s, after, controller, gate)
    ensures BeginIngest(cfg, after.reg, after.db, Repeat(controller, gate)) == Replayed(LoadExisting(after.db, 1))
    ensures LoadExisting(after.db, 1).decisionId == Some(1)
  {
    var y := Sanitise(cfg, Repeat(controller, gate));
    KeysDiffer();
    Scopes(cfg, controller, gate);
    assert after.db.decisions[0] == after.db.decisions[..1][0] == s.db.decisions[0];
    assert InitialOf(after.db.decisions, 0) == Some(0) && InitialOf(after.db.decisions, 1) == Some(1);
    assert DuplicateOf(after.db.events, after.db.decisions, y, cfg.dedupWindow, 1);
    assert FindWindowDuplicate(after.db.events, after.db.decisions, y, cfg.dedupWindow, 2) == Some(1);
  }

  /** The later passage alone answers the duplicate; once the earlier one is stored, that one does. */
  lemma SecondMatchTakesOver(cfg: Config, reg: Registry, controller: Id, gate: Id)
    requires GateBelongs(cfg, gate, controller) && cfg.dedupWindow > 0
    ensures var x := Repeat(controller, gate);
            var before, steps := Store(cfg, Late(cfg, controller, gate)), Store(cfg, Early(cfg, controller, gate));
            && Answered(cfg, reg, before, x, 0) && OnlyMessage(steps, x)
            && !StillAnswered(cfg, reg, before, steps, x, 0)
  {
    var s := Run(cfg, Start(reg), Store(cfg, Late(cfg, controller, gate)));
    KeysDiffer();
    LateStored(cfg, reg, controller, gate);
    LateAnswers(cfg, s, controller, gate);
    EarlyStored(cfg, s, controller, gate);
    EarlyAnswers(cfg, s, Run(cfg, s, Store(cfg, Early(cfg, controller, gate))), controller, gate);
  }

  // ---------------------------------------------------------------- the exact condition

  ghost predicate NoGateOwned(cfg: Config) {
    forall gate: Id, controller: Id :: !GateBelongs(cfg, gate, controller)
  }

  lemma SameInstantKeeps(cfg: Config, reg: Registry, before: seq<Step>, steps: seq<Step>, x: Input, i: nat)
    requires cfg.dedupWindow == 0 || NoGateOwned(cfg)
    requires Answered(cfg, reg, before, x, i) && OnlyMessage(steps, x)
    ensures StillAnswered(cfg, reg, before, steps, x, i)
  {
    var s := Run(cfg, Start(reg), before);
    ScopeFacts(cfg, x);
    assert WindowMatch(s.db.events[i], Sanitise(cfg, x), cfg.dedupWindow);
    assert RepeatOf(cfg, s, x, i);
    DuplicateInEveryRun(cfg, reg, before, steps, x, i);
  }

  /** Window duplicates keep their answer in every run exactly when the window is a single instant, or no gate
    * belongs to a controller so that there are none. */
  lemma DuplicatesStableExactlyWhenNoWindow(cfg: Config)
    ensures DuplicatesKeepTheirAnswer(cfg) <==> cfg.dedupWindow == 0 || NoGateOwned(cfg)
  {
    if cfg.dedupWindow == 0 || NoGateOwned(cfg) {
      forall reg: Registry, before: seq<Step>, steps: seq<Step>, x: Input, i: nat
        | Answered(cfg, reg, before, x, i) && OnlyMessage(steps, x)
        ensures StillAnswered(cfg, reg, before, steps, x, i)
      {
        SameInstantKeeps(cfg, reg, before, steps, x, i);
      }
    } else {
      var gate: Id, controller: Id :| GateBelongs(cfg, gate, controller);
      SecondMatchTakesOver(cfg, Registry([], [], [], map[], [], [], {}), controller, gate);
    }
  }
}
