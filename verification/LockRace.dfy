/** The exact condition for the decision chain: one lock key per gate.
  *
  * The ingestion and resolution paths lock the smallest active barrier of a gate; the worker's join
  * locks every active barrier. With two active barriers on one gate the two paths hold different
  * keys, and a run exists in which both supersede the same pending decision.
  */
module LockRace {
  import opened Common
  import opened Domain
  import opened Engine
  import opened Queries
  import opened Transactions
  import opened System
  import opened Chains
  import opened CoreSafety

  /** A passage of the controller at its gate with too little confidence to decide. */
  function Doubtful(cfg: Config, controller: Id, gate: Id): Input {
    Input(controller, "e", None, Some(gate), None, Entry, Some(cfg.threshold - 1.0), 0)
  }

  /** One event at the gate with a pending decision, nothing locked, nothing ordered. */
  ghost predicate OnePending(s: Sys, gate: Id) {
    && s.db.commands == [] && s.edge == Edge({}, map[], [])
    && s.held == map[] && |s.db.events| == 1 && s.db.events[0].gate == Some(gate)
    && |s.db.decisions| == 1
    && s.db.decisions[0].event == 0 && s.db.decisions[0].supersedes.None?
    && s.db.decisions[0].status == PendingReview && s.db.decisions[0].deadline == Some(MANUAL_REVIEW_DEADLINE)
  }

  lemma DoubtfulBegins(cfg: Config, reg: Registry, controller: Id, gate: Id, first: Barrier)
    requires GateBelongs(cfg, gate, controller) && FirstActiveBarrier(cfg.barriers, gate) == Some(first)
    ensures var s := BeginIngestApply(cfg, Start(reg), Doubtful(cfg, controller, gate), 0);
            exists t :: s == Hold(Start(reg), first.id, Ingesting(t, 0))
                        && t.input.gate == Some(gate) && t.engine == ReviewFor(LowConfidence, None)
  {
    var x := Doubtful(cfg, controller, gate);
    var scope := AuthorizeScope(cfg, x);
    assert scope.gate == Some(gate) && scope.barrier == Some(first.id) && !scope.violation;
    var t := Ticket(Sanitise(cfg, x), scope.barrier, Judge(cfg, reg, EMPTY_DB, Sanitise(cfg, x), false));
    assert BeginIngest(cfg, reg, EMPTY_DB, x) == Accepted(t);
  }

  lemma DoubtRecorded(cfg: Config, reg: Registry, gate: Id, key: Id, t: Ticket)
    requires t.input.gate == Some(gate) && t.engine == ReviewFor(LowConfidence, None)
    ensures OnePending(CommitApply(cfg, Hold(Start(reg), key, Ingesting(t, 0)), key, 0), gate)
  {
    var s := Hold(Start(reg), key, Ingesting(t, 0));
    assert Settle(EMPTY_DB, t, 0).status == PendingReview;
    RecordedRows(cfg, reg, EMPTY_DB, t, 0, 0);
    assert s.held - {key} == map[];
  }

  lemma ReachPending(cfg: Config, reg: Registry, controller: Id, gate: Id, first: Barrier)
    returns (steps: seq<Step>)
    requires GateBelongs(cfg, gate, controller) && FirstActiveBarrier(cfg.barriers, gate) == Some(first)
    ensures OnePending(Run(cfg, Start(reg), steps), gate)
  {
    DoubtfulBegins(cfg, reg, controller, gate, first);
    var s := BeginIngestApply(cfg, Start(reg), Doubtful(cfg, controller, gate), 0);
    var t :| s == Hold(Start(reg), first.id, Ingesting(t, 0))
             && t.input.gate == Some(gate) && t.engine == ReviewFor(LowConfidence, None);
    DoubtRecorded(cfg, reg, gate, first.id, t);
    steps := [BeginIngestStep(Doubtful(cfg, controller, gate), 0), Commit(first.id, 0)];
    RunTwo(cfg, Start(reg), steps[0], steps[1]);
  }

  function Denial(): ResolveRequest {
    ResolveRequest(0, DenyAction, 1, Some("x"), None, None, 0)
  }

  /** The operator's denial has read the pending decision and holds the first barrier. */
  lemma DenialBegins(cfg: Config, s: Sys, gate: Id, first: Barrier)
    requires OnePending(s, gate) && FirstActiveBarrier(cfg.barriers, gate) == Some(first)
    ensures BeginResolveApply(cfg, s, Denial(), 0) == Hold(s, first.id, Resolving(Denial(), DenyPlan, 0, 0))
  {
    assert LatestOf(s.db.decisions, 0) == Some(0);
    assert "x"[0] in "x" && !IsSpace("x"[0]);
    assert BeginResolve(cfg, s.db, Denial()) == Planned(DenyPlan, 0);
  }

  const LATE: Instant := MANUAL_REVIEW_DEADLINE + 1

  /** The worker's list holds the decision under the second barrier's key too. */
  lemma WorkerSeesSecondKey(cfg: Config, db: Db, gate: Id, other: Barrier) returns (index: nat)
    requires |db.events| == 1 && db.events[0].gate == Some(gate) && |db.decisions| == 1
    requires db.decisions[0].event == 0 && db.decisions[0].supersedes.None?
    requires db.decisions[0].status == PendingReview && db.decisions[0].deadline == Some(MANUAL_REVIEW_DEADLINE)
    requires other in cfg.barriers && other.active && other.gate == gate
    ensures index < |DueRows(cfg, db, LATE, 1)| && DueRows(cfg, db, LATE, 1)[index] == DueRow(0, other.id)
  {
    assert LatestOf(db.decisions, 0) == Some(0);
    assert other.id in ActiveBarrierIds(cfg.barriers, gate);
    assert DueAs(cfg, db, LATE, DueRow(0, other.id));
    index :| 0 <= index < |DueRows(cfg, db, LATE, 1)| && DueRows(cfg, db, LATE, 1)[index] == DueRow(0, other.id);
  }

  /** A denial holding the first key and an expiry holding the second, both about decision 0. */
  ghost predicate Racing(s: Sys, first: Id, other: Id) {
    && |s.db.decisions| == 1 && first != other && first in s.held && other in s.held
    && s.held[first] == Resolving(Denial(), DenyPlan, 0, 0) && s.held[other] == Expiring(0)
  }

  lemma WorkerJoins(s: Sys, first: Id, other: Id, index: nat)
    requires |s.db.decisions| == 1 && s.db.decisions[0].supersedes.None? && s.db.decisions[0].status == PendingReview
    requires index < |s.due| && s.due[index] == DueRow(0, other)
    requires s.held == map[first := Resolving(Denial(), DenyPlan, 0, 0)] && first != other
    ensures Racing(WorkerTakeApply(s, index), first, other)
  {
    assert StillPending(s.db.decisions, 0);
  }

  lemma DenialThenList(cfg: Config, s: Sys, gate: Id, first: Barrier)
    requires OnePending(s, gate) && FirstActiveBarrier(cfg.barriers, gate) == Some(first)
    ensures Run(cfg, s, [BeginResolveStep(Denial(), 0), WorkerRead(LATE)])
         == s.(held := map[first.id := Resolving(Denial(), DenyPlan, 0, 0)], due := s.due + DueRows(cfg, s.db, LATE, 1))
  {
    RunTwo(cfg, s, BeginResolveStep(Denial(), 0), WorkerRead(LATE));
    DenialHeld(cfg, s, gate, first);
    ListRead(cfg, Hold(s, first.id, Resolving(Denial(), DenyPlan, 0, 0)));
  }

  lemma DenialHeld(cfg: Config, s: Sys, gate: Id, first: Barrier)
    requires OnePending(s, gate) && FirstActiveBarrier(cfg.barriers, gate) == Some(first)
    ensures Apply(cfg, s, BeginResolveStep(Denial(), 0)) == Hold(s, first.id, Resolving(Denial(), DenyPlan, 0, 0))
  {
    DenialBegins(cfg, s, gate, first);
  }

  lemma ListRead(cfg: Config, s: Sys)
    ensures Apply(cfg, s, WorkerRead(LATE)) == s.(due := s.due + DueRows(cfg, s.db, LATE, |s.db.decisions|))
  {
  }

  lemma TakeListed(cfg: Config, s: Sys, front: seq<Step>, index: nat, first: Id, other: Id)
    requires Racing(WorkerTakeApply(Run(cfg, s, front), index), first, other)
    ensures Racing(Run(cfg, s, front + [WorkerTake(index)]), first, other)
  {
    RunSnoc(cfg, s, front, WorkerTake(index));
  }

  lemma RaceSetUp(cfg: Config, s: Sys, gate: Id, first: Barrier, other: Barrier) returns (steps: seq<Step>)
    requires OnePending(s, gate) && FirstActiveBarrier(cfg.barriers, gate) == Some(first)
    requires other in cfg.barriers && other.active && other.gate == gate && other.id != first.id
    ensures Racing(Run(cfg, s, steps), first.id, other.id)
  {
    var listed := WorkerSeesSecondKey(cfg, s.db, gate, other);
    var index := |s.due| + listed;
    DenialThenList(cfg, s, gate, first);
    var front := [BeginResolveStep(Denial(), 0), WorkerRead(LATE)];
    WorkerJoins(Run(cfg, s, front), first.id, other.id, index);
    TakeListed(cfg, s, front, index, first.id, other.id);
    steps := front + [WorkerTake(index)];
  }

  /** Both commits go through: the pending decision is superseded twice. */
  lemma BothCommit(cfg: Config, s: Sys, first: Id, other: Id)
    requires Racing(s, first, other)
    ensures var r := Run(cfg, s, [Commit(first, 0), Commit(other, 0)]);
            |r.db.decisions| == 3 && r.db.decisions[1].supersedes == Some(0) == r.db.decisions[2].supersedes
  {
    var a, b := Commit(first, 0), Commit(other, 0);
    RunTwo(cfg, s, a, b);
    var denied := CommitApply(cfg, s, first, 0);
    assert denied.db == CommitResolve(s.db, Denial(), DenyPlan, 0, 0, 0).0;
    assert other in denied.held && denied.held[other] == Expiring(0);
  }

  lemma BrokenChain(decisions: seq<Decision>, n: nat)
    requires |decisions| == 3 && decisions[1].supersedes == Some(0) == decisions[2].supersedes
    ensures !Chain(decisions, n)
  {
  }

  /** Two active barriers on an owned gate let some run break the chain. */
  lemma RaceExists(cfg: Config, reg: Registry) returns (steps: seq<Step>)
    requires !LocksCoincide(cfg)
    ensures var s := Run(cfg, Start(reg), steps); !Chain(s.db.decisions, |s.db.events|)
  {
    var b, c :| b in cfg.barriers && c in cfg.barriers && b.active && c.active && b.gate == c.gate
                && GateOwned(cfg, b.gate) && b.id != c.id;
    var controller: Id :| GateBelongs(cfg, b.gate, controller);
    var first := FirstActiveBarrier(cfg.barriers, b.gate).value;
    var other := if b.id != first.id then b else c;
    var prefix := ReachPending(cfg, reg, controller, b.gate, first);
    var s := Run(cfg, Start(reg), prefix);
    var race := RaceSetUp(cfg, s, b.gate, first, other);
    RunConcat(cfg, Start(reg), prefix, race);
    var commits := [Commit(first.id, 0), Commit(other.id, 0)];
    RunConcat(cfg, Start(reg), prefix + race, commits);
    BothCommit(cfg, Run(cfg, s, race), first.id, other.id);
    steps := prefix + race + commits;
    var r := Run(cfg, Start(reg), steps);
    BrokenChain(r.db.decisions, |r.db.events|);
  }

  /** Every run keeps one chain per event exactly when no owned gate has two active barriers. */
  lemma ChainSafeExactlyWhenLocksCoincide(cfg: Config)
    ensures (forall reg: Registry, steps: seq<Step> ::
               var s := Run(cfg, Start(reg), steps); Chain(s.db.decisions, |s.db.events|))
            <==> LocksCoincide(cfg)
  {
    if LocksCoincide(cfg) {
      forall reg: Registry, steps: seq<Step>
        ensures var s := Run(cfg, Start(reg), steps); Chain(s.db.decisions, |s.db.events|)
      {
        ReachableIsSound(cfg, reg, steps);
      }
    } else {
      var reg := Registry([], [], [], map[], [], [], {});
      var steps := RaceExists(cfg, reg);
    }
  }
}
