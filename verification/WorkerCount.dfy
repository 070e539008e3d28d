/** What workers count when their ticks interleave with everything else: every expiry a worker commits, and
  * reports, is the expiry of another event. */
module WorkerCount {
  import opened Common
  import opened Domain
  import opened Engine
  import opened Queries
  import opened Transactions
  import opened System
  import opened Chains
  import opened CoreSafety
  import opened Growth

  /** The step commits an expiry by a worker, for which the worker adds one to its count. */
  predicate WorkerCommit(s: Sys, step: Step) {
    step.Commit? && step.key in s.held && s.held[step.key].Expiring?
  }

  /** How many expiries the workers commit, hence report together, in these steps. */
  function Reported(cfg: Config, s: Sys, steps: seq<Step>): nat {
    if steps == [] then 0
    else
      var front, last := steps[..|steps| - 1], steps[|steps| - 1];
      Reported(cfg, s, front) + (if WorkerCommit(Run(cfg, s, front), last) then 1 else 0)
  }

  predicate ByWorker(entry: LogEntry) {
    entry.ReviewExpired? && !entry.lazy
  }

  /** The events whose review a worker expired, according to the journal. */
  function ExpiredByWorker(log: seq<LogEntry>, decisions: seq<Decision>): set<nat> {
    set k | 0 <= k < |log| && ByWorker(log[k]) && log[k].decision < |decisions| :: decisions[log[k].decision].event
  }

  predicate NowExpired(db: Db, e: nat) {
    var d := LatestOf(db.decisions, e);
    d.Some? && db.decisions[d.value].status == Expired
  }

  // ---------------------------------------------------------------- the journal

  /** An expiry in the journal names the row that records it, and no two name the same row. */
  ghost predicate JournalOk(log: seq<LogEntry>, decisions: seq<Decision>) {
    && (forall k :: 0 <= k < |log| && log[k].ReviewExpired? ==>
          && log[k].decision < |decisions|
          && decisions[log[k].decision].supersedes.Some? && decisions[log[k].decision].status == Expired)
    && (forall j, k :: 0 <= j < k < |log| && log[j].ReviewExpired? && log[k].ReviewExpired? ==>
          log[j].decision < log[k].decision)
  }

  /** What one step may add to the journal: at most one expiry, of the row it appends. */
  ghost predicate JournalGrew(before: Db, after: Db, worker: bool) {
    && Prefix(before.decisions, after.decisions) && Prefix(before.log, after.log) && |after.log| <= |before.log| + 1
    && (worker ==> |after.log| == |before.log| + 1 && ByWorker(after.log[|before.log|]))
    && forall k :: |before.log| <= k < |after.log| && after.log[k].ReviewExpired? ==>
         && (ByWorker(after.log[k]) <==> worker)
         && |before.decisions| <= after.log[k].decision < |after.decisions|
         && after.decisions[after.log[k].decision].supersedes.Some?
         && after.decisions[after.log[k].decision].status == Expired
  }

  lemma CommitJournal(cfg: Config, reg: Registry, db: Db, t: Txn, clock: Instant)
    requires t.Expiring? ==> t.decision < |db.decisions|
    ensures JournalGrew(db, CommitDb(cfg, reg, db, t, clock).0, t.Expiring?)
  {
    CommitGrows(cfg, reg, db, t, clock);
    match t
    case Ingesting(ticket, started) =>
    case Resolving(r, plan, current, started) =>
    case Expiring(i) =>
    case OpeningBarrier(r, controller, gate, overdue, started) =>
    case Redeeming(r, p, barrier, controller, started) =>
  }

  lemma QuietJournal(cfg: Config, s: Sys, step: Step)
    requires !(step.Commit? && step.key in s.held)
    ensures JournalGrew(s.db, Apply(cfg, s, step).db, false)
  {
    StepGrows(cfg, s, step);
    OtherEntries(cfg, s, step);
  }

  lemma OtherEntries(cfg: Config, s: Sys, step: Step)
    requires !(step.Commit? && step.key in s.held)
    ensures var after := Apply(cfg, s, step).db;
            |after.log| <= |s.db.log| + 1
            && forall k :: |s.db.log| <= k < |after.log| ==> !after.log[k].ReviewExpired?
  {
  }

  lemma StepJournal(cfg: Config, s: Sys, step: Step)
    requires CoreInv(cfg, s)
    ensures JournalGrew(s.db, Apply(cfg, s, step).db, WorkerCommit(s, step))
  {
    if step.Commit? && step.key in s.held {
      assert HeldOk(cfg, s.db, step.key, s.held[step.key]);
      CommitJournal(cfg, s.reg, s.db, s.held[step.key], step.clock);
    } else {
      QuietJournal(cfg, s, step);
    }
  }

  lemma JournalKept(before: Db, after: Db, worker: bool)
    requires JournalOk(before.log, before.decisions) && JournalGrew(before, after, worker)
    ensures JournalOk(after.log, after.decisions)
    ensures Count(after.log, ByWorker) == Count(before.log, ByWorker) + (if worker then 1 else 0)
  {
    PrefixAt(before.log, after.log);
    PrefixAt(before.decisions, after.decisions);
    if |after.log| == |before.log| {
      assert after.log == before.log;
    } else {
      assert after.log == before.log + [after.log[|before.log|]];
      CountOne(before.log, after.log[|before.log|], ByWorker);
    }
  }

  /** The expiries journalled since then are of rows recorded since then. */
  ghost predicate RecordedSince(s: Db, later: Db) {
    forall k :: |s.log| <= k < |later.log| && later.log[k].ReviewExpired? ==> later.log[k].decision >= |s.decisions|
  }

  lemma SinceKept(s: Db, before: Db, after: Db, worker: bool)
    requires RecordedSince(s, before) && JournalGrew(before, after, worker)
    requires |s.log| <= |before.log| && |s.decisions| <= |before.decisions|
    ensures RecordedSince(s, after)
  {
    PrefixAt(before.log, after.log);
  }

  /** Over any run the journal gains one worker's expiry for each the workers report. */
  lemma {:induction false} JournalRun(cfg: Config, s: Sys, steps: seq<Step>)
    requires LocksCoincide(cfg) && CoreInv(cfg, s) && JournalOk(s.db.log, s.db.decisions)
    ensures var later := Run(cfg, s, steps).db;
            && JournalOk(later.log, later.decisions) && RecordedSince(s.db, later)
            && Count(later.log, ByWorker) == Count(s.db.log, ByWorker) + Reported(cfg, s, steps)
  {
    if steps != [] {
      var front, last := steps[..|steps| - 1], steps[|steps| - 1];
      var mid := Run(cfg, s, front);
      JournalRun(cfg, s, front);
      CoreRun(cfg, s, front);
      RunGrows(cfg, s, front);
      OneMore(cfg, s.db, mid, last);
    }
  }

  lemma OneMore(cfg: Config, s: Db, mid: Sys, last: Step)
    requires CoreInv(cfg, mid) && JournalOk(mid.db.log, mid.db.decisions) && RecordedSince(s, mid.db) && Grew(s, mid.db)
    ensures var later := Apply(cfg, mid, last).db;
            && JournalOk(later.log, later.decisions) && RecordedSince(s, later)
            && Count(later.log, ByWorker) == Count(mid.db.log, ByWorker) + (if WorkerCommit(mid, last) then 1 else 0)
  {
    var later := Apply(cfg, mid, last).db;
    StepJournal(cfg, mid, last);
    JournalKept(mid.db, later, WorkerCommit(mid, last));
    SinceKept(s, mid.db, later, WorkerCommit(mid, last));
  }

  // ---------------------------------------------------------------- one expiry, one event

  /** One more expiry is of one more event. */
  lemma EventsOneMore(log: seq<LogEntry>, last: LogEntry, decisions: seq<Decision>, n: nat)
    requires Chain(decisions, n) && JournalOk(log + [last], decisions) && ByWorker(last)
    ensures last.decision < |decisions|
    ensures decisions[last.decision].event !in ExpiredByWorker(log, decisions)
    ensures ExpiredByWorker(log + [last], decisions)
         == ExpiredByWorker(log, decisions) + {decisions[last.decision].event}
  {
    var all := log + [last];
    var d := last.decision;
    assert all[|log|] == last;
    forall k | 0 <= k < |log| && ByWorker(log[k]) && log[k].decision < |decisions|
      ensures decisions[log[k].decision].event != decisions[d].event
    {
      assert all[k] == log[k];
      assert all[k].decision != d;
      if decisions[all[k].decision].event == decisions[d].event {
        AtMostOneTransition(decisions, n, all[k].decision, d);
      }
    }
    SameEvents(log, last, decisions);
  }

  /** An entry adds its own event, if any. */
  lemma SameEvents(log: seq<LogEntry>, last: LogEntry, decisions: seq<Decision>)
    ensures ExpiredByWorker(log + [last], decisions)
         == ExpiredByWorker(log, decisions)
            + (if ByWorker(last) && last.decision < |decisions| then {decisions[last.decision].event} else {})
  {
    var all := log + [last];
    forall e | e in ExpiredByWorker(log, decisions) ensures e in ExpiredByWorker(all, decisions) {
      var k :| 0 <= k < |log| && ByWorker(log[k]) && log[k].decision < |decisions|
               && decisions[log[k].decision].event == e;
      assert all[k] == log[k];
    }
    if ByWorker(last) && last.decision < |decisions| {
      assert all[|log|] == last;
    }
  }

  /** Different expiries are of different events. */
  lemma {:induction false} EventsCounted(log: seq<LogEntry>, decisions: seq<Decision>, n: nat)
    requires Chain(decisions, n) && JournalOk(log, decisions)
    ensures |ExpiredByWorker(log, decisions)| == Count(log, ByWorker)
  {
    if log != [] {
      var front, last := log[..|log| - 1], log[|log| - 1];
      assert log == front + [last];
      EventsCounted(front, decisions, n);
      if ByWorker(last) {
        EventsOneMore(front, last, decisions, n);
      } else {
        SameEvents(front, last, decisions);
      }
    }
  }

  lemma EventsKept(s: Db, later: Db)
    requires JournalOk(s.log, s.decisions) && Grew(s, later)
    ensures ExpiredByWorker(s.log, s.decisions) <= ExpiredByWorker(later.log, later.decisions)
  {
    PrefixAt(s.log, later.log);
    PrefixAt(s.decisions, later.decisions);
    forall e | e in ExpiredByWorker(s.log, s.decisions) ensures e in ExpiredByWorker(later.log, later.decisions) {
      var k :| 0 <= k < |s.log| && ByWorker(s.log[k]) && s.log[k].decision < |s.decisions|
               && s.decisions[s.log[k].decision].event == e;
      assert later.log[k] == s.log[k];
    }
  }

  /** An event a worker expired since then is expired now and was not then. */
  lemma ExpiredSince(s: Db, later: Db, e: nat)
    requires Chain(s.decisions, |s.events|) && Chain(later.decisions, |later.events|)
    requires JournalOk(later.log, later.decisions) && RecordedSince(s, later) && Grew(s, later)
    requires e in ExpiredByWorker(later.log, later.decisions) && e !in ExpiredByWorker(s.log, s.decisions)
    ensures NowExpired(later, e) && !NowExpired(s, e)
  {
    PrefixAt(s.log, later.log);
    PrefixAt(s.decisions, later.decisions);
    var k :| 0 <= k < |later.log| && ByWorker(later.log[k]) && later.log[k].decision < |later.decisions|
             && later.decisions[later.log[k].decision].event == e;
    var d := later.log[k].decision;
    AtMostOneTransition(later.decisions, |later.events|, d, d);
    LatestIsUnsuperseded(later.decisions, |later.events|, d);
    assert d >= |s.decisions|;
    if NowExpired(s, e) {
      var i := LatestOf(s.decisions, e).value;
      assert RowOk(s.decisions, i);
      assert later.decisions[i] == s.decisions[i];
      AtMostOneTransition(later.decisions, |later.events|, i, d);
    }
  }

  lemma StartJournal(cfg: Config, reg: Registry, before: seq<Step>)
    requires LocksCoincide(cfg)
    ensures var db := Run(cfg, Start(reg), before).db; JournalOk(db.log, db.decisions)
  {
    JournalRun(cfg, Start(reg), before);
  }

  /** Whatever else runs between and beside the workers' reads and takes: the number they report in these steps
    * is the number of events they expired, each of which changed its current decision. */
  lemma ReportsCountEvents(cfg: Config, reg: Registry, before: seq<Step>, steps: seq<Step>)
    requires LocksCoincide(cfg)
    ensures var s := Run(cfg, Start(reg), before);
            var later := Run(cfg, s, steps);
            var events := ExpiredByWorker(later.db.log, later.db.decisions)
                          - ExpiredByWorker(s.db.log, s.db.decisions);
            && Reported(cfg, s, steps) == |events|
            && forall e :: e in events ==> NowExpired(later.db, e) && !NowExpired(s.db, e)
  {
    var s := Run(cfg, Start(reg), before);
    var later := Run(cfg, s, steps);
    ReachableIsSound(cfg, reg, before);
    StartJournal(cfg, reg, before);
    CoreRun(cfg, s, steps);
    JournalRun(cfg, s, steps);
    RunGrows(cfg, s, steps);
    CountedBetween(s.db, later.db);
    forall e | e in ExpiredByWorker(later.db.log, later.db.decisions) - ExpiredByWorker(s.db.log, s.db.decisions)
      ensures NowExpired(later.db, e) && !NowExpired(s.db, e)
    {
      ExpiredSince(s.db, later.db, e);
    }
  }

  lemma CountedBetween(s: Db, later: Db)
    requires Chain(s.decisions, |s.events|) && Chain(later.decisions, |later.events|)
    requires JournalOk(s.log, s.decisions) && JournalOk(later.log, later.decisions) && Grew(s, later)
    ensures |ExpiredByWorker(later.log, later.decisions) - ExpiredByWorker(s.log, s.decisions)|
         == Count(later.log, ByWorker) - Count(s.log, ByWorker)
  {
    EventsCounted(s.log, s.decisions, |s.events|);
    EventsCounted(later.log, later.decisions, |later.events|);
    EventsKept(s, later);
    var earlier, all := ExpiredByWorker(s.log, s.decisions), ExpiredByWorker(later.log, later.decisions);
    assert all == earlier + (all - earlier);
  }
}
