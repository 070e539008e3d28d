/** One tick of the expiry worker: a loop over a list read beforehand, each row checked again. */
module Expiry {
  import opened Common
  import opened Domain
  import opened Queries
  import opened Transactions
  import opened Chains

  /** Take one listed row: expire it if it is still pending. */
  function TakeRow(db: Db, row: DueRow): (Db, nat) {
    if StillPending(db.decisions, row.decision) then (CommitExpire(db, row.decision), 1) else (db, 0)
  }

  /** Take the listed rows in order and count the expiries. The list may be stale and may repeat rows. */
  function TakeRows(db: Db, due: seq<DueRow>): (Db, nat) {
    if due == [] then (db, 0)
    else
      var earlier := TakeRows(db, due[..|due| - 1]);
      var last := TakeRow(earlier.0, due[|due| - 1]);
      (last.0, earlier.1 + last.1)
  }

  lemma TakeOneMore(db: Db, due: seq<DueRow>, k: nat)
    requires k < |due|
    ensures var (earlier, count) := TakeRows(db, due[..k]);
            TakeRows(db, due[..k + 1]) == (TakeRow(earlier, due[k]).0, count + TakeRow(earlier, due[k]).1)
  {
    assert due[..k + 1][..k] == due[..k];
  }

  /** A tick that nothing interrupts: read the due list, then take its rows. */
  function Tick(cfg: Config, db: Db, now: Instant): (Db, nat) {
    TakeRows(db, DueRows(cfg, db, now, |db.decisions|))
  }

  /** The decisions a list expires: the pending ones among its rows, each once, in order. */
  ghost function Taken(decisions: seq<Decision>, due: seq<DueRow>): (r: seq<nat>)
    ensures forall k :: 0 <= k < |r| ==> StillPending(decisions, r[k])
    ensures forall j, k :: 0 <= j < k < |r| ==> r[j] != r[k]
    ensures forall row :: row in due && StillPending(decisions, row.decision) ==> row.decision in r
    ensures forall i :: i in r ==> exists row :: row in due && row.decision == i
  {
    if due == [] then []
    else
      var n := |due| - 1;
      var earlier := Taken(decisions, due[..n]);
      var i := due[n].decision;
      assert due == due[..n] + [due[n]];
      if StillPending(decisions, i) && i !in earlier then earlier + [i] else earlier
  }

  /** Any list, stale or with repeats, expires each of its still-pending decisions exactly once, writes
    * nothing else, and counts exactly these. */
  lemma {:induction false} TakenExactlyOnce(db: Db, due: seq<DueRow>)
    requires Chain(db.decisions, |db.events|)
    ensures var (after, count) := TakeRows(db, due);
            && Expires(db.decisions, Taken(db.decisions, due), after.decisions)
            && Chain(after.decisions, |after.events|)
            && count == |Taken(db.decisions, due)|
            && after == db.(decisions := after.decisions, log := after.log)
  {
    if due == [] {
      assert db.decisions[..|db.decisions|] == db.decisions;
    } else {
      var n := |due| - 1;
      TakenExactlyOnce(db, due[..n]);
      var ids := Taken(db.decisions, due[..n]);
      var (mid, _) := TakeRows(db, due[..n]);
      var i := due[n].decision;
      PendingUnlessTaken(db.decisions, ids, mid.decisions, i);
      if StillPending(mid.decisions, i) {
        AppendTransition(mid.decisions, |mid.events|, i, ManualReview, Expired, None);
        ExpiresOneMore(db.decisions, ids, mid.decisions, i);
      }
    }
  }

  lemma PendingUnlessTaken(decisions: seq<Decision>, ids: seq<nat>, rows: seq<Decision>, i: nat)
    requires Expires(decisions, ids, rows)
    ensures StillPending(rows, i) <==> StillPending(decisions, i) && i !in ids
    ensures StillPending(rows, i) ==> rows[i] == decisions[i]
  {
    if StillPending(rows, i) {
      PendingAfterExpiry(decisions, ids, rows, i);
    }
    if StillPending(decisions, i) && i !in ids {
      UnlistedStays(decisions, ids, rows, i);
    }
  }

  /** A tick expires exactly the decisions that are due when it reads its list. */
  lemma TickTakesTheDue(cfg: Config, db: Db, now: Instant, i: nat)
    requires Chain(db.decisions, |db.events|)
    ensures i in Taken(db.decisions, DueRows(cfg, db, now, |db.decisions|)) <==> Due(db, now, i)
  {
    var due := DueRows(cfg, db, now, |db.decisions|);
    if Due(db, now, i) {
      PendingTwoWays(db.decisions, |db.events|, i);
      var row := DueRow(i, JoinedKeys(cfg, db.events[db.decisions[i].event])[0]);
      assert DueAs(cfg, db, now, row);
    }
  }

  /** After a tick at `now` no current pending decision has a deadline before `now`; every other pending
    * decision is still pending. */
  lemma TickClearsOverdue(cfg: Config, db: Db, now: Instant, i: nat)
    requires Chain(db.decisions, |db.events|)
    ensures var after := Tick(cfg, db, now).0;
            && Chain(after.decisions, |after.events|)
            && (CurrentPending(after.decisions, i)
                <==> CurrentPending(db.decisions, i) && !Overdue(db.decisions[i], now))
            && (CurrentPending(after.decisions, i) ==> !Overdue(after.decisions[i], now))
  {
    var due := DueRows(cfg, db, now, |db.decisions|);
    var after := Tick(cfg, db, now).0;
    TakenExactlyOnce(db, due);
    PendingUnlessTaken(db.decisions, Taken(db.decisions, due), after.decisions, i);
    TickTakesTheDue(cfg, db, now, i);
    if i < |after.decisions| {
      PendingTwoWays(after.decisions, |after.events|, i);
    }
    if i < |db.decisions| {
      PendingTwoWays(db.decisions, |db.events|, i);
    }
  }

  lemma ListedMeansDue(cfg: Config, db: Db, now: Instant)
    requires DueRows(cfg, db, now, |db.decisions|) != []
    ensures exists i: nat :: Due(db, now, i)
  {
    var row := DueRows(cfg, db, now, |db.decisions|)[0];
    assert DueAs(cfg, db, now, row);
  }

  /** A second tick at the same instant finds nothing to do. */
  lemma SecondTickIsIdle(cfg: Config, db: Db, now: Instant)
    requires Chain(db.decisions, |db.events|)
    ensures var after := Tick(cfg, db, now).0; Tick(cfg, after, now) == (after, 0)
  {
    var after := Tick(cfg, db, now).0;
    if DueRows(cfg, after, now, |after.decisions|) != [] {
      ListedMeansDue(cfg, after, now);
      var i: nat :| Due(after, now, i);
      TickClearsOverdue(cfg, db, now, i);
    }
  }

  // ---------------------------------------------------------------- groups

  /** The events whose current decision differs. */
  ghost function Moved(before: seq<Decision>, after: seq<Decision>, n: nat): set<nat> {
    set e: nat | e < n && LatestOf(before, e) != LatestOf(after, e)
  }

  ghost function EventsOf(decisions: seq<Decision>, ids: seq<nat>): set<nat>
    requires forall k :: 0 <= k < |ids| ==> ids[k] < |decisions|
  {
    set k | 0 <= k < |ids| :: decisions[ids[k]].event
  }

  lemma {:induction false} DistinctEvents(decisions: seq<Decision>, ids: seq<nat>)
    requires forall k :: 0 <= k < |ids| ==> ids[k] < |decisions|
    requires forall j, k :: 0 <= j < k < |ids| ==> decisions[ids[j]].event != decisions[ids[k]].event
    ensures |EventsOf(decisions, ids)| == |ids|
  {
    if ids != [] {
      var n := |ids| - 1;
      DistinctEvents(decisions, ids[..n]);
      assert EventsOf(decisions, ids) == EventsOf(decisions, ids[..n]) + {decisions[ids[n]].event};
      assert decisions[ids[n]].event !in EventsOf(decisions, ids[..n]);
    }
  }

  /** The current decision of an event moves exactly when its pending row is among the expired ones. */
  lemma MovedWhenExpired(decisions: seq<Decision>, ids: seq<nat>, rows: seq<Decision>, n: nat, e: nat)
    requires Expires(decisions, ids, rows) && e < n
    requires forall k :: 0 <= k < |ids| ==> StillPending(decisions, ids[k])
    ensures LatestOf(decisions, e) != LatestOf(rows, e) <==> e in EventsOf(decisions, ids)
  {
    if e in EventsOf(decisions, ids) {
      var k :| 0 <= k < |ids| && decisions[ids[k]].event == e;
      assert rows[|decisions| + k].event == e;
    } else {
      forall i | |decisions| <= i < |rows| ensures rows[i].event != e {
        assert rows[|decisions| + (i - |decisions|)].event == decisions[ids[i - |decisions|]].event;
      }
      assert forall i :: 0 <= i < |decisions| ==> rows[..|decisions|][i] == rows[i];
    }
  }

  lemma MovedAreTheirEvents(decisions: seq<Decision>, ids: seq<nat>, rows: seq<Decision>, n: nat)
    requires Expires(decisions, ids, rows) && Chain(decisions, n)
    requires forall k :: 0 <= k < |ids| ==> StillPending(decisions, ids[k])
    requires forall j, k :: 0 <= j < k < |ids| ==> ids[j] != ids[k]
    ensures Moved(decisions, rows, n) == EventsOf(decisions, ids) && |EventsOf(decisions, ids)| == |ids|
  {
    forall j, k | 0 <= j < k < |ids| ensures decisions[ids[j]].event != decisions[ids[k]].event {
      PendingTwoWays(decisions, n, ids[j]);
      PendingTwoWays(decisions, n, ids[k]);
    }
    DistinctEvents(decisions, ids);
    forall e: nat | e < n
      ensures LatestOf(decisions, e) != LatestOf(rows, e) <==> e in EventsOf(decisions, ids)
    {
      MovedWhenExpired(decisions, ids, rows, n, e);
    }
  }

  lemma DueEvents(cfg: Config, db: Db, now: Instant, e: nat)
    requires Chain(db.decisions, |db.events|)
    ensures var ids := Taken(db.decisions, DueRows(cfg, db, now, |db.decisions|));
            e in EventsOf(db.decisions, ids) <==> exists i: nat :: Due(db, now, i) && db.decisions[i].event == e
  {
    var ids := Taken(db.decisions, DueRows(cfg, db, now, |db.decisions|));
    if e in EventsOf(db.decisions, ids) {
      var k :| 0 <= k < |ids| && db.decisions[ids[k]].event == e;
      TickTakesTheDue(cfg, db, now, ids[k]);
    }
    if i: nat :| Due(db, now, i) && db.decisions[i].event == e {
      TickTakesTheDue(cfg, db, now, i);
      var k :| 0 <= k < |ids| && ids[k] == i;
    }
  }

  /** The count a tick returns is the number of events whose current decision it changed, however often
    * the barrier join lists a row; every other event keeps its current decision. */
  lemma TickCountsGroups(cfg: Config, db: Db, now: Instant)
    requires Chain(db.decisions, |db.events|)
    ensures var (after, count) := Tick(cfg, db, now);
            && count == |Moved(db.decisions, after.decisions, |db.events|)|
            && forall e: nat :: e in Moved(db.decisions, after.decisions, |db.events|) <==>
                 exists i: nat :: Due(db, now, i) && db.decisions[i].event == e
  {
    var due := DueRows(cfg, db, now, |db.decisions|);
    var ids := Taken(db.decisions, due);
    TakenExactlyOnce(db, due);
    MovedAreTheirEvents(db.decisions, ids, Tick(cfg, db, now).0.decisions, |db.events|);
    forall e: nat
      ensures e in EventsOf(db.decisions, ids) <==> exists i: nat :: Due(db, now, i) && db.decisions[i].event == e
    {
      DueEvents(cfg, db, now, e);
    }
  }
}
