/** The append-only decision table: every event's rows form one chain. */
module Chains {
  import opened Common
  import opened Domain
  import opened Queries
  import opened Transactions

  predicate StatusMatches(d: DecisionType, s: DecisionStatus) {
    match s
    case Allowed => d == Allow
    case AllowedManually => d == Allow
    case Denied => d == Deny
    case DeniedManually => d == Deny
    case PendingReview => d == ManualReview
    case Expired => d == ManualReview
  }

  predicate TerminalStatus(s: DecisionStatus) {
    s == AllowedManually || s == DeniedManually || s == Expired
  }

  predicate InitialStatus(s: DecisionStatus) {
    s == PendingReview || s == Allowed || s == AllowedManually || s == Denied
  }

  /** A row is an initial answer, or moves an earlier pending initial row of its event to a terminal status. */
  ghost predicate RowOk(decisions: seq<Decision>, i: nat)
    requires i < |decisions|
  {
    && StatusMatches(decisions[i].decision, decisions[i].status)
    && match decisions[i].supersedes
       case None => InitialStatus(decisions[i].status)
       case Some(j) =>
         && j < i && decisions[j].supersedes.None? && decisions[j].status == PendingReview
         && decisions[j].event == decisions[i].event && TerminalStatus(decisions[i].status)
  }

  /** Each of the `n` events has exactly one initial row, and each row is superseded at most once. */
  ghost predicate Chain(decisions: seq<Decision>, n: nat) {
    && (forall i :: 0 <= i < |decisions| ==> decisions[i].event < n && RowOk(decisions, i))
    && (forall i, j :: 0 <= i < j < |decisions| && decisions[i].supersedes.None? && decisions[j].supersedes.None?
                       ==> decisions[i].event != decisions[j].event)
    && (forall i, j :: 0 <= i < j < |decisions| && decisions[i].supersedes.Some?
                       ==> decisions[i].supersedes != decisions[j].supersedes)
    && (forall e :: 0 <= e < n ==> InitialOf(decisions, e).Some?)
  }

  /** Only a pending initial row can be superseded: terminal and direct answers are final. */
  lemma FinalRowsStay(decisions: seq<Decision>, n: nat, i: nat)
    requires Chain(decisions, n) && i < |decisions|
    ensures Superseded(decisions, i) ==> decisions[i].status == PendingReview && decisions[i].supersedes.None?
  {
    if Superseded(decisions, i) {
      var d :| d in decisions && d.supersedes == Some(i);
      var k :| 0 <= k < |decisions| && decisions[k] == d;
      assert RowOk(decisions, k);
    }
  }

  /** A transition supersedes the initial row of its event and is itself superseded by nothing, so an
    * event has at most one transition. */
  lemma AtMostOneTransition(decisions: seq<Decision>, n: nat, i: nat, j: nat)
    requires Chain(decisions, n) && i < |decisions| && j < |decisions|
    requires decisions[i].event == decisions[j].event
    requires decisions[i].supersedes.Some? && decisions[j].supersedes.Some?
    ensures i == j && !Superseded(decisions, i)
  {
    var a, b := decisions[i].supersedes.value, decisions[j].supersedes.value;
    assert RowOk(decisions, i) && RowOk(decisions, j);
    assert a == b;
    FinalRowsStay(decisions, n, i);
  }

  /** Of two rows of one event, the later is the transition that supersedes the earlier. */
  lemma SecondRowSupersedesFirst(decisions: seq<Decision>, n: nat, i: nat, j: nat)
    requires Chain(decisions, n) && i < j < |decisions| && decisions[i].event == decisions[j].event
    ensures decisions[j].supersedes == Some(i) && Superseded(decisions, i)
  {
    assert RowOk(decisions, i) && RowOk(decisions, j);
    assert decisions[j] in decisions;
  }

  /** The row with the largest id of an event is the one row nothing supersedes, and conversely. */
  lemma LatestIsUnsuperseded(decisions: seq<Decision>, n: nat, i: nat)
    requires Chain(decisions, n) && i < |decisions|
    ensures LatestOf(decisions, decisions[i].event) == Some(i) <==> !Superseded(decisions, i)
  {
    var e := decisions[i].event;
    var m := LatestOf(decisions, e).value;
    if m != i {
      SecondRowSupersedesFirst(decisions, n, i, m);
    }
    if Superseded(decisions, i) {
      var d :| d in decisions && d.supersedes == Some(i);
      var k :| 0 <= k < |decisions| && decisions[k] == d;
      assert RowOk(decisions, k);
    }
  }

  lemma PendingTwoWays(decisions: seq<Decision>, n: nat, i: nat)
    requires Chain(decisions, n) && i < |decisions|
    ensures CurrentPending(decisions, i) <==> StillPending(decisions, i)
  {
    LatestIsUnsuperseded(decisions, n, i);
  }

  lemma AppendInitial(decisions: seq<Decision>, n: nat, row: Decision)
    requires Chain(decisions, n)
    requires row.event == n && row.supersedes.None?
    requires InitialStatus(row.status) && StatusMatches(row.decision, row.status)
    ensures Chain(decisions + [row], n + 1)
  {
    var after := decisions + [row];
    forall i | 0 <= i < |after| ensures after[i].event < n + 1 && RowOk(after, i) {
      if i < |decisions| {
        assert RowOk(decisions, i);
      }
    }
    forall e | 0 <= e < n + 1 ensures InitialOf(after, e).Some? {
      if e < n {
        var k := InitialOf(decisions, e).value;
        assert Initial(after[k], e);
      } else {
        assert Initial(after[|decisions|], e);
      }
    }
  }

  lemma AppendTransition(decisions: seq<Decision>, n: nat, i: nat, d: DecisionType, s: DecisionStatus, who: Option<Id>)
    requires Chain(decisions, n) && StillPending(decisions, i)
    requires TerminalStatus(s) && StatusMatches(d, s)
    ensures Chain(decisions + [Transition(decisions, i, d, s, who)], n)
  {
    var row := Transition(decisions, i, d, s, who);
    var after := decisions + [row];
    assert RowOk(decisions, i);
    forall k | 0 <= k < |after| ensures after[k].event < n && RowOk(after, k) {
      if k < |decisions| {
        assert RowOk(decisions, k);
      }
    }
    forall a, b | 0 <= a < b < |after| && after[a].supersedes.Some?
      ensures after[a].supersedes != after[b].supersedes
    {
      if b == |decisions| {
        assert decisions[a] in decisions;
      }
    }
    forall e | 0 <= e < n ensures InitialOf(after, e).Some? {
      var k := InitialOf(decisions, e).value;
      assert Initial(after[k], e);
    }
  }

  /** `r` is `decisions` followed by one expiry for each listed row. */
  ghost predicate Expires(decisions: seq<Decision>, ids: seq<nat>, r: seq<Decision>) {
    && |r| == |decisions| + |ids| && r[..|decisions|] == decisions
    && forall k :: 0 <= k < |ids| ==>
         ids[k] < |decisions| && r[|decisions| + k] == Transition(decisions, ids[k], ManualReview, Expired, None)
  }

  /** A row not listed keeps its standing. */
  lemma UnlistedStays(decisions: seq<Decision>, ids: seq<nat>, r: seq<Decision>, i: nat)
    requires Expires(decisions, ids, r) && i < |decisions| && i !in ids
    ensures r[i] == decisions[i] && (Superseded(r, i) <==> Superseded(decisions, i))
  {
    assert r[i] == r[..|decisions|][i];
    forall k | |decisions| <= k < |r| ensures r[k].supersedes != Some(i) {
      assert r[|decisions| + (k - |decisions|)].supersedes == Some(ids[k - |decisions|]);
    }
    if Superseded(r, i) {
      var d :| d in r && d.supersedes == Some(i);
      var k :| 0 <= k < |r| && r[k] == d;
      assert r[k] == r[..|decisions|][k] == decisions[k];
      assert decisions[k] in decisions;
    }
    if Superseded(decisions, i) {
      var d :| d in decisions && d.supersedes == Some(i);
      assert d in r[..|decisions|];
    }
  }

  /** A row still pending after an expiry of listed rows is an old row that was not listed. */
  lemma PendingAfterExpiry(decisions: seq<Decision>, ids: seq<nat>, rows: seq<Decision>, i: nat)
    requires Expires(decisions, ids, rows) && StillPending(rows, i)
    ensures i < |decisions| && i !in ids && rows[i] == decisions[i] && StillPending(decisions, i)
  {
    forall k | 0 <= k < |ids| ensures |decisions| + k != i && ids[k] != i {
      assert rows[|decisions| + k] in rows && rows[|decisions| + k].supersedes == Some(ids[k]);
      assert rows[|decisions| + k].status == Expired;
    }
    forall j | |decisions| <= j < |rows| ensures rows[j].status == Expired {
      assert rows[|decisions| + (j - |decisions|)].supersedes == Some(ids[j - |decisions|]);
    }
    UnlistedStays(decisions, ids, rows, i);
  }

  /** One more expiry. */
  lemma ExpiresOneMore(decisions: seq<Decision>, ids: seq<nat>, r: seq<Decision>, i: nat)
    requires Expires(decisions, ids, r) && i < |decisions|
    ensures Expires(decisions, ids + [i], r + [Transition(decisions, i, ManualReview, Expired, None)])
  {
    var row := Transition(decisions, i, ManualReview, Expired, None);
    assert (r + [row])[..|decisions|] == r[..|decisions|];
  }

  /** Expiring a list of distinct pending rows appends exactly one transition for each, in order. */
  lemma {:induction false} ExpireListedRows(decisions: seq<Decision>, n: nat, ids: seq<nat>)
    requires Chain(decisions, n)
    requires forall k :: 0 <= k < |ids| ==> StillPending(decisions, ids[k])
    requires forall j, k :: 0 <= j < k < |ids| ==> ids[j] != ids[k]
    ensures Chain(ExpireListed(decisions, ids), n) && Expires(decisions, ids, ExpireListed(decisions, ids))
  {
    if ids != [] {
      var front, i := ids[..|ids| - 1], ids[|ids| - 1];
      ExpireListedRows(decisions, n, front);
      var r := ExpireListed(decisions, front);
      assert i !in front;
      UnlistedStays(decisions, front, r, i);
      AppendTransition(r, n, i, ManualReview, Expired, None);
      ExpiresOneMore(decisions, front, r, i);
      assert front + [i] == ids;
    } else {
      assert decisions[..|decisions|] == decisions;
    }
  }
}
