/** The lookups the services issue against the tables. */
module Queries {
  import opened Common
  import opened Domain

  /** A passage as submitted: scope fields are claims, the plate is already normalised. */
  datatype Input = Input(
    controller: Id, eventId: string, zone: Option<Id>, gate: Option<Id>, plate: Option<string>,
    direction: Direction, confidence: Option<real>, capturedAt: Instant)

  function ToEvent(x: Input): CameraEvent {
    CameraEvent(x.controller, x.eventId, x.gate, x.zone, x.plate, x.direction, x.capturedAt)
  }

  predicate SameKey(e: CameraEvent, controller: Id, eventId: string) {
    e.controller == controller && e.eventId == eventId
  }

  /** The event received under this idempotency key. */
  function FindEvent(events: seq<CameraEvent>, controller: Id, eventId: string): (r: Option<nat>)
    ensures r.Some? ==> r.value < |events| && SameKey(events[r.value], controller, eventId)
    ensures r.None? ==> forall i :: 0 <= i < |events| ==> !SameKey(events[i], controller, eventId)
  {
    FindFirst(events, (e: CameraEvent) => SameKey(e, controller, eventId))
  }

  // ---------------------------------------------------------------- decisions

  predicate Initial(d: Decision, event: nat) {
    d.event == event && d.supersedes.None?
  }

  function InitialOf(decisions: seq<Decision>, event: nat): (r: Option<nat>)
    ensures r.Some? ==> r.value < |decisions| && Initial(decisions[r.value], event)
    ensures r.None? ==> forall i :: 0 <= i < |decisions| ==> !Initial(decisions[i], event)
  {
    FindFirst(decisions, (d: Decision) => Initial(d, event))
  }

  /** The row of the event with the largest id: its current decision. */
  function LatestOf(decisions: seq<Decision>, event: nat): (r: Option<nat>)
    ensures r.Some? ==> r.value < |decisions| && decisions[r.value].event == event
                        && forall i :: r.value < i < |decisions| ==> decisions[i].event != event
    ensures r.None? ==> forall i :: 0 <= i < |decisions| ==> decisions[i].event != event
  {
    FindLast(decisions, (d: Decision) => d.event == event)
  }

  predicate Superseded(decisions: seq<Decision>, i: nat) {
    exists d | d in decisions :: d.supersedes == Some(i)
  }

  /** A pending row that is the latest of its event. */
  predicate CurrentPending(decisions: seq<Decision>, i: nat) {
    i < |decisions| && decisions[i].status == PendingReview && LatestOf(decisions, decisions[i].event) == Some(i)
  }

  predicate Overdue(d: Decision, now: Instant) {
    d.deadline.Some? && d.deadline.value < now
  }

  /** A current pending row of a passage at this gate. */
  predicate PendingAt(db: Db, gate: Id, i: nat) {
    && CurrentPending(db.decisions, i)
    && db.decisions[i].event < |db.events| && db.events[db.decisions[i].event].gate == Some(gate)
  }

  predicate OverduePendingAt(db: Db, gate: Id, now: Instant, i: nat) {
    PendingAt(db, gate, i) && Overdue(db.decisions[i], now)
  }

  /** The overdue current pending rows of a gate among the first `n` rows, by ascending id. */
  function OverdueAt(db: Db, gate: Id, now: Instant, n: nat): (r: seq<nat>)
    requires n <= |db.decisions|
    ensures forall k :: 0 <= k < |r| ==> r[k] < n && OverduePendingAt(db, gate, now, r[k])
    ensures forall j, k :: 0 <= j < k < |r| ==> r[j] < r[k]
    ensures forall i :: 0 <= i < n && OverduePendingAt(db, gate, now, i) ==> i in r
  {
    if n == 0 then []
    else
      var earlier := OverdueAt(db, gate, now, n - 1);
      if OverduePendingAt(db, gate, now, n - 1) then earlier + [n - 1] else earlier
  }

  /** The newest current pending row of a gate whose deadline has not passed, among the first `n`. */
  function ActivePendingAt(db: Db, gate: Id, now: Instant, n: nat): (r: Option<nat>)
    requires n <= |db.decisions|
    ensures r.Some? ==> r.value < n && PendingAt(db, gate, r.value) && !Overdue(db.decisions[r.value], now)
    ensures r.None? ==> forall i :: 0 <= i < n && PendingAt(db, gate, i) ==> OverduePendingAt(db, gate, now, i)
  {
    if n == 0 then None
    else if PendingAt(db, gate, n - 1) && !Overdue(db.decisions[n - 1], now) then Some(n - 1)
    else ActivePendingAt(db, gate, now, n - 1)
  }

  // ---------------------------------------------------------------- short deduplication window

  /** The stored event is the same passage seen again: same gate, direction and plate, captured within
    * the window, under another key. */
  predicate WindowMatch(e: CameraEvent, x: Input, window: nat) {
    && x.gate.Some? && x.plate.Some?
    && e.gate == x.gate && e.direction == x.direction && e.plate == x.plate
    && x.capturedAt - window <= e.capturedAt <= x.capturedAt + window
    && !SameKey(e, x.controller, x.eventId)
  }

  predicate DuplicateOf(events: seq<CameraEvent>, decisions: seq<Decision>, x: Input, window: nat, i: nat) {
    i < |events| && WindowMatch(events[i], x, window) && InitialOf(decisions, i).Some?
  }

  /** The earliest captured duplicate among the first `n` events. */
  function FindWindowDuplicate(events: seq<CameraEvent>, decisions: seq<Decision>, x: Input, window: nat, n: nat)
    : (r: Option<nat>)
    requires n <= |events|
    ensures r.Some? ==> r.value < n && DuplicateOf(events, decisions, x, window, r.value)
    ensures r.Some? ==> forall i :: 0 <= i < n && DuplicateOf(events, decisions, x, window, i)
                                    ==> events[r.value].capturedAt <= events[i].capturedAt
    ensures r.None? ==> forall i :: 0 <= i < n ==> !DuplicateOf(events, decisions, x, window, i)
  {
    if n == 0 then None
    else
      var best := FindWindowDuplicate(events, decisions, x, window, n - 1);
      if DuplicateOf(events, decisions, x, window, n - 1)
         && (best.None? || events[n - 1].capturedAt < events[best.value].capturedAt)
      then Some(n - 1) else best
  }

  // ---------------------------------------------------------------- commands, openings, sessions

  function CommandFor(commands: seq<Command>, decision: nat): (r: Option<nat>)
    ensures r.Some? ==> r.value < |commands| && commands[r.value].decision == Some(decision)
    ensures r.None? ==> forall i :: 0 <= i < |commands| ==> commands[i].decision != Some(decision)
  {
    FindFirst(commands, (c: Command) => c.decision == Some(decision))
  }

  predicate RecentOpenExists(openings: seq<Opening>, barrier: Id, since: Instant) {
    exists o | o in openings :: o.barrier == barrier && since <= o.createdAt
  }

  predicate OpenFor(s: Session, vehicle: nat, zone: Id) {
    s.open && s.vehicle == vehicle && s.zone == zone
  }

  function FindOpenSession(sessions: seq<Session>, vehicle: nat, zone: Id): (r: Option<nat>)
    ensures r.Some? ==> r.value < |sessions| && OpenFor(sessions[r.value], vehicle, zone)
    ensures r.None? ==> forall i :: 0 <= i < |sessions| ==> !OpenFor(sessions[i], vehicle, zone)
  {
    FindFirst(sessions, (s: Session) => OpenFor(s, vehicle, zone))
  }

  predicate RedeemableBy(p: Pass, hash: string, now: Instant) {
    && p.kind == Guest && p.codeHash == Some(hash) && p.status == ActivePass
    && p.validUntil.Some? && now < p.validUntil.value && p.usedEntries < p.maxEntries
  }

  function FindRedeemable(passes: seq<Pass>, hash: string, now: Instant): (r: Option<nat>)
    ensures r.Some? ==> r.value < |passes| && RedeemableBy(passes[r.value], hash, now)
    ensures r.None? ==> forall i :: 0 <= i < |passes| ==> !RedeemableBy(passes[i], hash, now)
  {
    FindFirst(passes, (p: Pass) => RedeemableBy(p, hash, now))
  }
}
