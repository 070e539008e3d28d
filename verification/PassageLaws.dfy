/** What receiving a passage writes, in the fields of the message and of the rows: its event, its decision, its
  * command, the pass it spends and the session it starts or ends. */
module PassageLaws {
  import opened Common
  import opened Domain
  import opened Engine
  import opened Queries
  import opened Transactions
  import opened System
  import opened PresenceLaws
  import opened ScopeLaws
  import opened CoreSafety
  import opened SpotBound
  import Requests

  // ---------------------------------------------------------------- the answer

  /** The engine's answer to the passage in the zone: an exit looks up its plate and is allowed, an entry is
    * judged with all that the message says. */
  function AnswerTo(cfg: Config, reg: Registry, db: Db, x: Input, zone: Option<Id>): EngineDecision {
    var plate := if x.plate.Some? then x.plate.value else "";
    if x.direction == Exit
    then EngineDecision(Allow, None, Allowed, if plate == "" then None else FindVehicle(reg.vehicles, plate), None)
    else Decide(reg, db.passes, db.sessions, EngineInput(zone, plate, Entry, x.confidence, x.capturedAt), cfg.threshold)
  }

  /** An accepted passage carries the message with the authorised scope, the barrier of its gate and the answer the
    * tables gave; a foreign claim is denied. */
  lemma AcceptedCarries(cfg: Config, reg: Registry, db: Db, x: Input)
    requires BeginIngest(cfg, reg, db, x).Accepted?
    ensures var t, s := BeginIngest(cfg, reg, db, x).ticket, AuthorizeScope(cfg, x);
            && t.input == Input(x.controller, x.eventId, s.zone, s.gate, x.plate, x.direction, x.confidence,
                                x.capturedAt)
            && t.barrier == s.barrier
            && t.engine == if ForeignClaim(cfg, x)
                           then EngineDecision(Deny, Some(ZoneNotAllowed), Denied, None, None)
                           else AnswerTo(cfg, reg, db, x, s.zone)
  {
    ScopeIsOwn(cfg, x);
  }

  // ---------------------------------------------------------------- repeats

  /** The stored event is this passage seen again under another key: same gate, direction and plate, captured within
    * the window. */
  predicate SeenAgain(e: CameraEvent, x: Input, gate: Option<Id>, window: nat) {
    && gate.Some? && x.plate.Some? && e.gate == gate && e.plate == x.plate && e.direction == x.direction
    && e.capturedAt - x.capturedAt <= window && x.capturedAt - e.capturedAt <= window
    && (e.controller != x.controller || e.eventId != x.eventId)
  }

  /** Event `i` already answers the passage. */
  ghost predicate AnsweredAs(cfg: Config, db: Db, x: Input, i: nat) {
    && i < |db.events|
    && if exists e | e in db.events :: e.controller == x.controller && e.eventId == x.eventId
       then db.events[i].controller == x.controller && db.events[i].eventId == x.eventId
       else
         var gate := AuthorizeScope(cfg, x).gate;
         && SeenAgain(db.events[i], x, gate, cfg.dedupWindow)
         && forall j :: 0 <= j < |db.events| && SeenAgain(db.events[j], x, gate, cfg.dedupWindow)
                        ==> db.events[i].capturedAt <= db.events[j].capturedAt
  }

  /** What the tables hold about event `i`: its first decision and that decision's command. */
  ghost predicate Saved(db: Db, i: nat, r: IngestResult) {
    exists d :: && 0 <= d < |db.decisions| && db.decisions[d].event == i && db.decisions[d].supersedes.None?
                && (r.decision, r.status, r.reason, r.decisionId, r.replayed)
                   == (db.decisions[d].decision, db.decisions[d].status, db.decisions[d].reason, Some(d), true)
                && match r.command
                   case None => forall c | c in db.commands :: c.decision != Some(d)
                   case Some(out) =>
                     && out.command < |db.commands| && db.commands[out.command].decision == Some(d)
                     && out.barrier == db.commands[out.command].barrier
                     && out.expiresAt == db.commands[out.command].expiresAt
  }

  /** A passage is accepted exactly when its key is not stored and it repeats no stored passage; otherwise the answer is
    * the one saved for the event of its key, or for an earliest captured passage it repeats. */
  lemma AcceptedExactlyWhenNew(cfg: Config, reg: Registry, db: Db, x: Input)
    requires forall e :: 0 <= e < |db.events| ==> InitialOf(db.decisions, e).Some?
    ensures match BeginIngest(cfg, reg, db, x)
            case Accepted(_) => forall i: nat :: !AnsweredAs(cfg, db, x, i)
            case Replayed(r) => exists i: nat :: AnsweredAs(cfg, db, x, i) && Saved(db, i, r)
  {
    var y := Sanitise(cfg, x);
    var gate := AuthorizeScope(cfg, x).gate;
    forall i | 0 <= i < |db.events|
      ensures DuplicateOf(db.events, db.decisions, y, cfg.dedupWindow, i)
              <==> SeenAgain(db.events[i], x, gate, cfg.dedupWindow)
    {
      assert InitialOf(db.decisions, i).Some?;
    }
    var found := FindEvent(db.events, x.controller, x.eventId);
    if found.Some? {
      assert db.events[found.value] in db.events;
      AnswerSaved(db, found.value);
    } else {
      var dup := FindWindowDuplicate(db.events, db.decisions, y, cfg.dedupWindow, |db.events|);
      if dup.Some? {
        AnswerSaved(db, dup.value);
        assert AnsweredAs(cfg, db, x, dup.value);
      }
    }
  }

  lemma AnswerSaved(db: Db, i: nat)
    requires InitialOf(db.decisions, i).Some?
    ensures Saved(db, i, LoadExisting(db, i))
  {
    var d := InitialOf(db.decisions, i).value;
    var c := CommandFor(db.commands, d);
    assert c.None? ==> forall k | k in db.commands :: k.decision != Some(d);
    assert db.decisions[d].event == i;
  }

  // ---------------------------------------------------------------- the decision

  /** The answer spends an entry of a pass. */
  predicate SpendsPass(e: EngineDecision) {
    e.decision == Allow && e.reason == Some(TemporaryPassAllowed) && e.pass.Some?
  }

  predicate EntryLeft(passes: seq<Pass>, e: EngineDecision) {
    e.pass.Some? && e.pass.value < |passes| && passes[e.pass.value].usedEntries < passes[e.pass.value].maxEntries
  }

  /** The barrier was opened by hand at or after the capture. */
  predicate OpenedSince(db: Db, barrier: Option<Id>, at: Instant) {
    exists o | o in db.openings :: barrier == Some(o.barrier) && at <= o.createdAt
  }

  /** The decision row of a passage, by the engine's answer and what the tables hold when it is recorded. */
  ghost predicate DecidedBy(db: Db, t: Ticket, clock: Instant, d: Decision) {
    && d.event == |db.events| && d.supersedes.None? && d.resolvedBy.None? && d.pass == t.engine.pass
    && if SpendsPass(t.engine) && !EntryLeft(db.passes, t.engine) then
         d.decision == Deny && d.status == Denied && d.reason == Some(PassAlreadyUsed)
         && d.vehicle.None? && d.deadline.None?
       else
         && d.reason == t.engine.reason && d.vehicle == t.engine.vehicle
         && if t.engine.decision != ManualReview then
              d.decision == t.engine.decision && d.status == t.engine.status && d.deadline.None?
            else if OpenedSince(db, t.barrier, t.input.capturedAt) then
              d.decision == Allow && d.status == AllowedManually && d.deadline.None?
            else
              d.decision == ManualReview && d.status == PendingReview && d.deadline == Some(clock + 120_000_000)
  }

  // ---------------------------------------------------------------- sessions

  predicate In(s: Session, v: nat, zone: Id) {
    s.open && s.vehicle == v && s.zone == zone
  }

  predicate IsIn(sessions: seq<Session>, v: nat, zone: Id) {
    exists s | s in sessions :: In(s, v, zone)
  }

  /** The session as the exit event leaves it. */
  function Ended(s: Session, at: Instant, event: nat): Session {
    Session(s.vehicle, s.apartment, s.zone, s.enteredAt, Some(at), false, s.entryEvent, Some(event), s.closedBy,
            Some("exit_event"))
  }

  /** One session of the vehicle in the zone ended with this event, if it had one; no other changed. */
  ghost predicate Left(before: seq<Session>, after: seq<Session>, v: nat, zone: Id, at: Instant, event: nat) {
    && |after| == |before|
    && (IsIn(before, v, zone) ==>
          exists i :: && 0 <= i < |before| && In(before[i], v, zone)
                      && after == before[i := Ended(before[i], at, event)])
    && (!IsIn(before, v, zone) ==> after == before)
  }

  /** The vehicle is in the zone afterwards; a new session says since when, and for which apartment. */
  ghost predicate Came(reg: Registry, before: seq<Session>, after: seq<Session>, v: nat, zone: Id, at: Instant,
                       event: nat)
  {
    && IsIn(after, v, zone)
    && if IsIn(before, v, zone) then after == before
       else after == before + [Session(v, ApartmentOf(reg.links, v), zone, at, None, true, Some(event), None, None,
                                       None)]
  }

  ghost predicate Moved(reg: Registry, db: Db, after: Db, x: Input, d: Decision) {
    if d.decision != Allow || d.vehicle.None? || x.zone.None? then after.sessions == db.sessions
    else if x.direction == Exit then
      Left(db.sessions, after.sessions, d.vehicle.value, x.zone.value, x.capturedAt, |db.events|)
    else if d.status == Allowed then
      Came(reg, db.sessions, after.sessions, d.vehicle.value, x.zone.value, x.capturedAt, |db.events|)
    else after.sessions == db.sessions
  }

  // ---------------------------------------------------------------- all that is written

  /** A direct allow at a barrier orders one opening of it, and the answer carries the order; nothing else does. */
  ghost predicate Ordered(cfg: Config, db: Db, after: Db, t: Ticket, started: Instant, clock: Instant, d: Decision,
                          out: Option<CommandOut>)
  {
    if d.decision == Allow && d.status == Allowed && t.barrier.Some? then
      && after.commands == db.commands + [Command(Some(|db.decisions|), t.input.controller, t.barrier.value, started,
                                                  Some(clock + cfg.commandTtl), Pending, None, None, 0, None)]
      && out == Some(CommandOut(|db.commands|, t.barrier.value, Some(clock + cfg.commandTtl)))
    else after.commands == db.commands && out.None?
  }

  /** One entry of the pass is spent; the last one uses it up. */
  ghost predicate Spent(db: Db, after: Db, e: EngineDecision) {
    if SpendsPass(e) && EntryLeft(db.passes, e) then
      var p := db.passes[e.pass.value];
      after.passes == db.passes[e.pass.value := p.(
        usedEntries := p.usedEntries + 1,
        status := if p.usedEntries + 1 == p.maxEntries then UsedPass else p.status)]
    else after.passes == db.passes
  }

  /** Everything that recording a passage changes. */
  ghost predicate Written(cfg: Config, reg: Registry, db: Db, after: Db, t: Ticket, started: Instant, clock: Instant,
                          d: Decision, r: IngestResult)
  {
    var x := t.input;
    && after.events == db.events + [CameraEvent(x.controller, x.eventId, x.gate, x.zone, x.plate, x.direction,
                                                x.capturedAt)]
    && after.decisions == db.decisions + [d] && DecidedBy(db, t, clock, d)
    && after.openings == db.openings
    && Spent(db, after, t.engine) && Moved(reg, db, after, x, d)
    && Ordered(cfg, db, after, t, started, clock, d, r.command)
    && after.log == db.log + [Passage(|db.decisions|, d, x.zone, x.direction,
                                      if d.vehicle.Some? then ApartmentOf(reg.links, d.vehicle.value) else None)]
    && r == IngestResult(d.decision, d.status, d.reason, Some(|db.decisions|), r.command, false)
  }

  lemma SettledAsDecided(db: Db, t: Ticket, clock: Instant)
    ensures DecidedBy(db, t, clock, InitialRow(|db.events|, Settle(db, t, clock)))
    ensures Spent(db, db.(passes := Settle(db, t, clock).passes), t.engine)
  {
    assert t.barrier.Some? ==>
             (RecentOpenExists(db.openings, t.barrier.value, t.input.capturedAt)
              <==> OpenedSince(db, t.barrier, t.input.capturedAt));
  }

  lemma SessionsMoved(reg: Registry, db: Db, after: Db, x: Input, s: Settled)
    requires after.sessions == TrackPresence(reg, db.sessions, x, |db.events|, s)
    ensures Moved(reg, db, after, x, InitialRow(|db.events|, s))
  {
    if s.engine.vehicle.Some? && x.zone.Some? {
      var v, z := s.engine.vehicle.value, x.zone.value;
      FoundIsIn(db.sessions, v, z);
      var found := FindOpenSession(db.sessions, v, z);
      if found.None? {
        var row := Session(v, ApartmentOf(reg.links, v), z, x.capturedAt, None, true, Some(|db.events|), None, None,
                               None);
        assert In(row, v, z) && row in db.sessions + [row];
      }
    }
  }

  lemma FoundIsIn(sessions: seq<Session>, v: nat, zone: Id)
    ensures FindOpenSession(sessions, v, zone).Some? <==> IsIn(sessions, v, zone)
    ensures var found := FindOpenSession(sessions, v, zone); found.Some? ==> In(sessions[found.value], v, zone)
  {
    var found := FindOpenSession(sessions, v, zone);
    assert found.Some? ==> sessions[found.value] in sessions;
  }

  /** Recording an accepted passage writes this and nothing else; if its key was stored meanwhile it writes nothing. */
  lemma PassageWritten(cfg: Config, reg: Registry, db: Db, t: Ticket, started: Instant, clock: Instant)
    requires forall c | c in db.commands :: c.decision != Some(|db.decisions|)
    ensures var (after, r) := CommitIngest(cfg, reg, db, t, started, clock);
            if exists e | e in db.events :: e.controller == t.input.controller && e.eventId == t.input.eventId
            then after == db && r.replayed
            else |after.decisions| > |db.decisions|
                 && Written(cfg, reg, db, after, t, started, clock, after.decisions[|db.decisions|], r)
  {
    var found := FindEvent(db.events, t.input.controller, t.input.eventId);
    if found.Some? {
      assert db.events[found.value] in db.events;
    } else {
      var after := RecordPassage(cfg, reg, db, t, started, clock).0;
      RecordedRows(cfg, reg, db, t, started, clock);
      SettledAsDecided(db, t, clock);
      SessionsMoved(reg, db, after, t.input, Settle(db, t, clock));
      assert CommandFor(db.commands, |db.decisions|).None?;
    }
  }

  // ---------------------------------------------------------------- exits

  /** The plate is of vehicle `v`, and of no other that is not archived. */
  predicate PlateOf(reg: Registry, plate: Option<string>, v: nat) {
    && Requests.PlatesUnique(reg.vehicles) && v < |reg.vehicles| && reg.vehicles[v].status != ArchivedVehicle
    && plate == Some(reg.vehicles[v].plate) && reg.vehicles[v].plate != ""
  }

  /** Once an accepted exit of a known plate is recorded, its vehicle is no longer in the zone; nobody else moved. */
  lemma ExitFreesTheSpot(cfg: Config, reg: Registry, seen: Db, db: Db, x: Input, v: nat, z: Id, started: Instant,
                         clock: Instant)
    requires x.direction == Exit && !ForeignClaim(cfg, x) && PlateOf(reg, x.plate, v)
    requires AuthorizeScope(cfg, x).zone == Some(z) && OpenOnce(db.sessions)
    requires BeginIngest(cfg, reg, seen, x).Accepted? && FindEvent(db.events, x.controller, x.eventId).None?
    ensures var after := CommitIngest(cfg, reg, db, BeginIngest(cfg, reg, seen, x).ticket, started, clock).0;
            && !IsIn(after.sessions, v, z)
            && Left(db.sessions, after.sessions, v, z, x.capturedAt, |db.events|)
  {
    AcceptedCarries(cfg, reg, seen, x);
    Requests.HolderFound(reg.vehicles, v);
    var t := BeginIngest(cfg, reg, seen, x).ticket;
    var after := CommitIngest(cfg, reg, db, t, started, clock).0;
    SettledAsDecided(db, t, clock);
    SessionsMoved(reg, db, after, t.input, Settle(db, t, clock));
    LeftIsOut(db.sessions, after.sessions, v, z, x.capturedAt, |db.events|);
  }

  lemma LeftIsOut(before: seq<Session>, after: seq<Session>, v: nat, z: Id, at: Instant, event: nat)
    requires OpenOnce(before) && Left(before, after, v, z, at, event)
    ensures !IsIn(after, v, z)
  {
    if IsIn(before, v, z) {
      var i :| 0 <= i < |before| && In(before[i], v, z)
               && after == before[i := Ended(before[i], at, event)];
      forall k | 0 <= k < |after| ensures !In(after[k], v, z) {
      }
    }
  }

  /** The passage is received and recorded, nothing in between. */
  function Receive(cfg: Config, x: Input, started: Instant, clock: Instant): seq<Step> {
    [BeginIngestStep(x, started), Commit(IngestKey(cfg, x), clock)]
  }

  /** It is accepted now. */
  predicate Receivable(cfg: Config, s: Sys, x: Input) {
    BeginIngest(cfg, s.reg, s.db, x).Accepted? && IngestKey(cfg, x) !in s.held
  }

  lemma PassRuns(cfg: Config, s: Sys, x: Input, started: Instant, clock: Instant)
    requires Receivable(cfg, s, x)
    ensures var after := Run(cfg, s, Receive(cfg, x, started, clock));
            && after.db == CommitIngest(cfg, s.reg, s.db, BeginIngest(cfg, s.reg, s.db, x).ticket, started, clock).0
            && after.reg == s.reg && after.held == s.held
            && FindEvent(s.db.events, x.controller, x.eventId).None?
  {
    var key, t := IngestKey(cfg, x), BeginIngest(cfg, s.reg, s.db, x).ticket;
    RunTwo(cfg, s, BeginIngestStep(x, started), Commit(key, clock));
    assert BeginIngestApply(cfg, s, x, started) == Hold(s, key, Ingesting(t, started));
    assert Hold(s, key, Ingesting(t, started)).held - {key} == s.held;
  }

  /** In every run: a vehicle that is outside the zone, is allowed to enter it and leaves again occupies a spot of
    * its apartment in between, and none afterwards: the occupancy of every apartment is what it was before. */
  lemma EntryThenExit(cfg: Config, reg: Registry, before: seq<Step>, entry: Input, exit: Input, v: nat, z: Id,
                      started: Instant, clock: Instant)
    requires var s := Run(cfg, Start(reg), before);
             && PlateOf(s.reg, exit.plate, v) && !IsIn(s.db.sessions, v, z)
             && Receivable(cfg, s, entry) && Receivable(cfg, Run(cfg, s, Receive(cfg, entry, started, clock)), exit)
             && Lets(cfg, s, entry, v)
    requires entry.direction == Entry && exit.direction == Exit && !ForeignClaim(cfg, exit)
    requires AuthorizeScope(cfg, entry).zone == Some(z) && AuthorizeScope(cfg, exit).zone == Some(z)
    ensures var s := Run(cfg, Start(reg), before);
            var inside := Run(cfg, s, Receive(cfg, entry, started, clock));
            var out := Run(cfg, inside, Receive(cfg, exit, started, clock));
            && IsIn(inside.db.sessions, v, z) && !IsIn(out.db.sessions, v, z)
            && forall a: Id ::
                 && Occupied(inside.db.sessions, a, z)
                    == Occupied(s.db.sessions, a, z) + (if ApartmentOf(s.reg.links, v) == Some(a) then 1 else 0)
                 && Occupied(out.db.sessions, a, z) == Occupied(s.db.sessions, a, z)
  {
    var s := Run(cfg, Start(reg), before);
    var inside := Run(cfg, s, Receive(cfg, entry, started, clock));
    var out := Run(cfg, inside, Receive(cfg, exit, started, clock));
    PresenceAgreesWithJournal(cfg, reg, before);
    EntryComes(cfg, s, entry, v, z, started, clock);
    assert OpenOnce(inside.db.sessions) by {
      RunConcat(cfg, Start(reg), before, Receive(cfg, entry, started, clock));
      PresenceAgreesWithJournal(cfg, reg, before + Receive(cfg, entry, started, clock));
    }
    PassRuns(cfg, s, entry, started, clock);
    PassRuns(cfg, inside, exit, started, clock);
    ExitFreesTheSpot(cfg, inside.reg, inside.db, inside.db, exit, v, z, started, clock);
    var row := Session(v, ApartmentOf(s.reg.links, v), z, entry.capturedAt, None, true, Some(|s.db.events|), None, None,
                       None);
    forall a: Id
      ensures Occupied(inside.db.sessions, a, z)
              == Occupied(s.db.sessions, a, z) + (if ApartmentOf(s.reg.links, v) == Some(a) then 1 else 0)
      ensures Occupied(out.db.sessions, a, z) == Occupied(s.db.sessions, a, z)
    {
      CameAndLeft(s.db.sessions, inside.db.sessions, out.db.sessions, row, exit.capturedAt, |inside.db.events|, a);
    }
  }

  /** The engine allows this entry directly, for vehicle `v`, and it needs no pass. */
  predicate Lets(cfg: Config, s: Sys, x: Input, v: nat) {
    var e := BeginIngest(cfg, s.reg, s.db, x);
    e.Accepted? && e.ticket.engine.decision == Allow && e.ticket.engine.status == Allowed
    && e.ticket.engine.vehicle == Some(v) && e.ticket.engine.pass.None?
  }

  lemma EntryComes(cfg: Config, s: Sys, x: Input, v: nat, z: Id, started: Instant, clock: Instant)
    requires Receivable(cfg, s, x) && Lets(cfg, s, x, v) && x.direction == Entry && !IsIn(s.db.sessions, v, z)
    requires AuthorizeScope(cfg, x).zone == Some(z)
    ensures Run(cfg, s, Receive(cfg, x, started, clock)).db.sessions
         == s.db.sessions + [Session(v, ApartmentOf(s.reg.links, v), z, x.capturedAt, None, true, Some(|s.db.events|),
                                     None, None, None)]
    ensures IsIn(Run(cfg, s, Receive(cfg, x, started, clock)).db.sessions, v, z)
  {
    PassRuns(cfg, s, x, started, clock);
    AcceptedCarries(cfg, s.reg, s.db, x);
    var t := BeginIngest(cfg, s.reg, s.db, x).ticket;
    var after := CommitIngest(cfg, s.reg, s.db, t, started, clock).0;
    SettledAsDecided(s.db, t, clock);
    SessionsMoved(s.reg, s.db, after, t.input, Settle(s.db, t, clock));
  }

  lemma CameAndLeft(before: seq<Session>, inside: seq<Session>, out: seq<Session>, row: Session, at: Instant,
                    event: nat, a: Id)
    requires inside == before + [row] && row.open && !IsIn(before, row.vehicle, row.zone)
    requires Left(inside, out, row.vehicle, row.zone, at, event)
    ensures Occupied(inside, a, row.zone) == Occupied(before, a, row.zone) + (if row.apartment == Some(a) then 1 else 0)
    ensures Occupied(out, a, row.zone) == Occupied(before, a, row.zone)
  {
    var p := (s: Session) => OccupiedBy(s, {a}, row.zone);
    CountOne(before, row, p);
    NewestLeaves(before, inside, out, row, at, event);
    CountUpdate(inside, |before|, Ended(row, at, event), p);
  }

  /** The only session of the vehicle in the zone is the new one, so that is the one that ends. */
  lemma NewestLeaves(before: seq<Session>, inside: seq<Session>, out: seq<Session>, row: Session, at: Instant,
                     event: nat)
    requires inside == before + [row] && row.open && !IsIn(before, row.vehicle, row.zone)
    requires Left(inside, out, row.vehicle, row.zone, at, event)
    ensures out == inside[|before| := Ended(row, at, event)]
  {
    assert inside[|before|] == row && row in inside && In(row, row.vehicle, row.zone);
    var i :| 0 <= i < |inside| && In(inside[i], row.vehicle, row.zone)
             && out == inside[i := Ended(inside[i], at, event)];
    forall k | 0 <= k < |before| ensures !In(inside[k], row.vehicle, row.zone) {
      assert inside[k] == before[k];
    }
  }
}
