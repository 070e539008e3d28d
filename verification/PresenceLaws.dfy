/** Presence sessions agree with the journal. */
module PresenceLaws {
  import opened Common
  import opened Domain
  import opened Engine
  import opened Queries
  import opened Transactions
  import opened System

  // ---------------------------------------------------------------- sessions are a fold of the journal

  type Pair = (nat, Id)

  /** The effect of one journal entry on who is inside: an allowed exit or a manual close removes the
    * vehicle from the zone, a directly allowed entry adds it; nothing else counts. */
  function Effect(inside: set<Pair>, e: LogEntry): set<Pair> {
    match e
    case Passage(_, row, zone, direction, _) =>
      if row.decision != Allow || row.vehicle.None? || zone.None? then inside
      else if direction == Exit then inside - {(row.vehicle.value, zone.value)}
      else if row.status == Allowed then inside + {(row.vehicle.value, zone.value)}
      else inside
    case PresenceClosed(_, vehicle, zone, _) => inside - {(vehicle, zone)}
    case _ => inside
  }

  function Inside(log: seq<LogEntry>): set<Pair> {
    if log == [] then {} else Effect(Inside(log[..|log| - 1]), log[|log| - 1])
  }

  /** A vehicle has at most one open session in a zone. */
  ghost predicate OpenOnce(sessions: seq<Session>) {
    forall i, j :: 0 <= i < j < |sessions| && sessions[i].open && sessions[j].open ==>
      sessions[i].vehicle != sessions[j].vehicle || sessions[i].zone != sessions[j].zone
  }

  predicate HasOpen(sessions: seq<Session>, pair: Pair) {
    exists s | s in sessions :: OpenFor(s, pair.0, pair.1)
  }

  ghost predicate PresenceOk(db: Db) {
    OpenOnce(db.sessions) && forall pair: Pair :: pair in Inside(db.log) <==> HasOpen(db.sessions, pair)
  }

  lemma InsideSnoc(log: seq<LogEntry>, e: LogEntry)
    ensures Inside(log + [e]) == Effect(Inside(log), e)
  {
    assert (log + [e])[..|log + [e]| - 1] == log;
  }

  /** Ending session `i` removes exactly its pair. */
  lemma SessionEnded(sessions: seq<Session>, i: nat, s: Session)
    requires OpenOnce(sessions) && i < |sessions| && sessions[i].open
    requires !s.open && s.vehicle == sessions[i].vehicle && s.zone == sessions[i].zone
    ensures OpenOnce(sessions[i := s])
    ensures forall pair: Pair :: HasOpen(sessions[i := s], pair)
              <==> HasOpen(sessions, pair) && pair != (sessions[i].vehicle, sessions[i].zone)
  {
    var after := sessions[i := s];
    forall pair: Pair
      ensures HasOpen(after, pair) <==> HasOpen(sessions, pair) && pair != (sessions[i].vehicle, sessions[i].zone)
    {
      if HasOpen(sessions, pair) && pair != (sessions[i].vehicle, sessions[i].zone) {
        var x :| x in sessions && OpenFor(x, pair.0, pair.1);
        var k :| 0 <= k < |sessions| && sessions[k] == x;
        assert after[k] == x;
      }
      if HasOpen(after, pair) {
        var x :| x in after && OpenFor(x, pair.0, pair.1);
        var k :| 0 <= k < |after| && after[k] == x;
        assert k != i && sessions[k] == x;
      }
    }
  }

  lemma SessionStarted(sessions: seq<Session>, s: Session)
    requires OpenOnce(sessions) && s.open && !HasOpen(sessions, (s.vehicle, s.zone))
    ensures OpenOnce(sessions + [s])
    ensures forall pair: Pair :: HasOpen(sessions + [s], pair)
              <==> HasOpen(sessions, pair) || pair == (s.vehicle, s.zone)
  {
    var after := sessions + [s];
    assert after[|sessions|] == s && s in after;
    forall pair: Pair | HasOpen(sessions, pair) ensures HasOpen(after, pair) {
      var x :| x in sessions && OpenFor(x, pair.0, pair.1);
      assert x in after;
    }
    forall i | 0 <= i < |sessions| && sessions[i].open
      ensures sessions[i].vehicle != s.vehicle || sessions[i].zone != s.zone
    {
      assert sessions[i] in sessions;
    }
  }

  lemma FoundMeansOpen(sessions: seq<Session>, vehicle: nat, zone: Id)
    ensures FindOpenSession(sessions, vehicle, zone).Some? <==> HasOpen(sessions, (vehicle, zone))
  {
    var r := FindOpenSession(sessions, vehicle, zone);
    if r.Some? {
      assert sessions[r.value] in sessions;
    }
  }

  /** What a passage does to the sessions is its journal entry's effect. */
  lemma PassageTracked(reg: Registry, db: Db, x: Input, event: nat, s: Settled, entry: LogEntry)
    requires PresenceOk(db)
    requires entry.Passage? && entry.row == InitialRow(event, s)
    requires entry.zone == x.zone && entry.direction == x.direction
    ensures PresenceOk(db.(sessions := TrackPresence(reg, db.sessions, x, event, s), log := db.log + [entry]))
  {
    InsideSnoc(db.log, entry);
    if s.engine.decision == Allow && s.engine.vehicle.Some? && x.zone.Some? {
      var v, z := s.engine.vehicle.value, x.zone.value;
      if x.direction == Exit {
        ExitTracked(db.sessions, v, z, x.capturedAt, event);
      } else if s.status == Allowed {
        EntryTracked(reg, db.sessions, v, z, x.capturedAt, event);
      }
    }
  }

  lemma ExitTracked(sessions: seq<Session>, v: nat, z: Id, at: Instant, event: nat)
    requires OpenOnce(sessions)
    ensures var after := EndSession(sessions, v, z, at, event);
            && OpenOnce(after)
            && forall pair: Pair :: HasOpen(after, pair) <==> HasOpen(sessions, pair) && pair != (v, z)
  {
    FoundMeansOpen(sessions, v, z);
    var found := FindOpenSession(sessions, v, z);
    if found.Some? {
      SessionEnded(sessions, found.value, EndSession(sessions, v, z, at, event)[found.value]);
    }
  }

  lemma EntryTracked(reg: Registry, sessions: seq<Session>, v: nat, z: Id, at: Instant, event: nat)
    requires OpenOnce(sessions)
    ensures var after := OpenSession(sessions, v, ApartmentOf(reg.links, v), z, at, event);
            && OpenOnce(after)
            && forall pair: Pair :: HasOpen(after, pair) <==> HasOpen(sessions, pair) || pair == (v, z)
  {
    FoundMeansOpen(sessions, v, z);
    if FindOpenSession(sessions, v, z).None? {
      SessionStarted(sessions, Session(v, ApartmentOf(reg.links, v), z, at, None, true, Some(event), None, None, None));
    }
  }

  lemma OtherEntry(db: Db, after: Db, entry: LogEntry)
    requires PresenceOk(db) && !entry.Passage? && !entry.PresenceClosed?
    requires after.sessions == db.sessions && after.log == db.log + [entry]
    ensures PresenceOk(after)
  {
    InsideSnoc(db.log, entry);
  }

  lemma CommitTracked(cfg: Config, reg: Registry, db: Db, t: Txn, clock: Instant)
    requires PresenceOk(db)
    ensures PresenceOk(CommitDb(cfg, reg, db, t, clock).0)
  {
    var after := CommitDb(cfg, reg, db, t, clock).0;
    match t
    case Ingesting(ticket, started) =>
      if FindEvent(db.events, ticket.input.controller, ticket.input.eventId).None? {
        PassageTracked(reg, db, ticket.input, |db.events|, Settle(db, ticket, clock), after.log[|db.log|]);
      }
    case Resolving(r, plan, current, started) =>
      if current < |db.decisions| {
        OtherEntry(db, after, after.log[|db.log|]);
      }
    case Expiring(i) =>
      if i < |db.decisions| {
        OtherEntry(db, after, after.log[|db.log|]);
      }
    case OpeningBarrier(r, controller, gate, overdue, started) =>
      if after.log != db.log {
        OtherEntry(db, after, after.log[|db.log|]);
      }
    case Redeeming(r, p, barrier, controller, started) =>
      if after.log != db.log {
        OtherEntry(db, after, after.log[|db.log|]);
      }
  }

  lemma CloseTracked(db: Db, session: nat, operator: Id, reason: string, now: Instant)
    requires PresenceOk(db)
    ensures PresenceOk(ClosePresence(db, session, operator, reason, now).0)
  {
    if session < |db.sessions| && db.sessions[session].open {
      var after := ClosePresence(db, session, operator, reason, now).0;
      InsideSnoc(db.log, after.log[|db.log|]);
      SessionEnded(db.sessions, session, after.sessions[session]);
    }
  }

  lemma PresenceStep(cfg: Config, s: Sys, step: Step)
    requires PresenceOk(s.db)
    ensures PresenceOk(Apply(cfg, s, step).db)
  {
    match step
    case Commit(key, clock) =>
      if key in s.held {
        CommitTracked(cfg, s.reg, s.db, s.held[key], clock);
      }
    case CloseSessionStep(i, operator, reason, now) => CloseTracked(s.db, i, operator, reason, now);
    case _ => assert Apply(cfg, s, step).db.sessions == s.db.sessions && Apply(cfg, s, step).db.log == s.db.log;
  }

  /** In every reachable state a vehicle has at most one open session per zone, and the open sessions
    * are exactly the journal's fold. */
  lemma {:induction false} PresenceAgreesWithJournal(cfg: Config, reg: Registry, steps: seq<Step>)
    ensures PresenceOk(Run(cfg, Start(reg), steps).db)
  {
    if steps != [] {
      PresenceAgreesWithJournal(cfg, reg, steps[..|steps| - 1]);
      PresenceStep(cfg, Run(cfg, Start(reg), steps[..|steps| - 1]), steps[|steps| - 1]);
    }
  }

  /** Session `i` exists and is closed. */
  predicate ClosedAt(sessions: seq<Session>, i: nat) {
    i < |sessions| && !sessions[i].open
  }

  lemma ClosedByStep(cfg: Config, s: Sys, step: Step, i: nat)
    requires ClosedAt(s.db.sessions, i)
    ensures ClosedAt(Apply(cfg, s, step).db.sessions, i)
  {
    match step
    case Commit(key, clock) =>
    case _ =>
  }

  /** A session once closed stays closed: what a request read before its update still holds. */
  lemma {:induction false} ClosedStaysClosed(cfg: Config, s: Sys, steps: seq<Step>, i: nat)
    requires ClosedAt(s.db.sessions, i)
    ensures ClosedAt(Run(cfg, s, steps).db.sessions, i)
  {
    if steps != [] {
      ClosedStaysClosed(cfg, s, steps[..|steps| - 1], i);
      ClosedByStep(cfg, Run(cfg, s, steps[..|steps| - 1]), steps[|steps| - 1], i);
    }
  }

  /** Closing by hand ends an open session with the operator's name, time and reason and writes one audit row; it
    * repeats for a closed one and refuses an unknown one, and then changes nothing. */
  lemma CloseWrites(db: Db, session: nat, operator: Id, reason: string, now: Instant)
    ensures var (after, outcome) := ClosePresence(db, session, operator, reason, now);
            if session >= |db.sessions| then after == db && outcome == SessionNotFound
            else if !db.sessions[session].open then after == db && outcome == Closed(true)
            else
              var s := db.sessions[session];
              var shown := if |reason| <= 32 then reason else reason[..32];
              && outcome == Closed(false)
              && after.sessions
                 == db.sessions[session := Session(s.vehicle, s.apartment, s.zone, s.enteredAt, Some(now), false,
                                                   s.entryEvent, s.exitEvent, Some(operator), Some(shown))]
              && after.log == db.log + [PresenceClosed(session, s.vehicle, s.zone, operator)]
              && after.events == db.events && after.decisions == db.decisions && after.commands == db.commands
              && after.openings == db.openings && after.passes == db.passes
  {
    assert |reason| <= 32 ==> reason[..|reason|] == reason;
  }
}
