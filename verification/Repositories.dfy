/** The tables as the repositories change them: rows appended, or updated where a condition holds. */
module Repositories {
  import opened Common
  import opened Domain
  import opened Engine
  import opened Queries
  import opened Transactions
  import opened Outbox

  class Tables {
    var events: seq<CameraEvent>
    var decisions: seq<Decision>
    var commands: seq<Command>
    var openings: seq<Opening>
    var passes: seq<Pass>
    var sessions: seq<Session>
    var log: seq<LogEntry>

    /** The contents as one value. */
    function Contents(): Db reads this {
      Db(events, decisions, commands, openings, passes, sessions, log)
    }

    constructor ()
      ensures Contents() == EMPTY_DB
    {
      events, decisions, commands, openings, passes, sessions, log := [], [], [], [], [], [], [];
    }

    /** Insert an event unless its key is taken. */
    method InsertIdempotent(x: Input) returns (id: Option<nat>)
      modifies this`events
      ensures id.None? <==> FindEvent(old(events), x.controller, x.eventId).Some?
      ensures id.None? ==> events == old(events)
      ensures id.Some? ==> id.value == |old(events)| && events == old(events) + [ToEvent(x)]
    {
      if FindEvent(events, x.controller, x.eventId).Some? {
        return None;
      }
      events := events + [ToEvent(x)];
      id := Some(|events| - 1);
    }

    method InsertInitial(event: nat, engine: EngineDecision, status: DecisionStatus, deadline: Option<Instant>)
      returns (id: nat)
      modifies this`decisions
      ensures id == |old(decisions)| && |decisions| == id + 1 && decisions[..id] == old(decisions)
      ensures decisions[id] == InitialRow(event, Settled(engine, status, deadline, passes))
    {
      var row := Decision(event, None, engine.decision, status, engine.reason, engine.vehicle, engine.pass, deadline,
                          None);
      decisions := decisions + [row];
      id := |decisions| - 1;
    }

    /** Append the row that supersedes `current`. */
    method InsertTransition(current: nat, status: DecisionStatus, decision: DecisionType, who: Option<Id>)
      returns (id: nat)
      requires current < |decisions|
      modifies this`decisions
      ensures id == |old(decisions)|
      ensures decisions == old(decisions) + [Transition(old(decisions), current, decision, status, who)]
    {
      var row := decisions[current];
      decisions := decisions + [Decision(row.event, Some(current), decision, status, row.reason, row.vehicle, row.pass,
                                         None, who)];
      id := |decisions| - 1;
    }

    /** Create an opening command, once for each decision. */
    method CreateOpenCommand(controller: Id, barrier: Id, decision: Option<nat>, started: Instant, expires: Instant)
      returns (out: CommandOut)
      modifies this`commands
      ensures (commands, out)
           == Transactions.CreateOpenCommand(old(commands), controller, barrier, decision, started, expires)
    {
      if decision.Some? {
        var existing := CommandFor(commands, decision.value);
        if existing.Some? {
          var row := commands[existing.value];
          return CommandOut(existing.value, row.barrier, row.expiresAt);
        }
      }
      commands := commands + [NewCommand(controller, barrier, decision, started, expires)];
      out := CommandOut(|commands| - 1, barrier, Some(expires));
    }

    method InsertOpening(opening: Opening) returns (id: nat)
      modifies this`openings
      ensures id == |old(openings)| && openings == old(openings) + [opening]
    {
      openings := openings + [opening];
      id := |openings| - 1;
    }

    method Journal(entry: LogEntry)
      modifies this`log
      ensures log == old(log) + [entry]
    {
      log := log + [entry];
    }

    /** Spend one entry if the pass still has one; say whether it did. */
    method ConsumeTaxiEntry(p: nat) returns (ok: bool)
      modifies this`passes
      ensures ok <==> ConsumeTaxi(old(passes), p).Some?
      ensures passes == if ok then ConsumeTaxi(old(passes), p).value else old(passes)
    {
      ok := p < |passes| && passes[p].usedEntries < passes[p].maxEntries;
      if ok {
        var used := passes[p].usedEntries + 1;
        var status := if used >= passes[p].maxEntries then UsedPass else passes[p].status;
        passes := passes[p := passes[p].(usedEntries := used, status := status)];
      }
    }

    /** Spend one entry of an active pass. */
    method SpendGuestEntry(p: nat) returns (ok: bool)
      modifies this`passes
      ensures ok <==> p < |old(passes)| && old(passes)[p].status == ActivePass
                      && old(passes)[p].usedEntries < old(passes)[p].maxEntries
      ensures passes == if ok then old(passes)[p := Spend(old(passes)[p])] else old(passes)
    {
      ok := p < |passes| && passes[p].status == ActivePass && passes[p].usedEntries < passes[p].maxEntries;
      if ok {
        var used := passes[p].usedEntries + 1;
        var status := if used >= passes[p].maxEntries then UsedPass else passes[p].status;
        passes := passes[p := passes[p].(usedEntries := used, status := status)];
      }
    }

    /** Start a session unless the vehicle already has one in the zone. */
    method OpenSession(vehicle: nat, apartment: Option<Id>, zone: Id, at: Instant, event: nat)
      returns (id: Option<nat>)
      modifies this`sessions
      ensures sessions == Transactions.OpenSession(old(sessions), vehicle, apartment, zone, at, event)
      ensures id.Some? <==> |sessions| == |old(sessions)| + 1
    {
      if FindOpenSession(sessions, vehicle, zone).Some? {
        return None;
      }
      sessions := sessions + [Session(vehicle, apartment, zone, at, None, true, Some(event), None, None, None)];
      id := Some(|sessions| - 1);
    }

    /** End the vehicle's session in the zone, if it has one. */
    method CloseOpenSession(vehicle: nat, zone: Id, at: Instant, event: nat) returns (id: Option<nat>)
      modifies this`sessions
      ensures sessions == EndSession(old(sessions), vehicle, zone, at, event)
      ensures id == FindOpenSession(old(sessions), vehicle, zone)
    {
      id := FindOpenSession(sessions, vehicle, zone);
      if id.Some? {
        var s := sessions[id.value];
        sessions := sessions[id.value := s.(open := false, exitedAt := Some(at), exitEvent := Some(event),
                                            closeReason := Some("exit_event"))];
      }
    }

    /** Close a session by hand if it is still open. */
    method CloseSessionManual(session: nat, operator: Id, reason: string, at: Instant) returns (closed: bool)
      modifies this`sessions
      ensures closed <==> session < |old(sessions)| && old(sessions)[session].open
      ensures !closed ==> sessions == old(sessions)
      ensures closed ==> sessions == old(sessions)[session := old(sessions)[session].(
                           open := false, exitedAt := Some(at), closedBy := Some(operator),
                           closeReason := Some(reason))]
    {
      closed := session < |sessions| && sessions[session].open;
      if closed {
        var s := sessions[session];
        sessions := sessions[session := s.(open := false, exitedAt := Some(at), closedBy := Some(operator),
                                           closeReason := Some(reason))];
      }
    }
  }
}
