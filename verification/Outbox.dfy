/** The durable command channel: an atomic lease and a compare-and-set acknowledgement. */
module Outbox {
  import opened Common
  import opened Domain

  const LEASE_TTL: int := 30 * SECOND

  /** The command may be leased: it is pending and will not expire during the lease. */
  predicate Leasable(c: Command, controller: Id, ttl: int, now: Instant) {
    c.controller == controller && c.status == Pending && (c.expiresAt.None? || now + ttl < c.expiresAt.value)
  }

  /** The oldest leasable command of a controller. */
  function NextLeasable(commands: seq<Command>, controller: Id, ttl: int, now: Instant): (r: Option<nat>)
    ensures r.Some? ==> r.value < |commands| && Leasable(commands[r.value], controller, ttl, now)
    ensures r.Some? ==> forall i :: 0 <= i < |commands| && Leasable(commands[i], controller, ttl, now)
                                    ==> commands[r.value].createdAt <= commands[i].createdAt
    ensures r.None? ==> forall i :: 0 <= i < |commands| ==> !Leasable(commands[i], controller, ttl, now)
  {
    if commands == [] then None
    else
      var n := |commands| - 1;
      var best := NextLeasable(commands[..n], controller, ttl, now);
      if Leasable(commands[n], controller, ttl, now)
         && (best.None? || commands[n].createdAt < commands[best.value].createdAt)
      then Some(n) else best
  }

  function Lease(c: Command, hash: string, ttl: int, now: Instant): Command {
    c.(status := Leased, leaseToken := Some(hash), leaseExpiresAt := Some(now + ttl), attempts := c.attempts + 1)
  }

  /** Lease the oldest leasable command under the hash of a fresh token. */
  function TryLease(commands: seq<Command>, controller: Id, hash: string, ttl: int, now: Instant)
    : (seq<Command>, Option<nat>)
  {
    match NextLeasable(commands, controller, ttl, now)
    case None => (commands, None)
    case Some(i) => (commands[i := Lease(commands[i], hash, ttl, now)], Some(i))
  }

  datatype AckOutcome = Acknowledged(result: Option<string>, replayed: bool) | AckConflict

  /** Acknowledge under the hash of the presented token; a repeat returns the saved result. */
  function Acknowledge(commands: seq<Command>, controller: Id, command: nat, hash: string, result: Option<string>)
    : (seq<Command>, AckOutcome)
  {
    if command >= |commands| || commands[command].controller != controller
       || commands[command].leaseToken != Some(hash)
    then (commands, AckConflict)
    else if commands[command].status == Leased
    then (commands[command := commands[command].(status := Acked, ackResult := result)], Acknowledged(result, false))
    else if commands[command].status == Acked
    then (commands, Acknowledged(commands[command].ackResult, true))
    else (commands, AckConflict)
  }
}
