/** Leases that overlap. A lease locks the row it selects and passes over rows locked by others, so a lease
  * that is rolled back puts an older command behind a younger one; nothing else does. */
module LeaseRace {
  import opened Common
  import opened Domain
  import opened Outbox

  /** The table with the rows locked by leases in flight. */
  datatype Channel = Channel(commands: seq<Command>, locked: set<nat>)

  datatype Move =
    | BeginLease(controller: Id, now: Instant)
    | CommitLease(index: nat, hash: string, now: Instant)
    | RollbackLease(index: nat)
    | Ack(index: nat, result: Option<string>)
    | AddCommand(command: Command)

  /** The table as a select that skips locked rows sees it. */
  function Visible(c: Channel): (r: seq<Command>)
    ensures |r| == |c.commands|
    ensures forall i :: 0 <= i < |r| ==>
              r[i] == if i in c.locked then c.commands[i].(status := Leased) else c.commands[i]
  {
    seq(|c.commands|, i requires 0 <= i < |c.commands| =>
          if i in c.locked then c.commands[i].(status := Leased) else c.commands[i])
  }

  /** The oldest leasable command that no other lease has locked. */
  function NextUnlocked(c: Channel, controller: Id, now: Instant): (r: Option<nat>)
    ensures r.Some? ==> r.value < |c.commands| && r.value !in c.locked
                        && Leasable(c.commands[r.value], controller, LEASE_TTL, now)
    ensures r.Some? ==> forall i :: 0 <= i < |c.commands| && i !in c.locked
                                    && Leasable(c.commands[i], controller, LEASE_TTL, now)
                                    ==> c.commands[r.value].createdAt <= c.commands[i].createdAt
    ensures r.None? ==> forall i :: 0 <= i < |c.commands| && i !in c.locked
                                    ==> !Leasable(c.commands[i], controller, LEASE_TTL, now)
  {
    var r := NextLeasable(Visible(c), controller, LEASE_TTL, now);
    assert forall i :: 0 <= i < |c.commands| ==>
             Leasable(Visible(c)[i], controller, LEASE_TTL, now)
             == (i !in c.locked && Leasable(c.commands[i], controller, LEASE_TTL, now));
    r
  }

  function Apply(c: Channel, m: Move): Channel {
    match m
    case BeginLease(controller, now) =>
      var i := NextUnlocked(c, controller, now);
      if i.Some? then c.(locked := c.locked + {i.value}) else c
    case CommitLease(i, hash, now) =>
      if i in c.locked && i < |c.commands|
      then Channel(c.commands[i := Lease(c.commands[i], hash, LEASE_TTL, now)], c.locked - {i}) else c
    case RollbackLease(i) => c.(locked := c.locked - {i})
    case Ack(i, result) =>
      if i < |c.commands| && c.commands[i].status == Leased
      then c.(commands := c.commands[i := c.commands[i].(status := Acked, ackResult := result)]) else c
    case AddCommand(command) => c.(commands := c.commands + [command])
  }

  function Run(c: Channel, moves: seq<Move>): Channel {
    if moves == [] then c else Apply(Run(c, moves[..|moves| - 1]), moves[|moves| - 1])
  }

  /** Without overlap a lease takes what the table's oldest leasable command is. */
  lemma AloneIsAtomic(commands: seq<Command>, controller: Id, hash: string, now: Instant)
    ensures var c := Channel(commands, {});
            var i := NextUnlocked(c, controller, now);
            && i == NextLeasable(commands, controller, LEASE_TTL, now)
            && (i.Some? ==> Apply(Apply(c, BeginLease(controller, now)), CommitLease(i.value, hash, now))
                            == Channel(TryLease(commands, controller, hash, LEASE_TTL, now).0, {}))
  {
    assert Visible(Channel(commands, {})) == commands;
  }

  /** A row keeps its owner, age and expiry, and never becomes pending again. */
  ghost predicate Kept(a: Command, b: Command) {
    && b.controller == a.controller && b.createdAt == a.createdAt && b.expiresAt == a.expiresAt
    && (b.status == Pending ==> a.status == Pending)
  }

  lemma {:induction false} RowsKept(c: Channel, moves: seq<Move>, i: nat)
    requires i < |c.commands|
    ensures i < |Run(c, moves).commands| && Kept(c.commands[i], Run(c, moves).commands[i])
  {
    if moves != [] {
      RowsKept(c, moves[..|moves| - 1], i);
    }
  }

  /** A locked row that is not rolled back is not on offer again: it stays locked until it is leased. */
  lemma {:induction false} LockedUntilLeased(c: Channel, moves: seq<Move>, i: nat)
    requires i < |c.commands| && i in c.locked && RollbackLease(i) !in moves
    ensures var after := Run(c, moves);
            i < |after.commands| && (i in after.locked || after.commands[i].status != Pending)
  {
    if moves != [] {
      var front, last := moves[..|moves| - 1], moves[|moves| - 1];
      assert last in moves && forall m :: m in front ==> m in moves;
      LockedUntilLeased(c, front, i);
    }
  }

  /** Two leases of one controller, the later not before the earlier, with anything in between: among commands
    * already in the table at the first, they are taken in creation order and never twice, unless the command
    * taken second had been locked and rolled back in between. */
  lemma LeasesInOrderUnlessRolledBack(c: Channel, controller: Id, now: Instant, moves: seq<Move>, later: Instant)
    requires now <= later
    ensures var a := NextUnlocked(c, controller, now);
            var after := Run(Apply(c, BeginLease(controller, now)), moves);
            var b := NextUnlocked(after, controller, later);
            a.Some? && b.Some? && b.value < |c.commands| && RollbackLease(b.value) !in moves
            ==> a != b && c.commands[a.value].createdAt <= c.commands[b.value].createdAt
  {
    var a := NextUnlocked(c, controller, now);
    var begun := Apply(c, BeginLease(controller, now));
    var b := NextUnlocked(Run(begun, moves), controller, later);
    if a.Some? && b.Some? && b.value < |c.commands| && RollbackLease(b.value) !in moves {
      RowsKept(begun, moves, b.value);
      if b.value in begun.locked {
        LockedUntilLeased(begun, moves, b.value);
      }
      assert Leasable(c.commands[b.value], controller, LEASE_TTL, now);
    }
  }

  /** With the oldest command on offer again and the younger one still locked, the oldest is next. */
  lemma OldestAgain(c: Channel, after: Channel, controller: Id, now: Instant, a: nat, b: nat, later: Instant)
    requires NextUnlocked(c, controller, now) == Some(a) && a != b && now <= later
    requires after.commands == c.commands && after.locked == c.locked + {b}
    requires Leasable(c.commands[a], controller, LEASE_TTL, later)
    ensures var k := NextUnlocked(after, controller, later);
            k.Some? && k.value != b && c.commands[k.value].createdAt == c.commands[a].createdAt
  {
    var k := NextUnlocked(after, controller, later).value;
    assert Leasable(c.commands[k], controller, LEASE_TTL, now);
  }

  /** Commands as in `c`, of which `a` was the oldest on offer: from now on, as long as `a` outlives a lease, a
    * command as old as `a` is next, not `b`. */
  ghost predicate OldestFirst(c: Channel, after: Channel, controller: Id, now: Instant, a: nat, b: nat)
    requires a < |c.commands|
  {
    after.commands == c.commands
    && forall later: Instant :: now <= later && Leasable(c.commands[a], controller, LEASE_TTL, later) ==>
         exists k: nat :: NextUnlocked(after, controller, later) == Some(k) && k != b && k < |c.commands|
                          && c.commands[k].createdAt == c.commands[a].createdAt
  }

  lemma OldestIsFirst(c: Channel, after: Channel, controller: Id, now: Instant, a: nat, b: nat)
    requires NextUnlocked(c, controller, now) == Some(a) && a != b
    requires after == c.(locked := c.locked + {b})
    ensures OldestFirst(c, after, controller, now, a, b)
  {
    forall later: Instant | now <= later && Leasable(c.commands[a], controller, LEASE_TTL, later)
      ensures exists k: nat :: NextUnlocked(after, controller, later) == Some(k) && k != b && k < |c.commands|
                               && c.commands[k].createdAt == c.commands[a].createdAt
    {
      OldestAgain(c, after, controller, now, a, b, later);
    }
  }

  /** Of two commands on offer two leases take the oldest first. */
  lemma TwoTaken(c: Channel, controller: Id, now: Instant, i: nat, j: nat) returns (a: nat, b: nat)
    requires i != j && i < |c.commands| && j < |c.commands| && i !in c.locked && j !in c.locked
    requires Leasable(c.commands[i], controller, LEASE_TTL, now) && Leasable(c.commands[j], controller, LEASE_TTL, now)
    ensures NextUnlocked(c, controller, now) == Some(a) && a !in c.locked
    ensures NextUnlocked(c.(locked := c.locked + {a}), controller, now) == Some(b)
    ensures a < |c.commands| && b < |c.commands| && a != b && c.commands[a].createdAt <= c.commands[b].createdAt
  {
    a := NextUnlocked(c, controller, now).value;
    var begun := c.(locked := c.locked + {a});
    assert (if a == i then j else i) !in begun.locked;
    b := NextUnlocked(begun, controller, now).value;
  }

  /** And a rollback does invert the order, wherever a controller has two commands on offer: while the oldest is
    * locked a second lease takes a younger one, and after the rollback a third takes the oldest again. */
  lemma RollbackInvertsTheOrder(c: Channel, controller: Id, now: Instant, i: nat, j: nat) returns (a: nat, b: nat)
    requires i != j && i < |c.commands| && j < |c.commands| && i !in c.locked && j !in c.locked
    requires Leasable(c.commands[i], controller, LEASE_TTL, now) && Leasable(c.commands[j], controller, LEASE_TTL, now)
    ensures NextUnlocked(c, controller, now) == Some(a)
    ensures NextUnlocked(Apply(c, BeginLease(controller, now)), controller, now) == Some(b)
    ensures a < |c.commands| && b < |c.commands| && a != b && c.commands[a].createdAt <= c.commands[b].createdAt
    ensures OldestFirst(c, Run(c, [BeginLease(controller, now), BeginLease(controller, now), RollbackLease(a)]),
                        controller, now, a, b)
  {
    a, b := TwoTaken(c, controller, now, i, j);
    var after := ThreeMoves(c, BeginLease(controller, now), BeginLease(controller, now), RollbackLease(a));
    assert c.locked + {a} + {b} - {a} == c.locked + {b};
    OldestIsFirst(c, c.(locked := c.locked + {b}), controller, now, a, b);
  }

  lemma ThreeMoves(c: Channel, first: Move, second: Move, third: Move) returns (after: Channel)
    ensures after == Run(c, [first, second, third]) == Apply(Apply(Apply(c, first), second), third)
  {
    assert [first, second, third][..2] == [first, second] && [first, second][..1] == [first] && [first][..0] == [];
    assert Run(c, [first]) == Apply(Run(c, []), first);
    assert Run(c, [first, second]) == Apply(Run(c, [first]), second);
    after := Run(c, [first, second, third]);
  }
}
