/** The order of rows does not matter to the engine, and exactly where it would.
  *
  * The engine's queries have no order except for taxi passes, which come newest first. Rows a query
  * may return in any order must not change the answer.
  */
module EngineOrder {
  import opened Common
  import opened Domain
  import opened Engine
  import opened Requests

  // ---------------------------------------------------------------- counting

  lemma SameMembers<T>(a: seq<T>, b: seq<T>)
    requires multiset(a) == multiset(b)
    ensures |a| == |b| && forall x :: x in a <==> x in b
  {
    assert |multiset(a)| == |a| && |multiset(b)| == |b|;
    forall x ensures x in a <==> x in b {
      assert x in multiset(a) <==> x in multiset(b);
    }
  }

  /** Rows counted in another order. */
  lemma {:induction false} CountReordered<T>(a: seq<T>, b: seq<T>, p: T -> bool)
    requires multiset(a) == multiset(b)
    ensures Count(a, p) == Count(b, p)
    decreases |a|
  {
    SameMembers(a, b);
    if a != [] {
      var n := |a| - 1;
      assert a == a[..n] + [a[n]];
      assert a[n] in b;
      var k :| 0 <= k < |b| && b[k] == a[n];
      var front, back := b[..k], b[k + 1..];
      assert b == front + [b[k]] + back;
      assert multiset(a[..n]) == multiset(a) - multiset{a[n]};
      assert multiset(front + [b[k]] + back) == multiset(front) + multiset{b[k]} + multiset(back);
      assert multiset(front + back) == multiset(b) - multiset{a[n]};
      CountReordered(a[..n], front + back, p);
      CountAppend(front, back, p);
      CountAppend(front + [b[k]], back, p);
      CountOne(front, b[k], p);
    }
  }

  /** Rows counted under other names. */
  lemma {:induction false} CountRenamed<T>(a: seq<T>, b: seq<T>, p: T -> bool, q: T -> bool)
    requires |a| == |b| && forall i :: 0 <= i < |a| ==> p(a[i]) == q(b[i])
    ensures Count(a, p) == Count(b, q)
  {
    if a != [] {
      CountRenamed(a[..|a| - 1], b[..|b| - 1], p, q);
    }
  }

  // ---------------------------------------------------------------- links, rules, assignments, sessions

  /** The same rows in another order; vehicles, zones and spots are as they were. */
  ghost predicate SameRows(reg: Registry, other: Registry) {
    && multiset(other.links) == multiset(reg.links) && multiset(other.rules) == multiset(reg.rules)
    && multiset(other.assignments) == multiset(reg.assignments)
    && other.vehicles == reg.vehicles && other.zones == reg.zones && other.spots == reg.spots
    && other.served == reg.served
  }

  lemma AssignedReordered(reg: Registry, other: Registry, sessions: seq<Session>, others: seq<Session>, v: nat,
                          apartments: set<Id>, zone: Id, at: Instant)
    requires SameRows(reg, other) && multiset(others) == multiset(sessions)
    ensures DecideAssigned(other, others, v, apartments, zone, at)
         == DecideAssigned(reg, sessions, v, apartments, zone, at)
  {
    SameMembers(other.assignments, reg.assignments);
    CountReordered(others, sessions, (s: Session) => OccupiedBy(s, apartments, zone));
    CountReordered(other.assignments, reg.assignments, (a: Assignment) => Holds(reg, a, apartments, zone, at));
    CountCongruent(other.assignments, (a: Assignment) => Holds(other, a, apartments, zone, at),
                   (a: Assignment) => Holds(reg, a, apartments, zone, at));
  }

  lemma SharedReordered(reg: Registry, other: Registry, v: nat, apartments: set<Id>, zone: Id, cap: Option<int>,
                        at: Instant)
    requires SameRows(reg, other)
    ensures DecideShared(other, v, apartments, zone, cap, at) == DecideShared(reg, v, apartments, zone, cap, at)
  {
    forall a: Id ensures ActiveVehicles(other, a, at) == ActiveVehicles(reg, a, at) {
      CountReordered(other.links, reg.links, (l: Link) => CountsForCap(reg, l, a, at));
      CountCongruent(other.links, (l: Link) => CountsForCap(other, l, a, at),
                     (l: Link) => CountsForCap(reg, l, a, at));
    }
  }

  /** The order of links, rules, assignments and sessions never changes an answer. */
  lemma RowOrderIrrelevant(reg: Registry, other: Registry, passes: seq<Pass>, sessions: seq<Session>,
                           others: seq<Session>, d: EngineInput, threshold: real)
    requires SameRows(reg, other) && multiset(others) == multiset(sessions)
    ensures Decide(other, passes, others, d, threshold) == Decide(reg, passes, sessions, d, threshold)
  {
    var found := FindVehicle(reg.vehicles, d.plate);
    if found.Some? {
      var v := found.value;
      SameMembers(other.links, reg.links);
      SameMembers(other.rules, reg.rules);
      var apartments := ActiveApartments(reg, v, d.capturedAt);
      assert ActiveApartments(other, v, d.capturedAt) == apartments;
      if d.zone.Some? && d.zone.value in reg.zones {
        AssignedReordered(reg, other, sessions, others, v, apartments, d.zone.value, d.capturedAt);
        SharedReordered(reg, other, v, apartments, d.zone.value, reg.zones[d.zone.value].cap, d.capturedAt);
      }
    }
  }

  // ---------------------------------------------------------------- vehicles

  /** `p` sends every old position below `n` to its new one, `q` back. */
  ghost predicate Renumbering(p: seq<nat>, q: seq<nat>, n: nat) {
    && |p| == n && |q| == n
    && (forall i :: 0 <= i < n ==> p[i] < n && q[p[i]] == i)
    && (forall j :: 0 <= j < n ==> q[j] < n && p[q[j]] == j)
  }

  function Renumber(p: seq<nat>, i: nat): nat {
    if i < |p| then p[i] else i
  }

  function RenumberOption(p: seq<nat>, i: Option<nat>): Option<nat> {
    if i.Some? then Some(Renumber(p, i.value)) else None
  }

  /** The registry with its vehicles at new positions; links and rules follow them. */
  function MoveVehicles(reg: Registry, p: seq<nat>, q: seq<nat>): Registry
    requires |q| == |reg.vehicles| && forall j :: 0 <= j < |q| ==> q[j] < |reg.vehicles|
  {
    reg.(vehicles := seq(|q|, j requires 0 <= j < |q| => reg.vehicles[q[j]]),
         links := seq(|reg.links|, i requires 0 <= i < |reg.links| =>
                        reg.links[i].(vehicle := Renumber(p, reg.links[i].vehicle))),
         rules := seq(|reg.rules|, i requires 0 <= i < |reg.rules| =>
                        reg.rules[i].(vehicle := RenumberOption(p, reg.rules[i].vehicle))))
  }

  lemma RenumberInjective(p: seq<nat>, q: seq<nat>, n: nat, i: nat, j: nat)
    requires Renumbering(p, q, n) && i < n
    ensures Renumber(p, j) == p[i] <==> j == i
  {
    assert j < n ==> q[p[j]] == j;
    assert q[p[i]] == i;
  }

  lemma HolderMoves(reg: Registry, p: seq<nat>, q: seq<nat>, plate: string)
    requires Renumbering(p, q, |reg.vehicles|) && PlatesUnique(reg.vehicles)
    ensures FindVehicle(MoveVehicles(reg, p, q).vehicles, plate)
         == RenumberOption(p, FindVehicle(reg.vehicles, plate))
  {
    var moved := MoveVehicles(reg, p, q).vehicles;
    var found, there := FindVehicle(reg.vehicles, plate), FindVehicle(moved, plate);
    assert there.Some? ==> moved[there.value] == reg.vehicles[q[there.value]];
    if found.Some? {
      var v := found.value;
      assert q[p[v]] == v && moved[p[v]] == reg.vehicles[v];
      assert there.Some? && p[q[there.value]] == there.value;
      OneHolder(reg.vehicles, v, q[there.value]);
    }
  }

  lemma OneHolder(vehicles: seq<Vehicle>, v: nat, w: nat)
    requires PlatesUnique(vehicles) && v < |vehicles| && w < |vehicles| && vehicles[v].plate == vehicles[w].plate
    requires vehicles[v].status != ArchivedVehicle && vehicles[w].status != ArchivedVehicle
    ensures v == w
  {
  }

  lemma MovedApartments(reg: Registry, p: seq<nat>, q: seq<nat>, v: nat, at: Instant)
    requires Renumbering(p, q, |reg.vehicles|) && v < |reg.vehicles|
    ensures ActiveApartments(MoveVehicles(reg, p, q), p[v], at) == ActiveApartments(reg, v, at)
  {
    var moved := MoveVehicles(reg, p, q);
    forall i | 0 <= i < |reg.links| ensures LinkActive(moved.links[i], p[v], at) == LinkActive(reg.links[i], v, at) {
      RenumberInjective(p, q, |reg.vehicles|, v, reg.links[i].vehicle);
    }
    forall a | a in ActiveApartments(reg, v, at) ensures a in ActiveApartments(moved, p[v], at) {
      var l :| l in reg.links && LinkActive(l, v, at) && l.apartment == a;
      var i :| 0 <= i < |reg.links| && reg.links[i] == l;
      assert moved.links[i] in moved.links;
    }
    forall a | a in ActiveApartments(moved, p[v], at) ensures a in ActiveApartments(reg, v, at) {
      var l :| l in moved.links && LinkActive(l, p[v], at) && l.apartment == a;
      var i :| 0 <= i < |moved.links| && moved.links[i] == l;
      assert reg.links[i] in reg.links;
    }
  }

  lemma MovedRules(reg: Registry, p: seq<nat>, q: seq<nat>, v: nat, apartments: set<Id>, d: EngineInput)
    requires Renumbering(p, q, |reg.vehicles|) && v < |reg.vehicles|
    ensures ZoneRuleMatches(MoveVehicles(reg, p, q).rules, p[v], apartments, d.zone, d.direction, d.capturedAt)
         == ZoneRuleMatches(reg.rules, v, apartments, d.zone, d.direction, d.capturedAt)
  {
    var moved := MoveVehicles(reg, p, q);
    forall i | 0 <= i < |reg.rules|
      ensures RuleGrants(moved.rules[i], p[v], apartments, d.zone, d.direction, d.capturedAt)
           == RuleGrants(reg.rules[i], v, apartments, d.zone, d.direction, d.capturedAt)
    {
      if reg.rules[i].vehicle.Some? {
        RenumberInjective(p, q, |reg.vehicles|, v, reg.rules[i].vehicle.value);
      }
    }
    if r :| r in reg.rules && RuleGrants(r, v, apartments, d.zone, d.direction, d.capturedAt) {
      var i :| 0 <= i < |reg.rules| && reg.rules[i] == r;
      assert moved.rules[i] in moved.rules;
    }
    if r :| r in moved.rules && RuleGrants(r, p[v], apartments, d.zone, d.direction, d.capturedAt) {
      var i :| 0 <= i < |moved.rules| && moved.rules[i] == r;
      assert reg.rules[i] in reg.rules;
    }
  }

  lemma MovedCounts(reg: Registry, p: seq<nat>, q: seq<nat>, apartment: Id, at: Instant)
    requires Renumbering(p, q, |reg.vehicles|)
    ensures ActiveVehicles(MoveVehicles(reg, p, q), apartment, at) == ActiveVehicles(reg, apartment, at)
  {
    var moved := MoveVehicles(reg, p, q);
    forall i | 0 <= i < |reg.links|
      ensures CountsForCap(moved, moved.links[i], apartment, at) == CountsForCap(reg, reg.links[i], apartment, at)
    {
      var v := reg.links[i].vehicle;
      if v < |reg.vehicles| {
        assert q[p[v]] == v && moved.vehicles[p[v]] == reg.vehicles[v];
      }
    }
    CountRenamed(moved.links, reg.links, (l: Link) => CountsForCap(moved, l, apartment, at),
                 (l: Link) => CountsForCap(reg, l, apartment, at));
  }

  lemma MovedAssigned(reg: Registry, p: seq<nat>, q: seq<nat>, sessions: seq<Session>, v: nat, apartments: set<Id>,
                      zone: Id, at: Instant)
    requires Renumbering(p, q, |reg.vehicles|) && v < |reg.vehicles|
    ensures DecideAssigned(MoveVehicles(reg, p, q), sessions, p[v], apartments, zone, at)
         == DecideAssigned(reg, sessions, v, apartments, zone, at).(vehicle := Some(p[v]))
  {
    var moved := MoveVehicles(reg, p, q);
    CountCongruent(reg.assignments, (a: Assignment) => Holds(moved, a, apartments, zone, at),
                   (a: Assignment) => Holds(reg, a, apartments, zone, at));
  }

  lemma MovedShared(reg: Registry, p: seq<nat>, q: seq<nat>, v: nat, apartments: set<Id>, zone: Id, cap: Option<int>,
                    at: Instant)
    requires Renumbering(p, q, |reg.vehicles|) && v < |reg.vehicles|
    ensures DecideShared(MoveVehicles(reg, p, q), p[v], apartments, zone, cap, at)
         == DecideShared(reg, v, apartments, zone, cap, at).(vehicle := Some(p[v]))
  {
    forall a: Id
      ensures ActiveVehicles(MoveVehicles(reg, p, q), a, at) == ActiveVehicles(reg, a, at)
    {
      MovedCounts(reg, p, q, a, at);
    }
  }

  lemma MovedVehicle(reg: Registry, p: seq<nat>, q: seq<nat>, sessions: seq<Session>, v: nat, d: EngineInput)
    requires Renumbering(p, q, |reg.vehicles|) && v < |reg.vehicles|
    ensures DecideVehicle(MoveVehicles(reg, p, q), sessions, p[v], d)
         == DecideVehicle(reg, sessions, v, d).(vehicle := Some(p[v]))
  {
    var apartments := ActiveApartments(reg, v, d.capturedAt);
    assert MoveVehicles(reg, p, q).vehicles[p[v]] == reg.vehicles[v] by { assert q[p[v]] == v; }
    MovedApartments(reg, p, q, v, d.capturedAt);
    MovedRules(reg, p, q, v, apartments, d);
    if d.zone.Some? && d.zone.value in reg.zones {
      MovedAssigned(reg, p, q, sessions, v, apartments, d.zone.value, d.capturedAt);
      MovedShared(reg, p, q, v, apartments, d.zone.value, reg.zones[d.zone.value].cap, d.capturedAt);
    }
  }

  /** Wherever the vehicles stand, the answer is the same and names the same vehicle. */
  ghost predicate VehicleOrderIrrelevant(reg: Registry) {
    forall p: seq<nat>, q: seq<nat>, passes: seq<Pass>, sessions: seq<Session>, d: EngineInput, threshold: real ::
      Renumbering(p, q, |reg.vehicles|) ==> SameWhenMoved(reg, p, q, passes, sessions, d, threshold)
  }

  ghost predicate SameWhenMoved(reg: Registry, p: seq<nat>, q: seq<nat>, passes: seq<Pass>, sessions: seq<Session>,
                                d: EngineInput, threshold: real)
    requires Renumbering(p, q, |reg.vehicles|)
  {
    var here := Decide(reg, passes, sessions, d, threshold);
    Decide(MoveVehicles(reg, p, q), passes, sessions, d, threshold)
    == here.(vehicle := RenumberOption(p, here.vehicle))
  }

  lemma UniquePlatesSame(reg: Registry, p: seq<nat>, q: seq<nat>, passes: seq<Pass>, sessions: seq<Session>,
                         d: EngineInput, threshold: real)
    requires Renumbering(p, q, |reg.vehicles|) && PlatesUnique(reg.vehicles)
    ensures SameWhenMoved(reg, p, q, passes, sessions, d, threshold)
  {
    HolderMoves(reg, p, q, d.plate);
    var found := FindVehicle(reg.vehicles, d.plate);
    if found.Some? {
      MovedVehicle(reg, p, q, sessions, found.value, d);
      AnswerNamesVehicle(reg, sessions, found.value, d);
    }
  }

  lemma AnswerNamesVehicle(reg: Registry, sessions: seq<Session>, v: nat, d: EngineInput)
    requires v < |reg.vehicles|
    ensures DecideVehicle(reg, sessions, v, d).vehicle == Some(v)
  {
  }

  /** Positions `v` and `w` exchanged. */
  function Exchange(n: nat, v: nat, w: nat): seq<nat> {
    seq(n, i requires 0 <= i < n => if i == v then w else if i == w then v else i)
  }

  /** Two holders of one plate: exchanged, the other is found. */
  lemma SharedPlateDiffers(reg: Registry, i: nat, j: nat)
    requires i < j < |reg.vehicles| && reg.vehicles[i].plate == reg.vehicles[j].plate
    requires reg.vehicles[i].status != ArchivedVehicle && reg.vehicles[j].status != ArchivedVehicle
    ensures !VehicleOrderIrrelevant(reg)
  {
    var n, plate := |reg.vehicles|, reg.vehicles[i].plate;
    var v := FindVehicle(reg.vehicles, plate).value;
    var p := Exchange(n, v, j);
    var d := EngineInput(None, plate, Entry, None, 0);
    assert v <= i && Renumbering(p, p, n);
    var moved := MoveVehicles(reg, p, p);
    assert moved.vehicles[v] == reg.vehicles[j];
    assert forall k :: 0 <= k < v ==> moved.vehicles[k] == reg.vehicles[k];
    assert FindVehicle(moved.vehicles, plate) == Some(v);
    AnswerNamesVehicle(reg, [], v, d);
    AnswerNamesVehicle(moved, [], v, d);
    assert !SameWhenMoved(reg, p, p, [], [], d, 0.0);
  }

  /** The order of vehicles never matters exactly when no two vehicles that are not archived share a plate. */
  lemma VehicleOrderIrrelevantExactlyWhenPlatesUnique(reg: Registry)
    ensures VehicleOrderIrrelevant(reg) <==> PlatesUnique(reg.vehicles)
  {
    if PlatesUnique(reg.vehicles) {
      forall p: seq<nat>, q: seq<nat>, passes: seq<Pass>, sessions: seq<Session>, d: EngineInput, threshold: real
        | Renumbering(p, q, |reg.vehicles|)
        ensures SameWhenMoved(reg, p, q, passes, sessions, d, threshold)
      {
        UniquePlatesSame(reg, p, q, passes, sessions, d, threshold);
      }
    } else {
      var i, j :| 0 <= i < j < |reg.vehicles| && reg.vehicles[i].status != ArchivedVehicle
                  && reg.vehicles[j].status != ArchivedVehicle && reg.vehicles[i].plate == reg.vehicles[j].plate;
      SharedPlateDiffers(reg, i, j);
    }
  }

  // ---------------------------------------------------------------- taxi passes

  function MovePasses(passes: seq<Pass>, q: seq<nat>): seq<Pass>
    requires |q| == |passes| && forall j :: 0 <= j < |q| ==> q[j] < |passes|
  {
    seq(|q|, j requires 0 <= j < |q| => passes[q[j]])
  }

  /** One candidate of the plate is newer than every other, or there is none. */
  ghost predicate NewestUnique(passes: seq<Pass>, plate: string) {
    forall i, j :: 0 <= i < j < |passes| && Newest(passes, plate, i) && Newest(passes, plate, j) ==> false
  }

  ghost predicate Newest(passes: seq<Pass>, plate: string, i: nat) {
    && i < |passes| && TaxiCandidate(passes[i], plate)
    && forall k :: 0 <= k < |passes| && TaxiCandidate(passes[k], plate) ==> passes[k].createdAt <= passes[i].createdAt
  }

  /** Wherever the passes stand, an event with this plate gets the same answer on the same pass. */
  ghost predicate PassOrderIrrelevant(reg: Registry, passes: seq<Pass>, plate: string) {
    forall p: seq<nat>, q: seq<nat>, sessions: seq<Session>, d: EngineInput, threshold: real ::
      Renumbering(p, q, |passes|) && d.plate == plate ==> SamePassMoved(reg, passes, p, q, sessions, d, threshold)
  }

  ghost predicate SamePassMoved(reg: Registry, passes: seq<Pass>, p: seq<nat>, q: seq<nat>, sessions: seq<Session>,
                                d: EngineInput, threshold: real)
    requires Renumbering(p, q, |passes|)
  {
    var here := Decide(reg, passes, sessions, d, threshold);
    Decide(reg, MovePasses(passes, q), sessions, d, threshold) == here.(pass := RenumberOption(p, here.pass))
  }

  /** Among equally new candidates the first is found. */
  lemma {:induction false} FirstNewestFound(passes: seq<Pass>, plate: string, i: nat)
    requires Newest(passes, plate, i) && forall k :: 0 <= k < i ==> !Newest(passes, plate, k)
    ensures FindTaxi(passes, plate) == Some(i)
  {
    var n := |passes| - 1;
    var c := FindTaxi(passes, plate).value;
    assert Newest(passes, plate, c) && passes[c].createdAt == passes[i].createdAt;
    if i < n {
      var front := passes[..n];
      assert forall k :: 0 <= k < n ==> front[k] == passes[k];
      assert Newest(front, plate, i);
      forall k | 0 <= k < i ensures !Newest(front, plate, k) {
        if Newest(front, plate, k) {
          assert front[k].createdAt == front[i].createdAt;
          assert Newest(passes, plate, k);
        }
      }
      FirstNewestFound(front, plate, i);
    }
  }

  lemma TaxiMoves(passes: seq<Pass>, p: seq<nat>, q: seq<nat>, plate: string)
    requires Renumbering(p, q, |passes|) && NewestUnique(passes, plate)
    ensures FindTaxi(MovePasses(passes, q), plate) == RenumberOption(p, FindTaxi(passes, plate))
  {
    var moved := MovePasses(passes, q);
    var here, there := FindTaxi(passes, plate), FindTaxi(moved, plate);
    if here.Some? {
      assert q[p[here.value]] == here.value && moved[p[here.value]] == passes[here.value];
      assert there.Some? && p[q[there.value]] == there.value;
      forall k | 0 <= k < |passes| && TaxiCandidate(passes[k], plate)
        ensures passes[k].createdAt <= passes[q[there.value]].createdAt
      {
        assert q[p[k]] == k && moved[p[k]] == passes[k];
      }
      assert Newest(passes, plate, here.value) && Newest(passes, plate, q[there.value]);
      assert q[there.value] == here.value;
    } else {
      forall j | 0 <= j < |moved| ensures !TaxiCandidate(moved[j], plate) {
        assert moved[j] == passes[q[j]];
      }
    }
  }

  lemma UniqueNewestSame(reg: Registry, passes: seq<Pass>, p: seq<nat>, q: seq<nat>, sessions: seq<Session>,
                         d: EngineInput, threshold: real)
    requires Renumbering(p, q, |passes|)
    requires NewestUnique(passes, d.plate) || FindVehicle(reg.vehicles, d.plate).Some?
    ensures SamePassMoved(reg, passes, p, q, sessions, d, threshold)
  {
    var found := FindVehicle(reg.vehicles, d.plate);
    if found.Some? {
      VehicleNeedsNoPass(reg, sessions, found.value, d);
    } else {
      TaxiMoves(passes, p, q, d.plate);
      var here := FindTaxi(passes, d.plate);
      if here.Some? {
        assert q[p[here.value]] == here.value && MovePasses(passes, q)[p[here.value]] == passes[here.value];
      }
    }
  }

  lemma VehicleNeedsNoPass(reg: Registry, sessions: seq<Session>, v: nat, d: EngineInput)
    requires v < |reg.vehicles|
    ensures DecideVehicle(reg, sessions, v, d).pass.None?
  {
  }

  lemma {:induction false} SomeFirstNewest(passes: seq<Pass>, plate: string, i: nat) returns (first: nat)
    requires Newest(passes, plate, i)
    ensures first <= i && Newest(passes, plate, first) && forall k :: 0 <= k < first ==> !Newest(passes, plate, k)
  {
    first := i;
    if k :| 0 <= k < i && Newest(passes, plate, k) {
      first := SomeFirstNewest(passes, plate, k);
    }
  }

  /** Two candidates created at one instant: exchanged, the other pass answers. */
  lemma TieDiffers(reg: Registry, passes: seq<Pass>, plate: string, i: nat, j: nat)
    requires i < j && Newest(passes, plate, i) && Newest(passes, plate, j)
    requires FindVehicle(reg.vehicles, plate).None?
    ensures !PassOrderIrrelevant(reg, passes, plate)
  {
    var first := SomeFirstNewest(passes, plate, i);
    FirstNewestFound(passes, plate, first);
    var p := Exchange(|passes|, first, j);
    assert Renumbering(p, p, |passes|);
    var moved := MovePasses(passes, p);
    NewestExchanged(passes, plate, first, j);
    FirstNewestFound(moved, plate, first);
    var d := EngineInput(None, plate, Entry, None, 0);
    assert !SamePassMoved(reg, passes, p, p, [], d, 0.0);
  }

  lemma NewestExchanged(passes: seq<Pass>, plate: string, first: nat, j: nat)
    requires first < j && Newest(passes, plate, first) && Newest(passes, plate, j)
    requires forall k :: 0 <= k < first ==> !Newest(passes, plate, k)
    requires Renumbering(Exchange(|passes|, first, j), Exchange(|passes|, first, j), |passes|)
    ensures var moved := MovePasses(passes, Exchange(|passes|, first, j));
            Newest(moved, plate, first) && forall k :: 0 <= k < first ==> !Newest(moved, plate, k)
  {
    var p := Exchange(|passes|, first, j);
    var moved := MovePasses(passes, p);
    assert forall k :: 0 <= k < |passes| ==> moved[k] == passes[p[k]];
    assert moved[first] == passes[j] && moved[j] == passes[first];
    forall k | 0 <= k < first ensures !Newest(moved, plate, k) {
      if Newest(moved, plate, k) {
        NewestBack(passes, p, p, plate, k);
      }
    }
  }

  lemma NewestBack(passes: seq<Pass>, p: seq<nat>, q: seq<nat>, plate: string, k: nat)
    requires Renumbering(p, q, |passes|) && Newest(MovePasses(passes, q), plate, k)
    ensures Newest(passes, plate, q[k])
  {
    forall i | 0 <= i < |passes| && TaxiCandidate(passes[i], plate)
      ensures passes[i].createdAt <= passes[q[k]].createdAt
    {
      assert MovePasses(passes, q)[p[i]] == passes[i];
    }
  }

  /** The order of passes never matters to a plate exactly when a vehicle carries it or one candidate pass is
    * newer than all others: the query leaves a tie on the creation time open. */
  lemma PassOrderIrrelevantExactlyWhenNewestUnique(reg: Registry, passes: seq<Pass>, plate: string)
    ensures PassOrderIrrelevant(reg, passes, plate)
            <==> NewestUnique(passes, plate) || FindVehicle(reg.vehicles, plate).Some?
  {
    if NewestUnique(passes, plate) || FindVehicle(reg.vehicles, plate).Some? {
      forall p: seq<nat>, q: seq<nat>, sessions: seq<Session>, d: EngineInput, threshold: real
        | Renumbering(p, q, |passes|) && d.plate == plate
        ensures SamePassMoved(reg, passes, p, q, sessions, d, threshold)
      {
        UniqueNewestSame(reg, passes, p, q, sessions, d, threshold);
      }
    } else {
      var i, j :| 0 <= i < j < |passes| && Newest(passes, plate, i) && Newest(passes, plate, j);
      TieDiffers(reg, passes, plate, i, j);
    }
  }

  // ---------------------------------------------------------------- the apartment of a session

  /** All active links of the vehicle name one apartment. */
  ghost predicate OneApartment(links: seq<Link>, vehicle: nat) {
    forall l, m :: (l in links && m in links && l.vehicle == vehicle == m.vehicle
                    && l.status == ActiveLink == m.status) ==> l.apartment == m.apartment
  }

  lemma OneApartmentSame(links: seq<Link>, other: seq<Link>, vehicle: nat)
    requires OneApartment(links, vehicle) && multiset(other) == multiset(links)
    ensures ApartmentOf(other, vehicle) == ApartmentOf(links, vehicle)
  {
    SameMembers(other, links);
  }

  /** A link moved to the front decides. */
  lemma MovedToFront(links: seq<Link>, vehicle: nat, k: nat) returns (other: seq<Link>)
    requires k < |links| && links[k].vehicle == vehicle && links[k].status == ActiveLink
    ensures multiset(other) == multiset(links) && ApartmentOf(other, vehicle) == Some(links[k].apartment)
  {
    other := [links[k]] + (links[..k] + links[k + 1..]);
    assert links == links[..k] + [links[k]] + links[k + 1..];
    FirstLinkDecides(other, vehicle, 0);
  }

  ghost predicate LinkOrderIrrelevant(links: seq<Link>, vehicle: nat) {
    forall other: seq<Link> :: multiset(other) == multiset(links) ==>
      ApartmentOf(other, vehicle) == ApartmentOf(links, vehicle)
  }

  /** Sessions are booked to an apartment whatever the order of links exactly when the active links of the
    * vehicle name one apartment; otherwise the query's order by id decides. */
  lemma LinkOrderIrrelevantExactlyWhenOneApartment(links: seq<Link>, vehicle: nat)
    ensures LinkOrderIrrelevant(links, vehicle) <==> OneApartment(links, vehicle)
  {
    if OneApartment(links, vehicle) {
      forall other: seq<Link> | multiset(other) == multiset(links)
        ensures ApartmentOf(other, vehicle) == ApartmentOf(links, vehicle)
      {
        OneApartmentSame(links, other, vehicle);
      }
    } else {
      var l, m :| l in links && m in links && l.vehicle == vehicle == m.vehicle
                  && l.status == ActiveLink == m.status && l.apartment != m.apartment;
      var first := if ApartmentOf(links, vehicle) == Some(l.apartment) then m else l;
      var k :| 0 <= k < |links| && links[k] == first;
      var other := MovedToFront(links, vehicle, k);
    }
  }
}
