/** Monotonicity of the decision engine: loosening the registry never lowers an answer. */
module EngineLaws {
  import opened Common
  import opened Domain
  import opened Engine

  /** Order of answers: deny, then manual review, then allow. */
  function Rank(d: EngineDecision): nat {
    match d.decision
    case Deny => 0
    case ManualReview => 1
    case Allow => 2
  }

  /** One loosening of what the engine reads. */
  datatype Relaxation =
    | AddRule(rule: Rule)
    | AddAssignment(assignment: Assignment)
    | ClearLimit(index: nat)
    | RaiseCap(zone: Id, cap: Option<int>)
    | CloseSession(session: nat)

  datatype Tables = Tables(reg: Registry, sessions: seq<Session>)

  /** The tables after a relaxation; one that does not apply changes nothing. */
  function Relax(t: Tables, x: Relaxation): Tables {
    match x
    case AddRule(r) => t.(reg := t.reg.(rules := t.reg.rules + [r]))
    case AddAssignment(a) => t.(reg := t.reg.(assignments := t.reg.assignments + [a]))
    case ClearLimit(i) =>
      if i < |t.reg.assignments|
      then t.(reg := t.reg.(assignments := t.reg.assignments[i := t.reg.assignments[i].(enforceLimit := false)]))
      else t
    case RaiseCap(z, cap) =>
      if z in t.reg.zones && (cap.None? || (t.reg.zones[z].cap.Some? && t.reg.zones[z].cap.value <= cap.value))
      then t.(reg := t.reg.(zones := t.reg.zones[z := t.reg.zones[z].(cap := cap)]))
      else t
    case CloseSession(i) =>
      if i < |t.sessions| then t.(sessions := t.sessions[i := t.sessions[i].(open := false)]) else t
  }

  function RelaxAll(t: Tables, xs: seq<Relaxation>): Tables {
    if xs == [] then t else Relax(RelaxAll(t, xs[..|xs| - 1]), xs[|xs| - 1])
  }

  function Answer(t: Tables, passes: seq<Pass>, d: EngineInput, threshold: real): EngineDecision {
    Decide(t.reg, passes, t.sessions, d, threshold)
  }

  // ---------------------------------------------------------------- one branch at a time

  lemma RulesRemain(t: Tables, x: Relaxation, v: nat, apts: set<Id>, zone: Option<Id>, dir: Direction, m: Instant)
    ensures ZoneRuleMatches(t.reg.rules, v, apts, zone, dir, m)
            ==> ZoneRuleMatches(Relax(t, x).reg.rules, v, apts, zone, dir, m)
  {
    if ZoneRuleMatches(t.reg.rules, v, apts, zone, dir, m) {
      var r :| r in t.reg.rules && RuleGrants(r, v, apts, zone, dir, m);
      assert r in Relax(t, x).reg.rules;
    }
  }

  lemma AssignmentGain(t: Tables, a: Assignment, v: nat, apts: set<Id>, zone: Id, m: Instant)
    ensures Rank(DecideAssigned(Relax(t, AddAssignment(a)).reg, t.sessions, v, apts, zone, m))
         >= Rank(DecideAssigned(t.reg, t.sessions, v, apts, zone, m))
  {
    var before, after := t.reg, Relax(t, AddAssignment(a)).reg;
    CountOne(before.assignments, a, (b: Assignment) => Holds(after, b, apts, zone, m));
    CountCongruent(before.assignments, (b: Assignment) => Holds(after, b, apts, zone, m),
                   (b: Assignment) => Holds(before, b, apts, zone, m));
    assert SpotCount(after, apts, zone, m) >= SpotCount(before, apts, zone, m);
    assert forall b :: b in before.assignments ==> b in after.assignments;
    assert forall b :: Holds(after, b, apts, zone, m) == Holds(before, b, apts, zone, m);
  }

  lemma LimitCleared(t: Tables, i: nat, v: nat, apts: set<Id>, zone: Id, m: Instant)
    requires i < |t.reg.assignments|
    ensures Rank(DecideAssigned(Relax(t, ClearLimit(i)).reg, t.sessions, v, apts, zone, m))
         >= Rank(DecideAssigned(t.reg, t.sessions, v, apts, zone, m))
  {
    var before, after := t.reg, Relax(t, ClearLimit(i)).reg;
    var x := before.assignments[i].(enforceLimit := false);
    CountUpdate(before.assignments, i, x, (b: Assignment) => Holds(after, b, apts, zone, m));
    CountCongruent(before.assignments, (b: Assignment) => Holds(after, b, apts, zone, m),
                   (b: Assignment) => Holds(before, b, apts, zone, m));
    assert SpotCount(after, apts, zone, m) == SpotCount(before, apts, zone, m);
    assert after.assignments[i] == x;
    if a :| a in before.assignments && Holds(before, a, apts, zone, m) {
      var k :| 0 <= k < |before.assignments| && before.assignments[k] == a;
      assert Holds(after, after.assignments[k], apts, zone, m);
    }
    forall k | 0 <= k < |after.assignments| && Holds(after, after.assignments[k], apts, zone, m)
                                            && !after.assignments[k].enforceLimit
      ensures k == i || (before.assignments[k] == after.assignments[k])
    {
    }
    forall a | a in before.assignments && Holds(before, a, apts, zone, m) && !a.enforceLimit
      ensures a in after.assignments
    {
      var k :| 0 <= k < |before.assignments| && before.assignments[k] == a;
      assert after.assignments[k] == a;
    }
  }

  lemma CapRaised(t: Tables, z: Id, cap: Option<int>, v: nat, apts: set<Id>, m: Instant)
    requires z in t.reg.zones
    requires cap.None? || (t.reg.zones[z].cap.Some? && t.reg.zones[z].cap.value <= cap.value)
    ensures Rank(DecideShared(Relax(t, RaiseCap(z, cap)).reg, v, apts, z, cap, m))
         >= Rank(DecideShared(t.reg, v, apts, z, t.reg.zones[z].cap, m))
  {
    var before, after := t.reg, Relax(t, RaiseCap(z, cap)).reg;
    forall a: Id ensures ActiveVehicles(after, a, m) == ActiveVehicles(before, a, m) {
      CountCongruent(before.links, (l: Link) => CountsForCap(after, l, a, m),
                     (l: Link) => CountsForCap(before, l, a, m));
    }
  }

  lemma SharedUnaffected(t: Tables, x: Relaxation, v: nat, apts: set<Id>, z: Id, cap: Option<int>, m: Instant)
    ensures DecideShared(Relax(t, x).reg, v, apts, z, cap, m) == DecideShared(t.reg, v, apts, z, cap, m)
  {
    forall a: Id ensures ActiveVehicles(Relax(t, x).reg, a, m) == ActiveVehicles(t.reg, a, m) {
      CountCongruent(t.reg.links, (l: Link) => CountsForCap(Relax(t, x).reg, l, a, m),
                     (l: Link) => CountsForCap(t.reg, l, a, m));
    }
  }

  lemma SessionClosed(t: Tables, i: nat, v: nat, apts: set<Id>, zone: Id, m: Instant)
    requires i < |t.sessions|
    ensures Rank(DecideAssigned(t.reg, Relax(t, CloseSession(i)).sessions, v, apts, zone, m))
         >= Rank(DecideAssigned(t.reg, t.sessions, v, apts, zone, m))
  {
    CountUpdate(t.sessions, i, t.sessions[i].(open := false), (s: Session) => OccupiedBy(s, apts, zone));
  }

  lemma AssignedMonotone(t: Tables, x: Relaxation, v: nat, apts: set<Id>, zone: Id, m: Instant)
    ensures Rank(DecideAssigned(Relax(t, x).reg, Relax(t, x).sessions, v, apts, zone, m))
         >= Rank(DecideAssigned(t.reg, t.sessions, v, apts, zone, m))
  {
    match x
    case AddAssignment(a) => AssignmentGain(t, a, v, apts, zone, m);
    case ClearLimit(i) => if i < |t.reg.assignments| { LimitCleared(t, i, v, apts, zone, m); }
    case CloseSession(i) => if i < |t.sessions| { SessionClosed(t, i, v, apts, zone, m); }
    case _ =>
      CountCongruent(t.reg.assignments, (b: Assignment) => Holds(Relax(t, x).reg, b, apts, zone, m),
                     (b: Assignment) => Holds(t.reg, b, apts, zone, m));
      assert forall b :: Holds(Relax(t, x).reg, b, apts, zone, m) == Holds(t.reg, b, apts, zone, m);
  }

  lemma VehicleMonotone(t: Tables, x: Relaxation, v: nat, d: EngineInput)
    requires v < |t.reg.vehicles|
    ensures Rank(DecideVehicle(Relax(t, x).reg, Relax(t, x).sessions, v, d))
         >= Rank(DecideVehicle(t.reg, t.sessions, v, d))
  {
    var apts := ActiveApartments(t.reg, v, d.capturedAt);
    assert ActiveApartments(Relax(t, x).reg, v, d.capturedAt) == apts;
    RulesRemain(t, x, v, apts, d.zone, d.direction, d.capturedAt);
    if d.zone.Some? && d.zone.value in t.reg.zones {
      var z := d.zone.value;
      AssignedMonotone(t, x, v, apts, z, d.capturedAt);
      SharedUnaffected(t, x, v, apts, z, t.reg.zones[z].cap, d.capturedAt);
      if x.RaiseCap? && x.zone == z && Relax(t, x) != t {
        CapRaised(t, z, x.cap, v, apts, d.capturedAt);
      }
    }
  }

  /** One relaxation never lowers the answer to any event. */
  lemma DecideMonotone(t: Tables, x: Relaxation, passes: seq<Pass>, d: EngineInput, threshold: real)
    ensures Rank(Answer(Relax(t, x), passes, d, threshold)) >= Rank(Answer(t, passes, d, threshold))
  {
    assert Relax(t, x).reg.vehicles == t.reg.vehicles;
    var v := FindVehicle(t.reg.vehicles, d.plate);
    if v.Some? {
      VehicleMonotone(t, x, v.value, d);
    }
  }

  /** Neither does any sequence of them. */
  lemma {:induction false} RelaxationsNeverLower(
    t: Tables, xs: seq<Relaxation>, passes: seq<Pass>, d: EngineInput, threshold: real)
    ensures Rank(Answer(RelaxAll(t, xs), passes, d, threshold)) >= Rank(Answer(t, passes, d, threshold))
  {
    if xs != [] {
      RelaxationsNeverLower(t, xs[..|xs| - 1], passes, d, threshold);
      DecideMonotone(RelaxAll(t, xs[..|xs| - 1]), xs[|xs| - 1], passes, d, threshold);
    }
  }

  const CARS: seq<Vehicle> := [Vehicle("A", ActiveVehicle), Vehicle("B", ActiveVehicle)]

  /** A shared zone capped at one vehicle per apartment, with the given links. */
  function Capped(apartment: Id, zone: Id, links: seq<Link>): Registry {
    Registry(CARS, links, [], map[zone := Zone(Shared, Some(1))], [], [], {(apartment, zone)})
  }

  function LinkTo(vehicle: nat, apartment: Id): Link {
    Link(vehicle, apartment, ActiveLink, None, None)
  }

  lemma CappedAnswer(apartment: Id, zone: Id, links: seq<Link>, threshold: real)
    requires LinkTo(0, apartment) in links
    requires forall l :: l in links ==> l.apartment == apartment
    ensures var d := EngineInput(Some(zone), "A", Entry, None, 0);
            Decide(Capped(apartment, zone, links), [], [], d, threshold).decision
            == if ActiveVehicles(Capped(apartment, zone, links), apartment, 0) > 1 then ManualReview else Allow
  {
    var reg := Capped(apartment, zone, links);
    assert FindVehicle(CARS, "A") == Some(0) by { assert CARS[0].plate == "A"; }
    var apts := ActiveApartments(reg, 0, 0);
    assert apts == {apartment} by { assert LinkActive(LinkTo(0, apartment), 0, 0); }
    assert (set a | a in apts && (a, zone) in reg.served) == {apartment};
  }

  /** The list of relaxations stops where the law stops: linking a second car to an apartment of a
    * capped shared zone turns an allow for the first car into a manual review. */
  lemma LinkingAVehicleCanLowerAnAnswer(apartment: Id, zone: Id, threshold: real)
    ensures
      var one := Capped(apartment, zone, [LinkTo(0, apartment)]);
      var two := one.(links := one.links + [LinkTo(1, apartment)]);
      var d := EngineInput(Some(zone), "A", Entry, None, 0);
      Decide(one, [], [], d, threshold).decision == Allow && Decide(two, [], [], d, threshold).decision == ManualReview
  {
    var first, second := LinkTo(0, apartment), LinkTo(1, apartment);
    CappedAnswer(apartment, zone, [first], threshold);
    CappedAnswer(apartment, zone, [first] + [second], threshold);
    var one := Capped(apartment, zone, [first]);
    var two := Capped(apartment, zone, [first] + [second]);
    CountOne([], first, (l: Link) => CountsForCap(one, l, apartment, 0));
    CountOne([], first, (l: Link) => CountsForCap(two, l, apartment, 0));
    CountOne([first], second, (l: Link) => CountsForCap(two, l, apartment, 0));
    assert [] + [first] == [first];
  }
}
