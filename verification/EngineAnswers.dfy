/** What each answer of the engine means, in the fields of the rows it reads: every reason is given exactly when
  * the rows say so, and a right that is withdrawn, out of date or for another zone or direction grants nothing. */
module EngineAnswers {
  import opened Common
  import opened Domain
  import opened Engine
  import opened Management

  // ---------------------------------------------------------------- rows

  predicate InForce(from: Option<Instant>, until: Option<Instant>, at: Instant) {
    (from.None? || from.value <= at) && (until.None? || at <= until.value)
  }

  /** An active link in force joins vehicle and apartment. */
  ghost predicate Linked(reg: Registry, v: nat, apartment: Id, at: Instant) {
    exists l | l in reg.links ::
      l.vehicle == v && l.apartment == apartment && l.status == ActiveLink && InForce(l.validFrom, l.validUntil, at)
  }

  /** The rule gives the vehicle the right to this passage. */
  ghost predicate Applies(reg: Registry, r: Rule, v: nat, x: EngineInput) {
    && r.active && x.zone == Some(r.zone) && InForce(r.validFrom, r.validUntil, x.capturedAt)
    && (r.directions == [] || x.direction in r.directions)
    && (r.vehicle == Some(v) || (r.apartment.Some? && Linked(reg, v, r.apartment.value, x.capturedAt)))
  }

  ghost predicate Ruled(reg: Registry, v: nat, x: EngineInput) {
    exists r | r in reg.rules :: Applies(reg, r, v, x)
  }

  /** The assignment is of an active spot in the zone, to an apartment of the vehicle. */
  ghost predicate OfVehicle(reg: Registry, a: Assignment, v: nat, zone: Id, at: Instant) {
    && a.spot < |reg.spots| && reg.spots[a.spot] == Spot(zone, true) && Linked(reg, v, a.apartment, at)
  }

  ghost predicate Rents(reg: Registry, a: Assignment, v: nat, zone: Id, at: Instant) {
    OfVehicle(reg, a, v, zone, at) && a.status == ActiveAssignment && InForce(a.validFrom, a.validUntil, at)
  }

  ghost predicate RanOut(reg: Registry, a: Assignment, v: nat, zone: Id, at: Instant) {
    && OfVehicle(reg, a, v, zone, at) && (a.status == ActiveAssignment || a.status == ExpiredAssignment)
    && a.validUntil.Some? && a.validUntil.value < at
  }

  ghost predicate Renting(reg: Registry, v: nat, zone: Id, at: Instant) {
    exists a | a in reg.assignments :: Rents(reg, a, v, zone, at)
  }

  /** The spots the vehicle's apartments rent in the zone, and the cars they have inside. */
  ghost function Rented(reg: Registry, v: nat, zone: Id, at: Instant): nat {
    Count(reg.assignments, (a: Assignment) => Rents(reg, a, v, zone, at))
  }

  ghost function CarsInside(reg: Registry, sessions: seq<Session>, v: nat, zone: Id, at: Instant): nat {
    Count(sessions, (s: Session) => s.open && s.zone == zone && s.apartment.Some?
                                    && Linked(reg, v, s.apartment.value, at))
  }

  /** All rented spots are taken and none is exempt from the limit. */
  ghost predicate Full(reg: Registry, sessions: seq<Session>, v: nat, zone: Id, at: Instant) {
    && (forall a | a in reg.assignments :: Rents(reg, a, v, zone, at) ==> a.enforceLimit)
    && CarsInside(reg, sessions, v, zone, at) >= Rented(reg, v, zone, at)
  }

  /** The cars of an apartment: its active links in force to active vehicles. */
  ghost function CarsOf(reg: Registry, apartment: Id, at: Instant): nat {
    Count(reg.links, (l: Link) =>
            l.apartment == apartment && l.status == ActiveLink && InForce(l.validFrom, l.validUntil, at)
            && l.vehicle < |reg.vehicles| && reg.vehicles[l.vehicle].status == ActiveVehicle)
  }

  ghost predicate Served(reg: Registry, v: nat, zone: Id, at: Instant) {
    exists a: Id :: Linked(reg, v, a, at) && (a, zone) in reg.served
  }

  ghost predicate OverCap(reg: Registry, v: nat, zone: Id, cap: Option<int>, at: Instant) {
    cap.Some? && exists a: Id :: Linked(reg, v, a, at) && (a, zone) in reg.served && CarsOf(reg, a, at) > cap.value
  }

  // ---------------------------------------------------------------- reasons

  predicate Confident(x: EngineInput, threshold: real) {
    x.confidence.None? || threshold <= x.confidence.value
  }

  /** A vehicle that is not blocked and has no rule is judged by the zone it enters. */
  ghost predicate JudgedByZone(reg: Registry, v: nat, x: EngineInput) {
    v < |reg.vehicles| && reg.vehicles[v].status != BlockedVehicle && !Ruled(reg, v, x)
  }

  ghost predicate JudgedIn(reg: Registry, v: nat, x: EngineInput, parking: ParkingType) {
    JudgedByZone(reg, v, x) && x.zone.Some? && x.zone.value in reg.zones && reg.zones[x.zone.value].parking == parking
  }

  /** Why a known vehicle gets the answer with this reason. */
  ghost predicate VehicleReason(reg: Registry, sessions: seq<Session>, v: nat, x: EngineInput, reason: Reason) {
    var at := x.capturedAt;
    var z := if x.zone.Some? then x.zone.value else 1;
    var inAssigned := JudgedIn(reg, v, x, Assigned);
    var inShared := JudgedIn(reg, v, x, Shared);
    var cap := if inShared then reg.zones[z].cap else None;
    match reason
    case VehicleBlocked => v < |reg.vehicles| && reg.vehicles[v].status == BlockedVehicle
    case PermanentVehicleAllowed => v < |reg.vehicles| && reg.vehicles[v].status != BlockedVehicle && Ruled(reg, v, x)
    case AssignedSpotAllowed => inAssigned && Renting(reg, v, z, at) && !Full(reg, sessions, v, z, at)
    case ParkingSpotOccupied => inAssigned && Renting(reg, v, z, at) && Full(reg, sessions, v, z, at)
    case SpotRentalExpired =>
      inAssigned && !Renting(reg, v, z, at) && exists a | a in reg.assignments :: RanOut(reg, a, v, z, at)
    case SpotNotAssigned =>
      inAssigned && !Renting(reg, v, z, at) && forall a | a in reg.assignments :: !RanOut(reg, a, v, z, at)
    case SharedAccessAllowed => inShared && Served(reg, v, z, at) && !OverCap(reg, v, z, cap, at)
    case PerApartmentLimitExceeded => inShared && Served(reg, v, z, at) && OverCap(reg, v, z, cap, at)
    case ZoneNotAllowed => JudgedByZone(reg, v, x) && !inAssigned && !(inShared && Served(reg, v, z, at))
    case _ => false
  }

  /** Pass `p` answers for the plate: a newest taxi pass for it that is active or used up. */
  ghost predicate TaxiFor(passes: seq<Pass>, plate: string, p: nat) {
    && p < |passes| && passes[p].kind == Taxi && passes[p].plate == Some(plate)
    && (passes[p].status == ActivePass || passes[p].status == UsedPass)
    && forall q :: 0 <= q < |passes| && passes[q].kind == Taxi && passes[q].plate == Some(plate)
                   && (passes[q].status == ActivePass || passes[q].status == UsedPass)
                   ==> passes[q].createdAt <= passes[p].createdAt
  }

  predicate ElsewhereThan(p: Pass, x: EngineInput) {
    p.zone.Some? && x.zone.Some? && p.zone.value != x.zone.value
  }

  /** Why pass `p` gets the answer with this reason. */
  predicate PassReason(p: Pass, x: EngineInput, reason: Reason) {
    var dated := InForce(p.validFrom, p.validUntil, x.capturedAt);
    match reason
    case ZoneNotAllowed => ElsewhereThan(p, x)
    case PassExpired => !ElsewhereThan(p, x) && !dated
    case PassAlreadyUsed => !ElsewhereThan(p, x) && dated && p.maxEntries <= p.usedEntries
    case TemporaryPassAllowed => !ElsewhereThan(p, x) && dated && p.usedEntries < p.maxEntries
    case _ => false
  }

  /** The decision and status that go with a reason. */
  function Verdict(reason: Reason): (DecisionType, DecisionStatus) {
    match reason
    case PermanentVehicleAllowed => (Allow, Allowed)
    case AssignedSpotAllowed => (Allow, Allowed)
    case SharedAccessAllowed => (Allow, Allowed)
    case TemporaryPassAllowed => (Allow, Allowed)
    case LowConfidence => (ManualReview, PendingReview)
    case ParkingSpotOccupied => (ManualReview, PendingReview)
    case PerApartmentLimitExceeded => (ManualReview, PendingReview)
    case _ => (Deny, Denied)
  }

  // ---------------------------------------------------------------- the engine reads these rows

  lemma SameApartments(reg: Registry, v: nat, at: Instant)
    ensures forall a: Id :: a in ActiveApartments(reg, v, at) <==> Linked(reg, v, a, at)
  {
    forall a: Id ensures a in ActiveApartments(reg, v, at) <==> Linked(reg, v, a, at) {
      if Linked(reg, v, a, at) {
        var l :| l in reg.links && l.vehicle == v && l.apartment == a && l.status == ActiveLink
                 && InForce(l.validFrom, l.validUntil, at);
        assert LinkActive(l, v, at);
      }
    }
  }

  lemma SameRules(reg: Registry, v: nat, x: EngineInput)
    ensures ZoneRuleMatches(reg.rules, v, ActiveApartments(reg, v, x.capturedAt), x.zone, x.direction, x.capturedAt)
            <==> Ruled(reg, v, x)
  {
    var apartments := ActiveApartments(reg, v, x.capturedAt);
    SameApartments(reg, v, x.capturedAt);
    forall r ensures RuleGrants(r, v, apartments, x.zone, x.direction, x.capturedAt) <==> Applies(reg, r, v, x) {
    }
  }

  lemma SameRents(reg: Registry, sessions: seq<Session>, v: nat, z: Id, at: Instant)
    ensures var apartments := ActiveApartments(reg, v, at);
            && (forall a :: Holds(reg, a, apartments, z, at) <==> Rents(reg, a, v, z, at))
            && SpotCount(reg, apartments, z, at) == Rented(reg, v, z, at)
            && OpenSessions(sessions, apartments, z) == CarsInside(reg, sessions, v, z, at)
  {
    var apartments := ActiveApartments(reg, v, at);
    SameApartments(reg, v, at);
    forall a ensures Holds(reg, a, apartments, z, at) <==> Rents(reg, a, v, z, at) {
    }
    CountCongruent(reg.assignments, (a: Assignment) => Holds(reg, a, apartments, z, at),
                   (a: Assignment) => Rents(reg, a, v, z, at));
    CountCongruent(sessions, (s: Session) => OccupiedBy(s, apartments, z),
                   (s: Session) => s.open && s.zone == z && s.apartment.Some? && Linked(reg, v, s.apartment.value, at));
  }

  lemma AssignedZone(reg: Registry, sessions: seq<Session>, v: nat, z: Id, at: Instant, reason: Reason)
    ensures DecideAssigned(reg, sessions, v, ActiveApartments(reg, v, at), z, at).reason == Some(reason) <==>
              match reason
              case AssignedSpotAllowed => Renting(reg, v, z, at) && !Full(reg, sessions, v, z, at)
              case ParkingSpotOccupied => Renting(reg, v, z, at) && Full(reg, sessions, v, z, at)
              case SpotRentalExpired =>
                !Renting(reg, v, z, at) && exists a | a in reg.assignments :: RanOut(reg, a, v, z, at)
              case SpotNotAssigned =>
                !Renting(reg, v, z, at) && forall a | a in reg.assignments :: !RanOut(reg, a, v, z, at)
              case _ => false
  {
    var apartments := ActiveApartments(reg, v, at);
    SameApartments(reg, v, at);
    SameRents(reg, sessions, v, z, at);
    forall a ensures Considered(reg, a, apartments, z) && a.validUntil.Some? && a.validUntil.value < at
                     <==> RanOut(reg, a, v, z, at)
    {
    }
    assert apartments == {} ==> !Renting(reg, v, z, at) && forall a :: !RanOut(reg, a, v, z, at);
  }

  lemma SameCars(reg: Registry, a: Id, at: Instant)
    ensures ActiveVehicles(reg, a, at) == CarsOf(reg, a, at)
  {
    CountCongruent(reg.links, (l: Link) => CountsForCap(reg, l, a, at),
                   (l: Link) => l.apartment == a && l.status == ActiveLink && InForce(l.validFrom, l.validUntil, at)
                                && l.vehicle < |reg.vehicles| && reg.vehicles[l.vehicle].status == ActiveVehicle);
  }

  lemma SameServed(reg: Registry, v: nat, z: Id, at: Instant)
    ensures var served := set a | a in ActiveApartments(reg, v, at) && (a, z) in reg.served;
            && (forall a: Id :: a in served <==> Linked(reg, v, a, at) && (a, z) in reg.served)
            && (served != {} <==> Served(reg, v, z, at))
  {
    var served := set a | a in ActiveApartments(reg, v, at) && (a, z) in reg.served;
    SameApartments(reg, v, at);
    if Served(reg, v, z, at) {
      var a: Id :| Linked(reg, v, a, at) && (a, z) in reg.served;
      assert a in served;
    }
    if a :| a in served {
      assert Linked(reg, v, a, at) && (a, z) in reg.served;
    }
  }

  lemma SharedZone(reg: Registry, v: nat, z: Id, cap: Option<int>, at: Instant, reason: Reason)
    ensures DecideShared(reg, v, ActiveApartments(reg, v, at), z, cap, at).reason == Some(reason) <==>
              match reason
              case SharedAccessAllowed => Served(reg, v, z, at) && !OverCap(reg, v, z, cap, at)
              case PerApartmentLimitExceeded => Served(reg, v, z, at) && OverCap(reg, v, z, cap, at)
              case ZoneNotAllowed => !Served(reg, v, z, at)
              case _ => false
  {
    var served := set a | a in ActiveApartments(reg, v, at) && (a, z) in reg.served;
    SameServed(reg, v, z, at);
    forall a: Id ensures ActiveVehicles(reg, a, at) == CarsOf(reg, a, at) {
      SameCars(reg, a, at);
    }
    assert OverCap(reg, v, z, cap, at)
           <==> cap.Some? && exists a | a in served :: ActiveVehicles(reg, a, at) > cap.value;
  }

  /** A known vehicle gets each reason exactly when the rows say so. */
  lemma VehicleReasons(reg: Registry, sessions: seq<Session>, v: nat, x: EngineInput, reason: Reason)
    requires v < |reg.vehicles|
    ensures DecideVehicle(reg, sessions, v, x).reason == Some(reason) <==> VehicleReason(reg, sessions, v, x, reason)
  {
    SameRules(reg, v, x);
    if JudgedIn(reg, v, x, Assigned) {
      AssignedZone(reg, sessions, v, x.zone.value, x.capturedAt, reason);
    } else if JudgedIn(reg, v, x, Shared) {
      SharedZone(reg, v, x.zone.value, reg.zones[x.zone.value].cap, x.capturedAt, reason);
    }
  }

  lemma PassReasons(passes: seq<Pass>, x: EngineInput, reason: Reason)
    ensures DecideTaxi(passes, x).reason == Some(reason) <==>
              if FindTaxi(passes, x.plate).None? then reason == VehicleNotFound
              else PassReason(passes[FindTaxi(passes, x.plate).value], x, reason)
  {
  }

  /** The engine gives a reason exactly when the rows say so. */
  ghost predicate Because(reg: Registry, passes: seq<Pass>, sessions: seq<Session>, x: EngineInput, threshold: real,
                          reason: Reason)
  {
    if !Confident(x, threshold) then reason == LowConfidence
    else
      match FindVehicle(reg.vehicles, x.plate)
      case Some(v) => VehicleReason(reg, sessions, v, x, reason)
      case None =>
        match FindTaxi(passes, x.plate)
        case None => reason == VehicleNotFound
        case Some(p) => PassReason(passes[p], x, reason)
  }

  lemma ReasonsExactly(reg: Registry, passes: seq<Pass>, sessions: seq<Session>, x: EngineInput, threshold: real,
                       reason: Reason)
    ensures Decide(reg, passes, sessions, x, threshold).reason == Some(reason)
            <==> Because(reg, passes, sessions, x, threshold, reason)
  {
    if Confident(x, threshold) {
      match FindVehicle(reg.vehicles, x.plate)
      case Some(v) => VehicleReasons(reg, sessions, v, x, reason);
      case None => PassReasons(passes, x, reason);
    }
  }

  lemma VehicleAnswer(reg: Registry, sessions: seq<Session>, v: nat, x: EngineInput)
    requires v < |reg.vehicles|
    ensures var e := DecideVehicle(reg, sessions, v, x);
            && e.reason.Some? && (e.decision, e.status) == Verdict(e.reason.value)
            && e.vehicle == Some(v) && e.pass.None? && e.reason != Some(VehicleNotFound)
  {
  }

  lemma PassAnswer(passes: seq<Pass>, x: EngineInput)
    ensures var e := DecideTaxi(passes, x);
            && e.reason.Some? && (e.decision, e.status) == Verdict(e.reason.value) && e.vehicle.None?
            && (e.pass.None? <==> e.reason == Some(VehicleNotFound))
            && (e.pass.None? <==> forall p: nat :: !TaxiFor(passes, x.plate, p))
            && (e.pass.Some? ==> TaxiFor(passes, x.plate, e.pass.value))
  {
    var found := FindTaxi(passes, x.plate);
    assert forall p :: 0 <= p < |passes| ==>
             (TaxiCandidate(passes[p], x.plate) <==>
                passes[p].kind == Taxi && passes[p].plate == Some(x.plate)
                && (passes[p].status == ActivePass || passes[p].status == UsedPass));
    if found.Some? {
      assert TaxiFor(passes, x.plate, found.value);
    }
  }

  /** The reason fixes decision and status; the answer names the vehicle or the pass that was judged. */
  lemma ReasonFixesAnswer(reg: Registry, passes: seq<Pass>, sessions: seq<Session>, x: EngineInput, threshold: real)
    ensures var e := Decide(reg, passes, sessions, x, threshold);
            && e.reason.Some? && (e.decision, e.status) == Verdict(e.reason.value)
            && e.vehicle == (if Confident(x, threshold) then FindVehicle(reg.vehicles, x.plate) else None)
            && (e.pass.Some? <==> Confident(x, threshold) && e.vehicle.None? && e.reason != Some(VehicleNotFound))
            && (e.pass.Some? ==> TaxiFor(passes, x.plate, e.pass.value))
  {
    if Confident(x, threshold) {
      match FindVehicle(reg.vehicles, x.plate)
      case Some(v) => VehicleAnswer(reg, sessions, v, x);
      case None => PassAnswer(passes, x);
    }
  }

  /** An allow on a pass means a newest taxi pass for the plate, in force at the moment of the passage, with an
    * entry left, and not for another zone. */
  lemma PassAllowMeans(reg: Registry, passes: seq<Pass>, sessions: seq<Session>, x: EngineInput, threshold: real,
                       p: nat)
    requires var e := Decide(reg, passes, sessions, x, threshold); e.decision == Allow && e.pass == Some(p)
    ensures TaxiFor(passes, x.plate, p) && FindVehicle(reg.vehicles, x.plate).None?
    ensures passes[p].validFrom.Some? ==> passes[p].validFrom.value <= x.capturedAt
    ensures passes[p].validUntil.Some? ==> x.capturedAt <= passes[p].validUntil.value
    ensures passes[p].zone.Some? && x.zone.Some? ==> passes[p].zone == x.zone
    ensures passes[p].usedEntries < passes[p].maxEntries
  {
    ReasonFixesAnswer(reg, passes, sessions, x, threshold);
    ReasonsExactly(reg, passes, sessions, x, threshold, TemporaryPassAllowed);
  }

  // ---------------------------------------------------------------- rights withdrawn

  function WithoutRule(reg: Registry, i: nat): Registry
    requires i < |reg.rules|
  {
    reg.(rules := reg.rules[..i] + reg.rules[i + 1..])
  }

  /** The same vehicles, links, zones and spots. */
  predicate OtherRulesOnly(a: Registry, b: Registry) {
    b.(rules := a.rules) == a
  }

  lemma SameButRules(a: Registry, b: Registry, passes: seq<Pass>, sessions: seq<Session>, x: EngineInput,
                     threshold: real)
    requires OtherRulesOnly(a, b)
    requires forall v: nat :: FindVehicle(a.vehicles, x.plate) == Some(v) ==> (Ruled(a, v, x) <==> Ruled(b, v, x))
    ensures Decide(a, passes, sessions, x, threshold) == Decide(b, passes, sessions, x, threshold)
  {
    var found := FindVehicle(a.vehicles, x.plate);
    if found.Some? {
      SameRules(a, found.value, x);
      SameRules(b, found.value, x);
      if x.zone.Some? {
        SameZones(a, b, sessions, found.value, ActiveApartments(a, found.value, x.capturedAt), x.zone.value,
                  x.capturedAt);
      }
    }
  }

  lemma SameZones(a: Registry, b: Registry, sessions: seq<Session>, v: nat, apartments: set<Id>, z: Id, at: Instant)
    requires OtherRulesOnly(a, b)
    ensures DecideAssigned(a, sessions, v, apartments, z, at) == DecideAssigned(b, sessions, v, apartments, z, at)
    ensures forall cap :: DecideShared(a, v, apartments, z, cap, at) == DecideShared(b, v, apartments, z, cap, at)
  {
    CountCongruent(a.assignments, (r: Assignment) => Holds(a, r, apartments, z, at),
                   (r: Assignment) => Holds(b, r, apartments, z, at));
    forall apartment: Id ensures ActiveVehicles(a, apartment, at) == ActiveVehicles(b, apartment, at) {
      CountCongruent(a.links, (l: Link) => CountsForCap(a, l, apartment, at),
                     (l: Link) => CountsForCap(b, l, apartment, at));
    }
    assert forall r :: Holds(a, r, apartments, z, at) == Holds(b, r, apartments, z, at);
    assert forall r :: Considered(a, r, apartments, z) == Considered(b, r, apartments, z);
  }

  /** A rule that does not give the judged vehicle the right to a passage has no part in its answer: it might as
    * well not be there. */
  lemma IdleRuleMightBeRemoved(reg: Registry, i: nat, passes: seq<Pass>, sessions: seq<Session>, x: EngineInput,
                               threshold: real)
    requires i < |reg.rules|
    requires forall v: nat :: FindVehicle(reg.vehicles, x.plate) == Some(v) ==> !Applies(reg, reg.rules[i], v, x)
    ensures Decide(reg, passes, sessions, x, threshold) == Decide(WithoutRule(reg, i), passes, sessions, x, threshold)
  {
    var after := WithoutRule(reg, i);
    forall v: nat | FindVehicle(reg.vehicles, x.plate) == Some(v)
      ensures Ruled(reg, v, x) <==> Ruled(after, v, x)
    {
      if Ruled(reg, v, x) {
        var r :| r in reg.rules && Applies(reg, r, v, x);
        var k :| 0 <= k < |reg.rules| && reg.rules[k] == r;
        assert after.rules[if k < i then k else k - 1] == r;
        assert Applies(after, r, v, x);
      }
      if Ruled(after, v, x) {
        var r :| r in after.rules && Applies(after, r, v, x);
        assert r in reg.rules && Applies(reg, r, v, x);
      }
    }
    SameButRules(reg, after, passes, sessions, x, threshold);
  }

  /** Switching a rule off gives every event the answer it would get without the rule. */
  lemma SwitchedOffIsRemoved(reg: Registry, i: nat, passes: seq<Pass>, sessions: seq<Session>, x: EngineInput,
                             threshold: real)
    requires i < |reg.rules|
    ensures Decide(reg.(rules := reg.rules[i := reg.rules[i].(active := false)]), passes, sessions, x, threshold)
         == Decide(WithoutRule(reg, i), passes, sessions, x, threshold)
  {
    var off := reg.(rules := reg.rules[i := reg.rules[i].(active := false)]);
    assert WithoutRule(off, i) == WithoutRule(reg, i);
    IdleRuleMightBeRemoved(off, i, passes, sessions, x, threshold);
  }

  /** After a sync that leaves a zone out, the vehicle enters it by rule only if a rule of an apartment of its
    * applies. */
  lemma SyncWithdraws(reg: Registry, before: seq<Rule>, v: nat, apartment: Option<Id>, target: set<Id>,
                      passes: seq<Pass>, sessions: seq<Session>, x: EngineInput, threshold: real)
    requires Synced(before, reg.rules, v, apartment, target)
    requires FindVehicle(reg.vehicles, x.plate) == Some(v) && x.zone.Some? && x.zone.value !in target
    requires forall r | r in reg.rules :: r.vehicle != Some(v) ==> !Applies(reg, r, v, x)
    ensures Decide(reg, passes, sessions, x, threshold).reason != Some(PermanentVehicleAllowed)
  {
    ReasonsExactly(reg, passes, sessions, x, threshold, PermanentVehicleAllowed);
    forall r | r in reg.rules ensures !Applies(reg, r, v, x) {
      if r.vehicle == Some(v) && r.active {
        assert r.zone in ActiveZones(reg.rules, v);
      }
    }
  }
}
