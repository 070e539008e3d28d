/** The decision engine: a read-only answer computed from the registry, the passes and the open
  * presence sessions. It writes nothing. */
module Engine {
  import opened Common
  import opened Domain

  datatype VehicleStatus = ActiveVehicle | BlockedVehicle | ArchivedVehicle
  datatype LinkStatus = PendingLink | ActiveLink | RejectedLink | ArchivedLink
  datatype ParkingType = Assigned | Shared
  datatype AssignmentStatus = ActiveAssignment | ExpiredAssignment | RevokedAssignment | ArchivedAssignment

  datatype Vehicle = Vehicle(plate: string, status: VehicleStatus)
  datatype Link = Link(
    vehicle: nat, apartment: Id, status: LinkStatus, validFrom: Option<Instant>, validUntil: Option<Instant>)
  datatype Rule = Rule(
    vehicle: Option<nat>, apartment: Option<Id>, zone: Id, directions: seq<Direction>,
    validFrom: Option<Instant>, validUntil: Option<Instant>, active: bool)
  datatype Zone = Zone(parking: ParkingType, cap: Option<int>)
  datatype Spot = Spot(zone: Id, active: bool)
  datatype Assignment = Assignment(
    spot: nat, apartment: Id, validFrom: Option<Instant>, validUntil: Option<Instant>,
    status: AssignmentStatus, enforceLimit: bool)

  /** The tables the engine reads; vehicles and spots are identified by position. `served` pairs an
    * apartment with each zone that serves its yard. */
  datatype Registry = Registry(
    vehicles: seq<Vehicle>, links: seq<Link>, rules: seq<Rule>, zones: map<Id, Zone>,
    spots: seq<Spot>, assignments: seq<Assignment>, served: set<(Id, Id)>)

  datatype EngineInput = EngineInput(
    zone: Option<Id>, plate: string, direction: Direction, confidence: Option<real>, capturedAt: Instant)

  datatype EngineDecision = EngineDecision(
    decision: DecisionType, reason: Option<Reason>, status: DecisionStatus,
    vehicle: Option<nat>, pass: Option<nat>)

  predicate WithinWindow(moment: Instant, from: Option<Instant>, until: Option<Instant>) {
    && (from.Some? ==> from.value <= moment)
    && (until.Some? ==> moment <= until.value)
  }

  function AllowFor(reason: Reason, vehicle: Option<nat>, pass: Option<nat>): EngineDecision {
    EngineDecision(Allow, Some(reason), Allowed, vehicle, pass)
  }

  function DenyFor(reason: Reason, vehicle: Option<nat>, pass: Option<nat>): EngineDecision {
    EngineDecision(Deny, Some(reason), Denied, vehicle, pass)
  }

  function ReviewFor(reason: Reason, vehicle: Option<nat>): EngineDecision {
    EngineDecision(ManualReview, Some(reason), PendingReview, vehicle, None)
  }

  /** The first vehicle with this plate that is not archived. */
  function FindVehicle(vehicles: seq<Vehicle>, plate: string): (r: Option<nat>)
    ensures r.Some? ==> r.value < |vehicles| && vehicles[r.value].plate == plate
                        && vehicles[r.value].status != ArchivedVehicle
    ensures r.Some? ==> forall i :: 0 <= i < r.value ==>
                          vehicles[i].plate != plate || vehicles[i].status == ArchivedVehicle
    ensures r.None? ==> forall i :: 0 <= i < |vehicles| ==>
                          vehicles[i].plate != plate || vehicles[i].status == ArchivedVehicle
  {
    if vehicles == [] then None
    else
      var n := |vehicles| - 1;
      var earlier := FindVehicle(vehicles[..n], plate);
      if earlier.Some? then earlier
      else if vehicles[n].plate == plate && vehicles[n].status != ArchivedVehicle then Some(n)
      else None
  }

  predicate LinkActive(l: Link, vehicle: nat, moment: Instant) {
    l.vehicle == vehicle && l.status == ActiveLink && WithinWindow(moment, l.validFrom, l.validUntil)
  }

  function ActiveApartments(reg: Registry, vehicle: nat, moment: Instant): set<Id> {
    set l | l in reg.links && LinkActive(l, vehicle, moment) :: l.apartment
  }

  predicate RuleGrants(r: Rule, vehicle: nat, apartments: set<Id>, zone: Option<Id>, direction: Direction,
                       moment: Instant) {
    && r.active
    && Some(r.zone) == zone
    && (r.vehicle == Some(vehicle) || (r.apartment.Some? && r.apartment.value in apartments))
    && WithinWindow(moment, r.validFrom, r.validUntil)
    && (r.directions == [] || direction in r.directions)
  }

  predicate ZoneRuleMatches(rules: seq<Rule>, vehicle: nat, apartments: set<Id>, zone: Option<Id>,
                            direction: Direction, moment: Instant) {
    exists r | r in rules :: RuleGrants(r, vehicle, apartments, zone, direction, moment)
  }

  // ---------------------------------------------------------------- assigned zones

  /** An assignment row the engine considers: on an active spot of the zone, for one of the apartments,
    * in status active or expired. */
  predicate Considered(reg: Registry, a: Assignment, apartments: set<Id>, zone: Id) {
    && a.spot < |reg.spots| && reg.spots[a.spot].zone == zone && reg.spots[a.spot].active
    && a.apartment in apartments
    && (a.status == ActiveAssignment || a.status == ExpiredAssignment)
  }

  predicate Holds(reg: Registry, a: Assignment, apartments: set<Id>, zone: Id, moment: Instant) {
    Considered(reg, a, apartments, zone) && a.status == ActiveAssignment
    && WithinWindow(moment, a.validFrom, a.validUntil)
  }

  function SpotCount(reg: Registry, apartments: set<Id>, zone: Id, moment: Instant): nat {
    Count(reg.assignments, (a: Assignment) => Holds(reg, a, apartments, zone, moment))
  }

  predicate OccupiedBy(s: Session, apartments: set<Id>, zone: Id) {
    s.open && s.zone == zone && s.apartment.Some? && s.apartment.value in apartments
  }

  function OpenSessions(sessions: seq<Session>, apartments: set<Id>, zone: Id): nat {
    Count(sessions, (s: Session) => OccupiedBy(s, apartments, zone))
  }

  function DecideAssigned(reg: Registry, sessions: seq<Session>, vehicle: nat, apartments: set<Id>,
                          zone: Id, moment: Instant): EngineDecision {
    if apartments == {} then DenyFor(SpotNotAssigned, Some(vehicle), None)
    else if exists a | a in reg.assignments :: Holds(reg, a, apartments, zone, moment) then
      if (forall a | a in reg.assignments :: Holds(reg, a, apartments, zone, moment) ==> a.enforceLimit)
         && OpenSessions(sessions, apartments, zone) >= SpotCount(reg, apartments, zone, moment)
      then ReviewFor(ParkingSpotOccupied, Some(vehicle))
      else AllowFor(AssignedSpotAllowed, Some(vehicle), None)
    else if exists a | a in reg.assignments ::
              Considered(reg, a, apartments, zone) && a.validUntil.Some? && a.validUntil.value < moment
    then DenyFor(SpotRentalExpired, Some(vehicle), None)
    else DenyFor(SpotNotAssigned, Some(vehicle), None)
  }

  // ---------------------------------------------------------------- shared zones

  predicate CountsForCap(reg: Registry, l: Link, apartment: Id, moment: Instant) {
    && l.apartment == apartment && l.status == ActiveLink
    && l.vehicle < |reg.vehicles| && reg.vehicles[l.vehicle].status == ActiveVehicle
    && WithinWindow(moment, l.validFrom, l.validUntil)
  }

  function ActiveVehicles(reg: Registry, apartment: Id, moment: Instant): nat {
    Count(reg.links, (l: Link) => CountsForCap(reg, l, apartment, moment))
  }

  function DecideShared(reg: Registry, vehicle: nat, apartments: set<Id>, zone: Id, cap: Option<int>,
                        moment: Instant): EngineDecision {
    var served := set a | a in apartments && (a, zone) in reg.served;
    if served == {} then DenyFor(ZoneNotAllowed, Some(vehicle), None)
    else if cap.Some? && exists a | a in served :: ActiveVehicles(reg, a, moment) > cap.value
    then ReviewFor(PerApartmentLimitExceeded, Some(vehicle))
    else AllowFor(SharedAccessAllowed, Some(vehicle), None)
  }

  // ---------------------------------------------------------------- vehicles and taxi passes

  function DecideVehicle(reg: Registry, sessions: seq<Session>, vehicle: nat, d: EngineInput): EngineDecision
    requires vehicle < |reg.vehicles|
  {
    if reg.vehicles[vehicle].status == BlockedVehicle then DenyFor(VehicleBlocked, Some(vehicle), None)
    else
      var apartments := ActiveApartments(reg, vehicle, d.capturedAt);
      if ZoneRuleMatches(reg.rules, vehicle, apartments, d.zone, d.direction, d.capturedAt)
      then AllowFor(PermanentVehicleAllowed, Some(vehicle), None)
      else if d.zone.Some? && d.zone.value in reg.zones then
        match reg.zones[d.zone.value].parking
        case Assigned => DecideAssigned(reg, sessions, vehicle, apartments, d.zone.value, d.capturedAt)
        case Shared =>
          DecideShared(reg, vehicle, apartments, d.zone.value, reg.zones[d.zone.value].cap, d.capturedAt)
      else DenyFor(ZoneNotAllowed, Some(vehicle), None)
  }

  predicate TaxiCandidate(p: Pass, plate: string) {
    p.kind == Taxi && p.plate == Some(plate) && (p.status == ActivePass || p.status == UsedPass)
  }

  /** The most recently created taxi pass for the plate that is active or used up. */
  function FindTaxi(passes: seq<Pass>, plate: string): (r: Option<nat>)
    ensures r.Some? ==> r.value < |passes| && TaxiCandidate(passes[r.value], plate)
    ensures r.Some? ==> forall i :: 0 <= i < |passes| && TaxiCandidate(passes[i], plate)
                                    ==> passes[i].createdAt <= passes[r.value].createdAt
    ensures r.None? ==> forall i :: 0 <= i < |passes| ==> !TaxiCandidate(passes[i], plate)
  {
    if passes == [] then None
    else
      var n := |passes| - 1;
      var best := FindTaxi(passes[..n], plate);
      if TaxiCandidate(passes[n], plate) && (best.None? || passes[best.value].createdAt < passes[n].createdAt)
      then Some(n) else best
  }

  function DecideTaxi(passes: seq<Pass>, d: EngineInput): EngineDecision {
    match FindTaxi(passes, d.plate)
    case None => DenyFor(VehicleNotFound, None, None)
    case Some(p) =>
      if passes[p].zone.Some? && d.zone.Some? && passes[p].zone != d.zone
      then DenyFor(ZoneNotAllowed, None, Some(p))
      else if !WithinWindow(d.capturedAt, passes[p].validFrom, passes[p].validUntil)
      then DenyFor(PassExpired, None, Some(p))
      else if passes[p].usedEntries >= passes[p].maxEntries
      then DenyFor(PassAlreadyUsed, None, Some(p))
      else AllowFor(TemporaryPassAllowed, None, Some(p))
  }

  function Decide(reg: Registry, passes: seq<Pass>, sessions: seq<Session>, d: EngineInput, threshold: real)
    : EngineDecision
  {
    if d.confidence.Some? && d.confidence.value < threshold then ReviewFor(LowConfidence, None)
    else match FindVehicle(reg.vehicles, d.plate)
      case Some(v) => DecideVehicle(reg, sessions, v, d)
      case None => DecideTaxi(passes, d)
  }

  /** Exits are always allowed; the plate only serves to find the vehicle whose session ends. */
  function DecideExit(reg: Registry, plate: Option<string>): EngineDecision {
    var vehicle := if plate.Some? && plate.value != "" then FindVehicle(reg.vehicles, plate.value) else None;
    EngineDecision(Allow, None, Allowed, vehicle, None)
  }

  /** The apartment a vehicle's sessions are booked to: its first active link, whatever its dates. */
  function ApartmentOf(links: seq<Link>, vehicle: nat): (r: Option<Id>)
    ensures r.Some? ==> exists l | l in links ::
                          l.vehicle == vehicle && l.status == ActiveLink && l.apartment == r.value
    ensures r.None? ==> forall l | l in links :: !(l.vehicle == vehicle && l.status == ActiveLink)
  {
    match FindFirst(links, (l: Link) => l.vehicle == vehicle && l.status == ActiveLink)
    case None => None
    case Some(i) => Some(links[i].apartment)
  }

  /** A link before which the vehicle has no active one gives the apartment. */
  lemma FirstLinkDecides(links: seq<Link>, vehicle: nat, i: nat)
    requires i < |links| && links[i].vehicle == vehicle && links[i].status == ActiveLink
    requires forall j :: 0 <= j < i ==> links[j].vehicle != vehicle || links[j].status != ActiveLink
    ensures ApartmentOf(links, vehicle) == Some(links[i].apartment)
  {
    var found := FindFirst(links, (l: Link) => l.vehicle == vehicle && l.status == ActiveLink);
    assert found == Some(i);
  }
}
