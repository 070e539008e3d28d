/** Reviewing a resident's request, and what an approval makes the engine answer. */
module Requests {
  import opened Common
  import opened Domain
  import opened Engine
  import opened Management

  datatype RequestStatus = PendingRequest | ApprovedRequest | RejectedRequest | CancelledRequest

  datatype Request = Request(
    apartment: Id, original: Option<string>, plate: Option<string>, vehicle: Option<nat>,
    status: RequestStatus, reviewer: Option<Id>, reviewedAt: Option<Instant>, comment: Option<string>)

  datatype Audit = Audit(request: nat, approved: bool, vehicle: Option<nat>, zones: seq<Id>)

  datatype Desk = Desk(
    vehicles: seq<Vehicle>, links: seq<Link>, rules: seq<Rule>, requests: seq<Request>, audits: seq<Audit>)

  datatype ReviewAction = Approve | Reject | OtherAction

  datatype Review = Review(
    request: nat, action: ReviewAction, actor: Id, comment: Option<string>, zones: seq<Id>, now: Instant)

  datatype ReviewOutcome =
    | Reviewed(status: RequestStatus, vehicle: Option<nat>, replayed: bool)
    | UnknownReviewAction | RequestNotFound | PlateConflict

  /** At most one vehicle that is not archived carries a plate; the table enforces it. */
  predicate PlatesUnique(vehicles: seq<Vehicle>) {
    forall i, j :: (0 <= i < j < |vehicles| && vehicles[i].status != ArchivedVehicle
                    && vehicles[j].status != ArchivedVehicle) ==> vehicles[i].plate != vehicles[j].plate
  }

  predicate HasPlate(req: Request) {
    req.plate.Some? && req.plate.value != ""
  }

  /** The vehicle a request already names, if that row exists. */
  function NamedVehicle(vehicles: seq<Vehicle>, req: Request): (r: Option<nat>)
    ensures r.Some? ==> r.value < |vehicles|
  {
    if req.vehicle.Some? && req.vehicle.value < |vehicles| then req.vehicle else None
  }

  /** The vehicle an approval is for: the one named, else the holder of the plate, else a new one. */
  function ResolveVehicle(norm: string -> string, vehicles: seq<Vehicle>, req: Request): (seq<Vehicle>, nat) {
    var known := if NamedVehicle(vehicles, req).Some? then NamedVehicle(vehicles, req)
                 else if HasPlate(req) then FindVehicle(vehicles, req.plate.value) else None;
    if known.Some? then (vehicles, known.value)
    else
      var plate := if HasPlate(req) then req.plate.value
                   else norm(if req.original.Some? then req.original.value else "");
      (vehicles + [Vehicle(plate, ActiveVehicle)], |vehicles|)
  }

  /** Link vehicle and apartment: activate the first link there is, else add one. */
  function EnsureLink(links: seq<Link>, vehicle: nat, apartment: Id): seq<Link> {
    match FindFirst(links, (l: Link) => l.vehicle == vehicle && l.apartment == apartment)
    case Some(i) => links[i := links[i].(status := ActiveLink)]
    case None => links + [Link(vehicle, apartment, ActiveLink, None, None)]
  }

  function AddRules(rules: seq<Rule>, vehicle: nat, apartment: Id, zones: seq<Id>): (r: seq<Rule>)
    ensures |r| == |rules| + |zones| && r[..|rules|] == rules
    ensures forall k :: 0 <= k < |zones| ==> r[|rules| + k] == ZoneRule(vehicle, Some(apartment), zones[k])
  {
    if zones == [] then rules
    else AddRules(rules, vehicle, apartment, zones[..|zones| - 1])
         + [ZoneRule(vehicle, Some(apartment), zones[|zones| - 1])]
  }

  function Close(req: Request, status: RequestStatus, vehicle: Option<nat>, r: Review): Request {
    req.(status := status, vehicle := vehicle, reviewer := Some(r.actor), reviewedAt := Some(r.now),
         comment := r.comment)
  }

  function ApproveRequest(norm: string -> string, d: Desk, r: Review): (Desk, ReviewOutcome)
    requires r.request < |d.requests|
  {
    var req := d.requests[r.request];
    var (vehicles, v) := ResolveVehicle(norm, d.vehicles, req);
    var active := vehicles[v := vehicles[v].(status := ActiveVehicle)];
    if !PlatesUnique(active) then (d, PlateConflict)
    else (Desk(active, EnsureLink(d.links, v, req.apartment), AddRules(d.rules, v, req.apartment, r.zones),
               d.requests[r.request := Close(req, ApprovedRequest, Some(v), r)],
               d.audits + [Audit(r.request, true, Some(v), r.zones)]),
          Reviewed(ApprovedRequest, Some(v), false))
  }

  function RejectRequest(d: Desk, r: Review): (Desk, ReviewOutcome)
    requires r.request < |d.requests|
  {
    var req := d.requests[r.request];
    (d.(requests := d.requests[r.request := Close(req, RejectedRequest, req.vehicle, r)],
        audits := d.audits + [Audit(r.request, false, req.vehicle, r.zones)]),
     Reviewed(RejectedRequest, req.vehicle, false))
  }

  function ReviewRequest(norm: string -> string, d: Desk, r: Review): (Desk, ReviewOutcome) {
    if r.action == OtherAction then (d, UnknownReviewAction)
    else if r.request >= |d.requests| then (d, RequestNotFound)
    else if d.requests[r.request].status != PendingRequest
    then (d, Reviewed(d.requests[r.request].status, d.requests[r.request].vehicle, true))
    else if r.action == Approve then ApproveRequest(norm, d, r)
    else RejectRequest(d, r)
  }

  // ---------------------------------------------------------------- laws

  predicate LinkOf(l: Link, vehicle: nat, apartment: Id) {
    l.vehicle == vehicle && l.apartment == apartment
  }

  /** Afterwards vehicle and apartment are linked and active: by a link there was, whose dates it keeps, or by
    * a new undated one where there was none. No other row is touched. */
  ghost predicate Ensured(before: seq<Link>, after: seq<Link>, vehicle: nat, apartment: Id) {
    && (exists l :: l in after && LinkOf(l, vehicle, apartment) && l.status == ActiveLink)
    && |before| <= |after|
    && (|after| > |before| <==> forall l :: l in before ==> !LinkOf(l, vehicle, apartment))
    && (|after| > |before| ==> after[..|before|] == before && |after| == |before| + 1
                               && after[|before|].validFrom.None? && after[|before|].validUntil.None?)
    && (forall i :: 0 <= i < |before| && !LinkOf(before[i], vehicle, apartment) ==> after[i] == before[i])
    && (forall i :: 0 <= i < |before| ==> after[i] == before[i].(status := after[i].status))
    && (forall i, j :: 0 <= i < j < |before| && after[i] != before[i] ==> after[j] == before[j])
  }

  lemma LinkIsEnsured(links: seq<Link>, vehicle: nat, apartment: Id)
    ensures Ensured(links, EnsureLink(links, vehicle, apartment), vehicle, apartment)
  {
    var after := EnsureLink(links, vehicle, apartment);
    var found := FindFirst(links, (l: Link) => l.vehicle == vehicle && l.apartment == apartment);
    var i := if found.Some? then found.value else |links|;
    assert after[i] in after && LinkOf(after[i], vehicle, apartment);
    assert found.Some? ==> links[i] in links;
  }

  /** A second approval finds the link and changes none. */
  lemma SecondLinkIsIdle(links: seq<Link>, vehicle: nat, apartment: Id)
    ensures var once := EnsureLink(links, vehicle, apartment); EnsureLink(once, vehicle, apartment) == once
  {
    var once := EnsureLink(links, vehicle, apartment);
    var pair := (l: Link) => l.vehicle == vehicle && l.apartment == apartment;
    var found := FindFirst(links, pair);
    var i := if found.Some? then found.value else |links|;
    var again := FindFirst(once, pair);
    assert pair(once[i]) && again.Some?;
    assert forall k :: 0 <= k < i ==> once[k] == links[k] && !pair(links[k]);
    assert again.value == i;
    assert once[i].(status := ActiveLink) == once[i];
  }

  /** A second review of a request, by anyone and with any action, changes nothing and returns the first
    * review's result. */
  lemma SecondReviewCreatesNothing(norm: string -> string, d: Desk, first: Review, second: Review)
    requires first.request == second.request && second.action != OtherAction
    ensures var (after, outcome) := ReviewRequest(norm, d, first);
            outcome.Reviewed? ==> ReviewRequest(norm, after, second) == (after, outcome.(replayed := true))
  {
  }

  /** An approval is refused exactly when another vehicle that is not archived holds the plate: the request
    * names an archived vehicle whose plate was reissued, or names no plate and normalises to one in use. */
  lemma RefusedExactlyWhenPlateTaken(norm: string -> string, d: Desk, r: Review)
    requires PlatesUnique(d.vehicles) && r.request < |d.requests|
    ensures var (after, outcome) := ApproveRequest(norm, d, r);
            var (vehicles, v) := ResolveVehicle(norm, d.vehicles, d.requests[r.request]);
            && PlatesUnique(after.vehicles)
            && (outcome.PlateConflict? <==>
                  exists j :: 0 <= j < |d.vehicles| && j != v && d.vehicles[j].status != ArchivedVehicle
                              && d.vehicles[j].plate == vehicles[v].plate)
  {
    var (vehicles, v) := ResolveVehicle(norm, d.vehicles, d.requests[r.request]);
    var active := vehicles[v := vehicles[v].(status := ActiveVehicle)];
    forall j | 0 <= j < |d.vehicles| && j != v ensures active[j] == d.vehicles[j] {
    }
    if j :| 0 <= j < |d.vehicles| && j != v && d.vehicles[j].status != ArchivedVehicle
            && d.vehicles[j].plate == vehicles[v].plate {
      assert active[j].plate == active[v].plate;
    }
  }

  /** The plate's holder after activating it is the only one: approving by plate never conflicts. */
  lemma ApprovalByPlate(norm: string -> string, d: Desk, r: Review)
    requires PlatesUnique(d.vehicles) && r.request < |d.requests|
    requires d.requests[r.request].vehicle.None? && HasPlate(d.requests[r.request])
    ensures var (vehicles, v) := ResolveVehicle(norm, d.vehicles, d.requests[r.request]);
            var active := vehicles[v := vehicles[v].(status := ActiveVehicle)];
            PlatesUnique(active) && active[v] == Vehicle(d.requests[r.request].plate.value, ActiveVehicle)
  {
  }

  /** Where the plate's holder is unique, the engine finds it. */
  lemma HolderFound(vehicles: seq<Vehicle>, v: nat)
    requires PlatesUnique(vehicles) && v < |vehicles| && vehicles[v].status != ArchivedVehicle
    ensures FindVehicle(vehicles, vehicles[v].plate) == Some(v)
  {
    var found := FindVehicle(vehicles, vehicles[v].plate);
    assert found.Some?;
  }

  /** An explicit zone rule of an active vehicle decides its entries there. */
  lemma ExplicitRuleAllows(reg: Registry, passes: seq<Pass>, sessions: seq<Session>, x: EngineInput, threshold: real,
                           v: nat, rule: Rule)
    requires FindVehicle(reg.vehicles, x.plate) == Some(v) && reg.vehicles[v].status == ActiveVehicle
    requires rule in reg.rules && rule == ZoneRule(v, rule.apartment, rule.zone)
    requires x.zone == Some(rule.zone) && x.direction == Entry
    requires x.confidence.Some? ==> threshold <= x.confidence.value
    ensures Decide(reg, passes, sessions, x, threshold) == AllowFor(PermanentVehicleAllowed, Some(v), None)
  {
    var apartments := ActiveApartments(reg, v, x.capturedAt);
    assert RuleGrants(rule, v, apartments, x.zone, x.direction, x.capturedAt);
  }

  /** After the approval of a resident's pending request with a plate, every confident entry with that
    * plate in an approved zone is decided `permanent_vehicle_allowed`: with any passes, sessions and
    * other rows, as long as the vehicle's row and its new rules stay. */
  lemma GrantsTakeEffect(norm: string -> string, d: Desk, r: Review, later: Registry, passes: seq<Pass>,
                         sessions: seq<Session>, x: EngineInput, threshold: real)
    requires PlatesUnique(d.vehicles) && r.request < |d.requests| && r.action == Approve
    requires d.requests[r.request].status == PendingRequest && d.requests[r.request].vehicle.None?
    requires HasPlate(d.requests[r.request])
    requires x.plate == d.requests[r.request].plate.value && x.direction == Entry
    requires x.zone.Some? && x.zone.value in r.zones
    requires x.confidence.Some? ==> threshold <= x.confidence.value
    ensures var (after, outcome) := ReviewRequest(norm, d, r);
            && outcome.Reviewed? && outcome.vehicle.Some? && outcome.vehicle.value < |after.vehicles|
            && (PlatesUnique(later.vehicles) && StillGranted(after, later, outcome.vehicle.value) ==>
                  Decide(later, passes, sessions, x, threshold)
                  == AllowFor(PermanentVehicleAllowed, outcome.vehicle, None))
  {
    ApprovalByPlate(norm, d, r);
    var (after, outcome) := ReviewRequest(norm, d, r);
    var v := outcome.vehicle.value;
    var k :| 0 <= k < |r.zones| && r.zones[k] == x.zone.value;
    var rule := ZoneRule(v, Some(d.requests[r.request].apartment), x.zone.value);
    assert after.rules[|d.rules| + k] == rule;
    if PlatesUnique(later.vehicles) && StillGranted(after, later, v) {
      HolderFound(later.vehicles, v);
      ExplicitRuleAllows(later, passes, sessions, x, threshold, v, rule);
    }
  }

  /** The vehicle's row is as it was and its rules are all still there. */
  ghost predicate StillGranted(after: Desk, later: Registry, v: nat)
    requires v < |after.vehicles|
  {
    && v < |later.vehicles| && later.vehicles[v] == after.vehicles[v]
    && forall rule :: rule in after.rules && rule.vehicle == Some(v) ==> rule in later.rules
  }

  // ---------------------------------------------------------------- what a review leaves

  /** The request carries the review's result. */
  predicate Carries(before: Request, after: Request, r: Review, status: RequestStatus, vehicle: Option<nat>) {
    after == Request(before.apartment, before.original, before.plate, vehicle, status, Some(r.actor), Some(r.now),
                     r.comment)
  }

  /** Only this request changed, and one audit row says how. */
  ghost predicate Filed(d: Desk, after: Desk, r: Review, status: RequestStatus, vehicle: Option<nat>) {
    && r.request < |d.requests| == |after.requests|
    && Carries(d.requests[r.request], after.requests[r.request], r, status, vehicle)
    && (forall i :: 0 <= i < |d.requests| && i != r.request ==> after.requests[i] == d.requests[i])
    && after.audits == d.audits + [Audit(r.request, status == ApprovedRequest, vehicle, r.zones)]
  }

  /** An approval names a vehicle, active and not renamed, with an active link to the request's apartment and one new
    * entry rule for each approved zone; no other vehicle, link or rule changed. */
  ghost predicate Granted(d: Desk, after: Desk, req: Request, v: nat, zones: seq<Id>) {
    && v < |after.vehicles| && |d.vehicles| <= |after.vehicles| <= |d.vehicles| + 1
    && after.vehicles[v].status == ActiveVehicle
    && (v < |d.vehicles| ==> after.vehicles[v].plate == d.vehicles[v].plate && |after.vehicles| == |d.vehicles|)
    && (forall i :: 0 <= i < |d.vehicles| && i != v ==> after.vehicles[i] == d.vehicles[i])
    && (exists l :: l in after.links && l.vehicle == v && l.apartment == req.apartment && l.status == ActiveLink)
    && (forall i :: 0 <= i < |d.links| && (d.links[i].vehicle != v || d.links[i].apartment != req.apartment) ==>
          i < |after.links| && after.links[i] == d.links[i])
    && |after.rules| == |d.rules| + |zones| && after.rules[..|d.rules|] == d.rules
    && (forall k :: 0 <= k < |zones| ==>
          after.rules[|d.rules| + k] == Rule(Some(v), Some(req.apartment), zones[k], [Entry], None, None, true))
  }

  /** Which vehicle is approved: the one the request names; else the first that carries its plate and is not archived;
    * else a new one with the plate, or with the normal form of what was written. */
  ghost predicate ForVehicle(norm: string -> string, d: Desk, after: Desk, req: Request, v: nat) {
    var named := req.vehicle.Some? && req.vehicle.value < |d.vehicles|;
    var held := req.plate.Some? && req.plate.value != "" && FindVehicle(d.vehicles, req.plate.value).Some?;
    if named then v == req.vehicle.value
    else if held then Some(v) == FindVehicle(d.vehicles, req.plate.value)
    else
      && v == |d.vehicles| < |after.vehicles|
      && after.vehicles[v].plate == (if req.plate.Some? && req.plate.value != "" then req.plate.value
                                     else norm(if req.original.Some? then req.original.value else ""))
  }

  /** A first review closes the request: an approval grants what was asked for, a rejection changes no vehicle, link or
    * rule, and a refusal changes nothing at all. */
  lemma ReviewLeaves(norm: string -> string, d: Desk, r: Review)
    requires r.request < |d.requests| && d.requests[r.request].status == PendingRequest && r.action != OtherAction
    ensures var (after, outcome) := ReviewRequest(norm, d, r);
            var req := d.requests[r.request];
            match outcome
            case Reviewed(status, vehicle, replayed) =>
              && !replayed && Filed(d, after, r, status, vehicle)
              && if r.action == Approve then
                   && status == ApprovedRequest && vehicle.Some?
                   && Granted(d, after, req, vehicle.value, r.zones) && ForVehicle(norm, d, after, req, vehicle.value)
                 else
                   && status == RejectedRequest && vehicle == req.vehicle
                   && after.vehicles == d.vehicles && after.links == d.links && after.rules == d.rules
            case PlateConflict => r.action == Approve && after == d
            case _ => false
  {
    var req := d.requests[r.request];
    if r.action == Approve {
      var (vehicles, v) := ResolveVehicle(norm, d.vehicles, req);
      LinkIsEnsured(d.links, v, req.apartment);
    }
  }

  /** An action that is neither, an unknown request and a request that is not pending change nothing. */
  lemma OtherReviewsChangeNothing(norm: string -> string, d: Desk, r: Review)
    requires r.action == OtherAction || r.request >= |d.requests| || d.requests[r.request].status != PendingRequest
    ensures var (after, outcome) := ReviewRequest(norm, d, r);
            && after == d
            && outcome == if r.action == OtherAction then UnknownReviewAction
                          else if r.request >= |d.requests| then RequestNotFound
                          else Reviewed(d.requests[r.request].status, d.requests[r.request].vehicle, true)
  {
  }

  // ---------------------------------------------------------------- the service

  class RequestDesk {
    var vehicles: seq<Vehicle>
    var links: seq<Link>
    var rules: seq<Rule>
    var requests: seq<Request>
    var audits: seq<Audit>

    function Contents(): Desk reads this {
      Desk(vehicles, links, rules, requests, audits)
    }

    constructor (d: Desk)
      ensures Contents() == d
    {
      vehicles, links, rules, requests, audits := d.vehicles, d.links, d.rules, d.requests, d.audits;
    }

    method ResolveOrCreateVehicle(norm: string -> string, req: Request) returns (v: nat)
      modifies this`vehicles
      ensures (vehicles, v) == ResolveVehicle(norm, old(vehicles), req) && v < |vehicles|
    {
      if req.vehicle.Some? && req.vehicle.value < |vehicles| {
        return req.vehicle.value;
      }
      if HasPlate(req) {
        var holder := FindVehicle(vehicles, req.plate.value);
        if holder.Some? {
          return holder.value;
        }
      }
      var original := if req.original.Some? then req.original.value else if HasPlate(req) then req.plate.value else "";
      vehicles := vehicles + [Vehicle(if HasPlate(req) then req.plate.value else norm(original), ActiveVehicle)];
      v := |vehicles| - 1;
    }

    method EnsureActiveLink(vehicle: nat, apartment: Id)
      modifies this`links
      ensures links == EnsureLink(old(links), vehicle, apartment)
      ensures Ensured(old(links), links, vehicle, apartment)
    {
      LinkIsEnsured(links, vehicle, apartment);
      var existing := FindFirst(links, (l: Link) => l.vehicle == vehicle && l.apartment == apartment);
      if existing.Some? {
        if links[existing.value].status != ActiveLink {
          links := links[existing.value := links[existing.value].(status := ActiveLink)];
        }
        return;
      }
      links := links + [Link(vehicle, apartment, ActiveLink, None, None)];
    }

    method AddZoneRules(vehicle: nat, apartment: Id, zones: seq<Id>)
      modifies this`rules
      ensures rules == AddRules(old(rules), vehicle, apartment, zones)
    {
      var k := 0;
      while k < |zones|
        invariant k <= |zones| && rules == AddRules(old(rules), vehicle, apartment, zones[..k])
      {
        assert zones[..k + 1][..k] == zones[..k];
        rules := rules + [ZoneRule(vehicle, Some(apartment), zones[k])];
        k := k + 1;
      }
      assert zones[..k] == zones;
    }

    method Review(norm: string -> string, r: Review) returns (outcome: ReviewOutcome)
      modifies this
      ensures (Contents(), outcome) == ReviewRequest(norm, old(Contents()), r)
    {
      if r.action == OtherAction {
        return UnknownReviewAction;
      }
      if r.request >= |requests| {
        return RequestNotFound;
      }
      var req := requests[r.request];
      if req.status != PendingRequest {
        return Reviewed(req.status, req.vehicle, true);
      }
      if r.action == Approve {
        ghost var before := Contents();
        var was := vehicles;
        var v := ResolveOrCreateVehicle(norm, req);
        if vehicles[v].status != ActiveVehicle {
          vehicles := vehicles[v := vehicles[v].(status := ActiveVehicle)];
        }
        ghost var resolved := ResolveVehicle(norm, was, req).0;
        assert vehicles == resolved[v := resolved[v].(status := ActiveVehicle)];
        if !PlatesUnique(vehicles) {
          vehicles := was;
          return PlateConflict;
        }
        EnsureActiveLink(v, req.apartment);
        AddZoneRules(v, req.apartment, r.zones);
        requests := requests[r.request := req.(status := ApprovedRequest, vehicle := Some(v), reviewer := Some(r.actor),
                                               reviewedAt := Some(r.now), comment := r.comment)];
        audits := audits + [Audit(r.request, true, Some(v), r.zones)];
        outcome := Reviewed(ApprovedRequest, Some(v), false);
      } else {
        requests := requests[r.request := req.(status := RejectedRequest, reviewer := Some(r.actor),
                                               reviewedAt := Some(r.now), comment := r.comment)];
        audits := audits + [Audit(r.request, false, req.vehicle, r.zones)];
        outcome := Reviewed(RejectedRequest, req.vehicle, false);
      }
    }
  }
}
