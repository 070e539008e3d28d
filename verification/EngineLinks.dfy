/** When linking a vehicle to an apartment lowers an answer.
  *
  * Unlike the edits of `EngineLaws`, a new link can turn an allow into a manual review, in two ways: it
  * fills the cap of a shared zone, or it brings its own vehicle under an apartment whose spots are taken.
  */
module EngineLinks {
  import opened Common
  import opened Domain
  import opened Engine
  import opened EngineLaws

  function AddLink(t: Tables, l: Link): Tables {
    t.(reg := t.reg.(links := t.reg.links + [l]))
  }

  predicate Applies(l: Link, at: Instant) {
    l.status == ActiveLink && WithinWindow(at, l.validFrom, l.validUntil)
  }

  /** The linked vehicle is on record and active. */
  predicate Carried(reg: Registry, l: Link) {
    l.vehicle < |reg.vehicles| && reg.vehicles[l.vehicle].status == ActiveVehicle
  }

  /** The apartments of a vehicle once the link is there. */
  function ApartmentsWith(reg: Registry, l: Link, v: nat, at: Instant): set<Id> {
    ActiveApartments(reg, v, at) + (if l.vehicle == v && Applies(l, at) then {l.apartment} else {})
  }

  // ---------------------------------------------------------------- the two ways to lower an answer

  ghost predicate UnderCap(reg: Registry, apartments: set<Id>, zone: Id, cap: int, at: Instant) {
    && (exists a :: a in apartments && (a, zone) in reg.served)
    && forall a :: a in apartments && (a, zone) in reg.served ==> ActiveVehicles(reg, a, at) <= cap
  }

  /** The link's apartment is served and full, it is or becomes one of the vehicle's, and the vehicle's
    * apartments were within the cap so far. */
  ghost predicate CrossesCap(reg: Registry, l: Link, v: nat, zone: Id, cap: Option<int>, at: Instant) {
    && cap.Some? && Carried(reg, l)
    && (l.apartment, zone) in reg.served && cap.value <= ActiveVehicles(reg, l.apartment, at)
    && (l.vehicle == v || l.apartment in ActiveApartments(reg, v, at))
    && UnderCap(reg, ActiveApartments(reg, v, at), zone, cap.value, at)
  }

  ghost predicate AllEnforced(reg: Registry, apartments: set<Id>, zone: Id, at: Instant) {
    forall a :: a in reg.assignments && Holds(reg, a, apartments, zone, at) ==> a.enforceLimit
  }

  /** The link brings its vehicle an apartment with so many more cars inside than spots that the vehicle's
    * free spot is gone. */
  ghost predicate CrowdsOut(t: Tables, l: Link, v: nat, zone: Id, at: Instant) {
    var apartments := ActiveApartments(t.reg, v, at);
    && l.vehicle == v && l.apartment !in apartments
    && (exists a :: a in t.reg.assignments && Holds(t.reg, a, apartments, zone, at))
    && AllEnforced(t.reg, apartments + {l.apartment}, zone, at)
    && OpenSessions(t.sessions, apartments, zone) < SpotCount(t.reg, apartments, zone, at)
    && SpotCount(t.reg, apartments, zone, at) + SpotCount(t.reg, {l.apartment}, zone, at)
       <= OpenSessions(t.sessions, apartments, zone) + OpenSessions(t.sessions, {l.apartment}, zone)
  }

  /** No explicit rule admits the vehicle, with the link. */
  ghost predicate Unruled(reg: Registry, l: Link, v: nat, zone: Id, dir: Direction, at: Instant) {
    !ZoneRuleMatches(reg.rules, v, ApartmentsWith(reg, l, v, at), Some(zone), dir, at)
  }

  ghost predicate Hurts(t: Tables, l: Link, v: nat, zone: Id, dir: Direction, at: Instant) {
    && Applies(l, at) && zone in t.reg.zones && Unruled(t.reg, l, v, zone, dir, at)
    && if t.reg.zones[zone].parking == Shared then CrossesCap(t.reg, l, v, zone, t.reg.zones[zone].cap, at)
       else CrowdsOut(t, l, v, zone, at)
  }

  // ---------------------------------------------------------------- what the link changes

  lemma LinkedApartments(t: Tables, l: Link, v: nat, at: Instant)
    ensures ActiveApartments(AddLink(t, l).reg, v, at) == ApartmentsWith(t.reg, l, v, at)
  {
    var after := AddLink(t, l).reg.links;
    assert after[|t.reg.links|] == l && l in after;
    assert forall k :: k in after <==> k in t.reg.links || k == l;
  }

  lemma LinkedCount(t: Tables, l: Link, a: Id, at: Instant)
    ensures ActiveVehicles(AddLink(t, l).reg, a, at)
         == ActiveVehicles(t.reg, a, at) + (if Applies(l, at) && Carried(t.reg, l) && l.apartment == a then 1 else 0)
  {
    var after := AddLink(t, l).reg;
    CountOne(t.reg.links, l, (k: Link) => CountsForCap(after, k, a, at));
    CountCongruent(t.reg.links, (k: Link) => CountsForCap(after, k, a, at),
                   (k: Link) => CountsForCap(t.reg, k, a, at));
  }

  /** Counts over disjoint apartments add up. */
  lemma {:induction false} CountDisjoint<T>(s: seq<T>, p: T -> bool, q: T -> bool, r: T -> bool)
    requires forall i :: 0 <= i < |s| ==> (p(s[i]) <==> q(s[i]) || r(s[i])) && !(q(s[i]) && r(s[i]))
    ensures Count(s, p) == Count(s, q) + Count(s, r)
  {
    if s != [] {
      CountDisjoint(s[..|s| - 1], p, q, r);
    }
  }

  lemma OneMoreApartment(t: Tables, apartments: set<Id>, a: Id, zone: Id, at: Instant)
    requires a !in apartments
    ensures SpotCount(t.reg, apartments + {a}, zone, at)
         == SpotCount(t.reg, apartments, zone, at) + SpotCount(t.reg, {a}, zone, at)
    ensures OpenSessions(t.sessions, apartments + {a}, zone)
         == OpenSessions(t.sessions, apartments, zone) + OpenSessions(t.sessions, {a}, zone)
  {
    CountDisjoint(t.reg.assignments, (b: Assignment) => Holds(t.reg, b, apartments + {a}, zone, at),
                  (b: Assignment) => Holds(t.reg, b, apartments, zone, at),
                  (b: Assignment) => Holds(t.reg, b, {a}, zone, at));
    CountDisjoint(t.sessions, (s: Session) => OccupiedBy(s, apartments + {a}, zone),
                  (s: Session) => OccupiedBy(s, apartments, zone), (s: Session) => OccupiedBy(s, {a}, zone));
  }

  lemma LinksNotRead(t: Tables, l: Link, v: nat, apartments: set<Id>, zone: Id, at: Instant)
    ensures DecideAssigned(AddLink(t, l).reg, t.sessions, v, apartments, zone, at)
         == DecideAssigned(t.reg, t.sessions, v, apartments, zone, at)
  {
    CountCongruent(t.reg.assignments, (b: Assignment) => Holds(AddLink(t, l).reg, b, apartments, zone, at),
                   (b: Assignment) => Holds(t.reg, b, apartments, zone, at));
  }

  // ---------------------------------------------------------------- zone by zone

  lemma AssignedWithLink(t: Tables, l: Link, v: nat, zone: Id, at: Instant)
    requires Applies(l, at)
    ensures var before := DecideAssigned(t.reg, t.sessions, v, ActiveApartments(t.reg, v, at), zone, at);
            var after := DecideAssigned(t.reg, t.sessions, v, ApartmentsWith(t.reg, l, v, at), zone, at);
            Rank(after) < Rank(before) <==> CrowdsOut(t, l, v, zone, at)
  {
    var apartments := ActiveApartments(t.reg, v, at);
    if l.vehicle == v && l.apartment !in apartments {
      OneMoreApartment(t, apartments, l.apartment, zone, at);
      assert ApartmentsWith(t.reg, l, v, at) == apartments + {l.apartment};
      assert forall a :: a in t.reg.assignments && Holds(t.reg, a, apartments, zone, at) ==>
               Holds(t.reg, a, apartments + {l.apartment}, zone, at);
    } else {
      assert ApartmentsWith(t.reg, l, v, at) == apartments;
    }
  }

  /** When a shared zone allows. */
  lemma SharedAllows(reg: Registry, v: nat, apartments: set<Id>, zone: Id, cap: Option<int>, at: Instant)
    ensures DecideShared(reg, v, apartments, zone, cap, at).decision == Allow
            <==> (exists a :: a in apartments && (a, zone) in reg.served)
                 && (cap.Some? ==> UnderCap(reg, apartments, zone, cap.value, at))
    ensures DecideShared(reg, v, apartments, zone, cap, at).decision == Deny
            <==> !exists a :: a in apartments && (a, zone) in reg.served
  {
    var served := set a | a in apartments && (a, zone) in reg.served;
    if a :| a in apartments && (a, zone) in reg.served {
      assert a in served;
    }
  }

  lemma SharedWithLink(t: Tables, l: Link, v: nat, zone: Id, cap: Option<int>, at: Instant)
    requires Applies(l, at) && v < |t.reg.vehicles| && t.reg.vehicles[v].status == ActiveVehicle
    ensures var before := DecideShared(t.reg, v, ActiveApartments(t.reg, v, at), zone, cap, at);
            var after := DecideShared(AddLink(t, l).reg, v, ApartmentsWith(t.reg, l, v, at), zone, cap, at);
            Rank(after) < Rank(before) <==> CrossesCap(t.reg, l, v, zone, cap, at)
  {
    var apartments, wider := ActiveApartments(t.reg, v, at), ApartmentsWith(t.reg, l, v, at);
    SharedAllows(t.reg, v, apartments, zone, cap, at);
    SharedAllows(AddLink(t, l).reg, v, wider, zone, cap, at);
    forall a: Id
      ensures ActiveVehicles(AddLink(t, l).reg, a, at)
           == ActiveVehicles(t.reg, a, at) + (if Carried(t.reg, l) && l.apartment == a then 1 else 0)
    {
      LinkedCount(t, l, a, at);
    }
    if cap.Some? {
      CapWithLink(t, l, v, zone, cap.value, at);
    }
  }

  /** Where the vehicle was within the cap, it no longer is exactly when the link's apartment was full. */
  lemma CapWithLink(t: Tables, l: Link, v: nat, zone: Id, cap: int, at: Instant)
    requires Applies(l, at) && v < |t.reg.vehicles| && t.reg.vehicles[v].status == ActiveVehicle
    ensures UnderCap(t.reg, ActiveApartments(t.reg, v, at), zone, cap, at) ==>
              (UnderCap(AddLink(t, l).reg, ApartmentsWith(t.reg, l, v, at), zone, cap, at)
               <==> !CrossesCap(t.reg, l, v, zone, Some(cap), at))
  {
    forall a: Id
      ensures ActiveVehicles(AddLink(t, l).reg, a, at)
           == ActiveVehicles(t.reg, a, at) + (if Carried(t.reg, l) && l.apartment == a then 1 else 0)
    {
      LinkedCount(t, l, a, at);
    }
  }

  // ---------------------------------------------------------------- the exact condition

  /** The vehicle is the one its plate finds, and is not blocked. */
  predicate Judged(reg: Registry, v: nat) {
    v < |reg.vehicles| && FindVehicle(reg.vehicles, reg.vehicles[v].plate) == Some(v)
    && reg.vehicles[v].status == ActiveVehicle
  }

  ghost predicate HurtsAnswer(t: Tables, l: Link, d: EngineInput, threshold: real) {
    var found := FindVehicle(t.reg.vehicles, d.plate);
    && !(d.confidence.Some? && d.confidence.value < threshold)
    && found.Some? && t.reg.vehicles[found.value].status == ActiveVehicle
    && d.zone.Some? && Hurts(t, l, found.value, d.zone.value, d.direction, d.capturedAt)
  }

  lemma VehicleWithLink(t: Tables, l: Link, v: nat, d: EngineInput)
    requires v < |t.reg.vehicles| && t.reg.vehicles[v].status == ActiveVehicle
    ensures Rank(DecideVehicle(AddLink(t, l).reg, t.sessions, v, d)) < Rank(DecideVehicle(t.reg, t.sessions, v, d))
            <==> d.zone.Some? && Hurts(t, l, v, d.zone.value, d.direction, d.capturedAt)
  {
    var at := d.capturedAt;
    var apartments, wider := ActiveApartments(t.reg, v, at), ApartmentsWith(t.reg, l, v, at);
    LinkedApartments(t, l, v, at);
    RulesWiden(t.reg.rules, v, apartments, wider, d);
    if d.zone.Some? && d.zone.value in t.reg.zones {
      var zone := t.reg.zones[d.zone.value];
      if Applies(l, at) {
        LinksNotRead(t, l, v, wider, d.zone.value, at);
        AssignedWithLink(t, l, v, d.zone.value, at);
        SharedWithLink(t, l, v, d.zone.value, zone.cap, at);
      } else {
        InertLink(t, l, v, d.zone.value, zone.cap, at);
      }
    }
  }

  lemma RulesWiden(rules: seq<Rule>, v: nat, apartments: set<Id>, wider: set<Id>, d: EngineInput)
    requires apartments <= wider
    ensures ZoneRuleMatches(rules, v, apartments, d.zone, d.direction, d.capturedAt)
            ==> ZoneRuleMatches(rules, v, wider, d.zone, d.direction, d.capturedAt)
  {
    if r :| r in rules && RuleGrants(r, v, apartments, d.zone, d.direction, d.capturedAt) {
      assert RuleGrants(r, v, wider, d.zone, d.direction, d.capturedAt);
    }
  }

  /** A link that does not apply at the moment changes nothing. */
  lemma InertLink(t: Tables, l: Link, v: nat, zone: Id, cap: Option<int>, at: Instant)
    requires !Applies(l, at)
    ensures var apartments := ActiveApartments(t.reg, v, at);
            && ApartmentsWith(t.reg, l, v, at) == apartments
            && DecideAssigned(AddLink(t, l).reg, t.sessions, v, apartments, zone, at)
            == DecideAssigned(t.reg, t.sessions, v, apartments, zone, at)
            && DecideShared(AddLink(t, l).reg, v, apartments, zone, cap, at)
            == DecideShared(t.reg, v, apartments, zone, cap, at)
  {
    LinksNotRead(t, l, v, ActiveApartments(t.reg, v, at), zone, at);
    forall a: Id ensures ActiveVehicles(AddLink(t, l).reg, a, at) == ActiveVehicles(t.reg, a, at) {
      LinkedCount(t, l, a, at);
    }
  }

  /** For every event: the link lowers its answer exactly when it crosses a cap or crowds out a spot. */
  lemma LinkLowersExactlyWhenItHurts(t: Tables, l: Link, passes: seq<Pass>, d: EngineInput, threshold: real)
    ensures Rank(Answer(AddLink(t, l), passes, d, threshold)) < Rank(Answer(t, passes, d, threshold))
            <==> HurtsAnswer(t, l, d, threshold)
  {
    var found := FindVehicle(t.reg.vehicles, d.plate);
    if found.Some? && t.reg.vehicles[found.value].status == ActiveVehicle {
      VehicleWithLink(t, l, found.value, d);
    }
  }

  ghost predicate NeverLowers(t: Tables, l: Link) {
    forall passes: seq<Pass>, d: EngineInput, threshold: real ::
      Rank(Answer(AddLink(t, l), passes, d, threshold)) >= Rank(Answer(t, passes, d, threshold))
  }

  /** The link spares every vehicle in every zone at every moment. */
  ghost predicate Spares(t: Tables, l: Link) {
    forall v: nat, zone: Id, dir: Direction, at: Instant :: Judged(t.reg, v) ==> !Hurts(t, l, v, zone, dir, at)
  }

  /** A link never lowers any answer exactly when it neither crosses a cap nor crowds out a spot. */
  lemma SafeExactlyWhenItSpares(t: Tables, l: Link)
    ensures NeverLowers(t, l) <==> Spares(t, l)
  {
    if Spares(t, l) {
      forall passes: seq<Pass>, d: EngineInput, threshold: real
        ensures Rank(Answer(AddLink(t, l), passes, d, threshold)) >= Rank(Answer(t, passes, d, threshold))
      {
        LinkLowersExactlyWhenItHurts(t, l, passes, d, threshold);
        FoundIsJudged(t.reg, d.plate);
      }
    } else {
      var v: nat, zone: Id, dir: Direction, at: Instant :| Judged(t.reg, v) && Hurts(t, l, v, zone, dir, at);
      var d := EngineInput(Some(zone), t.reg.vehicles[v].plate, dir, None, at);
      LinkLowersExactlyWhenItHurts(t, l, [], d, 0.0);
      assert Rank(Answer(AddLink(t, l), [], d, 0.0)) < Rank(Answer(t, [], d, 0.0));
    }
  }

  lemma FoundIsJudged(reg: Registry, plate: string)
    ensures var found := FindVehicle(reg.vehicles, plate);
            found.Some? && reg.vehicles[found.value].status == ActiveVehicle ==> Judged(reg, found.value)
  {
    var found := FindVehicle(reg.vehicles, plate);
    assert found.Some? ==> FindVehicle(reg.vehicles, reg.vehicles[found.value].plate) == found;
  }

  // ---------------------------------------------------------------- in a caller's terms

  predicate CappedFor(reg: Registry, l: Link, zone: Id) {
    && zone in reg.zones && reg.zones[zone].parking == Shared && reg.zones[zone].cap.Some?
    && (l.apartment, zone) in reg.served
  }

  /** No capped shared zone that serves the apartment is full, at any moment of the link. */
  ghost predicate RoomUnderCaps(reg: Registry, l: Link) {
    forall zone: Id, at: Instant :: CappedFor(reg, l, zone) && Applies(l, at) ==>
      ActiveVehicles(reg, l.apartment, at) < reg.zones[zone].cap.value
  }

  /** A link that is not active, or of a vehicle that is not, is always safe. Otherwise room under the caps
    * spares every vehicle but the linked one, and that one too outside assigned zones or when it already
    * belongs to the apartment. */
  lemma SafeLinks(t: Tables, l: Link, v: nat, zone: Id, dir: Direction, at: Instant)
    requires Judged(t.reg, v)
    requires || l.status != ActiveLink || !Carried(t.reg, l)
             || (RoomUnderCaps(t.reg, l)
                 && (v != l.vehicle || l.apartment in ActiveApartments(t.reg, v, at)
                     || (zone in t.reg.zones && t.reg.zones[zone].parking == Shared)))
    ensures !Hurts(t, l, v, zone, dir, at)
  {
    assert zone in t.reg.zones && Applies(l, at) && CappedFor(t.reg, l, zone) && RoomUnderCaps(t.reg, l) ==>
      ActiveVehicles(t.reg, l.apartment, at) < t.reg.zones[zone].cap.value;
  }

  /** Apartment 1 has a free spot in the assigned zone, apartment 2 a car inside and no spot. */
  function TwoApartments(zone: Id): Tables {
    Tables(Registry([Vehicle("A", ActiveVehicle)], [LinkTo(0, 1)], [], map[zone := Zone(Assigned, None)],
                    [Spot(zone, true)], [Assignment(0, 1, None, None, ActiveAssignment, true)], {}),
           [Session(1, Some(2), zone, 0, None, true, None, None, None, None)])
  }

  /** Room under the caps does not save the linked vehicle itself: linked to apartment 2 as well, it loses its
    * free spot of apartment 1, although there is no shared zone at all. */
  lemma OwnLinkCanCrowdOut(zone: Id)
    ensures var t, l := TwoApartments(zone), LinkTo(0, 2);
            RoomUnderCaps(t.reg, l) && Carried(t.reg, l) && !NeverLowers(t, l)
  {
    var t, l := TwoApartments(zone), LinkTo(0, 2);
    var a, s := t.reg.assignments[0], t.sessions[0];
    assert FindVehicle(t.reg.vehicles, "A") == Some(0) by { assert t.reg.vehicles[0].plate == "A"; }
    assert ActiveApartments(t.reg, 0, 0) == {1} by {
      assert t.reg.links[0] in t.reg.links && LinkActive(t.reg.links[0], 0, 0);
    }
    assert a in t.reg.assignments && Holds(t.reg, a, {1}, zone, 0);
    assert [] + [a] == t.reg.assignments && [] + [s] == t.sessions;
    CountOne([], a, (b: Assignment) => Holds(t.reg, b, {1 as Id}, zone, 0));
    CountOne([], a, (b: Assignment) => Holds(t.reg, b, {2 as Id}, zone, 0));
    CountOne([], s, (b: Session) => OccupiedBy(b, {1 as Id}, zone));
    CountOne([], s, (b: Session) => OccupiedBy(b, {2 as Id}, zone));
    assert CrowdsOut(t, l, 0, zone, 0);
    assert Judged(t.reg, 0) && Hurts(t, l, 0, zone, Entry, 0);
    SafeExactlyWhenItSpares(t, l);
  }
}
