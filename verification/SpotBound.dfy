/** Assigned zones: with serialised entry an apartment never holds more open sessions than spots.
  *
  * Without serialised entry two transactions can both read the last free spot:
  * `SpotsSafeExactlyWhenOneEntryKey` is the exact condition on the equipment. Passages are submitted
  * by registered controllers only, as device authentication guarantees.
  */
module SpotBound {
  import opened Common
  import opened Domain
  import opened Engine
  import opened Queries
  import opened Transactions
  import opened System
  import CoreSafety

  // ---------------------------------------------------------------- hypotheses

  /** Each vehicle has at most one active link, without dates. */
  ghost predicate OneLinkEach(links: seq<Link>) {
    && (forall i, j :: 0 <= i < j < |links| && links[i].status == ActiveLink && links[j].status == ActiveLink ==>
          links[i].vehicle != links[j].vehicle)
    && (forall l :: l in links && l.status == ActiveLink ==> l.validFrom.None? && l.validUntil.None?)
  }

  /** The zone is assigned, no rule bypasses its spots, every assignment of them is enforced and undated. */
  ghost predicate EnforcedZone(reg: Registry, zone: Id) {
    && zone in reg.zones && reg.zones[zone].parking == Assigned
    && (forall r :: r in reg.rules ==> r.zone != zone)
    && (forall a :: a in reg.assignments && a.spot < |reg.spots| && reg.spots[a.spot].zone == zone ==>
          a.enforceLimit && a.validFrom.None? && a.validUntil.None?)
  }

  ghost predicate FixedSite(reg: Registry, zone: Id) {
    OneLinkEach(reg.links) && EnforcedZone(reg, zone)
  }

  /** A registered controller's passage that asks to enter the zone, without a foreign claim. */
  predicate EntryOf(cfg: Config, x: Input, zone: Id) {
    var scope := AuthorizeScope(cfg, x);
    x.controller in cfg.controllers && x.direction == Entry && scope.zone == Some(zone) && !scope.violation
  }

  /** The registry is not edited and passages come from registered controllers. */
  predicate SiteStep(cfg: Config, step: Step) {
    !step.EditRegistry? && (step.BeginIngestStep? ==> step.input.controller in cfg.controllers)
  }

  /** Besides, entries into the zone all lock the same key. */
  ghost predicate SerialStep(cfg: Config, zone: Id, key: Id, step: Step) {
    && SiteStep(cfg, step)
    && (step.BeginIngestStep? && EntryOf(cfg, step.input, zone) ==> IngestKey(cfg, step.input) == key)
  }

  // ---------------------------------------------------------------- what the engine promised

  /** The active spots of an apartment in the zone. */
  function Spots(reg: Registry, apartment: Id, zone: Id): nat {
    SpotCount(reg, {apartment}, zone, 0)
  }

  function Occupied(sessions: seq<Session>, apartment: Id, zone: Id): nat {
    OpenSessions(sessions, {apartment}, zone)
  }

  lemma SpotsAtAnyMoment(reg: Registry, apartment: Id, zone: Id, moment: Instant)
    requires EnforcedZone(reg, zone)
    ensures SpotCount(reg, {apartment}, zone, moment) == Spots(reg, apartment, zone)
  {
    CountCongruent(reg.assignments, (a: Assignment) => Holds(reg, a, {apartment}, zone, moment),
                   (a: Assignment) => Holds(reg, a, {apartment}, zone, 0));
  }

  /** With one undated link the engine and the session agree on the apartment. */
  lemma SameApartment(links: seq<Link>, vehicle: nat, moment: Instant)
    requires OneLinkEach(links)
    ensures (set l | l in links && LinkActive(l, vehicle, moment) :: l.apartment)
         == (var a := ApartmentOf(links, vehicle); if a.Some? then {a.value} else {})
  {
    var a := ApartmentOf(links, vehicle);
    if a.Some? {
      var l :| l in links && l.vehicle == vehicle && l.status == ActiveLink && l.apartment == a.value;
      assert LinkActive(l, vehicle, moment);
      forall m | m in links && LinkActive(m, vehicle, moment) ensures m == l {
        var i :| 0 <= i < |links| && links[i] == m;
        var j :| 0 <= j < |links| && links[j] == l;
      }
    }
  }

  /** A direct allow of a vehicle into the zone found a free spot of its apartment. */
  ghost predicate FreeSpot(reg: Registry, sessions: seq<Session>, vehicle: nat, zone: Id) {
    var a := ApartmentOf(reg.links, vehicle);
    a.Some? && Occupied(sessions, a.value, zone) < Spots(reg, a.value, zone)
  }

  predicate EntersZone(t: Ticket, zone: Id) {
    && t.input.direction == Entry && t.input.zone == Some(zone)
    && t.engine.decision == Allow && t.engine.vehicle.Some?
  }

  lemma AllowMeansFreeSpot(cfg: Config, reg: Registry, db: Db, x: Input, violation: bool, zone: Id)
    requires FixedSite(reg, zone) && x.direction == Entry && x.zone == Some(zone)
    requires var e := Judge(cfg, reg, db, x, violation); e.decision == Allow && e.vehicle.Some?
    ensures FreeSpot(reg, db.sessions, Judge(cfg, reg, db, x, violation).vehicle.value, zone)
  {
    var d := EngineInputOf(x);
    var v := FindVehicle(reg.vehicles, d.plate).value;
    var apartments := ActiveApartments(reg, v, d.capturedAt);
    SameApartment(reg.links, v, d.capturedAt);
    assert !ZoneRuleMatches(reg.rules, v, apartments, d.zone, d.direction, d.capturedAt);
    var a := ApartmentOf(reg.links, v);
    assert a.Some? ==> apartments == {a.value};
    if a.Some? {
      SpotsAtAnyMoment(reg, a.value, zone, d.capturedAt);
    }
  }

  // ---------------------------------------------------------------- the invariant

  /** Whoever is about to enter the zone holds its key and still has a free spot. */
  ghost predicate EntrantOk(s: Sys, zone: Id, zoneKey: Id, key: Id, t: Txn) {
    t.Ingesting? && EntersZone(t.ticket, zone) ==>
      key == zoneKey && FreeSpot(s.reg, s.db.sessions, t.ticket.engine.vehicle.value, zone)
  }

  ghost predicate WithinSpots(reg: Registry, sessions: seq<Session>, zone: Id) {
    forall a: Id :: Occupied(sessions, a, zone) <= Spots(reg, a, zone)
  }

  ghost predicate SpotInv(s: Sys, zone: Id, zoneKey: Id) {
    && FixedSite(s.reg, zone)
    && WithinSpots(s.reg, s.db.sessions, zone)
    && forall key :: key in s.held ==> EntrantOk(s, zone, zoneKey, key, s.held[key])
  }

  /** Occupancy did not rise anywhere in the zone. */
  ghost predicate NoFuller(before: seq<Session>, after: seq<Session>, zone: Id) {
    forall a: Id :: Occupied(after, a, zone) <= Occupied(before, a, zone)
  }

  lemma ClosingFrees(sessions: seq<Session>, i: nat, s: Session, zone: Id)
    requires i < |sessions| && !s.open
    ensures NoFuller(sessions, sessions[i := s], zone)
  {
    forall a: Id ensures Occupied(sessions[i := s], a, zone) <= Occupied(sessions, a, zone) {
      CountUpdate(sessions, i, s, (x: Session) => OccupiedBy(x, {a}, zone));
    }
  }

  lemma OpeningElsewhere(sessions: seq<Session>, s: Session, zone: Id)
    requires s.zone != zone
    ensures NoFuller(sessions, sessions + [s], zone)
  {
    forall a: Id ensures Occupied(sessions + [s], a, zone) <= Occupied(sessions, a, zone) {
      CountOne(sessions, s, (x: Session) => OccupiedBy(x, {a}, zone));
    }
  }

  lemma OpeningFills(reg: Registry, sessions: seq<Session>, s: Session, zone: Id)
    requires WithinSpots(reg, sessions, zone) && FreeSpot(reg, sessions, s.vehicle, zone)
    requires s.apartment == ApartmentOf(reg.links, s.vehicle)
    ensures WithinSpots(reg, sessions + [s], zone)
  {
    forall a: Id ensures Occupied(sessions + [s], a, zone) <= Spots(reg, a, zone) {
      CountOne(sessions, s, (x: Session) => OccupiedBy(x, {a}, zone));
      assert Occupied(sessions, a, zone) <= Spots(reg, a, zone);
    }
  }

  lemma NoFullerWithin(reg: Registry, before: seq<Session>, after: seq<Session>, zone: Id)
    requires WithinSpots(reg, before, zone) && NoFuller(before, after, zone)
    ensures WithinSpots(reg, after, zone)
  {
    forall a: Id ensures Occupied(after, a, zone) <= Spots(reg, a, zone) {
      assert Occupied(after, a, zone) <= Occupied(before, a, zone) <= Spots(reg, a, zone);
    }
  }

  /** A step that fills nothing and holds nothing new keeps the invariant. */
  lemma EmptierKeeps(s: Sys, after: Sys, zone: Id, zoneKey: Id)
    requires SpotInv(s, zone, zoneKey) && after.reg == s.reg && NoFuller(s.db.sessions, after.db.sessions, zone)
    requires forall key :: key in after.held ==>
               (key in s.held && after.held[key] == s.held[key]) || !after.held[key].Ingesting?
    ensures SpotInv(after, zone, zoneKey)
  {
    NoFullerWithin(s.reg, s.db.sessions, after.db.sessions, zone);
    forall key | key in after.held ensures EntrantOk(after, zone, zoneKey, key, after.held[key]) {
      if key in s.held && after.held[key] == s.held[key] {
        assert EntrantOk(s, zone, zoneKey, key, s.held[key]);
      }
    }
  }

  /** A passage that does not enter the zone fills nothing in it. */
  lemma OthersFillNothing(cfg: Config, reg: Registry, db: Db, t: Ticket, started: Instant, clock: Instant, zone: Id)
    requires !EntersZone(t, zone)
    requires t.engine.decision == Allow ==> t.engine.status == Allowed
    ensures NoFuller(db.sessions, CommitIngest(cfg, reg, db, t, started, clock).0.sessions, zone)
  {
    if FindEvent(db.events, t.input.controller, t.input.eventId).None? {
      var s := Settle(db, t, clock);
      if s.engine.decision == Allow && s.engine.vehicle.Some? && t.input.zone.Some? {
        var v, z := s.engine.vehicle.value, t.input.zone.value;
        var found := FindOpenSession(db.sessions, v, z);
        if t.input.direction == Exit && found.Some? {
          var ended := EndSession(db.sessions, v, z, t.input.capturedAt, |db.events|);
          ClosingFrees(db.sessions, found.value, ended[found.value], zone);
        } else if t.input.direction == Entry && s.status == Allowed && found.None? {
          OpeningElsewhere(db.sessions, Session(v, ApartmentOf(reg.links, v), z, t.input.capturedAt, None, true,
                                                Some(|db.events|), None, None, None), zone);
        }
      }
    }
  }

  /** An entrant's commit uses the spot it found. */
  lemma EntrantFills(cfg: Config, reg: Registry, db: Db, t: Ticket, started: Instant, clock: Instant, zone: Id)
    requires EntersZone(t, zone) && WithinSpots(reg, db.sessions, zone)
    requires FreeSpot(reg, db.sessions, t.engine.vehicle.value, zone)
    ensures WithinSpots(reg, CommitIngest(cfg, reg, db, t, started, clock).0.sessions, zone)
  {
    if FindEvent(db.events, t.input.controller, t.input.eventId).None? {
      var v := t.engine.vehicle.value;
      if FindOpenSession(db.sessions, v, zone).None? {
        OpeningFills(reg, db.sessions, Session(v, ApartmentOf(reg.links, v), zone, t.input.capturedAt, None, true,
                                               Some(|db.events|), None, None, None), zone);
      }
    }
  }

  lemma CommitWithin(cfg: Config, s: Sys, key: Id, clock: Instant, zone: Id, zoneKey: Id)
    requires SpotInv(s, zone, zoneKey) && DirectAllows(s.held)
    ensures SpotInv(CommitApply(cfg, s, key, clock), zone, zoneKey)
  {
    if key in s.held {
      var t := s.held[key];
      var after := CommitApply(cfg, s, key, clock);
      if t.Ingesting? && EntersZone(t.ticket, zone) {
        assert EntrantOk(s, zone, zoneKey, key, t);
        EntrantFills(cfg, s.reg, s.db, t.ticket, t.started, clock, zone);
        forall other | other in after.held ensures EntrantOk(after, zone, zoneKey, other, after.held[other]) {
          assert EntrantOk(s, zone, zoneKey, other, s.held[other]);
        }
      } else {
        if t.Ingesting? {
          OthersFillNothing(cfg, s.reg, s.db, t.ticket, t.started, clock, zone);
        }
        EmptierKeeps(s, after, zone, zoneKey);
      }
    }
  }

  /** An allow in flight is a direct allow. */
  ghost predicate DirectAllows(held: map<Id, Txn>) {
    forall key :: key in held && held[key].Ingesting? && held[key].ticket.engine.decision == Allow
                  ==> held[key].ticket.engine.status == Allowed
  }

  lemma IngestAllowsDirect(cfg: Config, s: Sys, x: Input, started: Instant)
    requires DirectAllows(s.held)
    ensures DirectAllows(BeginIngestApply(cfg, s, x, started).held)
  {
    CoreSafety.EngineAnswers(cfg, s.reg, s.db, Sanitise(cfg, x), AuthorizeScope(cfg, x).violation);
  }

  lemma AllowsDirect(cfg: Config, s: Sys, step: Step)
    requires DirectAllows(s.held)
    ensures DirectAllows(Apply(cfg, s, step).held)
  {
    match step
    case BeginIngestStep(x, started) => IngestAllowsDirect(cfg, s, x, started);
    case _ => OtherAllowsDirect(cfg, s, step);
  }

  lemma OtherAllowsDirect(cfg: Config, s: Sys, step: Step)
    requires DirectAllows(s.held) && !step.BeginIngestStep?
    ensures DirectAllows(Apply(cfg, s, step).held)
  {
  }

  lemma BeginWithin(cfg: Config, s: Sys, x: Input, started: Instant, zone: Id, zoneKey: Id)
    requires SpotInv(s, zone, zoneKey) && SerialStep(cfg, zone, zoneKey, BeginIngestStep(x, started))
    ensures SpotInv(BeginIngestApply(cfg, s, x, started), zone, zoneKey)
  {
    var b := BeginIngest(cfg, s.reg, s.db, x);
    if b.Accepted? && EntersZone(b.ticket, zone) {
      AllowMeansFreeSpot(cfg, s.reg, s.db, Sanitise(cfg, x), AuthorizeScope(cfg, x).violation, zone);
    }
    var after := BeginIngestApply(cfg, s, x, started);
    forall key | key in after.held ensures EntrantOk(after, zone, zoneKey, key, after.held[key]) {
      if key in s.held {
        assert EntrantOk(s, zone, zoneKey, key, s.held[key]);
      }
    }
  }

  lemma CloseWithin(s: Sys, session: nat, operator: Id, reason: string, now: Instant, zone: Id, zoneKey: Id)
    requires SpotInv(s, zone, zoneKey)
    ensures SpotInv(s.(db := ClosePresence(s.db, session, operator, reason, now).0), zone, zoneKey)
  {
    var after := s.(db := ClosePresence(s.db, session, operator, reason, now).0);
    if session < |s.db.sessions| && s.db.sessions[session].open {
      ClosingFrees(s.db.sessions, session, after.db.sessions[session], zone);
    }
    EmptierKeeps(s, after, zone, zoneKey);
  }

  lemma SpotStep(cfg: Config, s: Sys, step: Step, zone: Id, zoneKey: Id)
    requires SpotInv(s, zone, zoneKey) && DirectAllows(s.held) && SerialStep(cfg, zone, zoneKey, step)
    ensures SpotInv(Apply(cfg, s, step), zone, zoneKey)
  {
    match step
    case BeginIngestStep(x, started) => BeginWithin(cfg, s, x, started, zone, zoneKey);
    case Commit(key, clock) => CommitWithin(cfg, s, key, clock, zone, zoneKey);
    case CloseSessionStep(i, operator, reason, now) => CloseWithin(s, i, operator, reason, now, zone, zoneKey);
    case _ => QuietWithin(cfg, s, step, zone, zoneKey);
  }

  lemma QuietWithin(cfg: Config, s: Sys, step: Step, zone: Id, zoneKey: Id)
    requires SpotInv(s, zone, zoneKey) && SerialStep(cfg, zone, zoneKey, step)
    requires !step.BeginIngestStep? && !step.Commit? && !step.CloseSessionStep?
    ensures SpotInv(Apply(cfg, s, step), zone, zoneKey)
  {
    EmptierKeeps(s, Apply(cfg, s, step), zone, zoneKey);
  }

  /** The invariant of a run with serialised entry: the registry stays, the sessions fit. */
  ghost predicate SiteInv(s: Sys, reg: Registry, zone: Id, zoneKey: Id) {
    SpotInv(s, zone, zoneKey) && DirectAllows(s.held) && s.reg == reg
  }

  lemma SiteKept(cfg: Config, s: Sys, step: Step, reg: Registry, zone: Id, zoneKey: Id)
    requires SiteInv(s, reg, zone, zoneKey) && SerialStep(cfg, zone, zoneKey, step)
    ensures SiteInv(Apply(cfg, s, step), reg, zone, zoneKey)
  {
    SpotStep(cfg, s, step, zone, zoneKey);
    AllowsDirect(cfg, s, step);
  }

  lemma {:induction false} SiteRun(cfg: Config, reg: Registry, zone: Id, zoneKey: Id, steps: seq<Step>)
    requires FixedSite(reg, zone)
    requires forall i :: 0 <= i < |steps| ==> SerialStep(cfg, zone, zoneKey, steps[i])
    ensures SiteInv(Run(cfg, Start(reg), steps), reg, zone, zoneKey)
  {
    if steps != [] {
      SiteRun(cfg, reg, zone, zoneKey, steps[..|steps| - 1]);
      SiteKept(cfg, Run(cfg, Start(reg), steps[..|steps| - 1]), steps[|steps| - 1], reg, zone, zoneKey);
    }
  }

  /** Over every run whose entries into the zone are serialised and whose registry stays fixed, the
    * open sessions of an apartment in the zone never exceed its active spots. */
  lemma NeverOverfilled(cfg: Config, reg: Registry, zone: Id, zoneKey: Id, steps: seq<Step>)
    requires FixedSite(reg, zone)
    requires forall i :: 0 <= i < |steps| ==> SerialStep(cfg, zone, zoneKey, steps[i])
    ensures forall a: Id :: Occupied(Run(cfg, Start(reg), steps).db.sessions, a, zone) <= Spots(reg, a, zone)
  {
    SiteRun(cfg, reg, zone, zoneKey, steps);
    assert WithinSpots(reg, Run(cfg, Start(reg), steps).db.sessions, zone);
  }

  /** A direct entry of a vehicle that is not inside adds one session for its apartment. */
  lemma EntryAddsOne(cfg: Config, reg: Registry, db: Db, t: Ticket, zone: Id, apartment: Id, clock: Instant)
    requires EntersZone(t, zone) && t.engine.status == Allowed && !TaxiAllow(t.engine)
    requires ApartmentOf(reg.links, t.engine.vehicle.value) == Some(apartment)
    requires FindEvent(db.events, t.input.controller, t.input.eventId).None?
    requires FindOpenSession(db.sessions, t.engine.vehicle.value, zone).None?
    ensures var after := CommitIngest(cfg, reg, db, t, clock, clock).0;
            && after.events == db.events + [ToEvent(t.input)]
            && Occupied(after.sessions, apartment, zone) == Occupied(db.sessions, apartment, zone) + 1
            && forall w: nat :: w != t.engine.vehicle.value && FindOpenSession(db.sessions, w, zone).None?
                                ==> FindOpenSession(after.sessions, w, zone).None?
  {
    var after := CommitIngest(cfg, reg, db, t, clock, clock).0;
    var s := Session(t.engine.vehicle.value, Some(apartment), zone, t.input.capturedAt, None, true, Some(|db.events|),
                     None, None, None);
    assert after.sessions == db.sessions + [s];
    CountOne(db.sessions, s, (x: Session) => OccupiedBy(x, {apartment}, zone));
  }

  /** Why entry must be serialised: the engine allowed two vehicles of one apartment while one spot was
    * free, each under its own key; both commits go through and the zone is overfull. */
  lemma UnserialisedEntryOverfills(cfg: Config, reg: Registry, db: Db, a: Ticket, b: Ticket, zone: Id, apartment: Id,
                                   clock: Instant)
    requires EntersZone(a, zone) && EntersZone(b, zone) && a.engine.vehicle != b.engine.vehicle
    requires a.engine == AllowFor(AssignedSpotAllowed, a.engine.vehicle, None)
    requires b.engine == AllowFor(AssignedSpotAllowed, b.engine.vehicle, None)
    requires ApartmentOf(reg.links, a.engine.vehicle.value) == Some(apartment)
    requires ApartmentOf(reg.links, b.engine.vehicle.value) == Some(apartment)
    requires Occupied(db.sessions, apartment, zone) + 1 == Spots(reg, apartment, zone)
    requires FindOpenSession(db.sessions, a.engine.vehicle.value, zone).None?
    requires FindOpenSession(db.sessions, b.engine.vehicle.value, zone).None?
    requires FindEvent(db.events, a.input.controller, a.input.eventId).None?
    requires FindEvent(db.events, b.input.controller, b.input.eventId).None?
    requires !SameKey(ToEvent(a.input), b.input.controller, b.input.eventId)
    ensures var first := CommitIngest(cfg, reg, db, a, clock, clock).0;
            var both := CommitIngest(cfg, reg, first, b, clock, clock).0;
            Occupied(both.sessions, apartment, zone) == Spots(reg, apartment, zone) + 1
  {
    EntryAddsOne(cfg, reg, db, a, zone, apartment, clock);
    var first := CommitIngest(cfg, reg, db, a, clock, clock).0;
    assert FindEvent(first.events, b.input.controller, b.input.eventId).None?;
    EntryAddsOne(cfg, reg, first, b, zone, apartment, clock);
  }

  // ---------------------------------------------------------------- the exact condition

  /** The gate a passage of the controller is at when it claims none. */
  function DefaultGate(cfg: Config, controller: Id): Option<Id> {
    FirstActiveGate(cfg.gates, controller)
  }

  /** The controller is in the zone, or in none so that it may claim any. */
  predicate MayEnter(cfg: Config, controller: Id, zone: Id)
    requires controller in cfg.controllers
  {
    cfg.controllers[controller].None? || cfg.controllers[controller] == Some(zone)
  }

  /** The keys under which the equipment lets vehicles into the zone: for every registered controller that may
    * submit entries of the zone, the key at its default gate and at each gate of its own. */
  function EntryKeys(cfg: Config, zone: Id): set<Id> {
    (set c | c in cfg.controllers && MayEnter(cfg, c, zone) :: KeyAt(cfg, DefaultGate(cfg, c), c))
    + (set c, g | c in cfg.controllers && g in cfg.gates && MayEnter(cfg, c, zone) && g.controller == Some(c) ::
         KeyAt(cfg, Some(g.id), c))
  }

  predicate OneEntryKey(cfg: Config, zone: Id) {
    forall j, k :: j in EntryKeys(cfg, zone) && k in EntryKeys(cfg, zone) ==> j == k
  }

  /** Whatever happens at a fixed site, no apartment exceeds its spots in the zone. */
  ghost predicate AlwaysWithin(cfg: Config, zone: Id) {
    forall reg: Registry, steps: seq<Step> :: FixedSite(reg, zone) && AtSite(cfg, steps) ==>
      WithinSpots(reg, Run(cfg, Start(reg), steps).db.sessions, zone)
  }

  ghost predicate AtSite(cfg: Config, steps: seq<Step>) {
    forall i :: 0 <= i < |steps| ==> SiteStep(cfg, steps[i])
  }

  /** An entry locks one of these keys. */
  lemma EntryLocksEntryKey(cfg: Config, x: Input, zone: Id)
    requires EntryOf(cfg, x, zone)
    ensures IngestKey(cfg, x) in EntryKeys(cfg, zone)
  {
    if x.gate.Some? {
      var g :| g in cfg.gates && g.id == x.gate.value && g.controller == Some(x.controller);
      assert IngestKey(cfg, x) == KeyAt(cfg, Some(g.id), x.controller);
    } else {
      assert IngestKey(cfg, x) == KeyAt(cfg, DefaultGate(cfg, x.controller), x.controller);
    }
  }

  /** A claim of the zone at the given gate, or at none. */
  function Claim(controller: Id, zone: Id, gate: Option<Id>): Input {
    Input(controller, "", Some(zone), gate, None, Entry, None, 0)
  }

  /** And each of these keys is locked by some entry. */
  lemma EntryKeyHasEntry(cfg: Config, zone: Id, key: Id) returns (x: Input)
    requires key in EntryKeys(cfg, zone)
    ensures EntryOf(cfg, x, zone) && IngestKey(cfg, x) == key
  {
    if c :| c in cfg.controllers && MayEnter(cfg, c, zone) && key == KeyAt(cfg, DefaultGate(cfg, c), c) {
      x := Claim(c, zone, None);
    } else {
      var c, g :| c in cfg.controllers && g in cfg.gates && MayEnter(cfg, c, zone) && g.controller == Some(c)
                  && key == KeyAt(cfg, Some(g.id), c);
      assert GateBelongs(cfg, g.id, c);
      x := Claim(c, zone, Some(g.id));
    }
  }

  const PLATES: seq<string> := ["A", "B"]

  /** Two vehicles of one apartment that has one enforced spot in the zone. */
  function OneSpot(zone: Id): Registry {
    Registry([Vehicle("A", ActiveVehicle), Vehicle("B", ActiveVehicle)],
             [Link(0, 1, ActiveLink, None, None), Link(1, 1, ActiveLink, None, None)],
             [], map[zone := Zone(Assigned, None)], [Spot(zone, true)],
             [Assignment(0, 1, None, None, ActiveAssignment, true)], {})
  }

  /** The same claim of scope, by vehicle `v`. */
  function Entrant(x: Input, v: nat): Input
    requires v < 2
  {
    x.(plate := Some(PLATES[v]), eventId := PLATES[v], confidence := None, capturedAt := 0)
  }

  function EntrantTicket(cfg: Config, x: Input, v: nat): Ticket
    requires v < 2
  {
    Ticket(Sanitise(cfg, Entrant(x, v)), AuthorizeScope(cfg, x).barrier, AllowFor(AssignedSpotAllowed, Some(v), None))
  }

  lemma OneSpotFits(zone: Id)
    ensures FixedSite(OneSpot(zone), zone)
    ensures Spots(OneSpot(zone), 1, zone) == 1
    ensures forall v :: 0 <= v < 2 ==> ApartmentOf(OneSpot(zone).links, v) == Some(1)
  {
    var reg := OneSpot(zone);
    var a := reg.assignments[0];
    CountOne([], a, (b: Assignment) => Holds(reg, b, {1 as Id}, zone, 0));
    assert [] + [a] == reg.assignments;
    FirstLinkDecides(reg.links, 0, 0);
    FirstLinkDecides(reg.links, 1, 1);
  }

  lemma EntrantKnown(zone: Id, v: nat)
    requires v < 2
    ensures FindVehicle(OneSpot(zone).vehicles, PLATES[v]) == Some(v)
    ensures ActiveApartments(OneSpot(zone), v, 0) == {1}
  {
    var reg := OneSpot(zone);
    var found := FindVehicle(reg.vehicles, PLATES[v]);
    assert "A"[0] != "B"[0];
    assert reg.vehicles[v].plate == PLATES[v];
    assert reg.links[v] in reg.links && LinkActive(reg.links[v], v, 0);
  }

  /** While nobody is inside, either vehicle is allowed. */
  lemma EntrantAllowed(cfg: Config, zone: Id, x: Input, v: nat)
    requires EntryOf(cfg, x, zone) && v < 2
    ensures BeginIngest(cfg, OneSpot(zone), EMPTY_DB, Entrant(x, v)) == Accepted(EntrantTicket(cfg, x, v))
    ensures IngestKey(cfg, Entrant(x, v)) == IngestKey(cfg, x)
  {
    var reg := OneSpot(zone);
    var y := Sanitise(cfg, Entrant(x, v));
    assert AuthorizeScope(cfg, Entrant(x, v)) == AuthorizeScope(cfg, x);
    EntrantKnown(zone, v);
    OneSpotFits(zone);
    SpotsAtAnyMoment(reg, 1, zone, 0);
    assert Holds(reg, reg.assignments[0], {1}, zone, 0) && reg.assignments[0] in reg.assignments;
    assert DecideAssigned(reg, [], v, {1}, zone, 0) == AllowFor(AssignedSpotAllowed, Some(v), None);
  }

  /** Both vehicles in flight, each under its own key. */
  function BothInFlight(cfg: Config, zone: Id, x: Input, y: Input): Sys {
    Hold(Hold(Start(OneSpot(zone)), IngestKey(cfg, x), Ingesting(EntrantTicket(cfg, x, 0), 0)),
         IngestKey(cfg, y), Ingesting(EntrantTicket(cfg, y, 1), 0))
  }

  lemma BothBegin(cfg: Config, zone: Id, x: Input, y: Input)
    requires EntryOf(cfg, x, zone) && EntryOf(cfg, y, zone) && IngestKey(cfg, x) != IngestKey(cfg, y)
    ensures Run(cfg, Start(OneSpot(zone)), [BeginIngestStep(Entrant(x, 0), 0), BeginIngestStep(Entrant(y, 1), 0)])
         == BothInFlight(cfg, zone, x, y)
  {
    var s := Start(OneSpot(zone));
    EntrantAllowed(cfg, zone, x, 0);
    EntrantAllowed(cfg, zone, y, 1);
    RunTwo(cfg, s, BeginIngestStep(Entrant(x, 0), 0), BeginIngestStep(Entrant(y, 1), 0));
    var first := Hold(s, IngestKey(cfg, x), Ingesting(EntrantTicket(cfg, x, 0), 0));
    assert BeginIngestApply(cfg, s, Entrant(x, 0), 0) == first;
    assert BeginIngestApply(cfg, first, Entrant(y, 1), 0) == BothInFlight(cfg, zone, x, y);
  }

  /** Two ingestions in flight commit one after the other. */
  lemma TwoCommits(cfg: Config, s: Sys, j: Id, k: Id, a: Ticket, b: Ticket)
    requires j != k && j in s.held && k in s.held
    requires s.held[j] == Ingesting(a, 0) && s.held[k] == Ingesting(b, 0)
    ensures Run(cfg, s, [Commit(j, 0), Commit(k, 0)]).db
         == CommitIngest(cfg, s.reg, CommitIngest(cfg, s.reg, s.db, a, 0, 0).0, b, 0, 0).0
  {
    RunTwo(cfg, s, Commit(j, 0), Commit(k, 0));
    var mid := CommitApply(cfg, s, j, 0);
    assert k in mid.held && mid.held[k] == Ingesting(b, 0) && mid.reg == s.reg;
  }

  lemma BothEnter(cfg: Config, zone: Id, x: Input, y: Input)
    requires EntryOf(cfg, x, zone) && EntryOf(cfg, y, zone)
    ensures var reg := OneSpot(zone);
            var first := CommitIngest(cfg, reg, EMPTY_DB, EntrantTicket(cfg, x, 0), 0, 0).0;
            Occupied(CommitIngest(cfg, reg, first, EntrantTicket(cfg, y, 1), 0, 0).0.sessions, 1, zone) == 2
  {
    OneSpotFits(zone);
    assert AuthorizeScope(cfg, Entrant(x, 0)) == AuthorizeScope(cfg, x);
    assert AuthorizeScope(cfg, Entrant(y, 1)) == AuthorizeScope(cfg, y);
    assert "A"[0] != "B"[0];
    UnserialisedEntryOverfills(cfg, OneSpot(zone), EMPTY_DB, EntrantTicket(cfg, x, 0), EntrantTicket(cfg, y, 1),
                               zone, 1, 0);
  }

  /** From empty tables both entries are begun, then both commit. */
  function Crowding(cfg: Config, x: Input, y: Input): seq<Step> {
    [BeginIngestStep(Entrant(x, 0), 0), BeginIngestStep(Entrant(y, 1), 0)]
    + [Commit(IngestKey(cfg, x), 0), Commit(IngestKey(cfg, y), 0)]
  }

  /** Two entry keys let two vehicles of one apartment take its one spot. */
  lemma TwoKeysOverfill(cfg: Config, zone: Id, x: Input, y: Input)
    requires EntryOf(cfg, x, zone) && EntryOf(cfg, y, zone) && IngestKey(cfg, x) != IngestKey(cfg, y)
    ensures Occupied(Run(cfg, Start(OneSpot(zone)), Crowding(cfg, x, y)).db.sessions, 1, zone)
          > Spots(OneSpot(zone), 1, zone)
  {
    var s := BothInFlight(cfg, zone, x, y);
    BothBegin(cfg, zone, x, y);
    RunConcat(cfg, Start(OneSpot(zone)), [BeginIngestStep(Entrant(x, 0), 0), BeginIngestStep(Entrant(y, 1), 0)],
              [Commit(IngestKey(cfg, x), 0), Commit(IngestKey(cfg, y), 0)]);
    TwoCommits(cfg, s, IngestKey(cfg, x), IngestKey(cfg, y), EntrantTicket(cfg, x, 0), EntrantTicket(cfg, y, 1));
    BothEnter(cfg, zone, x, y);
    OneSpotFits(zone);
  }

  /** Every run over every fixed site keeps the bound exactly when the equipment lets vehicles into the zone
    * under at most one key. */
  lemma SpotsSafeExactlyWhenOneEntryKey(cfg: Config, zone: Id)
    ensures AlwaysWithin(cfg, zone) <==> OneEntryKey(cfg, zone)
  {
    if OneEntryKey(cfg, zone) {
      var key: Id := 1;
      if k :| k in EntryKeys(cfg, zone) {
        key := k;
      }
      forall reg: Registry, steps: seq<Step> | FixedSite(reg, zone) && AtSite(cfg, steps)
        ensures WithinSpots(reg, Run(cfg, Start(reg), steps).db.sessions, zone)
      {
        SiteIsSerial(cfg, zone, key, steps);
        NeverOverfilled(cfg, reg, zone, key, steps);
      }
    } else {
      var j, k :| j in EntryKeys(cfg, zone) && k in EntryKeys(cfg, zone) && j != k;
      var x := EntryKeyHasEntry(cfg, zone, j);
      var y := EntryKeyHasEntry(cfg, zone, k);
      TwoKeysOverfill(cfg, zone, x, y);
      OneSpotFits(zone);
      assert AtSite(cfg, Crowding(cfg, x, y));
    }
  }

  lemma SiteIsSerial(cfg: Config, zone: Id, key: Id, steps: seq<Step>)
    requires AtSite(cfg, steps) && forall k :: k in EntryKeys(cfg, zone) ==> k == key
    ensures forall i :: 0 <= i < |steps| ==> SerialStep(cfg, zone, key, steps[i])
  {
    forall i | 0 <= i < |steps| ensures SerialStep(cfg, zone, key, steps[i]) {
      assert SiteStep(cfg, steps[i]);
      if steps[i].BeginIngestStep? && EntryOf(cfg, steps[i].input, zone) {
        EntryLocksEntryKey(cfg, steps[i].input, zone);
      }
    }
  }

  // ---------------------------------------------------------------- equipment on either side

  /** One lane into the zone: a controller, its gate and the gate's barrier. */
  function OneLane(zone: Id): Config {
    Config(map[1 := Some(zone)], [Gate(1, zone, Some(1), true)], [Barrier(1, 1, Some(1), true)], 10, 15, 0.9)
  }

  /** Two lanes, each with its own controller, gate and barrier. */
  function TwoLanes(zone: Id): Config {
    Config(map[1 := Some(zone), 2 := Some(zone)], [Gate(1, zone, Some(1), true), Gate(2, zone, Some(2), true)],
           [Barrier(1, 1, Some(1), true), Barrier(2, 2, Some(2), true)], 10, 15, 0.9)
  }

  /** One lane never overfills a zone. */
  lemma OneLaneIsSafe(zone: Id)
    ensures AlwaysWithin(OneLane(zone), zone)
  {
    var cfg := OneLane(zone);
    forall k | k in EntryKeys(cfg, zone) ensures k == 1 {
    }
    SpotsSafeExactlyWhenOneEntryKey(cfg, zone);
  }

  /** Two lanes do. */
  lemma TwoLanesAreNot(zone: Id)
    ensures !AlwaysWithin(TwoLanes(zone), zone)
  {
    var cfg := TwoLanes(zone);
    var g, h := cfg.gates[0], cfg.gates[1];
    assert g in cfg.gates && h in cfg.gates;
    assert FirstActiveBarrier(cfg.barriers, 1) == Some(cfg.barriers[0]);
    assert FirstActiveBarrier(cfg.barriers[1..], 2) == Some(cfg.barriers[1]);
    assert KeyAt(cfg, Some(1), 1) == 1 && KeyAt(cfg, Some(2), 2) == 2;
    assert 1 in EntryKeys(cfg, zone) && 2 in EntryKeys(cfg, zone);
    SpotsSafeExactlyWhenOneEntryKey(cfg, zone);
  }
}
