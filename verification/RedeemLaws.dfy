/** When redeeming a guest code can end in an unhandled error. */
module RedeemLaws {
  import opened Common
  import opened Domain
  import opened Engine
  import Queries
  import opened Transactions
  import opened System
  import opened RedeemEndpoint
  import opened ResolveLaws

  // ---------------------------------------------------------------- which pass, which barrier

  /** The pass may be redeemed with this code at this moment. */
  predicate Good(p: Pass, hash: string, now: Instant) {
    && p.kind == Guest && p.codeHash == Some(hash) && p.status == ActivePass
    && p.validUntil.Some? && now < p.validUntil.value && p.usedEntries < p.maxEntries
  }

  /** The barrier is active and stands at a gate of the zone. */
  ghost predicate InZone(cfg: Config, b: Barrier, zone: Id) {
    b in cfg.barriers && b.active && exists g :: g in cfg.gates && g.id == b.gate && g.zone == zone
  }

  /** Of these the one with the smallest id. */
  ghost predicate FirstInZone(cfg: Config, b: Barrier, zone: Id) {
    InZone(cfg, b, zone) && forall c :: InZone(cfg, c, zone) ==> b.id <= c.id
  }

  lemma {:induction false} LeastInZone(cfg: Config, barriers: seq<Barrier>, zone: Id)
    requires forall i, j :: 0 <= i < j < |barriers| ==> barriers[i].id < barriers[j].id
    requires forall b :: b in barriers ==> b in cfg.barriers
    ensures var r := ZoneBarrier(cfg, barriers, zone);
            && (r.Some? ==> r.value in barriers && InZone(cfg, r.value, zone))
            && (forall b :: b in barriers && InZone(cfg, b, zone) ==> r.Some? && r.value.id <= b.id)
  {
    if barriers != [] {
      LeastInZone(cfg, barriers[1..], zone);
      assert forall b :: b in barriers ==> b == barriers[0] || b in barriers[1..];
    }
  }

  /** A code without a named barrier opens the first active barrier of the pass's zone. */
  lemma ZoneBarrierIsFirst(cfg: Config, zone: Id)
    requires WellFormed(cfg)
    ensures var b := ZoneBarrier(cfg, cfg.barriers, zone);
            && (b.Some? ==> FirstInZone(cfg, b.value, zone))
            && (b.None? ==> forall c :: !InZone(cfg, c, zone))
  {
    LeastInZone(cfg, cfg.barriers, zone);
  }

  // ---------------------------------------------------------------- what a redemption does

  /** The barrier that is opened and the controller that serves it. */
  ghost predicate Opens(cfg: Config, p: Pass, r: RedeemRequest, barrier: Id, controller: Id) {
    exists b :: && b in cfg.barriers && b.id == barrier && b.active && b.controller == Some(controller)
                && match r.barrier
                   case Some(named) => barrier == named
                   case None => p.zone.Some? && FirstInZone(cfg, b, p.zone.value)
  }

  /** One entry of pass `p` is spent, and a command, an opening and an audit row say so. */
  ghost predicate Redeems(cfg: Config, db: Db, after: Db, r: RedeemRequest, p: nat, barrier: Id, command: nat,
                          started: Instant, clock: Instant)
    requires p < |db.passes|
  {
    var pass := db.passes[p];
    && command == |db.commands|
    && after.passes == db.passes[p := pass.(
         usedEntries := pass.usedEntries + 1,
         status := if pass.usedEntries + 1 == pass.maxEntries then UsedPass else ActivePass)]
    && (exists controller: Id ::
          && Opens(cfg, pass, r, barrier, controller)
          && after.commands == db.commands + [Command(None, controller, barrier, started, Some(clock + 120_000_000),
                                                      Pending, None, None, 0, None)])
    && after.openings == db.openings + [Opening(barrier, command, None, r.operator, "guest_code", None, started)]
    && after.log == db.log + [CodeRedeemed(p, r.operator)]
    && after.events == db.events && after.decisions == db.decisions && after.sessions == db.sessions
  }

  /** A code is redeemed on a pass that it may be redeemed on, and opens its barrier; otherwise nothing changes. A code
    * that no such pass carries is rejected. */
  lemma RedeemedMeans(cfg: Config, db: Db, r: RedeemRequest, started: Instant, clock: Instant)
    requires WellFormed(cfg)
    ensures var (after, outcome) := Attempt(cfg, db, r, started, clock);
            match outcome
            case Redeemed(p, apartment, command, barrier) =>
              && p < |db.passes| && Good(db.passes[p], r.hash, r.now) && apartment == db.passes[p].apartment
              && Redeems(cfg, db, after, r, p, barrier, command, started, clock)
            case CodeRejected => after == db
            case ServerFault => after == db && exists p :: p in db.passes && Good(p, r.hash, r.now)
    ensures (forall p :: p in db.passes ==> !Good(p, r.hash, r.now)) ==>
              Attempt(cfg, db, r, started, clock) == (db, CodeRejected)
  {
    var found := Queries.FindRedeemable(db.passes, r.hash, r.now);
    if found.Some? {
      var p := found.value;
      assert db.passes[p] in db.passes && Good(db.passes[p], r.hash, r.now);
      if db.passes[p].zone.Some? {
        ZoneBarrierIsFirst(cfg, db.passes[p].zone.value);
      }
      CandidateOpens(cfg, db, r);
    } else {
      forall p | p in db.passes ensures !Good(p, r.hash, r.now) {
        var i :| 0 <= i < |db.passes| && db.passes[i] == p;
        assert !Queries.RedeemableBy(db.passes[i], r.hash, r.now);
      }
    }
  }

  lemma CandidateOpens(cfg: Config, db: Db, r: RedeemRequest)
    requires WellFormed(cfg)
    ensures var b := BeginRedeem(cfg, db, r);
            b.Candidate? ==> b.pass < |db.passes| && Opens(cfg, db.passes[b.pass], r, b.barrier, b.controller)
  {
    var found := Queries.FindRedeemable(db.passes, r.hash, r.now);
    if found.Some? && db.passes[found.value].zone.Some? {
      ZoneBarrierIsFirst(cfg, db.passes[found.value].zone.value);
    }
  }

  /** Whatever happened since the pass was read: its entry is spent exactly when it is still active and has one left,
    * else the code is rejected and nothing is written. */
  lemma StaleCandidate(db: Db, r: RedeemRequest, p: nat, barrier: Id, controller: Id, started: Instant, clock: Instant)
    ensures var (after, outcome) := CommitRedeem(db, r, p, barrier, controller, started, clock);
            if p < |db.passes| && db.passes[p].status == ActivePass
               && db.passes[p].usedEntries < db.passes[p].maxEntries
            then
              && outcome == Redeemed(p, db.passes[p].apartment, |db.commands|, barrier)
              && |after.passes| == |db.passes| && after.passes[p].usedEntries == db.passes[p].usedEntries + 1
              && |after.commands| == |db.commands| + 1 && |after.openings| == |db.openings| + 1
            else after == db && outcome == CodeRejected
  {
  }

  /** Conversely a good code is redeemed when the pass it finds opens a barrier that is served. */
  lemma GoodCodeOpens(cfg: Config, db: Db, r: RedeemRequest, p: nat, barrier: Id, controller: Id, started: Instant,
                      clock: Instant)
    requires WellFormed(cfg) && p < |db.passes| && Good(db.passes[p], r.hash, r.now)
    requires forall q :: 0 <= q < p ==> !Good(db.passes[q], r.hash, r.now)
    requires Opens(cfg, db.passes[p], r, barrier, controller)
    ensures Attempt(cfg, db, r, started, clock).1 == Redeemed(p, db.passes[p].apartment, |db.commands|, barrier)
  {
    FirstGood(db.passes, r, p);
    var b :| && b in cfg.barriers && b.id == barrier && b.active && b.controller == Some(controller)
             && match r.barrier
                case Some(named) => barrier == named
                case None => db.passes[p].zone.Some? && FirstInZone(cfg, b, db.passes[p].zone.value);
    if r.barrier.Some? {
      SameBarrier(cfg, FindBarrier(cfg.barriers, barrier).value, b);
    } else {
      ZoneBarrierIsFirst(cfg, db.passes[p].zone.value);
      SameBarrier(cfg, ZoneBarrier(cfg, cfg.barriers, db.passes[p].zone.value).value, b);
    }
  }

  lemma FirstGood(passes: seq<Pass>, r: RedeemRequest, p: nat)
    requires p < |passes| && Good(passes[p], r.hash, r.now)
    requires forall q :: 0 <= q < p ==> !Good(passes[q], r.hash, r.now)
    ensures Queries.FindRedeemable(passes, r.hash, r.now) == Some(p)
  {
    var found := Queries.FindRedeemable(passes, r.hash, r.now);
    assert Queries.RedeemableBy(passes[p], r.hash, r.now);
    assert forall q :: 0 <= q < |passes| ==> (Queries.RedeemableBy(passes[q], r.hash, r.now)
                                              <==> Good(passes[q], r.hash, r.now));
    assert found == FindFirst(passes, (q: Pass) => Queries.RedeemableBy(q, r.hash, r.now));
  }

  // ---------------------------------------------------------------- faults

  /** The first active barrier of every zone, where there is one, has a controller. */
  ghost predicate ZonesServed(cfg: Config) {
    forall zone: Id :: ServedZone(cfg, zone)
  }

  ghost predicate ServedZone(cfg: Config, zone: Id) {
    forall b :: FirstInZone(cfg, b, zone) ==> b.controller.Some?
  }

  /** No redemption in a reachable state is a fault. */
  ghost predicate NeverFaults(cfg: Config) {
    forall reg: Registry, steps: seq<Step>, r: RedeemRequest, started: Instant, clock: Instant ::
      Attempt(cfg, Run(cfg, Start(reg), steps).db, r, started, clock).1 != ServerFault
  }

  /** Where every zone is served no request faults, whatever the tables hold. */
  lemma ServedZonesNeverFault(cfg: Config, db: Db, r: RedeemRequest, started: Instant, clock: Instant)
    requires WellFormed(cfg) && ZonesServed(cfg)
    ensures Attempt(cfg, db, r, started, clock).1 != ServerFault
  {
    var p := Queries.FindRedeemable(db.passes, r.hash, r.now);
    if p.Some? && db.passes[p.value].zone.Some? {
      ZoneBarrierIsFirst(cfg, db.passes[p.value].zone.value);
      assert ServedZone(cfg, db.passes[p.value].zone.value);
    }
  }

  /** A guest pass for the zone with code hash `h`, and the request that presents the code without a barrier. */
  function GuestFor(zone: Id): Pass {
    Pass(Guest, 1, None, Some(zone), None, Some(1), 1, 0, ActivePass, Some("h"), 0)
  }

  const PRESENTED: RedeemRequest := RedeemRequest("h", 1, None, 0)

  /** With this pass alone in the tables the request faults. */
  lemma UnservedZoneFaults(cfg: Config, reg: Registry, zone: Id, started: Instant, clock: Instant)
    requires WellFormed(cfg) && !ServedZone(cfg, zone)
    ensures Attempt(cfg, Run(cfg, Start(reg), [AddPass(GuestFor(zone))]).db, PRESENTED, started, clock).1 == ServerFault
  {
    GuestPassAdded(cfg, reg, zone);
    PresentedFaults(cfg, EMPTY_DB.(passes := [GuestFor(zone)]), zone, started, clock);
  }

  lemma GuestPassAdded(cfg: Config, reg: Registry, zone: Id)
    ensures Run(cfg, Start(reg), [AddPass(GuestFor(zone))]).db == EMPTY_DB.(passes := [GuestFor(zone)])
  {
    RunSnoc(cfg, Start(reg), [], AddPass(GuestFor(zone)));
    assert [] + [AddPass(GuestFor(zone))] == [AddPass(GuestFor(zone))];
    assert [] + [GuestFor(zone)] == [GuestFor(zone)];
  }

  lemma PresentedFaults(cfg: Config, db: Db, zone: Id, started: Instant, clock: Instant)
    requires WellFormed(cfg) && !ServedZone(cfg, zone) && db.passes == [GuestFor(zone)]
    ensures Attempt(cfg, db, PRESENTED, started, clock).1 == ServerFault
  {
    ZoneBarrierIsFirst(cfg, zone);
    var b :| FirstInZone(cfg, b, zone) && b.controller.None?;
    SameBarrier(cfg, ZoneBarrier(cfg, cfg.barriers, zone).value, b);
    assert Queries.RedeemableBy(db.passes[0], "h", 0);
    assert Queries.FindRedeemable(db.passes, "h", 0) == Some(0);
  }

  /** No redemption ever faults exactly when the barrier that serves each zone has a controller. */
  lemma FaultFreeExactlyWhenZonesServed(cfg: Config)
    requires WellFormed(cfg)
    ensures NeverFaults(cfg) <==> ZonesServed(cfg)
  {
    if ZonesServed(cfg) {
      forall reg: Registry, steps: seq<Step>, r: RedeemRequest, started: Instant, clock: Instant
        ensures Attempt(cfg, Run(cfg, Start(reg), steps).db, r, started, clock).1 != ServerFault
      {
        ServedZonesNeverFault(cfg, Run(cfg, Start(reg), steps).db, r, started, clock);
      }
    } else {
      var zone: Id :| !ServedZone(cfg, zone);
      UnservedZoneFaults(cfg, Registry([], [], [], map[], [], [], {}), zone, 0, 0);
    }
  }
}
