/** What a controller may claim: its passages concern its own zone and gates, and a claim on another's
  * opens nothing. */
module ScopeLaws {
  import opened Common
  import opened Domain
  import opened Engine
  import opened Queries
  import opened Transactions
  import opened PresenceLaws

  /** The zone of a registered controller, if it has one. */
  function OwnZone(cfg: Config, controller: Id): Option<Id> {
    if controller in cfg.controllers then cfg.controllers[controller] else None
  }

  predicate ForeignClaim(cfg: Config, x: Input) {
    || (x.zone.Some? && OwnZone(cfg, x.controller).Some? && x.zone != OwnZone(cfg, x.controller))
    || (x.gate.Some? && !GateBelongs(cfg, x.gate.value, x.controller))
  }

  /** The authorised scope is the controller's own, whatever was claimed; a foreign claim, and only that,
    * is a violation and leaves no gate and no barrier. */
  lemma ScopeIsOwn(cfg: Config, x: Input)
    ensures var s := AuthorizeScope(cfg, x);
            && (s.violation <==> ForeignClaim(cfg, x))
            && s.zone == (if OwnZone(cfg, x.controller).Some? then OwnZone(cfg, x.controller) else x.zone)
            && (s.gate.Some? ==> GateBelongs(cfg, s.gate.value, x.controller))
            && (s.violation ==> s.gate.None? && s.barrier.None?)
            && (!s.violation && x.gate.Some? ==> s.gate == x.gate)
            && (s.barrier.Some? ==> s.gate.Some?
                                    && exists b :: b in cfg.barriers && b.id == s.barrier.value && b.active
                                                   && Some(b.gate) == s.gate)
  {
  }

  // ---------------------------------------------------------------- which gate, which barrier

  /** The gate a controller's passage is at when it claims none: its active gate with the smallest id. */
  ghost predicate DefaultGateOf(cfg: Config, controller: Id, gate: Id) {
    && (exists g :: g in cfg.gates && g.id == gate && g.controller == Some(controller) && g.active)
    && (forall g :: g in cfg.gates && g.controller == Some(controller) && g.active ==> gate <= g.id)
  }

  /** The active barrier of the gate with the smallest id. */
  ghost predicate FirstBarrierOf(cfg: Config, gate: Id, b: Barrier) {
    && b in cfg.barriers && b.gate == gate && b.active
    && (forall c :: c in cfg.barriers && c.gate == gate && c.active ==> b.id <= c.id)
  }

  lemma {:induction false} LeastGate(gates: seq<Gate>, controller: Id)
    requires forall i, j :: 0 <= i < j < |gates| ==> gates[i].id < gates[j].id
    ensures var r := FirstActiveGate(gates, controller);
            && (r.Some? ==> exists g :: g in gates && g.id == r.value && g.controller == Some(controller) && g.active)
            && (forall g :: g in gates && g.controller == Some(controller) && g.active ==> r.Some? && r.value <= g.id)
  {
    if gates != [] {
      LeastGate(gates[1..], controller);
      assert gates[0] in gates;
      assert forall g :: g in gates ==> g == gates[0] || g in gates[1..];
    }
  }

  lemma {:induction false} LeastBarrier(barriers: seq<Barrier>, gate: Id)
    requires forall i, j :: 0 <= i < j < |barriers| ==> barriers[i].id < barriers[j].id
    ensures var r := FirstActiveBarrier(barriers, gate);
            forall b :: b in barriers && b.gate == gate && b.active ==> r.Some? && r.value.id <= b.id
  {
    if barriers != [] {
      LeastBarrier(barriers[1..], gate);
      assert forall b :: b in barriers ==> b == barriers[0] || b in barriers[1..];
    }
  }

  /** A passage that claims no gate is at its controller's active gate with the smallest id, and at none only when
    * the controller has no active gate. */
  lemma DefaultGateIsFirst(cfg: Config, x: Input)
    requires WellFormed(cfg) && x.gate.None? && !ForeignClaim(cfg, x)
    ensures var gate := AuthorizeScope(cfg, x).gate;
            && (gate.Some? ==> DefaultGateOf(cfg, x.controller, gate.value))
            && (gate.None? <==> forall g :: g in cfg.gates ==> g.controller != Some(x.controller) || !g.active)
  {
    LeastGate(cfg.gates, x.controller);
  }

  /** The barrier of a passage is the active barrier of its gate with the smallest id, and none only when the gate
    * has no active barrier. */
  lemma BarrierIsFirst(cfg: Config, x: Input)
    requires WellFormed(cfg)
    ensures var s := AuthorizeScope(cfg, x);
            && (s.barrier.Some? ==> s.gate.Some? && exists b :: FirstBarrierOf(cfg, s.gate.value, b)
                                                             && b.id == s.barrier.value)
            && (s.barrier.None? && s.gate.Some? ==>
                  forall b :: b in cfg.barriers ==> b.gate != s.gate.value || !b.active)
  {
    var s := AuthorizeScope(cfg, x);
    if s.gate.Some? {
      LeastBarrier(cfg.barriers, s.gate.value);
      var first := FirstActiveBarrier(cfg.barriers, s.gate.value);
      assert first.Some? ==> FirstBarrierOf(cfg, s.gate.value, first.value);
    }
  }

  /** A passage with a foreign claim is recorded as denied `zone_not_allowed`; it orders no opening, spends
    * no pass and moves no session. */
  lemma ForeignClaimOpensNothing(cfg: Config, reg: Registry, db: Db, x: Input, started: Instant, clock: Instant)
    requires ForeignClaim(cfg, x)
    ensures var begun := BeginIngest(cfg, reg, db, x);
            begun.Accepted? ==>
              var (after, r) := CommitIngest(cfg, reg, db, begun.ticket, started, clock);
              && r.decision == Deny && r.status == Denied && r.reason == Some(ZoneNotAllowed) && r.command.None?
              && after.commands == db.commands && after.passes == db.passes && after.sessions == db.sessions
              && after.openings == db.openings
  {
    ScopeIsOwn(cfg, x);
  }

  /** An exit without a foreign claim is always allowed, whatever the state of passes and vehicles: it spends
    * no pass, ends the vehicle's session in the zone and opens the barrier if there is one. */
  lemma ExitIsNeverRefused(cfg: Config, reg: Registry, db: Db, x: Input, started: Instant, clock: Instant)
    requires x.direction == Exit && !ForeignClaim(cfg, x)
    ensures var begun := BeginIngest(cfg, reg, db, x);
            begun.Accepted? ==>
              var t := begun.ticket;
              var (after, r) := CommitIngest(cfg, reg, db, t, started, clock);
              && r.decision == Allow && r.status == Allowed && (r.command.Some? <==> t.barrier.Some?)
              && after.passes == db.passes && |after.sessions| == |db.sessions|
              && (t.engine.vehicle.Some? && t.input.zone.Some? && OpenOnce(db.sessions) ==>
                    FindOpenSession(after.sessions, t.engine.vehicle.value, t.input.zone.value).None?)
  {
    ScopeIsOwn(cfg, x);
  }
}
