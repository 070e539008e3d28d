/** The rows of the access-control tables and the fixed equipment configuration.
  *
  * A row of `events`, `decisions`, `commands`, `openings`, `passes` or `sessions` is identified by
  * its position in its table: tables only grow, so positions are the ascending identifiers of the
  * original. Instants are whole microseconds.
  */
module Domain {
  import opened Common

  /** Database identifiers of equipment, zones, apartments and users; serial columns start at 1. */
  type Id = i: int | 0 < i witness 1

  type Instant = int
  const SECOND: int := 1_000_000
  const MANUAL_REVIEW_DEADLINE: int := 120 * SECOND
  const MANUAL_COMMAND_TTL: int := 120 * SECOND
  const GUEST_CODE_COMMAND_TTL: int := 120 * SECOND

  datatype Direction = Entry | Exit
  datatype DecisionType = Allow | Deny | ManualReview
  datatype DecisionStatus = PendingReview | Allowed | AllowedManually | Denied | DeniedManually | Expired
  datatype Reason =
    | PermanentVehicleAllowed | TemporaryPassAllowed
    | AssignedSpotAllowed | SpotNotAssigned | SpotRentalExpired
    | SharedAccessAllowed | PerApartmentLimitExceeded | ParkingSpotOccupied
    | VehicleNotFound | VehicleBlocked | ZoneNotAllowed
    | PassExpired | PassAlreadyUsed | LowConfidence

  /** One recognised passage as received, with its normalised plate; scope fields are sanitised. */
  datatype CameraEvent = CameraEvent(
    controller: Id, eventId: string, gate: Option<Id>, zone: Option<Id>,
    plate: Option<string>, direction: Direction, capturedAt: Instant)

  /** A decision row; a transition row names the row it supersedes. */
  datatype Decision = Decision(
    event: nat, supersedes: Option<nat>, decision: DecisionType, status: DecisionStatus,
    reason: Option<Reason>, vehicle: Option<nat>, pass: Option<nat>,
    deadline: Option<Instant>, resolvedBy: Option<Id>)

  datatype CommandStatus = Pending | Leased | Acked | Dead

  datatype Command = Command(
    decision: Option<nat>, controller: Id, barrier: Id, createdAt: Instant, expiresAt: Option<Instant>,
    status: CommandStatus, leaseToken: Option<string>, leaseExpiresAt: Option<Instant>,
    attempts: nat, ackResult: Option<string>)

  datatype Opening = Opening(
    barrier: Id, command: nat, decision: Option<nat>, operator: Id, reason: string,
    event: Option<nat>, createdAt: Instant)

  datatype PassKind = Taxi | Guest | OtherKind
  datatype PassStatus = ActivePass | UsedPass | ExpiredPass | RevokedPass

  datatype Pass = Pass(
    kind: PassKind, apartment: Id, plate: Option<string>, zone: Option<Id>,
    validFrom: Option<Instant>, validUntil: Option<Instant>,
    maxEntries: nat, usedEntries: nat, status: PassStatus, codeHash: Option<string>, createdAt: Instant)

  datatype Session = Session(
    vehicle: nat, apartment: Option<Id>, zone: Id, enteredAt: Instant, exitedAt: Option<Instant>,
    open: bool, entryEvent: Option<nat>, exitEvent: Option<nat>,
    closedBy: Option<Id>, closeReason: Option<string>)

  /** The append-only journals (`access_events` and `access_audit_logs`) merged in commit order.
    * `Passage` is a journal row joined with the decision row it points to. */
  datatype LogEntry =
    | Passage(id: nat, row: Decision, zone: Option<Id>, direction: Direction, apartment: Option<Id>)
    | ReviewExpired(decision: nat, lazy: bool)
    | ReviewOpened(decision: nat, operator: Id)
    | ReviewDenied(decision: nat, operator: Id)
    | BarrierOpened(barrier: Id, operator: Id)
    | CodeRedeemed(pass: nat, operator: Id)
    | PresenceClosed(session: nat, parked: nat, freed: Id, operator: Id)

  datatype Db = Db(
    events: seq<CameraEvent>, decisions: seq<Decision>, commands: seq<Command>,
    openings: seq<Opening>, passes: seq<Pass>, sessions: seq<Session>, log: seq<LogEntry>)

  const EMPTY_DB: Db := Db([], [], [], [], [], [], [])

  // ---------------------------------------------------------------- equipment

  datatype Gate = Gate(id: Id, zone: Id, controller: Option<Id>, active: bool)
  datatype Barrier = Barrier(id: Id, gate: Id, controller: Option<Id>, active: bool)

  /** Equipment and settings, fixed during a run. `gates` and `barriers` list rows by ascending id;
    * `controllers` gives the zone of each registered controller. */
  datatype Config = Config(
    controllers: map<Id, Option<Id>>, gates: seq<Gate>, barriers: seq<Barrier>,
    dedupWindow: nat, commandTtl: nat, threshold: real)

  /** Row ids are primary keys and each table is listed by ascending id. */
  ghost predicate WellFormed(cfg: Config) {
    && (forall i, j :: 0 <= i < j < |cfg.gates| ==> cfg.gates[i].id < cfg.gates[j].id)
    && (forall i, j :: 0 <= i < j < |cfg.barriers| ==> cfg.barriers[i].id < cfg.barriers[j].id)
  }

  predicate GateBelongs(cfg: Config, gate: Id, controller: Id) {
    exists g | g in cfg.gates :: g.id == gate && g.controller == Some(controller)
  }

  function FirstActiveGate(gates: seq<Gate>, controller: Id): (r: Option<Id>)
    ensures r.Some? ==> exists g | g in gates :: g.id == r.value && g.controller == Some(controller)
  {
    if gates == [] then None
    else if gates[0].controller == Some(controller) && gates[0].active then Some(gates[0].id)
    else FirstActiveGate(gates[1..], controller)
  }

  /** The active barrier of a gate with the smallest id. */
  function FirstActiveBarrier(barriers: seq<Barrier>, gate: Id): (r: Option<Barrier>)
    ensures r.Some? ==> r.value in barriers && r.value.gate == gate && r.value.active
    ensures r.None? ==> forall b | b in barriers :: !(b.gate == gate && b.active)
  {
    if barriers == [] then None
    else if barriers[0].gate == gate && barriers[0].active then Some(barriers[0])
    else FirstActiveBarrier(barriers[1..], gate)
  }

  /** The row with this id, if any. */
  function FindBarrier(barriers: seq<Barrier>, id: Id): (r: Option<Barrier>)
    ensures r.Some? ==> r.value in barriers && r.value.id == id
    ensures r.None? ==> forall b | b in barriers :: b.id != id
  {
    if barriers == [] then None
    else if barriers[0].id == id then Some(barriers[0])
    else FindBarrier(barriers[1..], id)
  }

  /** The controller that serves an active barrier. */
  function ActiveController(cfg: Config, barrier: Id): Option<Id> {
    match FindBarrier(cfg.barriers, barrier)
    case None => None
    case Some(b) => if b.active then b.controller else None
  }

  /** The lock key of a physical passage: barrier, else gate, else controller. */
  function CanonicalLockKey(barrier: Option<Id>, gate: Option<Id>, controller: Id): Id {
    if barrier.Some? then barrier.value else if gate.Some? then gate.value else controller
  }

  function BarrierAt(cfg: Config, gate: Option<Id>): Option<Barrier> {
    if gate.Some? then FirstActiveBarrier(cfg.barriers, gate.value) else None
  }

  function BarrierIdAt(cfg: Config, gate: Option<Id>): Option<Id> {
    var b := BarrierAt(cfg, gate);
    if b.Some? then Some(b.value.id) else None
  }

  /** The key every path must hold to touch the decisions of a passage at this gate. */
  function KeyAt(cfg: Config, gate: Option<Id>, controller: Id): Id {
    CanonicalLockKey(BarrierIdAt(cfg, gate), gate, controller)
  }

  function EventKey(cfg: Config, e: CameraEvent): Id {
    KeyAt(cfg, e.gate, e.controller)
  }
}
