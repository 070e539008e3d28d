/** The endpoint that redeems a guest code: check the failure counters, redeem, record a failure. */
module RedeemEndpoint {
  import opened Common
  import opened Domain
  import opened Transactions
  import opened Repositories
  import opened FailureStore
  import opened Lockout
  import Services

  datatype Answer = TooManyAttempts | CodeInvalid | InternalError | CodeAccepted(result: RedeemOutcome)

  /** What redeeming would do to the tables, ignoring the counters. */
  function Attempt(cfg: Config, db: Db, r: RedeemRequest, started: Instant, clock: Instant): (Db, RedeemOutcome) {
    match BeginRedeem(cfg, db, r)
    case Rejected(outcome) => (db, outcome)
    case Candidate(p, barrier, controller) => CommitRedeem(db, r, p, barrier, controller, started, clock)
  }

  /** A blocked caller is refused even with a right code, and nothing changes. Otherwise a wrong code is
    * recorded once under every key and changes no table; a right code is not recorded. `checks` and `records` are
    * the readings of the clock for the keys when they are checked and when they are recorded. */
  method PostRedeemCode(cfg: Config, t: Tables, store: InMemoryFailureStore, r: RedeemRequest, operator: string,
                        ip: Option<string>, started: Instant, clock: Instant, checks: seq<real>,
                        records: seq<real>)
    returns (answer: Answer)
    requires store.Valid() && Readings(store.clock, checks, 3) && Readings(Latest(store.clock, checks), records, 3)
    modifies t, store
    ensures store.Valid()
    ensures var keys := RateLimitKeys(operator, ip, r.hash);
            var (after, outcome) := Attempt(cfg, old(t.Contents()), r, started, clock);
            if Blocked(old(store.history), keys, checks) then
              answer == TooManyAttempts && t.Contents() == old(t.Contents()) && store.history == old(store.history)
            else match outcome
              case CodeRejected =>
                && t.Contents() == old(t.Contents())
                && store.history == old(store.history) + RecordedFor(keys, records)
                && answer == if Blocked(store.history, keys, records) then TooManyAttempts else CodeInvalid
              case ServerFault =>
                answer == InternalError && t.Contents() == old(t.Contents()) && store.history == old(store.history)
              case Redeemed(_, _, _, _) =>
                answer == CodeAccepted(outcome) && t.Contents() == after && store.history == old(store.history)
  {
    var keys := RateLimitKeys(operator, ip, r.hash);
    var blocked := store.IsBlocked(keys, checks);
    if blocked {
      return TooManyAttempts;
    }
    ghost var before := t.Contents();
    var outcome := Services.RedeemCode(cfg, t, r, started, clock);
    RejectionChangesNothing(cfg, before, r, started, clock);
    assert (t.Contents(), outcome) == Attempt(cfg, before, r, started, clock);
    match outcome
    case CodeRejected =>
      var nowBlocked := store.RecordFailures(keys, records);
      answer := if nowBlocked then TooManyAttempts else CodeInvalid;
    case ServerFault => answer := InternalError;
    case Redeemed(_, _, _, _) => answer := CodeAccepted(outcome);
  }

  /** Only a successful redemption changes the tables, and it is never a fault after the pass was spent. */
  lemma RejectionChangesNothing(cfg: Config, db: Db, r: RedeemRequest, started: Instant, clock: Instant)
    ensures var (after, outcome) := Attempt(cfg, db, r, started, clock); outcome.Redeemed? || after == db
  {
  }
}
