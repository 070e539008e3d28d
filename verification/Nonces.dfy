/** Anti-replay of signed edge requests: a freshness window on the signed timestamp and a store of nonces
  * that forgets them after their time to live. */
module Nonces {
  import opened Common

  const MAX_NONCES: nat := 4096
  const DEFAULT_WINDOW: nat := 300
  const DEFAULT_TTL: real := 600.0

  // ---------------------------------------------------------------- the store in memory

  /** The nonce was accepted less than a time to live ago. `accepted` maps a key to its last acceptance. */
  predicate Remembered(accepted: map<string, real>, key: string, ttl: real, now: real) {
    key in accepted && now < accepted[key] + ttl
  }

  class InMemoryNonceStore {
    var seen: map<string, real>
    const ttl: real
    /** The last acceptance of every key ever accepted, and the latest reading of the clock. */
    ghost var accepted: map<string, real>
    ghost var clock: real

    /** Entries that have not expired are exactly the acceptances still remembered. */
    ghost predicate Valid()
      reads this
    {
      && (forall key :: key in seen && clock < seen[key] ==> key in accepted && seen[key] == accepted[key] + ttl)
      && (forall key :: Remembered(accepted, key, ttl, clock) ==> key in seen && seen[key] == accepted[key] + ttl)
    }

    constructor (ttl: real)
      ensures Valid() && accepted == map[] && clock == 0.0 && this.ttl == ttl
    {
      this.ttl := ttl;
      seen := map[];
      accepted := map[];
      clock := 0.0;
    }

    /** Whether the key was accepted within the last time to live; if not, accept it now. Expired entries
      * may be dropped meanwhile. */
    method Seen(key: string, now: real) returns (replay: bool)
      requires Valid() && clock <= now
      modifies this
      ensures Valid() && clock == now
      ensures replay <==> Remembered(old(accepted), key, ttl, now)
      ensures accepted == if replay then old(accepted) else old(accepted)[key := now]
    {
      clock := now;
      if |seen| > MAX_NONCES {
        seen := map k | k in seen && seen[k] > now :: seen[k];
      }
      if key in seen && seen[key] > now {
        return true;
      }
      seen := seen[key := now + ttl];
      accepted := accepted[key := now];
      replay := false;
    }
  }

  // ---------------------------------------------------------------- authentication

  datatype Verdict = Authenticated | BadCredentials | Stale | BadSignature | Replayed

  /** The signed timestamp is within the window of the clock's whole seconds. */
  predicate Fresh(window: nat, stamp: int, now: real) {
    stamp - window <= now.Floor <= stamp + window
  }

  /** The last steps of authentication. The outcomes of the key check and of the signature check are given;
    * the nonce is spent last, so a request that fails earlier does not spend it. */
  method Authenticate(store: InMemoryNonceStore, credentialsOk: bool, signatureOk: bool, key: string, stamp: int,
                      window: nat, now: real)
    returns (verdict: Verdict)
    requires store.Valid() && store.clock <= now
    modifies store
    ensures store.Valid() && store.clock <= now
    ensures verdict.Authenticated? <==>
              credentialsOk && signatureOk && Fresh(window, stamp, now)
              && !Remembered(old(store.accepted), key, store.ttl, now)
    ensures store.accepted == if verdict.Authenticated? then old(store.accepted)[key := now] else old(store.accepted)
  {
    if !credentialsOk {
      return BadCredentials;
    }
    var lag := now.Floor - stamp;
    if (if lag < 0 then -lag else lag) > window {
      return Stale;
    }
    if !signatureOk {
      return BadSignature;
    }
    var replay := store.Seen(key, now);
    verdict := if replay then Replayed else Authenticated;
  }

  // ---------------------------------------------------------------- whole runs

  /** A correctly signed request as it arrives; the signature fixes key and timestamp. */
  datatype Arrival = Arrival(key: string, stamp: int, at: real)

  predicate Passes(window: nat, ttl: real, accepted: map<string, real>, a: Arrival) {
    Fresh(window, a.stamp, a.at) && !Remembered(accepted, a.key, ttl, a.at)
  }

  function AcceptedAfter(window: nat, ttl: real, arrivals: seq<Arrival>): map<string, real> {
    if arrivals == [] then map[]
    else
      var n := |arrivals| - 1;
      var accepted := AcceptedAfter(window, ttl, arrivals[..n]);
      if Passes(window, ttl, accepted, arrivals[n]) then accepted[arrivals[n].key := arrivals[n].at] else accepted
  }

  predicate IsAccepted(window: nat, ttl: real, arrivals: seq<Arrival>, i: nat)
    requires i < |arrivals|
  {
    Passes(window, ttl, AcceptedAfter(window, ttl, arrivals[..i]), arrivals[i])
  }

  /** Arrivals in the order of their times. */
  predicate InOrder(arrivals: seq<Arrival>) {
    forall i, j :: 0 <= i < j < |arrivals| ==> arrivals[i].at <= arrivals[j].at
  }

  /** One signed request, sent at two moments of a run, is accepted both times. */
  predicate AcceptedTwice(window: nat, ttl: real, arrivals: seq<Arrival>, i: nat, j: nat) {
    && i < j < |arrivals| && InOrder(arrivals)
    && arrivals[i].key == arrivals[j].key && arrivals[i].stamp == arrivals[j].stamp
    && IsAccepted(window, ttl, arrivals, i) && IsAccepted(window, ttl, arrivals, j)
  }

  /** After an acceptance the key's last acceptance is never earlier. */
  lemma {:induction false} LastAcceptance(window: nat, ttl: real, arrivals: seq<Arrival>, i: nat, n: nat)
    requires i < n <= |arrivals| && InOrder(arrivals) && IsAccepted(window, ttl, arrivals, i)
    ensures var accepted := AcceptedAfter(window, ttl, arrivals[..n]);
            arrivals[i].key in accepted && arrivals[i].at <= accepted[arrivals[i].key]
  {
    assert arrivals[..n][..n - 1] == arrivals[..n - 1];
    if i < n - 1 {
      LastAcceptance(window, ttl, arrivals, i, n - 1);
    }
  }

  lemma NeverTwice(window: nat, ttl: real, arrivals: seq<Arrival>, i: nat, j: nat)
    requires ttl >= (2 * window + 1) as real
    ensures !AcceptedTwice(window, ttl, arrivals, i, j)
  {
    if AcceptedTwice(window, ttl, arrivals, i, j) {
      LastAcceptance(window, ttl, arrivals, i, j);
      Spacing(window, arrivals[i].stamp, arrivals[i].at, arrivals[j].at);
    }
  }

  /** Two moments at which one timestamp is fresh lie less than `2 * window + 1` seconds apart. */
  lemma Spacing(window: nat, stamp: int, first: real, second: real)
    requires Fresh(window, stamp, first) && Fresh(window, stamp, second)
    ensures second - first < (2 * window + 1) as real
  {
    assert (stamp - window) as real <= first.Floor as real <= first;
    assert second < second.Floor as real + 1.0 <= (stamp + window) as real + 1.0;
  }

  /** A request signed for `window`, sent at time 0 and again when its nonce has just been forgotten. */
  function ReplayAt(window: nat, ttl: real): seq<Arrival> {
    [Arrival("edge:n", window, 0.0), Arrival("edge:n", window, if ttl < 0.0 then 0.0 else ttl)]
  }

  lemma ShortTtlReplays(window: nat, ttl: real)
    requires ttl < (2 * window + 1) as real
    ensures AcceptedTwice(window, ttl, ReplayAt(window, ttl), 0, 1)
  {
    var arrivals := ReplayAt(window, ttl);
    var later := arrivals[1].at;
    assert 0.0 <= later < (2 * window + 1) as real;
    assert later.Floor as real <= later < later.Floor as real + 1.0;
    assert 0 <= later.Floor <= 2 * window;
    assert arrivals[..0] == [];
    assert arrivals[..1] == [arrivals[0]] && arrivals[..1][..0] == [];
    assert AcceptedAfter(window, ttl, arrivals[..1]) == map["edge:n" := 0.0];
  }

  /** No run accepts a signed request twice exactly when nonces live at least `2 * window + 1` seconds. */
  lemma AtMostOnceExactlyWhenTtlSuffices(window: nat, ttl: real)
    ensures (forall arrivals: seq<Arrival>, i: nat, j: nat :: !AcceptedTwice(window, ttl, arrivals, i, j))
            <==> ttl >= (2 * window + 1) as real
  {
    if ttl >= (2 * window + 1) as real {
      forall arrivals: seq<Arrival>, i: nat, j: nat ensures !AcceptedTwice(window, ttl, arrivals, i, j) {
        NeverTwice(window, ttl, arrivals, i, j);
      }
    } else {
      ShortTtlReplays(window, ttl);
    }
  }

  /** The default settings fall one second short: a request accepted 300 s before its timestamp is accepted
    * again 300 s after it. */
  lemma DefaultsAdmitOneReplay()
    ensures AcceptedTwice(DEFAULT_WINDOW, DEFAULT_TTL,
                          [Arrival("edge:n", 300, 0.0), Arrival("edge:n", 300, 600.0)], 0, 1)
  {
    ShortTtlReplays(DEFAULT_WINDOW, DEFAULT_TTL);
  }
}
