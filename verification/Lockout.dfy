/** How many wrong codes get through: attempts check and record their keys one at a time, each by a clock reading of
  * its own, so several can be between the check of a key and its record at once. */
module Lockout {
  import opened Common
  import opened FailureStore

  /** The keys of an attempt: operator account, source address, hash of the code. */
  function RateLimitKeys(operator: string, ip: Option<string>, codeHash: string): (keys: seq<string>)
    ensures |keys| == 3 && DistinctKeys(keys)
  {
    var address := if ip.Some? && ip.value != "" then ip.value else "unknown";
    var keys := ["op:" + operator, "ip:" + address, "code:" + codeHash];
    assert keys[0][0] == 'o' && keys[1][0] == 'i' && keys[2][0] == 'c';
    keys
  }

  predicate DistinctKeys(keys: seq<string>) {
    forall i, j :: 0 <= i < j < |keys| ==> keys[i] != keys[j]
  }

  /** Two callers count as one address: the same known one, or both unknown. */
  predicate SameAddress(a: Option<string>, b: Option<string>) {
    var unknownA := a == None || a == Some("") || a == Some("unknown");
    var unknownB := b == None || b == Some("") || b == Some("unknown");
    if unknownA || unknownB then unknownA && unknownB else a == b
  }

  predicate ShareKey(a: seq<string>, b: seq<string>) {
    exists key | key in a :: key in b
  }

  lemma SamePrefixed(prefix: string, a: string, b: string)
    ensures prefix + a == prefix + b <==> a == b
  {
    assert (prefix + a)[|prefix|..] == a && (prefix + b)[|prefix|..] == b;
  }

  /** Two attempts share a counter exactly when they agree in operator, in address or in code. */
  lemma KeysSharedExactlyWhen(operator: string, ip: Option<string>, code: string, operator2: string,
                              ip2: Option<string>, code2: string)
    ensures ShareKey(RateLimitKeys(operator, ip, code), RateLimitKeys(operator2, ip2, code2))
            <==> operator == operator2 || SameAddress(ip, ip2) || code == code2
  {
    var a, b := RateLimitKeys(operator, ip, code), RateLimitKeys(operator2, ip2, code2);
    var from := if ip.Some? && ip.value != "" then ip.value else "unknown";
    var from2 := if ip2.Some? && ip2.value != "" then ip2.value else "unknown";
    SamePrefixed("op:", operator, operator2);
    SamePrefixed("ip:", from, from2);
    SamePrefixed("code:", code, code2);
    assert a == ["op:" + operator, "ip:" + from, "code:" + code];
    assert b == ["op:" + operator2, "ip:" + from2, "code:" + code2];
    assert from == from2 <==> SameAddress(ip, ip2);
    forall i, j | 0 <= i < 3 && 0 <= j < 3 && i != j ensures a[i] != b[j] {
      assert a[i][0] != b[j][0];
    }
    forall i | 0 <= i < 3 && a[i] == b[i] ensures ShareKey(a, b) {
      assert a[i] in a && a[i] in b;
    }
    assert a[0] == b[0] <==> operator == operator2;
    assert a[1] == b[1] <==> from == from2;
    assert a[2] == b[2] <==> code == code2;
    if key :| key in a && key in b {
      var i :| 0 <= i < 3 && a[i] == key;
      var j :| 0 <= j < 3 && b[j] == key;
      assert i == j;
    }
  }

  datatype Backend = Memory | Redis

  /** An attempt checks its keys in order, tries its code, and if the code is wrong records its keys in order.
    * `next` is the position of the key whose turn it is. */
  datatype Attempt = Checking(keys: seq<string>, next: nat) | Recording(keys: seq<string>, next: nat)

  datatype Gate = Gate(
    clock: real, history: seq<Failure>, counters: map<string, Counter>, inflight: map<nat, Attempt>)

  datatype Step =
    | Arrive(attempt: nat, keys: seq<string>)
    | CheckNext(attempt: nat, now: real)
    | RecordNext(attempt: nat, now: real)
    | Leave(attempt: nat)

  const START: Gate := Gate(0.0, [], map[], map[])

  function CountNow(backend: Backend, g: Gate, key: string, now: real): nat {
    match backend
    case Memory => Failures(g.history, key, now - FAILURE_WINDOW, now)
    case Redis => LiveCount(g.counters, key, now)
  }

  /** The attempt has keys to check. */
  predicate ToCheck(a: Attempt) {
    a.Checking? && a.next < |a.keys|
  }

  /** The attempt has passed every check, and has keys to record. */
  predicate ToRecord(a: Attempt) {
    if a.Checking? then a.next == |a.keys| > 0 else a.next < |a.keys|
  }

  /** The key it records next, as a position. */
  function Turn(a: Attempt): nat {
    if a.Checking? then 0 else a.next
  }

  function CheckKey(backend: Backend, g: Gate, attempt: nat, now: real): Gate
    requires attempt in g.inflight && ToCheck(g.inflight[attempt])
  {
    var a := g.inflight[attempt];
    if CountNow(backend, g, a.keys[a.next], now) >= FAILURE_THRESHOLD
    then g.(clock := now, inflight := g.inflight - {attempt})
    else g.(clock := now, inflight := g.inflight[attempt := Checking(a.keys, a.next + 1)])
  }

  function RecordKey(g: Gate, attempt: nat, now: real): Gate
    requires attempt in g.inflight && ToRecord(g.inflight[attempt])
  {
    var a := g.inflight[attempt];
    var i := Turn(a);
    g.(clock := now, history := g.history + [Failure(a.keys[i], now)], counters := Bump(g.counters, a.keys[i], now),
       inflight := if i + 1 == |a.keys| then g.inflight - {attempt}
                   else g.inflight[attempt := Recording(a.keys, i + 1)])
  }

  /** A blocked attempt and one that redeemed its code leave; a step that is not enabled changes nothing. */
  function Apply(backend: Backend, g: Gate, step: Step): Gate {
    match step
    case Arrive(attempt, keys) =>
      if attempt in g.inflight || !DistinctKeys(keys) then g
      else g.(inflight := g.inflight[attempt := Checking(keys, 0)])
    case CheckNext(attempt, now) =>
      if now < g.clock || attempt !in g.inflight || !ToCheck(g.inflight[attempt]) then g
      else CheckKey(backend, g, attempt, now)
    case RecordNext(attempt, now) =>
      if now < g.clock || attempt !in g.inflight || !ToRecord(g.inflight[attempt]) then g
      else RecordKey(g, attempt, now)
    case Leave(attempt) => g.(inflight := g.inflight - {attempt})
  }

  function Run(backend: Backend, g: Gate, steps: seq<Step>): Gate {
    if steps == [] then g else Apply(backend, Run(backend, g, steps[..|steps| - 1]), steps[|steps| - 1])
  }

  lemma RunSnoc(backend: Backend, g: Gate, steps: seq<Step>, last: Step)
    ensures Run(backend, g, steps + [last]) == Apply(backend, Run(backend, g, steps), last)
  {
    assert (steps + [last])[..|steps|] == steps;
  }

  /** The attempt has passed the check of the key and not recorded it yet. */
  ghost predicate Owes(a: Attempt, key: string) {
    exists i :: 0 <= i < |a.keys| && (if a.Checking? then i < a.next else a.next <= i) && a.keys[i] == key
  }

  /** The attempts between the check and the record of the key. */
  ghost function Holding(inflight: map<nat, Attempt>, key: string): set<nat> {
    set a | a in inflight && Owes(inflight[a], key)
  }

  /** All along the run at most `m` attempts are between the check and the record of the key. */
  ghost predicate AtMost(backend: Backend, steps: seq<Step>, key: string, m: nat) {
    forall n :: 0 <= n <= |steps| ==> |Holding(Run(backend, START, steps[..n]).inflight, key)| <= m
  }

  lemma AtMostFront(backend: Backend, steps: seq<Step>, key: string, m: nat)
    requires AtMost(backend, steps, key, m) && steps != []
    ensures AtMost(backend, steps[..|steps| - 1], key, m)
    ensures |Holding(Run(backend, START, steps[..|steps| - 1]).inflight, key)| <= m
    ensures |Holding(Run(backend, START, steps).inflight, key)| <= m
  {
    var front := steps[..|steps| - 1];
    forall n | 0 <= n <= |front| ensures front[..n] == steps[..n] {
    }
    assert steps[..|steps|] == steps;
    assert forall n :: 0 <= n <= |front| ==> |Holding(Run(backend, START, steps[..n]).inflight, key)| <= m;
  }

  // ---------------------------------------------------------------- what a step does to one key

  ghost predicate AllDistinct(g: Gate) {
    forall a :: a in g.inflight ==> DistinctKeys(g.inflight[a].keys)
  }

  /** Nothing is recorded, and the key is held anew only after a check that passed. */
  ghost predicate Quiet(backend: Backend, g: Gate, after: Gate, key: string) {
    && after.history == g.history && after.counters == g.counters && g.clock <= after.clock
    && (|Holding(after.inflight, key)| <= |Holding(g.inflight, key)|
        || (|Holding(after.inflight, key)| == |Holding(g.inflight, key)| + 1
            && CountNow(backend, g, key, after.clock) < FAILURE_THRESHOLD))
  }

  /** One failure of some key is recorded, by an attempt that held it. */
  ghost predicate Recorded(g: Gate, after: Gate, key: string, failed: string) {
    && after.history == g.history + [Failure(failed, after.clock)] && g.clock <= after.clock
    && after.counters == Bump(g.counters, failed, after.clock)
    && |Holding(after.inflight, key)| == |Holding(g.inflight, key)| - (if failed == key then 1 else 0)
  }

  lemma HoldingSet(inflight: map<nat, Attempt>, key: string, attempt: nat, a: Attempt)
    ensures var before := |Holding(inflight, key)| - (if attempt in Holding(inflight, key) then 1 else 0);
            |Holding(inflight[attempt := a], key)| == before + (if Owes(a, key) then 1 else 0)
  {
    var rest := Holding(inflight, key) - {attempt};
    var after := Holding(inflight[attempt := a], key);
    assert after == if Owes(a, key) then rest + {attempt} else rest;
  }

  lemma HoldingDrop(inflight: map<nat, Attempt>, key: string, attempt: nat)
    ensures |Holding(inflight - {attempt}, key)|
            == |Holding(inflight, key)| - (if attempt in Holding(inflight, key) then 1 else 0)
  {
    assert Holding(inflight - {attempt}, key) == Holding(inflight, key) - {attempt};
  }

  /** A check that passes adds its own key to what is owed. */
  lemma CheckOwes(a: Attempt, key: string)
    requires ToCheck(a)
    ensures Owes(Checking(a.keys, a.next + 1), key) <==> Owes(a, key) || a.keys[a.next] == key
  {
    var after := Checking(a.keys, a.next + 1);
    if Owes(a, key) {
      var i :| 0 <= i < |a.keys| && i < a.next && a.keys[i] == key;
      assert after.keys[i] == key;
    } else if a.keys[a.next] == key {
      assert after.keys[a.next] == key;
    }
  }

  /** A record takes its own key away. */
  lemma RecordOwes(a: Attempt, key: string)
    requires ToRecord(a) && DistinctKeys(a.keys)
    ensures Owes(a, key) <==> Owes(Recording(a.keys, Turn(a) + 1), key) || a.keys[Turn(a)] == key
    ensures !Owes(Recording(a.keys, Turn(a) + 1), a.keys[Turn(a)])
  {
    var after := Recording(a.keys, Turn(a) + 1);
    if Owes(after, key) {
      var i :| 0 <= i < |a.keys| && Turn(a) + 1 <= i && after.keys[i] == key;
      assert a.keys[i] == key;
    } else if Owes(a, key) {
      var i :| 0 <= i < |a.keys| && (if a.Checking? then i < a.next else a.next <= i) && a.keys[i] == key;
      assert after.keys[i] == key;
    } else {
      assert a.keys[Turn(a)] != key;
    }
  }

  lemma CheckEffect(backend: Backend, g: Gate, attempt: nat, now: real, key: string)
    requires attempt in g.inflight && ToCheck(g.inflight[attempt]) && g.clock <= now
    ensures Quiet(backend, g, CheckKey(backend, g, attempt, now), key)
  {
    var a := g.inflight[attempt];
    CheckOwes(a, key);
    HoldingSet(g.inflight, key, attempt, Checking(a.keys, a.next + 1));
    HoldingDrop(g.inflight, key, attempt);
  }

  lemma RecordEffect(g: Gate, attempt: nat, now: real, key: string)
    requires attempt in g.inflight && ToRecord(g.inflight[attempt]) && g.clock <= now && AllDistinct(g)
    ensures var a := g.inflight[attempt]; Recorded(g, RecordKey(g, attempt, now), key, a.keys[Turn(a)])
  {
    var a := g.inflight[attempt];
    RecordOwes(a, key);
    HoldingSet(g.inflight, key, attempt, Recording(a.keys, Turn(a) + 1));
    HoldingDrop(g.inflight, key, attempt);
    assert Turn(a) + 1 == |a.keys| ==> !Owes(Recording(a.keys, Turn(a) + 1), key);
  }

  lemma ArriveEffect(backend: Backend, g: Gate, attempt: nat, keys: seq<string>, key: string)
    ensures Quiet(backend, g, Apply(backend, g, Arrive(attempt, keys)), key)
  {
    HoldingSet(g.inflight, key, attempt, Checking(keys, 0));
  }

  /** Every step is quiet or records one failure. */
  lemma StepEffect(backend: Backend, g: Gate, step: Step, key: string)
    requires AllDistinct(g)
    ensures var after := Apply(backend, g, step);
            Quiet(backend, g, after, key) || exists failed :: Recorded(g, after, key, failed)
  {
    match step
    case Arrive(attempt, keys) => ArriveEffect(backend, g, attempt, keys, key);
    case CheckNext(attempt, now) =>
      if !(now < g.clock || attempt !in g.inflight || !ToCheck(g.inflight[attempt])) {
        CheckEffect(backend, g, attempt, now, key);
      }
    case RecordNext(attempt, now) =>
      if !(now < g.clock || attempt !in g.inflight || !ToRecord(g.inflight[attempt])) {
        RecordEffect(g, attempt, now, key);
      }
    case Leave(attempt) => HoldingDrop(g.inflight, key, attempt);
  }

  /** Only attempts with distinct keys are ever in flight. */
  lemma {:induction false} InflightDistinct(backend: Backend, steps: seq<Step>)
    ensures AllDistinct(Run(backend, START, steps))
  {
    if steps != [] {
      var g := Run(backend, START, steps[..|steps| - 1]);
      InflightDistinct(backend, steps[..|steps| - 1]);
      DistinctKept(backend, g, steps[|steps| - 1]);
    }
  }

  lemma DistinctKept(backend: Backend, g: Gate, step: Step)
    requires AllDistinct(g)
    ensures AllDistinct(Apply(backend, g, step))
  {
  }

  // ---------------------------------------------------------------- the gate is the store

  /** Attempt `a` checks its remaining keys at these times, nothing in between. */
  function Checks(g: Gate, a: nat, times: seq<real>): Gate {
    if times == [] then g else Apply(Memory, Checks(g, a, times[..|times| - 1]), CheckNext(a, times[|times| - 1]))
  }

  function Records(g: Gate, a: nat, times: seq<real>): Gate {
    if times == [] then g else Apply(Memory, Records(g, a, times[..|times| - 1]), RecordNext(a, times[|times| - 1]))
  }

  /** An attempt that nothing interrupts passes its first `n` checks exactly when the store does not call these keys
    * blocked at these readings. */
  lemma {:induction false} ChecksAskTheStore(g: Gate, a: nat, keys: seq<string>, times: seq<real>, n: nat)
    requires a in g.inflight && g.inflight[a] == Checking(keys, 0) && n <= |keys| == |times|
    requires Readings(g.clock, times, |keys|)
    ensures var after := Checks(g, a, times[..n]);
            && after.history == g.history
            && if Blocked(g.history, keys[..n], times[..n]) then a !in after.inflight
               else a in after.inflight && after.inflight[a] == Checking(keys, n)
                    && after.clock == Latest(g.clock, times[..n])
  {
    if n > 0 {
      ChecksAskTheStore(g, a, keys, times, n - 1);
      assert times[..n][..n - 1] == times[..n - 1];
      BlockedSnoc(g.history, keys, times, n - 1);
      LatestStep(g.clock, times, n - 1);
      var before := Checks(g, a, times[..n - 1]);
      assert CountNow(Memory, before, keys[n - 1], times[n - 1]) >= FAILURE_THRESHOLD
             <==> Full(g.history, keys[n - 1], times[n - 1]);
    }
  }

  /** Such an attempt with a wrong code records what the store records. */
  lemma {:induction false} RecordsFillTheStore(g: Gate, a: nat, keys: seq<string>, times: seq<real>, n: nat)
    requires a in g.inflight && g.inflight[a] == Checking(keys, |keys|) && n <= |keys| == |times| && keys != []
    requires Readings(g.clock, times, |keys|)
    ensures var after := Records(g, a, times[..n]);
            && after.history == g.history + RecordedFor(keys[..n], times[..n])
            && after.clock == Latest(g.clock, times[..n])
            && if n == 0 then after == g
               else if n == |keys| then a !in after.inflight
               else a in after.inflight && after.inflight[a] == Recording(keys, n)
  {
    if n == 0 {
      assert g.history + [] == g.history;
    } else {
      RecordsFillTheStore(g, a, keys, times, n - 1);
      assert times[..n][..n - 1] == times[..n - 1];
      LatestStep(g.clock, times, n - 1);
      RecordedOneMore(g.history, keys, times, n - 1);
    }
  }

  lemma RecordedOneMore(history: seq<Failure>, keys: seq<string>, times: seq<real>, n: nat)
    requires n < |keys| == |times|
    ensures history + RecordedFor(keys[..n + 1], times[..n + 1])
         == history + RecordedFor(keys[..n], times[..n]) + [Failure(keys[n], times[n])]
  {
    assert RecordedFor(keys[..n + 1], times[..n + 1])
        == RecordedFor(keys[..n], times[..n]) + [Failure(keys[n], times[n])];
  }

  // ---------------------------------------------------------------- the sliding window

  /** Narrowing the interval can only lower the count. */
  lemma Narrower(history: seq<Failure>, key: string, from: real, until: real, from2: real, until2: real)
    requires from <= from2
    requires forall i :: 0 <= i < |history| && history[i].key == key && history[i].at <= until2 ==>
               history[i].at <= until
    ensures Failures(history, key, from2, until2) <= Failures(history, key, from, until)
  {
    CountMonotone(history, (f: Failure) => f.key == key && from2 < f.at <= until2,
                  (f: Failure) => f.key == key && from < f.at <= until);
  }

  ghost predicate Past(g: Gate) {
    forall i :: 0 <= i < |g.history| ==> g.history[i].at <= g.clock
  }

  /** Once five failures lie in a window that is still open, the failures and the attempts in flight
    * together stay within the bound; and no window ever exceeded it. */
  ghost predicate SlidingInv(g: Gate, key: string, m: nat) {
    && Past(g)
    && (forall x: real :: g.clock - FAILURE_WINDOW <= x ==> Room(g, key, m, x))
    && (forall x: real :: InWindow(g.history, key, x) <= 4 + m)
  }

  /** The failures of a key in the window that starts after `x`. */
  function InWindow(history: seq<Failure>, key: string, x: real): nat {
    Failures(history, key, x, x + FAILURE_WINDOW)
  }

  ghost predicate Room(g: Gate, key: string, m: nat, x: real) {
    var n := Failures(g.history, key, x, g.clock);
    n >= FAILURE_THRESHOLD ==> n + |Holding(g.inflight, key)| <= 4 + m
  }

  /** Moving the clock changes no count of what has already happened. */
  lemma ClockMoves(g: Gate, key: string, x: real, now: real)
    requires Past(g) && g.clock <= now
    ensures Failures(g.history, key, x, now) == Failures(g.history, key, x, g.clock)
  {
    Narrower(g.history, key, x, now, x, g.clock);
    Narrower(g.history, key, x, g.clock, x, now);
  }

  lemma SlidingQuiet(g: Gate, after: Gate, key: string, m: nat)
    requires SlidingInv(g, key, m) && Quiet(Memory, g, after, key) && |Holding(after.inflight, key)| <= m
    ensures SlidingInv(after, key, m)
  {
    forall x: real | after.clock - FAILURE_WINDOW <= x ensures Room(after, key, m, x) {
      ClockMoves(g, key, x, after.clock);
      assert Room(g, key, m, x);
      Narrower(g.history, key, after.clock - FAILURE_WINDOW, after.clock, x, after.clock);
    }
  }

  lemma SlidingRecorded(g: Gate, after: Gate, key: string, failed: string, m: nat)
    requires SlidingInv(g, key, m) && Recorded(g, after, key, failed) && |Holding(g.inflight, key)| <= m
    ensures SlidingInv(after, key, m)
  {
    var f := Failure(failed, after.clock);
    forall x: real | after.clock - FAILURE_WINDOW <= x ensures Room(after, key, m, x) {
      FailuresSnoc(g.history, f, key, x, after.clock);
      ClockMoves(g, key, x, after.clock);
      assert Room(g, key, m, x);
    }
    forall x: real ensures InWindow(after.history, key, x) <= 4 + m {
      assert InWindow(g.history, key, x) <= 4 + m;
      FailuresSnoc(g.history, f, key, x, x + FAILURE_WINDOW);
      if after.clock <= x + FAILURE_WINDOW {
        assert Room(after, key, m, x);
        Narrower(after.history, key, x, after.clock, x, x + FAILURE_WINDOW);
      }
    }
  }

  lemma {:induction false} SlidingRun(steps: seq<Step>, key: string, m: nat)
    requires AtMost(Memory, steps, key, m)
    ensures SlidingInv(Run(Memory, START, steps), key, m)
  {
    if steps != [] {
      var front, last := steps[..|steps| - 1], steps[|steps| - 1];
      var g := Run(Memory, START, front);
      AtMostFront(Memory, steps, key, m);
      SlidingRun(front, key, m);
      InflightDistinct(Memory, front);
      StepEffect(Memory, g, last, key);
      var after := Apply(Memory, g, last);
      if Quiet(Memory, g, after, key) {
        SlidingQuiet(g, after, key, m);
      } else {
        var failed :| Recorded(g, after, key, failed);
        SlidingRecorded(g, after, key, failed, m);
      }
    }
  }

  /** With at most `m` attempts between the check and the record of a key at any time, no window of the configured
    * length ever holds more than `4 + m` recorded failures of the key: 5 when they come one at a time. */
  lemma LockoutBound(steps: seq<Step>, key: string, m: nat, x: real)
    requires AtMost(Memory, steps, key, m)
    ensures InWindow(Run(Memory, START, steps).history, key, x) <= 4 + m
  {
    SlidingRun(steps, key, m);
  }
}
