/** The lockout bounds are reached for every `m` above 0: `4 + m` in memory, `7 + 2m` in Redis. */
module LockoutTight {
  import opened Common
  import opened FailureStore
  import opened Lockout

  const KEY: string := "op:1"
  const KEYS: seq<string> := [KEY, "ip:unknown", "code:h"]

  /** The keys of an operator's attempts with one wrong code, from no known address. */
  lemma TheKeys()
    ensures KEYS == RateLimitKeys("1", None, "h") && DistinctKeys(KEYS)
  {
    assert "op:" + "1" == "op:1" && "ip:" + "unknown" == "ip:unknown" && "code:" + "h" == "code:h";
    assert KEYS == RateLimitKeys("1", None, "h");
  }

  lemma AtMostSnoc(backend: Backend, steps: seq<Step>, last: Step, key: string, m: nat)
    requires AtMost(backend, steps, key, m)
    requires |Holding(Run(backend, START, steps + [last]).inflight, key)| <= m
    ensures AtMost(backend, steps + [last], key, m)
  {
    var longer := steps + [last];
    forall n | 0 <= n <= |longer| ensures |Holding(Run(backend, START, longer[..n]).inflight, key)| <= m {
      if n <= |steps| {
        assert longer[..n] == steps[..n];
      } else {
        assert longer[..n] == longer;
      }
    }
  }

  // ---------------------------------------------------------------- the store in memory

  /** One failure of each key. */
  function Wrong(now: real): seq<Failure> {
    [Failure(KEYS[0], now), Failure(KEYS[1], now), Failure(KEYS[2], now)]
  }

  function Repeated(n: nat): seq<Failure> {
    if n == 0 then [] else Repeated(n - 1) + Wrong(0.0)
  }

  /** A wrong code counts once for each key. */
  lemma WrongCounts(history: seq<Failure>, k: nat, now: real, from: real, until: real)
    requires k < 3
    ensures Failures(history + Wrong(now), KEYS[k], from, until)
         == Failures(history, KEYS[k], from, until) + (if from < now <= until then 1 else 0)
  {
    TheKeys();
    var one := history + [Failure(KEYS[0], now)];
    var two := one + [Failure(KEYS[1], now)];
    FailuresSnoc(history, Failure(KEYS[0], now), KEYS[k], from, until);
    FailuresSnoc(one, Failure(KEYS[1], now), KEYS[k], from, until);
    FailuresSnoc(two, Failure(KEYS[2], now), KEYS[k], from, until);
    assert history + Wrong(now) == two + [Failure(KEYS[2], now)];
  }

  /** The attempts from `a` to `b`, each past the checks of its keys. */
  function Flying(a: nat, b: nat): map<nat, Attempt> {
    map i: nat | a <= i < b :: Passed(i)
  }

  function Passed(attempt: nat): Attempt {
    Checking(KEYS, 3)
  }

  /** `n` failures so far and the attempts from `a` to `b` in flight, all at time 0. */
  ghost predicate Shape(g: Gate, n: nat, a: nat, b: nat) {
    g.clock == 0.0 && g.history == Repeated(n) && g.inflight == Flying(a, b)
  }

  lemma {:induction false} RepeatedCount(n: nat, k: nat, from: real, until: real)
    requires k < 3 && from < 0.0 <= until
    ensures Failures(Repeated(n), KEYS[k], from, until) == n
  {
    if n > 0 {
      RepeatedCount(n - 1, k, from, until);
      WrongCounts(Repeated(n - 1), k, 0.0, from, until);
    }
  }

  lemma {:induction false} FlyingCount(a: nat, b: nat)
    requires a <= b
    ensures |Holding(Flying(a, b), KEY)| == b - a
  {
    if a < b {
      FlyingCount(a, b - 1);
      assert Passed(b - 1).keys[0] == KEY && Owes(Passed(b - 1), KEY);
      assert Holding(Flying(a, b), KEY) == Holding(Flying(a, b - 1), KEY) + {b - 1};
    } else {
      assert Holding(Flying(a, b), KEY) == {};
    }
  }

  /** Attempt `b` is at its check `i`, behind those in flight. */
  function CheckingAt(a: nat, b: nat, i: nat): map<nat, Attempt> {
    Flying(a, b)[b := Checking(KEYS, i)]
  }

  /** Attempt `a` has recorded `i` keys, ahead of those in flight. */
  function RecordingAt(a: nat, b: nat, i: nat): map<nat, Attempt> {
    Flying(a + 1, b)[a := Recording(KEYS, i)]
  }

  lemma CheckingCount(a: nat, b: nat, i: nat)
    requires a <= b && i <= 3
    ensures |Holding(CheckingAt(a, b, i), KEY)| == b - a + (if i > 0 then 1 else 0)
  {
    FlyingCount(a, b);
    HoldingSet(Flying(a, b), KEY, b, Checking(KEYS, i));
    assert b !in Holding(Flying(a, b), KEY);
    TheKeys();
    assert KEYS[0] == KEY;
    assert i > 0 ==> Owes(Checking(KEYS, i), KEY) by {
      assert i > 0 ==> Checking(KEYS, i).keys[0] == KEY;
    }
  }

  lemma RecordingCount(a: nat, b: nat, i: nat)
    requires a < b && 1 <= i < 3
    ensures |Holding(RecordingAt(a, b, i), KEY)| == b - a - 1
  {
    FlyingCount(a + 1, b);
    HoldingSet(Flying(a + 1, b), KEY, a, Recording(KEYS, i));
    assert a !in Holding(Flying(a + 1, b), KEY);
    TheKeys();
    assert KEYS[0] == KEY;
  }

  /** The state after `steps`, at most `m` attempts in flight so far. */
  ghost predicate At(backend: Backend, steps: seq<Step>, m: nat, g: Gate) {
    AtMost(backend, steps, KEY, m) && Run(backend, START, steps) == g
  }

  lemma Next(backend: Backend, steps: seq<Step>, m: nat, g: Gate, last: Step, after: Gate)
    requires At(backend, steps, m, g) && Apply(backend, g, last) == after && |Holding(after.inflight, KEY)| <= m
    ensures At(backend, steps + [last], m, after)
  {
    RunSnoc(backend, START, steps, last);
    AtMostSnoc(backend, steps, last, KEY, m);
  }

  /** No key has reached the threshold. */
  ghost predicate Free(backend: Backend, g: Gate, now: real) {
    forall k :: 0 <= k < 3 ==> CountNow(backend, g, KEYS[k], now) < FAILURE_THRESHOLD
  }

  lemma PassOne(backend: Backend, steps: seq<Step>, g: Gate, a: nat, b: nat, i: nat, now: real, m: nat)
    requires At(backend, steps, m, g) && g.inflight == CheckingAt(a, b, i) && i < 3 && a <= b < a + m
    requires g.clock <= now && Free(backend, g, now)
    ensures var after := g.(clock := now, inflight := CheckingAt(a, b, i + 1));
            At(backend, steps + [CheckNext(b, now)], m, after) && Free(backend, after, now)
  {
    var after := g.(clock := now, inflight := CheckingAt(a, b, i + 1));
    assert g.inflight[b] == Checking(KEYS, i) && |KEYS| == 3;
    assert CountNow(backend, g, KEYS[i], now) < FAILURE_THRESHOLD;
    assert CheckingAt(a, b, i)[b := Checking(KEYS, i + 1)] == CheckingAt(a, b, i + 1);
    CheckingCount(a, b, i + 1);
    Next(backend, steps, m, g, CheckNext(b, now), after);
    assert forall k :: 0 <= k < 3 ==> CountNow(backend, after, KEYS[k], now) == CountNow(backend, g, KEYS[k], now);
  }

  lemma Arrival(backend: Backend, steps: seq<Step>, g: Gate, a: nat, b: nat, now: real, m: nat)
    requires At(backend, steps, m, g) && g.inflight == Flying(a, b) && a <= b < a + m
    requires g.clock <= now && Free(backend, g, now)
    ensures var after := g.(inflight := CheckingAt(a, b, 0));
            At(backend, steps + [Arrive(b, KEYS)], m, after) && Free(backend, after, now)
  {
    TheKeys();
    var after := g.(inflight := CheckingAt(a, b, 0));
    CheckingCount(a, b, 0);
    Next(backend, steps, m, g, Arrive(b, KEYS), after);
    assert forall k :: 0 <= k < 3 ==> CountNow(backend, after, KEYS[k], now) == CountNow(backend, g, KEYS[k], now);
  }

  lemma LastCheck(a: nat, b: nat)
    requires a <= b
    ensures CheckingAt(a, b, 3) == Flying(a, b + 1)
  {
  }

  /** One more attempt passes its three checks, without exceeding `m`. */
  lemma RunCheck(backend: Backend, steps: seq<Step>, g: Gate, a: nat, b: nat, now: real, m: nat)
    returns (longer: seq<Step>)
    requires At(backend, steps, m, g) && g.inflight == Flying(a, b) && a <= b < a + m
    requires g.clock <= now && Free(backend, g, now)
    ensures At(backend, longer, m, g.(clock := now, inflight := Flying(a, b + 1)))
  {
    Arrival(backend, steps, g, a, b, now, m);
    longer := steps + [Arrive(b, KEYS)];
    longer := Passes(backend, longer, g.(inflight := CheckingAt(a, b, 0)), a, b, 0, now, m);
    LastCheck(a, b);
  }

  /** The attempt passes its checks from the one at `i` on. */
  lemma Passes(backend: Backend, steps: seq<Step>, g: Gate, a: nat, b: nat, i: nat, now: real, m: nat)
    returns (longer: seq<Step>)
    requires At(backend, steps, m, g) && g.inflight == CheckingAt(a, b, i) && i < 3 && a <= b < a + m
    requires g.clock <= now && Free(backend, g, now)
    ensures At(backend, longer, m, g.(clock := now, inflight := CheckingAt(a, b, 3)))
    decreases 3 - i
  {
    PassOne(backend, steps, g, a, b, i, now, m);
    longer := steps + [CheckNext(b, now)];
    if i < 2 {
      longer := Passes(backend, longer, g.(clock := now, inflight := CheckingAt(a, b, i + 1)), a, b, i + 1, now, m);
    }
  }

  /** The state once another key has failed. */
  function Fails(g: Gate, k: nat, now: real, inflight: map<nat, Attempt>): Gate
    requires k < 3
  {
    Gate(now, g.history + [Failure(KEYS[k], now)], Bump(g.counters, KEYS[k], now), inflight)
  }

  lemma FailFirst(backend: Backend, steps: seq<Step>, g: Gate, a: nat, b: nat, now: real, m: nat)
    requires At(backend, steps, m, g) && g.inflight == Flying(a, b) && a < b <= a + m && g.clock <= now
    ensures At(backend, steps + [RecordNext(a, now)], m, Fails(g, 0, now, RecordingAt(a, b, 1)))
  {
    assert g.inflight[a] == Passed(a);
    assert Flying(a, b)[a := Recording(KEYS, 1)] == RecordingAt(a, b, 1);
    RecordingCount(a, b, 1);
    Next(backend, steps, m, g, RecordNext(a, now), Fails(g, 0, now, RecordingAt(a, b, 1)));
  }

  lemma FailSecond(backend: Backend, steps: seq<Step>, g: Gate, a: nat, b: nat, now: real, m: nat)
    requires At(backend, steps, m, g) && g.inflight == RecordingAt(a, b, 1) && a < b <= a + m && g.clock <= now
    ensures At(backend, steps + [RecordNext(a, now)], m, Fails(g, 1, now, RecordingAt(a, b, 2)))
  {
    assert g.inflight[a] == Recording(KEYS, 1);
    assert RecordingAt(a, b, 1)[a := Recording(KEYS, 2)] == RecordingAt(a, b, 2);
    RecordingCount(a, b, 2);
    Next(backend, steps, m, g, RecordNext(a, now), Fails(g, 1, now, RecordingAt(a, b, 2)));
  }

  lemma FailThird(backend: Backend, steps: seq<Step>, g: Gate, a: nat, b: nat, now: real, m: nat)
    requires At(backend, steps, m, g) && g.inflight == RecordingAt(a, b, 2) && a < b <= a + m && g.clock <= now
    ensures At(backend, steps + [RecordNext(a, now)], m, Fails(g, 2, now, Flying(a + 1, b)))
  {
    assert g.inflight[a] == Recording(KEYS, 2);
    assert RecordingAt(a, b, 2) - {a} == Flying(a + 1, b);
    FlyingCount(a + 1, b);
    Next(backend, steps, m, g, RecordNext(a, now), Fails(g, 2, now, Flying(a + 1, b)));
  }

  /** The oldest attempt in flight records its three failures and leaves. */
  lemma RunFail(backend: Backend, steps: seq<Step>, g: Gate, a: nat, b: nat, now: real, m: nat)
    returns (longer: seq<Step>)
    requires At(backend, steps, m, g) && g.inflight == Flying(a, b) && a < b <= a + m && g.clock <= now
    ensures At(backend, longer, m,
               Gate(now, g.history + Wrong(now), BumpAll(g.counters, KEYS, [now, now, now]), Flying(a + 1, b)))
  {
    var one := Fails(g, 0, now, RecordingAt(a, b, 1));
    var two := Fails(one, 1, now, RecordingAt(a, b, 2));
    FailFirst(backend, steps, g, a, b, now, m);
    longer := steps + [RecordNext(a, now)];
    FailSecond(backend, longer, one, a, b, now, m);
    longer := longer + [RecordNext(a, now)];
    FailThird(backend, longer, two, a, b, now, m);
    longer := longer + [RecordNext(a, now)];
    ThreeFails(g, now, RecordingAt(a, b, 1), RecordingAt(a, b, 2), Flying(a + 1, b));
  }

  lemma ThreeFails(g: Gate, now: real, x: map<nat, Attempt>, y: map<nat, Attempt>, z: map<nat, Attempt>)
    ensures Fails(Fails(Fails(g, 0, now, x), 1, now, y), 2, now, z)
         == Gate(now, g.history + Wrong(now), BumpAll(g.counters, KEYS, [now, now, now]), z)
  {
    ThreeBumps(g.counters, now);
  }

  lemma ThreeBumps(counters: map<string, Counter>, now: real)
    ensures BumpAll(counters, KEYS, [now, now, now])
         == Bump(Bump(Bump(counters, KEYS[0], now), KEYS[1], now), KEYS[2], now)
  {
    assert KEYS[..2] == [KEYS[0], KEYS[1]] && [now, now, now][..2] == [now, now];
    assert [KEYS[0], KEYS[1]][..1] == [KEYS[0]] && [now, now][..1] == [now];
    assert [KEYS[0]][..0] == [] && [now][..0] == [];
    assert BumpAll(counters, [KEYS[0]], [now]) == Bump(counters, KEYS[0], now);
    assert BumpAll(counters, [KEYS[0], KEYS[1]], [now, now]) == Bump(Bump(counters, KEYS[0], now), KEYS[1], now);
  }

  /** A run of this shape with at most `m` in flight. */
  ghost predicate Reaches(steps: seq<Step>, n: nat, a: nat, b: nat, m: nat) {
    AtMost(Memory, steps, KEY, m) && Shape(Run(Memory, START, steps), n, a, b)
  }

  lemma MoreChecks(steps: seq<Step>, n: nat, a: nat, b: nat, m: nat) returns (longer: seq<Step>)
    requires Reaches(steps, n, a, b, m) && n < FAILURE_THRESHOLD && a <= b < a + m
    ensures Reaches(longer, n, a, b + 1, m)
  {
    var g := Run(Memory, START, steps);
    forall k | 0 <= k < 3 ensures CountNow(Memory, g, KEYS[k], 0.0) < FAILURE_THRESHOLD {
      RepeatedCount(n, k, 0.0 - FAILURE_WINDOW, 0.0);
    }
    longer := RunCheck(Memory, steps, g, a, b, 0.0, m);
  }

  lemma MoreFails(steps: seq<Step>, n: nat, a: nat, b: nat, m: nat) returns (longer: seq<Step>)
    requires Reaches(steps, n, a, b, m) && a < b <= a + m
    ensures Reaches(longer, n + 1, a + 1, b, m)
  {
    longer := RunFail(Memory, steps, Run(Memory, START, steps), a, b, 0.0, m);
  }

  lemma FourInARow(m: nat) returns (steps: seq<Step>)
    requires m >= 1
    ensures Reaches(steps, 4, 4, 4, m)
  {
    steps := [];
    var n := 0;
    FlyingCount(0, 0);
    assert Flying(0, 0) == map[];
    while n < 4
      invariant n <= 4 && Reaches(steps, n, n, n, m)
    {
      steps := MoreChecks(steps, n, n, n, m);
      steps := MoreFails(steps, n, n, n + 1, m);
      n := n + 1;
    }
  }

  /** `m` attempts pass the checks while the count is four. */
  lemma AllCheck(m: nat) returns (steps: seq<Step>)
    requires m >= 1
    ensures Reaches(steps, 4, 4, 4 + m, m)
  {
    steps := FourInARow(m);
    var k := 0;
    while k < m
      invariant k <= m && Reaches(steps, 4, 4, 4 + k, m)
    {
      steps := MoreChecks(steps, 4, 4, 4 + k, m);
      k := k + 1;
    }
  }

  /** Then `k` of them fail. */
  lemma SomeFail(m: nat, k: nat) returns (steps: seq<Step>)
    requires m >= 1 && k <= m
    ensures Reaches(steps, 4 + k, 4 + k, 4 + m, m)
  {
    if k == 0 {
      steps := AllCheck(m);
    } else {
      steps := SomeFail(m, k - 1);
      steps := MoreFails(steps, 3 + k, 3 + k, 4 + m, m);
    }
  }

  /** For every `m` above 0 some run with at most `m` attempts in flight records `4 + m` failures in one
    * window: two concurrent attempts already exceed the threshold of five. */
  lemma BoundIsReached(m: nat)
    requires m >= 1
    ensures exists steps :: && AtMost(Memory, steps, KEY, m)
                            && InWindow(Run(Memory, START, steps).history, KEY, -1.0) == 4 + m
  {
    var steps := SomeFail(m, m);
    RepeatedCount(4 + m, 0, -1.0, -1.0 + FAILURE_WINDOW);
    assert AtMost(Memory, steps, KEY, m) && InWindow(Run(Memory, START, steps).history, KEY, -1.0) == 4 + m;
  }

  // ---------------------------------------------------------------- the store in Redis

  /** Everything so far happened by `at`; the key's counter, if any, is `n` until `expires`; attempts `a` to `b`
    * are in flight; `w` failures lie in the window from 0 s (excluded) to 600 s. */
  ghost predicate Counted(g: Gate, at: real, n: nat, expires: real, a: nat, b: nat, w: nat) {
    && g.clock <= at && g.inflight == Flying(a, b)
    && (forall k :: 0 <= k < 3 ==> KeyCounted(g.counters, KEYS[k], n, expires))
    && InWindow(g.history, KEY, 0.0) == w
  }

  predicate KeyCounted(counters: map<string, Counter>, key: string, n: nat, expires: real) {
    (key in counters <==> n > 0) && (n > 0 ==> counters[key] == Counter(n, expires))
  }

  /** A run of this shape with at most `m` in flight. */
  ghost predicate Gets(steps: seq<Step>, at: real, n: nat, expires: real, a: nat, b: nat, w: nat, m: nat) {
    AtMost(Redis, steps, KEY, m) && Counted(Run(Redis, START, steps), at, n, expires, a, b, w)
  }

  lemma AnotherCheck(steps: seq<Step>, at: real, n: nat, expires: real, a: nat, b: nat, w: nat, m: nat)
    returns (longer: seq<Step>)
    requires Gets(steps, at, n, expires, a, b, w, m) && a <= b < a + m
    requires n < FAILURE_THRESHOLD || expires <= at
    ensures Gets(longer, at, n, expires, a, b + 1, w, m)
  {
    var g := Run(Redis, START, steps);
    forall k | 0 <= k < 3 ensures CountNow(Redis, g, KEYS[k], at) < FAILURE_THRESHOLD {
      assert KeyCounted(g.counters, KEYS[k], n, expires);
    }
    longer := RunCheck(Redis, steps, g, a, b, at, m);
  }

  /** The counter after one more failure. */
  function NextCount(n: nat, expires: real, at: real): (nat, real) {
    if n > 0 && at < expires then (n + 1, expires) else (1, at + FAILURE_WINDOW)
  }

  /** All keys are counted alike. */
  lemma AllBumped(counters: map<string, Counter>, n: nat, expires: real, at: real)
    requires forall k :: 0 <= k < 3 ==> KeyCounted(counters, KEYS[k], n, expires)
    ensures var next := NextCount(n, expires, at);
            forall k :: 0 <= k < 3 ==> KeyCounted(BumpAll(counters, KEYS, [at, at, at]), KEYS[k], next.0, next.1)
  {
    TheKeys();
    ThreeBumps(counters, at);
  }

  lemma AnotherFail(steps: seq<Step>, at: real, n: nat, expires: real, a: nat, b: nat, w: nat, m: nat)
    returns (longer: seq<Step>)
    requires Gets(steps, at, n, expires, a, b, w, m) && a < b <= a + m
    ensures var next := NextCount(n, expires, at);
            Gets(longer, at, next.0, next.1, a + 1, b, w + (if 0.0 < at <= FAILURE_WINDOW then 1 else 0), m)
  {
    var g := Run(Redis, START, steps);
    WrongCounts(g.history, 0, at, 0.0, 0.0 + FAILURE_WINDOW);
    longer := RunFail(Redis, steps, g, a, b, at, m);
    AllBumped(g.counters, n, expires, at);
  }

  /** One after another, `k` failures while the counter stays below the threshold. */
  lemma InARow(steps: seq<Step>, at: real, n: nat, expires: real, a: nat, w: nat, m: nat, k: nat)
    returns (longer: seq<Step>)
    requires Gets(steps, at, n, expires, a, a, w, m) && m >= 1 && 0.0 < at <= FAILURE_WINDOW
    requires n > 0 && at < expires && n + k < FAILURE_THRESHOLD
    ensures Gets(longer, at, n + k, expires, a + k, a + k, w + k, m)
  {
    longer := steps;
    var i := 0;
    while i < k
      invariant i <= k && Gets(longer, at, n + i, expires, a + i, a + i, w + i, m)
    {
      longer := AnotherCheck(longer, at, n + i, expires, a + i, a + i, w + i, m);
      longer := AnotherFail(longer, at, n + i, expires, a + i, a + i + 1, w + i, m);
      i := i + 1;
    }
  }

  /** `m` attempts pass the check with the counter at four, then all fail. */
  lemma AllAtOnce(steps: seq<Step>, at: real, expires: real, a: nat, w: nat, m: nat) returns (longer: seq<Step>)
    requires Gets(steps, at, 4, expires, a, a, w, m) && at < expires && 0.0 < at <= FAILURE_WINDOW
    ensures Gets(longer, at, 4 + m, expires, a + m, a + m, w + m, m)
  {
    longer := steps;
    var i := 0;
    while i < m
      invariant i <= m && Gets(longer, at, 4, expires, a, a + i, w, m)
    {
      longer := AnotherCheck(longer, at, 4, expires, a, a + i, w, m);
      i := i + 1;
    }
    i := 0;
    while i < m
      invariant i <= m && Gets(longer, at, 4 + i, expires, a + i, a + m, w + i, m)
    {
      longer := AnotherFail(longer, at, 4 + i, expires, a + i, a + m, w + i, m);
      i := i + 1;
    }
  }

  /** The first failure of a fixed window. */
  lemma FreshWindow(steps: seq<Step>, at: real, n: nat, expires: real, a: nat, w: nat, m: nat)
    returns (longer: seq<Step>)
    requires Gets(steps, at, n, expires, a, a, w, m) && m >= 1 && (n == 0 || expires <= at)
    ensures Gets(longer, at, 1, at + FAILURE_WINDOW, a + 1, a + 1, w + (if 0.0 < at <= FAILURE_WINDOW then 1 else 0), m)
  {
    longer := AnotherCheck(steps, at, n, expires, a, a, w, m);
    longer := AnotherFail(longer, at, n, expires, a, a + 1, w, m);
  }

  lemma Later(steps: seq<Step>, at: real, later: real, n: nat, expires: real, a: nat, b: nat, w: nat, m: nat)
    requires Gets(steps, at, n, expires, a, b, w, m) && at <= later
    ensures Gets(steps, later, n, expires, a, b, w, m)
  {
  }

  lemma NothingYet(m: nat)
    ensures Gets([], 0.0, 0, 0.0, 0, 0, 0, m)
  {
    FlyingCount(0, 0);
    assert Flying(0, 0) == map[];
  }

  /** For every `m` above 0 some run with at most `m` attempts in flight records `7 + 2m` failures in one
    * sliding window: one failure at 0 s, the rest of that fixed window at 599 s, a whole one at 600 s. */
  lemma RedisBoundIsReached(m: nat)
    requires m >= 1
    ensures exists steps :: && AtMost(Redis, steps, KEY, m)
                            && InWindow(Run(Redis, START, steps).history, KEY, 0.0) == 7 + 2 * m
  {
    NothingYet(m);
    var steps := FreshWindow([], 0.0, 0, 0.0, 0, 0, m);
    Later(steps, 0.0, 599.0, 1, 600.0, 1, 1, 0, m);
    steps := InARow(steps, 599.0, 1, 600.0, 1, 0, m, 3);
    steps := AllAtOnce(steps, 599.0, 600.0, 4, 3, m);
    Later(steps, 599.0, 600.0, 4 + m, 600.0, 4 + m, 4 + m, 3 + m, m);
    steps := FreshWindow(steps, 600.0, 4 + m, 600.0, 4 + m, 3 + m, m);
    steps := InARow(steps, 600.0, 1, 1200.0, 5 + m, 4 + m, m, 3);
    steps := AllAtOnce(steps, 600.0, 1200.0, 8 + m, 7 + m, m);
  }
}
