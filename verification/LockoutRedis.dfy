/** The fixed-window counters: each window holds at most `4 + m` failures of a key, a sliding window of the
  * same length at most `7 + 2m`. */
module LockoutRedis {
  import opened Common
  import opened FailureStore
  import opened Lockout

  /** The failures of a key whose times satisfy `p`. */
  function CountBy(history: seq<Failure>, key: string, p: real -> bool): nat {
    Count(history, (f: Failure) => f.key == key && p(f.at))
  }

  function Since(history: seq<Failure>, key: string, start: real): nat {
    CountBy(history, key, t => start <= t)
  }

  function Between(history: seq<Failure>, key: string, from: real, until: real): nat {
    CountBy(history, key, t => from < t < until)
  }

  // ---------------------------------------------------------------- counting

  lemma CountSnoc(history: seq<Failure>, f: Failure, key: string, p: real -> bool)
    ensures CountBy(history + [f], key, p) == CountBy(history, key, p) + (if f.key == key && p(f.at) then 1 else 0)
  {
    CountOne(history, f, (f: Failure) => f.key == key && p(f.at));
  }

  /** A union counts at most the sum. */
  lemma {:induction false} CountUnion(history: seq<Failure>, key: string, p: real -> bool, q: real -> bool,
                                      r: real -> bool)
    requires forall i :: 0 <= i < |history| && p(history[i].at) ==> q(history[i].at) || r(history[i].at)
    ensures CountBy(history, key, p) <= CountBy(history, key, q) + CountBy(history, key, r)
  {
    if history != [] {
      var n := |history| - 1;
      CountUnion(history[..n], key, p, q, r);
      assert history == history[..n] + [history[n]];
      CountSnoc(history[..n], history[n], key, p);
      CountSnoc(history[..n], history[n], key, q);
      CountSnoc(history[..n], history[n], key, r);
    }
  }

  /** A part that misses one failure counts at least one less. */
  lemma {:induction false} CountLess(history: seq<Failure>, key: string, p: real -> bool, q: real -> bool, k: nat)
    requires forall i :: 0 <= i < |history| && p(history[i].at) ==> q(history[i].at)
    requires k < |history| && history[k].key == key && q(history[k].at) && !p(history[k].at)
    ensures CountBy(history, key, p) + 1 <= CountBy(history, key, q)
  {
    var n := |history| - 1;
    assert history == history[..n] + [history[n]];
    CountSnoc(history[..n], history[n], key, p);
    CountSnoc(history[..n], history[n], key, q);
    if k < n {
      CountLess(history[..n], key, p, q, k);
    } else {
      CountUnion(history[..n], key, p, q, q);
      CountMonotone(history[..n], (f: Failure) => f.key == key && p(f.at), (f: Failure) => f.key == key && q(f.at));
    }
  }

  lemma NoneCounted(history: seq<Failure>, key: string, p: real -> bool)
    requires forall i :: 0 <= i < |history| && history[i].key == key ==> !p(history[i].at)
    ensures CountBy(history, key, p) == 0
  {
    CountMonotone(history, (f: Failure) => f.key == key && p(f.at), (f: Failure) => false);
    NeverCounted(history);
  }

  lemma {:induction false} NeverCounted(history: seq<Failure>)
    ensures Count(history, (f: Failure) => false) == 0
  {
    if history != [] {
      NeverCounted(history[..|history| - 1]);
    }
  }

  /** A sliding window holds at most the failures before `start` and those since. */
  lemma WindowSplits(history: seq<Failure>, key: string, x: real, start: real)
    ensures InWindow(history, key, x)
            <= (if start <= x then 0 else Between(history, key, x, start)) + Since(history, key, start)
  {
    var inside := (t: real) => x < t <= x + FAILURE_WINDOW;
    CountCongruent(history, (f: Failure) => f.key == key && x < f.at <= x + FAILURE_WINDOW,
                   (f: Failure) => f.key == key && inside(f.at));
    assert InWindow(history, key, x) == CountBy(history, key, inside);
    if start <= x {
      CountMonotone(history, (f: Failure) => f.key == key && inside(f.at),
                    (f: Failure) => f.key == key && (t => start <= t)(f.at));
    } else {
      CountUnion(history, key, inside, t => x < t < start, t => start <= t);
    }
  }

  // ---------------------------------------------------------------- the invariant

  /** The counter of a key describes its current fixed window: when it started, with a failure, what it holds. */
  ghost predicate CounterOk(history: seq<Failure>, clock: real, held: nat, key: string, c: Counter, m: nat) {
    var start := c.expires - FAILURE_WINDOW;
    && start <= clock
    && (exists i :: 0 <= i < |history| && history[i] == Failure(key, start))
    && (forall i :: 0 <= i < |history| && history[i].key == key ==> history[i].at < c.expires)
    && 1 <= c.count == Since(history, key, start) <= 4 + m
    && (clock < c.expires && c.count >= FAILURE_THRESHOLD ==> c.count + held <= 4 + m)
    && (forall x: real :: start - FAILURE_WINDOW <= x ==> Between(history, key, x, start) <= 3 + m)
  }

  ghost predicate FixedInv(g: Gate, key: string, m: nat) {
    && Past(g)
    && (key !in g.counters ==> forall i :: 0 <= i < |g.history| ==> g.history[i].key != key)
    && (key in g.counters ==> CounterOk(g.history, g.clock, |Holding(g.inflight, key)|, key, g.counters[key], m))
    && (forall x: real :: InWindow(g.history, key, x) <= 7 + 2 * m)
  }

  /** One more failure in a window that is still open. */
  lemma LiveFailure(h: seq<Failure>, clock: real, held: nat, key: string, c: Counter, m: nat, now: real)
    requires CounterOk(h, clock, held, key, c, m) && clock <= now < c.expires && 1 <= held <= m
    ensures CounterOk(h + [Failure(key, now)], now, held - 1, key, c.(count := c.count + 1), m)
  {
    var f, after, start := Failure(key, now), h + [Failure(key, now)], c.expires - FAILURE_WINDOW;
    CountSnoc(h, f, key, t => start <= t);
    forall x: real | start - FAILURE_WINDOW <= x ensures Between(after, key, x, start) <= 3 + m {
      CountSnoc(h, f, key, t => x < t < start);
      assert Between(h, key, x, start) <= 3 + m;
    }
    var i :| 0 <= i < |h| && h[i] == Failure(key, start);
    assert after[i] == Failure(key, start);
  }

  /** The first failure of a new window: the one before, if any, has closed. */
  lemma FreshFailure(h: seq<Failure>, clock: real, held: nat, key: string, was: Option<Counter>, m: nat, now: real)
    requires forall i :: 0 <= i < |h| ==> h[i].at <= clock
    requires was.Some? ==> CounterOk(h, clock, held + 1, key, was.value, m) && was.value.expires <= now
    requires was.None? ==> forall i :: 0 <= i < |h| ==> h[i].key != key
    requires clock <= now
    ensures CounterOk(h + [Failure(key, now)], now, held, key, Counter(1, now + FAILURE_WINDOW), m)
  {
    var f, after := Failure(key, now), h + [Failure(key, now)];
    CountSnoc(h, f, key, t => now <= t);
    NoneCounted(h, key, t => now <= t);
    assert (now + FAILURE_WINDOW) - FAILURE_WINDOW == now && after[|h|] == f;
    forall x: real | now - FAILURE_WINDOW <= x ensures Between(after, key, x, now) <= 3 + m {
      CountSnoc(h, f, key, t => x < t < now);
      if was.Some? {
        var start := was.value.expires - FAILURE_WINDOW;
        var i :| 0 <= i < |h| && h[i] == Failure(key, start);
        CountLess(h, key, t => x < t < now, t => start <= t, i);
      } else {
        NoneCounted(h, key, t => x < t < now);
      }
    }
  }

  /** A failure of another key leaves the counter right. */
  lemma OtherFailure(h: seq<Failure>, clock: real, held: nat, key: string, c: Counter, m: nat, f: Failure)
    requires CounterOk(h, clock, held, key, c, m) && clock <= f.at && f.key != key
    ensures CounterOk(h + [f], f.at, held, key, c, m)
  {
    var after, start := h + [f], c.expires - FAILURE_WINDOW;
    CountSnoc(h, f, key, t => start <= t);
    forall x: real | start - FAILURE_WINDOW <= x ensures Between(after, key, x, start) <= 3 + m {
      CountSnoc(h, f, key, t => x < t < start);
      assert Between(h, key, x, start) <= 3 + m;
    }
    var i :| 0 <= i < |h| && h[i] == Failure(key, start);
    assert after[i] == Failure(key, start);
  }

  /** The sliding bound follows from the counter of the current window. */
  lemma SlidingFromFixed(h: seq<Failure>, held: nat, key: string, c: Counter, m: nat, f: Failure, x: real)
    requires CounterOk(h + [f], f.at, held, key, c, m) && InWindow(h, key, x) <= 7 + 2 * m
    ensures InWindow(h + [f], key, x) <= 7 + 2 * m
  {
    FailuresSnoc(h, f, key, x, x + FAILURE_WINDOW);
    var start := c.expires - FAILURE_WINDOW;
    if f.at <= x + FAILURE_WINDOW {
      WindowSplits(h + [f], key, x, start);
      assert x < start ==> Between(h + [f], key, x, start) <= 3 + m;
    }
  }

  /** The counter of the key after a failure. */
  lemma CounterAfter(g: Gate, after: Gate, key: string, failed: string, m: nat)
    requires FixedInv(g, key, m) && Recorded(g, after, key, failed) && |Holding(g.inflight, key)| <= m
    ensures key in after.counters ==>
              CounterOk(after.history, after.clock, |Holding(after.inflight, key)|, key, after.counters[key], m)
    ensures key !in after.counters ==> key !in g.counters && failed != key
  {
    var h, held, now := g.history, |Holding(g.inflight, key)|, after.clock;
    if failed == key {
      if key in g.counters && now < g.counters[key].expires {
        LiveFailure(h, g.clock, held, key, g.counters[key], m, now);
      } else {
        var was := if key in g.counters then Some(g.counters[key]) else None;
        FreshFailure(h, g.clock, held - 1, key, was, m, now);
      }
    } else if key in g.counters {
      OtherFailure(h, g.clock, held, key, g.counters[key], m, Failure(failed, now));
    }
  }

  lemma FixedRecorded(g: Gate, after: Gate, key: string, failed: string, m: nat)
    requires FixedInv(g, key, m) && Recorded(g, after, key, failed) && |Holding(g.inflight, key)| <= m
    ensures FixedInv(after, key, m)
  {
    var f := Failure(failed, after.clock);
    CounterAfter(g, after, key, failed, m);
    forall x: real ensures InWindow(after.history, key, x) <= 7 + 2 * m {
      assert InWindow(g.history, key, x) <= 7 + 2 * m;
      if key in after.counters {
        SlidingFromFixed(g.history, |Holding(after.inflight, key)|, key, after.counters[key], m, f, x);
      } else {
        FailuresSnoc(g.history, f, key, x, x + FAILURE_WINDOW);
      }
    }
  }

  lemma FixedQuiet(g: Gate, after: Gate, key: string, m: nat)
    requires FixedInv(g, key, m) && Quiet(Redis, g, after, key) && |Holding(after.inflight, key)| <= m
    ensures FixedInv(after, key, m)
  {
  }

  lemma {:induction false} FixedRun(steps: seq<Step>, key: string, m: nat)
    requires AtMost(Redis, steps, key, m)
    ensures FixedInv(Run(Redis, START, steps), key, m)
  {
    if steps != [] {
      var front, last := steps[..|steps| - 1], steps[|steps| - 1];
      var g := Run(Redis, START, front);
      AtMostFront(Redis, steps, key, m);
      FixedRun(front, key, m);
      InflightDistinct(Redis, front);
      StepEffect(Redis, g, last, key);
      var after := Apply(Redis, g, last);
      if Quiet(Redis, g, after, key) {
        FixedQuiet(g, after, key, m);
      } else {
        var failed :| Recorded(g, after, key, failed);
        FixedRecorded(g, after, key, failed, m);
      }
    }
  }

  /** With fixed windows a sliding window holds at most `7 + 2m` failures of a key: 9 when attempts come one
    * at a time. */
  lemma RedisLockoutBound(steps: seq<Step>, key: string, m: nat, x: real)
    requires AtMost(Redis, steps, key, m)
    ensures InWindow(Run(Redis, START, steps).history, key, x) <= 7 + 2 * m
  {
    FixedRun(steps, key, m);
  }
}
