/** Counting wrong guest codes: a sliding-window store in memory and a fixed-window store in Redis. */
module FailureStore {
  import opened Common

  const FAILURE_THRESHOLD: nat := 5
  const FAILURE_WINDOW: real := 600.0

  /** One recorded wrong attempt. Times are readings of one monotonic clock. */
  datatype Failure = Failure(key: string, at: real)

  /** The times after the cutoff, in order. */
  function After(times: seq<real>, cutoff: real): seq<real> {
    if times == [] then []
    else
      var n := |times| - 1;
      var earlier := After(times[..n], cutoff);
      if cutoff < times[n] then earlier + [times[n]] else earlier
  }

  /** The times recorded for a key, in order. */
  function TimesOf(history: seq<Failure>, key: string): seq<real> {
    if history == [] then []
    else
      var n := |history| - 1;
      var earlier := TimesOf(history[..n], key);
      if history[n].key == key then earlier + [history[n].at] else earlier
  }

  /** How many failures of a key fall in the half-open interval from `from` (excluded) to `until`. */
  function Failures(history: seq<Failure>, key: string, from: real, until: real): nat {
    Count(history, (f: Failure) => f.key == key && from < f.at <= until)
  }

  lemma {:induction false} AfterAfter(times: seq<real>, early: real, late: real)
    requires early <= late
    ensures After(After(times, early), late) == After(times, late)
  {
    if times != [] {
      var n := |times| - 1;
      AfterAfter(times[..n], early, late);
      AfterSnoc(After(times[..n], early), times[n], late);
    }
  }

  lemma AfterSnoc(times: seq<real>, t: real, cutoff: real)
    ensures After(times + [t], cutoff) == if cutoff < t then After(times, cutoff) + [t] else After(times, cutoff)
  {
    assert (times + [t])[..|times|] == times;
  }

  lemma TimesSnoc(history: seq<Failure>, f: Failure, key: string)
    ensures TimesOf(history + [f], key)
            == if f.key == key then TimesOf(history, key) + [f.at] else TimesOf(history, key)
  {
    assert (history + [f])[..|history|] == history;
  }

  /** The list a window keeps has one entry for each failure in it. */
  lemma {:induction false} WindowLength(history: seq<Failure>, key: string, from: real, until: real)
    requires forall i :: 0 <= i < |history| ==> history[i].at <= until
    ensures |After(TimesOf(history, key), from)| == Failures(history, key, from, until)
  {
    if history != [] {
      var n := |history| - 1;
      WindowLength(history[..n], key, from, until);
      AfterSnoc(TimesOf(history[..n], key), history[n].at, from);
      FailuresSnoc(history[..n], history[n], key, from, until);
      assert history[..n] + [history[n]] == history;
    }
  }

  // ---------------------------------------------------------------- the store in memory

  const MAX_KEYS: nat := 8192

  function Stored(events: map<string, seq<real>>, key: string): seq<real> {
    if key in events then events[key] else []
  }

  /** After the cutoff the stored times of every key agree with the history. */
  ghost predicate Agrees(events: map<string, seq<real>>, history: seq<Failure>, cutoff: real) {
    forall key: string :: After(Stored(events, key), cutoff) == After(TimesOf(history, key), cutoff)
  }

  lemma AgreesLater(events: map<string, seq<real>>, history: seq<Failure>, early: real, late: real)
    requires Agrees(events, history, early) && early <= late
    ensures Agrees(events, history, late)
  {
    forall key: string ensures After(Stored(events, key), late) == After(TimesOf(history, key), late) {
      AfterAfter(Stored(events, key), early, late);
      AfterAfter(TimesOf(history, key), early, late);
    }
  }

  /** Dropping the expired times of one key keeps the agreement. */
  lemma AgreesPruned(events: map<string, seq<real>>, history: seq<Failure>, cutoff: real, key: string)
    requires Agrees(events, history, cutoff)
    ensures var kept := After(Stored(events, key), cutoff);
            Agrees(if kept != [] then events[key := kept] else events - {key}, history, cutoff)
  {
    var kept := After(Stored(events, key), cutoff);
    var after := if kept != [] then events[key := kept] else events - {key};
    AfterAfter(Stored(events, key), cutoff, cutoff);
    forall other: string ensures After(Stored(after, other), cutoff) == After(TimesOf(history, other), cutoff) {
      if other == key {
        assert Stored(after, other) == kept;
      } else {
        assert Stored(after, other) == Stored(events, other);
      }
    }
  }

  /** What is kept of each key: its times after the cutoff, and no key without any. */
  function Collected(events: map<string, seq<real>>, cutoff: real): map<string, seq<real>> {
    map key | key in events && After(events[key], cutoff) != [] :: After(events[key], cutoff)
  }

  lemma AgreesCollected(events: map<string, seq<real>>, history: seq<Failure>, cutoff: real)
    requires Agrees(events, history, cutoff)
    ensures Agrees(Collected(events, cutoff), history, cutoff)
  {
    var after := Collected(events, cutoff);
    forall key: string ensures After(Stored(after, key), cutoff) == After(TimesOf(history, key), cutoff) {
      AfterAfter(Stored(events, key), cutoff, cutoff);
      assert Stored(after, key) == After(Stored(events, key), cutoff);
    }
  }

  /** Recording one more failure, on top of a pruned list. */
  lemma AgreesRecorded(events: map<string, seq<real>>, history: seq<Failure>, cutoff: real, f: Failure)
    requires Agrees(events, history, cutoff)
    ensures Agrees(events[f.key := After(TimesOf(history, f.key), cutoff) + [f.at]], history + [f], cutoff)
  {
    var kept := After(TimesOf(history, f.key), cutoff);
    var after := events[f.key := kept + [f.at]];
    forall key: string ensures After(Stored(after, key), cutoff) == After(TimesOf(history + [f], key), cutoff) {
      TimesSnoc(history, f, key);
      if key == f.key {
        AfterSnoc(kept, f.at, cutoff);
        AfterSnoc(TimesOf(history, key), f.at, cutoff);
        AfterAfter(TimesOf(history, key), cutoff, cutoff);
      } else {
        assert Stored(after, key) == Stored(events, key);
      }
    }
  }

  lemma OneMoreCounted(history: seq<Failure>, key: string, now: real)
    requires forall i :: 0 <= i < |history| ==> history[i].at <= now
    ensures Failures(history + [Failure(key, now)], key, now - FAILURE_WINDOW, now)
            == |After(TimesOf(history, key), now - FAILURE_WINDOW)| + 1
  {
    WindowLength(history, key, now - FAILURE_WINDOW, now);
    FailuresSnoc(history, Failure(key, now), key, now - FAILURE_WINDOW, now);
  }

  /** Nothing happened later than `clock`, and inside the window the stored times are those of the history. */
  ghost predicate Faithful(events: map<string, seq<real>>, history: seq<Failure>, clock: real) {
    && (forall i :: 0 <= i < |history| ==> history[i].at <= clock)
    && Agrees(events, history, clock - FAILURE_WINDOW)
  }

  /** What a store keeps when it prunes one key. */
  function Pruned(events: map<string, seq<real>>, key: string, kept: seq<real>): map<string, seq<real>> {
    if kept != [] then events[key := kept] else events - {key}
  }

  lemma PrunedIsFaithful(events: map<string, seq<real>>, history: seq<Failure>, clock: real, key: string, now: real)
    requires Faithful(events, history, clock) && clock <= now
    ensures var kept := After(Stored(events, key), now - FAILURE_WINDOW);
            && Faithful(Pruned(events, key, kept), history, now)
            && kept == After(TimesOf(history, key), now - FAILURE_WINDOW)
  {
    AgreesLater(events, history, clock - FAILURE_WINDOW, now - FAILURE_WINDOW);
    AgreesPruned(events, history, now - FAILURE_WINDOW, key);
  }

  lemma CollectedIsFaithful(events: map<string, seq<real>>, history: seq<Failure>, now: real)
    requires Faithful(events, history, now)
    ensures Faithful(Collected(events, now - FAILURE_WINDOW), history, now)
  {
    AgreesCollected(events, history, now - FAILURE_WINDOW);
  }

  lemma RecordedIsFaithful(events: map<string, seq<real>>, history: seq<Failure>, key: string, now: real,
                           kept: seq<real>)
    requires Faithful(events, history, now) && kept == After(TimesOf(history, key), now - FAILURE_WINDOW)
    ensures Faithful(events[key := kept + [now]], history + [Failure(key, now)], now)
    ensures Failures(history + [Failure(key, now)], key, now - FAILURE_WINDOW, now) == |kept + [now]|
  {
    AgreesRecorded(events, history, now - FAILURE_WINDOW, Failure(key, now));
    OneMoreCounted(history, key, now);
  }

  class InMemoryFailureStore {
    var events: map<string, seq<real>>
    /** Everything ever recorded, and the latest reading of the clock. */
    ghost var history: seq<Failure>
    ghost var clock: real

    /** Whatever was pruned or collected, the stored times agree with the history inside the window. */
    ghost predicate Valid()
      reads this
    {
      Faithful(events, history, clock)
    }

    constructor ()
      ensures Valid() && history == [] && clock == 0.0
    {
      events := map[];
      history := [];
      clock := 0.0;
    }

    /** Drop the expired times of a key, and of every key when there are too many keys. */
    method Prune(key: string, now: real) returns (kept: seq<real>)
      requires Valid() && clock <= now
      modifies this
      ensures Valid() && history == old(history) && clock == now
      ensures kept == After(TimesOf(history, key), now - FAILURE_WINDOW)
    {
      var cutoff := now - FAILURE_WINDOW;
      PrunedIsFaithful(events, history, clock, key, now);
      kept := After(if key in events then events[key] else [], cutoff);
      if kept != [] {
        events := events[key := kept];
      } else {
        events := events - {key};
      }
      clock := now;
      if |events| > MAX_KEYS {
        CollectedIsFaithful(events, history, now);
        events := map k | k in events && After(events[k], cutoff) != [] :: After(events[k], cutoff);
      }
    }

    /** Record a failure; the result counts the failures of the key in the window, this one included. */
    method RecordFailure(key: string, now: real) returns (count: nat)
      requires Valid() && clock <= now
      modifies this
      ensures Valid() && clock == now && history == old(history) + [Failure(key, now)]
      ensures count == Failures(history, key, now - FAILURE_WINDOW, now)
    {
      var kept := Prune(key, now);
      RecordedIsFaithful(events, history, key, now, kept);
      kept := kept + [now];
      events := events[key := kept];
      history := history + [Failure(key, now)];
      count := |kept|;
    }

    /** The failures of the key in the window. */
    method FailureCount(key: string, now: real) returns (count: nat)
      requires Valid() && clock <= now
      modifies this
      ensures Valid() && clock == now && history == old(history)
      ensures count == Failures(history, key, now - FAILURE_WINDOW, now)
    {
      var kept := Prune(key, now);
      WindowLength(history, key, now - FAILURE_WINDOW, now);
      count := |kept|;
    }

    /** Whether some key has reached the threshold, each counted at its own reading of the clock. */
    method IsBlocked(keys: seq<string>, times: seq<real>) returns (blocked: bool)
      requires Valid() && Readings(clock, times, |keys|)
      modifies this
      ensures Valid() && old(clock) <= clock <= Latest(old(clock), times) && history == old(history)
      ensures blocked <==> Blocked(history, keys, times)
    {
      for i := 0 to |keys|
        invariant Valid() && clock == Latest(old(clock), times[..i]) && history == old(history)
        invariant !Blocked(history, keys[..i], times[..i])
      {
        LatestStep(old(clock), times, i);
        var count := FailureCount(keys[i], times[i]);
        BlockedSnoc(history, keys, times, i);
        if count >= FAILURE_THRESHOLD {
          BlockedEarly(history, keys, times, i + 1);
          return true;
        }
      }
      assert keys[..|keys|] == keys && times[..|times|] == times;
      blocked := false;
    }

    /** Record one failure for every key, each at its own reading of the clock; say whether some key has then
      * reached the threshold. */
    method RecordFailures(keys: seq<string>, times: seq<real>) returns (blocked: bool)
      requires Valid() && Readings(clock, times, |keys|)
      requires forall i, j :: 0 <= i < j < |keys| ==> keys[i] != keys[j]
      modifies this
      ensures Valid() && clock == Latest(old(clock), times) && history == old(history) + RecordedFor(keys, times)
      ensures blocked <==> Blocked(history, keys, times)
    {
      blocked := false;
      for i := 0 to |keys|
        invariant Valid() && clock == Latest(old(clock), times[..i])
        invariant history == old(history) + RecordedFor(keys[..i], times[..i])
        invariant blocked <==> Blocked(history, keys[..i], times[..i])
      {
        ghost var was := history;
        LatestStep(old(clock), times, i);
        var count := RecordFailure(keys[i], times[i]);
        assert RecordedFor(keys[..i + 1], times[..i + 1])
            == RecordedFor(keys[..i], times[..i]) + [Failure(keys[i], times[i])];
        OtherKeysKeep(was, keys[..i], times[..i], Failure(keys[i], times[i]));
        BlockedSnoc(history, keys, times, i);
        if count >= FAILURE_THRESHOLD {
          blocked := true;
        }
      }
      assert keys[..|keys|] == keys && times[..|times|] == times;
    }
  }

  /** `n` successive readings of a clock that stood at `clock`. */
  ghost predicate Readings(clock: real, times: seq<real>, n: nat) {
    && |times| == n && (forall i :: 0 <= i < n ==> clock <= times[i])
    && forall i, j :: 0 <= i < j < n ==> times[i] <= times[j]
  }

  function Latest(clock: real, times: seq<real>): real {
    if times == [] then clock else times[|times| - 1]
  }

  lemma LatestStep(clock: real, times: seq<real>, i: nat)
    requires i < |times| && Readings(clock, times, |times|)
    ensures Latest(clock, times[..i]) <= times[i] == Latest(clock, times[..i + 1]) <= Latest(clock, times)
  {
  }

  /** Some key has at least the threshold of failures in the window that ends at its reading. */
  predicate Blocked(history: seq<Failure>, keys: seq<string>, times: seq<real>) {
    exists i :: 0 <= i < |keys| && i < |times| && Full(history, keys[i], times[i])
  }

  predicate Full(history: seq<Failure>, key: string, now: real) {
    Failures(history, key, now - FAILURE_WINDOW, now) >= FAILURE_THRESHOLD
  }

  lemma BlockedSnoc(history: seq<Failure>, keys: seq<string>, times: seq<real>, i: nat)
    requires i < |keys| == |times|
    ensures Blocked(history, keys[..i + 1], times[..i + 1])
            <==> Blocked(history, keys[..i], times[..i]) || Full(history, keys[i], times[i])
  {
    assert keys[..i + 1][i] == keys[i] && times[..i + 1][i] == times[i];
    forall j | 0 <= j < i
      ensures Full(history, keys[..i][j], times[..i][j]) <==> Full(history, keys[..i + 1][j], times[..i + 1][j])
    {
    }
  }

  lemma BlockedEarly(history: seq<Failure>, keys: seq<string>, times: seq<real>, n: nat)
    requires n <= |keys| == |times| && Blocked(history, keys[..n], times[..n])
    ensures Blocked(history, keys, times)
  {
    var j :| 0 <= j < n && Full(history, keys[..n][j], times[..n][j]);
    assert Full(history, keys[j], times[j]);
  }

  function RecordedFor(keys: seq<string>, times: seq<real>): seq<Failure>
    requires |times| == |keys|
  {
    seq(|keys|, i requires 0 <= i < |keys| => Failure(keys[i], times[i]))
  }

  lemma FailuresSnoc(history: seq<Failure>, f: Failure, key: string, from: real, until: real)
    ensures Failures(history + [f], key, from, until)
            == Failures(history, key, from, until) + (if f.key == key && from < f.at <= until then 1 else 0)
  {
    CountOne(history, f, (f: Failure) => f.key == key && from < f.at <= until);
  }

  /** A failure of another key changes no count of these. */
  lemma OtherKeysKeep(history: seq<Failure>, keys: seq<string>, times: seq<real>, f: Failure)
    requires f.key !in keys
    ensures Blocked(history + [f], keys, times) <==> Blocked(history, keys, times)
  {
    forall i | 0 <= i < |keys| && i < |times|
      ensures Full(history + [f], keys[i], times[i]) <==> Full(history, keys[i], times[i])
    {
      FailuresSnoc(history, f, keys[i], times[i] - FAILURE_WINDOW, times[i]);
    }
  }

  // ---------------------------------------------------------------- the store in Redis

  /** A counter that disappears at `expires`. */
  datatype Counter = Counter(count: nat, expires: real)

  function LiveCount(counters: map<string, Counter>, key: string, now: real): nat {
    if key in counters && now < counters[key].expires then counters[key].count else 0
  }

  /** Increment the key; its first increment sets the expiry. */
  function Bump(counters: map<string, Counter>, key: string, now: real): map<string, Counter> {
    if LiveCount(counters, key, now) > 0
    then counters[key := counters[key].(count := counters[key].count + 1)]
    else counters[key := Counter(1, now + FAILURE_WINDOW)]
  }

  /** One failure of each key, at its own reading of the clock. */
  function BumpAll(counters: map<string, Counter>, keys: seq<string>, times: seq<real>): map<string, Counter>
    requires |times| == |keys|
  {
    if keys == [] then counters
    else
      var n := |keys| - 1;
      Bump(BumpAll(counters, keys[..n], times[..n]), keys[n], times[n])
  }

  class RedisFailureStore {
    var counters: map<string, Counter>

    constructor ()
      ensures counters == map[]
    {
      counters := map[];
    }

    method RecordFailure(key: string, now: real) returns (count: nat)
      modifies this
      ensures counters == Bump(old(counters), key, now)
      ensures count == LiveCount(old(counters), key, now) + 1 == LiveCount(counters, key, now)
    {
      count := 1 + LiveCount(counters, key, now);
      if count == 1 {
        counters := counters[key := Counter(1, now + FAILURE_WINDOW)];
      } else {
        counters := counters[key := Counter(count, counters[key].expires)];
      }
    }

    method FailureCount(key: string, now: real) returns (count: nat)
      ensures count == LiveCount(counters, key, now)
    {
      count := if key in counters && now < counters[key].expires then counters[key].count else 0;
    }

    /** Record one failure for every key; say whether some key has then reached the threshold. */
    method RecordFailures(keys: seq<string>, times: seq<real>) returns (blocked: bool)
      requires |times| == |keys| && forall i, j :: 0 <= i < j < |keys| ==> keys[i] != keys[j]
      modifies this
      ensures counters == BumpAll(old(counters), keys, times)
      ensures blocked <==> exists i :: 0 <= i < |keys| && LiveCount(counters, keys[i], times[i]) >= FAILURE_THRESHOLD
    {
      blocked := false;
      for i := 0 to |keys|
        invariant counters == BumpAll(old(counters), keys[..i], times[..i])
        invariant blocked <==> exists j :: 0 <= j < i && LiveCount(counters, keys[j], times[j]) >= FAILURE_THRESHOLD
      {
        ghost var was := counters;
        assert keys[..i + 1][..i] == keys[..i] && times[..i + 1][..i] == times[..i];
        var count := RecordFailure(keys[i], times[i]);
        forall j | 0 <= j < i ensures LiveCount(counters, keys[j], times[j]) == LiveCount(was, keys[j], times[j]) {
        }
        if count >= FAILURE_THRESHOLD {
          blocked := true;
        }
      }
      assert keys[..|keys|] == keys && times[..|times|] == times;
    }

    method IsBlocked(keys: seq<string>, times: seq<real>) returns (blocked: bool)
      requires |times| == |keys|
      ensures blocked <==> exists i :: 0 <= i < |keys| && LiveCount(counters, keys[i], times[i]) >= FAILURE_THRESHOLD
    {
      for i := 0 to |keys|
        invariant forall j :: 0 <= j < i ==> LiveCount(counters, keys[j], times[j]) < FAILURE_THRESHOLD
      {
        var count := FailureCount(keys[i], times[i]);
        if count >= FAILURE_THRESHOLD {
          return true;
        }
      }
      blocked := false;
    }
  }
}
