/** Back-office edits of the registry: a vehicle's zone rules and the review of residents' requests. */
module Management {
  import opened Common
  import opened Domain
  import opened Engine

  // ---------------------------------------------------------------- rows

  /** The explicit right of a vehicle in a zone: entry, at any time. */
  function ZoneRule(vehicle: nat, apartment: Option<Id>, zone: Id): Rule {
    Rule(Some(vehicle), apartment, zone, [Entry], None, None, true)
  }

  predicate RuleOf(r: Rule, vehicle: nat) {
    r.vehicle == Some(vehicle)
  }

  predicate ActiveRule(r: Rule, vehicle: nat, zone: Id) {
    RuleOf(r, vehicle) && r.active && r.zone == zone
  }

  /** The zones of a vehicle's active rules. */
  function ActiveZones(rules: seq<Rule>, vehicle: nat): set<Id> {
    set r | r in rules && RuleOf(r, vehicle) && r.active :: r.zone
  }

  // ---------------------------------------------------------------- zone-rule sync

  /** Row `i` was switched on or created. */
  predicate Woken(before: seq<Rule>, after: seq<Rule>, i: nat)
    requires i < |after|
  {
    after[i].active && (i < |before| ==> !before[i].active)
  }

  /** What a sync to the target zones leaves. */
  ghost predicate Synced(before: seq<Rule>, after: seq<Rule>, vehicle: nat, apartment: Option<Id>, target: set<Id>) {
    && |before| <= |after|
    && (forall i :: 0 <= i < |before| ==> after[i] == before[i].(active := after[i].active))
    && (forall i :: 0 <= i < |before| && !RuleOf(before[i], vehicle) ==> after[i] == before[i])
    && (forall i :: 0 <= i < |before| && RuleOf(before[i], vehicle) && before[i].active
                    ==> (after[i].active <==> before[i].zone in target))
    && (forall i :: 0 <= i < |after| && Woken(before, after, i)
                    ==> after[i].zone in target && after[i].zone !in ActiveZones(before, vehicle))
    && (forall i, j :: 0 <= i < j < |after| && Woken(before, after, i) && Woken(before, after, j)
                       ==> after[i].zone != after[j].zone)
    && (forall i :: |before| <= i < |after| ==>
          && after[i] == ZoneRule(vehicle, apartment, after[i].zone)
          && forall k :: 0 <= k < |before| && RuleOf(before[k], vehicle) ==> before[k].zone != after[i].zone)
    && ActiveZones(after, vehicle) == target
  }

  /** A sync appends rules only for zones that had no active one. */
  lemma NewRowsAreMissed(before: seq<Rule>, after: seq<Rule>, vehicle: nat, apartment: Option<Id>, target: set<Id>)
    requires Synced(before, after, vehicle, apartment, target)
    ensures |after| > |before| ==> target - ActiveZones(before, vehicle) != {}
  {
    if |after| > |before| {
      assert Woken(before, after, |before|);
      assert after[|before|].zone in target - ActiveZones(before, vehicle);
    }
  }

  /** A repeated sync changes nothing. */
  lemma SecondSyncIsIdle(a: seq<Rule>, b: seq<Rule>, c: seq<Rule>, vehicle: nat, apartment: Option<Id>, target: set<Id>)
    requires Synced(a, b, vehicle, apartment, target) && Synced(b, c, vehicle, apartment, target)
    ensures b == c
  {
    forall i | 0 <= i < |b| ensures c[i] == b[i] {
      if RuleOf(b[i], vehicle) && b[i].active {
        assert b[i].zone in ActiveZones(b, vehicle);
      }
      assert Woken(b, c, i) <==> c[i].active && !b[i].active;
    }
    NewRowsAreMissed(b, c, vehicle, apartment, target);
  }

  lemma SmallestOf(s: set<Id>) returns (m: Id)
    requires s != {}
    ensures m in s && forall x :: x in s ==> m <= x
    decreases |s|
  {
    m :| m in s;
    var first, rest := m, s - {m};
    if rest != {} {
      var n := SmallestOf(rest);
      m := if n < first then n else first;
    }
    forall x | x in s ensures m <= x {
      assert x == first || x in rest;
    }
  }

  /** Part of a sync: the zones in `woken` have been given an active rule each. */
  ghost predicate Waking(before: seq<Rule>, after: seq<Rule>, vehicle: nat, apartment: Option<Id>, woken: set<Id>) {
    && |before| <= |after|
    && (forall i :: 0 <= i < |before| ==> after[i] == before[i].(active := after[i].active))
    && (forall i :: 0 <= i < |before| && before[i].active ==> after[i].active)
    && (forall i :: 0 <= i < |after| && Woken(before, after, i) ==> RuleOf(after[i], vehicle) && after[i].zone in woken)
    && (forall i, j :: 0 <= i < j < |after| && Woken(before, after, i) && Woken(before, after, j)
                       ==> after[i].zone != after[j].zone)
    && (forall i :: |before| <= i < |after| ==>
          && after[i] == ZoneRule(vehicle, apartment, after[i].zone)
          && forall k :: 0 <= k < |before| && RuleOf(before[k], vehicle) ==> before[k].zone != after[i].zone)
    && (forall z :: z in woken ==> exists i :: 0 <= i < |after| && Woken(before, after, i) && after[i].zone == z)
  }

  ghost predicate Revived(before: seq<Rule>, after: seq<Rule>, vehicle: nat, zone: Id, n: nat)
    requires n <= |before|
  {
    exists i :: 0 <= i < n && RuleOf(before[i], vehicle) && before[i].zone == zone && !before[i].active
                && after == before[i := before[i].(active := true)]
  }

  ghost predicate NoneDormant(rules: seq<Rule>, vehicle: nat, zone: Id, n: nat)
    requires n <= |rules|
  {
    forall i :: 0 <= i < n && RuleOf(rules[i], vehicle) && rules[i].zone == zone ==> rules[i].active
  }

  /** Rules for a zone not woken yet are as inactive as they were. */
  lemma DormantInBoth(before: seq<Rule>, mid: seq<Rule>, vehicle: nat, apartment: Option<Id>, woken: set<Id>, zone: Id)
    requires Waking(before, mid, vehicle, apartment, woken)
    requires zone !in woken && zone !in ActiveZones(before, vehicle)
    ensures forall k :: 0 <= k < |before| && RuleOf(before[k], vehicle) && before[k].zone == zone ==>
              !before[k].active && !mid[k].active
  {
    forall k | 0 <= k < |before| && RuleOf(before[k], vehicle) && before[k].zone == zone
      ensures !before[k].active && !mid[k].active
    {
      assert before[k] in before && mid[k].zone == before[k].zone;
      assert mid[k].active ==> before[k].active || Woken(before, mid, k);
    }
  }

  /** The step of the waking loop, seen from the rules it started with. */
  lemma WokenOrNew(before: seq<Rule>, mid: seq<Rule>, after: seq<Rule>, vehicle: nat, apartment: Option<Id>,
                   woken: set<Id>, zone: Id)
    requires Waking(before, mid, vehicle, apartment, woken)
    requires zone !in woken && zone !in ActiveZones(before, vehicle)
    requires Revived(mid, after, vehicle, zone, |before|)
             || (NoneDormant(mid, vehicle, zone, |before|) && after == mid + [ZoneRule(vehicle, apartment, zone)])
    ensures WakeStep(before, mid, after, vehicle, apartment, zone)
  {
    DormantInBoth(before, mid, vehicle, apartment, woken, zone);
  }

  ghost predicate WakeStep(before: seq<Rule>, mid: seq<Rule>, after: seq<Rule>, vehicle: nat, apartment: Option<Id>,
                           zone: Id)
    requires |before| <= |mid|
  {
    || (exists i :: 0 <= i < |before| && RuleOf(before[i], vehicle) && before[i].zone == zone && !before[i].active
                    && after == mid[i := mid[i].(active := true)])
    || (&& (forall k :: 0 <= k < |before| && RuleOf(before[k], vehicle) ==> before[k].zone != zone)
        && after == mid + [ZoneRule(vehicle, apartment, zone)])
  }

  /** `mid` is `before` with the vehicle's rules outside the target switched off. */
  ghost predicate Dropped(before: seq<Rule>, mid: seq<Rule>, vehicle: nat, target: set<Id>) {
    && |mid| == |before|
    && forall i :: 0 <= i < |mid| ==>
         mid[i] == before[i].(active := before[i].active && (RuleOf(before[i], vehicle) ==> before[i].zone in target))
  }

  lemma KeptStays(before: seq<Rule>, mid: seq<Rule>, after: seq<Rule>, vehicle: nat, target: set<Id>, zone: Id)
    requires Dropped(before, mid, vehicle, target) && zone in target && zone in ActiveZones(before, vehicle)
    requires |mid| <= |after|
    requires forall i :: 0 <= i < |mid| && mid[i].active ==> after[i] == mid[i]
    ensures zone in ActiveZones(after, vehicle)
  {
    var r :| r in before && RuleOf(r, vehicle) && r.active && r.zone == zone;
    var i :| 0 <= i < |before| && before[i] == r;
    assert mid[i].active;
    assert after[i] in after;
  }

  /** Dropping the zones outside the target and waking the missing ones is a sync. */
  lemma DropThenWake(before: seq<Rule>, mid: seq<Rule>, after: seq<Rule>, vehicle: nat, apartment: Option<Id>,
                     target: set<Id>)
    requires Dropped(before, mid, vehicle, target)
    requires Waking(mid, after, vehicle, apartment, target - ActiveZones(before, vehicle))
    ensures Synced(before, after, vehicle, apartment, target)
  {
    forall i | 0 <= i < |after| && Woken(before, after, i) ensures Woken(mid, after, i) {
    }
    forall i | 0 <= i < |before| && RuleOf(before[i], vehicle) && before[i].active
      ensures after[i].active <==> before[i].zone in target
    {
      if after[i].active && !mid[i].active {
        assert Woken(mid, after, i);
      }
    }
    forall z | z in target ensures z in ActiveZones(after, vehicle) {
      if z in ActiveZones(before, vehicle) {
        KeptStays(before, mid, after, vehicle, target, z);
      } else {
        assert z in target - ActiveZones(before, vehicle);
        var i :| 0 <= i < |after| && Woken(mid, after, i) && after[i].zone == z;
        assert after[i] in after;
      }
    }
    forall r | r in after && RuleOf(r, vehicle) && r.active ensures r.zone in target {
      var i :| 0 <= i < |after| && after[i] == r;
      assert !Woken(mid, after, i) ==> mid[i].active;
    }
    assert ActiveZones(after, vehicle) == target;
  }

  /** One more zone: revive its first inactive rule, or append a new one. */
  lemma WakeOneMore(before: seq<Rule>, mid: seq<Rule>, after: seq<Rule>, vehicle: nat, apartment: Option<Id>,
                    woken: set<Id>, zone: Id)
    requires Waking(before, mid, vehicle, apartment, woken)
    requires zone !in woken && zone !in ActiveZones(before, vehicle)
    requires Revived(mid, after, vehicle, zone, |before|)
             || (NoneDormant(mid, vehicle, zone, |before|) && after == mid + [ZoneRule(vehicle, apartment, zone)])
    ensures Waking(before, after, vehicle, apartment, woken + {zone})
  {
    WokenOrNew(before, mid, after, vehicle, apartment, woken, zone);
    var i: nat;
    if k :| 0 <= k < |before| && RuleOf(before[k], vehicle) && before[k].zone == zone && !before[k].active
            && after == mid[k := mid[k].(active := true)] {
      i := k;
    } else {
      i := |mid|;
    }
    assert Woken(before, after, i) && after[i].zone == zone && RuleOf(after[i], vehicle);
    forall j | 0 <= j < |after| && j != i ensures j < |mid| && after[j] == mid[j] {
    }
    forall j | 0 <= j < |after| && j != i && Woken(before, after, j)
      ensures RuleOf(after[j], vehicle) && after[j].zone in woken
    {
      assert Woken(before, mid, j);
    }
    forall z | z in woken ensures exists j :: 0 <= j < |after| && Woken(before, after, j) && after[j].zone == z {
      var j :| 0 <= j < |mid| && Woken(before, mid, j) && mid[j].zone == z;
      assert Woken(before, after, j);
    }
  }

  class RuleTable {
    var rules: seq<Rule>

    constructor (rules: seq<Rule>)
      ensures this.rules == rules
    {
      this.rules := rules;
    }

    method AddZoneRule(vehicle: nat, apartment: Option<Id>, zone: Id)
      modifies this
      ensures rules == old(rules) + [ZoneRule(vehicle, apartment, zone)]
    {
      rules := rules + [Rule(Some(vehicle), apartment, zone, [Entry], None, None, true)];
    }

    /** Switch off the vehicle's active rules outside the target; report the zones still active. */
    method DropOthers(vehicle: nat, target: set<Id>) returns (kept: set<Id>)
      modifies this
      ensures Dropped(old(rules), rules, vehicle, target)
      ensures kept == ActiveZones(old(rules), vehicle) * target == ActiveZones(rules, vehicle)
    {
      kept := {};
      var i := 0;
      while i < |rules|
        invariant i <= |rules| == |old(rules)|
        invariant forall k :: 0 <= k < i ==>
                    rules[k] == old(rules)[k].(active := old(rules)[k].active
                                                && (RuleOf(old(rules)[k], vehicle) ==> old(rules)[k].zone in target))
        invariant forall k :: i <= k < |rules| ==> rules[k] == old(rules)[k]
        invariant forall z :: z in kept <==>
                    z in target && exists k :: 0 <= k < i && ActiveRule(old(rules)[k], vehicle, z)
      {
        var r := rules[i];
        if RuleOf(r, vehicle) && r.active {
          if r.zone in target {
            kept := kept + {r.zone};
          } else {
            rules := rules[i := r.(active := false)];
          }
        }
        i := i + 1;
      }
      forall z ensures z in kept <==> z in target && z in ActiveZones(old(rules), vehicle) {
        assert z in ActiveZones(old(rules), vehicle) <==>
               exists k :: 0 <= k < |old(rules)| && ActiveRule(old(rules)[k], vehicle, z);
      }
      forall z ensures z in kept <==> z in ActiveZones(rules, vehicle) {
        if z in kept {
          var k :| 0 <= k < |old(rules)| && ActiveRule(old(rules)[k], vehicle, z);
          assert rules[k] in rules;
        }
      }
    }

    /** Revive the first inactive rule of the vehicle for the zone among the first `n`, else add one. */
    method WakeZone(vehicle: nat, apartment: Option<Id>, zone: Id, n: nat)
      requires n <= |rules|
      modifies this
      ensures Revived(old(rules), rules, vehicle, zone, n)
              || (NoneDormant(old(rules), vehicle, zone, n)
                  && rules == old(rules) + [ZoneRule(vehicle, apartment, zone)])
    {
      var revived := FindFirst(rules[..n], (r: Rule) => RuleOf(r, vehicle) && r.zone == zone && !r.active);
      if revived.Some? {
        rules := rules[revived.value := rules[revived.value].(active := true)];
      } else {
        assert forall k :: 0 <= k < n ==> rules[..n][k] == rules[k];
        AddZoneRule(vehicle, apartment, zone);
      }
    }

    /** Give each missing zone one active rule, in ascending order, looking for inactive rules only among
      * those there at the start. */
    method WakeMissing(vehicle: nat, apartment: Option<Id>, missing: set<Id>)
      requires missing !! ActiveZones(rules, vehicle)
      modifies this
      ensures Waking(old(rules), rules, vehicle, apartment, missing)
    {
      ghost var start := rules;
      var n := |rules|;
      var rest := missing;
      assert missing - rest == {};
      while rest != {}
        invariant rest <= missing && n == |start|
        invariant Waking(start, rules, vehicle, apartment, missing - rest)
        decreases |rest|
      {
        ghost var least := SmallestOf(rest);
        var zone :| zone in rest && forall z :: z in rest ==> zone <= z;
        ghost var was := rules;
        WakeZone(vehicle, apartment, zone, n);
        WakeOneMore(start, was, rules, vehicle, apartment, missing - rest, zone);
        assert missing - (rest - {zone}) == (missing - rest) + {zone};
        rest := rest - {zone};
      }
      assert missing - rest == missing;
    }

    /** Bring the vehicle's rules to the target zones: drop the others, then wake the missing ones. */
    method SyncVehicleZoneRules(vehicle: nat, apartment: Option<Id>, zones: seq<Id>)
      modifies this
      ensures Synced(old(rules), rules, vehicle, apartment, set z | z in zones)
    {
      var target := set z | z in zones;
      var kept := DropOthers(vehicle, target);
      ghost var mid := rules;
      WakeMissing(vehicle, apartment, target - kept);
      assert target - kept == target - ActiveZones(old(rules), vehicle);
      DropThenWake(old(rules), mid, rules, vehicle, apartment, target);
    }
  }
}
