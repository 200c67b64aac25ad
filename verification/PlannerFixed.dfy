/** Fixed and protected reservations, and the exact set of those that cannot stand. */
module PlannerFixed {
  import opened Ordering
  import opened PlannerModel
  import opened PlannerScoring
  import opened PlannerPlacement

  predicate IsFixed(a: Activity) { !a.flexibility.Flexible? }

  function FixedStart(a: Activity, h: Horizon): Instant
  {
    if a.fixedStart.Some? then a.fixedStart.value else h.start
  }

  function FixedPlacement(a: Activity, h: Horizon): Placement
    requires a.id in h.dependents
  {
    var s := FixedStart(a, h);
    Placement(a, s, if a.fixedEnd.Some? then a.fixedEnd.value else s, ScoreActivity(a, h, s, h.dependents[a.id]))
  }

  function FixedKey(h: Horizon): Activity -> Key
  {
    a => Key(0, FixedStart(a, h), a.id)
  }

  function FixedIn(xs: seq<Activity>): (r: seq<Activity>)
    ensures Elements(r) == set a | a in xs && IsFixed(a)
  {
    if xs == [] then []
    else
      assert xs == [xs[0]] + xs[1..];
      var rest := FixedIn(xs[1..]);
      assert forall a :: a in rest <==> a in Elements(rest);
      if IsFixed(xs[0]) then
        assert forall a :: a in [xs[0]] + rest <==> a == xs[0] || a in rest;
        [xs[0]] + rest
      else rest
  }

  /** The activities as the planner sees them, whatever the order they are listed in. */
  ghost predicate Catalog(activities: set<Activity>, h: Horizon)
  {
    && (forall a :: a in activities ==> ValidActivity(a) && a.id in h.dependents)
    && (forall a, b :: a in activities && b in activities && a.id == b.id ==> a == b)
  }

  ghost function FixedOf(activities: set<Activity>): set<Activity>
  {
    set a | a in activities && IsFixed(a)
  }

  /** Outside the window, or against one of its own time bounds. */
  predicate Misfit(a: Activity, h: Horizon)
    requires a.id in h.dependents
  {
    !InWindow(FixedPlacement(a, h), h) || !SatisfiesTimeBounds(FixedPlacement(a, h), h)
  }

  predicate Clash(a: Activity, b: Activity, h: Horizon)
    requires a.id in h.dependents && b.id in h.dependents
  {
    Overlaps(FixedPlacement(a, h), FixedPlacement(b, h))
  }

  /** The fixed activities that break a bound or overlap another fixed one. */
  ghost function FixedConflicts(activities: set<Activity>, h: Horizon): set<string>
    requires Catalog(activities, h)
  {
    set a | a in FixedOf(activities) &&
            (Misfit(a, h) || exists b :: b in FixedOf(activities) && b != a && Clash(a, b, h)) :: a.id
  }

  function PlaceAll(xs: seq<Activity>, h: Horizon): (ps: seq<Placement>)
    requires forall a :: a in xs ==> a.id in h.dependents
    ensures |ps| == |xs| && forall i :: 0 <= i < |xs| ==> ps[i] == FixedPlacement(xs[i], h)
  {
    seq(|xs|, i requires 0 <= i < |xs| => FixedPlacement(xs[i], h))
  }

  lemma {:induction false} FixedKeyInjective(activities: set<Activity>, h: Horizon)
    requires Catalog(activities, h)
    ensures InjectiveOn(FixedKey(h), FixedOf(activities))
  {
    forall x, y | x in FixedOf(activities) && y in FixedOf(activities) && x != y
      ensures FixedKey(h)(x) != FixedKey(h)(y)
    {
      assert x.id != y.id;
    }
  }

  /** The reservations in the order they are made: by start, then by identifier. */
  ghost function FixedSequence(activities: set<Activity>, h: Horizon): (ps: seq<Placement>)
    requires Catalog(activities, h)
  {
    FixedKeyInjective(activities, h);
    var xs := SortedOf(FixedKey(h), FixedOf(activities));
    assert forall a :: a in xs ==> a in Elements(xs);
    PlaceAll(xs, h)
  }

  lemma {:induction false} FixedInDistinct(xs: seq<Activity>)
    requires DistinctIds(xs)
    ensures DistinctIds(FixedIn(xs))
  {
    if xs != [] {
      FixedInDistinct(xs[1..]);
      var rest := FixedIn(xs[1..]);
      forall k | 0 <= k < |rest|
        ensures rest[k].id != xs[0].id
      {
        assert rest[k] in Elements(rest);
      }
    }
  }

  lemma {:induction false} SortedFixed(xs: seq<Activity>, h: Horizon)
    requires DistinctIds(xs) && Catalog(Elements(xs), h)
    ensures InjectiveOn(FixedKey(h), FixedOf(Elements(xs)))
    ensures Sort(FixedKey(h), FixedIn(xs)) == SortedOf(FixedKey(h), FixedOf(Elements(xs)))
  {
    FixedInDistinct(xs);
    assert FixedOf(Elements(xs)) == Elements(FixedIn(xs));
    assert DistinctKeys(FixedKey(h), FixedIn(xs));
    SortIsSortedOf(FixedKey(h), FixedIn(xs), FixedOf(Elements(xs)));
  }

  /** Conflicts among the first `n` of the listed activities. */
  ghost function ConflictsAmong(xs: seq<Activity>, n: nat, h: Horizon): set<string>
    requires n <= |xs| && forall a :: a in xs ==> a.id in h.dependents
  {
    set k | 0 <= k < n &&
            (Misfit(xs[k], h) || exists m :: 0 <= m < n && m != k && Clash(xs[k], xs[m], h)) :: xs[k].id
  }

  /** Conflicts found so far while the `i`-th activity is compared with the first `j`. */
  ghost function ConflictsWhile(xs: seq<Activity>, i: nat, j: nat, h: Horizon): set<string>
    requires j <= i < |xs| && forall a :: a in xs ==> a.id in h.dependents
  {
    ConflictsAmong(xs, i, h)
    + (if Misfit(xs[i], h) || exists m :: 0 <= m < j && Clash(xs[i], xs[m], h) then {xs[i].id} else {})
    + (set m | 0 <= m < j && Clash(xs[i], xs[m], h) :: xs[m].id)
  }

  lemma {:induction false} ConflictsStep(xs: seq<Activity>, i: nat, h: Horizon)
    requires i < |xs| && forall a :: a in xs ==> a.id in h.dependents
    ensures ConflictsWhile(xs, i, i, h) == ConflictsAmong(xs, i + 1, h)
  {
    hide Misfit, ConflictsWhile, ConflictsAmong;
    forall x
      ensures x in ConflictsWhile(xs, i, i, h) <==> x in ConflictsAmong(xs, i + 1, h)
    {
      if x in ConflictsAmong(xs, i + 1, h) {
        AmongIsWhile(xs, i, h, x);
      }
      if x in ConflictsWhile(xs, i, i, h) {
        WhileIsAmong(xs, i, h, x);
      }
    }
  }

  lemma {:induction false} AmongIsWhile(xs: seq<Activity>, i: nat, h: Horizon, x: string)
    requires i < |xs| && forall a :: a in xs ==> a.id in h.dependents
    requires x in ConflictsAmong(xs, i + 1, h)
    ensures x in ConflictsWhile(xs, i, i, h)
  {
    hide Misfit, Clash;
    var k :| 0 <= k < i + 1 && x == xs[k].id &&
             (Misfit(xs[k], h) || exists m :: 0 <= m < i + 1 && m != k && Clash(xs[k], xs[m], h));
    if k < i && !Misfit(xs[k], h) {
      var m :| 0 <= m < i + 1 && m != k && Clash(xs[k], xs[m], h);
      ClashIsMutual(xs[k], xs[m], h);
    }
  }

  lemma {:induction false} ClashIsMutual(a: Activity, b: Activity, h: Horizon)
    requires a.id in h.dependents && b.id in h.dependents
    ensures Clash(a, b, h) <==> Clash(b, a, h)
  {
  }

  lemma {:induction false} WhileIsAmong(xs: seq<Activity>, i: nat, h: Horizon, x: string)
    requires i < |xs| && forall a :: a in xs ==> a.id in h.dependents
    requires x in ConflictsWhile(xs, i, i, h)
    ensures x in ConflictsAmong(xs, i + 1, h)
  {
    hide Misfit, Clash;
    if x !in ConflictsAmong(xs, i, h) && x != xs[i].id {
      var m :| 0 <= m < i && Clash(xs[i], xs[m], h) && xs[m].id == x;
      ClashIsMutual(xs[i], xs[m], h);
    }
  }

  lemma {:induction false} ConflictsAreExact(xs: seq<Activity>, activities: set<Activity>, h: Horizon)
    requires Catalog(activities, h) && Elements(xs) == FixedOf(activities)
    requires Ascending(FixedKey(h), xs)
    requires forall a :: a in xs ==> a.id in h.dependents
    ensures ConflictsAmong(xs, |xs|, h) == FixedConflicts(activities, h)
  {
    AscendingDiffers(xs, h);
    assert forall a :: a in FixedOf(activities) <==> a in xs;
    hide Misfit, Clash, FixedOf, Catalog, Ascending, FixedKey, Elements;
    forall k | 0 <= k < |xs|
      ensures ClashesInList(xs, k, h) <==> ClashesInSet(FixedOf(activities), xs[k], h)
    {
      SameClashes(xs, k, FixedOf(activities), h);
    }
    assert ConflictsAmong(xs, |xs|, h) == set k | 0 <= k < |xs| && (Misfit(xs[k], h) || ClashesInList(xs, k, h)) :: xs[k].id;
    forall id
      ensures id in ConflictsAmong(xs, |xs|, h) <==> id in FixedConflicts(activities, h)
    {
      if a :| a in FixedOf(activities) && a.id == id && (Misfit(a, h) || ClashesInSet(FixedOf(activities), a, h)) {
        var k :| 0 <= k < |xs| && xs[k] == a;
      }
    }
  }

  ghost predicate ClashesInList(xs: seq<Activity>, k: nat, h: Horizon)
    requires k < |xs| && forall a :: a in xs ==> a.id in h.dependents
  {
    exists m :: 0 <= m < |xs| && m != k && Clash(xs[k], xs[m], h)
  }

  ghost predicate ClashesInSet(s: set<Activity>, a: Activity, h: Horizon)
    requires a.id in h.dependents && forall b :: b in s ==> b.id in h.dependents
  {
    exists b :: b in s && b != a && Clash(a, b, h)
  }

  lemma {:induction false} SameClashes(xs: seq<Activity>, k: nat, s: set<Activity>, h: Horizon)
    requires k < |xs| && (forall a :: a in xs ==> a.id in h.dependents) && (forall a :: a in s <==> a in xs)
    requires forall i, j :: 0 <= i < j < |xs| ==> xs[i] != xs[j]
    ensures ClashesInList(xs, k, h) <==> ClashesInSet(s, xs[k], h)
  {
    hide Clash;
    if m :| 0 <= m < |xs| && m != k && Clash(xs[k], xs[m], h) {
      assert xs[m] in s && xs[m] != xs[k];
    }
    if b :| b in s && b != xs[k] && Clash(xs[k], b, h) {
      var m :| 0 <= m < |xs| && xs[m] == b;
    }
  }

  lemma {:induction false} AscendingDiffers(xs: seq<Activity>, h: Horizon)
    requires (forall a :: a in xs ==> a.id in h.dependents) && Ascending(FixedKey(h), xs)
    ensures forall i, j :: 0 <= i < j < |xs| ==> xs[i] != xs[j]
  {
    forall i, j | 0 <= i < j < |xs|
      ensures xs[i] != xs[j]
    {
      BeforeAsymmetric(FixedKey(h)(xs[i]), FixedKey(h)(xs[j]));
    }
  }

  lemma {:induction false} CompareNext(xs: seq<Activity>, i: nat, j: nat, h: Horizon)
    requires j < i < |xs| && forall a :: a in xs ==> a.id in h.dependents
    ensures ConflictsWhile(xs, i, j + 1, h) ==
            ConflictsWhile(xs, i, j, h) + if Clash(xs[i], xs[j], h) then {xs[i].id, xs[j].id} else {}
  {
  }

  /** Compares one reservation with those already made and adds both sides of every overlap. */
  method CompareWithEarlier(xs: seq<Activity>, i: nat, earlier: seq<Placement>, h: Horizon, found: set<string>)
    returns (conflicts: set<string>)
    requires i < |xs| && forall a :: a in xs ==> a.id in h.dependents
    requires earlier == PlaceAll(xs[..i], h)
    requires found == ConflictsAmong(xs, i, h)
    ensures conflicts == ConflictsAmong(xs, i + 1, h)
  {
    var placement := FixedPlacement(xs[i], h);
    conflicts := found;
    if placement.ReservationStart() < h.start || placement.ReservationEnd() > h.end {
      conflicts := conflicts + {xs[i].id};
    }
    if !SatisfiesTimeBounds(placement, h) {
      conflicts := conflicts + {xs[i].id};
    }
    for j := 0 to |earlier|
      invariant conflicts == ConflictsWhile(xs, i, j, h)
    {
      if Overlaps(placement, earlier[j]) {
        conflicts := conflicts + {xs[i].id, earlier[j].activity.id};
      }
      CompareNext(xs, i, j, h);
    }
    ConflictsStep(xs, i, h);
  }

  datatype FixedResult = Conflicting(ids: set<string>) | Reserved(placements: seq<Placement>)

  lemma {:induction false} PlaceAllExtend(xs: seq<Activity>, i: nat, h: Horizon)
    requires i < |xs| && forall a :: a in xs ==> a.id in h.dependents
    ensures PlaceAll(xs[..i + 1], h) == PlaceAll(xs[..i], h) + [FixedPlacement(xs[i], h)]
  {
  }

  /** The loop over the sorted activities. */
  method ReserveInOrder(fixed: seq<Activity>, h: Horizon) returns (placements: seq<Placement>, conflicts: set<string>)
    requires forall a :: a in fixed ==> a.id in h.dependents
    ensures placements == PlaceAll(fixed, h)
    ensures conflicts == ConflictsAmong(fixed, |fixed|, h)
  {
    placements, conflicts := [], {};
    for i := 0 to |fixed|
      invariant placements == PlaceAll(fixed[..i], h)
      invariant conflicts == ConflictsAmong(fixed, i, h)
    {
      conflicts := CompareWithEarlier(fixed, i, placements, h, conflicts);
      PlaceAllExtend(fixed, i, h);
      placements := placements + [FixedPlacement(fixed[i], h)];
    }
    assert fixed[..|fixed|] == fixed;
  }

  /** Reserves every fixed interval in order, or names every activity in conflict. */
  method PlaceFixed(activities: seq<Activity>, h: Horizon) returns (result: FixedResult)
    requires DistinctIds(activities) && Catalog(Elements(activities), h)
    ensures result == if FixedConflicts(Elements(activities), h) != {}
                      then Conflicting(FixedConflicts(Elements(activities), h))
                      else Reserved(FixedSequence(Elements(activities), h))
  {
    SortedFixed(activities, h);
    var fixed := Sort(FixedKey(h), FixedIn(activities));
    assert forall a :: a in fixed ==> a in Elements(fixed);
    var placements, conflicts := ReserveInOrder(fixed, h);
    ConflictsAreExact(fixed, Elements(activities), h);
    if conflicts != {} {
      return Conflicting(conflicts);
    }
    return Reserved(placements);
  }
}
