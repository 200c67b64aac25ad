/** The greedy order of the flexible placements: at its turn each was the best that any
    activity still waiting could have had. */
module PlannerGreedy {
  import opened Options
  import opened Ordering
  import opened PlannerModel
  import opened PlannerPlacement
  import opened PlannerFixed
  import opened PlannerFlexible
  import opened PlannerSchedule

  /** An activity whose turn had come when `before` was reserved, and a minute it could have had. */
  ghost predicate CouldGo(a: Activity, s: set<Activity>, h: Horizon, known: set<string>, before: seq<Placement>, t: Instant)
    requires Catalog(s, h)
  {
    && a in s && a.id !in PlacedIds(before)
    && DependsOnlyOn(a, known) && DependsOnlyOn(a, PlacedIds(before))
    && Feasible(a, h, before, t)
  }

  lemma {:induction false} WaitsItsTurn(s: set<Activity>, h: Horizon, known: set<string>, ps: seq<Placement>, before: seq<Placement>,
                                        a: Activity, t: Instant, missing: set<Activity>, eligible: set<Activity>)
    requires Catalog(s, h) && missing == Selected(s, known, false) && CouldGo(a, s, h, known, before, t)
    requires eligible == Selected(s - missing, PlacedIds(ps), true)
    ensures a in s - missing && (a in eligible ==> DependsOnlyOn(a, PlacedIds(ps)))
  {
  }

  lemma {:induction false} FlexPlacesOutranks(s: set<Activity>, activities: set<Activity>, h: Horizon, known: set<string>,
                                              ps: seq<Placement>, r: seq<Placement>, k: nat, a: Activity, t: Instant,
                                              missing: set<Activity>, eligible: set<Activity>)
    requires Underway(s, activities, h, ps) && Catalog(s, h) && Catalog(eligible, h) && missing == Selected(s, known, false)
    requires eligible == Selected(s - missing, PlacedIds(ps), true) && Candidates(eligible, h, ps) != {}
    requires r == Flex(s, h, known, ps).placements && |ps| <= k < |r| && CouldGo(a, s, h, known, r[..k], t)
    ensures Outranks(r[k], a, h, t)
    decreases |s|, 0
  {
    hide Report, Flex, Selected, Underway, Catalog, Choose, Best, Outranks, Feasible, CouldGo, Sound, DependsOnlyOn, Candidates, PlacedIds;
    var c := Choose(eligible, h, ps);
    var rest := s - missing - {c.activity};
    var before := r[..k];
    WaitsItsTurn(s, h, known, ps, before, a, t, missing, eligible);
    SelectedPart(s, s, known, false, activities, h, ps);
    SelectedPart(s, s - missing, PlacedIds(ps), true, activities, h, ps);
    PartOfCatalog(rest, activities, h);
    FlexPlaces(s, h, known, ps, missing, eligible);
    UnderwayPlaces(s, rest, activities, h, ps, c);
    FlexSound(rest, activities, h, known, ps + [c]);
    assert r == Flex(rest, h, known, ps + [c]).placements;
    if k == |ps| {
      assert before == ps && r[k] == c;
      FirstOutranks(s, h, known, ps, a, t, missing, eligible);
    } else {
      SmallerSet(rest, s, c.activity);
      LaterCouldGo(s, rest, h, known, ps, before, a, t, c);
      FlexOutranks(rest, activities, h, known, ps + [c], r, k, a, t);
    }
  }

  lemma {:induction false} FirstOutranks(s: set<Activity>, h: Horizon, known: set<string>, ps: seq<Placement>, a: Activity, t: Instant,
                                         missing: set<Activity>, eligible: set<Activity>)
    requires Catalog(s, h) && missing == Selected(s, known, false) && Catalog(eligible, h)
    requires eligible == Selected(s - missing, PlacedIds(ps), true) && CouldGo(a, s, h, known, ps, t)
    ensures Candidates(eligible, h, ps) != {} && Outranks(Choose(eligible, h, ps), a, h, t)
  {
    hide Outranks, Feasible, Choose;
    EligibleOutranked(s, eligible, h, known, ps);
  }

  lemma {:induction false} LaterCouldGo(s: set<Activity>, rest: set<Activity>, h: Horizon, known: set<string>, ps: seq<Placement>,
                                        before: seq<Placement>, a: Activity, t: Instant, c: Placement)
    requires Catalog(s, h) && Catalog(rest, h) && CouldGo(a, s, h, known, before, t) && ps + [c] <= before
    requires a in rest || a == c.activity
    ensures CouldGo(a, rest, h, known, before, t)
  {
    assert c == (ps + [c])[|ps|] == before[|ps|];
    assert c in before;
  }

  /** Once no eligible activity finds room nothing more is placed. */
  lemma {:induction false} GivingUpEnds(s: set<Activity>, activities: set<Activity>, h: Horizon, known: set<string>, ps: seq<Placement>,
                                        missing: set<Activity>, eligible: set<Activity>)
    requires Underway(s, activities, h, ps) && Catalog(s, h) && Catalog(eligible, h) && missing == Selected(s, known, false)
    requires eligible == Selected(s - missing, PlacedIds(ps), true) && Candidates(eligible, h, ps) == {} && s != {}
    ensures Flex(s, h, known, ps).placements == ps
  {
    var rest := s - missing - eligible;
    NoneLeft(s, known, ps, missing, eligible, rest);
    hide Flex, Selected, Underway, Catalog, Report, Candidates;
    SelectedPart(s, s, known, false, activities, h, ps);
    FlexOfNone(h, known, ps);
    if eligible == {} {
      FlexStops(s, h, known, ps, missing);
    } else {
      FlexGivesUp(s, h, known, ps, missing, eligible);
      PartOfCatalog(rest, activities, h);
      if rest != {} {
        FlexStops(rest, h, known, ps, {});
      }
    }
  }

  lemma {:induction false} NoneLeft(s: set<Activity>, known: set<string>, ps: seq<Placement>,
                                    missing: set<Activity>, eligible: set<Activity>, rest: set<Activity>)
    requires missing == Selected(s, known, false) && eligible == Selected(s - missing, PlacedIds(ps), true)
    requires rest == s - missing - eligible
    ensures Selected(rest, known, false) == {} && Selected(rest - {}, PlacedIds(ps), true) == {}
  {
  }

  lemma {:induction false} HasMember(s: set<Activity>, h: Horizon, known: set<string>, before: seq<Placement>, a: Activity, t: Instant)
    requires Catalog(s, h) && CouldGo(a, s, h, known, before, t)
    ensures s != {}
  {
  }

  lemma {:induction false} FlexOutranks(s: set<Activity>, activities: set<Activity>, h: Horizon, known: set<string>,
                                        ps: seq<Placement>, r: seq<Placement>, k: nat, a: Activity, t: Instant)
    requires Underway(s, activities, h, ps) && Catalog(s, h)
    requires r == Flex(s, h, known, ps).placements && |ps| <= k < |r| && CouldGo(a, s, h, known, r[..k], t)
    ensures Outranks(r[k], a, h, t)
    decreases |s|
  {
    var missing := Selected(s, known, false);
    var eligible := Selected(s - missing, PlacedIds(ps), true);
    hide Report, Flex, Selected, Underway, Catalog, Choose, Best, Outranks, Feasible;
    SelectedPart(s, s, known, false, activities, h, ps);
    SelectedPart(s, s - missing, PlacedIds(ps), true, activities, h, ps);
    PartOfCatalog(missing, activities, h);
    PartOfCatalog(eligible, activities, h);
    FlexSound(s, activities, h, known, ps);
    if Candidates(eligible, h, ps) != {} {
      FlexPlacesOutranks(s, activities, h, known, ps, r, k, a, t, missing, eligible);
    } else {
      HasMember(s, h, known, r[..k], a, t);
      GivingUpEnds(s, activities, h, known, ps, missing, eligible);
    }
  }

  /** Each placement after the fixed ones, at the turn it was made: no flexible activity that
      was still waiting with all its dependencies reserved had a free minute with a higher
      score, nor an earlier one with the same score, nor the same one with the same score and
      a lesser identifier. */
  lemma {:induction false} PlacementsAreGreedy(activities: set<Activity>, h: Horizon, k: nat, a: Activity, t: Instant)
    requires Catalog(activities, h) && Schedule(activities, h).Planned?
    requires |FixedOf(activities)| <= k < |Schedule(activities, h).placements|
    requires a in activities && a.flexibility.Flexible?
    requires var before := Schedule(activities, h).placements[..k];
             && (forall p :: p in before ==> p.activity != a)
             && (forall d :: d in a.dependencies ==> exists p :: p in before && p.activity.id == d)
             && Feasible(a, h, before, t)
    ensures var p := Schedule(activities, h).placements[k];
            && Total(a, h, t) <= p.score.total
            && (Total(a, h, t) == p.score.total ==> p.startsAt <= t)
            && (Total(a, h, t) == p.score.total && p.startsAt == t ==>
                  p.activity == a || TextBefore(p.activity.id, a.id))
  {
    hide Schedule, Placed, Catalog, Feasible, FixedConflicts, FixedOf, Total;
    PlannedIsPlaced(activities, h);
    PlacedOutranks(activities, h, Schedule(activities, h).placements, k, a, t);
  }

  lemma {:induction false} PlacedOutranks(activities: set<Activity>, h: Horizon, ps: seq<Placement>, k: nat, a: Activity, t: Instant)
    requires Catalog(activities, h) && FixedConflicts(activities, h) == {} && ps == Placed(activities, h).placements
    requires |FixedOf(activities)| <= k < |ps| && a in activities && a.flexibility.Flexible?
    requires forall p :: p in ps[..k] ==> p.activity != a
    requires forall d :: d in a.dependencies ==> exists p :: p in ps[..k] && p.activity.id == d
    requires Feasible(a, h, ps[..k], t)
    ensures Outranks(ps[k], a, h, t)
  {
    hide Flex, Sound, Underway, Feasible, CouldGo, FixedSequence, FixedConflicts, FixedOf, Outranks, FlexibleOf, IdsOf, Total;
    FixedLength(activities, h);
    PlacedIsSound(activities, h);
    StartsUnderway(activities, h);
    WaitingCouldGo(activities, h, ps, k, a, t);
    FlexibleCatalog(activities, h);
    hide Catalog;
    FlexOutranks(FlexibleOf(activities), activities, h, IdsOf(activities), FixedSequence(activities, h), ps, k, a, t);
  }

  lemma {:induction false} FlexibleCatalog(activities: set<Activity>, h: Horizon)
    requires Catalog(activities, h)
    ensures Catalog(FlexibleOf(activities), h)
  {
  }

  lemma {:induction false} FixedLength(activities: set<Activity>, h: Horizon)
    requires Catalog(activities, h)
    ensures |FixedSequence(activities, h)| == |FixedOf(activities)|
  {
  }

  lemma {:induction false} WaitingCouldGo(activities: set<Activity>, h: Horizon, ps: seq<Placement>, k: nat, a: Activity, t: Instant)
    requires Catalog(activities, h) && Sound(ps, activities, h) && k <= |ps| && a in activities && a.flexibility.Flexible?
    requires forall p :: p in ps[..k] ==> p.activity != a
    requires forall d :: d in a.dependencies ==> exists p :: p in ps[..k] && p.activity.id == d
    requires Feasible(a, h, ps[..k], t)
    ensures CouldGo(a, FlexibleOf(activities), h, IdsOf(activities), ps[..k], t)
  {
    var before := ps[..k];
    forall p | p in before
      ensures p.activity in activities && p.activity.id != a.id && p.activity.id in IdsOf(activities)
    {
      assert p in ps && WellPlaced(p, activities, h);
    }
  }
}
