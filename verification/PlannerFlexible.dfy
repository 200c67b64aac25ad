/** Greedy placement of the flexible activities. `Flex` is the outcome as a function of the
    SET of activities still to place; the method works on a list in request order. */
module PlannerFlexible {
  import opened Options
  import opened Ordering
  import opened PlannerModel
  import opened PlannerPlacement
  import opened PlannerFixed

  datatype Reason = FixedConflict | MissingDependency | DependencyUnscheduled | NoCapacity

  datatype Unscheduled = Unscheduled(activityId: string, reason: Reason, blocking: seq<string>)

  datatype FlexResult = FlexResult(placements: seq<Placement>, unscheduled: seq<Unscheduled>)

  function ChoiceKey(p: Placement): Key { Key(-p.score.total, p.startsAt, p.activity.id) }

  predicate DependsOnlyOn(a: Activity, ids: set<string>)
  {
    forall d :: d in a.dependencies ==> d in ids
  }

  lemma {:induction false} DependsOnPlaced(a: Activity, ps: seq<Placement>)
    ensures DependsOnlyOn(a, PlacedIds(ps)) <==> DependenciesPlaced(a, ps)
  {
  }

  ghost function Selected(s: set<Activity>, ids: set<string>, within: bool): set<Activity>
  {
    set a | a in s && DependsOnlyOn(a, ids) == within
  }

  ghost function FlexibleOf(activities: set<Activity>): set<Activity>
  {
    set a | a in activities && !IsFixed(a)
  }

  ghost function IdsOf(s: set<Activity>): set<string>
  {
    set a | a in s :: a.id
  }

  lemma {:induction false} ActivityKeyInjective(s: set<Activity>, h: Horizon)
    requires Catalog(s, h)
    ensures InjectiveOn(ActivityKey, s)
  {
  }

  lemma {:induction false} TextKeyInjective(s: set<string>)
    ensures InjectiveOn(TextKey, s)
  {
  }

  /** Which dependencies are reported as blocking: none when there was simply no room. */
  ghost function Blocking(a: Activity, reason: Reason, known: set<string>): seq<string>
  {
    TextKeyInjective(Elements(a.dependencies) - known);
    if reason.NoCapacity? then [] else SortedOf(TextKey, Elements(a.dependencies) - known)
  }

  ghost function ReportAll(xs: seq<Activity>, reason: Reason, known: set<string>): (r: seq<Unscheduled>)
    ensures |r| == |xs| && forall i :: 0 <= i < |xs| ==> r[i] == Unscheduled(xs[i].id, reason, Blocking(xs[i], reason, known))
  {
    seq(|xs|, i requires 0 <= i < |xs| => Unscheduled(xs[i].id, reason, Blocking(xs[i], reason, known)))
  }

  ghost function Report(s: set<Activity>, h: Horizon, reason: Reason, known: set<string>): seq<Unscheduled>
    requires Catalog(s, h)
  {
    ActivityKeyInjective(s, h);
    ReportAll(SortedOf(ActivityKey, s), reason, known)
  }

  /** The best slot of every eligible activity that has one. */
  ghost function Candidates(s: set<Activity>, h: Horizon, ps: seq<Placement>): set<Placement>
    requires Catalog(s, h)
  {
    set a | a in s && Best(a, h, ps).Some? :: Best(a, h, ps).value
  }

  lemma {:induction false} ChoiceKeyInjective(s: set<Activity>, h: Horizon, ps: seq<Placement>)
    requires Catalog(s, h)
    ensures InjectiveOn(ChoiceKey, Candidates(s, h, ps))
  {
  }

  ghost function Choose(s: set<Activity>, h: Horizon, ps: seq<Placement>): (p: Placement)
    requires Catalog(s, h) && Candidates(s, h, ps) != {}
    ensures p in Candidates(s, h, ps)
    ensures p.activity in s && Best(p.activity, h, ps) == Some(p)
  {
    ChoiceKeyInjective(s, h, ps);
    Least(ChoiceKey, Candidates(s, h, ps))
  }

  /** The activity chosen and where it goes, against every minute every other eligible
      activity could have had: none scores higher, among equal scores none starts earlier,
      and among equal starts none has a lesser identifier. */
  lemma {:induction false} ChooseOutranks(s: set<Activity>, h: Horizon, ps: seq<Placement>, a: Activity, t: Instant)
    requires Catalog(s, h) && a in s && Feasible(a, h, ps, t)
    ensures Candidates(s, h, ps) != {}
    ensures var p := Choose(s, h, ps);
            && Total(a, h, t) <= p.score.total
            && (Total(a, h, t) == p.score.total ==> p.startsAt <= t)
            && (Total(a, h, t) == p.score.total && p.startsAt == t ==>
                  p.activity == a || TextBefore(p.activity.id, a.id))
  {
    hide Feasible;
    assert Best(a, h, ps).Some?;
    var c := Best(a, h, ps).value;
    assert c in Candidates(s, h, ps);
    var p := Choose(s, h, ps);
    assert Total(a, h, t) <= c.score.total;
    assert t < c.startsAt ==> Total(a, h, t) < c.score.total;
    assert p == c || Before(ChoiceKey(p), ChoiceKey(c)) by {
      ChoiceKeyInjective(s, h, ps);
    }
  }

  /** `p` scores higher than `a` at `t`, or as high and starts earlier, or also starts then
      and has the lesser identifier or is it. */
  ghost predicate Outranks(p: Placement, a: Activity, h: Horizon, t: Instant)
    requires a.id in h.dependents
  {
    || Total(a, h, t) < p.score.total
    || (Total(a, h, t) == p.score.total && p.startsAt < t)
    || (Total(a, h, t) == p.score.total && p.startsAt == t && (p.activity == a || TextBefore(p.activity.id, a.id)))
  }

  /** The placement a round appends outranks every minute that any activity whose turn it is could
      have had; without one there was no such minute. */
  ghost predicate PicksBest(s: set<Activity>, h: Horizon, known: set<string>, ps: seq<Placement>, placements: seq<Placement>)
    requires Catalog(s, h)
  {
    && ps <= placements && |placements| <= |ps| + 1
    && forall a, t :: a in s && DependsOnlyOn(a, known) && DependsOnlyOn(a, PlacedIds(ps)) && Feasible(a, h, ps, t) ==>
         placements != ps && Outranks(placements[|ps|], a, h, t)
  }

  lemma {:induction false} RoundPicks(s: set<Activity>, eligible: set<Activity>, h: Horizon, known: set<string>, ps: seq<Placement>)
    requires Catalog(s, h) && eligible == Selected(s - Selected(s, known, false), PlacedIds(ps), true) && Catalog(eligible, h)
    ensures Candidates(eligible, h, ps) != {} ==> PicksBest(s, h, known, ps, ps + [Choose(eligible, h, ps)])
    ensures Candidates(eligible, h, ps) == {} ==> PicksBest(s, h, known, ps, ps)
  {
    EligibleOutranked(s, eligible, h, known, ps);
    hide Candidates, Choose, Outranks, Feasible, DependsOnlyOn, Selected, PlacedIds;
  }

  lemma {:induction false} EligibleOutranked(s: set<Activity>, eligible: set<Activity>, h: Horizon, known: set<string>, ps: seq<Placement>)
    requires Catalog(s, h) && eligible == Selected(s - Selected(s, known, false), PlacedIds(ps), true) && Catalog(eligible, h)
    ensures forall a, t :: a in s && DependsOnlyOn(a, known) && DependsOnlyOn(a, PlacedIds(ps)) && Feasible(a, h, ps, t) ==>
              Candidates(eligible, h, ps) != {} && Outranks(Choose(eligible, h, ps), a, h, t)
  {
    forall a, t | a in s && DependsOnlyOn(a, known) && DependsOnlyOn(a, PlacedIds(ps)) && Feasible(a, h, ps, t)
      ensures Candidates(eligible, h, ps) != {} && Outranks(Choose(eligible, h, ps), a, h, t)
    {
      assert a in eligible;
      ChooseOutranks(eligible, h, ps, a, t);
    }
  }

  /** The same of the candidates themselves, which hold each activity's best minute. */
  lemma {:induction false} ChooseIsBest(s: set<Activity>, h: Horizon, ps: seq<Placement>, c: Placement)
    requires Catalog(s, h) && c in Candidates(s, h, ps)
    ensures var p := Choose(s, h, ps);
            && c.score.total <= p.score.total
            && (c.score.total == p.score.total ==> p.startsAt <= c.startsAt)
            && (c.score.total == p.score.total && p.startsAt == c.startsAt ==>
                  p == c || TextBefore(p.activity.id, c.activity.id))
  {
    ChoiceKeyInjective(s, h, ps);
  }

  ghost function Resume(reported: seq<Unscheduled>, later: FlexResult): FlexResult
  {
    FlexResult(later.placements, reported + later.unscheduled)
  }

  /** Rounds of: report those with an unknown dependency; place the best-scoring eligible
      activity; failing that, give up on the eligible ones; failing that, on all. */
  ghost function Flex(s: set<Activity>, h: Horizon, known: set<string>, ps: seq<Placement>): FlexResult
    requires Catalog(s, h)
    decreases |s|
  {
    if s == {} then FlexResult(ps, [])
    else
      var missing := Selected(s, known, false);
      var rest := s - missing;
      var reported := Report(missing, h, MissingDependency, known);
      var eligible := Selected(rest, PlacedIds(ps), true);
      if Candidates(eligible, h, ps) != {} then
        var chosen := Choose(eligible, h, ps);
        SmallerSet(rest - {chosen.activity}, s, chosen.activity);
        Resume(reported, Flex(rest - {chosen.activity}, h, known, ps + [chosen]))
      else if eligible != {} then
        var a :| a in eligible;
        SmallerSet(rest - eligible, s, a);
        Resume(reported + Report(eligible, h, NoCapacity, {}), Flex(rest - eligible, h, known, ps))
      else
        Resume(reported + Report(rest, h, DependencyUnscheduled, PlacedIds(ps)), FlexResult(ps, []))
  }

  lemma {:induction false} SmallerSet<T>(small: set<T>, big: set<T>, x: T)
    requires small <= big && x in big && x !in small
    ensures |small| < |big|
  {
    assert |big| == |small| + |big - small|;
    assert x in big - small;
  }

  // ------------------------------------------------------- the loop over a list

  /** Putting back the head of a list in front of a selection of its tail. */
  lemma {:induction false} ConsSelected(xs: seq<Activity>, rest: seq<Activity>)
    requires xs != [] && DistinctIds(xs) && DistinctIds(rest) && Elements(rest) <= Elements(xs[1..])
    ensures DistinctIds([xs[0]] + rest) && Elements([xs[0]] + rest) == Elements(rest) + {xs[0]}
  {
    forall k | 0 <= k < |rest|
      ensures rest[k].id != xs[0].id
    {
      assert rest[k] in Elements(rest);
    }
    assert forall a :: a in [xs[0]] + rest <==> a == xs[0] || a in rest;
  }

  function FlexibleIn(xs: seq<Activity>): (r: seq<Activity>)
    requires DistinctIds(xs)
    ensures Elements(r) == FlexibleOf(Elements(xs))
    ensures DistinctIds(r)
  {
    if xs == [] then []
    else
      assert xs == [xs[0]] + xs[1..];
      var rest := FlexibleIn(xs[1..]);
      if IsFixed(xs[0]) then rest
      else
        ConsSelected(xs, rest);
        [xs[0]] + rest
  }

  function Select(xs: seq<Activity>, ids: set<string>, within: bool): (r: seq<Activity>)
    requires DistinctIds(xs)
    ensures Elements(r) == Selected(Elements(xs), ids, within)
    ensures DistinctIds(r)
  {
    if xs == [] then []
    else
      assert xs == [xs[0]] + xs[1..];
      var rest := Select(xs[1..], ids, within);
      if DependsOnlyOn(xs[0], ids) == within then
        ConsSelected(xs, rest);
        [xs[0]] + rest
      else rest
  }

  /** Deletion from the table of activities still to place. */
  function Without(xs: seq<Activity>, gone: seq<Activity>): (r: seq<Activity>)
    requires DistinctIds(xs)
    ensures Elements(r) == Elements(xs) - Elements(gone)
    ensures DistinctIds(r)
    ensures |r| <= |xs| && (|r| == |xs| ==> r == xs)
  {
    if xs == [] then []
    else
      assert xs == [xs[0]] + xs[1..];
      var rest := Without(xs[1..], gone);
      if xs[0] in gone then rest
      else
        ConsSelected(xs, rest);
        [xs[0]] + rest
  }

  lemma {:induction false} WithoutShrinks(xs: seq<Activity>, gone: seq<Activity>, a: Activity)
    requires DistinctIds(xs) && a in xs && a in gone
    ensures |Without(xs, gone)| < |xs|
  {
    assert a !in Elements(Without(xs, gone));
  }

  function Difference(xs: seq<string>, known: set<string>): (r: seq<string>)
    ensures Elements(r) == Elements(xs) - known
    ensures forall i, j :: 0 <= i < j < |r| ==> r[i] != r[j]
  {
    if xs == [] then []
    else
      assert xs == [xs[0]] + xs[1..];
      var rest := Difference(xs[1..], known);
      assert forall x :: x in rest <==> x in Elements(rest);
      if xs[0] in known || xs[0] in rest then rest
      else
        assert forall x :: x in [xs[0]] + rest <==> x == xs[0] || x in rest;
        [xs[0]] + rest
  }

  function ReportOne(a: Activity, reason: Reason, known: set<string>): (r: Unscheduled)
    ensures r == Unscheduled(a.id, reason, Blocking(a, reason, known))
  {
    var unknown := Difference(a.dependencies, known);
    SortIsSortedOf(TextKey, unknown, Elements(a.dependencies) - known);
    Unscheduled(a.id, reason, if reason.NoCapacity? then [] else Sort(TextKey, unknown))
  }

  method ReportEach(xs: seq<Activity>, reason: Reason, known: set<string>) returns (r: seq<Unscheduled>)
    ensures r == ReportAll(xs, reason, known)
  {
    hide Blocking, ReportOne;
    r := [];
    for i := 0 to |xs|
      invariant |r| == i
      invariant forall j :: 0 <= j < i ==> r[j] == Unscheduled(xs[j].id, reason, Blocking(xs[j], reason, known))
    {
      r := r + [ReportOne(xs[i], reason, known)];
    }
  }

  lemma {:induction false} SortedActivities(xs: seq<Activity>, h: Horizon)
    requires DistinctIds(xs) && Catalog(Elements(xs), h)
    ensures InjectiveOn(ActivityKey, Elements(xs))
    ensures Sort(ActivityKey, xs) == SortedOf(ActivityKey, Elements(xs))
  {
    assert DistinctKeys(ActivityKey, xs);
    SortIsSortedOf(ActivityKey, xs, Elements(xs));
  }

  /** Sorts by identifier and reports; independent of the order of `xs`. */
  method ReportSorted(xs: seq<Activity>, h: Horizon, reason: Reason, known: set<string>) returns (r: seq<Unscheduled>)
    requires DistinctIds(xs) && Catalog(Elements(xs), h)
    ensures r == Report(Elements(xs), h, reason, known)
  {
    SortedActivities(xs, h);
    r := ReportEach(Sort(ActivityKey, xs), reason, known);
  }

  /** The best slot of each listed activity that has one, in list order. */
  method CollectCandidates(xs: seq<Activity>, h: Horizon, ps: seq<Placement>) returns (found: seq<Placement>)
    requires Catalog(Elements(xs), h)
    ensures Elements(found) == Candidates(Elements(xs), h, ps)
  {
    found := [];
    for i := 0 to |xs|
      invariant forall p :: p in found <==> exists j :: 0 <= j < i && Best(xs[j], h, ps) == Some(p)
    {
      assert xs[i] in Elements(xs);
      var best := BestPlacement(xs[i], h, ps);
      BestIsUnique(xs[i], h, ps, best, Best(xs[i], h, ps));
      if best.Some? {
        found := found + [best.value];
      }
    }
    assert forall p :: p in Candidates(Elements(xs), h, ps) <==>
      exists j :: 0 <= j < |xs| && Best(xs[j], h, ps) == Some(p);
  }

  /** Python's `min` over the candidates by score, start and identifier. */
  method ChooseLeast(found: seq<Placement>) returns (chosen: Placement)
    requires found != [] && InjectiveOn(ChoiceKey, Elements(found))
    ensures Elements(found) != {} && chosen == Least(ChoiceKey, Elements(found))
  {
    chosen := found[0];
    for i := 1 to |found|
      invariant chosen in found[..i]
      invariant forall j :: 0 <= j < i && found[j] != chosen ==> Before(ChoiceKey(chosen), ChoiceKey(found[j]))
    {
      BeforeTotal(ChoiceKey(found[i]), ChoiceKey(chosen));
      assert found[i] in Elements(found) && chosen in Elements(found);
      if Before(ChoiceKey(found[i]), ChoiceKey(chosen)) {
        forall j | 0 <= j < i
          ensures Before(ChoiceKey(found[i]), ChoiceKey(found[j]))
        {
          if found[j] != chosen {
            BeforeTransitive(ChoiceKey(found[i]), ChoiceKey(chosen), ChoiceKey(found[j]));
          }
        }
        chosen := found[i];
      }
    }
    assert found[0] in Elements(found);
    ghost var least := Least(ChoiceKey, Elements(found));
    assert least in found && chosen in Elements(found);
    if least != chosen {
      BeforeAsymmetric(ChoiceKey(least), ChoiceKey(chosen));
    }
  }

  lemma {:induction false} FlexPlaces(s: set<Activity>, h: Horizon, known: set<string>, ps: seq<Placement>,
                   missing: set<Activity>, eligible: set<Activity>)
    requires Catalog(s, h) && missing == Selected(s, known, false)
    requires eligible == Selected(s - missing, PlacedIds(ps), true) && Candidates(eligible, h, ps) != {}
    ensures var chosen := Choose(eligible, h, ps);
            Flex(s, h, known, ps) ==
            Resume(Report(missing, h, MissingDependency, known),
                   Flex(s - missing - {chosen.activity}, h, known, ps + [chosen]))
  {
    var chosen := Choose(eligible, h, ps);
    assert chosen.activity in s;
  }

  lemma {:induction false} FlexGivesUp(s: set<Activity>, h: Horizon, known: set<string>, ps: seq<Placement>,
                    missing: set<Activity>, eligible: set<Activity>)
    requires Catalog(s, h) && missing == Selected(s, known, false)
    requires eligible == Selected(s - missing, PlacedIds(ps), true) && Candidates(eligible, h, ps) == {}
    requires eligible != {}
    ensures Flex(s, h, known, ps) ==
            Resume(Report(missing, h, MissingDependency, known) + Report(eligible, h, NoCapacity, {}),
                   Flex(s - missing - eligible, h, known, ps))
  {
    assert s != {};
  }

  lemma {:induction false} FlexStops(s: set<Activity>, h: Horizon, known: set<string>, ps: seq<Placement>, missing: set<Activity>)
    requires Catalog(s, h) && s != {} && missing == Selected(s, known, false)
    requires Selected(s - missing, PlacedIds(ps), true) == {}
    ensures Flex(s, h, known, ps) ==
            Resume(Report(missing, h, MissingDependency, known)
                   + Report(s - missing, h, DependencyUnscheduled, PlacedIds(ps)), Flex({}, h, known, ps))
  {
    assert Candidates({}, h, ps) == {};
  }

  /** Places the best of the candidates found and takes it off the list. */
  method PlaceOne(rest: seq<Activity>, ghost eligible: set<Activity>, found: seq<Placement>,
                  h: Horizon, ps: seq<Placement>, scheduled: set<string>)
    returns (left: seq<Activity>, placements: seq<Placement>, ids: set<string>)
    requires DistinctIds(rest) && eligible <= Elements(rest) && Catalog(eligible, h)
    requires found != [] && Elements(found) == Candidates(eligible, h, ps) && scheduled == PlacedIds(ps)
    ensures Candidates(eligible, h, ps) != {} && placements == ps + [Choose(eligible, h, ps)]
    ensures ids == PlacedIds(placements)
    ensures DistinctIds(left) && |left| < |rest|
    ensures Elements(left) == Elements(rest) - {Choose(eligible, h, ps).activity}
  {
    assert found[0] in Elements(found);
    ChoiceKeyInjective(eligible, h, ps);
    var chosen := ChooseLeast(found);
    placements := ps + [chosen];
    ids := scheduled + {chosen.activity.id};
    PlacedIdsGrow(ps, chosen);
    left := Without(rest, [chosen.activity]);
    assert Elements([chosen.activity]) == {chosen.activity};
    WithoutShrinks(rest, [chosen.activity], chosen.activity);
  }

  /** One round of the loop. */
  method Round(flexible: seq<Activity>, h: Horizon, known: set<string>, ps: seq<Placement>, scheduled: set<string>)
    returns (left: seq<Activity>, placements: seq<Placement>, ids: set<string>, reported: seq<Unscheduled>)
    requires flexible != [] && DistinctIds(flexible) && Catalog(Elements(flexible), h)
    requires scheduled == PlacedIds(ps)
    ensures DistinctIds(left) && Elements(left) <= Elements(flexible) && |left| < |flexible|
    ensures ids == PlacedIds(placements)
    ensures Flex(Elements(flexible), h, known, ps) == Resume(reported, Flex(Elements(left), h, known, placements))
    ensures PicksBest(Elements(flexible), h, known, ps, placements)
  {
    hide PicksBest, Candidates, Blocking, Flex, Resume, DependsOnlyOn, PlacedIds;
    var missing := Select(flexible, known, false);
    reported := ReportSorted(missing, h, MissingDependency, known);
    var rest := Without(flexible, missing);
    var eligible := Select(rest, scheduled, true);
    var found := CollectCandidates(eligible, h, ps);
    ghost var s, turn := Elements(flexible), Elements(eligible);
    assert turn == Selected(s - Selected(s, known, false), PlacedIds(ps), true);
    PartOfCatalog(turn, s, h);
    RoundPicks(s, turn, h, known, ps);
    if found != [] {
      left, placements, ids := PlaceOne(rest, Elements(eligible), found, h, ps, scheduled);
      FlexPlaces(Elements(flexible), h, known, ps, Elements(missing), Elements(eligible));
      return;
    }
    placements, ids := ps, scheduled;
    assert Elements(found) == {};
    if eligible != [] {
      assert eligible[0] in Elements(eligible);
      FlexGivesUp(Elements(flexible), h, known, ps, Elements(missing), Elements(eligible));
      var full := ReportSorted(eligible, h, NoCapacity, {});
      WithoutShrinks(rest, eligible, eligible[0]);
      left := Without(rest, eligible);
      reported := reported + full;
      return;
    }
    assert flexible[0] in Elements(flexible) && Elements(eligible) == {};
    FlexStops(Elements(flexible), h, known, ps, Elements(missing));
    var blocked := ReportSorted(rest, h, DependencyUnscheduled, scheduled);
    reported := reported + blocked;
    left := [];
    assert Elements(left) == {};
  }

  lemma {:induction false} PlacedIdsGrow(ps: seq<Placement>, p: Placement)
    ensures PlacedIds(ps + [p]) == PlacedIds(ps) + {p.activity.id}
  {
    assert forall q :: q in ps + [p] <==> q in ps || q == p;
  }

  method PlaceFlexible(activities: seq<Activity>, h: Horizon, fixed: seq<Placement>)
    returns (placements: seq<Placement>, unscheduled: seq<Unscheduled>)
    requires DistinctIds(activities) && Catalog(Elements(activities), h)
    ensures FlexResult(placements, unscheduled) ==
            Flex(FlexibleOf(Elements(activities)), h, IdsOf(Elements(activities)), fixed)
  {
    var flexible := FlexibleIn(activities);
    var known := set a | a in activities :: a.id;
    assert known == IdsOf(Elements(activities));
    hide Flex, Catalog, Resume;
    ResumeFirst(Flex(FlexibleOf(Elements(activities)), h, known, fixed));
    var scheduled := set p | p in fixed :: p.activity.id;
    placements, unscheduled := fixed, [];
    ghost var goal := Flex(FlexibleOf(Elements(activities)), h, known, fixed);
    while flexible != []
      invariant DistinctIds(flexible) && Elements(flexible) <= Elements(activities) && Catalog(Elements(flexible), h)
      invariant scheduled == PlacedIds(placements)
      invariant goal == Resume(unscheduled, Flex(Elements(flexible), h, known, placements))
      decreases |flexible|
    {
      ghost var seen := unscheduled;
      var reported;
      flexible, placements, scheduled, reported := Round(flexible, h, known, placements, scheduled);
      PartOfCatalog(Elements(flexible), Elements(activities), h);
      unscheduled := unscheduled + reported;
      ResumeTwice(seen, reported, Flex(Elements(flexible), h, known, placements));
    }
    assert Elements(flexible) == {};
    FlexOfNone(h, known, placements);
    ResumeNone(unscheduled, placements);
  }

  lemma {:induction false} PartOfCatalog(s: set<Activity>, t: set<Activity>, h: Horizon)
    requires Catalog(t, h) && s <= t
    ensures Catalog(s, h)
  {
  }

  lemma {:induction false} ResumeFirst(r: FlexResult)
    ensures Resume([], r) == r
  {
  }

  lemma {:induction false} ResumeTwice(seen: seq<Unscheduled>, reported: seq<Unscheduled>, r: FlexResult)
    ensures Resume(seen, Resume(reported, r)) == Resume(seen + reported, r)
  {
    assert seen + (reported + r.unscheduled) == seen + reported + r.unscheduled;
  }

  lemma {:induction false} ResumeNone(seen: seq<Unscheduled>, ps: seq<Placement>)
    ensures Resume(seen, FlexResult(ps, [])) == FlexResult(ps, seen)
  {
  }

  lemma {:induction false} FlexOfNone(h: Horizon, known: set<string>, ps: seq<Placement>)
    ensures Flex({}, h, known, ps) == FlexResult(ps, [])
  {
  }
}
