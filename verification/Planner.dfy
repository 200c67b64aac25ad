/** `propose_day`: the stages in sequence with their refusals. The result is shown to be a
    function of the set of activities, whatever order the request lists them in. */
module Planner {
  import opened Options
  import opened Ordering
  import opened PlannerModel
  import opened PlannerPlacement
  import opened PlannerFixed
  import opened PlannerFlexible
  import opened PlannerSchedule
  import opened PlannerTiling
  import opened PlannerProjection
  import opened PlannerDiff
  import opened PlannerDay
  import opened PlannerExplanation

  datatype Status = FeasiblePlan | PartialPlan | InfeasiblePlan

  datatype ProposedDay = ProposedDay(
    status: Status,
    plan: seq<PlanBlock>,
    calendar: seq<CalendarBlock>,
    explanations: seq<Explanation>,
    unscheduled: seq<Unscheduled>,
    diff: PlanDiff)

  datatype Proposal = Stale(expected: int, current: int) | Proposed(day: ProposedDay)

  lemma {:induction false} RequestCatalog(r: Request)
    requires ValidRequest(r)
    ensures Catalog(Elements(r.activities), HorizonOf(r))
  {
    forall a, b | a in r.activities && b in r.activities && a.id == b.id
      ensures a == b
    {
      var i :| 0 <= i < |r.activities| && r.activities[i] == a;
      var j :| 0 <= j < |r.activities| && r.activities[j] == b;
    }
  }

  /** Each conflicting activity, blocked by the others. */
  ghost function ConflictReports(ids: set<string>): (us: seq<Unscheduled>)
  {
    TextKeyInjective(ids);
    var sorted := SortedOf(TextKey, ids);
    seq(|sorted|, i requires 0 <= i < |sorted| => ConflictReport(sorted[i], ids))
  }

  ghost function ConflictReport(id: string, ids: set<string>): Unscheduled
  {
    TextKeyInjective(ids - {id});
    Unscheduled(id, FixedConflict, SortedOf(TextKey, ids - {id}))
  }

  /** When a fixed activity lacks a prerequisite every activity is rejected. */
  ghost function RejectAll(activities: seq<Activity>, broken: set<string>): (us: seq<Unscheduled>)
    ensures |us| == |activities|
  {
    TextKeyInjective(broken);
    seq(|activities|, i requires 0 <= i < |activities| =>
      Unscheduled(activities[i].id, DependencyUnscheduled, SortedOf(TextKey, broken)))
  }

  function StatusOf(placements: seq<Placement>, unscheduled: seq<Unscheduled>): Status
  {
    if unscheduled == [] then FeasiblePlan else if placements != [] then PartialPlan else InfeasiblePlan
  }

  /** Every activity is placed or reported, so that each can be explained. */
  ghost predicate AllExplainable(outcome: Outcome, activities: seq<Activity>)
  {
    outcome.Planned? ==> forall a :: a in activities ==> Explainable(a, outcome.placements, outcome.unscheduled)
  }

  lemma {:induction false} OutcomeExplainable(activities: seq<Activity>, h: Horizon)
    requires Catalog(Elements(activities), h)
    ensures AllExplainable(Schedule(Elements(activities), h), activities)
  {
    hide Schedule, Catalog;
    if Schedule(Elements(activities), h).Planned? {
      PlanPartitions(Elements(activities), h);
      forall a | a in activities
        ensures a.id in IdsOf(Elements(activities))
      {
        assert a in Elements(activities);
      }
    }
  }

  ghost function DayOf(outcome: Outcome, activities: seq<Activity>, h: Horizon, baseline: seq<BaselineBlock>): ProposedDay
  {
    match outcome
    case FixedConflicting(ids) =>
      ProposedDay(InfeasiblePlan, [], [], ExplainConflicts(activities, ids, h), ConflictReports(ids), BuildDiff(baseline, []))
    case DependenciesBroken(ids) =>
      ProposedDay(InfeasiblePlan, [], [], ExplainAll(activities, h, []), RejectAll(activities, ids), BuildDiff(baseline, []))
    case Planned(ps, us) =>
      ProposedDay(StatusOf(ps, us), InternalPlan(ps, h), CalendarOf(ps, h), ExplainAll(activities, h, ps), us,
                  BuildDiff(baseline, InternalPlan(ps, h)))
  }

  ghost function Propose(r: Request): Proposal
    requires ValidRequest(r)
  {
    RequestCatalog(r);
    if r.expectedRevision != r.stateRevision then Stale(r.expectedRevision, r.stateRevision)
    else Proposed(DayOf(Schedule(Elements(r.activities), HorizonOf(r)), r.activities, HorizonOf(r), r.baseline))
  }

  ghost predicate AllDifferent(r: seq<string>)
  {
    forall i, j :: 0 <= i < j < |r| ==> r[i] != r[j]
  }

  lemma {:induction false} OneMore(r: seq<string>, x: string)
    requires AllDifferent(r) && x !in Elements(r)
    ensures AllDifferent(r + [x]) && Elements(r + [x]) == Elements(r) + {x}
  {
    assert forall i :: 0 <= i < |r| ==> r[i] in Elements(r);
    assert forall y :: y in r + [x] <==> y in Elements(r) || y == x;
  }

  /** Python's `sorted(s)` on a set of texts. */
  method SortSet(s: set<string>) returns (r: seq<string>)
    ensures InjectiveOn(TextKey, s) && r == SortedOf(TextKey, s)
  {
    r := [];
    var left := s;
    while left != {}
      invariant AllDifferent(r)
      invariant Elements(r) + left == s && Elements(r) !! left
      decreases |left|
    {
      var x :| x in left;
      OneMore(r, x);
      r := r + [x];
      left := left - {x};
    }
    SortIsSortedOf(TextKey, r, s);
    r := Sort(TextKey, r);
  }

  lemma {:induction false} ConflictReportIs(id: string, ids: set<string>, others: seq<string>)
    requires InjectiveOn(TextKey, ids - {id}) && others == SortedOf(TextKey, ids - {id})
    ensures ConflictReport(id, ids) == Unscheduled(id, FixedConflict, others)
  {
  }

  method ReportConflicts(ids: set<string>) returns (us: seq<Unscheduled>)
    ensures us == ConflictReports(ids)
  {
    hide SortedOf, InjectiveOn, ConflictReport;
    var sorted := SortSet(ids);
    us := [];
    for i := 0 to |sorted|
      invariant |us| == i
      invariant forall j :: 0 <= j < i ==> us[j] == ConflictReport(sorted[j], ids)
    {
      var others := SortSet(ids - {sorted[i]});
      ConflictReportIs(sorted[i], ids, others);
      us := us + [Unscheduled(sorted[i], FixedConflict, others)];
    }
  }

  method RejectEvery(activities: seq<Activity>, broken: set<string>) returns (us: seq<Unscheduled>)
    ensures us == RejectAll(activities, broken)
  {
    hide SortedOf, InjectiveOn;
    var blocking := SortSet(broken);
    us := [];
    for i := 0 to |activities|
      invariant |us| == i
      invariant forall j :: 0 <= j < i ==> us[j] == Unscheduled(activities[j].id, DependencyUnscheduled, blocking)
    {
      us := us + [Unscheduled(activities[i].id, DependencyUnscheduled, blocking)];
    }
  }

  /** Fixed reservations, flexible placement, then the check of the fixed dependencies. */
  method ComputeSchedule(activities: seq<Activity>, h: Horizon) returns (outcome: Outcome)
    requires DistinctIds(activities) && Catalog(Elements(activities), h)
    ensures outcome == Schedule(Elements(activities), h)
  {
    var fixed := PlaceFixed(activities, h);
    if fixed.Conflicting? {
      return FixedConflicting(fixed.ids);
    }
    var placements, unscheduled := PlaceFlexible(activities, h, fixed.placements);
    var broken := InvalidDependencies(placements);
    if broken != {} {
      return DependenciesBroken(broken);
    }
    return Planned(placements, unscheduled);
  }

  lemma {:induction false} RejectedExplainable(activities: seq<Activity>, broken: set<string>)
    ensures forall a :: a in activities ==> Explainable(a, [], RejectAll(activities, broken))
  {
    var us := RejectAll(activities, broken);
    forall a | a in activities
      ensures a.id in ReportedIds(us)
    {
      var i :| 0 <= i < |activities| && activities[i] == a;
      assert us[i].activityId == a.id;
    }
  }

  /** The proposal for each outcome; a refusal carries no plan. */
  method RenderDay(outcome: Outcome, activities: seq<Activity>, h: Horizon, baseline: seq<BaselineBlock>) returns (day: ProposedDay)
    requires AllExplainable(outcome, activities)
    ensures day == DayOf(outcome, activities, h, baseline)
  {
    hide InternalPlan, CalendarOf, ExplainConflicts, ExplainAll, BuildDiff, ConflictReports, RejectAll;
    match outcome {
      case FixedConflicting(ids) =>
        var explanations := ExplainEachConflict(activities, ids, h);
        var reports := ReportConflicts(ids);
        var diff := ComputeDiff(baseline, []);
        day := ProposedDay(InfeasiblePlan, [], [], explanations, reports, diff);
      case DependenciesBroken(ids) =>
        var rejected := RejectEvery(activities, ids);
        RejectedExplainable(activities, ids);
        var explanations := ExplainEach(activities, h, [], rejected);
        var diff := ComputeDiff(baseline, []);
        day := ProposedDay(InfeasiblePlan, [], [], explanations, rejected, diff);
      case Planned(ps, us) =>
        var plan := BuildInternalPlan(ps, h);
        var explanations := ExplainEach(activities, h, ps, us);
        var calendar := ProjectCalendar(plan);
        CalendarOfPlan(ps, h);
        var diff := ComputeDiff(baseline, plan);
        day := ProposedDay(StatusOf(ps, us), plan, calendar, explanations, us, diff);
    }
  }

  lemma {:induction false} CalendarOfPlan(ps: seq<Placement>, h: Horizon)
    ensures CalendarOf(ps, h) == Project(EligibleOf(InternalPlan(ps, h)))
  {
  }

  method ProposeDay(r: Request) returns (proposal: Proposal)
    requires ValidRequest(r)
    ensures proposal == Propose(r)
  {
    hide DayOf, Schedule;
    if r.expectedRevision != r.stateRevision {
      return Stale(r.expectedRevision, r.stateRevision);
    }
    RequestCatalog(r);
    OutcomeExplainable(r.activities, HorizonOf(r));
    var outcome := ComputeSchedule(r.activities, HorizonOf(r));
    var day := RenderDay(outcome, r.activities, HorizonOf(r), r.baseline);
    return Proposed(day);
  }

  // ---------------------------------------------------------- order independence

  lemma {:induction false} PermutedHorizon(r: Request, s: Request)
    requires ValidRequest(r) && ValidRequest(s)
    requires s == r.(activities := s.activities) && multiset(r.activities) == multiset(s.activities)
    ensures Elements(r.activities) == Elements(s.activities) && HorizonOf(r) == HorizonOf(s)
  {
    hide CountEach, CountDependents, DependentsIn, ValidActivity;
    MembersOfMultiset(r.activities, s.activities);
    assert Elements(r.activities) == Elements(s.activities);
    forall a | a in r.activities
      ensures CountDependents(r.activities, a.id) == CountDependents(s.activities, a.id)
    {
      CountDependentsIsCardinality(r.activities, a.id);
      CountDependentsIsCardinality(s.activities, a.id);
    }
    var m, n := HorizonOf(r).dependents, HorizonOf(s).dependents;
    assert m.Keys == n.Keys;
    forall id | id in m
      ensures m[id] == n[id]
    {
      var a :| a in r.activities && a.id == id;
      assert m[a.id] == CountDependents(r.activities, a.id);
      assert n[a.id] == CountDependents(s.activities, a.id);
    }
    assert m == n;
  }

  lemma {:induction false} RejectAllPermuted(xs: seq<Activity>, ys: seq<Activity>, broken: set<string>)
    requires multiset(xs) == multiset(ys)
    ensures Elements(RejectAll(xs, broken)) == Elements(RejectAll(ys, broken))
  {
    MembersOfMultiset(xs, ys);
    RejectMembers(xs, ys, broken);
    RejectMembers(ys, xs, broken);
  }

  lemma {:induction false} RejectMembers(xs: seq<Activity>, ys: seq<Activity>, broken: set<string>)
    requires forall a :: a in xs ==> a in ys
    ensures Elements(RejectAll(xs, broken)) <= Elements(RejectAll(ys, broken))
  {
    forall u | u in RejectAll(xs, broken)
      ensures u in RejectAll(ys, broken)
    {
      var i :| 0 <= i < |xs| && RejectAll(xs, broken)[i] == u;
      assert xs[i] in ys;
      var j :| 0 <= j < |ys| && ys[j] == xs[i];
      assert RejectAll(ys, broken)[j] == u;
    }
  }

  lemma {:induction false} ExplainPermuted(xs: seq<Activity>, ys: seq<Activity>, h: Horizon, ps: seq<Placement>)
    requires multiset(xs) == multiset(ys)
    ensures Elements(ExplainAll(xs, h, ps)) == Elements(ExplainAll(ys, h, ps))
  {
    MembersOfMultiset(xs, ys);
    ExplainMembers(xs, ys, h, ps);
    ExplainMembers(ys, xs, h, ps);
  }

  lemma {:induction false} ExplainMembers(xs: seq<Activity>, ys: seq<Activity>, h: Horizon, ps: seq<Placement>)
    requires forall a :: a in xs ==> a in ys
    ensures Elements(ExplainAll(xs, h, ps)) <= Elements(ExplainAll(ys, h, ps))
  {
    hide Explain;
    forall e | e in ExplainAll(xs, h, ps)
      ensures e in ExplainAll(ys, h, ps)
    {
      var i :| 0 <= i < |xs| && ExplainAll(xs, h, ps)[i] == e;
      assert xs[i] in ys;
      var j :| 0 <= j < |ys| && ys[j] == xs[i];
      assert ExplainAll(ys, h, ps)[j] == e;
    }
  }

  lemma {:induction false} ConflictMembers(xs: seq<Activity>, ids: set<string>, h: Horizon, e: Explanation)
    ensures e in ExplainConflicts(xs, ids, h) <==> exists a :: a in xs && a.id in ids && ExplainConflict(a, h) == e
  {
    hide ExplainConflict;
    if xs != [] {
      var front, a := xs[..|xs| - 1], xs[|xs| - 1];
      ConflictMembers(front, ids, h, e);
      assert xs == front + [a];
    }
  }

  lemma {:induction false} ConflictsPermuted(xs: seq<Activity>, ys: seq<Activity>, ids: set<string>, h: Horizon)
    requires multiset(xs) == multiset(ys)
    ensures Elements(ExplainConflicts(xs, ids, h)) == Elements(ExplainConflicts(ys, ids, h))
  {
    MembersOfMultiset(xs, ys);
    forall e
      ensures e in ExplainConflicts(xs, ids, h) <==> e in ExplainConflicts(ys, ids, h)
    {
      ConflictMembers(xs, ids, h, e);
      ConflictMembers(ys, ids, h, e);
    }
  }

  /** The same day but for the order in which reports and explanations are listed. */
  ghost predicate SameDay(d: ProposedDay, e: ProposedDay)
  {
    && e == d.(unscheduled := e.unscheduled, explanations := e.explanations)
    && Elements(e.unscheduled) == Elements(d.unscheduled) && Elements(e.explanations) == Elements(d.explanations)
  }

  lemma {:induction false} DayPermuted(outcome: Outcome, xs: seq<Activity>, ys: seq<Activity>, h: Horizon, baseline: seq<BaselineBlock>)
    requires multiset(xs) == multiset(ys)
    ensures SameDay(DayOf(outcome, xs, h, baseline), DayOf(outcome, ys, h, baseline))
  {
    hide InternalPlan, CalendarOf, ExplainConflicts, ExplainAll, BuildDiff, ConflictReports, RejectAll, Elements;
    match outcome
    case FixedConflicting(ids) => ConflictsPermuted(xs, ys, ids, h);
    case DependenciesBroken(ids) =>
      RejectAllPermuted(xs, ys, ids);
      ExplainPermuted(xs, ys, h, []);
    case Planned(ps, us) => ExplainPermuted(xs, ys, h, ps);
  }

  /** Listing the same activities in another order changes neither the plan nor the calendar,
      the status, the difference, nor what is reported and explained, only the order in which. */
  lemma {:induction false} OrderIndependence(r: Request, s: Request)
    requires ValidRequest(r) && ValidRequest(s)
    requires s == r.(activities := s.activities) && multiset(r.activities) == multiset(s.activities)
    ensures Propose(r).Stale? ==> Propose(s) == Propose(r)
    ensures Propose(r).Proposed? ==> Propose(s).Proposed? && SameDay(Propose(r).day, Propose(s).day)
  {
    hide Schedule, Catalog, HorizonOf, DayOf, SameDay, Elements;
    PermutedHorizon(r, s);
    RequestCatalog(r);
    RequestCatalog(s);
    DayPermuted(Schedule(Elements(r.activities), HorizonOf(r)), r.activities, s.activities, HorizonOf(r), r.baseline);
  }

  // ----------------------------------------------------------- the proposed day

  /** Every non-empty internal plan tiles the window with positive-length blocks. */
  lemma {:induction false} NonEmptyPlanTiles(r: Request)
    requires ValidRequest(r) && Propose(r).Proposed? && Propose(r).day.plan != []
    ensures Gapless(Propose(r).day.plan, r.windowStart, r.windowEnd)
    ensures TotalMinutes(Propose(r).day.plan) == r.windowEnd - r.windowStart
  {
    hide Schedule, Catalog, Sound, InternalPlan, Gapless, TotalMinutes, Renderable, CalendarOf, BuildDiff, ExplainAll;
    RequestCatalog(r);
    var activities, h := Elements(r.activities), HorizonOf(r);
    PlanIsSound(activities, h);
    SoundIsRenderable(Schedule(activities, h).placements, activities, h);
    PlanTilesWindow(Schedule(activities, h).placements, h);
  }

  lemma {:induction false} StatusMeans(ps: seq<Placement>, us: seq<Unscheduled>, all: set<string>)
    requires PlacedIds(ps) + ReportedIds(us) == all && PlacedIds(ps) !! ReportedIds(us)
    ensures StatusOf(ps, us).FeasiblePlan? <==> PlacedIds(ps) == all
    ensures StatusOf(ps, us).PartialPlan? <==> PlacedIds(ps) != {} && PlacedIds(ps) < all
  {
    if us != [] {
      assert us[0].activityId in ReportedIds(us);
    }
    if ps != [] {
      assert ps[0].activity.id in PlacedIds(ps);
    }
  }

  ghost function OutcomeOf(r: Request): Outcome
    requires ValidRequest(r)
  {
    RequestCatalog(r);
    Schedule(Elements(r.activities), HorizonOf(r))
  }

  /** Feasible means everything is placed; partial, that something is and something is not;
      any refusal is infeasible. */
  lemma {:induction false} StatusIsHonest(r: Request)
    requires ValidRequest(r) && Propose(r).Proposed?
    ensures OutcomeOf(r).Planned? ==>
              var placed := PlacedIds(OutcomeOf(r).placements);
              && (Propose(r).day.status.FeasiblePlan? <==> placed == IdsOf(Elements(r.activities)))
              && (Propose(r).day.status.PartialPlan? <==> placed != {} && placed < IdsOf(Elements(r.activities)))
    ensures !OutcomeOf(r).Planned? ==> Propose(r).day.status.InfeasiblePlan?
  {
    hide Schedule, Catalog, StatusOf, PlacedIds, ReportedIds, IdsOf, InternalPlan, CalendarOf, BuildDiff, ExplainAll, NoRepeat;
    RequestCatalog(r);
    if OutcomeOf(r).Planned? {
      PlanPartitions(Elements(r.activities), HorizonOf(r));
      StatusMeans(OutcomeOf(r).placements, OutcomeOf(r).unscheduled, IdsOf(Elements(r.activities)));
    }
  }

  /** Each activity of a plan is explained, in the order of the request: as infeasible exactly when
      it is unscheduled, and otherwise by the blocks the plan has for it. */
  lemma {:induction false} ExplanationsAreTrue(r: Request, i: nat, id: BlockId)
    requires ValidRequest(r) && Propose(r).Proposed? && OutcomeOf(r).Planned? && i < |r.activities|
    ensures var day, a := Propose(r).day, r.activities[i];
            && |day.explanations| == |r.activities| && day.explanations[i].activityId == a.id
            && (day.explanations[i].why.Infeasible? <==> a.id in ReportedIds(day.unscheduled))
            && (id in day.explanations[i].blockIds <==>
                  exists b :: b in day.plan && b.activityId == Some(a.id) && b.blockId == id)
  {
    hide Schedule, Catalog, Sound, InternalPlan, CalendarOf, BuildDiff, CountEach, CodeOf, BlockIdsOf;
    RequestCatalog(r);
    var activities, h, a := Elements(r.activities), HorizonOf(r), r.activities[i];
    var ps := OutcomeOf(r).placements;
    assert a in activities;
    PlanPartitions(activities, h);
    PlanIsSound(activities, h);
    PlacementFound(ps, a.id);
    assert a.id in IdsOf(activities);
    NamedBlocksExist(ps, activities, h, a, id);
  }
}
