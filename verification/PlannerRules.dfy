/** What the planner guarantees, told in the fields of the request and of the plan alone. */
module PlannerRules {
  import opened Options
  import opened Ordering
  import opened PlannerModel
  import opened PlannerScoring
  import opened PlannerPlacement
  import opened PlannerFixed
  import opened PlannerFlexible
  import opened PlannerSchedule

  // ------------------------------------------------------------------ one slot

  lemma {:induction false} DependenciesMeans(a: Activity, ps: seq<Placement>)
    ensures DependenciesPlaced(a, ps) <==> forall d :: d in a.dependencies ==> exists p :: p in ps && p.activity.id == d
  {
    if forall d :: d in a.dependencies ==> exists p :: p in ps && p.activity.id == d {
      forall d | d in Elements(a.dependencies)
        ensures d in PlacedIds(ps)
      {
      }
    }
    if DependenciesPlaced(a, ps) {
      forall d | d in a.dependencies
        ensures exists p :: p in ps && p.activity.id == d
      {
        assert d in PlacedIds(ps);
      }
    }
  }

  /** A minute is free for an activity exactly when the reservation lies in the window, keeps
      the activity's own bounds, follows its placed dependencies, precedes its placed
      dependents and touches no other reservation. A deadline missed before the window
      opened does not bind an activity that may recover it. */
  lemma {:induction false} FeasibleExactly(a: Activity, h: Horizon, ps: seq<Placement>, t: Instant)
    requires a.id in h.dependents
    ensures Feasible(a, h, ps, t) <==>
            && h.start <= t - a.travelBefore && t + a.duration + a.travelAfter <= h.end
            && (a.earliestStart.Some? ==> a.earliestStart.value <= t)
            && (a.latestEnd.Some? ==> t + a.duration <= a.latestEnd.value)
            && (a.deadline.Some? && !(a.recoverMissedDeadline && a.deadline.value < h.start) ==>
                  t + a.duration <= a.deadline.value)
            && (forall d :: d in a.dependencies ==> exists p :: p in ps && p.activity.id == d)
            && (forall p :: p in ps && p.activity.id in a.dependencies ==> p.endsAt <= t)
            && (forall p :: p in ps && a.id in p.activity.dependencies ==> t + a.duration <= p.startsAt)
            && (forall p :: p in ps ==>
                  || t + a.duration + a.travelAfter <= p.startsAt - p.activity.travelBefore
                  || p.endsAt + p.activity.travelAfter <= t - a.travelBefore)
  {
    DependenciesMeans(a, ps);
  }

  // ------------------------------------------------------------- a whole plan

  /** Each reservation of a plan: a listed activity for its full length, in the window and its
      own bounds, a fixed one at its given time, after everything it depends on, with the
      score of the minute it starts. */
  lemma {:induction false} PlanInFields(activities: set<Activity>, h: Horizon, p: Placement)
    requires Catalog(activities, h) && Schedule(activities, h).Planned? && p in Schedule(activities, h).placements
    ensures var a := p.activity;
            && a in activities && p.endsAt == p.startsAt + a.duration
            && h.start <= p.startsAt - a.travelBefore && p.endsAt + a.travelAfter <= h.end
            && (a.earliestStart.Some? ==> a.earliestStart.value <= p.startsAt)
            && (a.latestEnd.Some? ==> p.endsAt <= a.latestEnd.value)
            && (a.deadline.Some? && !(a.recoverMissedDeadline && a.deadline.value < h.start) ==> p.endsAt <= a.deadline.value)
            && (!a.flexibility.Flexible? ==> a.fixedStart == Some(p.startsAt) && a.fixedEnd == Some(p.endsAt))
            && p.score == ScoreActivity(a, h, p.startsAt, h.dependents[a.id])
    ensures forall d :: d in p.activity.dependencies ==>
              exists q :: q in Schedule(activities, h).placements && q.activity.id == d && q.endsAt <= p.startsAt
  {
    hide Schedule, ScoreActivity;
    PlanIsSound(activities, h);
    var ps := Schedule(activities, h).placements;
    assert WellPlaced(p, activities, h);
    assert AllMet(p, ps);
    forall d | d in p.activity.dependencies
      ensures exists q :: q in ps && q.activity.id == d && q.endsAt <= p.startsAt
    {
      assert Met(d, p, ps);
    }
  }

  /** No activity twice, and no two reservations, travel included, share a minute. */
  lemma {:induction false} PlanIsApart(activities: set<Activity>, h: Horizon, i: nat, j: nat)
    requires Catalog(activities, h) && Schedule(activities, h).Planned? && i < j < |Schedule(activities, h).placements|
    ensures var p, q := Schedule(activities, h).placements[i], Schedule(activities, h).placements[j];
            && p.activity.id != q.activity.id
            && (|| p.endsAt + p.activity.travelAfter <= q.startsAt - q.activity.travelBefore
                || q.endsAt + q.activity.travelAfter <= p.startsAt - p.activity.travelBefore)
  {
    hide Schedule;
    PlanIsSound(activities, h);
  }

  // ---------------------------------------------------------------- refusals

  /** The first refusal names exactly the fixed and protected activities that leave the window,
      break a bound of their own, or share a minute, travel included, with another such one. */
  lemma {:induction false} ConflictingExactly(activities: set<Activity>, h: Horizon, a: Activity)
    requires Catalog(activities, h) && a in activities
    ensures Schedule(activities, h).FixedConflicting? && a.id in Schedule(activities, h).ids <==>
            !a.flexibility.Flexible? &&
            (|| a.fixedStart.value - a.travelBefore < h.start
             || h.end < a.fixedEnd.value + a.travelAfter
             || (a.earliestStart.Some? && a.fixedStart.value < a.earliestStart.value)
             || (a.latestEnd.Some? && a.latestEnd.value < a.fixedEnd.value)
             || (a.deadline.Some? && !(a.recoverMissedDeadline && a.deadline.value < h.start) && a.deadline.value < a.fixedEnd.value)
             || exists b :: b in activities && b != a && !b.flexibility.Flexible?
                  && a.fixedStart.value - a.travelBefore < b.fixedEnd.value + b.travelAfter
                  && b.fixedStart.value - b.travelBefore < a.fixedEnd.value + a.travelAfter)
  {
    hide Placed, InvalidDependencies, Misfit, Clash, FixedConflicts;
    ConflictMember(activities, h, a);
    if !a.flexibility.Flexible? {
      MisfitMeans(a, h);
      forall b | b in activities && !b.flexibility.Flexible?
        ensures Clash(a, b, h) <==>
                && a.fixedStart.value - a.travelBefore < b.fixedEnd.value + b.travelAfter
                && b.fixedStart.value - b.travelBefore < a.fixedEnd.value + a.travelAfter
      {
        ClashMeans(a, b, h);
      }
    }
  }

  lemma {:induction false} ConflictMember(activities: set<Activity>, h: Horizon, a: Activity)
    requires Catalog(activities, h) && a in activities
    ensures a.id in FixedConflicts(activities, h) <==>
            !a.flexibility.Flexible? &&
            (Misfit(a, h) || exists b :: b in activities && b != a && !b.flexibility.Flexible? && Clash(a, b, h))
  {
    hide Misfit, Clash;
    if b :| b in activities && b != a && !b.flexibility.Flexible? && Clash(a, b, h) {
      assert b in FixedOf(activities);
    }
  }

  lemma {:induction false} MisfitMeans(a: Activity, h: Horizon)
    requires ValidActivity(a) && a.id in h.dependents && !a.flexibility.Flexible?
    ensures Misfit(a, h) <==>
            || a.fixedStart.value - a.travelBefore < h.start
            || h.end < a.fixedEnd.value + a.travelAfter
            || (a.earliestStart.Some? && a.fixedStart.value < a.earliestStart.value)
            || (a.latestEnd.Some? && a.latestEnd.value < a.fixedEnd.value)
            || (a.deadline.Some? && !(a.recoverMissedDeadline && a.deadline.value < h.start) && a.deadline.value < a.fixedEnd.value)
  {
  }

  lemma {:induction false} ClashMeans(a: Activity, b: Activity, h: Horizon)
    requires ValidActivity(a) && a.id in h.dependents && !a.flexibility.Flexible?
    requires ValidActivity(b) && b.id in h.dependents && !b.flexibility.Flexible?
    ensures Clash(a, b, h) <==>
            && a.fixedStart.value - a.travelBefore < b.fixedEnd.value + b.travelAfter
            && b.fixedStart.value - b.travelBefore < a.fixedEnd.value + a.travelAfter
  {
  }

  /** The second refusal names exactly the fixed and protected activities that depend on
      something no reservation holds, or on a fixed one that ends after they start. */
  lemma {:induction false} BrokenExactly(activities: set<Activity>, h: Horizon, a: Activity)
    requires Catalog(activities, h) && !Schedule(activities, h).FixedConflicting? && a in activities
    ensures Schedule(activities, h).DependenciesBroken? && a.id in Schedule(activities, h).ids <==>
            !a.flexibility.Flexible? &&
            exists d :: d in a.dependencies &&
              (|| (forall p :: p in Placed(activities, h).placements ==> p.activity.id != d)
               || exists b :: b in activities && b.id == d && !b.flexibility.Flexible? && a.fixedStart.value < b.fixedEnd.value)
  {
    var ps := Placed(activities, h).placements;
    BrokenIsExact(activities, h, a.id);
    hide Placed, FixedConflicts, InvalidDependencies, ScoreActivity;
    if d :| a in FixedOf(activities) && d in a.dependencies && Irreparable(d, FixedPlacement(a, h), activities, h, ps) {
      IrreparableMeans(activities, h, ps, a, d);
    }
    if d :| a in FixedOf(activities) && d in a.dependencies &&
            (|| (forall p :: p in ps ==> p.activity.id != d)
             || exists b :: b in activities && b.id == d && !b.flexibility.Flexible? && a.fixedStart.value < b.fixedEnd.value) {
      IrreparableMeans(activities, h, ps, a, d);
    }
  }

  lemma {:induction false} IrreparableMeans(activities: set<Activity>, h: Horizon, ps: seq<Placement>, a: Activity, d: string)
    requires Catalog(activities, h) && a in FixedOf(activities)
    ensures Irreparable(d, FixedPlacement(a, h), activities, h, ps) <==>
            (|| (forall p :: p in ps ==> p.activity.id != d)
             || exists b :: b in activities && b.id == d && !b.flexibility.Flexible? && a.fixedStart.value < b.fixedEnd.value)
  {
    hide ScoreActivity;
    if b :| b in activities && b.id == d && !b.flexibility.Flexible? && a.fixedStart.value < b.fixedEnd.value {
      assert b in FixedOf(activities) && FixedPlacement(b, h).endsAt > FixedPlacement(a, h).startsAt;
    }
  }

  // ---------------------------------------------------------------- left out

  /** Why a flexible activity is left out of a plan and what is named as blocking it: the
      dependencies no request activity bears, else those no reservation holds, else nothing,
      and then every dependency is reserved and no minute is free for it. */
  lemma {:induction false} LeftOutInFields(activities: set<Activity>, h: Horizon, u: Unscheduled) returns (a: Activity)
    requires Catalog(activities, h) && Schedule(activities, h).Planned? && u in Schedule(activities, h).unscheduled
    ensures a in activities && a.flexibility.Flexible? && a.id == u.activityId && !u.reason.FixedConflict?
    ensures forall p :: p in Schedule(activities, h).placements ==> p.activity != a
    ensures u.reason.MissingDependency? <==> exists d :: d in a.dependencies && forall b :: b in activities ==> b.id != d
    ensures u.reason.MissingDependency? ==>
              forall d :: d in u.blocking <==> d in a.dependencies && forall b :: b in activities ==> b.id != d
    ensures u.reason.NoCapacity? <==>
              forall d :: d in a.dependencies ==> exists p :: p in Schedule(activities, h).placements && p.activity.id == d
    ensures u.reason.NoCapacity? ==> u.blocking == [] && forall t :: !Feasible(a, h, Schedule(activities, h).placements, t)
    ensures u.reason.DependencyUnscheduled? ==>
              forall d :: d in u.blocking <==>
                d in a.dependencies && forall p :: p in Schedule(activities, h).placements ==> p.activity.id != d
    ensures forall i, j :: 0 <= i < j < |u.blocking| ==> TextBefore(u.blocking[i], u.blocking[j])
  {
    hide Schedule, Feasible, Catalog, DependsOnlyOn, DependenciesPlaced, IdsOf, PlacedIds, ReportedIds, Lists, Justified, FlexibleOf;
    PlanIsMaximal(activities, h, u);
    var ps := Schedule(activities, h).placements;
    a := Blamed(activities, h, ps, u);
    PlanPartitions(activities, h);
    NotPlaced(ps, Schedule(activities, h).unscheduled, u, a);
    JustifiedMeans(activities, h, ps, u, a);
  }

  lemma {:induction false} Blamed(activities: set<Activity>, h: Horizon, ps: seq<Placement>, u: Unscheduled) returns (a: Activity)
    requires Catalog(activities, h)
    requires exists a :: a in FlexibleOf(activities) && a.id == u.activityId
                      && Justified(a, u.reason, u.blocking, h, IdsOf(activities), ps)
                      && (u.reason.NoCapacity? || !DependenciesPlaced(a, ps))
    ensures a in activities && a.flexibility.Flexible? && a.id == u.activityId && a.id in h.dependents && Searchable(a, h)
    ensures Justified(a, u.reason, u.blocking, h, IdsOf(activities), ps) && (u.reason.NoCapacity? || !DependenciesPlaced(a, ps))
  {
    hide Justified, DependenciesPlaced, IdsOf;
    a :| a in FlexibleOf(activities) && a.id == u.activityId && Justified(a, u.reason, u.blocking, h, IdsOf(activities), ps)
         && (u.reason.NoCapacity? || !DependenciesPlaced(a, ps));
  }

  lemma {:induction false} NotPlaced(ps: seq<Placement>, us: seq<Unscheduled>, u: Unscheduled, a: Activity)
    requires u in us && a.id == u.activityId && PlacedIds(ps) !! ReportedIds(us)
    ensures forall p :: p in ps ==> p.activity != a
  {
    assert u.activityId in ReportedIds(us);
    assert forall p :: p in ps ==> p.activity.id in PlacedIds(ps);
  }

  lemma {:induction false} JustifiedMeans(activities: set<Activity>, h: Horizon, ps: seq<Placement>, u: Unscheduled, a: Activity)
    requires Searchable(a, h) && Justified(a, u.reason, u.blocking, h, IdsOf(activities), ps)
    requires u.reason.NoCapacity? || !DependenciesPlaced(a, ps)
    requires PlacedIds(ps) <= IdsOf(activities)
    ensures !u.reason.FixedConflict?
    ensures u.reason.MissingDependency? <==> exists d :: d in a.dependencies && forall b :: b in activities ==> b.id != d
    ensures u.reason.MissingDependency? ==>
              forall d :: d in u.blocking <==> d in a.dependencies && forall b :: b in activities ==> b.id != d
    ensures u.reason.NoCapacity? <==> forall d :: d in a.dependencies ==> exists p :: p in ps && p.activity.id == d
    ensures u.reason.NoCapacity? ==> u.blocking == [] && forall t :: !Feasible(a, h, ps, t)
    ensures u.reason.DependencyUnscheduled? ==>
              forall d :: d in u.blocking <==> d in a.dependencies && forall p :: p in ps ==> p.activity.id != d
    ensures forall i, j :: 0 <= i < j < |u.blocking| ==> TextBefore(u.blocking[i], u.blocking[j])
  {
    hide Feasible, IdsOf, PlacedIds, DependsOnlyOn, DependenciesPlaced;
    DependenciesMeans(a, ps);
    KnownMeans(activities, a);
    PlacedMeans(ps);
    AllKnown(a, ps, IdsOf(activities));
  }

  lemma {:induction false} AllKnown(a: Activity, ps: seq<Placement>, known: set<string>)
    requires PlacedIds(ps) <= known
    ensures DependenciesPlaced(a, ps) ==> DependsOnlyOn(a, known)
  {
    hide PlacedIds;
  }

  lemma {:induction false} KnownMeans(activities: set<Activity>, a: Activity)
    ensures DependsOnlyOn(a, IdsOf(activities)) <==> !exists d :: d in a.dependencies && forall b :: b in activities ==> b.id != d
    ensures forall d :: d in IdsOf(activities) <==> !forall b :: b in activities ==> b.id != d
  {
    forall d
      ensures d in IdsOf(activities) <==> !forall b :: b in activities ==> b.id != d
    {
    }
  }

  lemma {:induction false} PlacedMeans(ps: seq<Placement>)
    ensures forall d :: d in PlacedIds(ps) <==> !forall p :: p in ps ==> p.activity.id != d
  {
    forall d
      ensures d in PlacedIds(ps) <==> !forall p :: p in ps ==> p.activity.id != d
    {
    }
  }
}
