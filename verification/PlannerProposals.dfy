/** The proposal as a caller reads it, told in the fields of the request. */
module PlannerProposals {
  import opened Options
  import opened Ordering
  import opened PlannerModel
  import opened PlannerScoring
  import opened PlannerPlacement
  import opened PlannerFixed
  import opened PlannerFlexible
  import opened PlannerSchedule
  import opened PlannerTiling
  import opened PlannerProjection
  import opened PlannerDiff
  import opened PlannerDay
  import opened PlannerExplanation
  import opened Planner

  /** A proposal is stale exactly when the caller expected another revision; it then says which. */
  lemma {:induction false} StaleExactly(r: Request)
    requires ValidRequest(r)
    ensures Propose(r).Stale? <==> r.expectedRevision != r.stateRevision
    ensures Propose(r).Stale? ==> Propose(r).expected == r.expectedRevision && Propose(r).current == r.stateRevision
  {
    hide DayOf, Schedule;
  }

  // ------------------------------------------------------------------- refusals

  lemma {:induction false} SortedLists(s: set<string>)
    ensures InjectiveOn(TextKey, s) && Lists(SortedOf(TextKey, s), s) && |SortedOf(TextKey, s)| == |s|
  {
    TextKeyInjective(s);
    var texts := SortedOf(TextKey, s);
    forall x
      ensures x in texts <==> x in s
    {
      assert x in texts <==> x in Elements(texts);
    }
    assert forall i, j :: 0 <= i < j < |texts| ==> Before(TextKey(texts[i]), TextKey(texts[j]));
  }

  /** Reports of fixed conflicts: each activity in conflict once, ascending, blocked by all
      the others. */
  lemma {:induction false} ConflictReportsExact(ids: set<string>)
    ensures |ConflictReports(ids)| == |ids|
    ensures forall i :: 0 <= i < |ids| ==>
              var u := ConflictReports(ids)[i];
              u.reason.FixedConflict? && u.activityId in ids && Lists(u.blocking, ids - {u.activityId})
    ensures forall i, j :: 0 <= i < j < |ids| ==>
              TextBefore(ConflictReports(ids)[i].activityId, ConflictReports(ids)[j].activityId)
  {
    SortedLists(ids);
    var sorted := SortedOf(TextKey, ids);
    hide SortedOf, Lists;
    forall i | 0 <= i < |ids|
      ensures var u := ConflictReports(ids)[i];
              u.reason.FixedConflict? && u.activityId in ids && Lists(u.blocking, ids - {u.activityId})
    {
      SortedLists(ids - {sorted[i]});
      assert sorted[i] in Elements(sorted);
    }
    AscendingTexts(sorted);
  }

  lemma {:induction false} AscendingTexts(texts: seq<string>)
    requires Ascending(TextKey, texts)
    ensures forall i, j :: 0 <= i < j < |texts| ==> TextBefore(texts[i], texts[j])
  {
    assert forall i, j :: 0 <= i < j < |texts| ==> Before(TextKey(texts[i]), TextKey(texts[j]));
  }

  /** A day refused for fixed conflicts: nothing planned, every activity in conflict reported
      and explained with the score of its fixed start, no other activity named. */
  lemma {:induction false} ConflictDay(r: Request, e: Explanation)
    requires ValidRequest(r) && Propose(r).Proposed? && OutcomeOf(r).FixedConflicting?
    ensures var day := Propose(r).day;
            && day.status.InfeasiblePlan? && day.plan == [] && day.calendar == []
            && day.unscheduled == ConflictReports(OutcomeOf(r).ids) && day.diff == BuildDiff(r.baseline, [])
            && (e in day.explanations <==>
                  exists a :: a in r.activities && a.id in OutcomeOf(r).ids && a.fixedStart.Some?
                    && e == Explanation(a.id, Infeasible,
                                        ScoreActivity(a, HorizonOf(r), a.fixedStart.value, CountDependents(r.activities, a.id)), []))
  {
    hide BuildDiff, ConflictReports, ExplainConflicts, ScoreActivity, Schedule, FixedConflicts, Catalog;
    RequestCatalog(r);
    var ids, h := OutcomeOf(r).ids, HorizonOf(r);
    ScheduleConflicts(Elements(r.activities), h);
    ConflictMembers(r.activities, ids, h, e);
    forall a | a in r.activities && a.id in ids
      ensures a.fixedStart.Some?
      ensures ExplainConflict(a, h) == Explanation(a.id, Infeasible, ScoreActivity(a, h, a.fixedStart.value, CountDependents(r.activities, a.id)), [])
    {
      ConflictIsFixed(Elements(r.activities), h, a);
      CountedDependents(r, a);
    }
  }

  lemma {:induction false} ScheduleConflicts(activities: set<Activity>, h: Horizon)
    requires Catalog(activities, h) && Schedule(activities, h).FixedConflicting?
    ensures Schedule(activities, h).ids == FixedConflicts(activities, h)
  {
    hide FixedConflicts, Placed, InvalidDependencies;
  }

  lemma {:induction false} ConflictIsFixed(activities: set<Activity>, h: Horizon, a: Activity)
    requires Catalog(activities, h) && a in activities && a.id in FixedConflicts(activities, h)
    ensures a.fixedStart.Some?
  {
    hide Misfit, Clash;
    var b :| b in FixedOf(activities) && b.id == a.id;
    assert a == b;
  }

  lemma {:induction false} CountedDependents(r: Request, a: Activity)
    requires ValidRequest(r) && a in r.activities
    ensures DependentsOf(HorizonOf(r), a.id) == CountDependents(r.activities, a.id)
  {
  }

  /** A day refused for a fixed activity's dependency: nothing planned, every activity
      reported in request order, blocked by the activities whose dependencies are broken. */
  lemma {:induction false} BrokenDay(r: Request, i: nat)
    requires ValidRequest(r) && Propose(r).Proposed? && OutcomeOf(r).DependenciesBroken? && i < |r.activities|
    ensures var day, a := Propose(r).day, r.activities[i];
            && day.status.InfeasiblePlan? && day.plan == [] && day.calendar == [] && day.diff == BuildDiff(r.baseline, [])
            && |day.unscheduled| == |r.activities| && |day.explanations| == |r.activities|
            && day.unscheduled[i].activityId == a.id && day.unscheduled[i].reason.DependencyUnscheduled?
            && Lists(day.unscheduled[i].blocking, OutcomeOf(r).ids)
            && day.explanations[i] == Explanation(a.id, Infeasible,
                                                  ScoreActivity(a, HorizonOf(r), r.windowStart, CountDependents(r.activities, a.id)), [])
  {
    SortedLists(OutcomeOf(r).ids);
    CountedDependents(r, r.activities[i]);
    hide BuildDiff, ScoreActivity, Lists, SortedOf, CountEach;
  }

  // --------------------------------------------------------------- explanations

  /** A placed activity is explained with its own score and by what it is: overdue, else fixed,
      protected or scheduled. One that is not placed is scored as if it began with the window. */
  ghost predicate Explains(e: Explanation, a: Activity, h: Horizon, ps: seq<Placement>, dependents: nat)
  {
    && e.activityId == a.id
    && if exists p :: p in ps && p.activity == a then
         && (exists p :: p in ps && p.activity == a && e.score == p.score)
         && e.why.Because?
         && (e.why.code == CodeOverdue <==> a.deadline.Some? && a.deadline.value < h.start)
         && (e.why.code != CodeOverdue ==>
               && (e.why.code == CodeFixed <==> a.flexibility.Fixed?)
               && (e.why.code == CodeProtected <==> a.flexibility.Protected?)
               && (e.why.code == CodeScheduled <==> a.flexibility.Flexible?))
       else e.why == Infeasible && e.score == ScoreActivity(a, h, h.start, dependents) && e.blockIds == []
  }

  lemma {:induction false} ExplanationInFields(r: Request, i: nat)
    requires ValidRequest(r) && Propose(r).Proposed? && OutcomeOf(r).Planned? && i < |r.activities|
    ensures i < |Propose(r).day.explanations|
    ensures Explains(Propose(r).day.explanations[i], r.activities[i], HorizonOf(r), OutcomeOf(r).placements,
                     CountDependents(r.activities, r.activities[i].id))
  {
    hide Schedule, Catalog, Sound, InternalPlan, CalendarOf, BuildDiff, Explain, Explains;
    RequestCatalog(r);
    PlanIsSound(Elements(r.activities), HorizonOf(r));
    CountedDependents(r, r.activities[i]);
    ExplainedInFields(OutcomeOf(r).placements, Elements(r.activities), HorizonOf(r), r.activities[i]);
  }

  lemma {:induction false} ExplainedInFields(ps: seq<Placement>, activities: set<Activity>, h: Horizon, a: Activity)
    requires Catalog(activities, h) && Sound(ps, activities, h) && a in activities
    ensures Explains(Explain(a, h, ps), a, h, ps, DependentsOf(h, a.id))
  {
    hide ScoreActivity, Catalog, Sound;
    PlacementFound(ps, a.id);
    forall p | p in ps && p.activity.id == a.id
      ensures p.activity == a
    {
      SameActivity(ps, activities, h, p, a);
    }
  }

  // ---------------------------------------------------------------- the blocks

  /** What every block of an activity carries over from it. */
  ghost predicate CarriesOver(b: PlanBlock, a: Activity, h: Horizon)
  {
    && b.activityId == Some(a.id) && b.displayGroup == a.displayGroup && b.guidance == a.guidance && b.deadline == a.deadline
    && b.calendarEligible == a.calendarEligible && b.personalMicroEvent == a.personalMicroEvent
    && b.code.Some? && (b.code.value == CodeOverdue <==> a.deadline.Some? && a.deadline.value < h.start)
  }

  /** The block of the activity itself, or one of its travel before or after it. */
  ghost predicate StandsFor(b: PlanBlock, p: Placement)
  {
    || (&& b.blockId == Named("activity:" + p.activity.id) && b.title == p.activity.title
        && b.displayTitle == p.activity.displayTitle
        && b.startsAt == p.startsAt && b.endsAt == p.endsAt
        && (b.kind == FixedBlock <==> p.activity.flexibility.Fixed?)
        && (b.kind == ProtectedBlock <==> p.activity.flexibility.Protected?)
        && (b.kind == FlexibleBlock <==> p.activity.flexibility.Flexible?))
    || (&& p.activity.travelBefore > 0 && b.kind == Travel && b.blockId == Named("travel-before:" + p.activity.id)
        && b.title == "Travel to " + p.activity.title
        && b.startsAt == p.startsAt - p.activity.travelBefore && b.endsAt == p.startsAt)
    || (&& p.activity.travelAfter > 0 && b.kind == Travel && b.blockId == Named("travel-after:" + p.activity.id)
        && b.title == "Travel from " + p.activity.title
        && b.startsAt == p.endsAt && b.endsAt == p.endsAt + p.activity.travelAfter)
  }

  /** The plan's occupied blocks are, for each reservation, one for the activity and one for
      each travel it has, over exactly its minutes; a free block stands for no activity. */
  lemma {:induction false} BlocksInFields(ps: seq<Placement>, activities: set<Activity>, h: Horizon, b: PlanBlock)
    requires Catalog(activities, h) && Sound(ps, activities, h) && h.start < h.end && b in InternalPlan(ps, h)
    ensures b.kind != Available ==> exists p :: p in ps && CarriesOver(b, p.activity, h) && StandsFor(b, p)
    ensures b.kind == Available ==> b.activityId.None? && !b.calendarEligible
  {
    hide InternalPlan, RenderAll, Sound, Renderable, CarriesOver, StandsFor, Catalog, Render;
    SoundIsRenderable(ps, activities, h);
    PlanMembers(ps, h);
    if b.kind == Available {
      FreeInFields(ps, h, b);
    } else {
      assert b in RenderAll(ps, h);
      var p :| p in ps && b in Render(p, h);
      ActivityIn(ps, activities, h, p);
      RenderedInFields(p, h, b);
    }
  }

  lemma {:induction false} RenderedInFields(p: Placement, h: Horizon, b: PlanBlock)
    requires b in Render(p, h) && p.activity.travelBefore >= 0 && p.activity.travelAfter >= 0
    ensures CarriesOver(b, p.activity, h) && StandsFor(b, p)
  {
  }

  lemma {:induction false} ActivityIn(ps: seq<Placement>, activities: set<Activity>, h: Horizon, p: Placement)
    requires Catalog(activities, h) && Sound(ps, activities, h) && p in ps
    ensures p.activity in activities && ValidActivity(p.activity)
  {
    assert WellPlaced(p, activities, h);
  }

  lemma {:induction false} FreeInFields(ps: seq<Placement>, h: Horizon, b: PlanBlock)
    requires b in InternalPlan(ps, h) && b.kind == Available
    ensures b.activityId.None? && !b.calendarEligible
  {
    FreeTiles(h.start, Sort(BlockKey, RenderAll(ps, h)), h.end, b);
    MembersOfMultiset(Sort(BlockKey, RenderAll(ps, h)), RenderAll(ps, h));
    RenderAllMembers(ps, h);
    if b in RenderAll(ps, h) {
      var p :| p in ps && b in Render(p, h);
      RenderedBy(p, h, b);
    }
  }

  lemma {:induction false} FreeTiles(cursor: Instant, blocks: seq<PlanBlock>, end: Instant, b: PlanBlock)
    requires b in Tile(cursor, blocks, end)
    ensures b in blocks || (b.activityId.None? && !b.calendarEligible)
    decreases |blocks|
  {
    if blocks != [] {
      var rest := Tile(blocks[0].endsAt, blocks[1..], end);
      if b in rest {
        FreeTiles(blocks[0].endsAt, blocks[1..], end, b);
      }
    }
  }

  // --------------------------------------------------------------- the calendar

  /** The calendar shows a minute exactly when it lies in the reservation, travel included, of
      an activity that may be shown and is no personal micro-event. */
  lemma {:induction false} CalendarInFields(r: Request, t: Instant)
    requires ValidRequest(r) && Propose(r).Proposed? && OutcomeOf(r).Planned?
    ensures (exists c :: c in Propose(r).day.calendar && c.startsAt <= t < c.endsAt) <==>
            (exists p :: p in OutcomeOf(r).placements && p.activity.calendarEligible && !p.activity.personalMicroEvent
               && p.startsAt - p.activity.travelBefore <= t < p.endsAt + p.activity.travelAfter)
  {
    hide Schedule, Catalog, Sound, InternalPlan, CalendarOf, BuildDiff, ExplainAll, CountEach;
    RequestCatalog(r);
    var activities, h, ps := Elements(r.activities), HorizonOf(r), OutcomeOf(r).placements;
    PlanIsSound(activities, h);
    CalendarShowsExactly(ps, activities, h, t);
    var calendar := Propose(r).day.calendar;
    assert calendar == CalendarOf(ps, h);
    if c :| c in calendar && c.startsAt <= t < c.endsAt {
      assert Shows(c, t);
    }
    if p :| p in ps && p.activity.calendarEligible && !p.activity.personalMicroEvent
            && p.startsAt - p.activity.travelBefore <= t < p.endsAt + p.activity.travelAfter {
      assert Shown(p) && Reserves(p, t);
    }
  }
}
