/** The proposed day: the composition of the stages, and what it promises end to end. */
module PlannerDay {
  import opened PlannerModel
  import opened PlannerPlacement
  import opened PlannerFixed
  import opened PlannerSchedule
  import opened PlannerTiling
  import opened PlannerProjection

  // ----------------------------------------- one calendar block for each activity

  lemma {:induction false} GaplessChained(plan: seq<PlanBlock>, from: Instant, to: Instant)
    requires Gapless(plan, from, to)
    ensures Chained(plan, from, to)
  {
    if plan != [] {
      var rest := plan[1..];
      GaplessChained(rest, plan[0].endsAt, to);
      GaplessStarts(rest, plan[0].endsAt, to);
      forall i | 0 < i < |plan|
        ensures plan[0].endsAt <= plan[i].startsAt < plan[i].endsAt <= to
      {
        assert plan[i] == rest[i - 1];
      }
      forall i, j | 0 < i < j < |plan|
        ensures plan[i].endsAt <= plan[j].startsAt
      {
        assert plan[i] == rest[i - 1] && plan[j] == rest[j - 1];
      }
    }
  }

  lemma {:induction false} EligibleChained(plan: seq<PlanBlock>, from: Instant, to: Instant)
    requires Chained(plan, from, to)
    ensures Chained(EligibleOf(plan), from, to)
  {
    if plan != [] {
      var front, last := plan[..|plan| - 1], plan[|plan| - 1];
      EligibleChained(front, from, to);
      EligibleMembers(front);
      forall i | 0 <= i < |EligibleOf(front)|
        ensures EligibleOf(front)[i].endsAt <= last.startsAt
      {
        assert EligibleOf(front)[i] in front;
      }
    }
  }

  predicate DrawnBy(b: PlanBlock, p: Placement, h: Horizon) { b in Render(p, h) }

  ghost predicate SomeDraws(b: PlanBlock, ps: seq<Placement>, h: Horizon)
  {
    exists p :: p in ps && DrawnBy(b, p, h)
  }

  predicate Shown(p: Placement) { p.activity.calendarEligible && !p.activity.personalMicroEvent }

  /** The eligible blocks of the plan, and the placements they come from. */
  ghost predicate DrawnFrom(bs: seq<PlanBlock>, ps: seq<Placement>, h: Horizon)
  {
    && Renderable(ps, h)
    && (forall p :: p in ps ==> p.activity.title != "")
    && Chained(bs, h.start, h.end)
    && (forall i :: 0 <= i < |bs| ==> Eligible(bs[i]) && SomeDraws(bs[i], ps, h))
    && (forall p :: p in ps && Shown(p) ==> ActivityBlock(p, h) in bs)
  }

  lemma {:induction false} RenderShares(p: Placement, h: Horizon, b: PlanBlock)
    requires DrawnBy(b, p, h) && p.activity.title != ""
    ensures IdOf(b) == p.activity.id && GroupOf(b) == OrElse(p.activity.displayGroup, p.activity.id)
    ensures TitleOf(b) == OrElse(p.activity.displayTitle, p.activity.title)
    ensures Eligible(b) <==> Shown(p)
  {
  }

  /** A rendered block is the travel before, the activity, or the travel after. */
  lemma {:induction false} RenderSpans(p: Placement, h: Horizon, b: PlanBlock)
    requires DrawnBy(b, p, h)
    ensures || (b.startsAt == p.ReservationStart() && b.endsAt == p.startsAt)
            || (b.startsAt == p.startsAt && b.endsAt == p.endsAt)
            || (b.startsAt == p.endsAt && b.endsAt == p.ReservationEnd())
  {
  }

  lemma {:induction false} SourcePlacement(bs: seq<PlanBlock>, ps: seq<Placement>, h: Horizon, i: nat) returns (p: Placement)
    requires DrawnFrom(bs, ps, h) && i < |bs|
    ensures p in ps && DrawnBy(bs[i], p, h) && IdOf(bs[i]) == p.activity.id && Shown(p)
  {
    assert SomeDraws(bs[i], ps, h);
    p :| p in ps && DrawnBy(bs[i], p, h);
    RenderShares(p, h, bs[i]);
  }

  lemma {:induction false} SamePlacement(ps: seq<Placement>, p: Placement, q: Placement)
    requires Separate(ps) && p in ps && q in ps && (p.activity.id == q.activity.id || Overlaps(p, q))
    ensures p == q
  {
    var i :| 0 <= i < |ps| && ps[i] == p;
    var j :| 0 <= j < |ps| && ps[j] == q;
    assert Overlaps(p, q) <==> Overlaps(q, p);
  }

  lemma {:induction false} DrawnInside(p: Placement, h: Horizon, b: PlanBlock)
    requires Extended(p) && DrawnBy(b, p, h)
    ensures p.ReservationStart() <= b.startsAt < b.endsAt <= p.ReservationEnd()
  {
    RenderInside(p, h);
  }

  lemma {:induction false} DrawnOverlap(p: Placement, q: Placement, h: Horizon, b: PlanBlock)
    requires Extended(p) && Extended(q) && DrawnBy(b, q, h)
    requires p.ReservationStart() <= b.startsAt < b.endsAt <= p.ReservationEnd()
    ensures Overlaps(q, p)
  {
    RenderInside(q, h);
  }

  lemma {:induction false} BetweenInside(bs: seq<PlanBlock>, h: Horizon, i: nat, k: nat, j: nat, p: Placement)
    requires Chained(bs, h.start, h.end) && i <= k <= j < |bs| && Extended(p)
    requires DrawnBy(bs[i], p, h) && DrawnBy(bs[j], p, h)
    ensures p.ReservationStart() <= bs[k].startsAt < bs[k].endsAt <= p.ReservationEnd()
  {
    DrawnInside(p, h, bs[i]);
    DrawnInside(p, h, bs[j]);
  }

  /** Between two blocks of one placement there is nothing but that placement. */
  lemma {:induction false} BetweenIsSame(bs: seq<PlanBlock>, ps: seq<Placement>, h: Horizon, i: nat, k: nat, j: nat, p: Placement)
    requires DrawnFrom(bs, ps, h) && i <= k <= j < |bs| && p in ps
    requires DrawnBy(bs[i], p, h) && DrawnBy(bs[j], p, h)
    ensures DrawnBy(bs[k], p, h)
  {
    var r := SourcePlacement(bs, ps, h, k);
    BetweenInside(bs, h, i, k, j, p);
    DrawnOverlap(p, r, h, bs[k]);
    SamePlacement(ps, r, p);
  }

  /** Neighbouring blocks of one placement abut: its own block cannot be skipped between them. */
  lemma {:induction false} NeighboursAbut(bs: seq<PlanBlock>, ps: seq<Placement>, h: Horizon, k: nat, p: Placement)
    requires DrawnFrom(bs, ps, h) && k + 1 < |bs| && p in ps && Shown(p)
    requires DrawnBy(bs[k], p, h) && DrawnBy(bs[k + 1], p, h)
    ensures bs[k].endsAt == bs[k + 1].startsAt
  {
    RenderSpans(p, h, bs[k]);
    RenderSpans(p, h, bs[k + 1]);
    var m := OwnSpan(bs, ps, h, p);
    ChainOrder(bs, h, k, m);
    hide DrawnFrom, DrawnBy;
  }

  /** The block of the activity itself, among the eligible ones. */
  lemma {:induction false} OwnSpan(bs: seq<PlanBlock>, ps: seq<Placement>, h: Horizon, p: Placement) returns (m: nat)
    requires DrawnFrom(bs, ps, h) && p in ps && Shown(p)
    ensures m < |bs| && bs[m].startsAt == p.startsAt < p.endsAt == bs[m].endsAt && Chained(bs, h.start, h.end)
    ensures p.ReservationStart() <= p.startsAt && p.endsAt <= p.ReservationEnd()
  {
    hide Chained;
    assert ActivityBlock(p, h) in bs;
    assert Extended(p);
    m :| 0 <= m < |bs| && bs[m] == ActivityBlock(p, h);
  }

  lemma {:induction false} ChainOrder(bs: seq<PlanBlock>, h: Horizon, k: nat, m: nat)
    requires Chained(bs, h.start, h.end) && k + 1 < |bs| && m < |bs|
    ensures bs[k].startsAt < bs[k].endsAt <= bs[k + 1].startsAt < bs[k + 1].endsAt
    ensures m < k ==> bs[m].endsAt <= bs[k].startsAt
    ensures m == k || m == k + 1 || m < k || bs[k + 1].endsAt <= bs[m].startsAt
  {
  }

  lemma {:induction false} DrawnActivitiesJoin(bs: seq<PlanBlock>, ps: seq<Placement>, h: Horizon)
    requires DrawnFrom(bs, ps, h)
    ensures ActivitiesJoin(bs)
  {
    hide DrawnFrom, Joined, IdOf;
    forall i, j, k | 0 <= i <= k < j < |bs| && IdOf(bs[i]) == IdOf(bs[j])
      ensures Joined(bs[k], bs[k + 1])
    {
      SameActivityJoins(bs, ps, h, i, k, j);
    }
  }

  lemma {:induction false} SameActivityJoins(bs: seq<PlanBlock>, ps: seq<Placement>, h: Horizon, i: nat, k: nat, j: nat)
    requires DrawnFrom(bs, ps, h) && i <= k < j < |bs| && IdOf(bs[i]) == IdOf(bs[j])
    ensures Joined(bs[k], bs[k + 1])
  {
    hide DrawnFrom, DrawnBy, Shown, Separate, IdOf, TitleOf, GroupOf;
    var p := SourcePlacement(bs, ps, h, i);
    var q := SourcePlacement(bs, ps, h, j);
    DrawnSeparate(bs, ps, h, p);
    SamePlacement(ps, p, q);
    BetweenIsSame(bs, ps, h, i, k, j, p);
    BetweenIsSame(bs, ps, h, i, k + 1, j, p);
    NeighboursAbut(bs, ps, h, k, p);
    RenderShares(p, h, bs[k]);
    RenderShares(p, h, bs[k + 1]);
  }

  lemma {:induction false} DrawnSeparate(bs: seq<PlanBlock>, ps: seq<Placement>, h: Horizon, p: Placement)
    requires DrawnFrom(bs, ps, h) && p in ps
    ensures Separate(ps) && p.activity.title != ""
  {
  }

  lemma {:induction false} PlanIsDrawn(ps: seq<Placement>, activities: set<Activity>, h: Horizon)
    requires Catalog(activities, h) && Sound(ps, activities, h) && h.start < h.end
    ensures DrawnFrom(EligibleOf(InternalPlan(ps, h)), ps, h)
  {
    var plan := InternalPlan(ps, h);
    var bs := EligibleOf(plan);
    SoundIsRenderable(ps, activities, h);
    PlanTilesWindow(ps, h);
    GaplessChained(plan, h.start, h.end);
    EligibleChained(plan, h.start, h.end);
    EligibleMembers(plan);
    PlanMembers(ps, h);
    forall p | p in ps
      ensures p.activity.title != "" && (Shown(p) ==> ActivityBlock(p, h) in bs)
    {
      assert WellPlaced(p, activities, h);
      assert ActivityBlock(p, h) in Render(p, h);
      RenderShares(p, h, ActivityBlock(p, h));
      assert ActivityBlock(p, h) in RenderAll(ps, h);
    }
    forall i | 0 <= i < |bs|
      ensures Eligible(bs[i]) && SomeDraws(bs[i], ps, h)
    {
      assert bs[i] in bs;
      assert bs[i] in RenderAll(ps, h);
      var p :| p in ps && bs[i] in Render(p, h);
      assert DrawnBy(bs[i], p, h);
    }
  }

  /** The calendar proposed for a list of placements. */
  function CalendarOf(ps: seq<Placement>, h: Horizon): seq<CalendarBlock>
  {
    Project(EligibleOf(InternalPlan(ps, h)))
  }

  /** Calendar blocks of a sound plan are in order and apart, and none could still be merged. */
  lemma {:induction false} CalendarSettled(ps: seq<Placement>, activities: set<Activity>, h: Horizon)
    requires Catalog(activities, h) && Sound(ps, activities, h) && h.start < h.end
    ensures NormalForm(CalendarOf(ps, h))
  {
    PlanIsDrawn(ps, activities, h);
    ProjectionSettles(EligibleOf(InternalPlan(ps, h)), h.start, h.end);
  }

  lemma {:induction false} ShownIsReserved(ps: seq<Placement>, activities: set<Activity>, h: Horizon, t: Instant, i: nat)
    requires Catalog(activities, h) && Sound(ps, activities, h) && h.start < h.end
    requires i < |EligibleOf(InternalPlan(ps, h))| && Covers(EligibleOf(InternalPlan(ps, h))[i], t)
    ensures exists p :: p in ps && Shown(p) && Reserves(p, t)
  {
    var bs := EligibleOf(InternalPlan(ps, h));
    PlanIsDrawn(ps, activities, h);
    var p := SourcePlacement(bs, ps, h, i);
    RenderInside(p, h);
    assert Reserves(p, t);
  }

  lemma {:induction false} ReservedIsShown(ps: seq<Placement>, activities: set<Activity>, h: Horizon, t: Instant, p: Placement)
    requires Catalog(activities, h) && Sound(ps, activities, h) && h.start < h.end
    requires p in ps && Shown(p) && Reserves(p, t)
    ensures exists b :: b in EligibleOf(InternalPlan(ps, h)) && Covers(b, t)
  {
    PlanIsDrawn(ps, activities, h);
    var b := RenderCovers(p, h, t);
    RenderShares(p, h, b);
    PlanMembers(ps, h);
    EligibleMembers(InternalPlan(ps, h));
    assert b in RenderAll(ps, h);
  }

  lemma {:induction false} ShownMinutes(ps: seq<Placement>, activities: set<Activity>, h: Horizon, t: Instant)
    requires Catalog(activities, h) && Sound(ps, activities, h) && h.start < h.end
    ensures (exists b :: b in EligibleOf(InternalPlan(ps, h)) && Covers(b, t)) <==>
            (exists p :: p in ps && Shown(p) && Reserves(p, t))
  {
    hide Catalog, Sound, Shown, Reserves, Covers, EligibleOf, InternalPlan;
    var bs := EligibleOf(InternalPlan(ps, h));
    if b :| b in bs && Covers(b, t) {
      var i :| 0 <= i < |bs| && bs[i] == b;
      ShownIsReserved(ps, activities, h, t, i);
    }
    if p :| p in ps && Shown(p) && Reserves(p, t) {
      ReservedIsShown(ps, activities, h, t, p);
    }
  }

  /** A minute is shown in the calendar exactly when the reservation of an eligible activity
      that is no micro-event, travel included, holds it. */
  lemma {:induction false} CalendarShowsExactly(ps: seq<Placement>, activities: set<Activity>, h: Horizon, t: Instant)
    requires Catalog(activities, h) && Sound(ps, activities, h) && h.start < h.end
    ensures (exists c :: c in CalendarOf(ps, h) && Shows(c, t)) <==> (exists p :: p in ps && Shown(p) && Reserves(p, t))
  {
    var bs := EligibleOf(InternalPlan(ps, h));
    PlanIsDrawn(ps, activities, h);
    ProjectionConservesTime(bs, h.start, h.end, t);
    ShownMinutes(ps, activities, h, t);
  }

  // ------------------------------------------- a whole activity in one calendar block

  /** Where the eligible block of a placement stands. */
  lemma {:induction false} OwnBlockAt(bs: seq<PlanBlock>, ps: seq<Placement>, h: Horizon, p: Placement) returns (k: nat)
    requires DrawnFrom(bs, ps, h) && p in ps && Shown(p)
    ensures k < |bs| && bs[k] == ActivityBlock(p, h) && IdOf(bs[k]) == p.activity.id
  {
    assert ActivityBlock(p, h) in bs;
    k :| 0 <= k < |bs| && bs[k] == ActivityBlock(p, h);
  }

  /** All blocks of one activity carry the label of its own block. */
  lemma {:induction false} SameLabel(bs: seq<PlanBlock>, k: nat, l: nat)
    requires ActivitiesJoin(bs) && k < |bs| && l < |bs| && IdOf(bs[k]) == IdOf(bs[l])
    ensures Label(bs, k) == Label(bs, l)
  {
    if k <= l {
      ActivityShareLabel(bs, k, l);
    } else {
      ActivityShareLabel(bs, l, k);
    }
  }

  /** A reserved minute is held by an eligible block of the activity. */
  lemma {:induction false} ReservedBlockAt(ps: seq<Placement>, h: Horizon, p: Placement, t: Instant) returns (k: nat)
    requires Renderable(ps, h) && h.start < h.end && p in ps && Shown(p) && Reserves(p, t) && p.activity.title != ""
    ensures var bs := EligibleOf(InternalPlan(ps, h)); k < |bs| && Covers(bs[k], t) && IdOf(bs[k]) == p.activity.id
  {
    var bs := EligibleOf(InternalPlan(ps, h));
    var b := RenderCovers(p, h, t);
    RenderShares(p, h, b);
    PlanMembers(ps, h);
    EligibleMembers(InternalPlan(ps, h));
    assert b in RenderAll(ps, h);
    assert b in bs;
    k :| 0 <= k < |bs| && bs[k] == b;
  }

  lemma {:induction false} ShownInBlock(bs: seq<PlanBlock>, h: Horizon, k: nat, t: Instant)
    requires Chained(bs, h.start, h.end) && k < |bs| && Covers(bs[k], t)
    ensures Label(bs, k) < |Project(bs)| && Shows(Project(bs)[Label(bs, k)], t)
  {
    InsideItsBlock(bs, k, h.start, h.end);
  }

  lemma {:induction false} WholeReservation(ps: seq<Placement>, h: Horizon, p: Placement, bs: seq<PlanBlock>, i: nat)
    requires bs == EligibleOf(InternalPlan(ps, h)) && DrawnFrom(bs, ps, h) && h.start < h.end && p in ps && Shown(p)
    requires i < |Project(bs)|
    requires forall k :: 0 <= k < |bs| && IdOf(bs[k]) == p.activity.id ==> Labelled(bs, k, i)
    ensures forall t :: Reserves(p, t) ==> Shows(Project(bs)[i], t)
  {
    hide Project, EligibleOf, InternalPlan, Label;
    forall t | Reserves(p, t)
      ensures Shows(Project(bs)[i], t)
    {
      var k := ReservedBlockAt(ps, h, p, t);
      ShownInBlock(bs, h, k, t);
      assert Labelled(bs, k, i);
    }
  }

  /** An eligible activity lies in exactly one calendar block, and that block shows every minute
      of its reservation, travel included. */
  lemma {:induction false} CalendarKeepsActivitiesWhole(ps: seq<Placement>, activities: set<Activity>, h: Horizon, p: Placement) returns (i: nat)
    requires Catalog(activities, h) && Sound(ps, activities, h) && h.start < h.end && p in ps && Shown(p)
    ensures i < |CalendarOf(ps, h)| && p.activity.id in CalendarOf(ps, h)[i].sourceIds
    ensures forall t :: Reserves(p, t) ==> Shows(CalendarOf(ps, h)[i], t)
    ensures forall j :: 0 <= j < |CalendarOf(ps, h)| && p.activity.id in CalendarOf(ps, h)[j].sourceIds ==> j == i
  {
    var bs, id := EligibleOf(InternalPlan(ps, h)), p.activity.id;
    PlanIsDrawn(ps, activities, h);
    DrawnActivitiesJoin(bs, ps, h);
    var k := OwnBlockAt(bs, ps, h, p);
    hide DrawnFrom, ActivitiesJoin, Catalog, Sound, Project, Label, EligibleOf, InternalPlan;
    i := Label(bs, k);
    LabelBound(bs, k);
    assert Labelled(bs, k, i);
    SourcesExact(bs, i, id);
    forall l | 0 <= l < |bs| && IdOf(bs[l]) == id
      ensures Labelled(bs, l, i)
    {
      SameLabel(bs, k, l);
    }
    WholeReservation(ps, h, p, bs, i);
    forall j | 0 <= j < |CalendarOf(ps, h)| && id in CalendarOf(ps, h)[j].sourceIds
      ensures j == i
    {
      SourcesDisjoint(bs, i, j, id);
    }
  }

  lemma {:induction false} DrawnChained(bs: seq<PlanBlock>, ps: seq<Placement>, h: Horizon)
    requires DrawnFrom(bs, ps, h)
    ensures Chained(bs, h.start, h.end) && Separate(ps)
  {
  }

  /** A calendar block bears the display title and the display group of every activity in it,
      which are the activity's own title and identifier where it gives none. */
  lemma {:induction false} CalendarTitled(ps: seq<Placement>, activities: set<Activity>, h: Horizon, p: Placement, i: nat)
    requires Catalog(activities, h) && Sound(ps, activities, h) && h.start < h.end && p in ps
    requires i < |CalendarOf(ps, h)| && p.activity.id in CalendarOf(ps, h)[i].sourceIds
    ensures var c, a := CalendarOf(ps, h)[i], p.activity;
            && c.title == (if a.displayTitle.Some? then a.displayTitle.value else a.title)
            && c.displayGroup == (if a.displayGroup.Some? then a.displayGroup.value else a.id)
            && a.calendarEligible && !a.personalMicroEvent
  {
    var bs, id := EligibleOf(InternalPlan(ps, h)), p.activity.id;
    assert WellPlaced(p, activities, h) && ValidActivity(p.activity);
    PlanIsDrawn(ps, activities, h);
    DrawnChained(bs, ps, h);
    hide DrawnFrom, Catalog, Sound, Project, Label, EligibleOf, InternalPlan, Chained, IdOf, TitleOf, GroupOf, DrawnBy, Separate;
    SourcesExact(bs, i, id);
    var k: nat :| Labelled(bs, k, i) && IdOf(bs[k]) == id;
    var q := SourcePlacement(bs, ps, h, k);
    SamePlacement(ps, p, q);
    DrawnSeparate(bs, ps, h, p);
    RenderShares(p, h, bs[k]);
    InsideItsBlock(bs, k, h.start, h.end);
  }

  /** Calendar blocks of activities whose identifiers have no colon are told apart by name. */
  lemma {:induction false} CalendarNamesTellApart(ps: seq<Placement>, activities: set<Activity>, h: Horizon, i: nat, j: nat)
    requires Catalog(activities, h) && Sound(ps, activities, h) && h.start < h.end
    requires forall p :: p in ps ==> ':' !in p.activity.id
    requires i < |CalendarOf(ps, h)| && j < |CalendarOf(ps, h)| && i != j
    ensures CalendarOf(ps, h)[i].blockId != CalendarOf(ps, h)[j].blockId
  {
    var bs := EligibleOf(InternalPlan(ps, h));
    PlanIsDrawn(ps, activities, h);
    DrawnActivitiesJoin(bs, ps, h);
    forall k | 0 <= k < |bs|
      ensures ':' !in IdOf(bs[k])
    {
      var p := SourcePlacement(bs, ps, h, k);
    }
    CalendarNamesDistinct(bs, i, j);
  }
}
