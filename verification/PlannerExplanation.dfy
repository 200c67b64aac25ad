/** One explanation for each activity: why it is where it is, or that it could not be placed. The
    wording is left out; the code, the score and the blocks it points to are kept. */
module PlannerExplanation {
  import opened Options
  import Ordering
  import opened PlannerModel
  import opened PlannerScoring
  import opened PlannerPlacement
  import opened PlannerFixed
  import opened PlannerFlexible
  import opened PlannerSchedule
  import opened PlannerTiling

  datatype Why = Infeasible | Because(code: Code)

  datatype Explanation = Explanation(activityId: string, why: Why, score: Score, blockIds: seq<BlockId>)

  function DependentsOf(h: Horizon, id: string): nat { if id in h.dependents then h.dependents[id] else 0 }

  /** The first placement of the activity. */
  function PlacementOf(ps: seq<Placement>, id: string): Option<Placement>
  {
    if ps == [] then None
    else
      var earlier := PlacementOf(ps[..|ps| - 1], id);
      if earlier.Some? then earlier
      else if ps[|ps| - 1].activity.id == id then Some(ps[|ps| - 1]) else None
  }

  function BlockIdsOf(a: Activity): seq<BlockId>
  {
    (if a.travelBefore != 0 then [Named("travel-before:" + a.id)] else [])
    + [Named("activity:" + a.id)]
    + (if a.travelAfter != 0 then [Named("travel-after:" + a.id)] else [])
  }

  function Explain(a: Activity, h: Horizon, ps: seq<Placement>): Explanation
  {
    match PlacementOf(ps, a.id)
    case None => Explanation(a.id, Infeasible, ScoreActivity(a, h, h.start, DependentsOf(h, a.id)), [])
    case Some(p) => Explanation(a.id, Because(CodeOf(a, h)), p.score, BlockIdsOf(a))
  }

  function ExplainAll(activities: seq<Activity>, h: Horizon, ps: seq<Placement>): seq<Explanation>
  {
    seq(|activities|, i requires 0 <= i < |activities| => Explain(activities[i], h, ps))
  }

  function ExplainConflict(a: Activity, h: Horizon): Explanation
  {
    var at := if a.fixedStart.Some? then a.fixedStart.value else h.start;
    Explanation(a.id, Infeasible, ScoreActivity(a, h, at, DependentsOf(h, a.id)), [])
  }

  /** Only the activities in conflict are explained when the fixed ones clash. */
  function ExplainConflicts(activities: seq<Activity>, ids: set<string>, h: Horizon): seq<Explanation>
  {
    if activities == [] then []
    else
      var a := activities[|activities| - 1];
      ExplainConflicts(activities[..|activities| - 1], ids, h) + if a.id in ids then [ExplainConflict(a, h)] else []
  }

  /** The activity is placed or has a reason why not. */
  ghost predicate Explainable(a: Activity, ps: seq<Placement>, us: seq<Unscheduled>)
  {
    a.id in PlacedIds(ps) || a.id in ReportedIds(us)
  }

  lemma {:induction false} PlacementFound(ps: seq<Placement>, id: string)
    ensures PlacementOf(ps, id).Some? <==> id in PlacedIds(ps)
    ensures PlacementOf(ps, id).Some? ==> PlacementOf(ps, id).value in ps && PlacementOf(ps, id).value.activity.id == id
  {
    if ps != [] {
      var front, last := ps[..|ps| - 1], ps[|ps| - 1];
      PlacementFound(front, id);
      assert ps == front + [last];
      PlacedIdsGrow(front, last);
    }
  }

  method FindPlacement(ps: seq<Placement>, id: string) returns (found: Option<Placement>)
    ensures found == PlacementOf(ps, id)
  {
    found := None;
    var i := 0;
    while i < |ps| && found.None?
      invariant 0 <= i <= |ps| && found == PlacementOf(ps[..i], id)
    {
      assert ps[..i + 1][..i] == ps[..i];
      if ps[i].activity.id == id {
        found := Some(ps[i]);
      }
      i := i + 1;
    }
    PlacementStays(ps, i, id);
  }

  lemma {:induction false} PlacementStays(ps: seq<Placement>, i: nat, id: string)
    requires i <= |ps| && (i == |ps| || PlacementOf(ps[..i], id).Some?)
    ensures PlacementOf(ps, id) == PlacementOf(ps[..i], id)
    decreases |ps|
  {
    if i < |ps| {
      var front := ps[..|ps| - 1];
      assert front[..i] == ps[..i];
      PlacementStays(front, i, id);
    } else {
      assert ps[..i] == ps;
    }
  }

  /** The reason of an activity that is not placed is always found: the lookup cannot fail. */
  method FindReason(us: seq<Unscheduled>, id: string) returns (u: Unscheduled)
    requires id in ReportedIds(us)
    ensures u in us && u.activityId == id
  {
    var i := 0;
    while us[i].activityId != id
      invariant 0 <= i < |us|
      invariant forall j :: 0 <= j < i ==> us[j].activityId != id
      invariant exists j :: i <= j < |us| && us[j].activityId == id
      decreases |us| - i
    {
      i := i + 1;
    }
    u := us[i];
  }

  method ExplainOne(a: Activity, h: Horizon, ps: seq<Placement>, us: seq<Unscheduled>) returns (e: Explanation)
    requires Explainable(a, ps, us)
    ensures e == Explain(a, h, ps)
  {
    var found := FindPlacement(ps, a.id);
    PlacementFound(ps, a.id);
    if found.None? {
      var reason := FindReason(us, a.id);
      return Explanation(reason.activityId, Infeasible, ScoreActivity(a, h, h.start, DependentsOf(h, a.id)), []);
    }
    var ids := [Named("activity:" + a.id)];
    if a.travelBefore != 0 {
      ids := [Named("travel-before:" + a.id)] + ids;
    }
    if a.travelAfter != 0 {
      ids := ids + [Named("travel-after:" + a.id)];
    }
    assert ids == BlockIdsOf(a);
    return Explanation(a.id, Because(CodeOf(a, h)), found.value.score, ids);
  }

  method ExplainEach(activities: seq<Activity>, h: Horizon, ps: seq<Placement>, us: seq<Unscheduled>) returns (es: seq<Explanation>)
    requires forall a :: a in activities ==> Explainable(a, ps, us)
    ensures es == ExplainAll(activities, h, ps)
  {
    hide Explain;
    es := [];
    for i := 0 to |activities|
      invariant |es| == i
      invariant forall j :: 0 <= j < i ==> es[j] == Explain(activities[j], h, ps)
    {
      assert activities[i] in activities;
      var e := ExplainOne(activities[i], h, ps, us);
      es := es + [e];
    }
  }

  method ExplainEachConflict(activities: seq<Activity>, ids: set<string>, h: Horizon) returns (es: seq<Explanation>)
    ensures es == ExplainConflicts(activities, ids, h)
  {
    hide ExplainConflict;
    es := [];
    for i := 0 to |activities|
      invariant es == ExplainConflicts(activities[..i], ids, h)
    {
      assert activities[..i + 1][..i] == activities[..i];
      if activities[i].id in ids {
        es := es + [ExplainConflict(activities[i], h)];
      }
    }
    assert activities[..|activities|] == activities;
  }

  // ------------------------------------------------------------ explanations are true

  /** A rendered placement consists of the blocks its activity's explanation names. */
  lemma {:induction false} RenderedIds(p: Placement, h: Horizon, id: BlockId)
    ensures id in BlockIdsOf(p.activity) <==> exists b :: b in Render(p, h) && b.blockId == id
  {
    var before, own, after := TravelBlock(p, true, h), ActivityBlock(p, h), TravelBlock(p, false, h);
    assert own in Render(p, h);
    assert p.activity.travelBefore != 0 ==> before in Render(p, h);
    assert p.activity.travelAfter != 0 ==> after in Render(p, h);
    assert forall b :: b in Render(p, h) ==> b == own || (b == before && p.activity.travelBefore != 0)
                                             || (b == after && p.activity.travelAfter != 0);
  }

  lemma {:induction false} RenderedBy(p: Placement, h: Horizon, b: PlanBlock)
    requires b in Render(p, h)
    ensures b.activityId == Some(p.activity.id) && !b.kind.Available?
  {
  }

  lemma {:induction false} OnePlacement(ps: seq<Placement>, p: Placement, q: Placement)
    requires Separate(ps) && p in ps && q in ps && p.activity.id == q.activity.id
    ensures p == q
  {
    var i :| 0 <= i < |ps| && ps[i] == p;
    var j :| 0 <= j < |ps| && ps[j] == q;
  }

  /** A block identity of an activity is named in its explanation exactly when the internal plan
      has such a block. */
  lemma {:induction false} NamedBlocksExist(ps: seq<Placement>, activities: set<Activity>, h: Horizon, a: Activity, id: BlockId)
    requires Catalog(activities, h) && Sound(ps, activities, h) && h.start < h.end && a in activities
    ensures id in Explain(a, h, ps).blockIds <==>
            exists b :: b in InternalPlan(ps, h) && b.activityId == Some(a.id) && b.blockId == id
  {
    hide InternalPlan, Render, BlockIdsOf, CodeOf, ScoreActivity;
    SoundIsRenderable(ps, activities, h);
    PlanMembers(ps, h);
    PlacementFound(ps, a.id);
    if id in Explain(a, h, ps).blockIds {
      var p := PlacementOf(ps, a.id).value;
      SameActivity(ps, activities, h, p, a);
      RenderedIds(p, h, id);
      var b :| b in Render(p, h) && b.blockId == id;
      RenderedBy(p, h, b);
      assert b in RenderAll(ps, h);
    }
    if b :| b in InternalPlan(ps, h) && b.activityId == Some(a.id) && b.blockId == id {
      FreeBlocksUnowned(ps, h, b);
      var p :| p in ps && b in Render(p, h);
      RenderedBy(p, h, b);
      OnePlacement(ps, p, PlacementOf(ps, a.id).value);
      SameActivity(ps, activities, h, p, a);
      RenderedIds(p, h, id);
    }
  }

  lemma {:induction false} SameActivity(ps: seq<Placement>, activities: set<Activity>, h: Horizon, p: Placement, a: Activity)
    requires Catalog(activities, h) && Sound(ps, activities, h) && p in ps && a in activities && p.activity.id == a.id
    ensures p.activity == a
  {
    assert WellPlaced(p, activities, h);
  }

  lemma {:induction false} FreeBlocksUnowned(ps: seq<Placement>, h: Horizon, b: PlanBlock)
    requires b in InternalPlan(ps, h)
    ensures b.kind.Available? ==> b.activityId.None?
  {
    var blocks := RenderAll(ps, h);
    TileMembers(h.start, Ordering.Sort(BlockKey, blocks), h.end, b);
    Ordering.MembersOfMultiset(Ordering.Sort(BlockKey, blocks), blocks);
    RenderAllMembers(ps, h);
    if b in blocks {
      var p :| p in ps && b in Render(p, h);
      RenderedBy(p, h, b);
    }
  }

  lemma {:induction false} TileMembers(cursor: Instant, blocks: seq<PlanBlock>, end: Instant, b: PlanBlock)
    requires b in Tile(cursor, blocks, end)
    ensures b in blocks || b.activityId.None?
    decreases |blocks|
  {
    if blocks != [] {
      var rest := Tile(blocks[0].endsAt, blocks[1..], end);
      if b in rest {
        TileMembers(blocks[0].endsAt, blocks[1..], end, b);
      }
    }
  }
}
