/** Rendering of the placements and of the free time between them as one gapless plan. */
module PlannerTiling {
  import opened Options
  import opened Ordering
  import opened PlannerModel
  import opened PlannerPlacement
  import opened PlannerFixed
  import opened PlannerSchedule

  datatype BlockKind = FixedBlock | FlexibleBlock | ProtectedBlock | Travel | Available

  datatype Code = CodeFixed | CodeProtected | CodeScheduled | CodeOverdue

  datatype BlockId = Named(text: string) | FreeFrom(start: Instant)

  datatype PlanBlock = PlanBlock(
    blockId: BlockId,
    activityId: Option<string>,
    title: string,
    kind: BlockKind,
    startsAt: Instant,
    endsAt: Instant,
    displayGroup: Option<string>,
    displayTitle: Option<string>,
    guidance: seq<string>,
    deadline: Option<Instant>,
    code: Option<Code>,
    calendarEligible: bool,
    personalMicroEvent: bool)

  function OrElse(text: Option<string>, otherwise: string): string
  {
    if text.Some? && text.value != "" then text.value else otherwise
  }

  function KindOf(f: Flexibility): BlockKind
  {
    match f
    case Fixed => FixedBlock
    case Flexible => FlexibleBlock
    case Protected => ProtectedBlock
  }

  function CodeOf(a: Activity, h: Horizon): Code
  {
    if a.deadline.Some? && a.deadline.value < h.start then CodeOverdue
    else match a.flexibility
      case Fixed => CodeFixed
      case Protected => CodeProtected
      case Flexible => CodeScheduled
  }

  function ActivityBlock(p: Placement, h: Horizon): PlanBlock
  {
    var a := p.activity;
    PlanBlock(Named("activity:" + a.id), Some(a.id), a.title, KindOf(a.flexibility), p.startsAt, p.endsAt,
              a.displayGroup, a.displayTitle, a.guidance, a.deadline, Some(CodeOf(a, h)),
              a.calendarEligible, a.personalMicroEvent)
  }

  function TravelBlock(p: Placement, before: bool, h: Horizon): PlanBlock
  {
    var a := p.activity;
    PlanBlock(Named((if before then "travel-before:" else "travel-after:") + a.id), Some(a.id),
              (if before then "Travel to " else "Travel from ") + a.title, Travel,
              if before then p.ReservationStart() else p.endsAt,
              if before then p.startsAt else p.ReservationEnd(),
              a.displayGroup, Some(OrElse(a.displayTitle, a.title)), a.guidance, a.deadline, Some(CodeOf(a, h)),
              a.calendarEligible, a.personalMicroEvent)
  }

  function FreeBlock(from: Instant, to: Instant): PlanBlock
  {
    PlanBlock(FreeFrom(from), None, "Available", Available, from, to, None, None, [], None, None, false, false)
  }

  function Render(p: Placement, h: Horizon): seq<PlanBlock>
  {
    (if p.activity.travelBefore != 0 then [TravelBlock(p, true, h)] else [])
    + [ActivityBlock(p, h)]
    + (if p.activity.travelAfter != 0 then [TravelBlock(p, false, h)] else [])
  }

  function RenderAll(ps: seq<Placement>, h: Horizon): seq<PlanBlock>
  {
    if ps == [] then [] else RenderAll(ps[..|ps| - 1], h) + Render(ps[|ps| - 1], h)
  }

  function BlockKey(b: PlanBlock): Key
  {
    Key(0, b.startsAt, if b.blockId.Named? then b.blockId.text else "")
  }

  /** Blocks in order with a free block wherever the cursor has not reached the next one. */
  function Tile(cursor: Instant, blocks: seq<PlanBlock>, end: Instant): seq<PlanBlock>
    decreases |blocks|
  {
    if blocks == [] then (if cursor < end then [FreeBlock(cursor, end)] else [])
    else
      (if cursor < blocks[0].startsAt then [FreeBlock(cursor, blocks[0].startsAt)] else [])
      + [blocks[0]] + Tile(blocks[0].endsAt, blocks[1..], end)
  }

  function InternalPlan(ps: seq<Placement>, h: Horizon): seq<PlanBlock>
  {
    Tile(h.start, Sort(BlockKey, RenderAll(ps, h)), h.end)
  }

  /** Renders the placements one after the other. */
  method RenderEach(ps: seq<Placement>, h: Horizon) returns (blocks: seq<PlanBlock>)
    ensures blocks == RenderAll(ps, h)
  {
    blocks := [];
    for i := 0 to |ps|
      invariant blocks == RenderAll(ps[..i], h)
    {
      var p := ps[i];
      ghost var before := blocks;
      if p.activity.travelBefore != 0 {
        blocks := blocks + [TravelBlock(p, true, h)];
      }
      blocks := blocks + [ActivityBlock(p, h)];
      if p.activity.travelAfter != 0 {
        blocks := blocks + [TravelBlock(p, false, h)];
      }
      assert blocks == before + Render(p, h);
      assert ps[..i + 1][..i] == ps[..i];
    }
    assert ps[..|ps|] == ps;
  }

  /** Walks the cursor over the window, filling every gap. */
  method LayOut(blocks: seq<PlanBlock>, from: Instant, to: Instant) returns (plan: seq<PlanBlock>)
    ensures plan == Tile(from, blocks, to)
  {
    hide Tile, FreeBlock;
    plan := [];
    var cursor := from;
    assert blocks[0..] == blocks;
    for i := 0 to |blocks|
      invariant plan + Tile(cursor, blocks[i..], to) == Tile(from, blocks, to)
    {
      assert blocks[i..] == [blocks[i]] + blocks[i + 1..];
      TileStep(plan, cursor, blocks[i], blocks[i + 1..], to);
      if cursor < blocks[i].startsAt {
        plan := plan + [FreeBlock(cursor, blocks[i].startsAt)];
      }
      plan := plan + [blocks[i]];
      cursor := blocks[i].endsAt;
    }
    TileEnd(cursor, to);
    assert blocks[|blocks|..] == [];
    if cursor < to {
      plan := plan + [FreeBlock(cursor, to)];
    }
  }

  lemma {:induction false} TileStep(plan: seq<PlanBlock>, cursor: Instant, b: PlanBlock, rest: seq<PlanBlock>, to: Instant)
    ensures plan + Tile(cursor, [b] + rest, to) ==
            (if cursor < b.startsAt then plan + [FreeBlock(cursor, b.startsAt)] else plan) + [b] + Tile(b.endsAt, rest, to)
  {
    hide FreeBlock;
    assert ([b] + rest)[1..] == rest;
  }

  lemma {:induction false} TileEnd(cursor: Instant, to: Instant)
    ensures Tile(cursor, [], to) == if cursor < to then [FreeBlock(cursor, to)] else []
  {
  }

  method BuildInternalPlan(ps: seq<Placement>, h: Horizon) returns (plan: seq<PlanBlock>)
    ensures plan == InternalPlan(ps, h)
  {
    var blocks := RenderEach(ps, h);
    plan := LayOut(Sort(BlockKey, blocks), h.start, h.end);
  }

  // ------------------------------------------------------------------ tiling

  /** Positive-length blocks from `from` to `to`, each beginning where the last one ended. */
  ghost predicate Gapless(plan: seq<PlanBlock>, from: Instant, to: Instant)
  {
    if plan == [] then from == to
    else plan[0].startsAt == from && from < plan[0].endsAt && Gapless(plan[1..], plan[0].endsAt, to)
  }

  ghost predicate Apart(b: PlanBlock, c: PlanBlock)
  {
    b.endsAt <= c.startsAt || c.endsAt <= b.startsAt
  }

  ghost predicate PairwiseApart(bs: seq<PlanBlock>)
  {
    forall i, j :: 0 <= i < j < |bs| ==> Apart(bs[i], bs[j])
  }

  /** Positive-length, in order, and inside `[from, to]`. */
  ghost predicate Chained(bs: seq<PlanBlock>, from: Instant, to: Instant)
  {
    && (forall i :: 0 <= i < |bs| ==> from <= bs[i].startsAt < bs[i].endsAt <= to)
    && (forall i, j :: 0 <= i < j < |bs| ==> bs[i].endsAt <= bs[j].startsAt)
  }

  lemma {:induction false} GaplessAppend(head: seq<PlanBlock>, tail: seq<PlanBlock>, from: Instant, mid: Instant, to: Instant)
    requires Gapless(head, from, mid) && Gapless(tail, mid, to)
    ensures Gapless(head + tail, from, to)
  {
    if head == [] {
      assert head + tail == tail;
    } else {
      GaplessAppend(head[1..], tail, head[0].endsAt, mid, to);
      assert (head + tail)[1..] == head[1..] + tail;
    }
  }

  lemma {:induction false} ChainedRest(bs: seq<PlanBlock>, from: Instant, to: Instant)
    requires Chained(bs, from, to) && bs != []
    ensures from <= bs[0].startsAt < bs[0].endsAt <= to && Chained(bs[1..], bs[0].endsAt, to)
  {
  }

  lemma {:induction false} TileGapless(cursor: Instant, bs: seq<PlanBlock>, end: Instant)
    requires cursor <= end && Chained(bs, cursor, end)
    ensures Gapless(Tile(cursor, bs, end), cursor, end)
    decreases |bs|
  {
    if bs != [] {
      ChainedRest(bs, cursor, end);
      hide Chained;
      TileGapless(bs[0].endsAt, bs[1..], end);
      var gap := if cursor < bs[0].startsAt then [FreeBlock(cursor, bs[0].startsAt)] else [];
      assert Gapless(gap, cursor, bs[0].startsAt);
      var rest := [bs[0]] + Tile(bs[0].endsAt, bs[1..], end);
      assert rest[1..] == Tile(bs[0].endsAt, bs[1..], end);
      GaplessAppend(gap, rest, cursor, bs[0].startsAt, end);
      assert gap + rest == Tile(cursor, bs, end);
    }
  }

  function TotalMinutes(plan: seq<PlanBlock>): int
  {
    if plan == [] then 0 else plan[0].endsAt - plan[0].startsAt + TotalMinutes(plan[1..])
  }

  lemma {:induction false} GaplessTotal(plan: seq<PlanBlock>, from: Instant, to: Instant)
    requires Gapless(plan, from, to)
    ensures TotalMinutes(plan) == to - from
  {
    if plan != [] {
      GaplessTotal(plan[1..], plan[0].endsAt, to);
    }
  }

  predicate Covers(b: PlanBlock, t: Instant)
  {
    b.startsAt <= t < b.endsAt
  }

  lemma {:induction false} GaplessStarts(plan: seq<PlanBlock>, from: Instant, to: Instant)
    requires Gapless(plan, from, to)
    ensures from <= to
    ensures forall b :: b in plan ==> from <= b.startsAt < b.endsAt <= to
  {
    if plan != [] {
      GaplessStarts(plan[1..], plan[0].endsAt, to);
      assert plan == [plan[0]] + plan[1..];
    }
  }

  /** Exactly one block covers a minute of the window. */
  lemma {:induction false} GaplessCovers(plan: seq<PlanBlock>, from: Instant, to: Instant, t: Instant) returns (k: nat)
    requires Gapless(plan, from, to) && from <= t < to
    ensures k < |plan| && Covers(plan[k], t)
    ensures forall j :: 0 <= j < |plan| && Covers(plan[j], t) ==> j == k
  {
    GaplessStarts(plan[1..], plan[0].endsAt, to);
    assert forall j :: 0 < j < |plan| ==> plan[j] in plan[1..] by {
      assert forall j :: 0 < j < |plan| ==> plan[1..][j - 1] == plan[j];
    }
    if t < plan[0].endsAt {
      k := 0;
    } else {
      var m := GaplessCovers(plan[1..], plan[0].endsAt, to, t);
      k := m + 1;
      forall j | 0 <= j < |plan| && Covers(plan[j], t)
        ensures j == k
      {
        assert j > 0 ==> plan[1..][j - 1] == plan[j];
      }
    }
  }

  /** The plan with its free blocks taken out. */
  function Occupied(plan: seq<PlanBlock>): seq<PlanBlock>
  {
    if plan == [] then []
    else (if plan[0].kind.Available? then [] else [plan[0]]) + Occupied(plan[1..])
  }

  lemma {:induction false} OccupiedConcat(xs: seq<PlanBlock>, ys: seq<PlanBlock>)
    ensures Occupied(xs + ys) == Occupied(xs) + Occupied(ys)
  {
    if xs == [] {
      assert xs + ys == ys;
    } else {
      var b, rest := xs[0], xs[1..];
      OccupiedConcat(rest, ys);
      hide Occupied;
      ConsConcat(b, rest, ys);
      assert xs == [b] + rest;
      OccupiedCons(b, rest);
      OccupiedCons(b, rest + ys);
      ConsConcat(b, Occupied(rest), Occupied(ys));
    }
  }

  lemma {:induction false} ConsConcat(b: PlanBlock, xs: seq<PlanBlock>, ys: seq<PlanBlock>)
    ensures [b] + (xs + ys) == ([b] + xs) + ys
  {
  }

  lemma {:induction false} OccupiedCons(b: PlanBlock, rest: seq<PlanBlock>)
    ensures Occupied([b] + rest) == if b.kind.Available? then Occupied(rest) else [b] + Occupied(rest)
  {
    assert ([b] + rest)[1..] == rest;
    assert [] + Occupied(rest) == Occupied(rest);
  }

  lemma {:induction false} TileOccupied(cursor: Instant, bs: seq<PlanBlock>, end: Instant)
    requires forall b :: b in bs ==> !b.kind.Available?
    ensures Occupied(Tile(cursor, bs, end)) == bs
    decreases |bs|
  {
    if bs != [] {
      TileOccupied(bs[0].endsAt, bs[1..], end);
      var gap := if cursor < bs[0].startsAt then [FreeBlock(cursor, bs[0].startsAt)] else [];
      var rest := Tile(bs[0].endsAt, bs[1..], end);
      OccupiedConcat(gap + [bs[0]], rest);
      OccupiedConcat(gap, [bs[0]]);
      assert Tile(cursor, bs, end) == gap + [bs[0]] + rest;
    }
  }

  lemma {:induction false} OccupiedMembers(plan: seq<PlanBlock>)
    ensures forall b :: b in Occupied(plan) <==> b in plan && !b.kind.Available?
  {
    if plan != [] {
      OccupiedMembers(plan[1..]);
      assert plan == [plan[0]] + plan[1..];
    }
  }

  // --------------------------------------------------- blocks of a sound plan

  lemma {:induction false} RenderAllMembers(ps: seq<Placement>, h: Horizon)
    ensures forall b :: b in RenderAll(ps, h) <==> exists p :: p in ps && b in Render(p, h)
  {
    if ps != [] {
      var front, last := ps[..|ps| - 1], ps[|ps| - 1];
      RenderAllMembers(front, h);
      assert ps == front + [last];
    }
  }

  predicate Reserves(p: Placement, t: Instant)
  {
    p.ReservationStart() <= t < p.ReservationEnd()
  }

  ghost predicate Extended(p: Placement)
  {
    0 <= p.activity.travelBefore && 0 <= p.activity.travelAfter && p.startsAt < p.endsAt
  }

  /** The blocks of one placement lie in its reservation and are apart. */
  lemma {:induction false} RenderInside(p: Placement, h: Horizon)
    requires Extended(p)
    ensures PairwiseApart(Render(p, h))
    ensures forall b :: b in Render(p, h) ==>
              !b.kind.Available? && p.ReservationStart() <= b.startsAt < b.endsAt <= p.ReservationEnd()
  {
  }

  /** They leave no minute of the reservation out. */
  lemma {:induction false} RenderCovers(p: Placement, h: Horizon, t: Instant) returns (b: PlanBlock)
    requires Extended(p) && Reserves(p, t)
    ensures b in Render(p, h) && Covers(b, t)
  {
    b := if t < p.startsAt then TravelBlock(p, true, h)
         else if t < p.endsAt then ActivityBlock(p, h)
         else TravelBlock(p, false, h);
  }

  ghost predicate Renderable(ps: seq<Placement>, h: Horizon)
  {
    Separate(ps) && forall p :: p in ps ==> Extended(p) && InWindow(p, h)
  }

  lemma {:induction false} RenderedApart(p: Placement, q: Placement, h: Horizon, b: PlanBlock, c: PlanBlock)
    requires Extended(p) && Extended(q) && !Overlaps(p, q) && b in Render(p, h) && c in Render(q, h)
    ensures Apart(b, c)
  {
    RenderInside(p, h);
    RenderInside(q, h);
  }

  lemma {:induction false} ApartConcat(xs: seq<PlanBlock>, ys: seq<PlanBlock>)
    requires PairwiseApart(xs) && PairwiseApart(ys)
    requires forall i, j :: 0 <= i < |xs| && 0 <= j < |ys| ==> Apart(xs[i], ys[j])
    ensures PairwiseApart(xs + ys)
  {
  }

  lemma {:induction false} RenderableFront(ps: seq<Placement>, h: Horizon)
    requires Renderable(ps, h) && ps != []
    ensures Renderable(ps[..|ps| - 1], h) && Extended(ps[|ps| - 1])
    ensures forall p :: p in ps[..|ps| - 1] ==> Extended(p) && !Overlaps(p, ps[|ps| - 1])
  {
    var front := ps[..|ps| - 1];
    assert forall p :: p in front ==> p in ps;
    forall p | p in front
      ensures !Overlaps(p, ps[|ps| - 1])
    {
      var k :| 0 <= k < |front| && front[k] == p;
      assert ps[k] == p;
    }
  }

  lemma {:induction false} RenderAllApart(ps: seq<Placement>, h: Horizon)
    requires Renderable(ps, h)
    ensures PairwiseApart(RenderAll(ps, h))
  {
    if ps != [] {
      var front, last := ps[..|ps| - 1], ps[|ps| - 1];
      RenderableFront(ps, h);
      RenderAllApart(front, h);
      RenderInside(last, h);
      RenderAllMembers(front, h);
      var xs, ys := RenderAll(front, h), Render(last, h);
      forall i, j | 0 <= i < |xs| && 0 <= j < |ys|
        ensures Apart(xs[i], ys[j])
      {
        assert xs[i] in RenderAll(front, h);
        var p :| p in front && xs[i] in Render(p, h);
        RenderedApart(p, last, h, xs[i], ys[j]);
      }
      ApartConcat(xs, ys);
    }
  }

  lemma {:induction false} RenderAllInside(ps: seq<Placement>, h: Horizon)
    requires Renderable(ps, h)
    ensures forall b :: b in RenderAll(ps, h) ==>
              !b.kind.Available? && h.start <= b.startsAt < b.endsAt <= h.end
  {
    RenderAllMembers(ps, h);
    forall b | b in RenderAll(ps, h)
      ensures !b.kind.Available? && h.start <= b.startsAt < b.endsAt <= h.end
    {
      var p :| p in ps && b in Render(p, h);
      RenderInside(p, h);
    }
  }

  /** Sorting blocks that are apart puts them one after the other. */
  lemma {:induction false} SortChains(bs: seq<PlanBlock>, from: Instant, to: Instant)
    requires PairwiseApart(bs) && forall b :: b in bs ==> from <= b.startsAt < b.endsAt <= to
    ensures Chained(Sort(BlockKey, bs), from, to)
    ensures forall b :: b in Sort(BlockKey, bs) <==> b in bs
  {
    var sorted := Sort(BlockKey, bs);
    MembersOfMultiset(sorted, bs);
    forall i, j | 0 <= i < j < |bs|
      ensures BlockKey(bs[i]) != BlockKey(bs[j])
    {
      assert bs[i] in bs && bs[j] in bs;
      assert Apart(bs[i], bs[j]);
    }
    SortAscends(BlockKey, bs);
    forall i | 0 <= i < |sorted|
      ensures from <= sorted[i].startsAt < sorted[i].endsAt <= to
    {
      assert sorted[i] in bs;
    }
    forall i, j | 0 <= i < j < |sorted|
      ensures sorted[i].endsAt <= sorted[j].startsAt
    {
      BeforeAsymmetric(BlockKey(sorted[i]), BlockKey(sorted[j]));
      assert sorted[i] in bs && sorted[j] in bs;
      var k :| 0 <= k < |bs| && bs[k] == sorted[i];
      var l :| 0 <= l < |bs| && bs[l] == sorted[j];
      assert Apart(sorted[i], sorted[j]) by {
        if k < l { assert Apart(bs[k], bs[l]); } else { assert Apart(bs[l], bs[k]); }
      }
    }
  }

  lemma {:induction false} SortedBlocksChain(ps: seq<Placement>, h: Horizon)
    requires Renderable(ps, h) && h.start <= h.end
    ensures var sorted := Sort(BlockKey, RenderAll(ps, h));
            Chained(sorted, h.start, h.end) && (forall b :: b in sorted ==> !b.kind.Available?)
  {
    RenderAllApart(ps, h);
    RenderAllInside(ps, h);
    SortChains(RenderAll(ps, h), h.start, h.end);
  }

  /** The internal plan tiles the window, so its minutes add up to the window's length. */
  lemma {:induction false} PlanTilesWindow(ps: seq<Placement>, h: Horizon)
    requires Renderable(ps, h) && h.start < h.end
    ensures Gapless(InternalPlan(ps, h), h.start, h.end)
    ensures TotalMinutes(InternalPlan(ps, h)) == h.end - h.start
  {
    SortedBlocksChain(ps, h);
    TileGapless(h.start, Sort(BlockKey, RenderAll(ps, h)), h.end);
    GaplessTotal(InternalPlan(ps, h), h.start, h.end);
  }

  /** Outside its free blocks the plan is exactly the rendered placements, in order. */
  lemma {:induction false} PlanKeepsBlocks(ps: seq<Placement>, h: Horizon)
    requires Renderable(ps, h) && h.start < h.end
    ensures multiset(Occupied(InternalPlan(ps, h))) == multiset(RenderAll(ps, h))
    ensures Chained(Occupied(InternalPlan(ps, h)), h.start, h.end)
  {
    SortedBlocksChain(ps, h);
    TileOccupied(h.start, Sort(BlockKey, RenderAll(ps, h)), h.end);
  }

  lemma {:induction false} PlanMembers(ps: seq<Placement>, h: Horizon)
    requires Renderable(ps, h) && h.start < h.end
    ensures forall b :: b in InternalPlan(ps, h) && !b.kind.Available? <==> b in RenderAll(ps, h)
    ensures forall b :: b in RenderAll(ps, h) <==> exists p :: p in ps && b in Render(p, h)
  {
    PlanKeepsBlocks(ps, h);
    MembersOfMultiset(Occupied(InternalPlan(ps, h)), RenderAll(ps, h));
    OccupiedMembers(InternalPlan(ps, h));
    RenderAllMembers(ps, h);
  }

  lemma {:induction false} ReservedIsBusy(ps: seq<Placement>, h: Horizon, t: Instant, p: Placement) returns (j: nat)
    requires Renderable(ps, h) && h.start < h.end && p in ps && Reserves(p, t)
    ensures j < |InternalPlan(ps, h)| && Covers(InternalPlan(ps, h)[j], t) && !InternalPlan(ps, h)[j].kind.Available?
  {
    var b := RenderCovers(p, h, t);
    PlanMembers(ps, h);
    RenderAllInside(ps, h);
    assert b in RenderAll(ps, h);
    j :| 0 <= j < |InternalPlan(ps, h)| && InternalPlan(ps, h)[j] == b;
  }

  /** Every minute of the window is in one block, and that block is free exactly when no
      reservation, travel included, holds the minute. */
  lemma {:induction false} FreeMinutesAreExact(ps: seq<Placement>, h: Horizon, t: Instant) returns (k: nat)
    requires Renderable(ps, h) && h.start <= t < h.end
    ensures k < |InternalPlan(ps, h)| && Covers(InternalPlan(ps, h)[k], t)
    ensures forall j :: 0 <= j < |InternalPlan(ps, h)| && Covers(InternalPlan(ps, h)[j], t) ==> j == k
    ensures InternalPlan(ps, h)[k].kind.Available? <==> !exists p :: p in ps && Reserves(p, t)
  {
    var plan := InternalPlan(ps, h);
    PlanTilesWindow(ps, h);
    k := GaplessCovers(plan, h.start, h.end, t);
    if p :| p in ps && Reserves(p, t) {
      var j := ReservedIsBusy(ps, h, t, p);
    } else if !plan[k].kind.Available? {
      PlanMembers(ps, h);
      assert plan[k] in RenderAll(ps, h);
      var p :| p in ps && plan[k] in Render(p, h);
      RenderInside(p, h);
    }
  }

  lemma {:induction false} SoundIsRenderable(ps: seq<Placement>, activities: set<Activity>, h: Horizon)
    requires Catalog(activities, h) && Sound(ps, activities, h)
    ensures Renderable(ps, h)
  {
    forall p | p in ps
      ensures Extended(p) && InWindow(p, h)
    {
      assert WellPlaced(p, activities, h) && ValidActivity(p.activity);
    }
  }
}
