/** The exact difference between a proposal and the baseline the caller supplied. */
module PlannerDiff {
  import opened Options
  import opened PlannerModel
  import opened PlannerTiling

  datatype Change = Change(activityId: string, title: string, startsAt: Instant, endsAt: Instant)

  datatype Move = Move(
    activityId: string, title: string,
    previousStart: Instant, previousEnd: Instant, proposedStart: Instant, proposedEnd: Instant)

  /** Changes by block identifier; the three parts are listed in identifier order. */
  datatype PlanDiff = PlanDiff(added: map<string, Change>, removed: map<string, Change>, moved: map<string, Move>)

  type Spans = map<string, (Instant, Instant)>

  function BaselineTable(bs: seq<BaselineBlock>): map<string, BaselineBlock>
  {
    if bs == [] then map[] else BaselineTable(bs[..|bs| - 1])[bs[|bs| - 1].blockId := bs[|bs| - 1]]
  }

  function ProposedTable(bs: seq<PlanBlock>): (m: map<string, PlanBlock>)
    ensures forall id :: id in m ==> m[id].activityId.Some?
  {
    if bs == [] then map[]
    else
      var rest := ProposedTable(bs[..|bs| - 1]);
      var b := bs[|bs| - 1];
      if b.activityId.Some? && !b.kind.Available? && b.blockId.Named? then rest[b.blockId.text := b] else rest
  }

  ghost function BaselineSpans(m: map<string, BaselineBlock>): Spans
  {
    Tabulate(m.Keys, id requires id in m => (m[id].startsAt, m[id].endsAt))
  }

  ghost function ProposedSpans(m: map<string, PlanBlock>): Spans
  {
    Tabulate(m.Keys, id requires id in m => (m[id].startsAt, m[id].endsAt))
  }

  function AsChange(b: PlanBlock): Change
    requires b.activityId.Some?
  {
    Change(b.activityId.value, b.title, b.startsAt, b.endsAt)
  }

  function AsRemoved(b: BaselineBlock): Change
  {
    Change(b.activityId, b.title, b.startsAt, b.endsAt)
  }

  function AsMove(from: BaselineBlock, to: PlanBlock): Move
    requires to.activityId.Some?
  {
    Move(to.activityId.value, to.title, from.startsAt, from.endsAt, to.startsAt, to.endsAt)
  }

  predicate Moves(from: BaselineBlock, to: PlanBlock)
  {
    to.startsAt != from.startsAt || to.endsAt != from.endsAt
  }

  function MovedIds(baseline: map<string, BaselineBlock>, proposed: map<string, PlanBlock>): set<string>
  {
    set id | id in proposed && id in baseline && Moves(baseline[id], proposed[id])
  }

  ghost function DiffOf(baseline: map<string, BaselineBlock>, proposed: map<string, PlanBlock>): PlanDiff
    requires forall id :: id in proposed ==> proposed[id].activityId.Some?
  {
    PlanDiff(
      Tabulate(proposed.Keys - baseline.Keys, id requires id in proposed => AsChange(proposed[id])),
      Tabulate(baseline.Keys - proposed.Keys, id requires id in baseline => AsRemoved(baseline[id])),
      Tabulate(MovedIds(baseline, proposed), id requires id in baseline && id in proposed => AsMove(baseline[id], proposed[id])))
  }

  ghost function BuildDiff(baseline: seq<BaselineBlock>, plan: seq<PlanBlock>): PlanDiff
  {
    DiffOf(BaselineTable(baseline), ProposedTable(plan))
  }

  ghost predicate PartAdded(b: map<string, BaselineBlock>, p: map<string, PlanBlock>, left: set<string>, added: map<string, Change>)
    requires Attributed(p)
  {
    added.Keys == p.Keys - b.Keys - left && forall id :: id in added ==> added[id] == AsChange(p[id])
  }

  ghost predicate PartRemoved(b: map<string, BaselineBlock>, p: map<string, PlanBlock>, left: set<string>, removed: map<string, Change>)
  {
    removed.Keys == b.Keys - p.Keys - left && forall id :: id in removed ==> removed[id] == AsRemoved(b[id])
  }

  ghost predicate PartMoved(b: map<string, BaselineBlock>, p: map<string, PlanBlock>, left: set<string>, moved: map<string, Move>)
    requires Attributed(p)
  {
    moved.Keys == MovedIds(b, p) - left && forall id :: id in moved ==> moved[id] == AsMove(b[id], p[id])
  }

  /** The difference as far as the identifiers in `left` are not looked at. */
  ghost predicate PartialDiff(b: map<string, BaselineBlock>, p: map<string, PlanBlock>, left: set<string>, d: PlanDiff)
    requires Attributed(p)
  {
    PartAdded(b, p, left, d.added) && PartRemoved(b, p, left, d.removed) && PartMoved(b, p, left, d.moved)
  }

  /** One more identifier. */
  function Compare(b: map<string, BaselineBlock>, p: map<string, PlanBlock>, id: string, d: PlanDiff): PlanDiff
    requires id in b || (id in p && p[id].activityId.Some?)
    requires id in p ==> p[id].activityId.Some?
  {
    if id !in b then d.(added := d.added[id := AsChange(p[id])])
    else if id !in p then d.(removed := d.removed[id := AsRemoved(b[id])])
    else if Moves(b[id], p[id]) then d.(moved := d.moved[id := AsMove(b[id], p[id])])
    else d
  }

  lemma {:induction false} CompareStep(b: map<string, BaselineBlock>, p: map<string, PlanBlock>, left: set<string>, id: string, d: PlanDiff)
    requires Attributed(p) && PartialDiff(b, p, left, d) && id in left && left <= b.Keys + p.Keys
    ensures PartialDiff(b, p, left - {id}, Compare(b, p, id, d))
  {
    AddedStep(b, p, left, id, d.added);
    RemovedStep(b, p, left, id, d.removed);
    MovedStep(b, p, left, id, d.moved);
    hide AsChange, AsRemoved, AsMove, Moves, PartAdded, PartRemoved, PartMoved;
  }

  lemma {:induction false} AddedStep(b: map<string, BaselineBlock>, p: map<string, PlanBlock>, left: set<string>, id: string, m: map<string, Change>)
    requires Attributed(p) && PartAdded(b, p, left, m) && id in left && left <= b.Keys + p.Keys
    ensures PartAdded(b, p, left - {id}, if id !in b then m[id := AsChange(p[id])] else m)
  {
    hide AsChange;
  }

  lemma {:induction false} RemovedStep(b: map<string, BaselineBlock>, p: map<string, PlanBlock>, left: set<string>, id: string, m: map<string, Change>)
    requires PartRemoved(b, p, left, m) && id in left && left <= b.Keys + p.Keys
    ensures PartRemoved(b, p, left - {id}, if id in b && id !in p then m[id := AsRemoved(b[id])] else m)
  {
    hide AsRemoved;
  }

  lemma {:induction false} MovedStep(b: map<string, BaselineBlock>, p: map<string, PlanBlock>, left: set<string>, id: string, m: map<string, Move>)
    requires Attributed(p) && PartMoved(b, p, left, m) && id in left
    ensures PartMoved(b, p, left - {id}, if id in b && id in p && Moves(b[id], p[id]) then m[id := AsMove(b[id], p[id])] else m)
  {
    hide AsMove, Moves;
  }

  /** Goes through the identifiers of both tables once. */
  method ComputeDiff(baseline: seq<BaselineBlock>, plan: seq<PlanBlock>) returns (d: PlanDiff)
    ensures d == BuildDiff(baseline, plan)
  {
    hide BaselineTable, ProposedTable, DiffOf, PartialDiff, Compare;
    var before, proposed := BaselineTable(baseline), ProposedTable(plan);
    d := PlanDiff(map[], map[], map[]);
    var left := before.Keys + proposed.Keys;
    NothingCompared(before, proposed);
    while left != {}
      invariant left <= before.Keys + proposed.Keys && PartialDiff(before, proposed, left, d)
      decreases left
    {
      var id :| id in left;
      CompareStep(before, proposed, left, id, d);
      d := Compare(before, proposed, id, d);
      left := left - {id};
    }
    AllCompared(before, proposed, d);
  }

  lemma {:induction false} NothingCompared(b: map<string, BaselineBlock>, p: map<string, PlanBlock>)
    requires Attributed(p)
    ensures PartialDiff(b, p, b.Keys + p.Keys, PlanDiff(map[], map[], map[]))
  {
  }

  lemma {:induction false} AllCompared(b: map<string, BaselineBlock>, p: map<string, PlanBlock>, d: PlanDiff)
    requires Attributed(p) && PartialDiff(b, p, {}, d)
    ensures d == DiffOf(b, p)
  {
    hide AsChange, AsRemoved, AsMove, Moves, DiffOf;
    DiffIs(b, p, d);
  }

  /** The difference is known by its three sets of identifiers and what is listed under each. */
  lemma {:induction false} DiffIs(b: map<string, BaselineBlock>, p: map<string, PlanBlock>, d: PlanDiff)
    requires Attributed(p)
    requires d.added.Keys == p.Keys - b.Keys && d.removed.Keys == b.Keys - p.Keys && d.moved.Keys == MovedIds(b, p)
    requires forall id :: id in d.added ==> d.added[id] == AsChange(p[id])
    requires forall id :: id in d.removed ==> d.removed[id] == AsRemoved(b[id])
    requires forall id :: id in d.moved ==> d.moved[id] == AsMove(b[id], p[id])
    ensures d == DiffOf(b, p)
  {
    hide AsChange, AsRemoved, AsMove, Moves;
    DiffHas(b, p);
    hide DiffOf;
    var e := DiffOf(b, p);
    assert d.added == e.added && d.removed == e.removed && d.moved == e.moved;
  }

  lemma {:induction false} DiffHas(b: map<string, BaselineBlock>, p: map<string, PlanBlock>)
    requires Attributed(p)
    ensures var d := DiffOf(b, p);
            && d.added.Keys == p.Keys - b.Keys && d.removed.Keys == b.Keys - p.Keys && d.moved.Keys == MovedIds(b, p)
            && (forall id :: id in d.added ==> d.added[id] == AsChange(p[id]))
            && (forall id :: id in d.removed ==> d.removed[id] == AsRemoved(b[id]))
            && (forall id :: id in d.moved ==> d.moved[id] == AsMove(b[id], p[id]))
  {
    hide AsChange, AsRemoved, AsMove, Moves, MovedIds;
  }

  /** What a carried-out change says of the block. */
  function SpanAfter(spans: Spans, d: PlanDiff, id: string): (Instant, Instant)
    requires id in d.added || id in d.moved || id in spans
  {
    if id in d.added then (d.added[id].startsAt, d.added[id].endsAt)
    else if id in d.moved then (d.moved[id].proposedStart, d.moved[id].proposedEnd)
    else spans[id]
  }

  function SpanBefore(spans: Spans, d: PlanDiff, id: string): (Instant, Instant)
    requires id in d.removed || id in d.moved || id in spans
  {
    if id in d.removed then (d.removed[id].startsAt, d.removed[id].endsAt)
    else if id in d.moved then (d.moved[id].previousStart, d.moved[id].previousEnd)
    else spans[id]
  }

  /** Carrying out the changes. */
  ghost function Patch(spans: Spans, d: PlanDiff): Spans
  {
    Tabulate((spans.Keys - d.removed.Keys) + d.added.Keys,
             id requires id in d.added || id in d.moved || id in spans => SpanAfter(spans, d, id))
  }

  /** Taking them back. */
  ghost function Unpatch(spans: Spans, d: PlanDiff): Spans
  {
    Tabulate((spans.Keys - d.added.Keys) + d.removed.Keys,
             id requires id in d.removed || id in d.moved || id in spans => SpanBefore(spans, d, id))
  }

  ghost predicate Attributed(p: map<string, PlanBlock>)
  {
    forall id :: id in p ==> p[id].activityId.Some?
  }

  lemma {:induction false} PatchHas(spans: Spans, d: PlanDiff)
    ensures Patch(spans, d).Keys == (spans.Keys - d.removed.Keys) + d.added.Keys
    ensures forall id :: id in Patch(spans, d) ==> Patch(spans, d)[id] == SpanAfter(spans, d, id)
  {
    hide SpanAfter;
  }

  lemma {:induction false} UnpatchHas(spans: Spans, d: PlanDiff)
    ensures Unpatch(spans, d).Keys == (spans.Keys - d.added.Keys) + d.removed.Keys
    ensures forall id :: id in Unpatch(spans, d) ==> Unpatch(spans, d)[id] == SpanBefore(spans, d, id)
  {
    hide SpanBefore;
  }

  lemma {:induction false} SpansHave(b: map<string, BaselineBlock>, p: map<string, PlanBlock>)
    ensures BaselineSpans(b).Keys == b.Keys && forall id :: id in b ==> BaselineSpans(b)[id] == (b[id].startsAt, b[id].endsAt)
    ensures ProposedSpans(p).Keys == p.Keys && forall id :: id in p ==> ProposedSpans(p)[id] == (p[id].startsAt, p[id].endsAt)
  {
  }

  lemma {:induction false} SpanAfterIs(b: map<string, BaselineBlock>, p: map<string, PlanBlock>, id: string)
    requires Attributed(p) && id in p
    ensures id in DiffOf(b, p).added || id in DiffOf(b, p).moved || id in BaselineSpans(b)
    ensures SpanAfter(BaselineSpans(b), DiffOf(b, p), id) == (p[id].startsAt, p[id].endsAt)
  {
    hide DiffOf, BaselineSpans, ProposedSpans;
    DiffHas(b, p);
    SpansHave(b, p);
  }

  lemma {:induction false} SpanBeforeIs(b: map<string, BaselineBlock>, p: map<string, PlanBlock>, id: string)
    requires Attributed(p) && id in b
    ensures id in DiffOf(b, p).removed || id in DiffOf(b, p).moved || id in ProposedSpans(p)
    ensures SpanBefore(ProposedSpans(p), DiffOf(b, p), id) == (b[id].startsAt, b[id].endsAt)
  {
    hide DiffOf, BaselineSpans, ProposedSpans;
    DiffHas(b, p);
    SpansHave(b, p);
  }

  lemma {:induction false} DiffKeys(b: map<string, BaselineBlock>, p: map<string, PlanBlock>)
    requires Attributed(p)
    ensures DiffOf(b, p).added.Keys == p.Keys - b.Keys && DiffOf(b, p).removed.Keys == b.Keys - p.Keys
  {
    hide AsChange, AsRemoved, AsMove, MovedIds;
  }

  /** The difference turns the baseline's intervals into the proposal's. */
  lemma {:induction false} DiffPatches(b: map<string, BaselineBlock>, p: map<string, PlanBlock>)
    requires Attributed(p)
    ensures Patch(BaselineSpans(b), DiffOf(b, p)) == ProposedSpans(p)
  {
    hide DiffOf, Patch, BaselineSpans, ProposedSpans, SpanAfter;
    var spans, d := BaselineSpans(b), DiffOf(b, p);
    DiffKeys(b, p);
    SpansHave(b, p);
    PatchHas(spans, d);
    var there := Patch(spans, d);
    assert there.Keys == p.Keys;
    forall id | id in p
      ensures there[id] == (p[id].startsAt, p[id].endsAt)
    {
      SpanAfterIs(b, p, id);
    }
  }

  /** And back. */
  lemma {:induction false} DiffUnpatches(b: map<string, BaselineBlock>, p: map<string, PlanBlock>)
    requires Attributed(p)
    ensures Unpatch(ProposedSpans(p), DiffOf(b, p)) == BaselineSpans(b)
  {
    hide DiffOf, Unpatch, BaselineSpans, ProposedSpans, SpanBefore;
    var spans, d := ProposedSpans(p), DiffOf(b, p);
    DiffKeys(b, p);
    SpansHave(b, p);
    UnpatchHas(spans, d);
    var back := Unpatch(spans, d);
    assert back.Keys == b.Keys;
    forall id | id in b
      ensures back[id] == (b[id].startsAt, b[id].endsAt)
    {
      SpanBeforeIs(b, p, id);
    }
  }

  lemma {:induction false} PatchNothing(spans: Spans)
    ensures Patch(spans, PlanDiff(map[], map[], map[])) == spans
  {
    assert Patch(spans, PlanDiff(map[], map[], map[])).Keys == spans.Keys;
  }

  lemma {:induction false} SameSpansNoDiff(b: map<string, BaselineBlock>, p: map<string, PlanBlock>)
    requires Attributed(p) && BaselineSpans(b) == ProposedSpans(p)
    ensures DiffOf(b, p) == PlanDiff(map[], map[], map[])
  {
    assert b.Keys == BaselineSpans(b).Keys && p.Keys == ProposedSpans(p).Keys;
    forall id | id in p
      ensures p[id].startsAt == b[id].startsAt && p[id].endsAt == b[id].endsAt
    {
      assert BaselineSpans(b)[id] == ProposedSpans(p)[id];
    }
    assert DiffOf(b, p).added == map[] && DiffOf(b, p).removed == map[] && DiffOf(b, p).moved == map[];
  }

  /** It is empty only when the intervals already agree. */
  lemma {:induction false} DiffEmptyExactly(b: map<string, BaselineBlock>, p: map<string, PlanBlock>)
    requires Attributed(p)
    ensures DiffOf(b, p) == PlanDiff(map[], map[], map[]) <==> BaselineSpans(b) == ProposedSpans(p)
  {
    if DiffOf(b, p) == PlanDiff(map[], map[], map[]) {
      DiffPatches(b, p);
      PatchNothing(BaselineSpans(b));
    } else if BaselineSpans(b) == ProposedSpans(p) {
      SameSpansNoDiff(b, p);
    }
  }

  // ------------------------------------------------------------- on the two lists

  /** Of the baseline blocks with one identifier the last one listed counts. */
  ghost predicate LastBaseline(bs: seq<BaselineBlock>, i: nat)
  {
    i < |bs| && forall j :: i < j < |bs| ==> bs[j].blockId != bs[i].blockId
  }

  /** A plan block that stands for an activity, and the last one listed with its identifier. */
  ghost predicate LastProposed(bs: seq<PlanBlock>, i: nat)
  {
    && i < |bs| && Compared(bs[i])
    && forall j :: i < j < |bs| && Compared(bs[j]) ==> bs[j].blockId.text != bs[i].blockId.text
  }

  predicate Compared(b: PlanBlock)
  {
    b.activityId.Some? && b.kind != Available && b.blockId.Named?
  }

  lemma {:induction false} BaselineTableAt(bs: seq<BaselineBlock>, i: nat)
    requires LastBaseline(bs, i)
    ensures bs[i].blockId in BaselineTable(bs) && BaselineTable(bs)[bs[i].blockId] == bs[i]
  {
    var front, last := bs[..|bs| - 1], bs[|bs| - 1];
    if i < |front| {
      assert front[i] == bs[i] && bs[|front|].blockId != bs[i].blockId;
      BaselineTableAt(front, i);
    }
  }

  lemma {:induction false} BaselineTableHas(bs: seq<BaselineBlock>, id: string)
    ensures id in BaselineTable(bs) <==> exists b :: b in bs && b.blockId == id
  {
    if bs != [] {
      var front, last := bs[..|bs| - 1], bs[|bs| - 1];
      BaselineTableHas(front, id);
      assert bs == front + [last];
    }
  }

  lemma {:induction false} ProposedTableAt(bs: seq<PlanBlock>, i: nat)
    requires LastProposed(bs, i)
    ensures bs[i].blockId.text in ProposedTable(bs) && ProposedTable(bs)[bs[i].blockId.text] == bs[i]
  {
    var front, last := bs[..|bs| - 1], bs[|bs| - 1];
    if i < |front| {
      assert front[i] == bs[i] && (Compared(bs[|front|]) ==> bs[|front|].blockId.text != bs[i].blockId.text);
      ProposedTableAt(front, i);
    }
  }

  lemma {:induction false} ProposedTableHas(bs: seq<PlanBlock>, id: string)
    ensures id in ProposedTable(bs) <==> exists b :: b in bs && Compared(b) && b.blockId.text == id
  {
    if bs != [] {
      var front, last := bs[..|bs| - 1], bs[|bs| - 1];
      ProposedTableHas(front, id);
      assert bs == front + [last];
    }
  }

  /** A plan block is added exactly when the baseline has no block with its identifier; what is
      added is what is listed. */
  lemma {:induction false} AddedExactly(baseline: seq<BaselineBlock>, plan: seq<PlanBlock>, i: nat)
    requires LastProposed(plan, i)
    ensures var b, d := plan[i], BuildDiff(baseline, plan);
            && (b.blockId.text in d.added <==> forall x :: x in baseline ==> x.blockId != b.blockId.text)
            && (b.blockId.text in d.added ==>
                  d.added[b.blockId.text] == Change(b.activityId.value, b.title, b.startsAt, b.endsAt))
            && b.blockId.text !in d.removed
  {
    ProposedTableAt(plan, i);
    BaselineTableHas(baseline, plan[i].blockId.text);
    hide BaselineTable, ProposedTable;
  }

  /** Where both have a block it is moved exactly when the intervals differ. */
  lemma {:induction false} MovedExactly(baseline: seq<BaselineBlock>, plan: seq<PlanBlock>, i: nat, k: nat)
    requires LastProposed(plan, i) && LastBaseline(baseline, k) && baseline[k].blockId == plan[i].blockId.text
    ensures var b, x, d := plan[i], baseline[k], BuildDiff(baseline, plan);
            && (x.blockId in d.moved <==> x.startsAt != b.startsAt || x.endsAt != b.endsAt)
            && (x.blockId in d.moved ==>
                  d.moved[x.blockId] == Move(b.activityId.value, b.title, x.startsAt, x.endsAt, b.startsAt, b.endsAt))
  {
    ProposedTableAt(plan, i);
    BaselineTableAt(baseline, k);
    hide BaselineTable, ProposedTable;
  }

  /** A baseline block is removed exactly when the plan has no activity block with its identifier. */
  lemma {:induction false} RemovedExactly(baseline: seq<BaselineBlock>, plan: seq<PlanBlock>, k: nat)
    requires LastBaseline(baseline, k)
    ensures var x, d := baseline[k], BuildDiff(baseline, plan);
            && (x.blockId in d.removed <==> forall b :: b in plan && Compared(b) ==> b.blockId.text != x.blockId)
            && (x.blockId in d.removed ==> d.removed[x.blockId] == Change(x.activityId, x.title, x.startsAt, x.endsAt))
            && x.blockId !in d.added
  {
    BaselineTableAt(baseline, k);
    ProposedTableHas(plan, baseline[k].blockId);
    hide BaselineTable, ProposedTable;
  }

  /** Carried out on the baseline's intervals the difference leaves exactly the plan's
      identifiers, each with the interval the plan lists. */
  lemma {:induction false} DiffReachesPlan(baseline: seq<BaselineBlock>, plan: seq<PlanBlock>, i: nat, id: string)
    ensures var there := Patch(BaselineSpans(BaselineTable(baseline)), BuildDiff(baseline, plan));
            && (id in there <==> exists b :: b in plan && Compared(b) && b.blockId.text == id)
            && (LastProposed(plan, i) ==>
                  plan[i].blockId.text in there && there[plan[i].blockId.text] == (plan[i].startsAt, plan[i].endsAt))
  {
    DiffPatches(BaselineTable(baseline), ProposedTable(plan));
    ProposedTableHas(plan, id);
    if LastProposed(plan, i) {
      ProposedTableAt(plan, i);
    }
    hide BaselineTable, ProposedTable, Patch, DiffOf;
  }

  /** Taken back from the plan's intervals it leaves exactly the baseline's. */
  lemma {:induction false} DiffReturnsToBaseline(baseline: seq<BaselineBlock>, plan: seq<PlanBlock>, k: nat, id: string)
    ensures var back := Unpatch(ProposedSpans(ProposedTable(plan)), BuildDiff(baseline, plan));
            && (id in back <==> exists x :: x in baseline && x.blockId == id)
            && (LastBaseline(baseline, k) ==>
                  baseline[k].blockId in back && back[baseline[k].blockId] == (baseline[k].startsAt, baseline[k].endsAt))
  {
    DiffUnpatches(BaselineTable(baseline), ProposedTable(plan));
    BaselineTableHas(baseline, id);
    if LastBaseline(baseline, k) {
      BaselineTableAt(baseline, k);
    }
    hide BaselineTable, ProposedTable, Unpatch, DiffOf;
  }
}
