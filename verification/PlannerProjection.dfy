/** The calendar projection: adjacent eligible blocks with one group and one title become one
    calendar block. */
module PlannerProjection {
  import opened Options
  import opened PlannerModel
  import opened Separators
  import opened PlannerTiling

  datatype CalendarBlock = CalendarBlock(
    blockId: string,
    displayGroup: string,
    title: string,
    startsAt: Instant,
    endsAt: Instant,
    sourceIds: seq<string>,
    segmentTitles: seq<string>,
    transitions: seq<(string, string)>,
    deadlines: seq<Instant>,
    guidance: seq<string>,
    codes: seq<Code>)

  predicate Eligible(b: PlanBlock)
  {
    !b.kind.Available? && b.calendarEligible && !b.personalMicroEvent && b.activityId.Some?
  }

  function IdOf(b: PlanBlock): string
  {
    if b.activityId.Some? then b.activityId.value else ""
  }

  function GroupOf(b: PlanBlock): string { OrElse(b.displayGroup, IdOf(b)) }

  function TitleOf(b: PlanBlock): string { OrElse(b.displayTitle, b.title) }

  predicate CanMerge(previous: CalendarBlock, b: PlanBlock)
  {
    previous.endsAt == b.startsAt && previous.title == TitleOf(b) && previous.displayGroup == GroupOf(b)
  }

  function AppendUnique<T(==)>(values: seq<T>, value: T): seq<T>
  {
    if value in values then values else values + [value]
  }

  function AppendAllUnique(values: seq<string>, additions: seq<string>): seq<string>
    decreases |additions|
  {
    if additions == [] then values
    else AppendAllUnique(AppendUnique(values, additions[0]), additions[1..])
  }

  /** A calendar block is named after its first and its last activity. */
  function NameOf(first: string, last: string): string { "calendar:" + first + ":" + last }

  function Opened(b: PlanBlock): CalendarBlock
  {
    CalendarBlock(NameOf(IdOf(b), IdOf(b)), GroupOf(b), TitleOf(b), b.startsAt, b.endsAt, [IdOf(b)], [b.title], [],
                  if b.deadline.Some? then [b.deadline.value] else [], b.guidance,
                  if b.code.Some? then [b.code.value] else [])
  }

  function Latest(texts: seq<string>): string
  {
    if texts == [] then "" else texts[|texts| - 1]
  }

  function Merged(previous: CalendarBlock, b: PlanBlock): CalendarBlock
  {
    var ids := AppendUnique(previous.sourceIds, IdOf(b));
    previous.(
      blockId := NameOf(ids[0], ids[|ids| - 1]),
      endsAt := b.endsAt,
      sourceIds := ids,
      segmentTitles := AppendUnique(previous.segmentTitles, b.title),
      transitions := previous.transitions + [(Latest(previous.segmentTitles), b.title)],
      deadlines := if b.deadline.Some? then AppendUnique(previous.deadlines, b.deadline.value) else previous.deadlines,
      guidance := AppendAllUnique(previous.guidance, b.guidance),
      codes := if b.code.Some? then AppendUnique(previous.codes, b.code.value) else previous.codes)
  }

  /** Adds one eligible block to the projection: into the last calendar block, or as a new one. */
  function Absorb(cs: seq<CalendarBlock>, b: PlanBlock): seq<CalendarBlock>
  {
    if cs != [] && CanMerge(cs[|cs| - 1], b) then cs[..|cs| - 1] + [Merged(cs[|cs| - 1], b)]
    else cs + [Opened(b)]
  }

  /** The projection of a list of eligible blocks. */
  function Project(bs: seq<PlanBlock>): seq<CalendarBlock>
  {
    if bs == [] then [] else Absorb(Project(bs[..|bs| - 1]), bs[|bs| - 1])
  }

  function EligibleOf(plan: seq<PlanBlock>): seq<PlanBlock>
  {
    if plan == [] then []
    else EligibleOf(plan[..|plan| - 1]) + (if Eligible(plan[|plan| - 1]) then [plan[|plan| - 1]] else [])
  }

  lemma {:induction false} ProjectSnoc(seen: seq<PlanBlock>, b: PlanBlock)
    ensures Project(seen + [b]) == Absorb(Project(seen), b)
  {
    assert (seen + [b])[..|seen|] == seen;
  }

  lemma {:induction false} EligibleSnoc(plan: seq<PlanBlock>, i: nat)
    requires i < |plan|
    ensures EligibleOf(plan[..i + 1]) == EligibleOf(plan[..i]) + if Eligible(plan[i]) then [plan[i]] else []
  {
    assert plan[..i + 1][..i] == plan[..i];
  }

  /** The loop of the projection: skips what the calendar must not show, merges or appends. */
  method ProjectCalendar(plan: seq<PlanBlock>) returns (projected: seq<CalendarBlock>)
    ensures projected == Project(EligibleOf(plan))
  {
    hide Project, EligibleOf, CanMerge, Merged, Opened;
    projected := [];
    ProjectNone();
    EligibleNone();
    for i := 0 to |plan|
      invariant projected == Project(EligibleOf(plan[..i]))
    {
      var b := plan[i];
      EligibleSnoc(plan, i);
      ghost var seen := EligibleOf(plan[..i]);
      if b.kind.Available? || !b.calendarEligible || b.personalMicroEvent || b.activityId.None? {
        assert seen + [] == seen;
        continue;
      }
      ProjectSnoc(seen, b);
      if projected != [] && CanMerge(projected[|projected| - 1], b) {
        projected := projected[..|projected| - 1] + [Merged(projected[|projected| - 1], b)];
      } else {
        projected := projected + [Opened(b)];
      }
    }
    assert plan[..|plan|] == plan;
  }

  lemma {:induction false} EligibleNone()
    ensures EligibleOf([]) == []
  {
  }

  lemma {:induction false} EligibleMembers(plan: seq<PlanBlock>)
    ensures forall b :: b in EligibleOf(plan) <==> b in plan && Eligible(b)
  {
    if plan != [] {
      EligibleMembers(plan[..|plan| - 1]);
      assert plan == plan[..|plan| - 1] + [plan[|plan| - 1]];
    }
  }

  // --------------------------------------------------------------- properties

  /** Neighbours that belong in one calendar block. */
  predicate Joined(b: PlanBlock, c: PlanBlock)
  {
    b.endsAt == c.startsAt && TitleOf(b) == TitleOf(c) && GroupOf(b) == GroupOf(c)
  }

  /** The calendar block the `k`-th eligible block goes to: one more at every cut. */
  ghost function Label(bs: seq<PlanBlock>, k: nat): nat
    requires k < |bs|
  {
    if k == 0 then 0 else Label(bs, k - 1) + (if Joined(bs[k - 1], bs[k]) then 0 else 1)
  }

  lemma {:induction false} LabelPrefix(bs: seq<PlanBlock>, cs: seq<PlanBlock>, k: nat)
    requires k < |bs| && bs <= cs
    ensures Label(bs, k) == Label(cs, k)
  {
    if k > 0 {
      LabelPrefix(bs, cs, k - 1);
    }
  }

  lemma {:induction false} LabelMonotone(bs: seq<PlanBlock>, i: nat, j: nat)
    requires i <= j < |bs|
    ensures Label(bs, i) <= Label(bs, j)
  {
    if i < j {
      LabelMonotone(bs, i, j - 1);
    }
  }

  /** `cs` ends with an open calendar block that `b` was the last to enter. */
  ghost predicate OpenAt(cs: seq<CalendarBlock>, b: PlanBlock, last: nat)
  {
    && |cs| == last + 1
    && cs[last].endsAt == b.endsAt && cs[last].title == TitleOf(b) && cs[last].displayGroup == GroupOf(b)
  }

  lemma {:induction false} AbsorbOpens(cs: seq<CalendarBlock>, previous: PlanBlock, b: PlanBlock, last: nat)
    requires OpenAt(cs, previous, last)
    ensures OpenAt(Absorb(cs, b), b, last + if Joined(previous, b) then 0 else 1)
  {
  }

  lemma {:induction false} ProjectUnfolds(bs: seq<PlanBlock>)
    requires bs != []
    ensures Project(bs) == Absorb(Project(bs[..|bs| - 1]), bs[|bs| - 1])
  {
  }

  /** The last calendar block carries the last block's group, title and end, and there are as
      many calendar blocks as cuts plus one: the merge is as coarse as the rule allows. */
  lemma {:induction false} LastOpen(bs: seq<PlanBlock>)
    requires bs != []
    ensures OpenAt(Project(bs), bs[|bs| - 1], Label(bs, |bs| - 1))
  {
    var n := |bs| - 1;
    ProjectUnfolds(bs);
    if n == 0 {
      assert OpenAt(Absorb([], bs[0]), bs[0], 0);
    } else {
      var front := bs[..n];
      LastOpen(front);
      AbsorbOpens(Project(front), front[|front| - 1], bs[n], Label(front, |front| - 1));
      LabelPrefix(front, bs, |front| - 1);
      assert front[|front| - 1] == bs[n - 1];
      assert Label(bs, n) == Label(front, |front| - 1) + if Joined(bs[n - 1], bs[n]) then 0 else 1;
    }
  }

  /** How `after` arises from `before` when `b` enters calendar block `label`. */
  ghost predicate Entered(before: seq<CalendarBlock>, after: seq<CalendarBlock>, b: PlanBlock, joins: bool, i: nat)
  {
    && |after| == i + 1 && |before| == (if joins then i + 1 else i)
    && after[..i] == before[..i]
    && after[i].endsAt == b.endsAt
    && after[i].title == TitleOf(b) && after[i].displayGroup == GroupOf(b)
    && (if joins then
          && after[i].startsAt == before[i].startsAt && before[i].endsAt == b.startsAt
          && before[i].title == after[i].title && before[i].displayGroup == after[i].displayGroup
        else after[i].startsAt == b.startsAt)
    && after[i].sourceIds == (if joins then AppendUnique(before[i].sourceIds, IdOf(b)) else [IdOf(b)])
  }

  lemma {:induction false} AbsorbEnters(cs: seq<CalendarBlock>, previous: PlanBlock, b: PlanBlock, last: nat)
    requires OpenAt(cs, previous, last)
    ensures Entered(cs, Absorb(cs, b), b, Joined(previous, b), last + if Joined(previous, b) then 0 else 1)
  {
  }

  predicate JoinsPrevious(bs: seq<PlanBlock>, k: nat)
    requires k < |bs|
  {
    k > 0 && Joined(bs[k - 1], bs[k])
  }

  /** One step of the projection, by whether the new block joins its predecessor. */
  lemma {:induction false} ProjectStep(bs: seq<PlanBlock>)
    requires bs != []
    ensures var n := |bs| - 1; Entered(Project(bs[..n]), Project(bs), bs[n], JoinsPrevious(bs, n), Label(bs, n))
  {
    var n := |bs| - 1;
    var front := bs[..n];
    ProjectUnfolds(bs);
    if n == 0 {
      assert Entered([], Absorb([], bs[0]), bs[0], false, 0);
    } else {
      LastOpen(front);
      AbsorbEnters(Project(front), front[|front| - 1], bs[n], Label(front, |front| - 1));
      LabelPrefix(front, bs, |front| - 1);
      assert front[|front| - 1] == bs[n - 1];
      assert Label(bs, n) == Label(front, |front| - 1) + if Joined(bs[n - 1], bs[n]) then 0 else 1;
    }
  }

  lemma {:induction false} ProjectLength(bs: seq<PlanBlock>)
    requires bs != []
    ensures |Project(bs)| == Label(bs, |bs| - 1) + 1
  {
    LastOpen(bs);
  }

  lemma {:induction false} LabelBound(bs: seq<PlanBlock>, k: nat)
    requires k < |bs|
    ensures Label(bs, k) < |Project(bs)|
  {
    hide Label;
    ProjectLength(bs);
    LabelMonotone(bs, k, |bs| - 1);
  }

  ghost predicate Labelled(bs: seq<PlanBlock>, k: int, i: int)
  {
    0 <= k < |bs| && Label(bs, k) == i
  }

  /** Some block in calendar block `i` belongs to the activity. */
  ghost predicate SomeFrom(bs: seq<PlanBlock>, i: nat, id: string)
  {
    exists k :: Labelled(bs, k, i) && IdOf(bs[k]) == id
  }

  lemma {:induction false} SomeFromGrows(bs: seq<PlanBlock>, i: nat, id: string)
    requires bs != []
    ensures SomeFrom(bs, i, id) <==>
            SomeFrom(bs[..|bs| - 1], i, id) || (Label(bs, |bs| - 1) == i && IdOf(bs[|bs| - 1]) == id)
  {
    hide Label, IdOf;
    var n := |bs| - 1;
    forall k | 0 <= k < n
      ensures Labelled(bs, k, i) <==> Labelled(bs[..n], k, i)
    {
      LabelPrefix(bs[..n], bs, k);
    }
    if SomeFrom(bs[..n], i, id) {
      var k :| Labelled(bs[..n], k, i) && IdOf(bs[..n][k]) == id;
      assert Labelled(bs, k, i);
    }
    assert Labelled(bs, n, Label(bs, n));
    if k :| Labelled(bs, k, i) && IdOf(bs[k]) == id && k < n {
      assert Labelled(bs[..n], k, i);
    }
  }

  lemma {:induction false} NoneBeyond(bs: seq<PlanBlock>, i: nat, id: string)
    requires |Project(bs)| <= i
    ensures !SomeFrom(bs, i, id)
  {
    forall k | 0 <= k < |bs|
      ensures Label(bs, k) < |Project(bs)|
    {
      LabelBound(bs, k);
    }
  }

  lemma {:induction false} EnteredSources(before: seq<CalendarBlock>, after: seq<CalendarBlock>, b: PlanBlock, joins: bool, at: nat, i: nat, id: string)
    requires Entered(before, after, b, joins, at) && i < |after|
    ensures id in after[i].sourceIds <==>
            (i < |before| && id in before[i].sourceIds) || (i == at && id == IdOf(b))
  {
    if i < at {
      assert after[i] == after[..at][i];
      assert before[i] == before[..at][i];
    }
  }

  /** A calendar block lists exactly the activities of the blocks merged into it. */
  lemma {:induction false} SourcesExact(bs: seq<PlanBlock>, i: nat, id: string)
    requires i < |Project(bs)|
    ensures id in Project(bs)[i].sourceIds <==> SomeFrom(bs, i, id)
    decreases |bs|
  {
    var n := |bs| - 1;
    var front := bs[..n];
    ProjectStep(bs);
    EnteredSources(Project(front), Project(bs), bs[n], JoinsPrevious(bs, n), Label(bs, n), i, id);
    SomeFromGrows(bs, i, id);
    if i < |Project(front)| {
      SourcesExact(front, i, id);
    } else {
      NoneBeyond(front, i, id);
    }
  }

  /** The block lies inside the calendar block, under the same group and title. */
  ghost predicate Holds(c: CalendarBlock, b: PlanBlock)
  {
    c.startsAt <= b.startsAt && b.endsAt <= c.endsAt && c.title == TitleOf(b) && c.displayGroup == GroupOf(b)
  }

  lemma {:induction false} EnteredHolds(before: seq<CalendarBlock>, after: seq<CalendarBlock>, b: PlanBlock, joins: bool, at: nat, c: PlanBlock, i: nat)
    requires Entered(before, after, b, joins, at) && HeldAt(before, i, c) && c.endsAt <= b.endsAt
    ensures HeldAt(after, i, c)
  {
    if i < at {
      assert after[i] == after[..at][i] && before[i] == before[..at][i];
    }
  }

  lemma {:induction false} EnteredLast(before: seq<CalendarBlock>, after: seq<CalendarBlock>, previous: PlanBlock, b: PlanBlock, joins: bool, at: nat)
    requires Entered(before, after, b, joins, at) && (joins ==> HeldAt(before, at, previous) && previous.startsAt <= b.startsAt)
    ensures HeldAt(after, at, b)
  {
  }

  ghost predicate HeldAt(cs: seq<CalendarBlock>, i: nat, b: PlanBlock)
  {
    i < |cs| && Holds(cs[i], b)
  }

  lemma {:induction false} LabelJoins(bs: seq<PlanBlock>, k: nat)
    requires k < |bs| && JoinsPrevious(bs, k)
    ensures Label(bs, k) == Label(bs[..k], k - 1)
  {
    LabelPrefix(bs[..k], bs, k - 1);
  }

  /** Every eligible block lies inside its calendar block. */
  lemma {:induction false} InsideItsBlock(bs: seq<PlanBlock>, k: nat, from: Instant, to: Instant)
    requires k < |bs| && Chained(bs, from, to)
    ensures HeldAt(Project(bs), Label(bs, k), bs[k])
    decreases |bs|, 1
  {
    hide Project, Label, Entered, HeldAt;
    if k < |bs| - 1 {
      StaysInside(bs, k, from, to);
    } else if JoinsPrevious(bs, k) {
      var front := bs[..k];
      ProjectStep(bs);
      LabelJoins(bs, k);
      InsideItsBlock(front, k - 1, from, to);
      EnteredLast(Project(front), Project(bs), front[k - 1], bs[k], true, Label(bs, k));
    } else {
      ProjectStep(bs);
      EnteredLast(Project(bs[..k]), Project(bs), bs[k], bs[k], false, Label(bs, k));
    }
  }

  lemma {:induction false} StaysInside(bs: seq<PlanBlock>, k: nat, from: Instant, to: Instant)
    requires k < |bs| - 1 && Chained(bs, from, to)
    ensures HeldAt(Project(bs), Label(bs, k), bs[k])
    decreases |bs|, 0
  {
    hide Chained, Project, Label, Entered, HeldAt, JoinsPrevious;
    var n := |bs| - 1;
    var front := bs[..n];
    ChainedFront(bs, from, to, k);
    InsideItsBlock(front, k, from, to);
    ProjectStep(bs);
    LabelPrefix(front, bs, k);
    EnteredHolds(Project(front), Project(bs), bs[n], JoinsPrevious(bs, n), Label(bs, n), bs[k], Label(front, k));
  }

  lemma {:induction false} ChainedFront(bs: seq<PlanBlock>, from: Instant, to: Instant, k: nat)
    requires k < |bs| - 1 && Chained(bs, from, to)
    ensures Chained(bs[..|bs| - 1], from, to) && bs[..|bs| - 1][k] == bs[k] && bs[k].endsAt <= bs[|bs| - 1].endsAt
  {
  }

  lemma {:induction false} EnteredCovers(before: seq<CalendarBlock>, after: seq<CalendarBlock>, b: PlanBlock, joins: bool, at: nat, i: nat, t: Instant)
    requires Entered(before, after, b, joins, at) && i < |after|
    requires after[i].startsAt <= t < after[i].endsAt && !(i == at && Covers(b, t))
    ensures i < |before| && before[i].startsAt <= t < before[i].endsAt
  {
    if i < at {
      assert after[i] == after[..at][i] && before[i] == before[..at][i];
    }
  }

  /** Every minute of a calendar block is a minute of a block merged into it. */
  lemma {:induction false} NothingInvented(bs: seq<PlanBlock>, i: nat, t: Instant) returns (k: nat)
    requires i < |Project(bs)|
    requires Project(bs)[i].startsAt <= t < Project(bs)[i].endsAt
    ensures Labelled(bs, k, i) && Covers(bs[k], t)
    decreases |bs|
  {
    var n := |bs| - 1;
    ProjectStep(bs);
    if i == Label(bs, n) && Covers(bs[n], t) {
      k := n;
    } else {
      EnteredCovers(Project(bs[..n]), Project(bs), bs[n], JoinsPrevious(bs, n), Label(bs, n), i, t);
      k := NothingInvented(bs[..n], i, t);
      LabelPrefix(bs[..n], bs, k);
    }
  }

  /** In order and apart, and not to be merged any further. */
  ghost predicate Settled(c: CalendarBlock, d: CalendarBlock)
  {
    && c.endsAt <= d.startsAt
    && !(c.endsAt == d.startsAt && c.title == d.title && c.displayGroup == d.displayGroup)
  }

  ghost predicate NormalForm(cs: seq<CalendarBlock>)
  {
    && (forall i :: 0 <= i < |cs| ==> cs[i].startsAt < cs[i].endsAt)
    && (forall i :: 0 < i < |cs| ==> Settled(cs[i - 1], cs[i]))
  }

  lemma {:induction false} AbsorbSettles(cs: seq<CalendarBlock>, b: PlanBlock)
    requires NormalForm(cs) && b.startsAt < b.endsAt
    requires cs != [] ==> cs[|cs| - 1].endsAt <= b.startsAt
    ensures NormalForm(Absorb(cs, b))
  {
  }

  /** Calendar blocks are in order, apart, and no two neighbours could still be merged. */
  lemma {:induction false} ProjectionSettles(bs: seq<PlanBlock>, from: Instant, to: Instant)
    requires Chained(bs, from, to)
    ensures NormalForm(Project(bs))
    decreases |bs|
  {
    if bs != [] {
      var n := |bs| - 1;
      ProjectionSettles(bs[..n], from, to);
      ProjectUnfolds(bs);
      if n > 0 {
        LastOpen(bs[..n]);
      } else {
        assert Project(bs[..n]) == [];
      }
      AbsorbSettles(Project(bs[..n]), bs[n]);
    }
  }

  predicate Shows(c: CalendarBlock, t: Instant) { c.startsAt <= t < c.endsAt }

  /** The minutes shown in the calendar are exactly those of the eligible blocks. */
  lemma {:induction false} ProjectionConservesTime(bs: seq<PlanBlock>, from: Instant, to: Instant, t: Instant)
    requires Chained(bs, from, to)
    ensures (exists c :: c in Project(bs) && Shows(c, t)) <==> (exists b :: b in bs && Covers(b, t))
  {
    if c :| c in Project(bs) && Shows(c, t) {
      var i :| 0 <= i < |Project(bs)| && Project(bs)[i] == c;
      var k := NothingInvented(bs, i, t);
      assert bs[k] in bs;
    }
    if b :| b in bs && Covers(b, t) {
      var k :| 0 <= k < |bs| && bs[k] == b;
      InsideItsBlock(bs, k, from, to);
      assert Project(bs)[Label(bs, k)] in Project(bs);
    }
  }

  // ----------------------------------------------- one activity, one calendar block

  /** Blocks of one activity follow one another and join. */
  ghost predicate ActivitiesJoin(bs: seq<PlanBlock>)
  {
    forall i, j, k :: 0 <= i <= k < j < |bs| && IdOf(bs[i]) == IdOf(bs[j]) ==> Joined(bs[k], bs[k + 1])
  }

  lemma {:induction false} JoinedShareLabel(bs: seq<PlanBlock>, i: nat, j: nat)
    requires i <= j < |bs|
    requires forall k :: i <= k < j ==> Joined(bs[k], bs[k + 1])
    ensures Label(bs, i) == Label(bs, j)
  {
    if i < j {
      JoinedShareLabel(bs, i, j - 1);
      assert Joined(bs[j - 1], bs[j - 1 + 1]);
    }
  }

  /** Two blocks of one activity carry the same label. */
  lemma {:induction false} ActivityShareLabel(bs: seq<PlanBlock>, k: nat, l: nat)
    requires ActivitiesJoin(bs) && k <= l < |bs| && IdOf(bs[k]) == IdOf(bs[l])
    ensures Label(bs, k) == Label(bs, l)
  {
    JoinedShareLabel(bs, k, l);
  }

  lemma {:induction false} SomeFromOne(bs: seq<PlanBlock>, i: nat, j: nat, id: string)
    requires ActivitiesJoin(bs) && SomeFrom(bs, i, id) && SomeFrom(bs, j, id)
    ensures i == j
  {
    hide Label, IdOf;
    var k :| Labelled(bs, k, i) && IdOf(bs[k]) == id;
    var l :| Labelled(bs, l, j) && IdOf(bs[l]) == id;
    if k <= l {
      ActivityShareLabel(bs, k, l);
    } else {
      ActivityShareLabel(bs, l, k);
    }
  }

  /** An activity with its travel is in one calendar block only, so no two calendar blocks
      share a source, a first or a last activity. */
  lemma {:induction false} SourcesDisjoint(bs: seq<PlanBlock>, i: nat, j: nat, id: string)
    requires ActivitiesJoin(bs) && i < |Project(bs)| && j < |Project(bs)|
    requires id in Project(bs)[i].sourceIds && id in Project(bs)[j].sourceIds
    ensures i == j
  {
    SourcesExact(bs, i, id);
    SourcesExact(bs, j, id);
    SomeFromOne(bs, i, j, id);
  }

  function First(c: CalendarBlock): string { if c.sourceIds == [] then "" else c.sourceIds[0] }

  function Last(c: CalendarBlock): string { if c.sourceIds == [] then "" else c.sourceIds[|c.sourceIds| - 1] }

  ghost predicate NamedByEnds(c: CalendarBlock)
  {
    c.sourceIds != [] && c.blockId == NameOf(First(c), Last(c))
  }

  lemma {:induction false} AbsorbNames(cs: seq<CalendarBlock>, b: PlanBlock)
    requires forall i :: 0 <= i < |cs| ==> NamedByEnds(cs[i])
    ensures forall i :: 0 <= i < |Absorb(cs, b)| ==> NamedByEnds(Absorb(cs, b)[i])
  {
    OpenedNamed(b);
    if cs != [] {
      MergedNamed(cs[|cs| - 1], b);
    }
    hide NamedByEnds, Opened, Merged, CanMerge;
  }

  lemma {:induction false} OpenedNamed(b: PlanBlock)
    ensures NamedByEnds(Opened(b))
  {
    hide NameOf;
  }

  lemma {:induction false} MergedNamed(c: CalendarBlock, b: PlanBlock)
    ensures NamedByEnds(Merged(c, b))
  {
    hide NameOf, AppendAllUnique;
  }

  lemma {:induction false} FirstAndLast(bs: seq<PlanBlock>)
    ensures forall i :: 0 <= i < |Project(bs)| ==> NamedByEnds(Project(bs)[i])
  {
    if bs != [] {
      FirstAndLast(bs[..|bs| - 1]);
      AbsorbNames(Project(bs[..|bs| - 1]), bs[|bs| - 1]);
    }
  }

  lemma {:induction false} FirstsDiffer(bs: seq<PlanBlock>, i: nat, j: nat)
    requires ActivitiesJoin(bs) && i < |Project(bs)| && j < |Project(bs)| && i != j
    ensures NamedByEnds(Project(bs)[i]) && NamedByEnds(Project(bs)[j])
    ensures First(Project(bs)[i]) != First(Project(bs)[j])
  {
    FirstAndLast(bs);
    if First(Project(bs)[i]) == First(Project(bs)[j]) {
      SourcesDisjoint(bs, i, j, First(Project(bs)[i]));
    }
  }

  lemma {:induction false} SameName(first: string, last: string, other: string, end: string)
    requires first != other
    ensures NameOf(first, last) == NameOf(other, end) <==>
            Interlock(first, last, other, end, ':') || Interlock(other, end, first, last, ':')
  {
    SameJoin(first, last, other, end, ':');
    assert NameOf(first, last)[9..] == first + [':'] + last;
    assert NameOf(other, end)[9..] == other + [':'] + end;
    assert NameOf(first, last) == "calendar:" + (first + [':'] + last);
    assert NameOf(other, end) == "calendar:" + (other + [':'] + end);
  }

  /** Two calendar blocks share their name exactly when their first and last activities
      interlock at a colon inside an identifier. */
  lemma {:induction false} NamesClashExactly(bs: seq<PlanBlock>, i: nat, j: nat)
    requires ActivitiesJoin(bs) && i < |Project(bs)| && j < |Project(bs)| && i != j
    ensures var c, d := Project(bs)[i], Project(bs)[j];
            c.blockId == d.blockId <==>
            Interlock(First(c), Last(c), First(d), Last(d), ':') || Interlock(First(d), Last(d), First(c), Last(c), ':')
  {
    hide NameOf, Interlock, ActivitiesJoin, Project;
    FirstsDiffer(bs, i, j);
    var c, d := Project(bs)[i], Project(bs)[j];
    SameName(First(c), Last(c), First(d), Last(d));
  }

  lemma {:induction false} SourceIsIdentifier(bs: seq<PlanBlock>, i: nat)
    requires i < |Project(bs)| && NamedByEnds(Project(bs)[i])
    ensures exists k :: 0 <= k < |bs| && IdOf(bs[k]) == First(Project(bs)[i])
  {
    SourcesExact(bs, i, First(Project(bs)[i]));
    var k :| Labelled(bs, k, i) && IdOf(bs[k]) == First(Project(bs)[i]);
  }

  /** Identifiers without a colon give distinct names. */
  lemma {:induction false} CalendarNamesDistinct(bs: seq<PlanBlock>, i: nat, j: nat)
    requires ActivitiesJoin(bs) && i < |Project(bs)| && j < |Project(bs)| && i != j
    requires forall k :: 0 <= k < |bs| ==> ':' !in IdOf(bs[k])
    ensures Project(bs)[i].blockId != Project(bs)[j].blockId
  {
    hide NameOf, ActivitiesJoin, Project;
    FirstsDiffer(bs, i, j);
    NamesClashExactly(bs, i, j);
    SourceIsIdentifier(bs, i);
    SourceIsIdentifier(bs, j);
    var c, d := Project(bs)[i], Project(bs)[j];
    PlainFirst(First(c), Last(c), First(d), Last(d), ':');
  }

  function Sample(id: string, group: string, at: Instant): PlanBlock
  {
    PlanBlock(Named("activity:" + id), Some(id), "t", FlexibleBlock, at, at + 1, Some(group), Some("t"), [], None, None, true, false)
  }

  /** Two neighbours of one group, whatever came before them. */
  lemma {:induction false} PairOpens(cs: seq<CalendarBlock>, first: string, last: string, group: string, at: Instant)
    requires first != last && group != "" && (cs != [] ==> cs[|cs| - 1].displayGroup != group)
    ensures var merged := Merged(Opened(Sample(first, group, at)), Sample(last, group, at + 1));
            && Absorb(Absorb(cs, Sample(first, group, at)), Sample(last, group, at + 1)) == cs + [merged]
            && merged.sourceIds == [first, last] && merged.blockId == NameOf(first, last) && merged.displayGroup == group
  {
    var a, b := Sample(first, group, at), Sample(last, group, at + 1);
    PairMerges(first, last, group, at);
    hide Merged, Opened, Sample;
    AbsorbOpensNew(cs, a);
    AbsorbJoins(cs, Opened(a), b);
  }

  lemma {:induction false} PairMerges(first: string, last: string, group: string, at: Instant)
    requires first != last && group != ""
    ensures var a, b := Sample(first, group, at), Sample(last, group, at + 1);
            && GroupOf(a) == group && CanMerge(Opened(a), b)
            && Merged(Opened(a), b).sourceIds == [first, last] && Merged(Opened(a), b).blockId == NameOf(first, last)
            && Merged(Opened(a), b).displayGroup == group
  {
    hide NameOf;
  }

  lemma {:induction false} AbsorbOpensNew(cs: seq<CalendarBlock>, b: PlanBlock)
    requires cs != [] ==> !CanMerge(cs[|cs| - 1], b)
    ensures Absorb(cs, b) == cs + [Opened(b)]
  {
    hide Merged, Opened, CanMerge;
  }

  lemma {:induction false} AbsorbJoins(cs: seq<CalendarBlock>, c: CalendarBlock, b: PlanBlock)
    requires CanMerge(c, b)
    ensures Absorb(cs + [c], b) == cs + [Merged(c, b)]
  {
    hide Merged, Opened, CanMerge;
    assert (cs + [c])[..|cs|] == cs;
  }

  lemma {:induction false} ProjectPair(seen: seq<PlanBlock>, a: PlanBlock, b: PlanBlock)
    ensures Project(seen + [a, b]) == Absorb(Absorb(Project(seen), a), b)
  {
    assert seen + [a, b] == (seen + [a]) + [b];
    ProjectSnoc(seen + [a], b);
    ProjectSnoc(seen, a);
  }

  /** The failing case: a block from `a` to `b:c` and one from `a:b` to `c` share their name. */
  lemma {:induction false} ColonsMayClash()
    ensures var bs := [Sample("a", "x", 0), Sample("b:c", "x", 1), Sample("a:b", "y", 2), Sample("c", "y", 3)];
            && |Project(bs)| == 2
            && Project(bs)[0].sourceIds == ["a", "b:c"] && Project(bs)[1].sourceIds == ["a:b", "c"]
            && Project(bs)[0].blockId == Project(bs)[1].blockId
  {
    hide Project, Absorb, Merged, Opened, Sample;
    var a, b, c, d := Sample("a", "x", 0), Sample("b:c", "x", 1), Sample("a:b", "y", 2), Sample("c", "y", 3);
    assert |"a"| != |"b:c"| && |"a:b"| != |"c"| && "x"[0] != "y"[0];
    ProjectPair([], a, b);
    ProjectNone();
    PairOpens([], "a", "b:c", "x", 0);
    assert [] + [a, b] == [a, b];
    ProjectPair([a, b], c, d);
    PairOpens(Project([a, b]), "a:b", "c", "y", 2);
    assert [a, b] + [c, d] == [a, b, c, d];
    assert NameOf("a", "b:c") == NameOf("a:b", "c");
  }

  lemma {:induction false} ProjectNone()
    ensures Project([]) == []
  {
  }
}
