/** What a calendar block collects from the blocks merged into it: titles, deadlines, guidance,
    codes and the transitions between them. */
module PlannerSegments {
  import opened Options
  import opened Ordering
  import opened PlannerModel
  import opened PlannerTiling
  import opened PlannerProjection

  lemma {:induction false} AppendUniqueMembers<T>(values: seq<T>, value: T)
    ensures Elements(AppendUnique(values, value)) == Elements(values) + {value}
  {
    assert forall x :: x in values + [value] <==> x in values || x == value;
  }

  lemma {:induction false} AppendAllMembers(values: seq<string>, additions: seq<string>)
    ensures Elements(AppendAllUnique(values, additions)) == Elements(values) + Elements(additions)
    decreases |additions|
  {
    if additions != [] {
      AppendUniqueMembers(values, additions[0]);
      AppendAllMembers(AppendUnique(values, additions[0]), additions[1..]);
      assert additions == [additions[0]] + additions[1..];
    }
  }

  ghost function Maybe<T>(value: Option<T>): set<T> { if value.Some? then {value.value} else {} }

  /** Whether the new block enters the last calendar block or opens one. */
  lemma {:induction false} ProjectEnters(bs: seq<PlanBlock>)
    requires bs != []
    ensures var n, i := |bs| - 1, Label(bs, |bs| - 1);
            if JoinsPrevious(bs, n) then
              |Project(bs[..n])| == i + 1 && Project(bs) == Project(bs[..n])[..i] + [Merged(Project(bs[..n])[i], bs[n])]
            else
              |Project(bs[..n])| == i && Project(bs) == Project(bs[..n]) + [Opened(bs[n])]
  {
    var n := |bs| - 1;
    var front := bs[..n];
    hide Merged, Opened;
    ProjectUnfolds(bs);
    if n == 0 {
      ProjectNone();
    } else {
      LastOpen(front);
      LabelPrefix(front, bs, n - 1);
      assert front[n - 1] == bs[n - 1];
    }
  }

  /** A field that a new calendar block takes from its first block and that grows by each block
      merged holds, in the end, what those blocks hold together. */
  lemma {:induction false} CollectsExactly<X(!new)>(f: CalendarBlock -> set<X>, g: PlanBlock -> set<X>, bs: seq<PlanBlock>, i: nat, x: X)
    requires forall b :: f(Opened(b)) == g(b)
    requires forall c, b :: f(Merged(c, b)) == f(c) + g(b)
    requires i < |Project(bs)|
    ensures x in f(Project(bs)[i]) <==> exists k :: Labelled(bs, k, i) && x in g(bs[k])
    decreases |bs|
  {
    hide Project, Merged, Opened, Label, Joined;
    if bs == [] {
      ProjectNone();
    } else {
      var n, at := |bs| - 1, Label(bs, |bs| - 1);
      var front := bs[..n];
      ProjectEnters(bs);
      LabelledFront(bs, i);
      assert Labelled(bs, n, i) <==> at == i;
      if i < |Project(front)| {
        CollectsExactly(f, g, front, i, x);
      } else {
        forall k | Labelled(front, k, i)
          ensures false
        {
          LabelBound(front, k);
        }
      }
    }
  }

  lemma {:induction false} LabelledFront(bs: seq<PlanBlock>, i: nat)
    requires bs != []
    ensures forall k :: 0 <= k < |bs| - 1 ==> (Labelled(bs, k, i) <==> Labelled(bs[..|bs| - 1], k, i))
  {
    var front := bs[..|bs| - 1];
    forall k | 0 <= k < |bs| - 1
      ensures Labelled(bs, k, i) <==> Labelled(front, k, i)
    {
      LabelPrefix(front, bs, k);
    }
  }

  /** Deadlines and codes of a calendar block are those of the blocks merged into it, no more
      and no fewer. */
  lemma {:induction false} CalendarCollects(bs: seq<PlanBlock>, i: nat, d: Instant, code: Code)
    requires i < |Project(bs)|
    ensures d in Project(bs)[i].deadlines <==> exists k :: Labelled(bs, k, i) && bs[k].deadline == Some(d)
    ensures code in Project(bs)[i].codes <==> exists k :: Labelled(bs, k, i) && bs[k].code == Some(code)
  {
    hide Project, Merged, Opened, Label;
    MergedCollects();
    CollectsExactly((c: CalendarBlock) => Elements(c.deadlines), (b: PlanBlock) => Maybe(b.deadline), bs, i, d);
    CollectsExactly((c: CalendarBlock) => Elements(c.codes), (b: PlanBlock) => Maybe(b.code), bs, i, code);
  }

  /** So are its guidance and its segment titles. */
  lemma {:induction false} CalendarCollectsTexts(bs: seq<PlanBlock>, i: nat, text: string)
    requires i < |Project(bs)|
    ensures text in Project(bs)[i].guidance <==> exists k :: Labelled(bs, k, i) && text in bs[k].guidance
    ensures text in Project(bs)[i].segmentTitles <==> exists k :: Labelled(bs, k, i) && bs[k].title == text
  {
    hide Project, Merged, Opened, Label;
    MergedCollects();
    CollectsExactly((c: CalendarBlock) => Elements(c.guidance), (b: PlanBlock) => Elements(b.guidance), bs, i, text);
    CollectsExactly((c: CalendarBlock) => Elements(c.segmentTitles), (b: PlanBlock) => {b.title}, bs, i, text);
  }

  lemma {:induction false} MergedCollects()
    ensures forall b :: Elements(Opened(b).deadlines) == Maybe(b.deadline) && Elements(Opened(b).codes) == Maybe(b.code)
    ensures forall b :: Elements(Opened(b).guidance) == Elements(b.guidance) && Elements(Opened(b).segmentTitles) == {b.title}
    ensures forall c, b :: Elements(Merged(c, b).deadlines) == Elements(c.deadlines) + Maybe(b.deadline)
    ensures forall c, b :: Elements(Merged(c, b).codes) == Elements(c.codes) + Maybe(b.code)
    ensures forall c, b :: Elements(Merged(c, b).guidance) == Elements(c.guidance) + Elements(b.guidance)
    ensures forall c, b :: Elements(Merged(c, b).segmentTitles) == Elements(c.segmentTitles) + {b.title}
  {
    forall c, b
      ensures Elements(Merged(c, b).deadlines) == Elements(c.deadlines) + Maybe(b.deadline)
      ensures Elements(Merged(c, b).codes) == Elements(c.codes) + Maybe(b.code)
      ensures Elements(Merged(c, b).guidance) == Elements(c.guidance) + Elements(b.guidance)
      ensures Elements(Merged(c, b).segmentTitles) == Elements(c.segmentTitles) + {b.title}
    {
      if b.deadline.Some? {
        AppendUniqueMembers(c.deadlines, b.deadline.value);
      }
      if b.code.Some? {
        AppendUniqueMembers(c.codes, b.code.value);
      }
      AppendAllMembers(c.guidance, b.guidance);
      AppendUniqueMembers(c.segmentTitles, b.title);
    }
  }

  ghost predicate NoRepeats<T(!new)>(xs: seq<T>)
  {
    forall i, j :: 0 <= i < j < |xs| ==> xs[i] != xs[j]
  }

  ghost predicate ListedOnce(c: CalendarBlock)
  {
    NoRepeats(c.sourceIds) && NoRepeats(c.segmentTitles) && NoRepeats(c.deadlines) && NoRepeats(c.codes)
  }

  lemma {:induction false} MergedOnce(c: CalendarBlock, b: PlanBlock)
    requires ListedOnce(c)
    ensures ListedOnce(Merged(c, b))
  {
  }

  /** Each activity, title, deadline and code is listed once. */
  lemma {:induction false} CalendarListsOnce(bs: seq<PlanBlock>, i: nat)
    requires i < |Project(bs)|
    ensures var c := Project(bs)[i];
            NoRepeats(c.sourceIds) && NoRepeats(c.segmentTitles) && NoRepeats(c.deadlines) && NoRepeats(c.codes)
    decreases |bs|
  {
    AllListedOnce(bs);
  }

  lemma {:induction false} AllListedOnce(bs: seq<PlanBlock>)
    ensures forall i :: 0 <= i < |Project(bs)| ==> ListedOnce(Project(bs)[i])
  {
    hide Project, Label, Merged, NoRepeats;
    if bs == [] {
      ProjectNone();
    } else {
      var n := |bs| - 1;
      var front := bs[..n];
      ProjectEnters(bs);
      AllListedOnce(front);
      if JoinsPrevious(bs, n) {
        MergedOnce(Project(front)[Label(bs, n)], bs[n]);
      } else {
        OpenedOnce(bs[n]);
      }
    }
  }

  lemma {:induction false} OpenedOnce(b: PlanBlock)
    ensures ListedOnce(Opened(b))
  {
  }

  // ----------------------------------------------------------------- transitions

  /** The first block of the calendar block that block `k` is in. */
  ghost function GroupStart(bs: seq<PlanBlock>, k: nat): (s: nat)
    requires k < |bs|
    ensures s <= k
  {
    if JoinsPrevious(bs, k) then GroupStart(bs, k - 1) else k
  }

  /** The title is new in its calendar block. */
  ghost predicate Fresh(bs: seq<PlanBlock>, s: nat, k: nat)
    requires s <= k < |bs|
  {
    forall l :: s <= l < k ==> bs[l].title != bs[k].title
  }

  /** The last block up to `k` whose title was new. */
  ghost function Newest(bs: seq<PlanBlock>, k: nat): (m: nat)
    requires k < |bs|
    ensures GroupStart(bs, k) <= m <= k && Fresh(bs, GroupStart(bs, k), m)
    ensures forall l :: m < l <= k ==> !Fresh(bs, GroupStart(bs, k), l)
  {
    if Fresh(bs, GroupStart(bs, k), k) then k else Newest(bs, k - 1)
  }

  lemma {:induction false} StartPrefix(bs: seq<PlanBlock>, cs: seq<PlanBlock>, k: nat)
    requires k < |bs| && bs <= cs
    ensures GroupStart(bs, k) == GroupStart(cs, k) && Newest(bs, k) == Newest(cs, k)
  {
    if JoinsPrevious(bs, k) {
      StartPrefix(bs, cs, k - 1);
    }
  }

  lemma {:induction false} GroupLabels(bs: seq<PlanBlock>, k: nat)
    requires k < |bs|
    ensures forall l :: GroupStart(bs, k) <= l <= k ==> Labelled(bs, l, Label(bs, k))
    ensures forall l :: 0 <= l < GroupStart(bs, k) ==> !Labelled(bs, l, Label(bs, k))
  {
    if JoinsPrevious(bs, k) {
      GroupLabels(bs, k - 1);
    } else if k > 0 {
      forall l | 0 <= l < k
        ensures !Labelled(bs, l, Label(bs, k))
      {
        LabelMonotone(bs, l, k - 1);
      }
    }
  }

  lemma {:induction false} TitleSeen(bs: seq<PlanBlock>, text: string)
    requires bs != []
    ensures var n := |bs| - 1;
            && |Project(bs)| == Label(bs, n) + 1
            && (text in Project(bs)[Label(bs, n)].segmentTitles <==> exists k :: GroupStart(bs, n) <= k <= n && bs[k].title == text)
  {
    var n := |bs| - 1;
    ProjectLength(bs);
    hide Project, Label, GroupStart;
    CalendarCollectsTexts(bs, Label(bs, n), text);
    GroupLabels(bs, n);
  }

  /** The open calendar block: as many transitions as blocks but one, and its last title. */
  ghost predicate OpenTitles(c: CalendarBlock, bs: seq<PlanBlock>, n: nat)
    requires n < |bs|
  {
    && c.segmentTitles != [] && c.segmentTitles[|c.segmentTitles| - 1] == bs[Newest(bs, n)].title
    && |c.transitions| == n - GroupStart(bs, n)
  }

  lemma {:induction false} MergedTitles(c: CalendarBlock, bs: seq<PlanBlock>, n: nat)
    requires n + 1 < |bs| && OpenTitles(c, bs, n) && JoinsPrevious(bs, n + 1)
    requires bs[n + 1].title in c.segmentTitles <==> !Fresh(bs, GroupStart(bs, n), n + 1)
    ensures OpenTitles(Merged(c, bs[n + 1]), bs, n + 1)
    ensures Merged(c, bs[n + 1]).transitions == c.transitions + [(bs[Newest(bs, n)].title, bs[n + 1].title)]
  {
    hide Fresh, Joined;
  }

  lemma {:induction false} ProjectTitles(bs: seq<PlanBlock>, n: nat)
    requires n < |bs|
    ensures |Project(bs[..n + 1])| == Label(bs, n) + 1 && OpenTitles(Project(bs[..n + 1])[Label(bs, n)], bs, n)
    ensures JoinsPrevious(bs, n) ==>
              && |Project(bs[..n])| == Label(bs, n) + 1
              && Project(bs[..n + 1])[Label(bs, n)].transitions ==
                 Project(bs[..n])[Label(bs, n)].transitions + [(bs[Newest(bs, n - 1)].title, bs[n].title)]
  {
    hide Project, Merged, Opened, Label, OpenTitles, Joined, Newest, Fresh, GroupStart;
    var head := bs[..n + 1];
    ProjectEnters(head);
    LabelPrefix(head, bs, n);
    assert head[..n] == bs[..n] && head[n] == bs[n];
    if JoinsPrevious(bs, n) {
      ProjectTitles(bs, n - 1);
      LabelStays(bs, n);
      TitleSeen(bs[..n], bs[n].title);
      TitleSeenWhole(bs, n);
      assert bs[..n - 1 + 1] == bs[..n];
      MergedTitles(Project(bs[..n])[Label(bs, n)], bs, n - 1);
    } else {
      OpenedTitles(bs, n);
    }
  }

  lemma {:induction false} LabelStays(bs: seq<PlanBlock>, n: nat)
    requires n < |bs| && JoinsPrevious(bs, n)
    ensures Label(bs, n) == Label(bs, n - 1) == Label(bs[..n], n - 1)
  {
    LabelPrefix(bs[..n], bs, n - 1);
  }

  lemma {:induction false} TitleSeenWhole(bs: seq<PlanBlock>, n: nat)
    requires 0 < n < |bs|
    ensures (exists k :: GroupStart(bs[..n], n - 1) <= k <= n - 1 && bs[..n][k].title == bs[n].title) <==>
            !Fresh(bs, GroupStart(bs, n - 1), n)
  {
    StartPrefix(bs[..n], bs, n - 1);
    hide GroupStart;
    var s := GroupStart(bs, n - 1);
    if !Fresh(bs, s, n) {
      var k :| s <= k < n && bs[k].title == bs[n].title;
      assert bs[..n][k] == bs[k];
    }
  }

  lemma {:induction false} OpenedTitles(bs: seq<PlanBlock>, n: nat)
    requires n < |bs| && !JoinsPrevious(bs, n)
    ensures OpenTitles(Opened(bs[n]), bs, n)
  {
  }

  /** One transition for each block that joins another, to that block's title from the title
      last new in the calendar block. */
  lemma {:induction false} TransitionsExact(bs: seq<PlanBlock>, k: nat)
    requires k < |bs| && JoinsPrevious(bs, k)
    ensures var i, s := Label(bs, k), GroupStart(bs, k);
            && i < |Project(bs)| && s < k && k - s <= |Project(bs)[i].transitions|
            && Project(bs)[i].transitions[k - s - 1] == (bs[Newest(bs, k - 1)].title, bs[k].title)
  {
    hide Project, Label, Newest;
    ProjectTitles(bs, k);
    ProjectTitles(bs, k - 1);
    LabelStays(bs, k);
    assert bs[..k - 1 + 1] == bs[..k];
    TransitionStays(bs, k, |bs|);
    assert bs[..|bs|] == bs;
  }

  lemma {:induction false} MergedKeeps(c: CalendarBlock, b: PlanBlock)
    ensures c.transitions <= Merged(c, b).transitions
  {
  }

  /** Blocks that come later do not change what is written. */
  lemma {:induction false} TransitionStays(bs: seq<PlanBlock>, k: nat, n: nat)
    requires k < n <= |bs| && |Project(bs[..k + 1])| == Label(bs, k) + 1
    ensures Label(bs, k) < |Project(bs[..n])|
    ensures Project(bs[..k + 1])[Label(bs, k)].transitions <= Project(bs[..n])[Label(bs, k)].transitions
    decreases n
  {
    hide Project, Label, Joined, Opened, Merged;
    if k + 1 < n {
      var head := bs[..n];
      TransitionStays(bs, k, n - 1);
      assert head[..n - 1] == bs[..n - 1];
      ProjectEnters(head);
      MergedKeeps(Project(head[..n - 1])[|Project(head[..n - 1])| - 1], head[n - 1]);
    }
  }

  lemma {:induction false} FirstUse(bs: seq<PlanBlock>, s: nat, k: nat) returns (j: nat)
    requires s <= k < |bs|
    ensures s <= j <= k && bs[j].title == bs[k].title && Fresh(bs, s, j)
    decreases k
  {
    if Fresh(bs, s, k) {
      j := k;
    } else {
      var l :| s <= l < k && bs[l].title == bs[k].title;
      j := FirstUse(bs, s, l);
    }
  }

  /** So a transition does not always start from the block before: it does exactly unless that
      block repeats a title used before the newest one. */
  lemma {:induction false} TransitionFromPrevious(bs: seq<PlanBlock>, k: nat)
    requires k < |bs| && JoinsPrevious(bs, k)
    ensures Label(bs, k) < |Project(bs)| && 0 < k - GroupStart(bs, k) <= |Project(bs)[Label(bs, k)].transitions|
    ensures Project(bs)[Label(bs, k)].transitions[k - GroupStart(bs, k) - 1] == (bs[k - 1].title, bs[k].title) <==>
            !exists j, m :: GroupStart(bs, k) <= j < m < k - 1 && bs[j].title == bs[k - 1].title
                      && forall l :: GroupStart(bs, k) <= l < m ==> bs[l].title != bs[m].title
  {
    hide Project, Label, Newest;
    TransitionsExact(bs, k);
    var s, n := GroupStart(bs, k), Newest(bs, k - 1);
    assert GroupStart(bs, k - 1) == s;
    hide GroupStart, Joined;
    var f := FirstUse(bs, s, k - 1);
    assert bs[n].title == bs[k - 1].title <==> n == f;
    if n != f {
      assert f < n < k - 1 && bs[f].title == bs[k - 1].title && Fresh(bs, s, n);
    }
    if j, m :| s <= j < m < k - 1 && bs[j].title == bs[k - 1].title
               && forall l :: s <= l < m ==> bs[l].title != bs[m].title {
      assert Fresh(bs, s, m);
      assert m <= n;
    }
  }

  function Segment(title: string, at: Instant): PlanBlock
  {
    PlanBlock(Named(title), Some(title), title, FlexibleBlock, at, at + 1, Some("group"), Some("shown"), [], None, None, true, false)
  }

  /** Four blocks in one calendar block, the third with the title of the first. */
  lemma {:induction false} ReturnMisnames(bs: seq<PlanBlock>)
    requires |bs| == 4 && JoinsPrevious(bs, 1) && JoinsPrevious(bs, 2) && JoinsPrevious(bs, 3)
    requires bs[2].title == bs[0].title != bs[1].title
    ensures |Project(bs)| == 1 && |Project(bs)[0].transitions| == 3
    ensures Project(bs)[0].transitions[2] == (bs[1].title, bs[3].title)
  {
    hide Project, Joined;
    assert Label(bs, 0) == 0 && Label(bs, 1) == 0 && Label(bs, 2) == 0 && Label(bs, 3) == 0;
    assert GroupStart(bs, 0) == 0 && GroupStart(bs, 1) == 0 && GroupStart(bs, 2) == 0 && GroupStart(bs, 3) == 0;
    hide Label, GroupStart;
    assert Fresh(bs, 0, 1) && !Fresh(bs, 0, 2);
    assert Newest(bs, 2) == 1;
    hide Newest;
    ProjectLength(bs);
    TransitionsExact(bs, 3);
    ProjectTitles(bs, 3);
    assert bs[..3 + 1] == bs;
  }

  /** The failing case: after A, B and A again, the step to C is written as one from B. */
  lemma {:induction false} TransitionsMayMisname()
    ensures var bs := [Segment("A", 0), Segment("B", 1), Segment("A", 2), Segment("C", 3)];
            && |Project(bs)| == 1 && |Project(bs)[0].transitions| == 3
            && Project(bs)[0].transitions[2] == ("B", "C") && bs[2].title == "A"
  {
    hide Project;
    assert "A"[0] != "B"[0];
    ReturnMisnames([Segment("A", 0), Segment("B", 1), Segment("A", 2), Segment("C", 3)]);
  }
}
