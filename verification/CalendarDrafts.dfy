/** From the proposed calendar to the drafts of an approved plan: the event keys, when they clash,
    and what that means for applying the plan. */
module CalendarDrafts {
  import opened Options
  import opened Separators
  import opened PlannerModel
  import opened PlannerFixed
  import opened PlannerPlacement
  import opened PlannerSchedule
  import opened PlannerTiling
  import opened PlannerProjection
  import opened PlannerDay
  import C = CalendarPlan
  import opened CalendarProvider

  function Dash(c: char): char { if c == ':' then '-' else c }

  /** Colons become dashes. */
  function Dashed(s: string): string { seq(|s|, i requires 0 <= i < |s| => Dash(s[i])) }

  function KeyFor(c: CalendarBlock): string { Dashed(c.blockId) }

  predicate KeyChar(c: char)
  {
    'a' <= c <= 'z' || 'A' <= c <= 'Z' || '0' <= c <= '9' || c == '_' || c == '-'
  }

  predicate ValidKey(key: string)
  {
    1 <= |key| <= 128 && forall i :: 0 <= i < |key| ==> KeyChar(key[i])
  }

  function DraftFor(c: CalendarBlock): Draft { Draft(KeyFor(c), c.title, c.startsAt, c.endsAt) }

  /** The drafts of a calendar, unless a key is not admitted. */
  function DraftsFor(cs: seq<CalendarBlock>): Option<seq<Draft>>
  {
    if forall i :: 0 <= i < |cs| ==> ValidKey(KeyFor(cs[i]))
    then Some(seq(|cs|, i requires 0 <= i < |cs| => DraftFor(cs[i])))
    else None
  }

  /** A calendar becomes drafts exactly when every block's name, its colons turned to dashes,
      is a key the calendar admits; each draft then is its block's title and times under it. */
  lemma {:induction false} DraftsExactly(cs: seq<CalendarBlock>, i: nat, k: nat)
    ensures DraftsFor(cs).Some? <==>
            forall j :: 0 <= j < |cs| ==>
              && 1 <= |cs[j].blockId| <= 128
              && forall c :: c in cs[j].blockId ==>
                   'a' <= c <= 'z' || 'A' <= c <= 'Z' || '0' <= c <= '9' || c == '_' || c == '-' || c == ':'
    ensures DraftsFor(cs).Some? && i < |cs| ==>
              && |DraftsFor(cs).value| == |cs|
              && var d := DraftsFor(cs).value[i];
              && d.summary == cs[i].title && d.starts == cs[i].startsAt && d.ends == cs[i].endsAt
              && |d.key| == |cs[i].blockId|
              && (k < |d.key| ==> d.key[k] == if cs[i].blockId[k] == ':' then '-' else cs[i].blockId[k])
  {
    forall j | 0 <= j < |cs|
      ensures ValidKey(KeyFor(cs[j])) <==>
              && 1 <= |cs[j].blockId| <= 128
              && forall c :: c in cs[j].blockId ==>
                   'a' <= c <= 'z' || 'A' <= c <= 'Z' || '0' <= c <= '9' || c == '_' || c == '-' || c == ':'
    {
      KeyAdmitted(cs[j].blockId);
    }
    hide ValidKey;
  }

  lemma {:induction false} KeyAdmitted(name: string)
    ensures ValidKey(Dashed(name)) <==>
            && 1 <= |name| <= 128
            && forall c :: c in name ==>
                 'a' <= c <= 'z' || 'A' <= c <= 'Z' || '0' <= c <= '9' || c == '_' || c == '-' || c == ':'
  {
    if ValidKey(Dashed(name)) {
      forall c | c in name
        ensures 'a' <= c <= 'z' || 'A' <= c <= 'Z' || '0' <= c <= '9' || c == '_' || c == '-' || c == ':'
      {
        var i :| 0 <= i < |name| && name[i] == c;
        assert KeyChar(Dashed(name)[i]);
      }
    } else if 1 <= |name| <= 128 {
      var i :| 0 <= i < |name| && !KeyChar(Dashed(name)[i]);
      assert name[i] in name;
    }
  }

  // ------------------------------------------------------------------ when keys clash

  lemma {:induction false} DashedName(first: string, last: string)
    ensures Dashed(NameOf(first, last)) == "calendar-" + (Dashed(first) + ['-'] + Dashed(last))
  {
  }

  /** The keys of two blocks are equal exactly when, with colons as dashes, their first and last
      activities are equal or interlock at a dash. */
  lemma {:induction false} SameKey(c: CalendarBlock, d: CalendarBlock)
    requires NamedByEnds(c) && NamedByEnds(d)
    ensures KeyFor(c) == KeyFor(d) <==>
            var a, b, x, y := Dashed(First(c)), Dashed(Last(c)), Dashed(First(d)), Dashed(Last(d));
            (a == x && b == y) || Interlock(a, b, x, y, '-') || Interlock(x, y, a, b, '-')
  {
    var a, b, x, y := Dashed(First(c)), Dashed(Last(c)), Dashed(First(d)), Dashed(Last(d));
    hide Dashed, Interlock, NameOf;
    DashedName(First(c), Last(c));
    DashedName(First(d), Last(d));
    SameJoin(a, b, x, y, '-');
    assert KeyFor(c)[9..] == a + ['-'] + b && KeyFor(d)[9..] == x + ['-'] + y;
  }

  /** Whether two different blocks of a calendar get one key. */
  predicate Clash(c: CalendarBlock, d: CalendarBlock)
  {
    var a, b, x, y := Dashed(First(c)), Dashed(Last(c)), Dashed(First(d)), Dashed(Last(d));
    (a == x && b == y) || Interlock(a, b, x, y, '-') || Interlock(x, y, a, b, '-')
  }

  lemma {:induction false} DashedPlain(s: string)
    requires ':' !in s
    ensures Dashed(s) == s
  {
  }

  /** An identifier that is the same whether or not colons are dashes and has no dash either. */
  predicate Plain(id: string) { ':' !in id && '-' !in id }

  lemma {:induction false} PlainNeverClash(c: CalendarBlock, d: CalendarBlock)
    requires Plain(First(c)) && Plain(First(d)) && First(c) != First(d)
    ensures !Clash(c, d)
  {
    DashedPlain(First(c));
    DashedPlain(First(d));
    PlainFirst(First(c), Dashed(Last(c)), First(d), Dashed(Last(d)), '-');
  }

  /** Identifiers of one length without a colon, such as UUIDs, may have dashes. */
  lemma {:induction false} EvenNeverClash(c: CalendarBlock, d: CalendarBlock)
    requires ':' !in First(c) && ':' !in First(d) && |First(c)| == |First(d)| && First(c) != First(d)
    ensures !Clash(c, d)
  {
    DashedPlain(First(c));
    DashedPlain(First(d));
    EvenFirst(First(c), Dashed(Last(c)), First(d), Dashed(Last(d)), '-');
  }

  // --------------------------------------------------- what a clash means for the plan

  ghost predicate NoClash(cs: seq<CalendarBlock>)
  {
    forall i, j :: 0 <= i < j < |cs| ==> !Clash(cs[i], cs[j])
  }

  lemma {:induction false} ClashIsMutual(c: CalendarBlock, d: CalendarBlock)
    ensures Clash(c, d) <==> Clash(d, c)
  {
  }

  lemma {:induction false} LaterStart(cs: seq<CalendarBlock>, i: nat, j: nat)
    requires NormalForm(cs) && i < j < |cs|
    ensures cs[i].endsAt <= cs[j].startsAt
    decreases j
  {
    assert Settled(cs[j - 1], cs[j]);
    if i < j - 1 {
      LaterStart(cs, i, j - 1);
    }
  }

  lemma {:induction false} DraftAt(cs: seq<CalendarBlock>, drafts: seq<Draft>, i: nat)
    requires DraftsFor(cs) == Some(drafts) && i < |cs|
    ensures |drafts| == |cs| && drafts[i] == DraftFor(cs[i])
  {
  }

  /** Different blocks of a settled calendar never give equal drafts, so the keys of the plan are
      consistent exactly when no two blocks clash. */
  lemma {:induction false} ConsistentExactly(cs: seq<CalendarBlock>, plan: C.Plan)
    requires NormalForm(cs) && DraftsFor(cs) == Some(plan.drafts)
    requires forall i :: 0 <= i < |cs| ==> NamedByEnds(cs[i])
    ensures C.ConsistentKeys(plan) <==> NoClash(cs)
  {
    hide Clash, NamedByEnds, NormalForm, DraftsFor;
    if cs != [] {
      DraftAt(cs, plan.drafts, 0);
    }
    forall i, j | 0 <= i < j < |cs|
      ensures plan.drafts[i] != plan.drafts[j] && (plan.drafts[i].key == plan.drafts[j].key <==> Clash(cs[i], cs[j]))
    {
      DraftAt(cs, plan.drafts, i);
      DraftAt(cs, plan.drafts, j);
      KeysOfPair(cs, i, j);
    }
    DraftCount(cs, plan.drafts);
    if C.ConsistentKeys(plan) {
      assert NoClash(cs);
    }
  }

  lemma {:induction false} KeysOfPair(cs: seq<CalendarBlock>, i: nat, j: nat)
    requires NormalForm(cs) && i < j < |cs| && NamedByEnds(cs[i]) && NamedByEnds(cs[j])
    ensures KeyFor(cs[i]) == KeyFor(cs[j]) <==> Clash(cs[i], cs[j])
    ensures DraftFor(cs[i]) != DraftFor(cs[j])
  {
    SameKey(cs[i], cs[j]);
    LaterStart(cs, i, j);
  }

  lemma {:induction false} DraftCount(cs: seq<CalendarBlock>, drafts: seq<Draft>)
    requires DraftsFor(cs) == Some(drafts)
    ensures |drafts| == |cs|
  {
  }

  /** The calendar of a sound plan, published: applying it again finds nothing to do exactly when
      no two of its blocks clash. */
  lemma {:induction false} PublishedPlanSettles(ps: seq<Placement>, activities: set<Activity>, h: Horizon,
                                                owner: string, plan: C.Plan, start: C.Events)
    requires Catalog(activities, h) && Sound(ps, activities, h) && h.start < h.end
    requires DraftsFor(CalendarOf(ps, h)) == Some(plan.drafts) && C.Fits(owner, plan, start, |plan.drafts|)
    ensures (forall i :: 0 <= i < |plan.drafts| ==>
               C.Compare(owner, plan, C.Written(owner, plan, start, |plan.drafts|), plan.drafts[i], true).Noop?)
            <==> NoClash(CalendarOf(ps, h))
  {
    hide Catalog, Sound, CalendarOf, DraftsFor, C.Compare, C.Written, NoClash;
    CalendarSettled(ps, activities, h);
    CalendarNamed(ps, h);
    ConsistentExactly(CalendarOf(ps, h), plan);
    C.ReapplySettles(owner, plan, start);
  }

  lemma {:induction false} CalendarNamed(ps: seq<Placement>, h: Horizon)
    ensures forall i :: 0 <= i < |CalendarOf(ps, h)| ==> NamedByEnds(CalendarOf(ps, h)[i])
  {
    FirstAndLast(EligibleOf(InternalPlan(ps, h)));
  }

  lemma {:induction false} CalendarFirsts(ps: seq<Placement>, activities: set<Activity>, h: Horizon, i: nat) returns (p: Placement)
    requires Catalog(activities, h) && Sound(ps, activities, h) && h.start < h.end && i < |CalendarOf(ps, h)|
    ensures p in ps && First(CalendarOf(ps, h)[i]) == p.activity.id
  {
    var bs := EligibleOf(InternalPlan(ps, h));
    PlanIsDrawn(ps, activities, h);
    CalendarNamed(ps, h);
    SourceIsIdentifier(bs, i);
    var k :| 0 <= k < |bs| && IdOf(bs[k]) == First(Project(bs)[i]);
    p := SourcePlacement(bs, ps, h, k);
  }

  lemma {:induction false} CalendarFirstsDiffer(ps: seq<Placement>, activities: set<Activity>, h: Horizon, i: nat, j: nat)
    requires Catalog(activities, h) && Sound(ps, activities, h) && h.start < h.end
    requires i < |CalendarOf(ps, h)| && j < |CalendarOf(ps, h)| && i != j
    ensures First(CalendarOf(ps, h)[i]) != First(CalendarOf(ps, h)[j])
  {
    var bs := EligibleOf(InternalPlan(ps, h));
    PlanIsDrawn(ps, activities, h);
    DrawnActivitiesJoin(bs, ps, h);
    FirstsDiffer(bs, i, j);
  }

  /** Identifiers without colons that have no dashes, or all one length, never clash. */
  ghost predicate TellsApartByKey(ps: seq<Placement>)
  {
    || (forall p :: p in ps ==> Plain(p.activity.id))
    || (forall p, q :: p in ps && q in ps ==> ':' !in p.activity.id && |p.activity.id| == |q.activity.id|)
  }

  lemma {:induction false} PublishedKeysDistinct(ps: seq<Placement>, activities: set<Activity>, h: Horizon)
    requires Catalog(activities, h) && Sound(ps, activities, h) && h.start < h.end && TellsApartByKey(ps)
    ensures NoClash(CalendarOf(ps, h))
  {
    hide Catalog, Sound, CalendarOf, Clash;
    var cs := CalendarOf(ps, h);
    forall i, j | 0 <= i < j < |cs|
      ensures !Clash(cs[i], cs[j])
    {
      var p := CalendarFirsts(ps, activities, h, i);
      var q := CalendarFirsts(ps, activities, h, j);
      CalendarFirstsDiffer(ps, activities, h, i, j);
      if Plain(p.activity.id) && Plain(q.activity.id) {
        PlainNeverClash(cs[i], cs[j]);
      } else {
        EvenNeverClash(cs[i], cs[j]);
      }
    }
  }

  /** The failing case: names that differ in where the colon stands give one key. */
  lemma {:induction false} DashesMayClash()
    ensures var bs := [Sample("a", "x", 0), Sample("b-c", "x", 1), Sample("a-b", "y", 2), Sample("c", "y", 3)];
            && |Project(bs)| == 2
            && Project(bs)[0].blockId != Project(bs)[1].blockId
            && KeyFor(Project(bs)[0]) == KeyFor(Project(bs)[1])
            && ValidKey(KeyFor(Project(bs)[0]))
  {
    hide Project, Absorb, Merged, Opened, Sample;
    var a, b, c, d := Sample("a", "x", 0), Sample("b-c", "x", 1), Sample("a-b", "y", 2), Sample("c", "y", 3);
    assert |"a"| != |"b-c"| && |"a-b"| != |"c"| && "x"[0] != "y"[0];
    ProjectPair([], a, b);
    ProjectNone();
    PairOpens([], "a", "b-c", "x", 0);
    assert [] + [a, b] == [a, b];
    ProjectPair([a, b], c, d);
    PairOpens(Project([a, b]), "a-b", "c", "y", 2);
    assert [a, b] + [c, d] == [a, b, c, d];
    KeysOfNames();
  }

  lemma {:induction false} KeysOfNames()
    ensures NameOf("a", "b-c") != NameOf("a-b", "c")
    ensures Dashed(NameOf("a", "b-c")) == Dashed(NameOf("a-b", "c")) == "calendar-a-b-c"
    ensures ValidKey("calendar-a-b-c")
  {
    assert NameOf("a", "b-c") == "calendar:a:b-c" && NameOf("a-b", "c") == "calendar:a-b:c";
    assert "calendar:a:b-c"[10] == ':' && "calendar:a-b:c"[10] == '-';
    assert Dashed("calendar:a:b-c") == "calendar-a-b-c";
    assert Dashed("calendar:a-b:c") == "calendar-a-b-c";
  }
}
