/** The schedule as a whole: what every non-refused plan guarantees, which refusals occur,
    and why nothing left out could still have been placed. */
module PlannerSchedule {
  import opened Options
  import opened Ordering
  import opened PlannerModel
  import opened PlannerScoring
  import opened PlannerPlacement
  import opened PlannerFixed
  import opened PlannerFlexible

  /** A dependency is met when it is placed and ends before its dependent starts. */
  predicate Met(d: string, p: Placement, ps: seq<Placement>)
  {
    exists q :: q in ps && q.activity.id == d && q.endsAt <= p.startsAt
  }

  predicate AllMet(p: Placement, ps: seq<Placement>)
  {
    forall d :: d in p.activity.dependencies ==> Met(d, p, ps)
  }

  /** Activities whose dependencies are absent from the plan or end too late. */
  function InvalidDependencies(ps: seq<Placement>): set<string>
  {
    set p | p in ps && !AllMet(p, ps) :: p.activity.id
  }

  datatype Outcome =
    | FixedConflicting(ids: set<string>)
    | DependenciesBroken(ids: set<string>)
    | Planned(placements: seq<Placement>, unscheduled: seq<Unscheduled>)

  ghost function Placed(activities: set<Activity>, h: Horizon): FlexResult
    requires Catalog(activities, h)
  {
    Flex(FlexibleOf(activities), h, IdsOf(activities), FixedSequence(activities, h))
  }

  /** The planner's decision; it reads the activities as a set. */
  ghost function Schedule(activities: set<Activity>, h: Horizon): Outcome
    requires Catalog(activities, h)
  {
    if FixedConflicts(activities, h) != {} then FixedConflicting(FixedConflicts(activities, h))
    else
      var r := Placed(activities, h);
      if InvalidDependencies(r.placements) != {} then DependenciesBroken(InvalidDependencies(r.placements))
      else Planned(r.placements, r.unscheduled)
  }

  // --------------------------------------------------------------- soundness

  /** One reservation on its own: a listed activity, its full length, inside the window and
      its time bounds; a fixed one at its fixed time. */
  ghost predicate WellPlaced(p: Placement, activities: set<Activity>, h: Horizon)
    requires Catalog(activities, h)
  {
    && p.activity in activities
    && p.endsAt == p.startsAt + p.activity.duration
    && InWindow(p, h) && SatisfiesTimeBounds(p, h)
    && p.score == ScoreActivity(p.activity, h, p.startsAt, h.dependents[p.activity.id])
    && (IsFixed(p.activity) ==> p == FixedPlacement(p.activity, h))
  }

  /** No activity twice and no two reservations, travel included, at the same minute. */
  ghost predicate Separate(ps: seq<Placement>)
  {
    forall i, j :: 0 <= i < j < |ps| ==> ps[i].activity.id != ps[j].activity.id && !Overlaps(ps[i], ps[j])
  }

  /** Flexible activities follow their dependencies and precede their dependents. */
  ghost predicate FlexibleInOrder(ps: seq<Placement>)
  {
    && (forall p :: p in ps && !IsFixed(p.activity) ==> AllMet(p, ps))
    && (forall p, q :: p in ps && q in ps && !IsFixed(q.activity) && q.activity.id in p.activity.dependencies
          ==> q.endsAt <= p.startsAt)
  }

  ghost predicate Sound(ps: seq<Placement>, activities: set<Activity>, h: Horizon)
    requires Catalog(activities, h)
  {
    && (forall p :: p in ps ==> WellPlaced(p, activities, h))
    && Separate(ps)
    && FlexibleInOrder(ps)
  }

  lemma {:induction false} NoConflictMeans(activities: set<Activity>, h: Horizon, a: Activity)
    requires Catalog(activities, h) && FixedConflicts(activities, h) == {} && a in FixedOf(activities)
    ensures !Misfit(a, h) && forall b :: b in FixedOf(activities) && b != a ==> !Clash(a, b, h)
  {
    assert a.id !in FixedConflicts(activities, h);
  }

  /** The `k`-th fixed reservation is that of a fixed activity, and distinct ones differ. */
  lemma {:induction false} FixedAt(activities: set<Activity>, h: Horizon, k: nat)
    requires Catalog(activities, h) && k < |FixedSequence(activities, h)|
    ensures var p := FixedSequence(activities, h)[k];
            p.activity in FixedOf(activities) && p == FixedPlacement(p.activity, h)
    ensures forall j :: k < j < |FixedSequence(activities, h)| ==>
              FixedSequence(activities, h)[k].activity != FixedSequence(activities, h)[j].activity
  {
    FixedKeyInjective(activities, h);
    var xs := SortedOf(FixedKey(h), FixedOf(activities));
    assert xs[k] in Elements(xs);
    forall j | k < j < |xs|
      ensures xs[k] != xs[j]
    {
      BeforeAsymmetric(FixedKey(h)(xs[k]), FixedKey(h)(xs[j]));
    }
  }

  lemma {:induction false} FixedSequenceCovers(activities: set<Activity>, h: Horizon)
    requires Catalog(activities, h)
    ensures PlacedIds(FixedSequence(activities, h)) == IdsOf(FixedOf(activities))
  {
    hide FixedSequence, Catalog, FixedOf;
    var ps := FixedSequence(activities, h);
    forall a | a in FixedOf(activities)
      ensures a.id in PlacedIds(ps)
    {
      var k := FixedIndex(activities, h, a);
      assert ps[k] in ps;
    }
    forall p | p in ps
      ensures p.activity.id in IdsOf(FixedOf(activities))
    {
      var k :| 0 <= k < |ps| && ps[k] == p;
      FixedAt(activities, h, k);
    }
  }

  lemma {:induction false} FixedIndex(activities: set<Activity>, h: Horizon, a: Activity) returns (k: nat)
    requires Catalog(activities, h) && a in FixedOf(activities)
    ensures k < |FixedSequence(activities, h)| && FixedSequence(activities, h)[k].activity == a
  {
    FixedKeyInjective(activities, h);
    var xs := SortedOf(FixedKey(h), FixedOf(activities));
    assert a in Elements(xs);
    k :| 0 <= k < |xs| && xs[k] == a;
  }

  lemma {:induction false} FixedSequenceSound(activities: set<Activity>, h: Horizon)
    requires Catalog(activities, h) && FixedConflicts(activities, h) == {}
    ensures Sound(FixedSequence(activities, h), activities, h)
  {
    var ps := FixedSequence(activities, h);
    forall p | p in ps
      ensures WellPlaced(p, activities, h) && IsFixed(p.activity)
    {
      var k :| 0 <= k < |ps| && ps[k] == p;
      FixedAt(activities, h, k);
      NoConflictMeans(activities, h, p.activity);
    }
    forall i, j | 0 <= i < j < |ps|
      ensures ps[i].activity.id != ps[j].activity.id && !Overlaps(ps[i], ps[j])
    {
      FixedAt(activities, h, i);
      FixedAt(activities, h, j);
      NoConflictMeans(activities, h, ps[i].activity);
      assert !Clash(ps[i].activity, ps[j].activity, h);
    }
  }

  lemma {:induction false} MetGrows(d: string, p: Placement, ps: seq<Placement>, c: Placement)
    requires Met(d, p, ps)
    ensures Met(d, p, ps + [c])
  {
    var q :| q in ps && q.activity.id == d && q.endsAt <= p.startsAt;
    assert q in ps + [c];
  }

  lemma {:induction false} CandidateMet(a: Activity, h: Horizon, ps: seq<Placement>, c: Placement)
    requires Searchable(a, h) && Best(a, h, ps) == Some(c)
    ensures AllMet(c, ps + [c])
  {
    forall d | d in a.dependencies
      ensures Met(d, c, ps + [c])
    {
      assert d in PlacedIds(ps);
      var q :| q in ps && q.activity.id == d;
      MetGrows(d, c, ps, c);
    }
  }

  lemma {:induction false} AppendSeparate(a: Activity, h: Horizon, ps: seq<Placement>, c: Placement)
    requires Searchable(a, h) && Best(a, h, ps) == Some(c)
    requires Separate(ps) && a.id !in PlacedIds(ps)
    ensures Separate(ps + [c])
  {
    forall i | 0 <= i < |ps|
      ensures ps[i].activity.id != c.activity.id && !Overlaps(ps[i], c)
    {
      assert ps[i].activity.id in PlacedIds(ps);
      assert !Collides(a, h, ps, c.startsAt);
    }
  }

  lemma {:induction false} AppendInOrder(a: Activity, h: Horizon, ps: seq<Placement>, c: Placement)
    requires Searchable(a, h) && ValidActivity(a) && Best(a, h, ps) == Some(c)
    requires FlexibleInOrder(ps)
    ensures FlexibleInOrder(ps + [c])
  {
    CandidateMet(a, h, ps, c);
    forall p | p in ps && !IsFixed(p.activity)
      ensures AllMet(p, ps + [c])
    {
      forall d | d in p.activity.dependencies
        ensures Met(d, p, ps + [c])
      {
        MetGrows(d, p, ps, c);
      }
    }
    assert Admissible(a, h, ps, c.startsAt);
  }

  /** Placing the best candidate of an unplaced flexible activity keeps the plan sound. */
  lemma {:induction false} AppendSound(a: Activity, activities: set<Activity>, h: Horizon, ps: seq<Placement>, c: Placement)
    requires Catalog(activities, h) && a in FlexibleOf(activities) && Sound(ps, activities, h)
    requires Best(a, h, ps) == Some(c) && a.id !in PlacedIds(ps)
    ensures Sound(ps + [c], activities, h)
  {
    AppendSeparate(a, h, ps, c);
    AppendInOrder(a, h, ps, c);
    assert WellPlaced(c, activities, h);
  }

  /** What remains to place, beside the reservations made so far. */
  ghost predicate Underway(s: set<Activity>, activities: set<Activity>, h: Horizon, ps: seq<Placement>)
  {
    && Catalog(activities, h) && s <= FlexibleOf(activities)
    && Sound(ps, activities, h)
    && IdsOf(s) !! PlacedIds(ps)
  }

  lemma {:induction false} UnderwayPlaces(s: set<Activity>, rest: set<Activity>, activities: set<Activity>, h: Horizon,
                       ps: seq<Placement>, c: Placement)
    requires Underway(s, activities, h, ps) && c.activity in s && Best(c.activity, h, ps) == Some(c)
    requires rest <= s - {c.activity}
    ensures Underway(rest, activities, h, ps + [c])
  {
    assert c.activity.id in IdsOf(s);
    AppendSound(c.activity, activities, h, ps, c);
    PlacedIdsGrow(ps, c);
    forall id | id in IdsOf(rest)
      ensures id !in PlacedIds(ps + [c])
    {
      var a :| a in rest && a.id == id;
      assert a.id in IdsOf(s);
    }
  }

  lemma {:induction false} UnderwayShrinks(s: set<Activity>, rest: set<Activity>, activities: set<Activity>, h: Horizon, ps: seq<Placement>)
    requires Underway(s, activities, h, ps) && rest <= s
    ensures Underway(rest, activities, h, ps)
  {
    assert IdsOf(rest) <= IdsOf(s);
  }

  lemma {:induction false} FlexSound(s: set<Activity>, activities: set<Activity>, h: Horizon, known: set<string>, ps: seq<Placement>)
    requires Underway(s, activities, h, ps)
    ensures Sound(Flex(s, h, known, ps).placements, activities, h)
    ensures ps <= Flex(s, h, known, ps).placements
    decreases |s|
  {
    UnderwayIsSound(s, activities, h, ps);
    if s == {} {
      hide Flex, Sound;
      FlexOfNone(h, known, ps);
    } else {
      var missing := Selected(s, known, false);
      var eligible := Selected(s - missing, PlacedIds(ps), true);
      hide Report, Flex, Selected, Underway, Catalog, Choose, Best, Sound;
      SelectedPart(s, s, known, false, activities, h, ps);
      SelectedPart(s, s - missing, PlacedIds(ps), true, activities, h, ps);
      PartOfCatalog(missing, activities, h);
      PartOfCatalog(eligible, activities, h);
      PartOfCatalog(s, activities, h);
      if Candidates(eligible, h, ps) != {} {
        var c := Choose(eligible, h, ps);
        PartOfCatalog(s - missing - {c.activity}, activities, h);
        FlexPlaces(s, h, known, ps, missing, eligible);
        UnderwayPlaces(s, s - missing - {c.activity}, activities, h, ps, c);
        SmallerSet(s - missing - {c.activity}, s, c.activity);
        FlexSound(s - missing - {c.activity}, activities, h, known, ps + [c]);
      } else if eligible != {} {
        var a :| a in eligible;
        PartOfCatalog(s - missing - eligible, activities, h);
        FlexGivesUp(s, h, known, ps, missing, eligible);
        UnderwayShrinks(s, s - missing - eligible, activities, h, ps);
        SmallerSet(s - missing - eligible, s, a);
        FlexSound(s - missing - eligible, activities, h, known, ps);
      } else {
        PartOfCatalog(s - missing, activities, h);
        FlexStops(s, h, known, ps, missing);
        FlexOfNone(h, known, ps);
      }
    }
  }

  lemma {:induction false} UnderwayIsSound(s: set<Activity>, activities: set<Activity>, h: Horizon, ps: seq<Placement>)
    requires Underway(s, activities, h, ps)
    ensures Catalog(activities, h) && Sound(ps, activities, h)
  {
  }

  // ------------------------------------------------- partition and maximality

  ghost function ReportedIds(us: seq<Unscheduled>): set<string>
  {
    set u | u in us :: u.activityId
  }

  ghost predicate NoRepeat(us: seq<Unscheduled>)
  {
    forall i, j :: 0 <= i < j < |us| ==> us[i].activityId != us[j].activityId
  }

  /** The report lists `s` by identifier. */
  lemma {:induction false} ReportAt(s: set<Activity>, h: Horizon, reason: Reason, known: set<string>, k: nat)
    requires Catalog(s, h) && k < |Report(s, h, reason, known)|
    ensures exists a :: a in s && Report(s, h, reason, known)[k] == Unscheduled(a.id, reason, Blocking(a, reason, known))
    ensures forall j :: k < j < |Report(s, h, reason, known)| ==>
              Report(s, h, reason, known)[k].activityId != Report(s, h, reason, known)[j].activityId
  {
    ActivityKeyInjective(s, h);
    var xs := SortedOf(ActivityKey, s);
    assert xs[k] in Elements(xs);
    forall j | k < j < |xs|
      ensures xs[k].id != xs[j].id
    {
      BeforeAsymmetric(ActivityKey(xs[k]), ActivityKey(xs[j]));
    }
  }

  lemma {:induction false} ReportMember(s: set<Activity>, h: Horizon, reason: Reason, known: set<string>, u: Unscheduled) returns (a: Activity)
    requires Catalog(s, h) && u in Report(s, h, reason, known)
    ensures a in s && u == Unscheduled(a.id, reason, Blocking(a, reason, known))
  {
    var k :| 0 <= k < |Report(s, h, reason, known)| && Report(s, h, reason, known)[k] == u;
    ReportAt(s, h, reason, known, k);
    a :| a in s && u == Unscheduled(a.id, reason, Blocking(a, reason, known));
  }

  lemma {:induction false} ReportHas(s: set<Activity>, h: Horizon, reason: Reason, known: set<string>, a: Activity)
    requires Catalog(s, h) && a in s
    ensures a.id in ReportedIds(Report(s, h, reason, known))
  {
    ActivityKeyInjective(s, h);
    var xs := SortedOf(ActivityKey, s);
    assert a in Elements(xs);
    var k :| 0 <= k < |xs| && xs[k] == a;
    assert Report(s, h, reason, known)[k] in Report(s, h, reason, known);
  }

  lemma {:induction false} ReportCovers(s: set<Activity>, h: Horizon, reason: Reason, known: set<string>)
    requires Catalog(s, h)
    ensures ReportedIds(Report(s, h, reason, known)) == IdsOf(s)
    ensures NoRepeat(Report(s, h, reason, known))
  {
    hide Report, Catalog, Blocking;
    var r := Report(s, h, reason, known);
    forall id
      ensures id in ReportedIds(r) <==> id in IdsOf(s)
    {
      if u :| u in r && u.activityId == id {
        var a := ReportMember(s, h, reason, known, u);
      }
      if a :| a in s && a.id == id {
        ReportHas(s, h, reason, known, a);
      }
    }
    forall i, j | 0 <= i < j < |r|
      ensures r[i].activityId != r[j].activityId
    {
      ReportAt(s, h, reason, known, i);
    }
  }

  lemma {:induction false} ReportedConcat(us: seq<Unscheduled>, vs: seq<Unscheduled>)
    ensures ReportedIds(us + vs) == ReportedIds(us) + ReportedIds(vs)
    ensures NoRepeat(us) && NoRepeat(vs) && ReportedIds(us) !! ReportedIds(vs) ==> NoRepeat(us + vs)
  {
    assert forall u :: u in us + vs <==> u in us || u in vs;
    if NoRepeat(us) && NoRepeat(vs) && ReportedIds(us) !! ReportedIds(vs) {
      forall i, j | 0 <= i < |us| && 0 <= j < |vs|
        ensures us[i].activityId != vs[j].activityId
      {
        assert us[i].activityId in ReportedIds(us) && vs[j].activityId in ReportedIds(vs);
      }
    }
  }

  /** Disjoint sets of listed activities have disjoint identifiers. */
  lemma {:induction false} DisjointIds(s: set<Activity>, t: set<Activity>, activities: set<Activity>, h: Horizon)
    requires Catalog(activities, h) && s <= activities && t <= activities && s !! t
    ensures IdsOf(s) !! IdsOf(t)
  {
    assert forall a, b :: a in s && b in t ==> a.id != b.id;
  }

  lemma {:induction false} PlacedIdsPrefix(ps: seq<Placement>, qs: seq<Placement>)
    requires ps <= qs
    ensures PlacedIds(ps) <= PlacedIds(qs)
  {
    assert forall p :: p in ps ==> p in qs;
  }

  /** Of the activities `s` to place, the placed and the reported ones are all and are apart. */
  ghost predicate Accounts(s: set<Activity>, ps: seq<Placement>, r: FlexResult)
  {
    && PlacedIds(r.placements) + ReportedIds(r.unscheduled) == PlacedIds(ps) + IdsOf(s)
    && PlacedIds(r.placements) !! ReportedIds(r.unscheduled)
    && NoRepeat(r.unscheduled)
  }

  lemma {:induction false} AccountsResume(s: set<Activity>, gone: set<Activity>, rest: set<Activity>, activities: set<Activity>, h: Horizon,
                       ps: seq<Placement>, reported: seq<Unscheduled>, r: FlexResult)
    requires Underway(s, activities, h, ps) && gone <= s && rest == s - gone
    requires ReportedIds(reported) == IdsOf(gone) && NoRepeat(reported)
    requires Accounts(rest, ps, r)
    ensures Accounts(s, ps, Resume(reported, r))
  {
    ReportedConcat(reported, r.unscheduled);
    assert s == gone + rest;
    assert IdsOf(s) == IdsOf(gone) + IdsOf(rest);
    DisjointIds(gone, rest, activities, h);
    assert ReportedIds(r.unscheduled) <= PlacedIds(ps) + IdsOf(rest);
  }

  lemma {:induction false} AccountsPlaces(rest: set<Activity>, c: Placement, ps: seq<Placement>, r: FlexResult)
    requires c.activity in rest && Accounts(rest - {c.activity}, ps + [c], r)
    ensures Accounts(rest, ps, r)
  {
    PlacedIdsGrow(ps, c);
    assert rest == rest - {c.activity} + {c.activity};
    assert IdsOf(rest) == IdsOf(rest - {c.activity}) + {c.activity.id};
  }

  lemma {:induction false} ReportTwo(s: set<Activity>, t: set<Activity>, activities: set<Activity>, h: Horizon,
                  reason: Reason, known: set<string>, reason': Reason, known': set<string>)
    requires Catalog(activities, h) && s <= activities && t <= activities && s !! t
    ensures ReportedIds(Report(s, h, reason, known) + Report(t, h, reason', known')) == IdsOf(s + t)
    ensures NoRepeat(Report(s, h, reason, known) + Report(t, h, reason', known'))
  {
    hide Report, Blocking;
    ReportCovers(s, h, reason, known);
    ReportCovers(t, h, reason', known');
    DisjointIds(s, t, activities, h);
    ReportedConcat(Report(s, h, reason, known), Report(t, h, reason', known'));
    assert IdsOf(s + t) == IdsOf(s) + IdsOf(t);
  }

  lemma {:induction false} FlexAccounts(s: set<Activity>, activities: set<Activity>, h: Horizon, known: set<string>, ps: seq<Placement>)
    requires Underway(s, activities, h, ps)
    ensures Accounts(s, ps, Flex(s, h, known, ps))
    decreases |s|
  {
    var missing := Selected(s, known, false);
    var eligible := Selected(s - missing, PlacedIds(ps), true);
    if s == {} {
    } else if Candidates(eligible, h, ps) != {} {
      FlexPlacesAccounts(s, activities, h, known, ps, missing, eligible);
    } else if eligible != {} {
      FlexGivesUpAccounts(s, activities, h, known, ps, missing, eligible);
    } else {
      FlexStopsAccounts(s, activities, h, known, ps, missing);
    }
  }

  lemma {:induction false} FlexPlacesAccounts(s: set<Activity>, activities: set<Activity>, h: Horizon, known: set<string>,
                                              ps: seq<Placement>, missing: set<Activity>, eligible: set<Activity>)
    requires Underway(s, activities, h, ps) && missing == Selected(s, known, false)
    requires eligible == Selected(s - missing, PlacedIds(ps), true) && Candidates(eligible, h, ps) != {}
    ensures Accounts(s, ps, Flex(s, h, known, ps))
    decreases |s|, 0
  {
    hide Report, NoRepeat, Flex, Accounts, Selected, Underway, Catalog, Choose, Best;
    SelectedPart(s, s, known, false, activities, h, ps);
    SelectedPart(s, s - missing, PlacedIds(ps), true, activities, h, ps);
    PartOfCatalog(missing, activities, h);
    PartOfCatalog(eligible, activities, h);
    PartOfCatalog(s, activities, h);
    var c := Choose(eligible, h, ps);
    var rest := s - missing;
    PartOfCatalog(rest - {c.activity}, activities, h);
    FlexPlaces(s, h, known, ps, missing, eligible);
    UnderwayPlaces(s, rest - {c.activity}, activities, h, ps, c);
    SmallerSet(rest - {c.activity}, s, c.activity);
    FlexAccounts(rest - {c.activity}, activities, h, known, ps + [c]);
    var r := Flex(rest - {c.activity}, h, known, ps + [c]);
    AccountsPlaces(rest, c, ps, r);
    ReportCovers(missing, h, MissingDependency, known);
    AccountsResume(s, missing, rest, activities, h, ps, Report(missing, h, MissingDependency, known), r);
  }

  lemma {:induction false} SelectedPart(s: set<Activity>, t: set<Activity>, ids: set<string>, all: bool, activities: set<Activity>, h: Horizon, ps: seq<Placement>)
    requires Underway(s, activities, h, ps) && t <= s
    ensures Selected(t, ids, all) <= t && Catalog(activities, h) && s <= activities
  {
  }

  lemma {:induction false} FlexStopsAccounts(s: set<Activity>, activities: set<Activity>, h: Horizon, known: set<string>,
                          ps: seq<Placement>, missing: set<Activity>)
    requires Underway(s, activities, h, ps) && s != {} && missing == Selected(s, known, false)
    requires Selected(s - missing, PlacedIds(ps), true) == {}
    ensures Accounts(s, ps, Flex(s, h, known, ps))
  {
    hide Report, Selected, Flex, Underway, Catalog;
    SelectedPart(s, s, known, false, activities, h, ps);
    PartOfCatalog(missing, activities, h);
    PartOfCatalog(s - missing, activities, h);
    FlexStops(s, h, known, ps, missing);
    ReportTwo(missing, s - missing, activities, h, MissingDependency, known, DependencyUnscheduled, PlacedIds(ps));
    assert missing + (s - missing) == s;
    AccountsResume(s, s, {}, activities, h, ps,
                   Report(missing, h, MissingDependency, known)
                   + Report(s - missing, h, DependencyUnscheduled, PlacedIds(ps)), FlexResult(ps, []));
    FlexOfNone(h, known, ps);
  }

  lemma {:induction false} FlexGivesUpAccounts(s: set<Activity>, activities: set<Activity>, h: Horizon, known: set<string>,
                                               ps: seq<Placement>, missing: set<Activity>, eligible: set<Activity>)
    requires Underway(s, activities, h, ps) && missing == Selected(s, known, false)
    requires eligible == Selected(s - missing, PlacedIds(ps), true)
    requires eligible != {} && Candidates(eligible, h, ps) == {}
    ensures Accounts(s, ps, Flex(s, h, known, ps))
    decreases |s|, 0
  {
    hide Report, NoRepeat, Flex, Accounts, Selected, Underway, Catalog;
    var a :| a in eligible;
    var rest := s - missing - eligible;
    assert rest == s - (missing + eligible);
    SelectedPart(s, s, known, false, activities, h, ps);
    SelectedPart(s, s - missing, PlacedIds(ps), true, activities, h, ps);
    PartOfCatalog(missing, activities, h);
    PartOfCatalog(eligible, activities, h);
    PartOfCatalog(rest, activities, h);
    FlexGivesUp(s, h, known, ps, missing, eligible);
    UnderwayShrinks(s, rest, activities, h, ps);
    SmallerSet(rest, s, a);
    FlexAccounts(rest, activities, h, known, ps);
    ReportTwo(missing, eligible, activities, h, MissingDependency, known, NoCapacity, {});
    AccountsResume(s, missing + eligible, rest, activities, h, ps,
                   Report(missing, h, MissingDependency, known) + Report(eligible, h, NoCapacity, {}),
                   Flex(rest, h, known, ps));
  }

  /** The texts listed are those of `s`, ascending and without repetition. */
  ghost predicate Lists(texts: seq<string>, s: set<string>)
  {
    && (forall x :: x in texts <==> x in s)
    && (forall i, j :: 0 <= i < j < |texts| ==> TextBefore(texts[i], texts[j]))
  }

  lemma {:induction false} BlockingLists(a: Activity, reason: Reason, known: set<string>)
    ensures !reason.NoCapacity? ==> Lists(Blocking(a, reason, known), Elements(a.dependencies) - known)
    ensures reason.NoCapacity? ==> Blocking(a, reason, known) == []
  {
    TextKeyInjective(Elements(a.dependencies) - known);
    var texts := SortedOf(TextKey, Elements(a.dependencies) - known);
    forall x
      ensures x in texts <==> x in Elements(a.dependencies) - known
    {
      assert x in texts <==> x in Elements(texts);
    }
    assert forall i, j :: 0 <= i < j < |texts| ==> Before(TextKey(texts[i]), TextKey(texts[j]));
  }

  /** Why an activity is left out, judged against the final reservations, and the dependencies
      named as blocking it. */
  ghost predicate Justified(a: Activity, reason: Reason, blocking: seq<string>, h: Horizon, known: set<string>, ps: seq<Placement>)
    requires Searchable(a, h)
  {
    match reason
    case MissingDependency => !DependsOnlyOn(a, known) && Lists(blocking, Elements(a.dependencies) - known)
    case DependencyUnscheduled =>
      DependsOnlyOn(a, known) && !DependenciesPlaced(a, ps) && Lists(blocking, Elements(a.dependencies) - PlacedIds(ps))
    case NoCapacity => DependenciesPlaced(a, ps) && (forall t :: !Feasible(a, h, ps, t)) && blocking == []
    case FixedConflict => false
  }

  lemma {:induction false} CandidateMember(s: set<Activity>, h: Horizon, ps: seq<Placement>, a: Activity)
    requires Catalog(s, h) && a in s
    ensures Best(a, h, ps).Some? ==> Best(a, h, ps).value in Candidates(s, h, ps)
  {
  }

  /** More reservations never open a slot that was closed. */
  lemma {:induction false} FeasibleShrinks(a: Activity, h: Horizon, ps: seq<Placement>, qs: seq<Placement>, t: Instant)
    requires Searchable(a, h) && ps <= qs && DependenciesPlaced(a, ps) && Feasible(a, h, qs, t)
    ensures Feasible(a, h, ps, t)
  {
    assert forall p :: p in ps ==> p in qs;
  }

  lemma {:induction false} NoRoomStays(eligible: set<Activity>, h: Horizon, known: set<string>, ps: seq<Placement>, qs: seq<Placement>, a: Activity)
    requires Catalog(eligible, h) && a in eligible && DependsOnlyOn(a, PlacedIds(ps))
    requires Candidates(eligible, h, ps) == {} && ps <= qs
    ensures Justified(a, NoCapacity, [], h, known, qs)
  {
    CandidateMember(eligible, h, ps, a);
    PlacedIdsPrefix(ps, qs);
    DependsOnPlaced(a, ps);
    forall t
      ensures !Feasible(a, h, qs, t)
    {
      if Feasible(a, h, qs, t) {
        FeasibleShrinks(a, h, ps, qs, t);
      }
    }
  }

  /** Finds the activity behind a report and shows that its reason holds at the end. */
  lemma {:induction false} FlexExplains(s: set<Activity>, activities: set<Activity>, h: Horizon, known: set<string>,
                                        ps: seq<Placement>, u: Unscheduled) returns (a: Activity)
    requires Underway(s, activities, h, ps) && u in Flex(s, h, known, ps).unscheduled
    ensures a in s && a.id == u.activityId && Justified(a, u.reason, u.blocking, h, known, Flex(s, h, known, ps).placements)
    decreases |s|
  {
    var missing := Selected(s, known, false);
    var eligible := Selected(s - missing, PlacedIds(ps), true);
    hide Report, Flex, Selected, Underway, Catalog, Justified, Blocking;
    SelectedPart(s, s, known, false, activities, h, ps);
    SelectedPart(s, s - missing, PlacedIds(ps), true, activities, h, ps);
    PartOfCatalog(missing, activities, h);
    PartOfCatalog(eligible, activities, h);
    PartOfCatalog(s, activities, h);
    FlexOfNone(h, known, ps);
    if u in Report(missing, h, MissingDependency, known) {
      a := ReportMember(missing, h, MissingDependency, known, u);
      MissingIsJustified(s, h, known, ps, a);
    } else if Candidates(eligible, h, ps) != {} {
      a := FlexPlacesExplains(s, activities, h, known, ps, u, missing, eligible);
    } else if eligible != {} {
      a := FlexGivesUpExplains(s, activities, h, known, ps, u, missing, eligible);
    } else {
      a := FlexStopsExplains(s, activities, h, known, ps, u, missing);
    }
  }

  lemma {:induction false} FlexStopsExplains(s: set<Activity>, activities: set<Activity>, h: Horizon, known: set<string>,
                                             ps: seq<Placement>, u: Unscheduled, missing: set<Activity>) returns (a: Activity)
    requires Catalog(s, h) && Catalog(missing, h)
    requires Underway(s, activities, h, ps) && s != {} && missing == Selected(s, known, false)
    requires Selected(s - missing, PlacedIds(ps), true) == {} && u in Flex(s, h, known, ps).unscheduled
    requires u !in Report(missing, h, MissingDependency, known)
    ensures a in s && a.id == u.activityId && Justified(a, u.reason, u.blocking, h, known, Flex(s, h, known, ps).placements)
  {
    hide Report, Flex, Underway, Blocking, Selected, Justified;
    SelectedPart(s, s, known, false, activities, h, ps);
    PartOfCatalog(missing, activities, h);
    PartOfCatalog(s - missing, activities, h);
    PartOfCatalog(s, activities, h);
    FlexStops(s, h, known, ps, missing);
    FlexOfNone(h, known, ps);
    a := ReportMember(s - missing, h, DependencyUnscheduled, PlacedIds(ps), u);
    KnownOnly(s, known, missing, a);
    NotSelectedIsJustified(s - missing, h, known, ps, a);
  }

  lemma {:induction false} KnownOnly(s: set<Activity>, known: set<string>, missing: set<Activity>, a: Activity)
    requires missing == Selected(s, known, false) && a in s - missing
    ensures DependsOnlyOn(a, known)
  {
  }

  lemma {:induction false} NotSelectedIsJustified(rest: set<Activity>, h: Horizon, known: set<string>, ps: seq<Placement>, a: Activity)
    requires Selected(rest, PlacedIds(ps), true) == {} && a in rest && Searchable(a, h) && DependsOnlyOn(a, known)
    ensures Justified(a, DependencyUnscheduled, Blocking(a, DependencyUnscheduled, PlacedIds(ps)), h, known, ps)
  {
    hide Blocking, Lists;
    BlockingLists(a, DependencyUnscheduled, PlacedIds(ps));
    assert a !in Selected(rest, PlacedIds(ps), true);
    DependsOnPlaced(a, ps);
  }

  lemma {:induction false} MissingIsJustified(s: set<Activity>, h: Horizon, known: set<string>, ps: seq<Placement>, a: Activity)
    requires Catalog(s, h) && a in Selected(s, known, false)
    ensures Justified(a, MissingDependency, Blocking(a, MissingDependency, known), h, known, Flex(s, h, known, ps).placements)
  {
    hide Flex, Blocking, Lists;
    BlockingLists(a, MissingDependency, known);
  }

  lemma {:induction false} FlexPlacesExplains(s: set<Activity>, activities: set<Activity>, h: Horizon, known: set<string>,
                                              ps: seq<Placement>, u: Unscheduled, missing: set<Activity>, eligible: set<Activity>)
    returns (a: Activity)
    requires Catalog(s, h) && Catalog(missing, h) && Catalog(eligible, h)
    requires Underway(s, activities, h, ps) && missing == Selected(s, known, false)
    requires eligible == Selected(s - missing, PlacedIds(ps), true) && Candidates(eligible, h, ps) != {}
    requires u in Flex(s, h, known, ps).unscheduled && u !in Report(missing, h, MissingDependency, known)
    ensures a in s && a.id == u.activityId && Justified(a, u.reason, u.blocking, h, known, Flex(s, h, known, ps).placements)
    decreases |s|, 0
  {
    hide Report, Flex, Selected, Underway, Catalog, Choose, Best, Justified;
    SelectedPart(s, s, known, false, activities, h, ps);
    SelectedPart(s, s - missing, PlacedIds(ps), true, activities, h, ps);
    PartOfCatalog(eligible, activities, h);
    PartOfCatalog(missing, activities, h);
    PartOfCatalog(s, activities, h);
    var c := Choose(eligible, h, ps);
    var rest := s - missing - {c.activity};
    PartOfCatalog(rest, activities, h);
    FlexPlaces(s, h, known, ps, missing, eligible);
    UnderwayPlaces(s, rest, activities, h, ps, c);
    SmallerSet(rest, s, c.activity);
    a := FlexExplains(rest, activities, h, known, ps + [c], u);
  }

  lemma {:induction false} FlexGivesUpExplains(s: set<Activity>, activities: set<Activity>, h: Horizon, known: set<string>,
                                               ps: seq<Placement>, u: Unscheduled, missing: set<Activity>, eligible: set<Activity>)
    returns (a: Activity)
    requires Catalog(s, h) && Catalog(missing, h) && Catalog(eligible, h)
    requires Underway(s, activities, h, ps) && missing == Selected(s, known, false)
    requires eligible == Selected(s - missing, PlacedIds(ps), true) && Candidates(eligible, h, ps) == {} && eligible != {}
    requires u in Flex(s, h, known, ps).unscheduled && u !in Report(missing, h, MissingDependency, known)
    ensures a in s && a.id == u.activityId && Justified(a, u.reason, u.blocking, h, known, Flex(s, h, known, ps).placements)
    decreases |s|, 0
  {
    hide Report, Flex, Underway, Catalog, Blocking, Sound, DependsOnlyOn, Justified;
    var rest := s - missing - eligible;
    SelectedPart(s, s, known, false, activities, h, ps);
    SelectedPart(s, s - missing, PlacedIds(ps), true, activities, h, ps);
    PartOfCatalog(eligible, activities, h);
    PartOfCatalog(missing, activities, h);
    PartOfCatalog(s, activities, h);
    PartOfCatalog(rest, activities, h);
    FlexGivesUp(s, h, known, ps, missing, eligible);
    UnderwayShrinks(s, rest, activities, h, ps);
    if u in Report(eligible, h, NoCapacity, {}) {
      a := ReportMember(eligible, h, NoCapacity, {}, u);
      BlockingLists(a, NoCapacity, {});
      FlexSound(rest, activities, h, known, ps);
      NoRoomStays(eligible, h, known, ps, Flex(rest, h, known, ps).placements, a);
    } else {
      var e :| e in eligible;
      SmallerSet(rest, s, e);
      a := FlexExplains(rest, activities, h, known, ps, u);
    }
  }

  // ------------------------------------------------------------ main theorems

  lemma {:induction false} StartsUnderway(activities: set<Activity>, h: Horizon)
    requires Catalog(activities, h) && FixedConflicts(activities, h) == {}
    ensures Underway(FlexibleOf(activities), activities, h, FixedSequence(activities, h))
  {
    FixedSequenceSound(activities, h);
    FixedSequenceCovers(activities, h);
    DisjointIds(FlexibleOf(activities), FixedOf(activities), activities, h);
  }

  /** Every plan that is not refused: reservations apart and inside the window, time bounds
      kept, and every dependency, of flexible and fixed activities alike, placed and over
      before its dependent starts. */
  lemma {:induction false} PlanIsSound(activities: set<Activity>, h: Horizon)
    requires Catalog(activities, h) && Schedule(activities, h).Planned?
    ensures Sound(Schedule(activities, h).placements, activities, h)
    ensures forall p :: p in Schedule(activities, h).placements ==> AllMet(p, Schedule(activities, h).placements)
  {
    StartsUnderway(activities, h);
    FlexSound(FlexibleOf(activities), activities, h, IdsOf(activities), FixedSequence(activities, h));
    var ps := Schedule(activities, h).placements;
    forall p | p in ps
      ensures AllMet(p, ps)
    {
      assert p.activity.id !in InvalidDependencies(ps);
    }
  }

  /** Every activity is placed once or reported once, never both. */
  lemma {:induction false} PlanPartitions(activities: set<Activity>, h: Horizon)
    requires Catalog(activities, h) && Schedule(activities, h).Planned?
    ensures PlacedIds(Schedule(activities, h).placements) + ReportedIds(Schedule(activities, h).unscheduled) == IdsOf(activities)
    ensures PlacedIds(Schedule(activities, h).placements) !! ReportedIds(Schedule(activities, h).unscheduled)
    ensures NoRepeat(Schedule(activities, h).unscheduled)
  {
    PlannedIsPlaced(activities, h);
    hide Schedule, Flex, Catalog, Underway, FixedSequence, FixedConflicts, PlacedIds, ReportedIds, NoRepeat;
    StartsUnderway(activities, h);
    FlexAccounts(FlexibleOf(activities), activities, h, IdsOf(activities), FixedSequence(activities, h));
    FixedSequenceCovers(activities, h);
    IdsSplit(activities);
  }

  lemma {:induction false} PlannedIsPlaced(activities: set<Activity>, h: Horizon)
    requires Catalog(activities, h) && Schedule(activities, h).Planned?
    ensures FixedConflicts(activities, h) == {}
    ensures Schedule(activities, h) == Planned(Placed(activities, h).placements, Placed(activities, h).unscheduled)
  {
  }

  lemma {:induction false} IdsSplit(activities: set<Activity>)
    ensures IdsOf(activities) == IdsOf(FixedOf(activities)) + IdsOf(FlexibleOf(activities))
  {
    assert activities == FlexibleOf(activities) + FixedOf(activities);
  }

  /** Nothing left out could still be placed: it is flexible and has a dependency that is
      not in the plan, or no minute fits beside the final reservations. The stated reason
      says which. */
  lemma {:induction false} PlanIsMaximal(activities: set<Activity>, h: Horizon, u: Unscheduled)
    requires Catalog(activities, h) && Schedule(activities, h).Planned? && u in Schedule(activities, h).unscheduled
    ensures exists a :: a in FlexibleOf(activities) && a.id == u.activityId
                     && Justified(a, u.reason, u.blocking, h, IdsOf(activities), Schedule(activities, h).placements)
                     && (u.reason.NoCapacity? || !DependenciesPlaced(a, Schedule(activities, h).placements))
  {
    StartsUnderway(activities, h);
    var ps := Schedule(activities, h).placements;
    var a := FlexExplains(FlexibleOf(activities), activities, h, IdsOf(activities), FixedSequence(activities, h), u);
    PlanPartitions(activities, h);
    if u.reason.MissingDependency? {
      DependsOnPlaced(a, ps);
      assert PlacedIds(ps) <= IdsOf(activities);
    }
  }

  /** A fixed activity's dependency that no flexible placement can repair. */
  ghost predicate Irreparable(d: string, p: Placement, activities: set<Activity>, h: Horizon, ps: seq<Placement>)
    requires Catalog(activities, h)
  {
    d !in PlacedIds(ps) ||
    exists b :: b in FixedOf(activities) && b.id == d && FixedPlacement(b, h).endsAt > p.startsAt
  }

  lemma {:induction false} UnmetMeansIrreparable(d: string, p: Placement, activities: set<Activity>, h: Horizon, ps: seq<Placement>)
    requires Catalog(activities, h) && Sound(ps, activities, h) && p in ps && d in p.activity.dependencies
    ensures !Met(d, p, ps) <==> Irreparable(d, p, activities, h, ps)
  {
    if d in PlacedIds(ps) {
      var q :| q in ps && q.activity.id == d;
      assert Met(d, p, ps) <==> q.endsAt <= p.startsAt by {
        forall r | r in ps && r.activity.id == d
          ensures r == q
        {
          var i :| 0 <= i < |ps| && ps[i] == r;
          var j :| 0 <= j < |ps| && ps[j] == q;
        }
      }
      if IsFixed(q.activity) {
        assert q == FixedPlacement(q.activity, h);
      }
    }
  }

  /** The second refusal names exactly the fixed activities with a dependency that is not in
      the plan or is itself fixed too late: never a flexible activity, and never because of
      where a flexible prerequisite was put. */
  lemma {:induction false} BrokenIsExact(activities: set<Activity>, h: Horizon, id: string)
    requires Catalog(activities, h) && FixedConflicts(activities, h) == {}
    ensures var ps := Placed(activities, h).placements;
            id in InvalidDependencies(ps) <==>
            exists a :: a in FixedOf(activities) && a.id == id &&
                        exists d :: d in a.dependencies && Irreparable(d, FixedPlacement(a, h), activities, h, ps)
  {
    var ps := Placed(activities, h).placements;
    PlacedIsSound(activities, h);
    hide Flex, FixedConflicts, Irreparable;
    if id in InvalidDependencies(ps) {
      var a, d := BrokenMeans(activities, h, ps, id);
    }
    if a, d :| a in FixedOf(activities) && a.id == id && d in a.dependencies &&
               Irreparable(d, FixedPlacement(a, h), activities, h, ps) {
      IrreparableBreaks(activities, h, ps, a, d);
    }
  }

  lemma {:induction false} PlacedIsSound(activities: set<Activity>, h: Horizon)
    requires Catalog(activities, h) && FixedConflicts(activities, h) == {}
    ensures Sound(Placed(activities, h).placements, activities, h)
    ensures FixedSequence(activities, h) <= Placed(activities, h).placements
  {
    hide Flex, Sound, Underway, FixedSequence, FixedConflicts;
    StartsUnderway(activities, h);
    FlexSound(FlexibleOf(activities), activities, h, IdsOf(activities), FixedSequence(activities, h));
  }

  lemma {:induction false} BrokenMeans(activities: set<Activity>, h: Horizon, ps: seq<Placement>, id: string) returns (a: Activity, d: string)
    requires Catalog(activities, h) && Sound(ps, activities, h) && id in InvalidDependencies(ps)
    ensures a in FixedOf(activities) && a.id == id && d in a.dependencies && Irreparable(d, FixedPlacement(a, h), activities, h, ps)
  {
    var p :| p in ps && !AllMet(p, ps) && p.activity.id == id;
    d :| d in p.activity.dependencies && !Met(d, p, ps);
    hide Irreparable;
    UnmetMeansIrreparable(d, p, activities, h, ps);
    assert WellPlaced(p, activities, h);
    a := p.activity;
  }

  lemma {:induction false} IrreparableBreaks(activities: set<Activity>, h: Horizon, ps: seq<Placement>, a: Activity, d: string)
    requires Catalog(activities, h) && Sound(ps, activities, h) && FixedSequence(activities, h) <= ps
    requires a in FixedOf(activities) && d in a.dependencies && Irreparable(d, FixedPlacement(a, h), activities, h, ps)
    ensures a.id in InvalidDependencies(ps)
  {
    hide Irreparable, FixedSequence;
    FixedSequenceCovers(activities, h);
    PlacedIdsPrefix(FixedSequence(activities, h), ps);
    assert a.id in IdsOf(FixedOf(activities));
    var p :| p in ps && p.activity.id == a.id;
    assert WellPlaced(p, activities, h);
    UnmetMeansIrreparable(d, p, activities, h, ps);
  }
}
