/** Reservations, the search for the best free minute, and the fixed reservations. */
module PlannerPlacement {
  import opened Options
  import opened Ordering
  import opened PlannerModel
  import opened PlannerScoring

  /** One activity at an instant; the reservation adds its travel on both sides. */
  datatype Placement = Placement(activity: Activity, startsAt: Instant, endsAt: Instant, score: Score) {
    function ReservationStart(): Instant { startsAt - activity.travelBefore }
    function ReservationEnd(): Instant { endsAt + activity.travelAfter }
  }

  function ActivityKey(a: Activity): Key { Key(0, 0, a.id) }

  function TextKey(text: string): Key { Key(0, 0, text) }

  ghost function PlacedIds(ps: seq<Placement>): set<string>
  {
    set p | p in ps :: p.activity.id
  }

  predicate Overlaps(left: Placement, right: Placement)
  {
    left.ReservationStart() < right.ReservationEnd() && right.ReservationStart() < left.ReservationEnd()
  }

  function HardDeadline(a: Activity, h: Horizon): Option<Instant>
  {
    if a.deadline.None? then None
    else if a.recoverMissedDeadline && a.deadline.value < h.start then None
    else a.deadline
  }

  predicate SatisfiesTimeBounds(p: Placement, h: Horizon)
  {
    var deadline := HardDeadline(p.activity, h);
    && (p.activity.earliestStart.None? || p.startsAt >= p.activity.earliestStart.value)
    && (p.activity.latestEnd.None? || p.endsAt <= p.activity.latestEnd.value)
    && (deadline.None? || p.endsAt <= deadline.value)
  }

  predicate InWindow(p: Placement, h: Horizon)
  {
    h.start <= p.ReservationStart() && p.ReservationEnd() <= h.end
  }

  function Candidate(a: Activity, h: Horizon, s: Instant): Placement
    requires a.id in h.dependents
  {
    Placement(a, s, s + a.duration, ScoreActivity(a, h, s, h.dependents[a.id]))
  }

  // ---------------------------------------------------------------- slot search

  ghost predicate DependenciesPlaced(a: Activity, ps: seq<Placement>)
  {
    Elements(a.dependencies) <= PlacedIds(ps)
  }

  /** The placed dependencies have ended. */
  ghost predicate AfterPredecessors(a: Activity, ps: seq<Placement>, s: Instant)
  {
    forall p :: p in ps && p.activity.id in a.dependencies ==> p.endsAt <= s
  }

  /** The placed dependents have not started before the activity ends. */
  ghost predicate BeforeSuccessors(a: Activity, ps: seq<Placement>, s: Instant)
  {
    forall p :: p in ps && a.id in p.activity.dependencies ==> s + a.duration <= p.startsAt
  }

  /** Every hard constraint except the collision with other reservations. */
  ghost predicate Admissible(a: Activity, h: Horizon, ps: seq<Placement>, s: Instant)
    requires a.id in h.dependents
  {
    && InWindow(Candidate(a, h, s), h)
    && SatisfiesTimeBounds(Candidate(a, h, s), h)
    && DependenciesPlaced(a, ps)
    && AfterPredecessors(a, ps, s) && BeforeSuccessors(a, ps, s)
  }

  ghost predicate Collides(a: Activity, h: Horizon, ps: seq<Placement>, s: Instant)
    requires a.id in h.dependents
  {
    exists p :: p in ps && Overlaps(Candidate(a, h, s), p)
  }

  /** The activity may start at `s` beside the reservations `ps`. */
  ghost predicate Feasible(a: Activity, h: Horizon, ps: seq<Placement>, s: Instant)
    requires a.id in h.dependents
  {
    Admissible(a, h, ps, s) && !Collides(a, h, ps, s)
  }

  function Total(a: Activity, h: Horizon, s: Instant): int
    requires a.id in h.dependents
  {
    Candidate(a, h, s).score.total
  }

  /** `s` is feasible, nothing feasible scores higher, and nothing earlier scores as high. */
  ghost predicate IsBestStart(a: Activity, h: Horizon, ps: seq<Placement>, s: Instant)
    requires a.id in h.dependents
  {
    && Feasible(a, h, ps, s)
    && (forall t :: Feasible(a, h, ps, t) ==> Total(a, h, t) <= Total(a, h, s))
    && (forall t :: Feasible(a, h, ps, t) && t < s ==> Total(a, h, t) < Total(a, h, s))
  }

  ghost predicate IsBest(a: Activity, h: Horizon, ps: seq<Placement>, best: Option<Placement>)
    requires a.id in h.dependents
  {
    match best
    case None => forall s :: !Feasible(a, h, ps, s)
    case Some(p) => IsBestStart(a, h, ps, p.startsAt) && p == Candidate(a, h, p.startsAt)
  }

  lemma {:induction false} BestIsUnique(a: Activity, h: Horizon, ps: seq<Placement>, b: Option<Placement>, c: Option<Placement>)
    requires a.id in h.dependents && IsBest(a, h, ps, b) && IsBest(a, h, ps, c)
    ensures b == c
  {
    if b.Some? && c.Some? {
      assert b.value.startsAt == c.value.startsAt;
    }
  }

  /** The best start among those in `[lo, hi)`, if any. */
  ghost predicate BestWithin(a: Activity, h: Horizon, ps: seq<Placement>, lo: Instant, hi: Instant, best: Option<Placement>)
    requires a.id in h.dependents
  {
    match best
    case None => forall s :: lo <= s < hi ==> !Feasible(a, h, ps, s)
    case Some(p) =>
      && lo <= p.startsAt < hi && Feasible(a, h, ps, p.startsAt) && p == Candidate(a, h, p.startsAt)
      && (forall t :: lo <= t < hi && Feasible(a, h, ps, t) ==> Total(a, h, t) <= Total(a, h, p.startsAt))
      && (forall t :: lo <= t < p.startsAt && Feasible(a, h, ps, t) ==> Total(a, h, t) < Total(a, h, p.startsAt))
  }

  /** One more minute examined keeps the best of those examined. */
  lemma {:induction false} BestWithinStep(a: Activity, h: Horizon, ps: seq<Placement>, lo: Instant, hi: Instant,
                       best: Option<Placement>, next: Option<Placement>)
    requires a.id in h.dependents && lo <= hi && BestWithin(a, h, ps, lo, hi, best)
    requires next == if Feasible(a, h, ps, hi) && (best.None? || Total(a, h, hi) > best.value.score.total)
                     then Some(Candidate(a, h, hi)) else best
    ensures BestWithin(a, h, ps, lo, hi + 1, next)
  {
  }

  /** Intersects the start bounds; the loops raise `lower` and reduce `upper`. */
  lemma {:induction false} OneMorePlaced(a: Activity, ps: seq<Placement>, i: nat, s: Instant)
    requires i < |ps|
    ensures AfterPredecessors(a, ps[..i + 1], s) <==>
            AfterPredecessors(a, ps[..i], s) && (ps[i].activity.id in a.dependencies ==> ps[i].endsAt <= s)
    ensures BeforeSuccessors(a, ps[..i + 1], s) <==>
            BeforeSuccessors(a, ps[..i], s) && (a.id in ps[i].activity.dependencies ==> s + a.duration <= ps[i].startsAt)
  {
    assert ps[..i + 1] == ps[..i] + [ps[i]];
  }

  /** Raises a lower bound to the end of every placed predecessor. */
  method RaiseToPredecessors(a: Activity, ps: seq<Placement>, base: Instant) returns (lower: Instant)
    ensures forall s :: AfterPredecessors(a, ps, s) && base <= s <==> lower <= s
  {
    hide AfterPredecessors, BeforeSuccessors;
    lower := base;
    NoPlacements(a);
    for i := 0 to |ps|
      invariant forall s :: AfterPredecessors(a, ps[..i], s) && base <= s <==> lower <= s
    {
      ghost var before := lower;
      if ps[i].activity.id in a.dependencies {
        lower := Max(lower, ps[i].endsAt);
      }
      ghost var more := ps[..i + 1];
      forall s
        ensures AfterPredecessors(a, more, s) && base <= s <==> lower <= s
      {
        OneMorePlaced(a, ps, i, s);
        assert AfterPredecessors(a, ps[..i], s) && base <= s <==> before <= s;
      }
    }
    assert ps[..|ps|] == ps;
  }

  lemma {:induction false} NoPlacements(a: Activity)
    ensures forall s :: AfterPredecessors(a, [], s) && BeforeSuccessors(a, [], s)
  {
  }

  /** Lowers an upper bound so that every placed successor can still start in time. */
  method LowerToSuccessors(a: Activity, ps: seq<Placement>, top: Instant) returns (upper: Instant)
    ensures forall s :: BeforeSuccessors(a, ps, s) && s <= top <==> s <= upper
  {
    hide AfterPredecessors, BeforeSuccessors;
    upper := top;
    NoPlacements(a);
    for i := 0 to |ps|
      invariant forall s :: BeforeSuccessors(a, ps[..i], s) && s <= top <==> s <= upper
    {
      ghost var before := upper;
      if a.id in ps[i].activity.dependencies {
        upper := Min(upper, ps[i].startsAt - a.duration);
      }
      ghost var more := ps[..i + 1];
      forall s
        ensures BeforeSuccessors(a, more, s) && s <= top <==> s <= upper
      {
        OneMorePlaced(a, ps, i, s);
        assert BeforeSuccessors(a, ps[..i], s) && s <= top <==> s <= before;
      }
    }
    assert ps[..|ps|] == ps;
  }

  lemma {:induction false} WithinBounds(a: Activity, h: Horizon, s: Instant, base: Instant, top: Instant)
    requires a.id in h.dependents
    requires base == (var start := h.start + a.travelBefore; if a.earliestStart.Some? then Max(start, a.earliestStart.value) else start)
    requires var end := h.end - (a.duration + a.travelAfter);
             var latest := if a.latestEnd.Some? then Min(end, a.latestEnd.value - a.duration) else end;
             top == if HardDeadline(a, h).Some? then Min(latest, HardDeadline(a, h).value - a.duration) else latest
    ensures base <= s <= top <==> InWindow(Candidate(a, h, s), h) && SatisfiesTimeBounds(Candidate(a, h, s), h)
  {
  }

  method PlacementBounds(a: Activity, h: Horizon, ps: seq<Placement>) returns (bounds: Option<(Instant, Instant)>)
    requires a.id in h.dependents
    ensures bounds.None? <==> !DependenciesPlaced(a, ps)
    ensures bounds.Some? ==> forall s :: bounds.value.0 <= s <= bounds.value.1 <==> Admissible(a, h, ps, s)
  {
    var lower := h.start + a.travelBefore;
    if a.earliestStart.Some? {
      lower := Max(lower, a.earliestStart.value);
    }
    var predecessors := set p | p in ps && p.activity.id in a.dependencies :: p.activity.id;
    var wanted := set d | d in a.dependencies;
    CountsAgreeWhenPlaced(a, ps, predecessors, wanted);
    if |predecessors| != |wanted| {
      return None;
    }
    ghost var base := lower;
    lower := RaiseToPredecessors(a, ps, lower);
    var upper := h.end - (a.duration + a.travelAfter);
    if a.latestEnd.Some? {
      upper := Min(upper, a.latestEnd.value - a.duration);
    }
    var deadline := HardDeadline(a, h);
    if deadline.Some? {
      upper := Min(upper, deadline.value - a.duration);
    }
    ghost var top := upper;
    upper := LowerToSuccessors(a, ps, upper);
    hide AfterPredecessors, BeforeSuccessors, DependenciesPlaced, HardDeadline, InWindow, SatisfiesTimeBounds, Candidate;
    forall s
      ensures lower <= s <= upper <==> Admissible(a, h, ps, s)
    {
      WithinBounds(a, h, s, base, top);
      assert AfterPredecessors(a, ps, s) && base <= s <==> lower <= s;
      assert BeforeSuccessors(a, ps, s) && s <= top <==> s <= upper;
    }
    return Some((lower, upper));
  }

  /** Comparing two counts, as the search does, decides whether every dependency is placed. */
  lemma {:induction false} CountsAgreeWhenPlaced(a: Activity, ps: seq<Placement>, predecessors: set<string>, wanted: set<string>)
    requires predecessors == set p | p in ps && p.activity.id in a.dependencies :: p.activity.id
    requires wanted == set d | d in a.dependencies
    ensures |predecessors| == |wanted| <==> DependenciesPlaced(a, ps)
  {
    assert predecessors <= wanted;
    assert predecessors == wanted * PlacedIds(ps);
    assert wanted == Elements(a.dependencies);
    if !(wanted <= predecessors) {
      var d :| d in wanted && d !in predecessors;
      assert d in wanted - predecessors;
      assert |wanted| == |predecessors| + |wanted - predecessors|;
    } else {
      assert predecessors == wanted;
    }
  }

  predicate Clear(c: Placement, ps: seq<Placement>)
  {
    forall i :: 0 <= i < |ps| ==> !Overlaps(c, ps[i])
  }

  /** Scans every admissible minute: complete, and the earliest among the highest scores. */
  method BestPlacement(a: Activity, h: Horizon, ps: seq<Placement>) returns (best: Option<Placement>)
    requires a.id in h.dependents
    ensures IsBest(a, h, ps, best)
  {
    var bounds := PlacementBounds(a, h, ps);
    if bounds.None? {
      return None;
    }
    var (lower, upper) := bounds.value;
    best := None;
    var s := lower;
    while s <= upper
      invariant lower <= s && (s <= upper + 1 || s == lower)
      invariant BestWithin(a, h, ps, lower, s, best)
      decreases upper - s
    {
      var candidate := Candidate(a, h, s);
      assert Clear(candidate, ps) <==> !Collides(a, h, ps, s);
      ghost var seen := best;
      if Clear(candidate, ps) && (best.None? || candidate.score.total > best.value.score.total) {
        best := Some(candidate);
      }
      BestWithinStep(a, h, ps, lower, s, seen, best);
      s := s + 1;
    }
    assert forall t :: Feasible(a, h, ps, t) ==> lower <= t < s;
  }

  /** Every feasible start lies in the window, so a best one exists when any does. */
  lemma {:induction false} BestExists(a: Activity, h: Horizon, ps: seq<Placement>) returns (best: Option<Placement>)
    requires a.id in h.dependents && 0 <= a.travelBefore && 0 <= a.travelAfter && 0 <= a.duration
    ensures IsBest(a, h, ps, best)
  {
    best := None;
    var s := h.start;
    while s <= h.end
      invariant h.start <= s && (s <= h.end + 1 || s == h.start)
      invariant BestWithin(a, h, ps, h.start, s, best)
      decreases h.end - s
    {
      var seen := best;
      if Feasible(a, h, ps, s) && (best.None? || Total(a, h, s) > best.value.score.total) {
        best := Some(Candidate(a, h, s));
      }
      BestWithinStep(a, h, ps, h.start, s, seen, best);
      s := s + 1;
    }
    assert forall t :: Feasible(a, h, ps, t) ==> h.start <= t < s;
  }

  ghost predicate Searchable(a: Activity, h: Horizon)
  {
    a.id in h.dependents && 0 <= a.travelBefore && 0 <= a.travelAfter && 0 <= a.duration
  }

  lemma {:induction false} SomeBest(a: Activity, h: Horizon, ps: seq<Placement>)
    requires Searchable(a, h)
    ensures exists best :: IsBest(a, h, ps, best)
  {
    var best := BestExists(a, h, ps);
  }

  /** The outcome of the slot search, as a function of the reservations. */
  ghost function Best(a: Activity, h: Horizon, ps: seq<Placement>): (best: Option<Placement>)
    requires Searchable(a, h)
    ensures IsBest(a, h, ps, best)
  {
    SomeBest(a, h, ps);
    var best :| IsBest(a, h, ps, best);
    best
  }
}
