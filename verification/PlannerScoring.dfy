/** Priority and placement scoring. */
module PlannerScoring {
  import opened Options
  import opened PlannerModel

  datatype Score = Score(
    deadline: int, dependency: int, travel: int, energy: int, goal: int, importance: int, total: int)

  function Min(a: int, b: int): int { if a <= b then a else b }
  function Max(a: int, b: int): int { if a >= b then a else b }
  function Distance(a: int, b: int): nat { if a <= b then b - a else a - b }

  function DeadlineScore(a: Activity, h: Horizon): int
  {
    if a.deadline.None? then 0
    else
      var delta := a.deadline.value - h.start;
      if delta < 0 then 10000 + Min(-delta, 30 * 24 * 60)
      else if a.deadline.value <= h.end then 5000 - delta
      else Max(0, 1000 - delta / 60)
  }

  /** Whether the whole activity fits in the energy window when started at `s`. */
  predicate Matches(w: EnergyWindow, a: Activity, s: Instant)
  {
    w.startsAt <= s && s + a.duration <= w.endsAt
  }

  function MatchingLevels(windows: seq<EnergyWindow>, a: Activity, s: Instant): seq<int>
  {
    if windows == [] then []
    else (if Matches(windows[0], a, s) then [windows[0].level] else []) + MatchingLevels(windows[1..], a, s)
  }

  /** Python's `min(levels, key=lambda level: abs(level - required))`: the first closest level. */
  function ClosestLevel(levels: seq<int>, required: int): int
    requires levels != []
  {
    if |levels| == 1 then levels[0]
    else
      var later := ClosestLevel(levels[1..], required);
      if Distance(later, required) < Distance(levels[0], required) then later else levels[0]
  }

  function EnergyScore(a: Activity, h: Horizon, s: Instant): int
  {
    var levels := MatchingLevels(h.energyWindows, a, s);
    if levels == [] then 0
    else Max(0, 300 - 100 * Distance(ClosestLevel(levels, a.energyRequired), a.energyRequired))
  }

  function ScoreActivity(a: Activity, h: Horizon, s: Instant, dependents: nat): Score
  {
    var deadline := DeadlineScore(a, h);
    var dependency := dependents * 400;
    var travel := -5 * (a.travelBefore + a.travelAfter);
    var energy := EnergyScore(a, h, s);
    var goal := a.goalWeight * 100;
    var importance := a.importance * 100;
    Score(deadline, dependency, travel, energy, goal, importance,
          deadline + dependency + travel + energy + goal + importance)
  }

  function WindowScore(w: EnergyWindow, a: Activity): int
  {
    Max(0, 300 - 100 * Distance(w.level, a.energyRequired))
  }

  lemma {:induction false} MatchingLevelsMembers(windows: seq<EnergyWindow>, a: Activity, s: Instant)
    ensures forall level :: level in MatchingLevels(windows, a, s) <==>
              exists w :: w in windows && Matches(w, a, s) && w.level == level
  {
    if windows != [] {
      MatchingLevelsMembers(windows[1..], a, s);
      assert windows == [windows[0]] + windows[1..];
    }
  }

  lemma {:induction false} ClosestLevelIsClosest(levels: seq<int>, required: int)
    requires levels != []
    ensures ClosestLevel(levels, required) in levels
    ensures forall level :: level in levels ==>
              Distance(ClosestLevel(levels, required), required) <= Distance(level, required)
  {
    if |levels| > 1 {
      ClosestLevelIsClosest(levels[1..], required);
      assert levels == [levels[0]] + levels[1..];
    }
  }

  /** In the windows' fields: a window counts when it holds the whole activity, for 300 less 100
      for each level its energy is off; the component is the best of these, and never negative. */
  lemma {:induction false} EnergyScoreExactly(a: Activity, h: Horizon, s: Instant)
    ensures EnergyScore(a, h, s) >= 0
    ensures forall w :: w in h.energyWindows && w.startsAt <= s && s + a.duration <= w.endsAt ==>
              && (a.energyRequired <= w.level ==> 300 - 100 * (w.level - a.energyRequired) <= EnergyScore(a, h, s))
              && (w.level <= a.energyRequired ==> 300 - 100 * (a.energyRequired - w.level) <= EnergyScore(a, h, s))
    ensures EnergyScore(a, h, s) > 0 ==>
              exists w :: w in h.energyWindows && w.startsAt <= s && s + a.duration <= w.endsAt &&
                (|| (a.energyRequired <= w.level && EnergyScore(a, h, s) == 300 - 100 * (w.level - a.energyRequired))
                 || (w.level <= a.energyRequired && EnergyScore(a, h, s) == 300 - 100 * (a.energyRequired - w.level)))
  {
    EnergyScoreIsBestWindow(a, h, s);
  }

  /** The energy component is the best any single matching window offers: no window offers
      more, and a positive component is offered by some window. So listing the windows in
      another order, or twice, changes nothing. */
  lemma {:induction false} EnergyScoreIsBestWindow(a: Activity, h: Horizon, s: Instant)
    ensures forall w :: w in h.energyWindows && Matches(w, a, s) ==> WindowScore(w, a) <= EnergyScore(a, h, s)
    ensures EnergyScore(a, h, s) != 0 ==>
              exists w :: w in h.energyWindows && Matches(w, a, s) && WindowScore(w, a) == EnergyScore(a, h, s)
  {
    var levels := MatchingLevels(h.energyWindows, a, s);
    MatchingLevelsMembers(h.energyWindows, a, s);
    forall v | v in h.energyWindows && Matches(v, a, s)
      ensures v.level in levels
    {
    }
    if levels != [] {
      ClosestLevelIsClosest(levels, a.energyRequired);
      var best := ClosestLevel(levels, a.energyRequired);
      var w :| w in h.energyWindows && Matches(w, a, s) && w.level == best;
      assert WindowScore(w, a) == EnergyScore(a, h, s);
      forall v | v in h.energyWindows && Matches(v, a, s)
        ensures WindowScore(v, a) <= EnergyScore(a, h, s)
      {
        assert v.level in levels;
      }
    }
  }

  // -------------------------------------------------------- what raises the score

  /** One more dependent is worth four points of importance or of goal weight; a minute of
      travel costs a twentieth of one. Where nothing else counts the energy alone remains. */
  lemma {:induction false} ScoreDifferences(a: Activity, h: Horizon, s: Instant, n: nat)
    ensures ScoreActivity(a, h, s, n + 1).total == ScoreActivity(a, h, s, n).total + 400
    ensures ScoreActivity(a.(importance := a.importance + 1), h, s, n).total == ScoreActivity(a, h, s, n).total + 100
    ensures ScoreActivity(a.(goalWeight := a.goalWeight + 1), h, s, n).total == ScoreActivity(a, h, s, n).total + 100
    ensures ScoreActivity(a.(travelBefore := a.travelBefore + 1), h, s, n).total == ScoreActivity(a, h, s, n).total - 5
    ensures ScoreActivity(a.(travelAfter := a.travelAfter + 1), h, s, n).total == ScoreActivity(a, h, s, n).total - 5
    ensures a.deadline.None? && a.importance == a.goalWeight == a.travelBefore == a.travelAfter == 0 ==>
              ScoreActivity(a, h, s, 0).total == EnergyScore(a, h, s)
  {
    EnergyIgnores(a, a.(importance := a.importance + 1), h, s);
    EnergyIgnores(a, a.(goalWeight := a.goalWeight + 1), h, s);
    EnergyIgnores(a, a.(travelBefore := a.travelBefore + 1), h, s);
    EnergyIgnores(a, a.(travelAfter := a.travelAfter + 1), h, s);
  }

  lemma {:induction false} EnergyIgnores(a: Activity, b: Activity, h: Horizon, s: Instant)
    requires a.duration == b.duration && a.energyRequired == b.energyRequired
    ensures EnergyScore(a, h, s) == EnergyScore(b, h, s)
  {
    LevelsIgnore(h.energyWindows, a, b, s);
  }

  lemma {:induction false} LevelsIgnore(windows: seq<EnergyWindow>, a: Activity, b: Activity, s: Instant)
    requires a.duration == b.duration
    ensures MatchingLevels(windows, a, s) == MatchingLevels(windows, b, s)
  {
    if windows != [] {
      LevelsIgnore(windows[1..], a, b, s);
    }
  }

  function WithDeadline(a: Activity, d: Instant): Activity
  {
    a.(deadline := Some(d))
  }

  /** How the deadline counts: each further minute missed adds one, up to thirty days; inside the
      window each minute nearer adds one; beyond it each whole hour nearer adds one. A missed
      deadline outscores every other. */
  lemma {:induction false} DeadlineDifferences(a: Activity, h: Horizon, s: Instant, n: nat, d: Instant)
    requires h.start < h.end
    ensures h.start - 30 * 24 * 60 < d <= h.start - 1 ==>
              ScoreActivity(WithDeadline(a, d - 1), h, s, n).total == ScoreActivity(WithDeadline(a, d), h, s, n).total + 1
    ensures d <= h.start - 30 * 24 * 60 ==>
              ScoreActivity(WithDeadline(a, d - 1), h, s, n).total == ScoreActivity(WithDeadline(a, d), h, s, n).total
    ensures h.start < d <= h.end ==>
              ScoreActivity(WithDeadline(a, d - 1), h, s, n).total == ScoreActivity(WithDeadline(a, d), h, s, n).total + 1
    ensures h.end < d && d - h.start <= 60000 - 60 ==>
              ScoreActivity(WithDeadline(a, d), h, s, n).total == ScoreActivity(WithDeadline(a, d + 60), h, s, n).total + 1
    ensures h.end < d && d - h.start >= 60000 ==>
              ScoreActivity(WithDeadline(a, d), h, s, n).total == ScoreActivity(a.(deadline := None), h, s, n).total
    ensures ScoreActivity(WithDeadline(a, h.start), h, s, n).total == ScoreActivity(a.(deadline := None), h, s, n).total + 5000
    ensures ScoreActivity(WithDeadline(a, h.start - 1), h, s, n).total
            == ScoreActivity(WithDeadline(a, h.start), h, s, n).total + 5001
  {
    EnergyIgnores(a, WithDeadline(a, d), h, s);
    EnergyIgnores(a, WithDeadline(a, d - 1), h, s);
    EnergyIgnores(a, WithDeadline(a, d + 60), h, s);
    EnergyIgnores(a, WithDeadline(a, h.start), h, s);
    EnergyIgnores(a, WithDeadline(a, h.start - 1), h, s);
    EnergyIgnores(a, a.(deadline := None), h, s);
    hide EnergyScore;
  }

  /** An earlier deadline never scores less than a later one, on every pair of deadlines. */
  ghost predicate SoonerScoresMore(h: Horizon)
  {
    forall a: Activity, d, e {:trigger DeadlineScore(WithDeadline(a, d), h), DeadlineScore(WithDeadline(a, e), h)} ::
      d <= e ==> DeadlineScore(WithDeadline(a, e), h) <= DeadlineScore(WithDeadline(a, d), h)
  }

  /** That fails on long windows, where a deadline at the end of the window falls below one
      just after it: it holds exactly on windows of up to 4067 minutes. */
  lemma {:induction false} SoonerScoresMoreExactly(h: Horizon, a: Activity)
    requires h.start < h.end
    ensures SoonerScoresMore(h) <==> h.end - h.start <= 4067
  {
    if h.end - h.start > 4067 {
      assert DeadlineScore(WithDeadline(a, h.end), h) < DeadlineScore(WithDeadline(a, h.end + 1), h);
    }
  }
}
