/** Inputs of the deterministic planner and the validators that guard them.
    Instants are whole UTC minutes. */
module PlannerModel {
  import opened Options
  import opened Ordering

  type Instant = int

  datatype Flexibility = Fixed | Flexible | Protected

  datatype Activity = Activity(
    id: string,
    title: string,
    flexibility: Flexibility,
    duration: int,
    fixedStart: Option<Instant>,
    fixedEnd: Option<Instant>,
    earliestStart: Option<Instant>,
    latestEnd: Option<Instant>,
    deadline: Option<Instant>,
    recoverMissedDeadline: bool,
    dependencies: seq<string>,
    travelBefore: int,
    travelAfter: int,
    energyRequired: int,
    goalWeight: int,
    importance: int,
    displayGroup: Option<string>,
    displayTitle: Option<string>,
    guidance: seq<string>,
    calendarEligible: bool,
    personalMicroEvent: bool)

  datatype EnergyWindow = EnergyWindow(startsAt: Instant, endsAt: Instant, level: int)

  /** A block of an earlier proposal, used only to compute the difference. */
  datatype BaselineBlock = BaselineBlock(
    blockId: string, activityId: string, title: string, startsAt: Instant, endsAt: Instant)

  datatype Request = Request(
    windowStart: Instant,
    windowEnd: Instant,
    stateRevision: int,
    expectedRevision: int,
    activities: seq<Activity>,
    energyWindows: seq<EnergyWindow>,
    baseline: seq<BaselineBlock>)

  predicate NonEmptyIfSome(text: Option<string>)
  {
    text.Some? ==> text.value != ""
  }

  /** Fixed and protected activities carry their exact interval, flexible ones none. */
  predicate ValidPlacementContract(a: Activity)
  {
    if a.flexibility.Flexible? then a.fixedStart.None? && a.fixedEnd.None?
    else a.fixedStart.Some? && a.fixedEnd.Some? && a.fixedEnd.value - a.fixedStart.value == a.duration
  }

  predicate ValidActivity(a: Activity)
  {
    && a.id != "" && a.title != ""
    && 1 <= a.duration <= 1440
    && 0 <= a.travelBefore <= 1440 && 0 <= a.travelAfter <= 1440
    && 1 <= a.energyRequired <= 5
    && 0 <= a.goalWeight <= 10 && 0 <= a.importance <= 10
    && NonEmptyIfSome(a.displayGroup) && NonEmptyIfSome(a.displayTitle)
    && ValidPlacementContract(a)
    && (a.recoverMissedDeadline ==> a.deadline.Some?)
    && (a.latestEnd.Some? && a.earliestStart.Some? ==> a.latestEnd.value > a.earliestStart.value)
    && a.id !in a.dependencies
  }

  ghost predicate DistinctIds(activities: seq<Activity>)
  {
    forall i, j :: 0 <= i < j < |activities| ==> activities[i].id != activities[j].id
  }

  ghost predicate ValidRequest(r: Request)
  {
    && r.windowStart < r.windowEnd
    && r.stateRevision >= 1 && r.expectedRevision >= 1
    && (forall a :: a in r.activities ==> ValidActivity(a))
    && DistinctIds(r.activities)
    && (forall w :: w in r.energyWindows ==> w.startsAt < w.endsAt && 1 <= w.level <= 5)
    && (forall i, j :: 0 <= i < j < |r.baseline| ==> r.baseline[i].blockId != r.baseline[j].blockId)
    && (forall b :: b in r.baseline ==> b.startsAt < b.endsAt)
  }

  /** What scoring and placement read besides the activity being placed. */
  datatype Horizon = Horizon(
    start: Instant, end: Instant, energyWindows: seq<EnergyWindow>, dependents: map<string, nat>)

  /** How many listed activities name `id` among their dependencies. */
  function CountDependents(activities: seq<Activity>, id: string): nat
  {
    if activities == [] then 0
    else (if id in activities[0].dependencies then 1 else 0) + CountDependents(activities[1..], id)
  }

  /** The counts of the listed activities among all of them. */
  function CountEach(listed: seq<Activity>, all: seq<Activity>): (m: map<string, nat>)
    ensures m.Keys == set a | a in listed :: a.id
    ensures forall a :: a in listed ==> m[a.id] == CountDependents(all, a.id)
  {
    if listed == [] then map[]
    else
      var front, a := listed[..|listed| - 1], listed[|listed| - 1];
      assert listed == front + [a];
      CountEach(front, all)[a.id := CountDependents(all, a.id)]
  }

  function HorizonOf(r: Request): Horizon
  {
    Horizon(r.windowStart, r.windowEnd, r.energyWindows, CountEach(r.activities, r.activities))
  }

  ghost function DependentsIn(activities: set<Activity>, id: string): set<Activity>
  {
    set a | a in activities && id in a.dependencies
  }

  /** The count is a property of the set of activities: each dependent counts once,
      wherever it is listed. */
  lemma {:induction false} CountDependentsIsCardinality(activities: seq<Activity>, id: string)
    requires DistinctIds(activities)
    ensures CountDependents(activities, id) == |DependentsIn(Elements(activities), id)|
  {
    if activities == [] {
      assert DependentsIn(Elements(activities), id) == {};
    } else {
      var head, rest := activities[0], activities[1..];
      CountDependentsIsCardinality(rest, id);
      assert activities == [head] + rest;
      var before := DependentsIn(Elements(rest), id);
      var after := DependentsIn(Elements(activities), id);
      assert head !in rest;
      if id in head.dependencies {
        assert after == before + {head};
      } else {
        assert after == before;
      }
    }
  }
}
