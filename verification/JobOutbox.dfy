/** Durable calendar jobs: a row per job and the versions of its execution record, always written
    together. A job is handed out at most once; after that it can only be finished. */
module JobOutbox {
  import opened Options
  import opened Ordering
  import Authority

  datatype Status = Queued | Running | Uncertain | NeedsReconciliation | Succeeded | Cancelled | Expired

  /** Identities are UUIDs as text, whose order is the order of the rows. */
  datatype Job = Job(
    id: string, proposal: string, payload: string, approval: Authority.Fact, authorizedUntil: int,
    status: Status, token: Option<nat>, deadline: Option<int>, result: Option<string>)

  /** One version of an execution record. */
  datatype Version = Version(status: Status, at: int)

  datatype Table = Table(rows: map<string, Job>, records: map<string, seq<Version>>)

  const ClaimDuration: int := 2

  // ------------------------------------------------------------------ pure operations

  /** Row and record are written together. */
  function Save(o: Table, job: Job, now: int): Table
  {
    if job.id in o.records then
      Table(o.rows[job.id := job], o.records[job.id := o.records[job.id] + [Version(job.status, now)]])
    else o
  }

  ghost function MarkRows(rows: map<string, Job>, ids: set<string>, status: Status): (m: map<string, Job>)
    ensures m.Keys == rows.Keys
    ensures forall id :: id in rows ==> m[id] == if id in ids then rows[id].(status := status) else rows[id]
    decreases |ids|
  {
    if ids == {} then rows
    else
      var id :| id in ids;
      var rest := MarkRows(rows, ids - {id}, status);
      if id in rows then rest[id := rows[id].(status := status)] else rest
  }

  ghost function MarkRecords(records: map<string, seq<Version>>, ids: set<string>, v: Version): (m: map<string, seq<Version>>)
    ensures m.Keys == records.Keys
    ensures forall id :: id in records ==> m[id] == if id in ids then records[id] + [v] else records[id]
    decreases |ids|
  {
    if ids == {} then records
    else
      var id :| id in ids;
      var rest := MarkRecords(records, ids - {id}, v);
      if id in records then rest[id := records[id] + [v]] else rest
  }

  /** The same new status for several jobs. */
  ghost function MarkAll(o: Table, ids: set<string>, status: Status, now: int): Table
  {
    Table(MarkRows(o.rows, ids, status), MarkRecords(o.records, ids, Version(status, now)))
  }

  predicate MayEnqueue(o: Table, job: Job)
  {
    job.status.Queued? && job.token.None? && job.id !in o.rows && job.id !in o.records
  }

  function Enqueue(o: Table, job: Job, now: int): Table
  {
    if MayEnqueue(o, job) then Table(o.rows[job.id := job], o.records[job.id := [Version(Queued, now)]]) else o
  }

  function QueuedIds(o: Table): set<string> { set id | id in o.rows && o.rows[id].status.Queued? }

  function ClaimableIds(o: Table, now: int): set<string>
  {
    set id | id in o.rows && o.rows[id].status.Queued? && now < o.rows[id].authorizedUntil
  }

  ghost predicate IsLeast(ids: set<string>, least: string)
  {
    least in ids && forall id :: id in ids ==> id == least || TextBefore(least, id)
  }

  /** The queued jobs a claim passes over: those before the claimed one, all out of time. */
  function PassedIds(o: Table, claimed: Option<string>): set<string>
  {
    set id | id in o.rows && o.rows[id].status.Queued? && (claimed.None? || TextBefore(id, claimed.value))
  }

  function Hand(job: Job, now: int, duration: int, token: nat): Job
  {
    job.(status := Running, token := Some(token),
         deadline := Some(if now + duration < job.authorizedUntil then now + duration else job.authorizedUntil))
  }

  /** A claim: the jobs passed over expire, the first one still authorized is handed out. */
  ghost function ClaimOf(o: Table, claimed: Option<string>, now: int, duration: int, token: nat): Table
  {
    var swept := MarkAll(o, PassedIds(o, claimed), Expired, now);
    if claimed.Some? && claimed.value in o.rows then Save(swept, Hand(o.rows[claimed.value], now, duration, token), now)
    else swept
  }

  predicate HoldsClaim(o: Table, id: string, token: nat)
  {
    id in o.rows && o.rows[id].status.Running? && o.rows[id].token == Some(token)
  }

  predicate MayComplete(o: Table, id: string, token: nat, now: int)
  {
    HoldsClaim(o, id, token) && o.rows[id].deadline.Some? && now < o.rows[id].deadline.value
  }

  function Complete(o: Table, id: string, token: nat, result: string, now: int): Table
  {
    if MayComplete(o, id, token, now) then Save(o, o.rows[id].(status := Succeeded, result := Some(result)), now) else o
  }

  function CancelClaim(o: Table, id: string, token: nat, now: int): Table
  {
    if HoldsClaim(o, id, token) then Save(o, o.rows[id].(status := Cancelled), now) else o
  }

  function OverdueIds(o: Table, now: int): set<string>
  {
    set id | id in o.rows && o.rows[id].status.Running? && o.rows[id].deadline.Some? && o.rows[id].deadline.value <= now
  }

  ghost function Recover(o: Table, now: int): Table { MarkAll(o, OverdueIds(o, now), NeedsReconciliation, now) }

  predicate MayReconcile(o: Table, id: string, status: Status)
  {
    id in o.rows && (o.rows[id].status.Uncertain? || o.rows[id].status.NeedsReconciliation?) &&
    (status.Succeeded? || status.Cancelled?)
  }

  function Reconcile(o: Table, id: string, status: Status, result: string, now: int): Table
  {
    if MayReconcile(o, id, status) then Save(o, o.rows[id].(status := status, result := Some(result)), now) else o
  }

  // --------------------------------------------------------------------- the invariant

  predicate Legal(a: Status, b: Status)
  {
    match a
    case Queued => b.Running? || b.Expired?
    case Running => b.Succeeded? || b.Cancelled? || b.NeedsReconciliation?
    case Uncertain => b.Succeeded? || b.Cancelled?
    case NeedsReconciliation => b.Succeeded? || b.Cancelled?
    case _ => false
  }

  /** One step of a record: a legal change of status, and while the job is handed out or
      completed by its claimant, before the authorization ends. */
  predicate Follows(a: Version, b: Version, authorizedUntil: int)
  {
    Legal(a.status, b.status) && (b.status.Running? || (a.status.Running? && b.status.Succeeded?) ==> b.at < authorizedUntil)
  }

  ghost predicate Lawful(h: seq<Version>, authorizedUntil: int)
  {
    && h != [] && h[0].status.Queued?
    && (forall i :: 0 <= i < |h| - 1 ==> Follows(h[i], h[i + 1], authorizedUntil))
  }

  /** A row agrees with the last version of its record. */
  ghost predicate Agrees(job: Job, h: seq<Version>)
  {
    && Lawful(h, job.authorizedUntil) && h[|h| - 1].status == job.status
    && (job.status.Queued? ==> job.token.None?)
    && (job.status.Running? ==> job.token.Some? && job.deadline.Some? && job.deadline.value <= job.authorizedUntil)
  }

  ghost predicate Sound(o: Table)
  {
    && o.rows.Keys == o.records.Keys
    && (forall id :: id in o.rows ==> o.rows[id].id == id && Agrees(o.rows[id], o.records[id]))
  }

  lemma {:induction false} LawfulSnoc(h: seq<Version>, v: Version, authorizedUntil: int)
    requires Lawful(h, authorizedUntil) && Follows(h[|h| - 1], v, authorizedUntil)
    ensures Lawful(h + [v], authorizedUntil)
  {
  }

  lemma {:induction false} SaveKeeps(o: Table, job: Job, now: int)
    requires Sound(o) && job.id in o.rows && job.authorizedUntil == o.rows[job.id].authorizedUntil
    requires Follows(Version(o.rows[job.id].status, 0), Version(job.status, now), job.authorizedUntil)
    requires job.status.Running? ==> job.token.Some? && job.deadline.Some? && job.deadline.value <= job.authorizedUntil
    ensures Sound(Save(o, job, now))
  {
    var h := o.records[job.id];
    assert Agrees(o.rows[job.id], h);
    LawfulSnoc(h, Version(job.status, now), job.authorizedUntil);
  }

  lemma {:induction false} MarkKeeps(o: Table, ids: set<string>, status: Status, now: int)
    requires Sound(o)
    requires forall id :: id in ids ==> id in o.rows && Legal(o.rows[id].status, status)
    requires status.Expired? || status.NeedsReconciliation?
    ensures Sound(MarkAll(o, ids, status, now))
  {
    hide MarkRows, MarkRecords, Lawful;
    var after := MarkAll(o, ids, status, now);
    forall id | id in after.rows
      ensures after.rows[id].id == id && Agrees(after.rows[id], after.records[id])
    {
      assert Agrees(o.rows[id], o.records[id]);
      if id in ids {
        LawfulSnoc(o.records[id], Version(status, now), o.rows[id].authorizedUntil);
      }
    }
  }

  /** What no operation changes: the jobs there, their authorization, and their history so far. */
  ghost predicate Extends(o: Table, later: Table)
  {
    forall id :: id in o.rows && id in o.records ==>
      && id in later.rows && id in later.records
      && later.rows[id] == o.rows[id].(status := later.rows[id].status, token := later.rows[id].token,
                                       deadline := later.rows[id].deadline, result := later.rows[id].result)
      && o.records[id] <= later.records[id]
  }

  // ------------------------------------------------------------------------------ runs

  datatype Step =
    | EnqueueStep(job: Job, now: int)
    | ClaimStep(now: int, duration: int, token: nat)
    | CompleteStep(id: string, token: nat, result: string, now: int)
    | CancelStep(id: string, token: nat, now: int)
    | RecoverStep(now: int)
    | ReconcileStep(id: string, status: Status, result: string, now: int)

  ghost function Least(ids: set<string>): (least: string)
    requires ids != {}
    ensures IsLeast(ids, least)
  {
    var x :| x in ids;
    if ids == {x} then x
    else
      var y := Least(ids - {x});
      TextBeforeTotal(x, y);
      LeastOfTwo(ids, x, y);
      if TextBefore(x, y) then x else y
  }

  lemma {:induction false} LeastOfTwo(ids: set<string>, x: string, y: string)
    requires x in ids && IsLeast(ids - {x}, y)
    ensures TextBefore(x, y) ==> IsLeast(ids, x)
    ensures TextBefore(y, x) ==> IsLeast(ids, y)
  {
    forall id | id in ids && id != x && TextBefore(x, y)
      ensures TextBefore(x, id)
    {
      if id != y {
        TextBeforeTransitive(x, y, id);
      }
    }
  }

  ghost function Target(o: Table, now: int): Option<string>
  {
    if ClaimableIds(o, now) == {} then None else Some(Least(ClaimableIds(o, now)))
  }

  ghost function Do(o: Table, step: Step): Table
  {
    match step
    case EnqueueStep(job, now) => Enqueue(o, job, now)
    case ClaimStep(now, duration, token) => if duration <= 0 then o else ClaimOf(o, Target(o, now), now, duration, token)
    case CompleteStep(id, token, result, now) => Complete(o, id, token, result, now)
    case CancelStep(id, token, now) => CancelClaim(o, id, token, now)
    case RecoverStep(now) => Recover(o, now)
    case ReconcileStep(id, status, result, now) => Reconcile(o, id, status, result, now)
  }

  ghost function Run(o: Table, steps: seq<Step>): Table
    decreases |steps|
  {
    if steps == [] then o else Run(Do(o, steps[0]), steps[1..])
  }

  const Empty := Table(map[], map[])

  /** Only jobs out of time are passed over. */
  lemma {:induction false} PassedAreStale(o: Table, now: int, id: string)
    requires id in PassedIds(o, Target(o, now))
    ensures o.rows[id].status.Queued? && o.rows[id].authorizedUntil <= now
  {
    var t := Target(o, now);
    if id in ClaimableIds(o, now) {
      TextBeforeIrreflexive(id);
      if id != t.value {
        TextBeforeTransitive(id, t.value, id);
      }
    }
  }

  lemma {:induction false} MarkExtends(o: Table, ids: set<string>, status: Status, now: int)
    ensures Extends(o, MarkAll(o, ids, status, now))
  {
  }

  lemma {:induction false} SaveExtends(o: Table, job: Job, now: int)
    requires job.id in o.rows
    requires job == o.rows[job.id].(status := job.status, token := job.token, deadline := job.deadline, result := job.result)
    ensures Extends(o, Save(o, job, now))
  {
  }

  lemma {:induction false} HandOut(o: Table, t: string, now: int, duration: int, token: nat)
    requires Sound(o) && duration > 0 && t in o.rows && o.rows[t].status.Queued? && now < o.rows[t].authorizedUntil
    ensures Sound(Save(o, Hand(o.rows[t], now, duration, token), now))
    ensures Extends(o, Save(o, Hand(o.rows[t], now, duration, token), now))
  {
    SaveKeeps(o, Hand(o.rows[t], now, duration, token), now);
    SaveExtends(o, Hand(o.rows[t], now, duration, token), now);
  }

  lemma {:induction false} TargetIsClaimable(o: Table, now: int)
    ensures Target(o, now).Some? ==>
              var t := Target(o, now).value;
              t in o.rows && o.rows[t].status.Queued? && now < o.rows[t].authorizedUntil && t !in PassedIds(o, Target(o, now))
  {
    if Target(o, now).Some? {
      TextBeforeIrreflexive(Target(o, now).value);
    }
  }

  lemma {:induction false} ClaimKeeps(o: Table, now: int, duration: int, token: nat)
    requires Sound(o) && duration > 0
    ensures Sound(ClaimOf(o, Target(o, now), now, duration, token))
    ensures Extends(o, ClaimOf(o, Target(o, now), now, duration, token))
  {
    hide Target, Extends, Save, Hand;
    var t := Target(o, now);
    MarkKeeps(o, PassedIds(o, t), Expired, now);
    MarkExtends(o, PassedIds(o, t), Expired, now);
    var swept := MarkAll(o, PassedIds(o, t), Expired, now);
    TargetIsClaimable(o, now);
    hide Sound, PassedIds;
    if t.Some? {
      assert swept.rows[t.value] == o.rows[t.value];
      HandOut(swept, t.value, now, duration, token);
      ExtendsJoin(o, swept, ClaimOf(o, t, now, duration, token));
    }
  }

  lemma {:induction false} CompleteKeeps(o: Table, id: string, token: nat, result: string, now: int)
    requires Sound(o)
    ensures var after := Complete(o, id, token, result, now); Sound(after) && Extends(o, after)
  {
    if MayComplete(o, id, token, now) {
      assert Agrees(o.rows[id], o.records[id]);
      SaveKeeps(o, o.rows[id].(status := Succeeded, result := Some(result)), now);
      SaveExtends(o, o.rows[id].(status := Succeeded, result := Some(result)), now);
    }
  }

  lemma {:induction false} CancelKeeps(o: Table, id: string, token: nat, now: int)
    requires Sound(o)
    ensures var after := CancelClaim(o, id, token, now); Sound(after) && Extends(o, after)
  {
    if HoldsClaim(o, id, token) {
      SaveKeeps(o, o.rows[id].(status := Cancelled), now);
      SaveExtends(o, o.rows[id].(status := Cancelled), now);
    }
  }

  lemma {:induction false} RecoverKeeps(o: Table, now: int)
    requires Sound(o)
    ensures Sound(Recover(o, now)) && Extends(o, Recover(o, now))
  {
    MarkKeeps(o, OverdueIds(o, now), NeedsReconciliation, now);
    MarkExtends(o, OverdueIds(o, now), NeedsReconciliation, now);
  }

  lemma {:induction false} ReconcileKeeps(o: Table, id: string, status: Status, result: string, now: int)
    requires Sound(o)
    ensures var after := Reconcile(o, id, status, result, now); Sound(after) && Extends(o, after)
  {
    if MayReconcile(o, id, status) {
      SaveKeeps(o, o.rows[id].(status := status, result := Some(result)), now);
      SaveExtends(o, o.rows[id].(status := status, result := Some(result)), now);
    }
  }

  lemma {:induction false} EnqueueKeeps(o: Table, job: Job, now: int)
    requires Sound(o)
    ensures Sound(Enqueue(o, job, now)) && Extends(o, Enqueue(o, job, now))
  {
    hide Lawful;
    if MayEnqueue(o, job) {
      NewRecord(job, now);
    }
  }

  lemma {:induction false} NewRecord(job: Job, now: int)
    ensures Lawful([Version(Queued, now)], job.authorizedUntil)
  {
  }

  lemma {:induction false} StepKeeps(o: Table, step: Step)
    requires Sound(o)
    ensures Sound(Do(o, step)) && Extends(o, Do(o, step))
  {
    hide Sound;
    match step
    case EnqueueStep(job, now) => EnqueueKeeps(o, job, now);
    case ClaimStep(now, duration, token) =>
      if duration > 0 {
        ClaimKeeps(o, now, duration, token);
      }
    case CompleteStep(id, token, result, now) => CompleteKeeps(o, id, token, result, now);
    case CancelStep(id, token, now) => CancelKeeps(o, id, token, now);
    case RecoverStep(now) => RecoverKeeps(o, now);
    case ReconcileStep(id, status, result, now) => ReconcileKeeps(o, id, status, result, now);
  }

  /** Rows and records agree in every reachable table, authorizations never change, and records
      only grow. */
  lemma {:induction false} RunKeeps(o: Table, steps: seq<Step>)
    requires Sound(o)
    ensures Sound(Run(o, steps)) && Extends(o, Run(o, steps))
    decreases |steps|
  {
    if steps != [] {
      StepKeeps(o, steps[0]);
      RunKeeps(Do(o, steps[0]), steps[1..]);
      ExtendsJoin(o, Do(o, steps[0]), Run(o, steps));
    }
  }

  lemma {:induction false} ExtendsJoin(a: Table, b: Table, c: Table)
    requires Extends(a, b) && Extends(b, c)
    ensures Extends(a, c)
  {
    forall id | id in a.rows && id in a.records
      ensures a.records[id] <= c.records[id]
    {
      assert a.records[id] <= b.records[id] <= c.records[id];
    }
  }

  // ---------------------------------------------------------------- what a record shows

  function Rank(s: Status): nat
  {
    match s
    case Queued => 0
    case Running => 1
    case Uncertain => 2
    case NeedsReconciliation => 2
    case _ => 3
  }

  lemma {:induction false} RankGrows(h: seq<Version>, authorizedUntil: int, i: nat)
    requires Lawful(h, authorizedUntil) && i < |h|
    ensures i <= Rank(h[i].status) && (i > 0 ==> Rank(h[i].status) > 0)
  {
    if i > 0 {
      RankGrows(h, authorizedUntil, i - 1);
      assert Follows(h[i - 1], h[i - 1 + 1], authorizedUntil);
    }
  }

  /** A lawful record has at most four versions, queued only first and handed out only second. */
  lemma {:induction false} LawfulShape(h: seq<Version>, authorizedUntil: int)
    requires Lawful(h, authorizedUntil)
    ensures |h| <= 4
    ensures forall i :: 0 < i < |h| ==> !h[i].status.Queued?
    ensures forall i :: 0 <= i < |h| && h[i].status.Running? ==> i == 1
  {
    RankGrows(h, authorizedUntil, |h| - 1);
    forall i | 0 <= i < |h|
      ensures i > 0 ==> !h[i].status.Queued?
      ensures h[i].status.Running? ==> i == 1
    {
      RankGrows(h, authorizedUntil, i);
    }
  }

  /** At-most-once jobs, over every run: a job is handed out at most once, never queued again,
      handed out and completed by its claimant only before its authorization ends, and its row
      shows the last version of its record. */
  lemma {:induction false} AtMostOnce(steps: seq<Step>, id: string, i: nat, j: nat)
    requires id in Run(Empty, steps).rows
    ensures var o := Run(Empty, steps);
            && id in o.records && o.records[id] != []
            && o.rows[id].status == o.records[id][|o.records[id]| - 1].status
            && (i < j < |o.records[id]| && o.records[id][i].status.Running? ==> !o.records[id][j].status.Running?)
            && (0 < i < |o.records[id]| ==> !o.records[id][i].status.Queued?)
            && (0 < i < |o.records[id]| && o.records[id][i].status.Running? ==>
                  o.records[id][i].at < o.rows[id].authorizedUntil)
            && (0 < i < |o.records[id]| && o.records[id][i - 1].status.Running? && o.records[id][i].status.Succeeded? ==>
                  o.records[id][i].at < o.rows[id].authorizedUntil)
  {
    RunKeeps(Empty, steps);
    var o := Run(Empty, steps);
    var h := o.records[id];
    assert Agrees(o.rows[id], h);
    LawfulShape(h, o.rows[id].authorizedUntil);
    if 0 < i < |h| {
      assert Follows(h[i - 1], h[i - 1 + 1], o.rows[id].authorizedUntil);
    }
  }
}
