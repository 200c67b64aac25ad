/** What each step does to a job, told in the columns of its row, and who may finish a job: the
    one to whom a claim of the same run handed it out. */
module JobClaims {
  import opened Options
  import opened Ordering
  import opened JobOutbox

  // ------------------------------------------------------------------- single steps

  lemma {:induction false} EnqueueExactly(o: Table, job: Job, now: int)
    requires Sound(o)
    ensures var after := Do(o, EnqueueStep(job, now));
            if job.status.Queued? && job.token.None? && job.id !in o.rows then
              after.rows == o.rows[job.id := job] && after.records == o.records[job.id := [Version(Queued, now)]]
            else after == o
  {
  }

  /** A queued job whose authorization has not run out. */
  ghost predicate Waiting(o: Table, id: string, now: int)
  {
    id in o.rows && o.rows[id].status.Queued? && now < o.rows[id].authorizedUntil
  }

  lemma {:induction false} TargetMeans(o: Table, now: int)
    ensures Target(o, now).None? <==> forall id :: !Waiting(o, id, now)
    ensures Target(o, now).Some? ==>
              && Waiting(o, Target(o, now).value, now)
              && forall id :: Waiting(o, id, now) && id != Target(o, now).value ==> TextBefore(Target(o, now).value, id)
  {
    assert forall id :: id in ClaimableIds(o, now) <==> Waiting(o, id, now);
    if Target(o, now).None? {
      forall id
        ensures !Waiting(o, id, now)
      {
        assert id !in ClaimableIds(o, now);
      }
    } else {
      assert Target(o, now).value in ClaimableIds(o, now);
    }
  }

  /** A claim hands out the waiting job with the least identity, until the earlier of the end of
      the claim and the end of its authorization. Queued jobs before it, all out of time,
      expire; with nothing to hand out all queued jobs do. No other row changes. */
  lemma {:induction false} ClaimExactly(o: Table, now: int, duration: int, token: nat, id: string)
    requires Sound(o) && id in o.rows && duration > 0
    ensures id in Do(o, ClaimStep(now, duration, token)).rows
    ensures var job, after := o.rows[id], Do(o, ClaimStep(now, duration, token)).rows[id];
            if Waiting(o, id, now) && (forall x :: Waiting(o, x, now) && x != id ==> TextBefore(id, x)) then
              && after == job.(status := Running, token := Some(token), deadline := after.deadline)
              && after.deadline.Some? && after.deadline.value <= now + duration && after.deadline.value <= job.authorizedUntil
              && (after.deadline.value == now + duration || after.deadline.value == job.authorizedUntil)
            else if job.status.Queued? && (forall x :: Waiting(o, x, now) ==> TextBefore(id, x)) then
              after == job.(status := Expired)
            else after == job
  {
    var t := Target(o, now);
    TargetMeans(o, now);
    TargetIsClaimable(o, now);
    if t.Some? {
      TextBeforeIrreflexive(t.value);
      if TextBefore(id, t.value) {
        BeforeTheLeast(o, now, id, t.value);
      }
      if id != t.value && TextBefore(id, t.value) && TextBefore(t.value, id) {
        TextBeforeTransitive(id, t.value, id);
        TextBeforeIrreflexive(id);
      }
    }
    ClaimRow(o, t, now, duration, token, id);
    hide Target, ClaimOf, Waiting;
  }

  lemma {:induction false} BeforeTheLeast(o: Table, now: int, id: string, least: string)
    requires forall x :: Waiting(o, x, now) && x != least ==> TextBefore(least, x)
    requires TextBefore(id, least)
    ensures forall x :: Waiting(o, x, now) ==> TextBefore(id, x)
  {
    forall x | Waiting(o, x, now)
      ensures TextBefore(id, x)
    {
      if x != least {
        TextBeforeTransitive(id, least, x);
      }
    }
  }

  lemma {:induction false} ClaimRow(o: Table, t: Option<string>, now: int, duration: int, token: nat, id: string)
    requires Sound(o) && id in o.rows && (t.Some? ==> t.value in o.rows && t.value !in PassedIds(o, t))
    ensures id in ClaimOf(o, t, now, duration, token).rows
    ensures var job, after := o.rows[id], ClaimOf(o, t, now, duration, token).rows[id];
            if t == Some(id) then
              && after == job.(status := Running, token := Some(token), deadline := after.deadline)
              && after.deadline.Some? && after.deadline.value <= now + duration && after.deadline.value <= job.authorizedUntil
              && (after.deadline.value == now + duration || after.deadline.value == job.authorizedUntil)
            else if job.status.Queued? && (t.None? || TextBefore(id, t.value)) then after == job.(status := Expired)
            else after == job
  {
    hide MarkRows, MarkRecords, Agrees, TextBefore;
  }

  /** The claimant completes its running job before the claim runs out, and no one else does. */
  lemma {:induction false} CompleteExactly(o: Table, id: string, token: nat, result: string, now: int)
    requires Sound(o)
    ensures var after := Do(o, CompleteStep(id, token, result, now));
            if id in o.rows && o.rows[id].status.Running? && o.rows[id].token == Some(token)
               && o.rows[id].deadline.Some? && now < o.rows[id].deadline.value then
              && after.rows == o.rows[id := o.rows[id].(status := Succeeded, result := Some(result))]
              && id in o.records && after.records == o.records[id := o.records[id] + [Version(Succeeded, now)]]
            else after == o
  {
  }

  lemma {:induction false} CancelExactly(o: Table, id: string, token: nat, now: int)
    requires Sound(o)
    ensures var after := Do(o, CancelStep(id, token, now));
            if id in o.rows && o.rows[id].status.Running? && o.rows[id].token == Some(token) then
              && after.rows == o.rows[id := o.rows[id].(status := Cancelled)]
              && id in o.records && after.records == o.records[id := o.records[id] + [Version(Cancelled, now)]]
            else after == o
  {
  }

  /** Recovery marks exactly the running jobs whose claim has run out. */
  lemma {:induction false} RecoverExactly(o: Table, now: int, id: string)
    requires Sound(o) && id in o.rows
    ensures var after, job := Do(o, RecoverStep(now)), o.rows[id];
            && id in after.rows && id in after.records && id in o.records
            && (if job.status.Running? && job.deadline.Some? && job.deadline.value <= now then
                  && after.rows[id] == job.(status := NeedsReconciliation)
                  && after.records[id] == o.records[id] + [Version(NeedsReconciliation, now)]
                else after.rows[id] == job && after.records[id] == o.records[id])
  {
  }

  lemma {:induction false} ReconcileExactly(o: Table, id: string, status: Status, result: string, now: int)
    requires Sound(o)
    ensures var after := Do(o, ReconcileStep(id, status, result, now));
            if id in o.rows && (o.rows[id].status == Uncertain || o.rows[id].status == NeedsReconciliation)
               && (status == Succeeded || status == Cancelled) then
              && after.rows == o.rows[id := o.rows[id].(status := status, result := Some(result))]
              && id in o.records && after.records == o.records[id := o.records[id] + [Version(status, now)]]
            else after == o
  {
  }

  // -------------------------------------------------------------------------- runs

  lemma {:induction false} RunSnoc(o: Table, steps: seq<Step>)
    requires steps != []
    ensures Run(o, steps) == Do(Run(o, steps[..|steps| - 1]), steps[|steps| - 1])
    decreases |steps|
  {
    hide Do;
    var n := |steps| - 1;
    if n > 0 {
      RunSnoc(Do(o, steps[0]), steps[1..]);
      assert steps[1..][..n - 1] == steps[..n][1..];
    }
  }

  /** The table after the first `n` steps of a run. */
  ghost function After(steps: seq<Step>, n: nat): Table
    requires n <= |steps|
  {
    Run(Empty, steps[..n])
  }

  lemma {:induction false} AfterStep(steps: seq<Step>, n: nat)
    requires n < |steps|
    ensures After(steps, n + 1) == Do(After(steps, n), steps[n])
    ensures Sound(After(steps, n)) && Extends(After(steps, n), After(steps, n + 1))
  {
    hide Do, Sound, Extends;
    RunSnoc(Empty, steps[..n + 1]);
    assert steps[..n + 1][..n] == steps[..n];
    EmptyIsSound();
    RunKeeps(Empty, steps[..n]);
    StepKeeps(After(steps, n), steps[n]);
  }

  lemma {:induction false} EmptyIsSound()
    ensures Sound(Empty)
  {
  }

  /** The `j`-th step is a claim that handed the job out with the token. */
  ghost predicate HandedAt(steps: seq<Step>, j: nat, id: string, token: nat)
  {
    && j < |steps| && steps[j].ClaimStep? && steps[j].token == token
    && id in After(steps, j).rows && After(steps, j).rows[id].status.Queued?
    && id in After(steps, j + 1).rows && After(steps, j + 1).rows[id].status.Running?
    && After(steps, j + 1).rows[id].token == Some(token)
  }

  /** One step on one row: a token or a deadline appears only when a claim hands the job out, and a
      job that is not queued keeps both and stays off the queue. */
  lemma {:induction false} TokenStep(o: Table, step: Step, id: string)
    requires Sound(o) && id in Do(o, step).rows
    ensures id !in o.rows ==> Do(o, step).rows[id].token.None? && Do(o, step).rows[id].status.Queued?
    ensures id in o.rows && !o.rows[id].status.Queued? ==>
              var job, after := o.rows[id], Do(o, step).rows[id];
              after.token == job.token && after.deadline == job.deadline && !after.status.Queued?
    ensures id in o.rows && Do(o, step).rows[id].token != o.rows[id].token ==>
              && step.ClaimStep? && o.rows[id].status.Queued?
              && Do(o, step).rows[id].status.Running? && Do(o, step).rows[id].token == Some(step.token)
  {
    hide Sound, Do;
    match step
    case EnqueueStep(job, now) => EnqueueExactly(o, job, now);
    case ClaimStep(now, duration, token) => ClaimTokens(o, now, duration, token, id);
    case CompleteStep(x, token, result, now) => CompleteExactly(o, x, token, result, now);
    case CancelStep(x, token, now) => CancelExactly(o, x, token, now);
    case RecoverStep(now) => RecoverTokens(o, now, id);
    case ReconcileStep(x, status, result, now) => ReconcileExactly(o, x, status, result, now);
  }

  lemma {:induction false} ClaimTokens(o: Table, now: int, duration: int, token: nat, id: string)
    requires Sound(o) && id in Do(o, ClaimStep(now, duration, token)).rows
    ensures id in o.rows
    ensures var job, after := o.rows[id], Do(o, ClaimStep(now, duration, token)).rows[id];
            && (!job.status.Queued? ==> after == job)
            && (after.token != job.token ==> after.status.Running? && after.token == Some(token))
  {
    if duration > 0 {
      assert id in o.rows;
      ClaimExactly(o, now, duration, token, id);
    }
  }

  lemma {:induction false} RecoverTokens(o: Table, now: int, id: string)
    requires Sound(o) && id in Do(o, RecoverStep(now)).rows
    ensures id in o.rows
    ensures var job, after := o.rows[id], Do(o, RecoverStep(now)).rows[id];
            after == job || (job.status.Running? && after == job.(status := NeedsReconciliation))
  {
  }

  /** A token in a row was handed out with the job by a claim of the run. */
  lemma {:induction false} TokenHandedOut(steps: seq<Step>, n: nat, id: string) returns (j: nat)
    requires n <= |steps| && id in After(steps, n).rows && After(steps, n).rows[id].token.Some?
    ensures j < n && HandedAt(steps, j, id, After(steps, n).rows[id].token.value)
  {
    hide Do, Sound, Extends, Run;
    if n == 0 {
      NothingYet(steps);
    } else {
      var before := After(steps, n - 1);
      AfterStep(steps, n - 1);
      assert After(steps, n - 1 + 1) == After(steps, n);
      TokenStep(before, steps[n - 1], id);
      if After(steps, n).rows[id].token == before.rows[id].token {
        j := TokenHandedOut(steps, n - 1, id);
      } else {
        j := n - 1;
      }
    }
  }

  lemma {:induction false} NothingYet(steps: seq<Step>)
    ensures After(steps, 0) == Empty
  {
    assert steps[..0] == [];
  }

  /** Once handed out a job keeps its token and its deadline to the end of the run. */
  lemma {:induction false} ClaimStays(steps: seq<Step>, j: nat, n: nat, id: string, token: nat)
    requires HandedAt(steps, j, id, token) && j < n <= |steps|
    ensures id in After(steps, n).rows
    ensures var job := After(steps, n).rows[id];
            job.token == Some(token) && job.deadline == After(steps, j + 1).rows[id].deadline && !job.status.Queued?
            && job.authorizedUntil == After(steps, j).rows[id].authorizedUntil
    decreases n
  {
    hide Do, Sound, Run;
    AfterStep(steps, n - 1);
    assert After(steps, n - 1 + 1) == After(steps, n);
    SoundRow(After(steps, n - 1), id);
    if j + 1 < n {
      ClaimStays(steps, j, n - 1, id, token);
      TokenStep(After(steps, n - 1), steps[n - 1], id);
    }
  }

  lemma {:induction false} SoundRow(o: Table, id: string)
    requires Sound(o)
    ensures id in o.rows <==> id in o.records
  {
  }

  /** Over every run: if completing or cancelling a job changes anything, a claim earlier in
      the run handed that job out with exactly that token. */
  lemma {:induction false} OnlyTheClaimantFinishes(steps: seq<Step>, step: Step) returns (j: nat)
    requires step.CompleteStep? || step.CancelStep?
    requires Do(Run(Empty, steps), step) != Run(Empty, steps)
    ensures j < |steps| && HandedAt(steps, j, step.id, step.token)
  {
    var o, n := Run(Empty, steps), |steps|;
    assert steps[..n] == steps;
    EmptyIsSound();
    RunKeeps(Empty, steps);
    hide Do, Run, Sound;
    if step.CompleteStep? {
      CompleteExactly(o, step.id, step.token, step.result, step.now);
    } else {
      CancelExactly(o, step.id, step.token, step.now);
    }
    j := TokenHandedOut(steps, n, step.id);
  }

  /** Conversely the one who got the job may complete it, as long as it runs, at every time before
      the earlier of the end of the claim and the end of the authorization, and at no later
      time, and may cancel it at any time. */
  lemma {:induction false} TheClaimantMayFinish(steps: seq<Step>, j: nat, id: string, token: nat, result: string, now: int)
    requires HandedAt(steps, j, id, token) && id in Run(Empty, steps).rows && Run(Empty, steps).rows[id].status.Running?
    ensures var o, claim := Run(Empty, steps), steps[j];
            && (if now < claim.now + claim.duration && now < o.rows[id].authorizedUntil then
                  Do(o, CompleteStep(id, token, result, now)).rows == o.rows[id := o.rows[id].(status := Succeeded, result := Some(result))]
                else Do(o, CompleteStep(id, token, result, now)) == o)
            && Do(o, CancelStep(id, token, now)).rows == o.rows[id := o.rows[id].(status := Cancelled)]
  {
    hide Do, Run, Sound, Extends;
    var o, n := Run(Empty, steps), |steps|;
    assert steps[..n] == steps;
    EmptyIsSound();
    RunKeeps(Empty, steps);
    ClaimRunsUntil(steps, j, n, id, token);
    hide HandedAt;
    CompleteExactly(o, id, token, result, now);
    CancelExactly(o, id, token, now);
  }

  lemma {:induction false} ClaimRunsUntil(steps: seq<Step>, j: nat, n: nat, id: string, token: nat)
    requires HandedAt(steps, j, id, token) && j < n <= |steps|
    ensures id in After(steps, n).rows
    ensures var job := After(steps, n).rows[id];
            && job.token == Some(token)
            && job.deadline.Some? && job.deadline.value <= steps[j].now + steps[j].duration && job.deadline.value <= job.authorizedUntil
            && (job.deadline.value == steps[j].now + steps[j].duration || job.deadline.value == job.authorizedUntil)
  {
    hide Do, Run, Sound, Extends;
    AfterStep(steps, j);
    ClaimStays(steps, j, n, id, token);
    ClaimDeadline(After(steps, j), steps[j].now, steps[j].duration, token, id);
  }

  lemma {:induction false} ClaimDeadline(o: Table, now: int, duration: int, token: nat, id: string)
    requires Sound(o) && id in o.rows && o.rows[id].status.Queued?
    requires id in Do(o, ClaimStep(now, duration, token)).rows && Do(o, ClaimStep(now, duration, token)).rows[id].status.Running?
    ensures var deadline := Do(o, ClaimStep(now, duration, token)).rows[id].deadline;
            && deadline.Some? && deadline.value <= now + duration && deadline.value <= o.rows[id].authorizedUntil
            && (deadline.value == now + duration || deadline.value == o.rows[id].authorizedUntil)
  {
    if duration > 0 {
      ClaimExactly(o, now, duration, token, id);
    }
  }
}
