/** The outbox as an object: every method rewrites rows and records together. */
module JobOutboxStore {
  import opened Options
  import opened Ordering
  import opened JobOutbox

  datatype Claimed = BadDuration | NoJob | Handed(job: Job)

  lemma {:induction false} LeastUnique(ids: set<string>, a: string, b: string)
    requires IsLeast(ids, a) && IsLeast(ids, b)
    ensures a == b
  {
    if a != b {
      TextBeforeTransitive(a, b, a);
      TextBeforeIrreflexive(a);
    }
  }

  method LeastOf(ids: set<string>) returns (least: string)
    requires ids != {}
    ensures IsLeast(ids, least)
  {
    var first :| first in ids;
    least := first;
    var left := ids - {first};
    while left != {}
      invariant left < ids && IsLeast(ids - left, least)
      decreases left
    {
      var x :| x in left;
      TextBeforeTotal(x, least);
      assert ids - (left - {x}) == (ids - left) + {x};
      assert (ids - left) + {x} - {x} == ids - left;
      LeastOfTwo((ids - left) + {x}, x, least);
      if TextBefore(x, least) {
        least := x;
      }
      left := left - {x};
    }
    assert ids - left == ids;
  }

  /** A sweep in order: what was visited lies before what is left. */
  ghost predicate Swept(o: Table, done: set<string>, left: set<string>, now: int)
  {
    && done + left == QueuedIds(o) && done !! left
    && (forall d, l :: d in done && l in left ==> TextBefore(d, l))
    && (forall d :: d in done ==> d in o.rows && o.rows[d].authorizedUntil <= now)
  }

  lemma {:induction false} SweepOn(o: Table, done: set<string>, left: set<string>, now: int, id: string)
    requires Swept(o, done, left, now) && IsLeast(left, id) && id in o.rows && o.rows[id].authorizedUntil <= now
    ensures Swept(o, done + {id}, left - {id}, now)
  {
  }

  lemma {:induction false} SweepFinds(o: Table, done: set<string>, left: set<string>, now: int, id: string)
    requires Swept(o, done, left, now) && IsLeast(left, id) && id in o.rows && now < o.rows[id].authorizedUntil
    ensures Target(o, now) == Some(id) && PassedIds(o, Some(id)) == done
  {
    assert id in ClaimableIds(o, now);
    assert IsLeast(ClaimableIds(o, now), id);
    LeastUnique(ClaimableIds(o, now), id, Target(o, now).value);
    forall x | x in o.rows && o.rows[x].status.Queued?
      ensures TextBefore(x, id) <==> x in done
    {
      assert x in QueuedIds(o);
      if x in left && TextBefore(x, id) {
        TextBeforeIrreflexive(id);
        if x != id {
          TextBeforeTransitive(id, x, id);
        }
      }
    }
  }

  lemma {:induction false} SweepEnds(o: Table, done: set<string>, now: int)
    requires Swept(o, done, {}, now)
    ensures Target(o, now) == None && PassedIds(o, None) == done
  {
    forall x
      ensures x !in ClaimableIds(o, now)
    {
      assert x in o.rows && o.rows[x].status.Queued? ==> x in QueuedIds(o);
    }
    assert PassedIds(o, None) == QueuedIds(o);
  }

  lemma {:induction false} SavedRow(o: Table, id: string)
    requires Sound(o)
    ensures id in o.rows ==> o.rows[id].id == id && id in o.records
  {
  }

  lemma {:induction false} StartSweep(o: Table, now: int)
    ensures Swept(o, {}, QueuedIds(o), now)
  {
  }

  lemma {:induction false} SweptRow(o: Table, done: set<string>, left: set<string>, now: int, id: string)
    requires Swept(o, done, left, now) && id in left && Sound(o)
    ensures id in o.rows && id in o.records && o.rows[id].id == id && o.rows[id].status.Queued? && id !in done
  {
    assert id in QueuedIds(o);
  }

  lemma {:induction false} ClaimIsSave(o: Table, done: set<string>, id: string, now: int, duration: int, token: nat)
    requires PassedIds(o, Some(id)) == done && id in o.rows
    ensures ClaimOf(o, Some(id), now, duration, token) ==
            Save(MarkAll(o, done, Expired, now), Hand(o.rows[id], now, duration, token), now)
  {
  }

  lemma {:induction false} ClaimIsSweep(o: Table, done: set<string>, now: int, duration: int, token: nat)
    requires PassedIds(o, None) == done
    ensures ClaimOf(o, None, now, duration, token) == MarkAll(o, done, Expired, now)
  {
  }

  lemma {:induction false} MarkMore(o: Table, ids: set<string>, id: string, status: Status, now: int)
    requires id in o.rows && id in o.records && o.rows[id].id == id && id !in ids
    ensures var before := MarkAll(o, ids, status, now);
            && id in before.rows && before.rows[id] == o.rows[id] && id in before.records
            && Save(before, o.rows[id].(status := status), now) == MarkAll(o, ids + {id}, status, now)
  {
    hide MarkRows, MarkRecords;
    var before, after := MarkAll(o, ids, status, now), MarkAll(o, ids + {id}, status, now);
    assert before.rows[id := o.rows[id].(status := status)] == after.rows;
    assert before.records[id := before.records[id] + [Version(status, now)]] == after.records;
  }

  lemma {:induction false} MarkNone(o: Table, status: Status, now: int)
    ensures MarkAll(o, {}, status, now) == o
  {
    hide MarkRows, MarkRecords;
    assert MarkAll(o, {}, status, now).rows == o.rows;
    assert MarkAll(o, {}, status, now).records == o.records;
  }

  class PostgresOutbox {
    var rows: map<string, Job>
    var records: map<string, seq<Version>>

    constructor ()
      ensures State() == JobOutbox.Empty
    {
      rows, records := map[], map[];
    }

    function State(): Table
      reads this
    {
      Table(rows, records)
    }

    method EnqueueJob(job: Job, now: int) returns (ok: bool)
      modifies this
      ensures ok <==> job.status.Queued? && job.token.None? && job.id !in old(rows) && job.id !in old(records)
      ensures ok ==> rows == old(rows)[job.id := job] && records == old(records)[job.id := [Version(Queued, now)]]
      ensures !ok ==> State() == old(State())
      ensures State() == Enqueue(old(State()), job, now)
    {
      if !job.status.Queued? || job.token.Some? || job.id in rows || job.id in records {
        return false;
      }
      rows, records := rows[job.id := job], records[job.id := [Version(Queued, now)]];
      return true;
    }

    method SaveJob(job: Job, now: int)
      requires job.id in records
      modifies this
      ensures State() == Save(old(State()), job, now)
      ensures job.id in rows && rows[job.id] == job
    {
      rows, records := rows[job.id := job], records[job.id := records[job.id] + [Version(job.status, now)]];
    }

    /** Goes through the queued jobs in order, expires those out of time and hands out the first
        that is still authorized. */
    method Claim(now: int, duration: int, token: nat) returns (r: Claimed)
      requires Sound(State())
      modifies this
      ensures Sound(State())
      ensures r.BadDuration? <==> duration <= 0
      ensures r.NoJob? <==> duration > 0 && Target(old(State()), now).None?
      ensures State() == if duration <= 0 then old(State()) else ClaimOf(old(State()), Target(old(State()), now), now, duration, token)
      ensures r.Handed? ==> r.job.id in rows && rows[r.job.id] == r.job && r.job.status.Running? && r.job.token == Some(token)
      ensures r.Handed? ==> Some(r.job.id) == Target(old(State()), now)
    {
      hide Swept, MarkAll, Sound, Target, PassedIds, ClaimOf, Save;
      if duration <= 0 {
        return BadDuration;
      }
      ghost var start := State();
      MarkNone(start, Expired, now);
      StartSweep(start, now);
      var left := QueuedIds(State());
      ghost var done: set<string> := {};
      while left != {}
        invariant State() == MarkAll(start, done, Expired, now) && Sound(start)
        invariant Swept(start, done, left, now)
        decreases left
      {
        var id := LeastOf(left);
        SweptRow(start, done, left, now, id);
        MarkMore(start, done, id, Expired, now);
        var job := rows[id];
        if job.authorizedUntil <= now {
          SweepOn(start, done, left, now, id);
          SaveJob(job.(status := Expired), now);
          done, left := done + {id}, left - {id};
        } else {
          SweepFinds(start, done, left, now, id);
          var handed := Hand(job, now, duration, token);
          ClaimIsSave(start, done, id, now, duration, token);
          SaveJob(handed, now);
          ClaimKeeps(start, now, duration, token);
          return Handed(handed);
        }
      }
      SweepEnds(start, done, now);
      ClaimIsSweep(start, done, now, duration, token);
      ClaimKeeps(start, now, duration, token);
      return NoJob;
    }

    /** Accepts a result only from the current claim and before its deadline. */
    method CompleteJob(id: string, token: nat, result: string, now: int) returns (ok: bool)
      requires Sound(State())
      modifies this
      ensures ok <==> && id in old(rows) && old(rows)[id].status.Running? && old(rows)[id].token == Some(token)
                      && old(rows)[id].deadline.Some? && now < old(rows)[id].deadline.value
      ensures ok ==> rows == old(rows)[id := old(rows)[id].(status := Succeeded, result := Some(result))]
      ensures !ok ==> State() == old(State())
      ensures State() == Complete(old(State()), id, token, result, now) && Sound(State())
    {
      CompleteKeeps(State(), id, token, result, now);
      SavedRow(State(), id);
      hide Sound;
      if id !in rows || !rows[id].status.Running? || rows[id].token != Some(token) || rows[id].deadline.None?
         || rows[id].deadline.value <= now {
        return false;
      }
      SaveJob(rows[id].(status := Succeeded, result := Some(result)), now);
      return true;
    }

    method CancelJob(id: string, token: nat, now: int) returns (ok: bool)
      requires Sound(State())
      modifies this
      ensures ok <==> id in old(rows) && old(rows)[id].status.Running? && old(rows)[id].token == Some(token)
      ensures ok ==> rows == old(rows)[id := old(rows)[id].(status := Cancelled)]
      ensures !ok ==> State() == old(State())
      ensures State() == CancelClaim(old(State()), id, token, now) && Sound(State())
    {
      CancelKeeps(State(), id, token, now);
      SavedRow(State(), id);
      hide Sound;
      if id !in rows || !rows[id].status.Running? || rows[id].token != Some(token) {
        return false;
      }
      SaveJob(rows[id].(status := Cancelled), now);
      return true;
    }

    /** Marks the running jobs whose deadline has passed; none of them is queued again. */
    method RecoverJobs(now: int) returns (recovered: nat)
      requires Sound(State())
      modifies this
      ensures State() == Recover(old(State()), now) && Sound(State())
      ensures recovered == |set id | id in old(rows) && old(rows)[id].status.Running?
                                     && old(rows)[id].deadline.Some? && old(rows)[id].deadline.value <= now|
    {
      hide Sound, MarkAll, OverdueIds, Save, RunningIds, Marking, Extends;
      ghost var start := State();
      RecoverKeeps(start, now);
      MarkNone(start, NeedsReconciliation, now);
      OverdueRun(start, now);
      recovered := 0;
      var left := RunningIds(State());
      ghost var done: set<string> := {};
      while left != {}
        invariant State() == MarkAll(start, done, NeedsReconciliation, now)
        invariant Marking(start, done, left, now) && recovered == |done|
        decreases left
      {
        var id :| id in left;
        OverdueRow(start, done, left, now, id);
        MarkMore(start, done, id, NeedsReconciliation, now);
        var job := rows[id];
        if job.deadline.Some? && job.deadline.value <= now {
          SaveJob(job.(status := NeedsReconciliation), now);
          recovered := recovered + 1;
          done := done + {id};
        }
        left := left - {id};
      }
      MarkingEnds(start, done, now);
      OverdueMeans(start, now);
    }

    method ReconcileJob(id: string, status: Status, result: string, now: int) returns (ok: bool)
      requires Sound(State()) && (status.Succeeded? || status.Cancelled?)
      modifies this
      ensures ok <==> id in old(rows) && (old(rows)[id].status.Uncertain? || old(rows)[id].status.NeedsReconciliation?)
      ensures ok ==> rows == old(rows)[id := old(rows)[id].(status := status, result := Some(result))]
      ensures !ok ==> State() == old(State())
      ensures State() == Reconcile(old(State()), id, status, result, now) && Sound(State())
    {
      ReconcileKeeps(State(), id, status, result, now);
      SavedRow(State(), id);
      hide Sound;
      if id !in rows || (!rows[id].status.Uncertain? && !rows[id].status.NeedsReconciliation?) {
        return false;
      }
      SaveJob(rows[id].(status := status, result := Some(result)), now);
      return true;
    }
  }

  function RunningIds(o: Table): set<string> { set id | id in o.rows && o.rows[id].status.Running? }

  /** A pass over the running jobs in any order: the overdue ones not left are done. */
  ghost predicate Marking(o: Table, done: set<string>, left: set<string>, now: int)
  {
    left <= RunningIds(o) && done == OverdueIds(o, now) - left
  }

  lemma {:induction false} OverdueRun(o: Table, now: int)
    ensures Marking(o, {}, RunningIds(o), now)
  {
  }

  lemma {:induction false} MarkingEnds(o: Table, done: set<string>, now: int)
    requires Marking(o, done, {}, now)
    ensures done == OverdueIds(o, now)
  {
  }

  lemma {:induction false} OverdueMeans(o: Table, now: int)
    ensures OverdueIds(o, now) ==
            set id | id in o.rows && o.rows[id].status.Running? && o.rows[id].deadline.Some? && o.rows[id].deadline.value <= now
  {
  }

  lemma {:induction false} OverdueRow(o: Table, done: set<string>, left: set<string>, now: int, id: string)
    requires Sound(o) && Marking(o, done, left, now) && id in left
    ensures id in o.rows && id in o.records && o.rows[id].id == id && id !in done && |done + {id}| == |done| + 1
    ensures var overdue := o.rows[id].deadline.Some? && o.rows[id].deadline.value <= now;
            Marking(o, if overdue then done + {id} else done, left - {id}, now)
  {
    assert id in RunningIds(o);
  }
}
