/** From approval to a claimed job: an approval and its job are stored in one step, and a job is
    handed on only while its proposal and approval still hold. */
module DurableCalendar {
  import opened Options
  import Ordering
  import opened Consumption
  import A = Authority
  import opened JobOutbox
  import opened JobOutboxStore

  datatype StoredProposal = StoredProposal(kind: string, payload: string, state: A.State)

  const CalendarKind := "calendar.apply"

  datatype Cell = Cell(proposals: map<string, StoredProposal>, consumed: set<Key>, table: Table)

  function RecordOf(id: string, p: StoredProposal): A.ProposalRecord { A.ProposalRecord(id, p.payload, p.state) }

  predicate IsCalendar(proposals: map<string, StoredProposal>, id: string)
  {
    id in proposals && proposals[id].kind == CalendarKind
  }

  /** The job an approval enqueues: its identity is the approval's, its payload the stored one. */
  function JobFor(p: StoredProposal, fact: A.Fact): Job
  {
    Job(fact.id, fact.proposal, p.payload, fact, fact.expires, Queued, None, None, None)
  }

  predicate MayApprove(cell: Cell, fact: A.Fact, now: int)
  {
    && IsCalendar(cell.proposals, fact.proposal)
    && A.Serve(cell.consumed, A.Approve(RecordOf(fact.proposal, cell.proposals[fact.proposal]), fact, now)).1
    && MayEnqueue(cell.table, JobFor(cell.proposals[fact.proposal], fact))
  }

  /** Consumes the approval, moves the proposal on and enqueues its job, or does nothing. */
  function ApproveAndEnqueue(cell: Cell, fact: A.Fact, now: int): Cell
  {
    if MayApprove(cell, fact, now) then
      var p := cell.proposals[fact.proposal];
      Cell(cell.proposals[fact.proposal := p.(state := A.Approved)],
           A.Serve(cell.consumed, A.Approve(RecordOf(fact.proposal, p), fact, now)).0,
           Enqueue(cell.table, JobFor(p, fact), now))
    else cell
  }

  function ResetProposal(cell: Cell, fact: A.Fact, now: int, zeroEffects: bool): Cell
  {
    if IsCalendar(cell.proposals, fact.proposal) then
      var p := cell.proposals[fact.proposal];
      var (consumed, ok) := A.Serve(cell.consumed, A.Reset(RecordOf(fact.proposal, p), fact, now, zeroEffects));
      if ok then cell.(consumed := consumed, proposals := cell.proposals[fact.proposal := p.(state := A.Proposed)]) else cell
    else cell
  }

  // ------------------------------------------------------------ jobs of one proposal

  function JobsOf(o: Table, proposal: string): set<string>
  {
    set id | id in o.rows && o.rows[id].proposal == proposal
  }

  datatype Step =
    | Propose(id: string, proposal: StoredProposal)
    | SetState(id: string, state: A.State)
    | ApproveStep(fact: A.Fact, now: int)
    | ResetStep(fact: A.Fact, now: int, zeroEffects: bool)
    | JobStep(step: JobOutbox.Step)

  /** Proposals may change state for other reasons at any time; jobs come only from approvals. */
  ghost function Do(cell: Cell, step: Step): Cell
  {
    match step
    case Propose(id, p) => if id in cell.proposals then cell else cell.(proposals := cell.proposals[id := p])
    case SetState(id, state) =>
      if id in cell.proposals then cell.(proposals := cell.proposals[id := cell.proposals[id].(state := state)]) else cell
    case ApproveStep(fact, now) => ApproveAndEnqueue(cell, fact, now)
    case ResetStep(fact, now, zero) => ResetProposal(cell, fact, now, zero)
    case JobStep(s) => if s.EnqueueStep? then cell else cell.(table := JobOutbox.Do(cell.table, s))
  }

  ghost function Run(cell: Cell, steps: seq<Step>): Cell
    decreases |steps|
  {
    if steps == [] then cell else Run(Do(cell, steps[0]), steps[1..])
  }

  const EmptyCell := Cell(map[], {}, JobOutbox.Empty)

  /** An approval goes through exactly when the stored calendar proposal is proposed with the
      fact's payload, the fact is proven and in force, none of its keys is used up, and no job
      bears its identity. */
  lemma {:induction false} ApproveStepExactly(cell: Cell, fact: A.Fact, now: int)
    ensures var keys := {("approve", fact.id), ("approve-proposal", A.RoundKey(fact.proposal, Generation(cell.consumed, fact.proposal))),
                         ("approve-idempotency", fact.device + ":" + fact.idempotency)};
            var job := Job(fact.id, fact.proposal, fact.payload, fact, fact.expires, Queued, None, None, None);
            Do(cell, ApproveStep(fact, now)) ==
            if && fact.proposal in cell.proposals && cell.proposals[fact.proposal].kind == "calendar.apply"
               && cell.proposals[fact.proposal].state.Proposed? && cell.proposals[fact.proposal].payload == fact.payload
               && !fact.isReset && fact.proven && fact.issued <= now < fact.expires
               && keys !! cell.consumed && fact.id !in cell.table.rows && fact.id !in cell.table.records
            then Cell(cell.proposals[fact.proposal := cell.proposals[fact.proposal].(state := A.Approved)], cell.consumed + keys,
                      Table(cell.table.rows[fact.id := job], cell.table.records[fact.id := [Version(Queued, now)]]))
            else cell
  {
    hide A.Serve, Generation, A.RoundKey;
    if IsCalendar(cell.proposals, fact.proposal) {
      A.ServeExactly(cell.consumed, A.Approve(RecordOf(fact.proposal, cell.proposals[fact.proposal]), fact, now));
    }
  }

  /** A reset goes through exactly when the stored calendar proposal is approved with the fact's
      payload, the calendar shows no effect, the fact is proven and in force, and none of its
      keys is used up. The proposal's jobs stay as they are. */
  lemma {:induction false} ResetStepExactly(cell: Cell, fact: A.Fact, now: int, zero: bool)
    ensures var keys := {("recover", fact.id), ("reset-round:" + fact.proposal, fact.id),
                         ("recover-idempotency", fact.device + ":" + fact.idempotency)};
            Do(cell, ResetStep(fact, now, zero)) ==
            if && fact.proposal in cell.proposals && cell.proposals[fact.proposal].kind == "calendar.apply"
               && cell.proposals[fact.proposal].state.Approved? && cell.proposals[fact.proposal].payload == fact.payload
               && zero && fact.proven && fact.issued <= now < fact.expires && keys !! cell.consumed
            then Cell(cell.proposals[fact.proposal := cell.proposals[fact.proposal].(state := A.Proposed)], cell.consumed + keys, cell.table)
            else cell
  {
    hide A.Serve;
    if IsCalendar(cell.proposals, fact.proposal) {
      A.ServeExactly(cell.consumed, A.Reset(RecordOf(fact.proposal, cell.proposals[fact.proposal]), fact, now, zero));
    }
  }

  /** For other reasons a proposal may be stored once and change its state at any time, but never its
      kind or its payload, and neither touches a key or a job. */
  lemma {:induction false} OtherStepsExactly(cell: Cell, id: string, p: StoredProposal, state: A.State)
    ensures Do(cell, Propose(id, p)) == if id in cell.proposals then cell else cell.(proposals := cell.proposals[id := p])
    ensures id in cell.proposals ==>
              Do(cell, SetState(id, state)) ==
              cell.(proposals := cell.proposals[id := StoredProposal(cell.proposals[id].kind, cell.proposals[id].payload, state)])
    ensures id !in cell.proposals ==> Do(cell, SetState(id, state)) == cell
  {
  }

  /** Every job of a proposal used up one of its approval rounds. */
  ghost predicate Accounted(cell: Cell, p: string)
  {
    Sound(cell.table) && |JobsOf(cell.table, p)| <= |A.UsedRounds(cell.consumed, p)|
  }

  lemma {:induction false} SameKeys(o: Table, s: JobOutbox.Step)
    requires Sound(o) && !s.EnqueueStep?
    ensures JobOutbox.Do(o, s).rows.Keys == o.rows.Keys
  {
    hide Target, Hand, PassedIds;
    if s.ClaimStep? && s.duration > 0 {
      TargetIsClaimable(o, s.now);
    }
  }

  lemma {:induction false} SameJobs(o: Table, s: JobOutbox.Step, p: string)
    requires Sound(o) && !s.EnqueueStep?
    ensures JobsOf(JobOutbox.Do(o, s), p) == JobsOf(o, p)
  {
    SameKeys(o, s);
    StepKeeps(o, s);
    ExtendsJobs(o, JobOutbox.Do(o, s), p);
  }

  lemma {:induction false} ExtendsJobs(o: Table, later: Table, p: string)
    requires o.rows.Keys == o.records.Keys && Extends(o, later) && later.rows.Keys == o.rows.Keys
    ensures JobsOf(later, p) == JobsOf(o, p)
  {
    forall id | id in o.rows
      ensures later.rows[id].proposal == o.rows[id].proposal
    {
      assert id in o.records;
    }
  }

  lemma {:induction false} EnqueueAddsJob(o: Table, job: Job, now: int, p: string)
    requires MayEnqueue(o, job)
    ensures |JobsOf(Enqueue(o, job, now), p)| == |JobsOf(o, p)| + if job.proposal == p then 1 else 0
  {
    var after := Enqueue(o, job, now);
    if job.proposal == p {
      assert JobsOf(after, p) == JobsOf(o, p) + {job.id};
    } else {
      assert JobsOf(after, p) == JobsOf(o, p);
    }
  }

  lemma {:induction false} StepAccounts(cell: Cell, step: Step, p: string)
    requires Accounted(cell, p)
    ensures Accounted(Do(cell, step), p)
  {
    hide Sound, A.UsedRounds, JobsOf, MayEnqueue, Enqueue, A.Serve, JobOutbox.Do;
    match step
    case Propose(_, _) =>
    case SetState(_, _) =>
    case ApproveStep(fact, now) =>
      if MayApprove(cell, fact, now) {
        var stored := cell.proposals[fact.proposal];
        A.ServeUsesRounds(cell.consumed, A.Approve(RecordOf(fact.proposal, stored), fact, now), p);
        EnqueueAddsJob(cell.table, JobFor(stored, fact), now, p);
        EnqueueKeeps(cell.table, JobFor(stored, fact), now);
      }
    case ResetStep(fact, now, zero) =>
      if IsCalendar(cell.proposals, fact.proposal) {
        A.ServeUsesRounds(cell.consumed, A.Reset(RecordOf(fact.proposal, cell.proposals[fact.proposal]), fact, now, zero), p);
      }
    case JobStep(s) =>
      if !s.EnqueueStep? {
        SameJobs(cell.table, s, p);
        StepKeeps(cell.table, s);
      }
  }

  lemma {:induction false} RunAccounts(cell: Cell, steps: seq<Step>, p: string)
    requires Accounted(cell, p)
    ensures Accounted(Run(cell, steps), p)
    decreases |steps|
  {
    if steps != [] {
      StepAccounts(cell, steps[0], p);
      RunAccounts(Do(cell, steps[0]), steps[1..], p);
    }
  }

  /** A step that resets the proposal and is granted. */
  predicate IsGrantedReset(cell: Cell, step: Step, p: string)
  {
    && step.ResetStep? && step.fact.proposal == p && IsCalendar(cell.proposals, p)
    && A.Serve(cell.consumed, A.Reset(RecordOf(p, cell.proposals[p]), step.fact, step.now, step.zeroEffects)).1
  }

  /** How many resets of the proposal a run grants. */
  ghost function GrantedResets(cell: Cell, steps: seq<Step>, p: string): nat
    decreases |steps|
  {
    if steps == [] then 0
    else (if IsGrantedReset(cell, steps[0], p) then 1 else 0) + GrantedResets(Do(cell, steps[0]), steps[1..], p)
  }

  lemma {:induction false} StepGeneration(cell: Cell, step: Step, p: string)
    ensures Generation(Do(cell, step).consumed, p) ==
            Generation(cell.consumed, p) + if IsGrantedReset(cell, step, p) then 1 else 0
  {
    hide Generation, A.Serve, JobOutbox.Do, Enqueue;
    match step
    case ApproveStep(fact, now) =>
      if MayApprove(cell, fact, now) {
        A.ServeGeneration(cell.consumed, A.Approve(RecordOf(fact.proposal, cell.proposals[fact.proposal]), fact, now), p);
      }
    case ResetStep(fact, now, zero) =>
      if IsCalendar(cell.proposals, fact.proposal) {
        A.ServeGeneration(cell.consumed, A.Reset(RecordOf(fact.proposal, cell.proposals[fact.proposal]), fact, now, zero), p);
      }
    case _ =>
  }

  lemma {:induction false} RunGeneration(cell: Cell, steps: seq<Step>, p: string)
    ensures Generation(Run(cell, steps).consumed, p) == Generation(cell.consumed, p) + GrantedResets(cell, steps, p)
    decreases |steps|
  {
    if steps != [] {
      StepGeneration(cell, steps[0], p);
      RunGeneration(Do(cell, steps[0]), steps[1..], p);
    }
  }

  lemma {:induction false} NothingConsumed(p: string)
    ensures Generation({}, p) == 0
  {
    assert Rounds({}, p) == {};
  }

  lemma {:induction false} HandedOutOnce(o: Table, id: string)
    requires Sound(o) && id in o.rows
    ensures id in o.records && forall i :: 0 <= i < |o.records[id]| && o.records[id][i].status.Running? ==> i == 1
  {
    assert Agrees(o.rows[id], o.records[id]);
    LawfulShape(o.records[id], o.rows[id].authorizedUntil);
  }

  /** Over every run a proposal has at most one job more than it was reset, and each of them is
      handed out at most once. */
  lemma {:induction false} JobsBounded(steps: seq<Step>, p: string, id: string)
    ensures var cell := Run(EmptyCell, steps);
            && |JobsOf(cell.table, p)| <= GrantedResets(EmptyCell, steps, p) + 1
            && (id in JobsOf(cell.table, p) ==>
                  id in cell.table.records &&
                  forall i :: 0 <= i < |cell.table.records[id]| && cell.table.records[id][i].status.Running? ==> i == 1)
  {
    hide Run, GrantedResets, Sound, Agrees, Generation, A.UsedRounds;
    EmptyAccounted(p);
    RunAccounts(EmptyCell, steps, p);
    var cell := Run(EmptyCell, steps);
    RunGeneration(EmptyCell, steps, p);
    NothingConsumed(p);
    RoundsUsed(cell, p);
    if id in JobsOf(cell.table, p) {
      HandedOutOnce(cell.table, id);
    }
  }

  lemma {:induction false} EmptyAccounted(p: string)
    ensures Accounted(EmptyCell, p)
  {
    assert JobsOf(EmptyCell.table, p) == {};
  }

  lemma {:induction false} RoundsUsed(cell: Cell, p: string)
    ensures |A.UsedRounds(cell.consumed, p)| <= Generation(cell.consumed, p) + 1
  {
    A.AtMost(A.UsedRounds(cell.consumed, p), Generation(cell.consumed, p));
  }

  // --------------------------------------------------------------- the verified claim

  /** The job's proposal is still approved with the same payload and its approval still holds. */
  predicate StillHolds(proposals: map<string, StoredProposal>, job: Job, now: int, provenNow: A.Fact -> bool)
  {
    && IsCalendar(proposals, job.proposal)
    && proposals[job.proposal].state.Approved? && proposals[job.proposal].payload == job.payload
    && provenNow(job.approval)
    && A.ValidApproval(A.ProposalRecord(job.proposal, job.payload, A.Approved), job.approval.(proven := true), now)
  }

  /** That is: the stored proposal and the approval name the same payload and the approval,
      proven now, was issued and has not expired. */
  lemma {:induction false} StillHoldsExactly(proposals: map<string, StoredProposal>, job: Job, now: int, provenNow: A.Fact -> bool)
    ensures StillHolds(proposals, job, now, provenNow) <==>
            && job.proposal in proposals && proposals[job.proposal] == StoredProposal("calendar.apply", job.payload, A.Approved)
            && job.approval.proposal == job.proposal && job.approval.payload == job.payload
            && job.approval.issued <= now < job.approval.expires && provenNow(job.approval)
  {
  }

  /** What dispatch does to a job it does not hand on: nothing, or it expires out of time, or it
      is cancelled because it no longer holds. */
  ghost predicate Settled(before: Job, after: Job, now: int, stored: map<string, StoredProposal>, provenNow: A.Fact -> bool)
  {
    || after == before
    || (before.status.Queued? && after.status.Expired? && before.authorizedUntil <= now)
    || (before.status.Queued? && after.status.Cancelled? && now < before.authorizedUntil && !StillHolds(stored, before, now, provenNow))
  }

  ghost predicate OnlySettled(o: Table, later: Table, except: set<string>, now: int, stored: map<string, StoredProposal>, provenNow: A.Fact -> bool)
  {
    && o.rows.Keys == later.rows.Keys
    && forall id :: id in o.rows && id !in except ==> Settled(o.rows[id], later.rows[id], now, stored, provenNow)
  }

  /** A queued job in time that holds. */
  ghost predicate Ready(o: Table, id: string, now: int, stored: map<string, StoredProposal>, provenNow: A.Fact -> bool)
  {
    id in o.rows && o.rows[id].status.Queued? && now < o.rows[id].authorizedUntil && StillHolds(stored, o.rows[id], now, provenNow)
  }

  ghost predicate NoneQueuedBefore(o: Table, id: string)
  {
    forall x :: x in o.rows && o.rows[x].status.Queued? ==> Ordering.TextBefore(id, x)
  }

  /** One row after a claim. */
  lemma {:induction false} ClaimedRow(o: Table, now: int, duration: int, token: nat, id: string)
    requires Sound(o) && duration > 0 && id in o.rows
    ensures ClaimOf(o, Target(o, now), now, duration, token).rows.Keys == o.rows.Keys
    ensures var t, after := Target(o, now), ClaimOf(o, Target(o, now), now, duration, token).rows[id];
            && (t == Some(id) ==> o.rows[id].status.Queued? && !after.status.Queued?)
            && (t != Some(id) ==>
                  || after == o.rows[id]
                  || (o.rows[id].status.Queued? && after.status.Expired? && o.rows[id].authorizedUntil <= now))
            && (after.status.Queued? ==> t.Some? && Ordering.TextBefore(t.value, id))
  {
    hide Target, Agrees;
    TargetIsClaimable(o, now);
    var t := Target(o, now);
    if id in PassedIds(o, t) {
      PassedAreStale(o, now, id);
    }
    if t.Some? {
      Ordering.TextBeforeTotal(id, t.value);
    }
  }

  lemma {:induction false} ClaimShrinksQueue(o: Table, now: int, duration: int, token: nat, stored: map<string, StoredProposal>, provenNow: A.Fact -> bool)
    requires Sound(o) && duration > 0
    ensures var after := ClaimOf(o, Target(o, now), now, duration, token);
            && (Target(o, now).None? ==> QueuedIds(after) == {})
            && (Target(o, now).Some? ==> QueuedIds(after) < QueuedIds(o) && Target(o, now).value in QueuedIds(o))
            && (Target(o, now).Some? ==> NoneQueuedBefore(after, Target(o, now).value))
            && OnlySettled(o, after, if Target(o, now).Some? then {Target(o, now).value} else {}, now, stored, provenNow)
  {
    hide Target, ClaimOf, Sound, StillHolds;
    var t := Target(o, now);
    var after := ClaimOf(o, t, now, duration, token);
    TargetIsClaimable(o, now);
    SameRows(o, now, duration, token);
    forall id | id in o.rows
      ensures (t == Some(id) ==> o.rows[id].status.Queued? && !after.rows[id].status.Queued?)
      ensures t != Some(id) ==> Settled(o.rows[id], after.rows[id], now, stored, provenNow)
      ensures after.rows[id].status.Queued? ==> o.rows[id].status.Queued? && t.Some? && Ordering.TextBefore(t.value, id)
    {
      ClaimedRow(o, now, duration, token, id);
    }
    if t.Some? {
      assert t.value in QueuedIds(o) && t.value !in QueuedIds(after);
    }
  }

  lemma {:induction false} SameRows(o: Table, now: int, duration: int, token: nat)
    requires Sound(o) && duration > 0
    ensures ClaimOf(o, Target(o, now), now, duration, token).rows.Keys == o.rows.Keys
  {
    SameKeys(o, ClaimStep(now, duration, token));
  }

  lemma {:induction false} CancelSettles(start: Table, o: Table, id: string, token: nat, now: int, stored: map<string, StoredProposal>, provenNow: A.Fact -> bool)
    requires Sound(o) && HoldsClaim(o, id, token) && OnlySettled(start, o, {id}, now, stored, provenNow)
    requires id in start.rows && start.rows[id].status.Queued? && now < start.rows[id].authorizedUntil && !StillHolds(stored, start.rows[id], now, provenNow)
    ensures OnlySettled(start, CancelClaim(o, id, token, now), {}, now, stored, provenNow)
    ensures QueuedIds(CancelClaim(o, id, token, now)) == QueuedIds(o)
  {
    hide Agrees, Lawful;
    assert o.rows[id].id == id;
    assert CancelClaim(o, id, token, now).rows.Keys == o.rows.Keys;
  }

  lemma {:induction false} SettledTwice(a: Job, b: Job, c: Job, now: int, stored: map<string, StoredProposal>, provenNow: A.Fact -> bool)
    requires Settled(a, b, now, stored, provenNow) && Settled(b, c, now, stored, provenNow)
    ensures Settled(a, c, now, stored, provenNow)
  {
  }

  lemma {:induction false} SettleTwice(start: Table, o: Table, later: Table, except: set<string>, now: int, stored: map<string, StoredProposal>, provenNow: A.Fact -> bool)
    requires OnlySettled(start, o, {}, now, stored, provenNow) && OnlySettled(o, later, except, now, stored, provenNow)
    ensures OnlySettled(start, later, except, now, stored, provenNow)
  {
    forall x | x in start.rows && x !in except
      ensures Settled(start.rows[x], later.rows[x], now, stored, provenNow)
    {
      SettledTwice(start.rows[x], o.rows[x], later.rows[x], now, stored, provenNow);
    }
  }

  /** A job still queued after the earlier claims was queued from the start, just as it is. */
  lemma {:induction false} TakenFrom(start: Table, o: Table, id: string, now: int, stored: map<string, StoredProposal>, provenNow: A.Fact -> bool)
    requires OnlySettled(start, o, {}, now, stored, provenNow) && id in QueuedIds(o)
    ensures id in start.rows && start.rows[id] == o.rows[id] && start.rows[id].status.Queued?
  {
    assert Settled(start.rows[id], o.rows[id], now, stored, provenNow);
  }

  lemma {:induction false} ExtendsItself(o: Table)
    ensures Extends(o, o)
  {
  }

  lemma {:induction false} NothingSettled(o: Table, now: int, stored: map<string, StoredProposal>, provenNow: A.Fact -> bool)
    ensures OnlySettled(o, o, {}, now, stored, provenNow)
  {
  }

  /** Nothing ready was passed over. */
  lemma {:induction false} NoneReadyBefore(start: Table, o: Table, id: string, now: int, stored: map<string, StoredProposal>, provenNow: A.Fact -> bool)
    requires OnlySettled(start, o, {id}, now, stored, provenNow) && NoneQueuedBefore(o, id)
    ensures forall x :: Ready(start, x, now, stored, provenNow) && x != id ==> Ordering.TextBefore(id, x)
  {
    forall x | Ready(start, x, now, stored, provenNow) && x != id
      ensures Ordering.TextBefore(id, x)
    {
      assert Settled(start.rows[x], o.rows[x], now, stored, provenNow);
    }
  }

  lemma {:induction false} NoneReady(start: Table, o: Table, now: int, stored: map<string, StoredProposal>, provenNow: A.Fact -> bool)
    requires OnlySettled(start, o, {}, now, stored, provenNow) && QueuedIds(o) == {}
    ensures forall x :: !Ready(start, x, now, stored, provenNow)
  {
    forall x | x in start.rows
      ensures !Ready(start, x, now, stored, provenNow)
    {
      assert Settled(start.rows[x], o.rows[x], now, stored, provenNow);
      assert x !in QueuedIds(o);
    }
  }

  class CalendarDispatch {
    var proposals: map<string, StoredProposal>
    const lifecycle: A.ProposalLifecycle
    const outbox: PostgresOutbox

    constructor (lifecycle: A.ProposalLifecycle, outbox: PostgresOutbox)
      ensures this.lifecycle == lifecycle && this.outbox == outbox && proposals == map[]
    {
      proposals, this.lifecycle, this.outbox := map[], lifecycle, outbox;
    }

    function State(): Cell
      reads this, lifecycle.consumption, outbox
    {
      Cell(proposals, lifecycle.consumption.consumed, outbox.State())
    }

    /** One transaction: consumes the approval, moves the proposal on and enqueues its job; if any
        part fails, none of it stays. */
    method Approve(fact: A.Fact, now: int) returns (r: Option<Job>)
      modifies this`proposals, lifecycle.consumption, outbox
      ensures r.Some? <==>
                && fact.proposal in old(proposals) && old(proposals)[fact.proposal].kind == "calendar.apply"
                && old(proposals)[fact.proposal].state.Proposed? && old(proposals)[fact.proposal].payload == fact.payload
                && !fact.isReset && fact.proven && fact.issued <= now < fact.expires
                && ("approve", fact.id) !in old(lifecycle.consumption.consumed)
                && ("approve-proposal", A.RoundKey(fact.proposal, Generation(old(lifecycle.consumption.consumed), fact.proposal)))
                   !in old(lifecycle.consumption.consumed)
                && ("approve-idempotency", fact.device + ":" + fact.idempotency) !in old(lifecycle.consumption.consumed)
                && fact.id !in old(outbox.rows) && fact.id !in old(outbox.records)
      ensures r.Some? ==>
                && proposals == old(proposals)[fact.proposal := old(proposals)[fact.proposal].(state := A.Approved)]
                && r.value == Job(fact.id, fact.proposal, fact.payload, fact, fact.expires, Queued, None, None, None)
                && outbox.rows == old(outbox.rows)[fact.id := r.value]
      ensures r.None? ==> State() == old(State())
      ensures State() == ApproveAndEnqueue(old(State()), fact, now)
    {
      hide A.Serve, Generation;
      if !IsCalendar(proposals, fact.proposal) {
        return None;
      }
      var stored := proposals[fact.proposal];
      var before := lifecycle.consumption.consumed;
      A.RefusedChangesNothing(before, A.Approve(RecordOf(fact.proposal, stored), fact, now));
      var answer := lifecycle.Handle(A.Approve(RecordOf(fact.proposal, stored), fact, now));
      if answer.Refused? {
        return None;
      }
      var job := JobFor(stored, fact);
      ghost var table := outbox.State();
      NotEnqueued(table, job, now);
      var queued := outbox.EnqueueJob(job, now);
      if !queued {
        lifecycle.consumption.consumed := before;
        return None;
      }
      proposals := proposals[fact.proposal := stored.(state := A.Approved)];
      return Some(job);
    }

    /** Claims jobs until one still holds, cancelling the others; ends because each claim takes a
        job off the queue. It hands on the first ready job in order of identity, if there is one,
        and settles those before it. */
    method ClaimVerified(now: int, provenNow: A.Fact -> bool) returns (r: Option<Job>)
      requires Sound(outbox.State())
      modifies outbox
      ensures Sound(outbox.State()) && Extends(old(outbox.State()), outbox.State())
      ensures r.None? ==> QueuedIds(outbox.State()) == {}
      ensures r.None? <==> !exists id :: Ready(old(outbox.State()), id, now, proposals, provenNow)
      ensures r.Some? ==>
                && r.value.id in outbox.rows && outbox.rows[r.value.id] == r.value && r.value.status.Running?
                && Ready(old(outbox.State()), r.value.id, now, proposals, provenNow)
                && forall id :: Ready(old(outbox.State()), id, now, proposals, provenNow) && id != r.value.id ==>
                     Ordering.TextBefore(r.value.id, id)
      ensures OnlySettled(old(outbox.State()), outbox.State(), if r.Some? then {r.value.id} else {}, now, proposals, provenNow)
    {
      hide Sound, Target, ClaimOf, QueuedIds, OnlySettled, CancelClaim, Extends, StillHolds, NoneQueuedBefore;
      ghost var start := outbox.State();
      NothingSettled(start, now, proposals, provenNow);
      ExtendsItself(start);
      while true
        invariant Sound(outbox.State()) && OnlySettled(start, outbox.State(), {}, now, proposals, provenNow) && Extends(start, outbox.State())
        decreases QueuedIds(outbox.State())
      {
        var token: nat := *;
        ghost var before := outbox.State();
        ClaimShrinksQueue(before, now, ClaimDuration, token, proposals, provenNow);
        ClaimKeeps(before, now, ClaimDuration, token);
        TargetIsClaimable(before, now);
        var claimed := outbox.Claim(now, ClaimDuration, token);
        ghost var held := outbox.State();
        ExtendsJoin(start, before, held);
        if claimed.NoJob? {
          SettleTwice(start, before, held, {}, now, proposals, provenNow);
          NoneReady(start, held, now, proposals, provenNow);
          return None;
        }
        var job := claimed.job;
        SettleTwice(start, before, held, {job.id}, now, proposals, provenNow);
        TakenFrom(start, before, job.id, now, proposals, provenNow);
        HandedHolds(proposals, before, now, ClaimDuration, token, provenNow);
        if StillHolds(proposals, job, now, provenNow) {
          NoneReadyBefore(start, held, job.id, now, proposals, provenNow);
          assert Ready(start, job.id, now, proposals, provenNow);
          return Some(job);
        }
        CancelSettles(start, held, job.id, token, now, proposals, provenNow);
        CancelKeeps(held, job.id, token, now);
        var cancelled := outbox.CancelJob(job.id, token, now);
        ExtendsJoin(start, held, outbox.State());
      }
    }
  }

  /** Being handed out does not change whether the job holds. */
  lemma {:induction false} HandedHolds(proposals: map<string, StoredProposal>, o: Table, now: int, duration: int, token: nat,
                                       provenNow: A.Fact -> bool)
    requires Sound(o)
    ensures Target(o, now).Some? ==>
              var t, after := Target(o, now).value, ClaimOf(o, Target(o, now), now, duration, token);
              && t in o.rows && t in after.rows
              && (StillHolds(proposals, after.rows[t], now, provenNow) <==> StillHolds(proposals, o.rows[t], now, provenNow))
  {
    hide Target;
    TargetIsClaimable(o, now);
  }

  lemma {:induction false} NotEnqueued(o: Table, job: Job, now: int)
    ensures !MayEnqueue(o, job) ==> Enqueue(o, job, now) == o
  {
  }
}
