/** Recovery of an approved proposal whose apply was interrupted: reconcile first, and give the
    authority back only when the calendar shows no trace of it. */
module DurableRecovery {
  import opened Options
  import opened CalendarProvider
  import opened CalendarPlan
  import opened CalendarAdapter
  import opened CalendarRecovery
  import opened Consumption
  import A = Authority

  /** How drafts are written as a payload and read back; the text format itself is left open. */
  datatype Codec = Codec(read: string -> Option<seq<Draft>>, write: seq<Draft> -> string)

  /** The plan a stored proposal stands for: its events read from the payload, under its identity.
      There is none when the payload is no event list or not in the form the drafts are written. */
  function PlanFor(codec: Codec, record: A.ProposalRecord): Option<Plan>
  {
    match codec.read(record.payload)
    case None => None
    case Some(drafts) => if codec.write(drafts) == record.payload then Some(Plan(record.id, drafts, Approved)) else None
  }

  datatype Recovery =
    | Recovered(verdict: Verdict, state: A.State)
    | NotRecoverable
    | BadPayload
    | ProviderFailed(failure: Failure)
    | ResetReplayed

  /** The state a verdict leaves the proposal in. */
  function StateAfter(verdict: Verdict): A.State
  {
    match verdict
    case FullyApplied => A.Applied
    case NothingApplied => A.Proposed
    case PartlyApplied => A.Approved
    case Uncertain => A.Approved
  }

  /** Two proposals have the same plan only if they have the same identity and payload. */
  lemma {:induction false} PlanDeterminesRecord(codec: Codec, a: A.ProposalRecord, b: A.ProposalRecord)
    requires PlanFor(codec, a).Some? && PlanFor(codec, a) == PlanFor(codec, b)
    ensures a.id == b.id && a.payload == b.payload
  {
  }

  lemma {:induction false} NothingExactly(owner: string, plan: Plan, events: Events)
    ensures VerdictOf(owner, plan, events).NothingApplied? <==>
            && plan.drafts != []
            && (forall i :: 0 <= i < |plan.drafts| ==> Derived(owner, plan.drafts[i].key) !in events)
            && (forall id :: id in events && events[id].ownership.Some? ==> events[id].ownership.value.proposal != plan.proposal)
  {
    hide VerdictOf;
    ResetIsTrue(owner, plan, events);
  }

  lemma {:induction false} PlanIsRecords(codec: Codec, record: A.ProposalRecord)
    ensures PlanFor(codec, record).Some? ==> PlanFor(codec, record).value.proposal == record.id
  {
  }

  /** Runs under the execution lock. The plan is the stored proposal's own. The calendar is only
      read; a key is consumed only by a reset, which answers for the very proposal that the
      calendar shows no trace of. */
  method Recover(adapter: GoogleCalendarAdapter, codec: Codec, lifecycle: A.ProposalLifecycle,
                 record: A.ProposalRecord, fact: A.Fact, now: int) returns (r: Recovery)
    requires Valid(adapter.transport.State())
    modifies lifecycle.consumption
    ensures r.NotRecoverable? <==>
              !(record.state.Approved? && fact.proven && fact.proposal == record.id && fact.payload == record.payload
                && fact.issued <= now < fact.expires)
    ensures r.BadPayload? <==> !r.NotRecoverable? && PlanFor(codec, record).None?
    ensures r.ProviderFailed? <==> !r.NotRecoverable? && !r.BadPayload? && adapter.transport.revoked
    ensures r.Recovered? || r.ResetReplayed? ==> PlanFor(codec, record).Some?
    ensures r.Recovered? || r.ResetReplayed? ==>
              var owner, plan, events := adapter.owner, PlanFor(codec, record).value, FullSync(adapter.transport.State()).events;
              && (r.Recovered? && r.state.Applied? <==>
                    !Disturbed(owner, plan, events)
                    && forall i :: 0 <= i < |plan.drafts| ==> Derived(owner, plan.drafts[i].key) in events)
              && (r.ResetReplayed? || r.state.Proposed? <==>
                    plan.drafts != []
                    && (forall i :: 0 <= i < |plan.drafts| ==> Derived(owner, plan.drafts[i].key) !in events)
                    && (forall id :: id in events && events[id].ownership.Some? ==> events[id].ownership.value.proposal != record.id))
    ensures r.Recovered? ==>
              && r.verdict == VerdictOf(adapter.owner, PlanFor(codec, record).value, FullSync(adapter.transport.State()).events)
              && (r.state.Applied? || r.state.Proposed? || r.state.Approved?)
    ensures r.Recovered? && r.state.Proposed? ==>
              (lifecycle.consumption.consumed, true) == A.Serve(old(lifecycle.consumption.consumed), A.Reset(record, fact, now, true))
    ensures r.ResetReplayed? ==> !A.Serve(old(lifecycle.consumption.consumed), A.Reset(record, fact, now, true)).1
    ensures !(r.Recovered? && r.state.Proposed?) ==> lifecycle.consumption.consumed == old(lifecycle.consumption.consumed)
  {
    hide VerdictOf, Disturbed, A.Serve, FullSync, Valid, IdFor, Carries, PlanFor, Generation, A.RoundKey;
    if !record.state.Approved? || !A.ValidApproval(record, fact, now) {
      return NotRecoverable;
    }
    var planned := PlanFor(codec, record);
    if planned.None? {
      return BadPayload;
    }
    var plan := planned.value;
    PlanIsRecords(codec, record);
    var report := Classify(adapter, plan);
    if report.Failed? {
      return ProviderFailed(report.failure);
    }
    ghost var events := FullSync(adapter.transport.State()).events;
    VerdictExactly(adapter.owner, plan, events);
    NothingExactly(adapter.owner, plan, events);
    if report.value.NothingApplied? {
      var answer := lifecycle.Handle(A.Reset(record, fact, now, true));
      A.RefusedChangesNothing(old(lifecycle.consumption.consumed), A.Reset(record, fact, now, true));
      if answer.Refused? {
        return ResetReplayed;
      }
    }
    return Recovered(report.value, StateAfter(report.value));
  }
}
