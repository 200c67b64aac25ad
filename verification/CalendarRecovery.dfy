/** Recovery of an interrupted apply: what the reconciliation verdict says about the calendar. */
module CalendarRecovery {
  import opened Options
  import opened CalendarProvider
  import opened CalendarPlan
  import opened CalendarAdapter

  datatype Verdict = FullyApplied | NothingApplied | PartlyApplied | Uncertain

  predicate Carries(e: Remote, proposal: string)
  {
    e.ownership.Some? && e.ownership.value.proposal == proposal
  }

  predicate Expected(owner: string, plan: Plan, id: EventId)
  {
    exists i :: 0 <= i < |plan.drafts| && IdFor(owner, plan.drafts[i]) == id
  }

  /** An event carries the proposal's identity without being one of the plan's. */
  predicate HasStray(owner: string, plan: Plan, events: Events)
  {
    exists id :: id in events && Carries(events[id], plan.proposal) && !Expected(owner, plan, id)
  }

  predicate Clashes(owner: string, plan: Plan, events: Events)
  {
    (exists op :: op in DiffOf(owner, plan, events, false) && !op.Noop? && !op.Missing?) || HasStray(owner, plan, events)
  }

  /** The verdict drawn from a reconciliation. */
  function VerdictOf(owner: string, plan: Plan, events: Events): Verdict
  {
    var operations := DiffOf(owner, plan, events, false);
    if Clashes(owner, plan, events) then Uncertain
    else if Missing !in operations then FullyApplied
    else if Noop !in operations then NothingApplied
    else PartlyApplied
  }

  /** Reads the calendar once and classifies what it finds. */
  method Classify(adapter: GoogleCalendarAdapter, plan: Plan) returns (r: Result<Verdict>)
    requires Valid(adapter.transport.State())
    ensures r == if adapter.transport.revoked then Failed(Revoked)
                 else Done(VerdictOf(adapter.owner, plan, FullSync(adapter.transport.State()).events))
  {
    var report := adapter.Reconcile(plan, None);
    if report.Failed? {
      return Failed(report.failure);
    }
    return Done(VerdictOf(adapter.owner, plan, report.value.1.events));
  }

  // ------------------------------------------------------------ verdicts are true

  lemma {:induction false} NoopIsHeld(owner: string, plan: Plan, events: Events, d: Draft)
    ensures Compare(owner, plan, events, d, false).Noop? <==> Holds(events, owner, plan, d)
    ensures Compare(owner, plan, events, d, false).Missing? <==> IdFor(owner, d) !in events
  {
  }

  lemma {:induction false} OperationAt(owner: string, plan: Plan, events: Events, i: nat)
    requires i < |plan.drafts|
    ensures Compare(owner, plan, events, plan.drafts[i], false) in DiffOf(owner, plan, events, false)
  {
    assert DiffOf(owner, plan, events, false)[i] == Compare(owner, plan, events, plan.drafts[i], false);
  }

  /** "Applied" exactly when every approved event is present with its exact content and tags and
      no other event carries the proposal's identity. */
  lemma {:induction false} AppliedIsTrue(owner: string, plan: Plan, events: Events)
    ensures VerdictOf(owner, plan, events).FullyApplied? <==>
            && (forall i :: 0 <= i < |plan.drafts| ==> Holds(events, owner, plan, plan.drafts[i]))
            && !HasStray(owner, plan, events)
  {
    var operations := DiffOf(owner, plan, events, false);
    forall i | 0 <= i < |plan.drafts|
      ensures operations[i].Noop? <==> Holds(events, owner, plan, plan.drafts[i])
    {
      NoopIsHeld(owner, plan, events, plan.drafts[i]);
    }
    if VerdictOf(owner, plan, events).FullyApplied? {
      forall i | 0 <= i < |plan.drafts|
        ensures Holds(events, owner, plan, plan.drafts[i])
      {
        OperationAt(owner, plan, events, i);
      }
    }
  }

  /** "Reset" exactly when the plan has events, none of them is there, and nothing anywhere in
      the calendar carries the proposal's identity. */
  lemma {:induction false} ResetIsTrue(owner: string, plan: Plan, events: Events)
    ensures VerdictOf(owner, plan, events).NothingApplied? <==>
            && plan.drafts != []
            && (forall i :: 0 <= i < |plan.drafts| ==> IdFor(owner, plan.drafts[i]) !in events)
            && (forall id :: id in events ==> !Carries(events[id], plan.proposal))
  {
    var operations := DiffOf(owner, plan, events, false);
    forall i | 0 <= i < |plan.drafts|
      ensures operations[i].Missing? <==> IdFor(owner, plan.drafts[i]) !in events
      ensures operations[i] in operations
    {
      NoopIsHeld(owner, plan, events, plan.drafts[i]);
    }
    if VerdictOf(owner, plan, events).NothingApplied? {
      forall i | 0 <= i < |plan.drafts|
        ensures operations[i].Missing?
      {
        assert operations[i] in operations;
      }
      assert forall id :: id in events ==> !Expected(owner, plan, id);
    }
    if plan.drafts != [] && (forall i :: 0 <= i < |plan.drafts| ==> IdFor(owner, plan.drafts[i]) !in events) {
      assert operations[0] == Missing;
      assert forall op :: op in operations ==> op.Missing?;
    }
  }

  /** A draft's identity is taken by something else than the draft, or an event elsewhere carries
      the proposal's identity. */
  ghost predicate Disturbed(owner: string, plan: Plan, events: Events)
  {
    || (exists i :: 0 <= i < |plan.drafts| && Derived(owner, plan.drafts[i].key) in events
                    && !Publishes(events[Derived(owner, plan.drafts[i].key)], owner, plan, plan.drafts[i]))
    || (exists id :: id in events && events[id].ownership.Some? && events[id].ownership.value.proposal == plan.proposal
                     && forall i :: 0 <= i < |plan.drafts| ==> Derived(owner, plan.drafts[i].key) != id)
  }

  /** The four verdicts in the calendar's fields: uncertain exactly when the calendar is
      disturbed; else applied when every draft is published, nothing applied when there are
      drafts and none is, and partly applied in between. */
  lemma {:induction false} VerdictExactly(owner: string, plan: Plan, events: Events)
    ensures VerdictOf(owner, plan, events) ==
            if Disturbed(owner, plan, events) then Uncertain
            else if forall i :: 0 <= i < |plan.drafts| ==> Derived(owner, plan.drafts[i].key) in events then FullyApplied
            else if forall i :: 0 <= i < |plan.drafts| ==> Derived(owner, plan.drafts[i].key) !in events then NothingApplied
            else PartlyApplied
  {
    hide Clashes, Disturbed, DiffOf;
    ClashesExactly(owner, plan, events);
    if !Clashes(owner, plan, events) {
      OnlyNoopsAndMissing(owner, plan, events);
    }
  }

  /** Where nothing clashes: an operation is missing when some identity is free, and a noop when
      some identity is taken. */
  lemma {:induction false} OnlyNoopsAndMissing(owner: string, plan: Plan, events: Events)
    requires !Clashes(owner, plan, events)
    ensures Missing in DiffOf(owner, plan, events, false) <==>
            exists i :: 0 <= i < |plan.drafts| && Derived(owner, plan.drafts[i].key) !in events
    ensures Noop in DiffOf(owner, plan, events, false) <==>
            exists i :: 0 <= i < |plan.drafts| && Derived(owner, plan.drafts[i].key) in events
  {
    hide Compare, HasStray;
    var operations, n := DiffOf(owner, plan, events, false), |plan.drafts|;
    forall i | 0 <= i < n
      ensures operations[i] in operations && (operations[i] == Noop || operations[i] == Missing)
      ensures operations[i] == Missing <==> Derived(owner, plan.drafts[i].key) !in events
    {
      assert operations[i] in operations;
      CompareExactly(owner, plan, events, plan.drafts[i], false);
    }
    if Missing in operations {
      var i :| 0 <= i < n && operations[i] == Missing;
    }
    if Noop in operations {
      var i :| 0 <= i < n && operations[i] == Noop;
    }
  }

  lemma {:induction false} ClashesExactly(owner: string, plan: Plan, events: Events)
    ensures Clashes(owner, plan, events) <==> Disturbed(owner, plan, events)
  {
    hide HasStray, DiffOf, Publishes;
    StrayExactly(owner, plan, events);
    OtherOperations(owner, plan, events);
  }

  lemma {:induction false} OtherOperations(owner: string, plan: Plan, events: Events)
    ensures (exists op :: op in DiffOf(owner, plan, events, false) && !op.Noop? && !op.Missing?) <==>
            exists i :: 0 <= i < |plan.drafts| && Derived(owner, plan.drafts[i].key) in events
                        && !Publishes(events[Derived(owner, plan.drafts[i].key)], owner, plan, plan.drafts[i])
  {
    hide Compare, Publishes;
    var operations, n := DiffOf(owner, plan, events, false), |plan.drafts|;
    forall i | 0 <= i < n
      ensures operations[i] in operations
      ensures operations[i] != Noop && operations[i] != Missing <==>
              Derived(owner, plan.drafts[i].key) in events
              && !Publishes(events[Derived(owner, plan.drafts[i].key)], owner, plan, plan.drafts[i])
    {
      assert operations[i] in operations;
      CompareExactly(owner, plan, events, plan.drafts[i], false);
    }
    if op :| op in operations && !op.Noop? && !op.Missing? {
      var i :| 0 <= i < n && operations[i] == op;
    }
  }

  lemma {:induction false} StrayExactly(owner: string, plan: Plan, events: Events)
    ensures HasStray(owner, plan, events) <==>
            exists id :: id in events && events[id].ownership.Some? && events[id].ownership.value.proposal == plan.proposal
                         && forall i :: 0 <= i < |plan.drafts| ==> Derived(owner, plan.drafts[i].key) != id
  {
    if HasStray(owner, plan, events) {
      var id :| id in events && Carries(events[id], plan.proposal) && !Expected(owner, plan, id);
      forall i | 0 <= i < |plan.drafts|
        ensures Derived(owner, plan.drafts[i].key) != id
      {
        assert IdFor(owner, plan.drafts[i]) == Derived(owner, plan.drafts[i].key);
      }
    }
    if id :| id in events && events[id].ownership.Some? && events[id].ownership.value.proposal == plan.proposal
             && forall i :: 0 <= i < |plan.drafts| ==> Derived(owner, plan.drafts[i].key) != id {
      assert Carries(events[id], plan.proposal) && !Expected(owner, plan, id);
    }
  }

  // ------------------------------------------------------- after an interrupted apply

  /** The last of the first `k` drafts with a key: the one whose content is in the calendar. */
  function LastDraft(plan: Plan, k: nat, key: string): Option<Draft>
    requires k <= |plan.drafts|
  {
    if k == 0 then None
    else if plan.drafts[k - 1].key == key then Some(plan.drafts[k - 1])
    else LastDraft(plan, k - 1, key)
  }

  /** Nothing of the proposal is in the calendar yet. */
  ghost predicate Untouched(owner: string, plan: Plan, start: Events)
  {
    && (forall i :: 0 <= i < |plan.drafts| ==> IdFor(owner, plan.drafts[i]) !in start)
    && (forall id :: id in start ==> !Carries(start[id], plan.proposal))
  }

  lemma {:induction false} EventAfterWrites(owner: string, plan: Plan, start: Events, k: nat, i: nat)
    requires k <= |plan.drafts| && i < |plan.drafts| && Untouched(owner, plan, start)
    ensures var last := LastDraft(plan, k, plan.drafts[i].key); var id := IdFor(owner, plan.drafts[i]);
            var events := Written(owner, plan, start, k);
            && (last.None? <==> id !in events)
            && (last.Some? ==> last.value.key == plan.drafts[i].key && SameContent(events[id], Desired(owner, plan, last.value)))
    decreases k
  {
    if k > 0 {
      EventAfterWrites(owner, plan, start, k - 1, i);
      assert Compare(owner, plan, start, plan.drafts[k - 1], true).Insert?;
    }
  }

  /** Each draft's operation after `k` clean writes. */
  lemma {:induction false} OperationAfterWrites(owner: string, plan: Plan, start: Events, k: nat, i: nat)
    requires k <= |plan.drafts| && i < |plan.drafts| && Untouched(owner, plan, start)
    ensures Compare(owner, plan, Written(owner, plan, start, k), plan.drafts[i], false) ==
            var last := LastDraft(plan, k, plan.drafts[i].key);
            if last.None? then Missing else if last.value == plan.drafts[i] then Noop else ExternallyEdited
  {
    EventAfterWrites(owner, plan, start, k, i);
  }

  lemma {:induction false} NoStrayAfterWrites(owner: string, plan: Plan, start: Events, k: nat, id: EventId)
    requires k <= |plan.drafts| && Untouched(owner, plan, start)
    ensures var events := Written(owner, plan, start, k);
            id in events && Carries(events[id], plan.proposal) ==> Expected(owner, plan, id)
    decreases k
  {
    if k > 0 {
      NoStrayAfterWrites(owner, plan, start, k - 1, id);
    }
  }

  ghost predicate Current(plan: Plan, k: nat, i: nat)
    requires k <= |plan.drafts| && i < |plan.drafts|
  {
    LastDraft(plan, k, plan.drafts[i].key) == Some(plan.drafts[i])
  }

  ghost predicate Overwritten(plan: Plan, k: nat, i: nat)
    requires k <= |plan.drafts| && i < |plan.drafts|
  {
    LastDraft(plan, k, plan.drafts[i].key).Some? && !Current(plan, k, i)
  }

  /** The verdict after `k` clean writes of any plan: uncertain when a draft's key was written
      with another content, applied when every draft is the last of its key, nothing applied
      when nothing was written of something, and partial otherwise. */
  lemma {:induction false} VerdictAfterWrites(owner: string, plan: Plan, start: Events, k: nat)
    requires k <= |plan.drafts| && Untouched(owner, plan, start)
    ensures var n := |plan.drafts|;
            VerdictOf(owner, plan, Written(owner, plan, start, k)) ==
            if exists i :: 0 <= i < n && Overwritten(plan, k, i) then Uncertain
            else if forall i :: 0 <= i < n ==> Current(plan, k, i) then FullyApplied
            else if k == 0 then NothingApplied
            else PartlyApplied
  {
    var events, n := Written(owner, plan, start, k), |plan.drafts|;
    var operations := DiffOf(owner, plan, events, false);
    forall i | 0 <= i < n
      ensures operations[i] == (if Current(plan, k, i) then Noop else if Overwritten(plan, k, i) then ExternallyEdited else Missing)
    {
      OperationAfterWrites(owner, plan, start, k, i);
    }
    assert !HasStray(owner, plan, events) by {
      forall id | id in events && Carries(events[id], plan.proposal)
        ensures Expected(owner, plan, id)
      {
        NoStrayAfterWrites(owner, plan, start, k, id);
      }
    }
    VerdictFromOperations(owner, plan, events, k);
  }

  lemma {:induction false} VerdictFromOperations(owner: string, plan: Plan, events: Events, k: nat)
    requires k <= |plan.drafts| && !HasStray(owner, plan, events)
    requires forall i :: 0 <= i < |plan.drafts| ==>
               DiffOf(owner, plan, events, false)[i] ==
               if Current(plan, k, i) then Noop else if Overwritten(plan, k, i) then ExternallyEdited else Missing
    ensures var n := |plan.drafts|;
            VerdictOf(owner, plan, events) ==
            if exists i :: 0 <= i < n && Overwritten(plan, k, i) then Uncertain
            else if forall i :: 0 <= i < n ==> Current(plan, k, i) then FullyApplied
            else if k == 0 then NothingApplied
            else PartlyApplied
  {
    hide HasStray, Compare;
    var operations, n := DiffOf(owner, plan, events, false), |plan.drafts|;
    if i :| 0 <= i < n && Overwritten(plan, k, i) {
      assert operations[i].ExternallyEdited? && operations[i] in operations;
    } else {
      assert forall op :: op in operations ==> op.Noop? || op.Missing?;
      if j :| 0 <= j < n && !Current(plan, k, j) {
        assert operations[j] == Missing;
        if k > 0 {
          SomeLast(plan, k, 0);
          assert operations[0] == Noop;
        } else {
          assert forall i :: 0 <= i < n ==> operations[i] == Missing;
        }
      }
    }
  }

  lemma {:induction false} SomeLast(plan: Plan, k: nat, i: nat)
    requires i < k <= |plan.drafts|
    ensures LastDraft(plan, k, plan.drafts[i].key).Some?
    decreases k
  {
    if i < k - 1 {
      SomeLast(plan, k - 1, i);
    }
  }

  ghost predicate DistinctKeys(plan: Plan)
  {
    forall i, j :: 0 <= i < j < |plan.drafts| ==> plan.drafts[i].key != plan.drafts[j].key
  }

  lemma {:induction false} LastOfDistinct(plan: Plan, k: nat, i: nat)
    requires k <= |plan.drafts| && i < |plan.drafts| && DistinctKeys(plan)
    ensures LastDraft(plan, k, plan.drafts[i].key) == if i < k then Some(plan.drafts[i]) else None
    decreases k
  {
    if k > 0 && i != k - 1 {
      LastOfDistinct(plan, k - 1, i);
    }
  }

  /** With distinct keys the verdict counts the writes: all of them, none of several, or some. */
  lemma {:induction false} VerdictCountsWrites(owner: string, plan: Plan, start: Events, k: nat)
    requires k <= |plan.drafts| && Untouched(owner, plan, start) && DistinctKeys(plan)
    ensures VerdictOf(owner, plan, Written(owner, plan, start, k)) ==
            if k == |plan.drafts| then FullyApplied else if k == 0 then NothingApplied else PartlyApplied
  {
    forall i | 0 <= i < |plan.drafts|
      ensures Current(plan, k, i) <==> i < k
      ensures !Overwritten(plan, k, i)
    {
      LastOfDistinct(plan, k, i);
    }
    VerdictAfterWrites(owner, plan, start, k);
    if k < |plan.drafts| {
      assert !Current(plan, k, k);
    }
  }
}
