/** Applying and rolling back an approved plan: what each does to the calendar's events, at
    every point where it may stop. */
module CalendarPlan {
  import opened Options
  import opened CalendarProvider

  datatype ProposalState = Pending | Approved | Applied | Reverted

  /** The plan's events are the authorized payload. */
  datatype Plan = Plan(proposal: string, drafts: seq<Draft>, state: ProposalState)

  type Events = map<EventId, Remote>

  datatype Operation = Insert | Update | Noop | ExternallyEdited | Missing | Conflicting

  function IdFor(owner: string, d: Draft): EventId { Derived(owner, d.key) }

  function TagsFor(owner: string, plan: Plan, d: Draft): Ownership
  {
    Ownership(owner, plan.proposal, plan.drafts, d.key)
  }

  /** A draft as the provider should hold it, its revision still to come. */
  function Desired(owner: string, plan: Plan, d: Draft): Remote
  {
    Remote(IdFor(owner, d), d.summary, d.starts, d.ends, Some(TagsFor(owner, plan, d)), 0, false)
  }

  predicate SameContent(found: Remote, desired: Remote)
  {
    && found.summary == desired.summary && found.starts == desired.starts && found.ends == desired.ends
    && found.ownership == desired.ownership
  }

  predicate OwnedBy(e: Remote, owner: string)
  {
    e.ownership.Some? && e.ownership.value.owner == owner
  }

  /** How a desired event compares with what the calendar holds under its identity. */
  function Compare(owner: string, plan: Plan, events: Events, d: Draft, applying: bool): Operation
  {
    var desired := Desired(owner, plan, d);
    if desired.id !in events then (if applying then Insert else Missing)
    else
      var found := events[desired.id];
      if !OwnedBy(found, owner) then Conflicting
      else if SameContent(found, desired) then Noop
      else if found.ownership.value.payload == plan.drafts then ExternallyEdited
      else if applying then Update else Conflicting
  }

  predicate Writes(op: Operation) { op.Insert? || op.Update? }

  predicate Refuses(op: Operation) { !Writes(op) && !op.Noop? }

  function Put(events: Events, e: Remote): Events
  {
    events[e.id := Stored(events, e)]
  }

  /** The events after the first `k` drafts. What to do with each was decided on `start`. */
  function Written(owner: string, plan: Plan, start: Events, k: nat): Events
    requires k <= |plan.drafts|
  {
    if k == 0 then start
    else
      var before := Written(owner, plan, start, k - 1);
      var d := plan.drafts[k - 1];
      if Writes(Compare(owner, plan, start, d, true)) then Put(before, Desired(owner, plan, d)) else before
  }

  /** Apply goes through: no draft meets a foreign or an edited event. */
  ghost predicate Fits(owner: string, plan: Plan, events: Events, k: nat)
    requires k <= |plan.drafts|
  {
    forall i :: 0 <= i < k ==> !Refuses(Compare(owner, plan, events, plan.drafts[i], true))
  }

  /** Drafts with equal keys are equal. */
  ghost predicate ConsistentKeys(plan: Plan)
  {
    forall i, j :: 0 <= i < |plan.drafts| && 0 <= j < |plan.drafts| && plan.drafts[i].key == plan.drafts[j].key ==>
      plan.drafts[i] == plan.drafts[j]
  }

  ghost predicate KeyAmong(plan: Plan, key: string, k: nat)
    requires k <= |plan.drafts|
  {
    exists j :: 0 <= j < k && plan.drafts[j].key == key
  }

  ghost predicate WellKeyed(events: Events)
  {
    forall id :: id in events ==> events[id].id == id && !events[id].deleted
  }

  /** The event carries exactly the draft's content and tags. */
  predicate Holds(events: Events, owner: string, plan: Plan, d: Draft)
  {
    IdFor(owner, d) in events && SameContent(events[IdFor(owner, d)], Desired(owner, plan, d))
  }

  // --------------------------------------------------------- in the events' fields

  /** The event is the draft as the owner publishes it for the plan. */
  ghost predicate Publishes(e: Remote, owner: string, plan: Plan, d: Draft)
  {
    && e.summary == d.summary && e.starts == d.starts && e.ends == d.ends
    && e.ownership == Some(Ownership(owner, plan.proposal, plan.drafts, d.key))
  }

  /** How each operation is told: by whether the draft's identity is taken, by whom, and for
      which payload. */
  lemma {:induction false} CompareExactly(owner: string, plan: Plan, events: Events, d: Draft, applying: bool)
    ensures var op, id := Compare(owner, plan, events, d, applying), Derived(owner, d.key);
            if id !in events then op == if applying then Insert else Missing
            else
              var e := events[id];
              && (op == Noop <==> Publishes(e, owner, plan, d))
              && (op == ExternallyEdited <==>
                    e.ownership.Some? && e.ownership.value.owner == owner && e.ownership.value.payload == plan.drafts
                    && !Publishes(e, owner, plan, d))
              && (op == Update <==>
                    applying && e.ownership.Some? && e.ownership.value.owner == owner && e.ownership.value.payload != plan.drafts)
              && (op == Conflicting <==>
                    || e.ownership.None? || e.ownership.value.owner != owner
                    || (!applying && e.ownership.value.payload != plan.drafts))
  {
  }

  /** The draft's identity is free, or this owner's with the draft's content and tags, or this
      owner's from another payload. */
  ghost predicate Takes(events: Events, owner: string, plan: Plan, d: Draft)
  {
    var id := Derived(owner, d.key);
    id in events ==>
      && events[id].ownership.Some? && events[id].ownership.value.owner == owner
      && (Publishes(events[id], owner, plan, d) || events[id].ownership.value.payload != plan.drafts)
  }

  ghost predicate TakesAll(events: Events, owner: string, plan: Plan)
  {
    forall i :: 0 <= i < |plan.drafts| ==> Takes(events, owner, plan, plan.drafts[i])
  }

  /** Every draft's identity holds it. */
  ghost predicate PublishesAll(events: Events, owner: string, plan: Plan)
  {
    forall i :: 0 <= i < |plan.drafts| ==>
      && Derived(owner, plan.drafts[i].key) in events
      && Publishes(events[Derived(owner, plan.drafts[i].key)], owner, plan, plan.drafts[i])
  }

  lemma {:induction false} FitsExactly(owner: string, plan: Plan, events: Events, k: nat)
    requires k <= |plan.drafts|
    ensures Fits(owner, plan, events, k) <==> forall i :: 0 <= i < k ==> Takes(events, owner, plan, plan.drafts[i])
  {
    forall i | 0 <= i < k
      ensures !Refuses(Compare(owner, plan, events, plan.drafts[i], true)) <==> Takes(events, owner, plan, plan.drafts[i])
    {
      CompareExactly(owner, plan, events, plan.drafts[i], true);
    }
    hide Compare, Refuses, Takes;
  }

  /** Once every draft went through, each is published, older events of the owner included; other
      identities hold what they held. */
  lemma {:induction false} CompletedExactly(owner: string, plan: Plan, start: Events, id: EventId)
    requires ConsistentKeys(plan) && TakesAll(start, owner, plan)
    ensures var done := Written(owner, plan, start, |plan.drafts|);
            && PublishesAll(done, owner, plan)
            && ((forall i :: 0 <= i < |plan.drafts| ==> Derived(owner, plan.drafts[i].key) != id) ==>
                  (id in done <==> id in start) && (id in start ==> done[id] == start[id]))
  {
    hide Takes, Written;
    FitsExactly(owner, plan, start, |plan.drafts|);
    forall i | 0 <= i < |plan.drafts|
      ensures var done := Written(owner, plan, start, |plan.drafts|);
              Derived(owner, plan.drafts[i].key) in done
              && Publishes(done[Derived(owner, plan.drafts[i].key)], owner, plan, plan.drafts[i])
    {
      AfterPrefix(owner, plan, start, |plan.drafts|, i);
      assert KeyAmong(plan, plan.drafts[i].key, |plan.drafts|);
    }
    if forall i :: 0 <= i < |plan.drafts| ==> Derived(owner, plan.drafts[i].key) != id {
      UntouchedStays(owner, plan, start, |plan.drafts|, id);
    }
  }

  // ------------------------------------------------------- what apply leaves alone

  /** An identity no draft below `k` has keeps its event. */
  lemma {:induction false} UntouchedStays(owner: string, plan: Plan, start: Events, k: nat, id: EventId)
    requires k <= |plan.drafts|
    requires forall j :: 0 <= j < k ==> IdFor(owner, plan.drafts[j]) != id
    ensures id in Written(owner, plan, start, k) <==> id in start
    ensures id in start ==> Written(owner, plan, start, k)[id] == start[id]
    decreases k
  {
    if k > 0 {
      UntouchedStays(owner, plan, start, k - 1, id);
    }
  }

  /** Events this owner did not tag never change, however far apply gets and whether or not it
      is refused. */
  lemma {:induction false} ForeignEventsStay(owner: string, plan: Plan, start: Events, k: nat, id: EventId)
    requires k <= |plan.drafts| && id in start && !OwnedBy(start[id], owner)
    ensures id in Written(owner, plan, start, k) && Written(owner, plan, start, k)[id] == start[id]
    decreases k
  {
    if k > 0 {
      ForeignEventsStay(owner, plan, start, k - 1, id);
    }
  }

  lemma {:induction false} WrittenWellKeyed(owner: string, plan: Plan, start: Events, k: nat)
    requires k <= |plan.drafts| && WellKeyed(start)
    ensures WellKeyed(Written(owner, plan, start, k))
    decreases k
  {
    if k > 0 {
      WrittenWellKeyed(owner, plan, start, k - 1);
    }
  }

  // ----------------------------------------------------------- stopping and resuming

  /** After `k` drafts of a plan with consistent keys, a draft whose key is among them is held
      exactly, and any other finds what it found at the start. */
  lemma {:induction false} AfterPrefix(owner: string, plan: Plan, start: Events, k: nat, i: nat)
    requires k <= |plan.drafts| && i < |plan.drafts| && ConsistentKeys(plan) && Fits(owner, plan, start, |plan.drafts|)
    ensures KeyAmong(plan, plan.drafts[i].key, k) ==> Holds(Written(owner, plan, start, k), owner, plan, plan.drafts[i])
    ensures !KeyAmong(plan, plan.drafts[i].key, k) ==>
              var id := IdFor(owner, plan.drafts[i]);
              && (id in Written(owner, plan, start, k) <==> id in start)
              && (id in start ==> Written(owner, plan, start, k)[id] == start[id])
    decreases k
  {
    var d := plan.drafts[i];
    if !KeyAmong(plan, d.key, k) {
      UntouchedStays(owner, plan, start, k, IdFor(owner, d));
    } else {
      AfterPrefix(owner, plan, start, k - 1, i);
      if plan.drafts[k - 1].key == d.key {
        assert plan.drafts[k - 1] == d;
      } else {
        assert KeyAmong(plan, d.key, k - 1);
      }
    }
  }

  /** What a second apply does after the first stopped at `k`: it skips the drafts whose key was
      reached and treats the others as the first would have. */
  lemma {:induction false} ResumedComparison(owner: string, plan: Plan, start: Events, k: nat, i: nat)
    requires k <= |plan.drafts| && i < |plan.drafts| && ConsistentKeys(plan) && Fits(owner, plan, start, |plan.drafts|)
    ensures Compare(owner, plan, Written(owner, plan, start, k), plan.drafts[i], true) ==
            if KeyAmong(plan, plan.drafts[i].key, k) then Noop else Compare(owner, plan, start, plan.drafts[i], true)
  {
    AfterPrefix(owner, plan, start, k, i);
  }

  /** Equal but for revisions. */
  ghost predicate SameContents(a: Events, b: Events)
  {
    a.Keys == b.Keys && forall id :: id in a ==> a[id].(revision := 0) == b[id].(revision := 0)
  }

  lemma {:induction false} CompletedEvent(owner: string, plan: Plan, start: Events, i: nat)
    requires i < |plan.drafts| && ConsistentKeys(plan) && Fits(owner, plan, start, |plan.drafts|) && WellKeyed(start)
    ensures var done := Written(owner, plan, start, |plan.drafts|); var id := IdFor(owner, plan.drafts[i]);
            id in done && done[id].(revision := 0) == Desired(owner, plan, plan.drafts[i])
  {
    AfterPrefix(owner, plan, start, |plan.drafts|, i);
    WrittenWellKeyed(owner, plan, start, |plan.drafts|);
    assert KeyAmong(plan, plan.drafts[i].key, |plan.drafts|);
  }

  /** Crash-idempotent apply: stopping after any prefix and applying again is not refused, ends
      with the contents of an uninterrupted run, and writes exactly the drafts not reached. */
  lemma {:induction false} StoppedApplyResumes(owner: string, plan: Plan, start: Events, k: nat)
    requires k <= |plan.drafts| && ConsistentKeys(plan) && Fits(owner, plan, start, |plan.drafts|) && WellKeyed(start)
    ensures var stopped := Written(owner, plan, start, k); var n := |plan.drafts|;
            && Fits(owner, plan, stopped, n)
            && SameContents(Written(owner, plan, stopped, n), Written(owner, plan, start, n))
            && forall i :: 0 <= i < n ==>
                 (Writes(Compare(owner, plan, stopped, plan.drafts[i], true)) <==>
                  Writes(Compare(owner, plan, start, plan.drafts[i], true)) && !KeyAmong(plan, plan.drafts[i].key, k))
  {
    var stopped, n := Written(owner, plan, start, k), |plan.drafts|;
    forall i | 0 <= i < n
      ensures !Refuses(Compare(owner, plan, stopped, plan.drafts[i], true))
      ensures Writes(Compare(owner, plan, stopped, plan.drafts[i], true)) <==>
              Writes(Compare(owner, plan, start, plan.drafts[i], true)) && !KeyAmong(plan, plan.drafts[i].key, k)
    {
      ResumedComparison(owner, plan, start, k, i);
    }
    WrittenWellKeyed(owner, plan, start, k);
    SameEnd(owner, plan, start, k);
  }

  lemma {:induction false} SameEnd(owner: string, plan: Plan, start: Events, k: nat)
    requires k <= |plan.drafts| && ConsistentKeys(plan) && WellKeyed(start)
    requires Fits(owner, plan, start, |plan.drafts|)
    requires WellKeyed(Written(owner, plan, start, k))
    requires Fits(owner, plan, Written(owner, plan, start, k), |plan.drafts|)
    ensures SameContents(Written(owner, plan, Written(owner, plan, start, k), |plan.drafts|),
                         Written(owner, plan, start, |plan.drafts|))
  {
    hide Fits, ConsistentKeys, WellKeyed, Written, Desired;
    var stopped, n := Written(owner, plan, start, k), |plan.drafts|;
    var a, b := Written(owner, plan, stopped, n), Written(owner, plan, start, n);
    forall id
      ensures id in a <==> id in b
      ensures id in a ==> a[id].(revision := 0) == b[id].(revision := 0)
    {
      if i :| 0 <= i < n && IdFor(owner, plan.drafts[i]) == id {
        CompletedEvent(owner, plan, start, i);
        CompletedEvent(owner, plan, stopped, i);
      } else {
        UntouchedStays(owner, plan, start, k, id);
        UntouchedStays(owner, plan, start, n, id);
        UntouchedStays(owner, plan, stopped, n, id);
      }
    }
  }

  /** Applying a fully applied plan again finds nothing to do exactly when its keys are
      consistent: of two different drafts with one key only one can be held. */
  lemma {:induction false} ReapplySettles(owner: string, plan: Plan, start: Events)
    requires Fits(owner, plan, start, |plan.drafts|)
    ensures (forall i :: 0 <= i < |plan.drafts| ==>
               Compare(owner, plan, Written(owner, plan, start, |plan.drafts|), plan.drafts[i], true).Noop?)
            <==> ConsistentKeys(plan)
  {
    var n := |plan.drafts|;
    var done := Written(owner, plan, start, n);
    if ConsistentKeys(plan) {
      forall i | 0 <= i < n
        ensures Compare(owner, plan, done, plan.drafts[i], true).Noop?
      {
        ResumedComparison(owner, plan, start, n, i);
        assert KeyAmong(plan, plan.drafts[i].key, n);
      }
    }
    if forall i :: 0 <= i < n ==> Compare(owner, plan, done, plan.drafts[i], true).Noop? {
      forall i, j | 0 <= i < n && 0 <= j < n && plan.drafts[i].key == plan.drafts[j].key
        ensures plan.drafts[i] == plan.drafts[j]
      {
        HeldDraft(owner, plan, done, plan.drafts[i]);
        HeldDraft(owner, plan, done, plan.drafts[j]);
      }
    }
  }

  lemma {:induction false} HeldDraft(owner: string, plan: Plan, events: Events, d: Draft)
    requires Compare(owner, plan, events, d, true).Noop?
    ensures IdFor(owner, d) in events
    ensures var e := events[IdFor(owner, d)]; d == Draft(d.key, e.summary, e.starts, e.ends)
  {
  }

  /** The failing case: one key with two contents. The second apply refuses what the first wrote. */
  lemma {:induction false} ClashingKeysRefuse(owner: string, proposal: string)
    ensures var plan := Plan(proposal, [Draft("k", "a", 0, 1), Draft("k", "b", 0, 1)], Approved);
            && Fits(owner, plan, map[], 2)
            && Compare(owner, plan, Written(owner, plan, map[], 2), plan.drafts[0], true).ExternallyEdited?
  {
    var plan := Plan(proposal, [Draft("k", "a", 0, 1), Draft("k", "b", 0, 1)], Approved);
    var none: Events := map[];
    var a, b := Draft("k", "a", 0, 1), Draft("k", "b", 0, 1);
    assert plan.drafts[0] == a && plan.drafts[1] == b;
    assert Compare(owner, plan, none, a, true).Insert? && Compare(owner, plan, none, b, true).Insert?;
    assert Written(owner, plan, none, 1) == Put(none, Desired(owner, plan, a));
    assert Written(owner, plan, none, 2) == Put(Written(owner, plan, none, 1), Desired(owner, plan, b));
    assert "b"[0] != "a"[0];
  }

  // ---------------------------------------------------------- what a refusal leaves

  /** Writing only moves revisions up. */
  lemma {:induction false} RevisionsGrow(owner: string, plan: Plan, start: Events, k: nat, id: EventId)
    requires k <= |plan.drafts| && id in start
    ensures id in Written(owner, plan, start, k) && start[id].revision <= Written(owner, plan, start, k)[id].revision
    decreases k
  {
    if k > 0 {
      RevisionsGrow(owner, plan, start, k - 1, id);
    }
  }

  /** A written draft adds its event or moves its revision. */
  lemma {:induction false} WrittenShows(owner: string, plan: Plan, start: Events, k: nat, i: nat)
    requires i < k <= |plan.drafts| && Writes(Compare(owner, plan, start, plan.drafts[i], true))
    ensures var id := IdFor(owner, plan.drafts[i]); var events := Written(owner, plan, start, k);
            id in events && (id in start ==> start[id].revision < events[id].revision)
    decreases k
  {
    var id := IdFor(owner, plan.drafts[i]);
    if i < k - 1 {
      WrittenShows(owner, plan, start, k - 1, i);
    } else if id in start {
      RevisionsGrow(owner, plan, start, k - 1, id);
    }
  }

  lemma {:induction false} NothingWritten(owner: string, plan: Plan, start: Events, k: nat)
    requires k <= |plan.drafts| && forall i :: 0 <= i < k ==> !Writes(Compare(owner, plan, start, plan.drafts[i], true))
    ensures Written(owner, plan, start, k) == start
    decreases k
  {
    if k > 0 {
      NothingWritten(owner, plan, start, k - 1);
    }
  }

  /** An apply that stopped at draft `k` left the calendar as it was exactly when none of the
      drafts before it was to be written; the preview of the plan shows which are. */
  lemma {:induction false} StoppedApplyIsClean(owner: string, plan: Plan, start: Events, k: nat)
    requires k <= |plan.drafts|
    ensures Written(owner, plan, start, k) == start <==>
            forall i :: 0 <= i < k ==> !Writes(Compare(owner, plan, start, plan.drafts[i], true))
  {
    if i :| 0 <= i < k && Writes(Compare(owner, plan, start, plan.drafts[i], true)) {
      WrittenShows(owner, plan, start, k, i);
    } else {
      NothingWritten(owner, plan, start, k);
    }
  }

  /** The failing case: the first draft is free, the second meets an event of somebody else. The
      first is written before the second is refused. */
  lemma {:induction false} RefusalMayFollowAWrite(owner: string, proposal: string, foreign: Remote)
    requires !OwnedBy(foreign, owner)
    ensures var plan := Plan(proposal, [Draft("a", "x", 0, 1), Draft("b", "y", 1, 2)], Approved);
            var start: Events := map[Derived(owner, "b") := foreign];
            && Writes(Compare(owner, plan, start, plan.drafts[0], true))
            && Refuses(Compare(owner, plan, start, plan.drafts[1], true))
            && Derived(owner, "a") !in start && Derived(owner, "a") in Written(owner, plan, start, 1)
  {
    var plan := Plan(proposal, [Draft("a", "x", 0, 1), Draft("b", "y", 1, 2)], Approved);
    var start: Events := map[Derived(owner, "b") := foreign];
    assert "a"[0] != "b"[0];
    assert Derived(owner, "a") != Derived(owner, "b");
    assert Compare(owner, plan, start, plan.drafts[0], true).Insert?;
    assert Compare(owner, plan, start, plan.drafts[1], true).Conflicting?;
    WrittenShows(owner, plan, start, 1, 0);
  }

  // ------------------------------------------------------------------- rolling back

  /** Rollback selects the events with the plan's owner, proposal and payload. */
  predicate Tagged(owner: string, plan: Plan, e: Remote)
  {
    e.ownership.Some? && e.ownership.value.owner == owner && e.ownership.value.proposal == plan.proposal &&
    e.ownership.value.payload == plan.drafts
  }

  function Remaining(owner: string, plan: Plan, events: Events): Events
  {
    events - set id | id in events && Tagged(owner, plan, events[id])
  }

  /** Every draft reached ends up tagged, unless it was refused. */
  lemma {:induction false} ReachedIsTagged(owner: string, plan: Plan, start: Events, k: nat, i: nat)
    requires i < k <= |plan.drafts| && Fits(owner, plan, start, k)
    ensures var id := IdFor(owner, plan.drafts[i]); var events := Written(owner, plan, start, k);
            id in events && Tagged(owner, plan, events[id])
    decreases k
  {
    var d, last := plan.drafts[i], plan.drafts[k - 1];
    if d.key != last.key {
      ReachedIsTagged(owner, plan, start, k - 1, i);
    } else if !Writes(Compare(owner, plan, start, last, true)) {
      NoopIsTagged(owner, plan, start, k - 1, last);
    }
  }

  /** A draft held from the start stays tagged while equal identities are skipped or rewritten. */
  lemma {:induction false} NoopIsTagged(owner: string, plan: Plan, start: Events, k: nat, d: Draft)
    requires k <= |plan.drafts| && IdFor(owner, d) in start && Tagged(owner, plan, start[IdFor(owner, d)])
    ensures var events := Written(owner, plan, start, k);
            IdFor(owner, d) in events && Tagged(owner, plan, events[IdFor(owner, d)])
    decreases k
  {
    if k > 0 {
      NoopIsTagged(owner, plan, start, k - 1, d);
    }
  }

  /** The calendar holds none of the first `k` drafts' identities and no event of this plan. */
  ghost predicate Clean(owner: string, plan: Plan, start: Events, k: nat)
    requires k <= |plan.drafts|
  {
    && (forall i :: 0 <= i < k ==> IdFor(owner, plan.drafts[i]) !in start)
    && (forall id :: id in start ==> !Tagged(owner, plan, start[id]))
  }

  /** Rolling back undoes an apply that reached `k` drafts exactly when the calendar started clean. */
  lemma {:induction false} RollbackUndoesApply(owner: string, plan: Plan, start: Events, k: nat)
    requires k <= |plan.drafts| && Fits(owner, plan, start, k)
    ensures Remaining(owner, plan, Written(owner, plan, start, k)) == start <==> Clean(owner, plan, start, k)
  {
    var events := Written(owner, plan, start, k);
    var left := Remaining(owner, plan, events);
    if left == start {
      forall i | 0 <= i < k
        ensures IdFor(owner, plan.drafts[i]) !in start
      {
        ReachedIsTagged(owner, plan, start, k, i);
      }
    }
    if Clean(owner, plan, start, k) {
      forall id
        ensures id in left <==> id in start
        ensures id in left ==> left[id] == start[id]
      {
        RollbackAt(owner, plan, start, k, id);
      }
    }
  }

  lemma {:induction false} RollbackAt(owner: string, plan: Plan, start: Events, k: nat, id: EventId)
    requires k <= |plan.drafts| && Fits(owner, plan, start, k) && Clean(owner, plan, start, k)
    ensures var left := Remaining(owner, plan, Written(owner, plan, start, k));
            (id in left <==> id in start) && (id in left ==> left[id] == start[id])
  {
    if i :| 0 <= i < k && IdFor(owner, plan.drafts[i]) == id {
      ReachedIsTagged(owner, plan, start, k, i);
    } else {
      UntouchedStays(owner, plan, start, k, id);
    }
  }

  /** A clean calendar fits every plan. */
  lemma {:induction false} CleanFits(owner: string, plan: Plan, start: Events, k: nat)
    requires k <= |plan.drafts| && Clean(owner, plan, start, k)
    ensures Fits(owner, plan, start, k)
  {
  }

  /** Rollback never touches an event this owner did not tag. */
  lemma {:induction false} RollbackKeepsForeign(owner: string, plan: Plan, events: Events, id: EventId)
    requires id in events && !OwnedBy(events[id], owner)
    ensures id in Remaining(owner, plan, events) && Remaining(owner, plan, events)[id] == events[id]
  {
  }
}
