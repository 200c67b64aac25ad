/** The calendar adapter as an object over the provider: syncing, applying with bounded retries,
    reconciling and rolling back. */
module CalendarAdapter {
  import opened Options
  import opened CalendarProvider
  import opened CalendarPlan

  datatype SyncState = SyncState(found: bool, token: Option<Token>, events: Events)

  const NoCalendar := SyncState(false, None, map[])

  function FullSync(p: Provider): SyncState
  {
    if p.created then SyncState(true, Some(Number(p.generation)), p.events) else NoCalendar
  }

  lemma {:induction false} FullSyncIs(p: Provider)
    ensures FullSync(p) == if p.created then SyncState(true, Some(Number(p.generation)), p.events) else SyncState(false, None, map[])
  {
  }

  /** A held token brings only the changes after it; without one, or with a stale one, everything. */
  function Synced(p: Provider, previous: Option<SyncState>): SyncState
  {
    var token := if previous.Some? then previous.value.token else None;
    if p.created && token.Some? && Accepts(p, token.value) then
      SyncState(true, Some(Number(p.generation)), Fold(previous.value.events, Since(p.changes, token.value.at)))
    else FullSync(p)
  }

  /** Incremental sync refines full sync: from a state synchronized at any earlier point of any
      history, the result is what a full sync gives. */
  lemma {:induction false} IncrementalIsFull(p: Provider, ops: seq<Op>)
    requires Valid(p)
    ensures Synced(Run(p, ops), Some(FullSync(p))) == FullSync(Run(p, ops))
  {
    RunKeepsValid(p, ops);
    if p.created {
      CatchUp(p, Run(p, ops));
    }
  }

  /** A client that syncs again and again, each time from its last state. */
  function Follow(p: Provider, held: Option<SyncState>, rounds: seq<seq<Op>>): (Provider, Option<SyncState>)
    decreases |rounds|
  {
    if rounds == [] then (p, held)
    else
      var q := Run(p, rounds[0]);
      Follow(q, Some(Synced(q, held)), rounds[1..])
  }

  lemma {:induction false} FollowingIsFull(p: Provider, held: Option<SyncState>, rounds: seq<seq<Op>>)
    requires Valid(p) && (held.None? || held == Some(FullSync(p)))
    ensures var (q, state) := Follow(p, held, rounds); rounds != [] ==> state == Some(FullSync(q))
    decreases |rounds|
  {
    if rounds != [] {
      var q := Run(p, rounds[0]);
      RunKeepsValid(p, rounds[0]);
      IncrementalIsFull(p, rounds[0]);
      FollowingIsFull(q, Some(Synced(q, held)), rounds[1..]);
    }
  }

  function DiffOf(owner: string, plan: Plan, events: Events, applying: bool): seq<Operation>
  {
    seq(|plan.drafts|, i requires 0 <= i < |plan.drafts| => Compare(owner, plan, events, plan.drafts[i], applying))
  }

  datatype ApplyResult =
    | ApplyDone(operations: seq<Operation>, state: SyncState, attempts: nat)
    | NotApproved
    | ApplyRefused(operation: Operation)
    | ApplyFailed(failure: Failure)

  datatype Rollback = Rollback(proposal: string, payload: seq<Draft>, expires: int)

  datatype RollbackResult =
    | RollbackDone(deleted: seq<EventId>, state: SyncState)
    | RollbackUnauthorized
    | RollbackFailed(failure: Failure)

  /** No fault is pending that outlasts the retries. */
  predicate Calm(p: Provider, maxAttempts: nat)
  {
    !p.revoked && p.writeFailures < maxAttempts && !p.interruptAfterWrite && !p.misreportWrite
  }

  class GoogleCalendarAdapter {
    const owner: string
    const maxAttempts: nat
    const transport: GoogleCalendarSandbox

    constructor (owner: string, maxAttempts: nat, transport: GoogleCalendarSandbox)
      requires 1 <= maxAttempts <= 5
      ensures this.owner == owner && this.maxAttempts == maxAttempts && this.transport == transport
    {
      this.owner, this.maxAttempts, this.transport := owner, maxAttempts, transport;
    }

    /** Folds a page into a table, event by event. */
    method FoldPage(base: Events, page: seq<Remote>) returns (table: Events)
      ensures table == Fold(base, page)
    {
      table := base;
      var i := 0;
      while i < |page|
        invariant 0 <= i <= |page|
        invariant table == Fold(base, page[..i])
      {
        var e := page[i];
        assert page[..i + 1] == page[..i] + [e];
        FoldSnoc(base, page[..i], e);
        if e.deleted {
          table := table - {e.id};
        } else {
          table := table[e.id := e];
        }
        i := i + 1;
      }
      assert page[..i] == page;
    }

    method Sync(previous: Option<SyncState>) returns (r: Result<SyncState>)
      requires Valid(transport.State())
      ensures r == if transport.revoked then Failed(Revoked) else Done(Synced(transport.State(), previous))
      ensures r.Done? ==> r.value.found == transport.created
      ensures r.Done? ==> r.value.token == if transport.created then Some(Number(transport.generation)) else None
      ensures r.Done? && previous.None? ==> r.value.events == if transport.created then transport.events else map[]
    {
      hide Valid, Lists, Fold, Since, Listing, FullSync;
      ListingLists(transport.State());
      FullSyncIs(transport.State());
      if transport.revoked {
        return Failed(Revoked);
      }
      if !transport.created {
        return Done(NoCalendar);
      }
      var token := if previous.Some? then previous.value.token else None;
      var answer := transport.SyncEvents(token);
      if answer == Failed(StaleToken) {
        answer := transport.SyncEvents(None);
      }
      var page := answer.value;
      var table := FoldPage(if page.full || previous.None? then map[] else previous.value.events, page.events);
      return Done(SyncState(true, Some(page.next), table));
    }

    method Diff(plan: Plan, events: Events, applying: bool) returns (operations: seq<Operation>)
      ensures operations == DiffOf(owner, plan, events, applying)
    {
      operations := [];
      var i := 0;
      while i < |plan.drafts|
        invariant 0 <= i <= |plan.drafts|
        invariant operations == DiffOf(owner, plan, events, applying)[..i]
      {
        operations := operations + [Compare(owner, plan, events, plan.drafts[i], applying)];
        i := i + 1;
      }
    }

    /** Upserts one event, trying again after a transient failure while attempts are left. */
    method WriteWithRetries(e: Remote) returns (r: Result<nat>, ghost committed: bool)
      requires Valid(transport.State()) && transport.created && !e.deleted && 1 <= maxAttempts
      modifies transport
      ensures Valid(transport.State()) && transport.created && transport.revoked == old(transport.revoked)
      ensures transport.events == if committed then Put(old(transport.events), e) else old(transport.events)
      ensures r.Done? ==> committed && r.value == old(transport.writeFailures) + 1 <= maxAttempts
      ensures r == Failed(Transient) ==> !committed && old(transport.writeFailures) >= maxAttempts
      ensures Calm(old(transport.State()), maxAttempts) ==> r.Done? && Calm(transport.State(), maxAttempts)
    {
      committed := false;
      var attempt := 1;
      while true
        invariant 1 <= attempt <= maxAttempts
        invariant Valid(transport.State()) && transport.created && transport.revoked == old(transport.revoked)
        invariant transport.events == old(transport.events) && !committed
        invariant attempt - 1 <= old(transport.writeFailures)
        invariant transport.writeFailures == old(transport.writeFailures) - (attempt - 1)
        invariant Calm(old(transport.State()), maxAttempts) ==>
                    !transport.revoked && !transport.interruptAfterWrite && !transport.misreportWrite
        decreases maxAttempts - attempt
      {
        WriteKeepsValid(transport.State(), e);
        committed := !transport.revoked && transport.writeFailures == 0;
        var answer := transport.WriteEvent(e);
        if answer == Failed(Transient) && attempt < maxAttempts {
          attempt := attempt + 1;
        } else {
          return (if answer.Done? then Done(attempt) else Failed(answer.failure)), committed;
        }
      }
    }

    /** The loop of apply over operations decided beforehand on the calendar's events. */
    method WriteDrafts(plan: Plan, operations: seq<Operation>) returns (r: Result<nat>, refused: Option<Operation>, ghost reached: nat)
      requires Valid(transport.State()) && transport.created && !transport.revoked && 1 <= maxAttempts
      requires operations == DiffOf(owner, plan, transport.events, true)
      modifies transport
      ensures Valid(transport.State()) && transport.created && !transport.revoked
      ensures reached <= |plan.drafts|
      ensures transport.events == Written(owner, plan, old(transport.events), reached)
      ensures Fits(owner, plan, old(transport.events), reached)
      ensures r.Done? && refused.None? ==> reached == |plan.drafts|
      ensures refused.Some? ==> r.Done? && reached < |plan.drafts| && refused.value == operations[reached] && Refuses(refused.value)
      ensures Calm(old(transport.State()), maxAttempts) ==> r.Done?
    {
      hide Valid, Compare, Put, Desired;
      ghost var start := transport.events;
      var attempts, i := 0, 0;
      reached := 0;
      while i < |plan.drafts|
        invariant 0 <= i <= |plan.drafts| && reached == i
        invariant Valid(transport.State()) && transport.created && !transport.revoked
        invariant transport.events == Written(owner, plan, start, i)
        invariant Fits(owner, plan, start, i)
        invariant Calm(old(transport.State()), maxAttempts) ==> Calm(transport.State(), maxAttempts)
      {
        assert operations[i] == Compare(owner, plan, start, plan.drafts[i], true);
        if Refuses(operations[i]) {
          return Done(attempts), Some(operations[i]), reached;
        }
        if Writes(operations[i]) {
          var outcome;
          ghost var committed;
          DesiredIsLive(owner, plan, plan.drafts[i]);
          outcome, committed := WriteWithRetries(Desired(owner, plan, plan.drafts[i]));
          if outcome.Failed? {
            reached := if committed then i + 1 else i;
            return Failed(outcome.failure), None, reached;
          }
          attempts := attempts + outcome.value;
        }
        i := i + 1;
        reached := i;
      }
      return Done(attempts), None, reached;
    }

    /** Applies an approved plan draft by draft. The operations are decided on the calendar as it
        was; wherever the run ends, the calendar is what the `reached` first drafts make of it. */
    method Apply(plan: Plan) returns (r: ApplyResult, ghost reached: nat)
      requires Valid(transport.State()) && 1 <= maxAttempts
      modifies transport
      ensures Valid(transport.State())
      ensures reached <= |plan.drafts|
      ensures transport.events == Written(owner, plan, old(transport.events), reached)
      ensures Fits(owner, plan, old(transport.events), reached)
      ensures r.NotApproved? <==> !plan.state.Approved?
      ensures r.NotApproved? ==> transport.State() == old(transport.State()) && reached == 0
      ensures r.ApplyDone? ==>
                && reached == |plan.drafts|
                && r.operations == DiffOf(owner, plan, old(transport.events), true)
                && r.state == FullSync(transport.State())
      ensures r.ApplyRefused? ==>
                && reached < |plan.drafts| && Refuses(r.operation)
                && r.operation == Compare(owner, plan, old(transport.events), plan.drafts[reached], true)
      ensures transport.events == old(transport.events) <==>
                forall i :: 0 <= i < reached ==> !Writes(Compare(owner, plan, old(transport.events), plan.drafts[i], true))
      ensures plan.state.Approved? && !old(transport.revoked) && old(transport.writeFailures) < maxAttempts
              && !old(transport.interruptAfterWrite) && !old(transport.misreportWrite) ==>
                && !r.ApplyFailed?
                && (r.ApplyDone? <==> TakesAll(old(transport.events), owner, plan))
      ensures r.ApplyDone? && ConsistentKeys(plan) ==> PublishesAll(transport.events, owner, plan)
    {
      hide Compare, Put, Desired, Refuses, Writes, TakesAll, PublishesAll, ConsistentKeys, Fold, Since, EventsOf, TellsApart;
      AllFit(owner, plan, transport.events);
      reached := 0;
      if !plan.state.Approved? {
        return NotApproved, reached;
      }
      if transport.revoked {
        return ApplyFailed(Revoked), reached;
      }
      if !transport.created {
        OpenKeepsValid(transport.State());
        var made := transport.CreateCalendar();
      }
      hide Valid;
      var synced := Sync(None);
      var operations := Diff(plan, synced.value.events, true);
      var attempts, refused;
      attempts, refused, reached := WriteDrafts(plan, operations);
      StoppedApplyIsClean(owner, plan, old(transport.events), reached);
      if attempts.Failed? {
        return ApplyFailed(attempts.failure), reached;
      }
      if refused.Some? {
        return ApplyRefused(refused.value), reached;
      }
      synced := Sync(None);
      if ConsistentKeys(plan) {
        CompletedExactly(owner, plan, old(transport.events), Named(""));
      }
      return ApplyDone(operations, synced.value, attempts.value), reached;
    }

    /** Compares without changing anything. */
    method Reconcile(plan: Plan, previous: Option<SyncState>) returns (r: Result<(seq<Operation>, SyncState)>)
      requires Valid(transport.State())
      ensures r == if transport.revoked then Failed(Revoked)
                   else var s := Synced(transport.State(), previous); Done((DiffOf(owner, plan, s.events, false), s))
    {
      var synced := Sync(previous);
      if synced.Failed? {
        return Failed(synced.failure);
      }
      var operations := Diff(plan, synced.value.events, false);
      return Done((operations, synced.value));
    }

    /** Deletes one event; deleting a missing one is no error. */
    method DeleteOne(id: EventId)
      requires Valid(transport.State()) && transport.created && !transport.revoked
      modifies transport
      ensures Valid(transport.State()) && transport.created && !transport.revoked
      ensures transport.events == old(transport.events) - {id}
    {
      DeleteKeepsValid(transport.State(), id);
      hide Valid;
      var answer := transport.DeleteEvent(id);
    }

    /** The loop of rollback over a listing of the calendar. */
    method DeleteTagged(plan: Plan, page: seq<Remote>) returns (deleted: seq<EventId>)
      requires Valid(transport.State()) && transport.created && !transport.revoked
      requires Lists(page, transport.events)
      modifies transport
      ensures Valid(transport.State()) && transport.created && !transport.revoked
      ensures transport.events == Remaining(owner, plan, old(transport.events))
      ensures deleted == TaggedIds(owner, plan, page)
    {
      ghost var start := transport.events;
      ListedIds(transport.State());
      RemainingIsRest(owner, plan, page, start);
      hide Valid, Tagged, Lists, Remaining, Less;
      deleted := [];
      NoneLess(start);
      var i := 0;
      while i < |page|
        invariant 0 <= i <= |page|
        invariant Valid(transport.State()) && transport.created && !transport.revoked
        invariant transport.events == Less(start, deleted)
        invariant deleted == TaggedIds(owner, plan, page[..i])
      {
        assert page[..i + 1][..i] == page[..i];
        if Tagged(owner, plan, page[i]) {
          OneLess(start, deleted, page[i].id);
          DeleteOne(page[i].id);
          deleted := deleted + [page[i].id];
        }
        i := i + 1;
      }
      assert page[..i] == page;
    }

    /** Deletes the events tagged with the plan's owner, proposal and payload, and no others. */
    method RollBack(plan: Plan, rollback: Rollback, now: int) returns (r: RollbackResult)
      requires Valid(transport.State())
      modifies transport
      ensures Valid(transport.State())
      ensures r.RollbackUnauthorized? <==>
                !(plan.state.Applied? && rollback.proposal == plan.proposal && rollback.payload == plan.drafts && now < rollback.expires)
      ensures r.RollbackDone? <==> !r.RollbackUnauthorized? && !old(transport.revoked)
      ensures transport.events == if r.RollbackDone? then Remaining(owner, plan, old(transport.events)) else old(transport.events)
      ensures forall id :: id in transport.events <==>
                id in old(transport.events) &&
                !(r.RollbackDone? && old(transport.events)[id].ownership.Some?
                  && old(transport.events)[id].ownership.value.owner == owner
                  && old(transport.events)[id].ownership.value.proposal == plan.proposal
                  && old(transport.events)[id].ownership.value.payload == plan.drafts)
      ensures r.RollbackDone? ==> r.state == FullSync(transport.State())
      ensures r.RollbackDone? ==> r.deleted == TaggedIds(owner, plan, Listing(old(transport.State())))
    {
      ListingLists(transport.State());
      if !plan.state.Applied? || rollback.proposal != plan.proposal || rollback.payload != plan.drafts || rollback.expires <= now {
        return RollbackUnauthorized;
      }
      if transport.revoked {
        return RollbackFailed(Revoked);
      }
      var deleted: seq<EventId> := [];
      if transport.created {
        var page := transport.ListEvents();
        deleted := DeleteTagged(plan, page);
      }
      var synced := Sync(None);
      return RollbackDone(deleted, synced.value);
    }
  }

  /** The identities of a page's events that carry the plan's tags, in the page's order. */
  function TaggedIds(owner: string, plan: Plan, page: seq<Remote>): seq<EventId>
  {
    if page == [] then []
    else
      var before := TaggedIds(owner, plan, page[..|page| - 1]);
      var e := page[|page| - 1];
      if Tagged(owner, plan, e) then before + [e.id] else before
  }

  lemma {:induction false} TaggedMembers(owner: string, plan: Plan, page: seq<Remote>, id: EventId)
    ensures id in TaggedIds(owner, plan, page) <==> exists i :: 0 <= i < |page| && Tagged(owner, plan, page[i]) && page[i].id == id
  {
    hide Tagged;
    if page != [] {
      var front, e := page[..|page| - 1], page[|page| - 1];
      TaggedMembers(owner, plan, front, id);
      if i :| 0 <= i < |front| && Tagged(owner, plan, front[i]) && front[i].id == id {
        assert page[i] == front[i];
      }
      if i :| 0 <= i < |page| && Tagged(owner, plan, page[i]) && page[i].id == id {
        assert i < |front| ==> front[i] == page[i];
      }
    }
  }

  /** The events without the listed identities. */
  function Less(events: Events, gone: seq<EventId>): Events { events - set x | x in gone }

  lemma {:induction false} NoneLess(events: Events)
    ensures Less(events, []) == events
  {
  }

  lemma {:induction false} OneLess(events: Events, gone: seq<EventId>, id: EventId)
    ensures Less(events, gone) - {id} == Less(events, gone + [id])
  {
  }

  /** Taking the tagged identities of a listing out of the calendar leaves what rollback leaves. */
  lemma {:induction false} RemainingIsRest(owner: string, plan: Plan, page: seq<Remote>, events: Events)
    requires Lists(page, events) && forall id :: id in events ==> events[id].id == id
    ensures Less(events, TaggedIds(owner, plan, page)) == Remaining(owner, plan, events)
  {
    hide Tagged;
    forall id | id in events
      ensures id in TaggedIds(owner, plan, page) <==> Tagged(owner, plan, events[id])
    {
      TaggedMembers(owner, plan, page, id);
      assert events[id] in page;
      var k :| 0 <= k < |page| && page[k] == events[id];
      if i :| 0 <= i < |page| && Tagged(owner, plan, page[i]) && page[i].id == id {
        assert page[i] in page;
      }
    }
  }

  lemma {:induction false} AllFit(owner: string, plan: Plan, events: Events)
    ensures Fits(owner, plan, events, |plan.drafts|) <==> TakesAll(events, owner, plan)
  {
    hide Takes;
    FitsExactly(owner, plan, events, |plan.drafts|);
  }

  lemma {:induction false} DesiredIsLive(owner: string, plan: Plan, d: Draft)
    ensures !Desired(owner, plan, d).deleted
  {
  }

  lemma {:induction false} OpenKeepsValid(p: Provider)
    requires Valid(p)
    ensures Valid(p.(created := true))
  {
  }

  lemma {:induction false} ListedIds(p: Provider)
    requires Valid(p)
    ensures forall id :: id in p.events ==> p.events[id].id == id
  {
  }
}
