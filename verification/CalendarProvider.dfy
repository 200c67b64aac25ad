/** The calendar provider: one app-owned calendar, its change log and its sync tokens, with the
    failures a caller has to survive. */
module CalendarProvider {
  import opened Options
  import opened Ordering

  datatype Draft = Draft(key: string, summary: string, starts: int, ends: int)

  /** Event identities: the adapter derives one from its owner and the draft's key by an injective
      hash; other events have identities of their own. */
  datatype EventId = Derived(owner: string, key: string) | Named(name: string)

  /** Private tags of an event. The payload hash is injective, so it is the payload itself. */
  datatype Ownership = Ownership(owner: string, proposal: string, payload: seq<Draft>, key: string)

  datatype Remote = Remote(
    id: EventId, summary: string, starts: int, ends: int,
    ownership: Option<Ownership>, revision: nat, deleted: bool)

  datatype Change = Change(version: nat, event: Remote)

  datatype Failure = Revoked | Refused | Transient | Interrupted | StaleToken

  datatype Result<+T> = Done(value: T) | Failed(failure: Failure)

  /** `text` writes an identity out, which decides the order of listings; `primary` are the events
      of the protected primary calendar. */
  datatype Provider = Provider(
    text: EventId -> string, revoked: bool, created: bool, primary: map<EventId, Remote>, events: map<EventId, Remote>,
    changes: seq<Change>, generation: nat, minimumToken: nat,
    writeFailures: nat, interruptAfterWrite: bool, misreportWrite: bool)

  function Empty(text: EventId -> string, primary: map<EventId, Remote>): Provider
  {
    Provider(text, false, false, primary, map[], [], 0, 0, 0, false, false)
  }

  /** A token is a number or text that is none. */
  datatype Token = Number(at: int) | Malformed

  datatype Page = Page(events: seq<Remote>, next: Token, full: bool)

  // ----------------------------------------------------------------- operations

  function Record(p: Provider, e: Remote): Provider
  {
    p.(events := p.events[e.id := e], generation := p.generation + 1,
       changes := p.changes + [Change(p.generation + 1, e)])
  }

  /** What a write stores: the event with its revision moved on. */
  function Stored(events: map<EventId, Remote>, e: Remote): Remote
  {
    e.(revision := if e.id in events then events[e.id].revision + 1 else 1)
  }

  /** One write request. An answer that names another calendar counts as refused: callers
      compare the answer with what they sent. */
  function Write(p: Provider, e: Remote): (Provider, Result<Remote>)
  {
    if p.revoked then (p, Failed(Revoked))
    else if !p.created then (p, Failed(Refused))
    else if p.writeFailures > 0 then (p.(writeFailures := p.writeFailures - 1), Failed(Transient))
    else
      var stored := Stored(p.events, e);
      var q := Record(p, stored);
      if p.interruptAfterWrite then (q.(interruptAfterWrite := false), Failed(Interrupted))
      else if p.misreportWrite then (q.(misreportWrite := false), Failed(Refused))
      else (q, Done(stored))
  }

  function Delete(p: Provider, id: EventId): (Provider, Result<()>)
  {
    if p.revoked then (p, Failed(Revoked))
    else if !p.created then (p, Failed(Refused))
    else if id !in p.events then (p, Done(()))
    else
      var tombstone := p.events[id].(deleted := true, revision := p.events[id].revision + 1);
      (p.(events := p.events - {id}, generation := p.generation + 1,
          changes := p.changes + [Change(p.generation + 1, tombstone)]), Done(()))
  }

  /** Someone edits a title; the private tags stay. */
  function ExternalEdit(p: Provider, id: EventId, summary: string): Provider
  {
    if !p.created || id !in p.events then p
    else Record(p, p.events[id].(summary := summary, revision := p.events[id].revision + 1))
  }

  function ExpireTokens(p: Provider): Provider { p.(minimumToken := p.generation) }

  predicate Accepts(p: Provider, t: Token)
  {
    t.Number? && p.minimumToken <= t.at <= p.generation
  }

  function Since(changes: seq<Change>, at: int): seq<Remote>
  {
    if changes == [] then []
    else
      var rest := Since(changes[..|changes| - 1], at);
      var last := changes[|changes| - 1];
      if last.version > at then rest + [last.event] else rest
  }

  /** Folds events into a table: a deleted one leaves it, any other replaces its entry. */
  function Fold(table: map<EventId, Remote>, events: seq<Remote>): map<EventId, Remote>
  {
    if events == [] then table
    else
      var before := Fold(table, events[..|events| - 1]);
      var e := events[|events| - 1];
      if e.deleted then before - {e.id} else before[e.id := e]
  }

  function EventsOf(changes: seq<Change>): seq<Remote>
  {
    seq(|changes|, i requires 0 <= i < |changes| => changes[i].event)
  }

  /** The change log tells the whole story of the calendar. */
  ghost predicate Valid(p: Provider)
  {
    && p.generation == |p.changes| && p.minimumToken <= p.generation
    && (forall i :: 0 <= i < |p.changes| ==> p.changes[i].version == i + 1)
    && p.events == Fold(map[], EventsOf(p.changes))
    && (forall id :: id in p.events ==> p.events[id].id == id && !p.events[id].deleted)
    && (!p.created ==> p.changes == [])
    && TellsApart(p.text)
  }

  /** Different identities are written differently. */
  ghost predicate TellsApart(text: EventId -> string)
  {
    forall a, b :: text(a) == text(b) ==> a == b
  }

  function ListingKey(text: EventId -> string): Remote -> Key
  {
    (e: Remote) => Key(0, 0, text(e.id))
  }

  function EventSet(events: map<EventId, Remote>): set<Remote> { set id | id in events :: events[id] }

  lemma {:induction false} ListingKeyInjective(p: Provider)
    requires Valid(p)
    ensures InjectiveOn(ListingKey(p.text), EventSet(p.events))
  {
    forall x, y | x in EventSet(p.events) && y in EventSet(p.events) && x != y
      ensures ListingKey(p.text)(x) != ListingKey(p.text)(y)
    {
      assert p.events[x.id] == x && p.events[y.id] == y;
    }
  }

  /** The whole calendar in the order of the written identities. */
  ghost function Listing(p: Provider): seq<Remote>
    requires Valid(p)
  {
    ListingKeyInjective(p);
    SortedOf(ListingKey(p.text), EventSet(p.events))
  }

  ghost predicate Lists(page: seq<Remote>, events: map<EventId, Remote>)
  {
    forall e :: e in page <==> e.id in events && events[e.id] == e
  }

  lemma {:induction false} FoldKeys(page: seq<Remote>, id: EventId)
    requires forall i :: 0 <= i < |page| ==> !page[i].deleted
    ensures id in Fold(map[], page) <==> exists i :: 0 <= i < |page| && page[i].id == id
    ensures id in Fold(map[], page) ==> Fold(map[], page)[id] in page
  {
    if page != [] {
      FoldKeys(page[..|page| - 1], id);
      assert page == page[..|page| - 1] + [page[|page| - 1]];
    }
  }

  /** Folding any listing of a calendar gives the calendar. */
  lemma {:induction false} ListedFolds(page: seq<Remote>, events: map<EventId, Remote>)
    requires Lists(page, events) && forall id :: id in events ==> events[id].id == id && !events[id].deleted
    ensures Fold(map[], page) == events
  {
    var folded := Fold(map[], page);
    forall id
      ensures id in folded <==> id in events
      ensures id in folded ==> folded[id] == events[id]
    {
      FoldKeys(page, id);
      if id in events {
        assert events[id] in page;
        var i :| 0 <= i < |page| && page[i] == events[id];
      }
      if i :| 0 <= i < |page| && page[i].id == id {
        assert page[i] in page;
      }
      if id in folded {
        FoldIds(page, id);
      }
    }
  }

  lemma {:induction false} FoldIds(page: seq<Remote>, id: EventId)
    requires id in Fold(map[], page)
    ensures Fold(map[], page)[id].id == id
  {
    if page != [] {
      var front, e := page[..|page| - 1], page[|page| - 1];
      if id != e.id {
        FoldIds(front, id);
      }
    }
  }

  lemma {:induction false} ListingLists(p: Provider)
    requires Valid(p)
    ensures Lists(Listing(p), p.events) && Fold(map[], Listing(p)) == p.events
  {
    ListingKeyInjective(p);
    var page := Listing(p);
    forall e
      ensures e in page <==> e.id in p.events && p.events[e.id] == e
    {
      assert e in page <==> e in Elements(page);
    }
    ListedFolds(page, p.events);
  }

  // ------------------------------------------------------------------- the class

  class GoogleCalendarSandbox {
    const text: EventId -> string
    var revoked: bool
    var created: bool
    const primary: map<EventId, Remote>
    var events: map<EventId, Remote>
    var changes: seq<Change>
    var generation: nat
    var minimumToken: nat
    var writeFailures: nat
    var interruptAfterWrite: bool
    var misreportWrite: bool

    constructor (text: EventId -> string, primary: map<EventId, Remote>)
      ensures State() == Empty(text, primary)
    {
      this.text, this.primary := text, primary;
      revoked, created, events, changes, generation, minimumToken := false, false, map[], [], 0, 0;
      writeFailures, interruptAfterWrite, misreportWrite := 0, false, false;
    }

    function State(): Provider
      reads this
    {
      Provider(text, revoked, created, primary, events, changes, generation, minimumToken,
               writeFailures, interruptAfterWrite, misreportWrite)
    }

    method CreateCalendar() returns (r: Result<()>)
      modifies this
      ensures State() == if old(revoked) then old(State()) else old(State()).(created := true)
      ensures r == if old(revoked) then Failed(Revoked) else Done(())
    {
      if revoked {
        return Failed(Revoked);
      }
      created := true;
      return Done(());
    }

    method WriteEvent(e: Remote) returns (r: Result<Remote>)
      modifies this
      ensures (State(), r) == Write(old(State()), e)
      ensures events == if !old(revoked) && old(created) && old(writeFailures) == 0
                        then old(events)[e.id := e.(revision := if e.id in old(events) then old(events)[e.id].revision + 1 else 1)]
                        else old(events)
      ensures r.Done? <==> !old(revoked) && old(created) && old(writeFailures) == 0
                           && !old(interruptAfterWrite) && !old(misreportWrite)
      ensures r == Failed(Transient) <==> !old(revoked) && old(created) && old(writeFailures) > 0
    {
      if revoked {
        return Failed(Revoked);
      }
      if !created {
        return Failed(Refused);
      }
      if writeFailures > 0 {
        writeFailures := writeFailures - 1;
        return Failed(Transient);
      }
      var revision := if e.id in events then events[e.id].revision + 1 else 1;
      var stored := e.(revision := revision);
      events := events[stored.id := stored];
      generation := generation + 1;
      changes := changes + [Change(generation, stored)];
      if interruptAfterWrite {
        interruptAfterWrite := false;
        return Failed(Interrupted);
      }
      if misreportWrite {
        misreportWrite := false;
        return Failed(Refused);
      }
      return Done(stored);
    }

    method DeleteEvent(id: EventId) returns (r: Result<()>)
      modifies this
      ensures (State(), r) == Delete(old(State()), id)
      ensures r.Done? <==> !old(revoked) && old(created)
      ensures events == if r.Done? then old(events) - {id} else old(events)
    {
      if revoked {
        return Failed(Revoked);
      }
      if !created {
        return Failed(Refused);
      }
      if id !in events {
        return Done(());
      }
      var tombstone := events[id].(deleted := true, revision := events[id].revision + 1);
      events := events - {id};
      generation := generation + 1;
      changes := changes + [Change(generation, tombstone)];
      return Done(());
    }

    /** Collects the events and sorts them by identity. */
    method ListEvents() returns (page: seq<Remote>)
      requires Valid(State())
      ensures page == Listing(State())
    {
      ListingKeyInjective(State());
      var all: seq<Remote> := [];
      var left := EventSet(events);
      while left != {}
        invariant left <= EventSet(events)
        invariant Elements(all) + left == EventSet(events) && Elements(all) !! left
        invariant DistinctKeys(ListingKey(text), all)
        decreases left
      {
        var e :| e in left;
        OneMoreEvent(text, all, e, EventSet(events));
        all := all + [e];
        left := left - {e};
      }
      SortIsSortedOf(ListingKey(text), all, EventSet(events));
      page := Sort(ListingKey(text), all);
    }

    /** A full listing without a token; the changes after it with one; stale tokens are refused. */
    method SyncEvents(token: Option<Token>) returns (r: Result<Page>)
      requires Valid(State())
      ensures revoked ==> r == Failed(Revoked)
      ensures !revoked && !created ==> r == Failed(Refused)
      ensures !revoked && created && token.None? ==>
                r == Done(Page(Listing(State()), Number(generation), true))
      ensures !revoked && created && token.Some? ==>
                r == if token.value.Number? && minimumToken <= token.value.at <= generation
                     then Done(Page(Since(changes, token.value.at), Number(generation), false))
                     else Failed(StaleToken)
    {
      if revoked {
        return Failed(Revoked);
      }
      if !created {
        return Failed(Refused);
      }
      if token.None? {
        var page := ListEvents();
        return Done(Page(page, Number(generation), true));
      }
      if token.value.Malformed? || token.value.at < minimumToken || token.value.at > generation {
        return Failed(StaleToken);
      }
      return Done(Page(Since(changes, token.value.at), Number(generation), false));
    }
  }

  lemma {:induction false} OneMoreEvent(text: EventId -> string, all: seq<Remote>, e: Remote, whole: set<Remote>)
    requires DistinctKeys(ListingKey(text), all) && InjectiveOn(ListingKey(text), whole)
    requires Elements(all) <= whole && e in whole && e !in Elements(all)
    ensures DistinctKeys(ListingKey(text), all + [e]) && Elements(all + [e]) == Elements(all) + {e}
  {
    forall i | 0 <= i < |all|
      ensures ListingKey(text)(all[i]) != ListingKey(text)(e)
    {
      assert all[i] in Elements(all);
    }
    assert forall x :: x in all + [e] <==> x in Elements(all) || x == e;
  }

  // ------------------------------------------------------------ the log is exact

  lemma {:induction false} FoldSnoc(table: map<EventId, Remote>, events: seq<Remote>, e: Remote)
    ensures Fold(table, events + [e]) ==
            if e.deleted then Fold(table, events) - {e.id} else Fold(table, events)[e.id := e]
  {
    assert (events + [e])[..|events|] == events;
  }

  lemma {:induction false} FoldConcat(table: map<EventId, Remote>, a: seq<Remote>, b: seq<Remote>)
    ensures Fold(table, a + b) == Fold(Fold(table, a), b)
    decreases |b|
  {
    if b == [] {
      assert a + b == a;
    } else {
      var front, e := b[..|b| - 1], b[|b| - 1];
      assert (a + b)[..|a + b| - 1] == a + front;
      FoldConcat(table, a, front);
    }
  }

  lemma {:induction false} RecordKeepsValid(p: Provider, e: Remote)
    requires Valid(p) && p.created && !e.deleted
    ensures Valid(Record(p, e))
  {
    assert EventsOf(p.changes + [Change(p.generation + 1, e)]) == EventsOf(p.changes) + [e];
    FoldSnoc(map[], EventsOf(p.changes), e);
  }

  lemma {:induction false} DeleteKeepsValid(p: Provider, id: EventId)
    requires Valid(p)
    ensures Valid(Delete(p, id).0)
  {
    if !p.revoked && p.created && id in p.events {
      var tombstone := p.events[id].(deleted := true, revision := p.events[id].revision + 1);
      assert EventsOf(p.changes + [Change(p.generation + 1, tombstone)]) == EventsOf(p.changes) + [tombstone];
      FoldSnoc(map[], EventsOf(p.changes), tombstone);
    }
  }

  // -------------------------------------------------------- histories and syncing

  datatype Op =
    | CreateOp
    | WriteOp(event: Remote)
    | DeleteOp(id: EventId)
    | EditOp(id: EventId, summary: string)
    | ExpireOp
    | FaultOp(failures: nat, interrupt: bool, misreport: bool)
    | RevokeOp

  function Do(p: Provider, op: Op): Provider
  {
    match op
    case CreateOp => p.(created := true)
    case WriteOp(e) => Write(p, e.(deleted := false)).0
    case DeleteOp(id) => Delete(p, id).0
    case EditOp(id, summary) => ExternalEdit(p, id, summary)
    case ExpireOp => ExpireTokens(p)
    case FaultOp(n, interrupt, misreport) =>
      p.(writeFailures := n, interruptAfterWrite := interrupt, misreportWrite := misreport)
    case RevokeOp => p.(revoked := true)
  }

  function Run(p: Provider, ops: seq<Op>): Provider
    decreases |ops|
  {
    if ops == [] then p else Run(Do(p, ops[0]), ops[1..])
  }

  lemma {:induction false} WriteKeepsValid(p: Provider, e: Remote)
    requires Valid(p) && !e.deleted
    ensures Valid(Write(p, e).0) && p.changes <= Write(p, e).0.changes
  {
    if !p.revoked && p.created && p.writeFailures == 0 {
      RecordKeepsValid(p, Stored(p.events, e));
    }
  }

  lemma {:induction false} EditKeepsValid(p: Provider, id: EventId, summary: string)
    requires Valid(p)
    ensures Valid(ExternalEdit(p, id, summary)) && p.changes <= ExternalEdit(p, id, summary).changes
  {
    if p.created && id in p.events {
      RecordKeepsValid(p, p.events[id].(summary := summary, revision := p.events[id].revision + 1));
    }
  }

  lemma {:induction false} StepKeepsValid(p: Provider, op: Op)
    requires Valid(p)
    ensures Valid(Do(p, op)) && p.changes <= Do(p, op).changes && (p.created ==> Do(p, op).created)
  {
    match op
    case WriteOp(e) => WriteKeepsValid(p, e.(deleted := false));
    case DeleteOp(id) => DeleteKeepsValid(p, id);
    case EditOp(id, summary) => EditKeepsValid(p, id, summary);
    case _ =>
  }

  lemma {:induction false} RunKeepsValid(p: Provider, ops: seq<Op>)
    requires Valid(p)
    ensures Valid(Run(p, ops)) && p.changes <= Run(p, ops).changes && (p.created ==> Run(p, ops).created)
    decreases |ops|
  {
    if ops != [] {
      StepKeepsValid(p, ops[0]);
      RunKeepsValid(Do(p, ops[0]), ops[1..]);
    }
  }

  lemma {:induction false} SinceIsSuffix(changes: seq<Change>, at: nat)
    requires forall i :: 0 <= i < |changes| ==> changes[i].version == i + 1
    requires at <= |changes|
    ensures Since(changes, at) == EventsOf(changes[at..])
  {
    if at < |changes| {
      var n := |changes| - 1;
      SinceIsSuffix(changes[..n], at);
      assert changes[at..] == changes[..n][at..] + [changes[n]];
      assert EventsOf(changes[at..]) == EventsOf(changes[..n][at..]) + [changes[n].event];
    } else {
      NoneSince(changes, at);
    }
  }

  lemma {:induction false} NoneSince(changes: seq<Change>, at: nat)
    requires forall i :: 0 <= i < |changes| ==> changes[i].version <= at
    ensures Since(changes, at) == []
  {
    if changes != [] {
      NoneSince(changes[..|changes| - 1], at);
    }
  }

  /** Folding the changes after a point onto what the calendar held then gives what it holds now. */
  lemma {:induction false} CatchUp(p: Provider, later: Provider)
    requires Valid(p) && Valid(later) && p.changes <= later.changes
    ensures Fold(p.events, Since(later.changes, p.generation)) == later.events
  {
    var g := p.generation;
    SinceIsSuffix(later.changes, g);
    assert later.changes == p.changes + later.changes[g..];
    assert EventsOf(later.changes) == EventsOf(p.changes) + EventsOf(later.changes[g..]);
    FoldConcat(map[], EventsOf(p.changes), EventsOf(later.changes[g..]));
  }

  // ------------------------------------------------------------------------ tokens

  /** Tokens were expired at the `i`-th operation, after the calendar had changed past `at`. */
  ghost predicate ExpiredPast(p: Provider, ops: seq<Op>, at: nat, i: nat)
  {
    i < |ops| && ops[i].ExpireOp? && Run(p, ops[..i]).generation > at
  }

  lemma {:induction false} ExpiredLater(p: Provider, ops: seq<Op>, at: nat, i: nat)
    requires ops != [] && 0 < i
    ensures ExpiredPast(p, ops, at, i) <==> ExpiredPast(Do(p, ops[0]), ops[1..], at, i - 1)
  {
    hide Do;
    if i < |ops| {
      assert ops[..i][1..] == ops[1..][..i - 1];
    }
  }

  lemma {:induction false} MinimumTokenMeans(p: Provider, ops: seq<Op>, at: nat)
    requires Valid(p)
    ensures Run(p, ops).minimumToken <= at <==> p.minimumToken <= at && forall i: nat :: !ExpiredPast(p, ops, at, i)
    decreases |ops|
  {
    hide Valid, ExpiredPast;
    if ops == [] {
      NoOperations(p, at);
    } else {
      var q := Do(p, ops[0]);
      StepKeepsValid(p, ops[0]);
      MinimumTokenMeans(q, ops[1..], at);
      ExpiredFirst(p, ops, at);
      forall i: nat | 0 < i
        ensures ExpiredPast(p, ops, at, i) <==> ExpiredPast(q, ops[1..], at, i - 1)
      {
        ExpiredLater(p, ops, at, i);
      }
      if i: nat :| ExpiredPast(q, ops[1..], at, i) {
        ExpiredLater(p, ops, at, i + 1);
      }
      MinimumOnlyExpires(p, ops[0]);
    }
  }

  lemma {:induction false} NoOperations(p: Provider, at: nat)
    ensures forall i: nat :: !ExpiredPast(p, [], at, i)
  {
  }

  lemma {:induction false} ExpiredFirst(p: Provider, ops: seq<Op>, at: nat)
    requires ops != []
    ensures ExpiredPast(p, ops, at, 0) <==> ops[0].ExpireOp? && p.generation > at
  {
  }

  lemma {:induction false} MinimumOnlyExpires(p: Provider, op: Op)
    requires Valid(p)
    ensures Do(p, op).minimumToken == if op.ExpireOp? then p.generation else p.minimumToken
    ensures p.minimumToken <= p.generation <= Do(p, op).generation
  {
    hide Fold, TellsApart, EventsOf, Since;
  }

  /** A token taken at one point of a history is accepted later exactly when tokens were never
      expired after a change made since. */
  lemma {:induction false} TokenAcceptedExactly(p: Provider, ops: seq<Op>)
    requires Valid(p)
    ensures Accepts(Run(p, ops), Number(p.generation)) <==>
            !exists i: nat :: i < |ops| && ops[i].ExpireOp? && Run(p, ops[..i]).generation != p.generation
  {
    hide Valid;
    RunKeepsValid(p, ops);
    ValidBounds(p);
    ValidBounds(Run(p, ops));
    MinimumTokenMeans(p, ops, p.generation);
    forall i: nat | i < |ops|
      ensures p.generation <= Run(p, ops[..i]).generation
    {
      RunKeepsValid(p, ops[..i]);
      ValidBounds(Run(p, ops[..i]));
    }
    if i: nat :| i < |ops| && ops[i].ExpireOp? && Run(p, ops[..i]).generation != p.generation {
      assert ExpiredPast(p, ops, p.generation, i);
    }
  }

  lemma {:induction false} ValidBounds(p: Provider)
    requires Valid(p)
    ensures p.generation == |p.changes| && p.minimumToken <= p.generation
  {
  }

  /** A listing is in the order of the written identities. */
  lemma {:induction false} ListingAscends(p: Provider, i: nat, j: nat)
    requires Valid(p) && i < j < |Listing(p)|
    ensures TextBefore(p.text(Listing(p)[i].id), p.text(Listing(p)[j].id))
  {
    ListingKeyInjective(p);
    assert Before(ListingKey(p.text)(Listing(p)[i]), ListingKey(p.text)(Listing(p)[j]));
  }
}
