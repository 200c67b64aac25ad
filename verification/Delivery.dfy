/** Delivery end to end: one device's outbox, an unreliable network and the relay store. Requests
    and responses may be lost, delayed or repeated, the server may reject, and the device may
    stop between the two writes of an acknowledgment. */
module Delivery {
  import opened Options
  import opened Journal
  import S = RelayStore
  import opened Outbox

  /** What the server answers to a batch it committed. */
  datatype Ack = Ack(batch: seq<Event>, ids: seq<Uuid>, next: int)

  /** `mine` are the conversations only this device writes. `issued` is the history of every event
      the device created, in order; `requests` and `acks` hold everything ever put on the network. */
  datatype System = System(
    device: Uuid, mine: set<Uuid>, server: S.Store, box: Box, issued: seq<Event>,
    requests: set<seq<Event>>, acks: set<Ack>, acknowledging: Option<seq<Event>>)

  function IdsOf(batch: seq<Event>): seq<Uuid>
  {
    seq(|batch|, i requires 0 <= i < |batch| => batch[i].id)
  }

  /** The device's test of an answer: the same identities and a cursor past the batch. */
  predicate Trusts(batch: seq<Event>, ack: Ack)
  {
    ack.batch == batch && ack.ids == IdsOf(batch) && ack.next > MaxSequence(batch)
  }

  /** In fields: the answer is to this batch, lists its identities in order, and its number is past
      every event of it. */
  lemma {:induction false} TrustsExactly(batch: seq<Event>, ack: Ack)
    ensures Trusts(batch, ack) <==>
            && ack.batch == batch && |ack.ids| == |batch| && (forall i :: 0 <= i < |batch| ==> ack.ids[i] == batch[i].id)
            && 0 < ack.next && (forall e :: e in batch ==> e.sequence < ack.next)
  {
    BeyondAll(batch);
  }

  /** A number is past the batch when it is past each of its events. */
  lemma {:induction false} BeyondAll(events: seq<Event>)
    ensures forall e :: e in events ==> e.sequence <= MaxSequence(events)
    ensures MaxSequence(events) == 0 || exists e :: e in events && e.sequence == MaxSequence(events)
    ensures MaxSequence(events) >= 0
  {
    MaxSequenceBound(events);
    if events != [] {
      var front := events[..|events| - 1];
      BeyondAll(front);
      assert events == front + [events[|events| - 1]];
    }
  }

  datatype Step =
    | Issue(event: Event)
    | Flush(batch: seq<Event>)
    | Handle(batch: seq<Event>)
    | PersistCursor(ack: Ack)
    | RemoveFromQueue
    | Crash
    | Other(step: S.Step)

  predicate ForeignStep(sys: System, step: S.Step)
  {
    step.AppendStep? ==> step.conversation !in sys.mine
  }

  ghost predicate Enabled(sys: System, step: Step)
  {
    match step
    case Issue(e) =>
      && sys.acknowledging.None?
      && e.device == sys.device && e.conversation in sys.mine
      && e.id !in Ids(sys.issued)
      && e.sequence == NextSequence(sys.box, e.conversation)
    case Flush(batch) => sys.acknowledging.None? && IsBatch(sys.box.queue, batch)
    case Handle(batch) => batch in sys.requests && batch != []
    case PersistCursor(ack) => sys.acknowledging.None? && ack in sys.acks && Trusts(ack.batch, ack)
    case RemoveFromQueue => sys.acknowledging.Some?
    case Crash => true
    case Other(step) => ForeignStep(sys, step)
  }

  /** What the network, the device and the others may do at any time: a request once sent may arrive
      any number of times, an answer once given may be taken up whenever it passes the test, the
      device may stop at any point, and others may do anything but write this device's
      conversations. */
  lemma {:induction false} AnythingMayHappen(sys: System, batch: seq<Event>, ack: Ack, step: S.Step)
    ensures Enabled(sys, Handle(batch)) <==> batch in sys.requests && batch != []
    ensures Enabled(sys, PersistCursor(ack)) <==>
            && sys.acknowledging.None? && ack in sys.acks
            && |ack.ids| == |ack.batch| && (forall i :: 0 <= i < |ack.batch| ==> ack.ids[i] == ack.batch[i].id)
            && 0 < ack.next && (forall e :: e in ack.batch ==> e.sequence < ack.next)
    ensures Enabled(sys, Crash)
    ensures Enabled(sys, Other(step)) <==> !(step.AppendStep? && step.conversation in sys.mine)
  {
    TrustsExactly(ack.batch, ack);
  }

  function Receive(sys: System, batch: seq<Event>): System
    requires batch != []
  {
    var (server, answer) := S.Append(sys.server, batch[0].conversation, sys.device, batch);
    if answer.Ok? then sys.(server := server, acks := sys.acks + {Ack(batch, IdsOf(batch), answer.value)})
    else sys.(server := server)
  }

  function Do(sys: System, step: Step): System
    requires step.Handle? ==> step.batch != []
    requires step.RemoveFromQueue? ==> sys.acknowledging.Some?
  {
    match step
    case Issue(e) => sys.(issued := sys.issued + [e], box := sys.box.(queue := sys.box.queue + [e]))
    case Flush(batch) => sys.(requests := sys.requests + {batch})
    case Handle(batch) => Receive(sys, batch)
    case PersistCursor(ack) =>
      sys.(box := RecordDelivered(sys.box, Ids(ack.batch)), acknowledging := Some(ack.batch))
    case RemoveFromQueue =>
      sys.(box := RemoveDelivered(sys.box, Ids(sys.acknowledging.value)), acknowledging := None)
    case Crash => sys.(acknowledging := None)
    case Other(step) => sys.(server := S.Do(sys.server, step))
  }

  /** A run; a step that is not enabled does nothing. */
  ghost function Run(sys: System, steps: seq<Step>): System
    decreases |steps|
  {
    if steps == [] then sys
    else Run(if Enabled(sys, steps[0]) then Do(sys, steps[0]) else sys, steps[1..])
  }

  function Start(device: Uuid, mine: set<Uuid>): System
  {
    System(device, mine, S.Empty, Box([], map[]), [], {}, {}, None)
  }

  // ------------------------------------------------------------- one conversation

  ghost predicate Numbered(events: seq<Event>)
  {
    forall i :: 0 <= i < |events| ==> events[i].sequence == i + 1
  }

  ghost predicate DistinctIds(events: seq<Event>)
  {
    forall i, j :: 0 <= i < j < |events| ==> events[i].id != events[j].id
  }

  /** The log is a prefix of what was issued, the queue a suffix that starts at or before the
      log's end, and the cursor lies between the two. */
  ghost predicate Aligned(all: seq<Event>, log: seq<Event>, queued: seq<Event>, cursor: int)
  {
    && Numbered(all) && DistinctIds(all)
    && log <= all
    && |queued| <= |all|
    && |all| - |queued| <= cursor <= |log|
    && queued == all[|all| - |queued|..]
  }

  /** The end of a batch, as a count of issued events. */
  function End(batch: seq<Event>): int
    requires batch != []
  {
    batch[0].sequence - 1 + |batch|
  }

  /** A batch is a slice of what was issued that starts at or before the `gone` first events. */
  ghost predicate SliceOf(all: seq<Event>, gone: int, batch: seq<Event>)
  {
    && batch != []
    && 0 <= batch[0].sequence - 1 <= gone
    && End(batch) <= |all|
    && batch == all[batch[0].sequence - 1..End(batch)]
  }

  lemma {:induction false} AlignedCursor(all: seq<Event>, log: seq<Event>, queued: seq<Event>, cursor: int)
    requires Aligned(all, log, queued, cursor)
    ensures 0 <= cursor <= |log| <= |all|
  {
  }

  lemma {:induction false} AlignedNext(all: seq<Event>, log: seq<Event>, queued: seq<Event>, cursor: int)
    requires Aligned(all, log, queued, cursor)
    ensures Max(cursor, MaxSequence(queued)) == |all|
  {
    MaxSequenceBound(queued);
    if queued != [] {
      assert queued[|queued| - 1] == all[|all| - 1];
      assert queued[|queued| - 1] in queued;
    }
  }

  lemma {:induction false} AlignedIssue(all: seq<Event>, log: seq<Event>, queued: seq<Event>, cursor: int, e: Event)
    requires Aligned(all, log, queued, cursor)
    requires e.sequence == |all| + 1 && forall i :: 0 <= i < |all| ==> all[i].id != e.id
    ensures Aligned(all + [e], log, queued + [e], cursor)
  {
    var k := |all| - |queued|;
    assert (all + [e])[k..] == all[k..] + [e];
  }

  lemma {:induction false} AlignedServe(all: seq<Event>, log: seq<Event>, queued: seq<Event>, cursor: int, reach: int)
    requires Aligned(all, log, queued, cursor) && |log| <= reach <= |all|
    ensures Aligned(all, all[..reach], queued, cursor)
  {
  }

  lemma {:induction false} SliceMax(all: seq<Event>, gone: int, batch: seq<Event>)
    requires Numbered(all) && SliceOf(all, gone, batch)
    ensures MaxSequence(batch) == End(batch)
  {
    MaxSequenceBound(batch);
    var from := batch[0].sequence - 1;
    forall i | 0 <= i < |batch|
      ensures batch[i].sequence == from + i + 1
    {
      assert batch[i] == all[from + i];
    }
    assert batch[|batch| - 1] in batch;
  }

  lemma {:induction false} DropConcat(a: seq<Event>, b: seq<Event>, ids: set<Uuid>)
    ensures Drop(a + b, ids) == Drop(a, ids) + Drop(b, ids)
    ensures Keep(a + b, ids) == Keep(a, ids) + Keep(b, ids)
    decreases |b|
  {
    if b == [] {
      assert a + b == a;
    } else {
      var front, e := b[..|b| - 1], b[|b| - 1];
      assert (a + b)[..|a + b| - 1] == a + front;
      DropConcat(a, front, ids);
    }
  }

  lemma {:induction false} KeepNone(events: seq<Event>, ids: set<Uuid>)
    requires forall i :: 0 <= i < |events| ==> events[i].id !in ids
    ensures Keep(events, ids) == [] && Drop(events, ids) == events
  {
    if events != [] {
      KeepNone(events[..|events| - 1], ids);
    }
  }

  lemma {:induction false} KeepAll(events: seq<Event>, ids: set<Uuid>)
    requires forall i :: 0 <= i < |events| ==> events[i].id in ids
    ensures Keep(events, ids) == events && Drop(events, ids) == []
  {
    if events != [] {
      KeepAll(events[..|events| - 1], ids);
    }
  }

  lemma {:induction false} SliceIds(all: seq<Event>, gone: int, batch: seq<Event>, i: nat)
    requires DistinctIds(all) && SliceOf(all, gone, batch) && gone <= i < |all|
    ensures all[i].id in Ids(batch) <==> i < End(batch)
  {
    var from := batch[0].sequence - 1;
    if i < End(batch) {
      assert batch[i - from] == all[i];
    } else {
      forall x | 0 <= x < |batch|
        ensures batch[x].id != all[i].id
      {
        assert batch[x] == all[from + x];
      }
    }
  }

  /** Of a queue that is a suffix of the stream, the events of a slice starting at or before it
      are its first ones. */
  lemma {:induction false} SplitAt(all: seq<Event>, queued: seq<Event>, ids: set<Uuid>, k: nat, j: nat)
    requires k <= |all| && j <= |all| && queued == all[k..]
    requires forall i :: k <= i < |all| ==> (all[i].id in ids <==> i < j)
    ensures Drop(queued, ids) == all[Max(k, j)..] && Keep(queued, ids) == all[k..Max(k, j)]
  {
    hide Drop, Keep;
    var reach := Max(k, j);
    assert queued == all[k..reach] + all[reach..];
    KeepAll(all[k..reach], ids);
    KeepNone(all[reach..], ids);
    DropConcat(all[k..reach], all[reach..], ids);
  }

  /** What an acknowledged slice does to the queue: it takes the slice's rest off its front. */
  lemma {:induction false} AlignedSplit(all: seq<Event>, queued: seq<Event>, k: nat, batch: seq<Event>)
    requires DistinctIds(all) && k <= |all| && queued == all[k..] && SliceOf(all, k, batch)
    ensures Drop(queued, Ids(batch)) == all[Max(k, End(batch))..]
    ensures Keep(queued, Ids(batch)) == all[k..Max(k, End(batch))]
  {
    forall i | k <= i < |all|
      ensures all[i].id in Ids(batch) <==> i < End(batch)
    {
      SliceIds(all, k, batch, i);
    }
    SplitAt(all, queued, Ids(batch), k, End(batch));
  }

  lemma {:induction false} MaxOfRange(all: seq<Event>, k: nat, j: nat)
    requires Numbered(all) && k <= j <= |all|
    ensures MaxSequence(all[k..j]) == if k < j then j else 0
  {
    var kept := all[k..j];
    MaxSequenceBound(kept);
    if k < j {
      assert kept[|kept| - 1] in kept;
    }
  }

  /** Raising the cursor first keeps the alignment, and puts the cursor past the batch. */
  lemma {:induction false} AlignedPersist(all: seq<Event>, log: seq<Event>, queued: seq<Event>, cursor: int, batch: seq<Event>)
    requires Aligned(all, log, queued, cursor) && SliceOf(all, |all| - |queued|, batch) && End(batch) <= |log|
    ensures var raised := Max(cursor, MaxSequence(Keep(queued, Ids(batch))));
            Aligned(all, log, queued, raised) && End(batch) <= raised
  {
    hide Keep, Drop, MaxSequence, Ids, Numbered, DistinctIds;
    var k := |all| - |queued|;
    AlignedSplit(all, queued, k, batch);
    MaxOfRange(all, k, Max(k, End(batch)));
  }

  /** Removing the batch afterwards keeps it too. */
  lemma {:induction false} AlignedRemove(all: seq<Event>, log: seq<Event>, queued: seq<Event>, cursor: int, batch: seq<Event>)
    requires Aligned(all, log, queued, cursor) && SliceOf(all, |all| - |queued|, batch) && End(batch) <= cursor
    ensures Aligned(all, log, Drop(queued, Ids(batch)), cursor)
    ensures |Drop(queued, Ids(batch))| <= |queued|
  {
    hide Keep, Drop, Ids, Numbered, DistinctIds;
    AlignedSplit(all, queued, |all| - |queued|, batch);
  }

  // ------------------------------------------------------------------- the server

  /** Which slices of one device's stream are accepted. */
  ghost predicate Takes(s: Scope, taken: set<Uuid>, all: seq<Event>, m: int, i: int, j: int)
    requires 0 <= i && 0 <= m && j <= |all|
  {
    && (forall k :: i <= k < j ==> S.ClientEvent(all[k]))
    && (m < j ==> Accepted(s, all[..j]) && j <= S.MaxConversationEvents)
    && (forall k :: m <= k < j ==> all[k].id !in taken)
  }

  lemma {:induction false} NewId(all: seq<Event>, m: nat)
    requires DistinctIds(all) && m < |all|
    ensures all[m].id !in Ids(all[..m])
  {
  }

  lemma {:induction false} KnownId(all: seq<Event>, m: nat, i: nat)
    requires i < m <= |all|
    ensures all[i].id in Ids(all[..m]) && all[i] in all[..m]
  {
    assert all[..m][i] == all[i];
  }

  lemma {:induction false} LongerAccepted(s: Scope, all: seq<Event>, m: nat, j: nat)
    requires m <= j <= |all| && Accepted(s, all[..j])
    ensures Accepted(s, all[..m])
  {
    AcceptedPrefix(s, all[..j], m);
    assert all[..j][..m] == all[..m];
  }

  /** When a slice of one device's stream is accepted, and what it leaves: the stream's prefix
      up to the slice's end. */
  lemma {:induction false} SliceAppend(s: Scope, d: Uuid, taken: set<Uuid>, all: seq<Event>, m: nat, i: nat, j: nat)
    requires i <= m <= |all| && i <= j <= |all| && m <= S.MaxConversationEvents
    requires Accepted(s, all[..m]) && DistinctIds(all)
    requires forall k :: 0 <= k < |all| ==> all[k].device == d
    ensures var r := S.AppendEach(s, d, taken, Replay(s, all[..m]).value, all[..m], all[i..j]);
            (r.Ok? <==> Takes(s, taken, all, m, i, j)) && (r.Ok? ==> r.value == all[..Max(m, j)])
    decreases j - i
  {
    if i == j {
      assert all[i..j] == [];
    } else if i < m {
      hide Replay, Ids, DistinctIds;
      assert all[i..j][0] == all[i] && all[i..j][1..] == all[i + 1..j];
      KnownId(all, m, i);
      SliceAppend(s, d, taken, all, m, i + 1, j);
    } else {
      hide Replay, Ids, DistinctIds, S.AppendEach, Takes;
      assert i == m;
      SliceAppendNew(s, d, taken, all, m, j);
    }
  }

  lemma {:induction false} SliceAppendNew(s: Scope, d: Uuid, taken: set<Uuid>, all: seq<Event>, m: nat, j: nat)
    requires m < j <= |all| && m <= S.MaxConversationEvents
    requires Accepted(s, all[..m]) && DistinctIds(all)
    requires forall k :: 0 <= k < |all| ==> all[k].device == d
    ensures var r := S.AppendEach(s, d, taken, Replay(s, all[..m]).value, all[..m], all[m..j]);
            (r.Ok? <==> Takes(s, taken, all, m, m, j)) && (r.Ok? ==> r.value == all[..j])
    decreases j - m, 0
  {
    hide DistinctIds, Replay, Ids;
    var e, known := all[m], all[..m];
    assert all[m..j][0] == e && all[m..j][1..] == all[m + 1..j];
    NewId(all, m);
    assert all[..m + 1] == known + [e];
    ReplaySnoc(s, known, e);
    if Accepted(s, all[..j]) {
      LongerAccepted(s, all, m + 1, j);
    }
    if m + 1 <= S.MaxConversationEvents && Accepted(s, all[..m + 1]) {
      if m + 1 == j {
        assert all[m + 1..j] == [];
      } else {
        SliceAppendNew(s, d, taken, all, m + 1, j);
      }
    }
  }

  // ------------------------------------------------------------------ invariant

  function Log(sys: System, c: Uuid): seq<Event>
  {
    if c in sys.server.logs then sys.server.logs[c] else []
  }

  function Issued(sys: System, c: Uuid): seq<Event> { OfConversation(sys.issued, c) }

  function Queued(sys: System, c: Uuid): seq<Event> { OfConversation(sys.box.queue, c) }

  /** How many events of the conversation have left the queue. */
  function Gone(sys: System, c: Uuid): int { |Issued(sys, c)| - |Queued(sys, c)| }

  ghost predicate InStep(sys: System, c: Uuid)
  {
    Aligned(Issued(sys, c), Log(sys, c), Queued(sys, c), Cursor(sys.box.cursors, c))
  }

  ghost predicate IsSlice(sys: System, batch: seq<Event>)
  {
    && batch != [] && batch[0].conversation in sys.mine
    && SliceOf(Issued(sys, batch[0].conversation), Gone(sys, batch[0].conversation), batch)
  }

  ghost predicate Answered(sys: System, a: Ack)
  {
    IsSlice(sys, a.batch) && End(a.batch) <= |Log(sys, a.batch[0].conversation)| && Trusts(a.batch, a)
  }

  ghost predicate Passed(sys: System, batch: seq<Event>)
  {
    IsSlice(sys, batch) && End(batch) <= Cursor(sys.box.cursors, batch[0].conversation)
  }

  ghost predicate Conversations(sys: System)
  {
    forall c :: c in sys.mine ==> InStep(sys, c)
  }

  ghost predicate Network(sys: System)
  {
    && (forall b :: b in sys.requests ==> IsSlice(sys, b))
    && (forall a :: a in sys.acks ==> Answered(sys, a))
    && (sys.acknowledging.Some? ==> Passed(sys, sys.acknowledging.value))
  }

  ghost predicate Owned(sys: System)
  {
    && DistinctIds(sys.issued)
    && (forall e :: e in sys.issued ==> e.device == sys.device && e.conversation in sys.mine)
    && (forall e :: e in sys.box.queue ==> e in sys.issued)
  }

  ghost predicate Invariant(sys: System)
  {
    S.Sound(sys.server) && Owned(sys) && Conversations(sys) && Network(sys)
  }

  /** What every step does to one conversation: its stream and log grow, its queue loses only its front. */
  ghost predicate Advances(sys: System, later: System, c: Uuid)
  {
    && Issued(sys, c) <= Issued(later, c)
    && Gone(sys, c) <= Gone(later, c)
    && |Log(sys, c)| <= |Log(later, c)|
    && Cursor(sys.box.cursors, c) <= Cursor(later.box.cursors, c)
  }

  /** What every step does to all of them. */
  ghost predicate Transit(sys: System, later: System)
  {
    later.mine == sys.mine && forall c :: c in sys.mine ==> InStep(later, c) && Advances(sys, later, c)
  }

  lemma {:induction false} SameView(sys: System, later: System)
    requires Conversations(sys) && later.mine == sys.mine && later.issued == sys.issued && later.box == sys.box
    requires forall c :: c in sys.mine ==> Log(later, c) == Log(sys, c)
    ensures Transit(sys, later)
  {
    forall c | c in sys.mine
      ensures InStep(later, c) && Advances(sys, later, c)
    {
      assert InStep(sys, c);
    }
  }

  lemma {:induction false} SliceStays(sys: System, later: System, batch: seq<Event>)
    requires IsSlice(sys, batch) && later.mine == sys.mine && Advances(sys, later, batch[0].conversation)
    ensures IsSlice(later, batch)
  {
    var all, more := Issued(sys, batch[0].conversation), Issued(later, batch[0].conversation);
    var i, j := batch[0].sequence - 1, End(batch);
    assert more[i..j] == all[i..j];
  }

  /** What is on the network stays within the invariant. */
  lemma {:induction false} NetworkStays(sys: System, later: System)
    requires Network(sys) && Transit(sys, later)
    ensures forall b :: b in sys.requests ==> IsSlice(later, b)
    ensures forall a :: a in sys.acks ==> Answered(later, a)
    ensures sys.acknowledging.Some? ==> Passed(later, sys.acknowledging.value)
  {
    forall b: seq<Event> | b in sys.requests
      ensures IsSlice(later, b)
    {
      assert IsSlice(sys, b);
      assert Advances(sys, later, b[0].conversation);
      SliceStays(sys, later, b);
    }
    forall a | a in sys.acks
      ensures Answered(later, a)
    {
      AnswerStays(sys, later, a);
    }
    if sys.acknowledging.Some? {
      assert Advances(sys, later, sys.acknowledging.value[0].conversation);
      SliceStays(sys, later, sys.acknowledging.value);
    }
  }

  lemma {:induction false} AnswerStays(sys: System, later: System, a: Ack)
    requires Answered(sys, a) && Transit(sys, later)
    ensures Answered(later, a)
  {
    assert Advances(sys, later, a.batch[0].conversation);
    SliceStays(sys, later, a.batch);
  }

  // -------------------------------------------------------------- issuing events

  lemma {:induction false} NextIsIssuedPlusOne(sys: System, c: Uuid)
    requires InStep(sys, c)
    ensures NextSequence(sys.box, c) == |Issued(sys, c)| + 1
  {
    AlignedNext(Issued(sys, c), Log(sys, c), Queued(sys, c), Cursor(sys.box.cursors, c));
  }

  lemma {:induction false} UnusedId(sys: System, e: Event, c: Uuid)
    requires e.id !in Ids(sys.issued)
    ensures forall i :: 0 <= i < |Issued(sys, c)| ==> Issued(sys, c)[i].id != e.id
  {
    var all := Issued(sys, c);
    forall i | 0 <= i < |all|
      ensures all[i].id != e.id
    {
      OfMembers(sys.issued, c, all[i]);
    }
  }

  lemma {:induction false} IssueHere(sys: System, later: System, e: Event)
    requires InStep(sys, e.conversation) && e.id !in Ids(sys.issued)
    requires e.sequence == NextSequence(sys.box, e.conversation)
    requires later == sys.(issued := sys.issued + [e], box := sys.box.(queue := sys.box.queue + [e]))
    ensures InStep(later, e.conversation) && Advances(sys, later, e.conversation)
  {
    hide Aligned, OfConversation, NextSequence;
    var c := e.conversation;
    OfSnoc(sys.issued, e, c);
    OfSnoc(sys.box.queue, e, c);
    NextIsIssuedPlusOne(sys, c);
    UnusedId(sys, e, c);
    AlignedIssue(Issued(sys, c), Log(sys, c), Queued(sys, c), Cursor(sys.box.cursors, c), e);
  }

  lemma {:induction false} IssueElsewhere(sys: System, later: System, e: Event, c: Uuid)
    requires InStep(sys, c) && e.conversation != c
    requires later == sys.(issued := sys.issued + [e], box := sys.box.(queue := sys.box.queue + [e]))
    ensures InStep(later, c) && Advances(sys, later, c)
  {
    hide Aligned, OfConversation;
    OfSnoc(sys.issued, e, c);
    OfSnoc(sys.box.queue, e, c);
  }

  lemma {:induction false} IssueTransit(sys: System, e: Event)
    requires Conversations(sys) && Enabled(sys, Issue(e))
    ensures Transit(sys, Do(sys, Issue(e)))
  {
    var later := Do(sys, Issue(e));
    forall c | c in sys.mine
      ensures InStep(later, c) && Advances(sys, later, c)
    {
      assert InStep(sys, c);
      if e.conversation == c {
        IssueHere(sys, later, e);
      } else {
        IssueElsewhere(sys, later, e, c);
      }
    }
  }

  lemma {:induction false} IssueKeepsOwned(sys: System, e: Event)
    requires Owned(sys) && Enabled(sys, Issue(e))
    ensures Owned(Do(sys, Issue(e)))
  {
    forall i | 0 <= i < |sys.issued|
      ensures sys.issued[i].id != e.id
    {
      assert sys.issued[i].id in Ids(sys.issued);
    }
  }

  lemma {:induction false} IssueKeeps(sys: System, e: Event)
    requires Invariant(sys) && Enabled(sys, Issue(e))
    ensures Invariant(Do(sys, Issue(e)))
  {
    hide S.Sound, InStep, IsSlice, Answered, Passed;
    IssueKeepsOwned(sys, e);
    IssueTransit(sys, e);
    NetworkStays(sys, Do(sys, Issue(e)));
  }

  // --------------------------------------------------------------------- sending

  lemma {:induction false} BatchIsPrefix(queue: seq<Event>, batch: seq<Event>)
    requires IsBatch(queue, batch)
    ensures batch <= OfConversation(queue, batch[0].conversation)
  {
    var c := batch[0].conversation;
    assert queue == batch + queue[|batch|..];
    OfConcat(batch, queue[|batch|..], c);
    OfAll(batch, c);
  }

  lemma {:induction false} PrefixIsSlice(all: seq<Event>, log: seq<Event>, queued: seq<Event>, cursor: int, batch: seq<Event>)
    requires Aligned(all, log, queued, cursor) && batch <= queued && batch != []
    ensures SliceOf(all, |all| - |queued|, batch) && batch[0].sequence - 1 == |all| - |queued|
  {
    var k := |all| - |queued|;
    assert batch[0] == all[k];
    assert batch == all[k..k + |batch|];
  }

  lemma {:induction false} FlushIsSlice(sys: System, batch: seq<Event>)
    requires Owned(sys) && Conversations(sys) && IsBatch(sys.box.queue, batch)
    ensures IsSlice(sys, batch) && batch[0].sequence - 1 == Gone(sys, batch[0].conversation)
    ensures batch <= Queued(sys, batch[0].conversation)
  {
    var c := batch[0].conversation;
    assert sys.box.queue[0] == batch[0];
    assert InStep(sys, c);
    BatchIsPrefix(sys.box.queue, batch);
    PrefixIsSlice(Issued(sys, c), Log(sys, c), Queued(sys, c), Cursor(sys.box.cursors, c), batch);
  }

  lemma {:induction false} FlushKeeps(sys: System, batch: seq<Event>)
    requires Invariant(sys) && Enabled(sys, Flush(batch))
    ensures Invariant(Do(sys, Flush(batch)))
  {
    hide S.Sound, InStep, IsSlice, Answered, Passed;
    var later := Do(sys, Flush(batch));
    SameView(sys, later);
    NetworkStays(sys, later);
    FlushIsSlice(sys, batch);
    SliceStays(sys, later, batch);
  }

  // ------------------------------------------------------------------- receiving

  /** The server takes a request exactly when the device may write, the stream up to the
      request's end is acceptable, and its new events clash with no other record. */
  ghost predicate Acceptable(sys: System, batch: seq<Event>)
    requires IsSlice(sys, batch)
  {
    var c := batch[0].conversation;
    && S.Authorized(sys.server, c, sys.device)
    && S.BatchShape(batch)
    && Takes(S.ScopeOf(sys.server, c), S.Taken(sys.server, c), Issued(sys, c),
             |Log(sys, c)|, batch[0].sequence - 1, End(batch))
  }

  lemma {:induction false} OwnDevice(sys: System, c: Uuid)
    requires Owned(sys)
    ensures forall k :: 0 <= k < |Issued(sys, c)| ==> Issued(sys, c)[k].device == sys.device
  {
    var all := Issued(sys, c);
    forall k | 0 <= k < |all|
      ensures all[k].device == sys.device
    {
      OfMembers(sys.issued, c, all[k]);
    }
  }

  lemma {:induction false} RequestOutcome(sys: System, batch: seq<Event>)
    requires S.Sound(sys.server) && Owned(sys) && Conversations(sys) && IsSlice(sys, batch)
    ensures var c := batch[0].conversation;
            var reach := Max(|Log(sys, c)|, End(batch));
            && (S.Append(sys.server, c, sys.device, batch).1.Ok? <==> Acceptable(sys, batch))
            && (Acceptable(sys, batch) ==>
                  S.Append(sys.server, c, sys.device, batch) ==
                    (sys.server.(logs := sys.server.logs[c := Issued(sys, c)[..reach]]), S.Ok(reach + 1)))
            && (!Acceptable(sys, batch) ==> S.Append(sys.server, c, sys.device, batch).0 == sys.server)
  {
    var c := batch[0].conversation;
    assert InStep(sys, c);
    if S.Authorized(sys.server, c, sys.device) {
      S.HistoryIsComplete(sys.server, c);
      assert S.SoundLog(sys.server, c);
      OwnDevice(sys, c);
      StreamOutcome(sys.server, sys.device, c, Issued(sys, c), Gone(sys, c), batch);
    }
  }

  /** The same for a stream of one device whose log is a prefix of it. */
  lemma {:induction false} StreamOutcome(st: S.Store, d: Uuid, c: Uuid, all: seq<Event>, gone: int, batch: seq<Event>)
    requires S.Authorized(st, c, d) && SliceOf(all, gone, batch) && gone <= |st.logs[c]|
    requires S.Page(st.logs[c], 0, S.MaxConversationEvents) == st.logs[c]
    requires Accepted(S.ScopeOf(st, c), st.logs[c]) && |st.logs[c]| <= S.MaxConversationEvents
    requires DistinctIds(all) && st.logs[c] <= all
    requires forall k :: 0 <= k < |all| ==> all[k].device == d
    ensures var m, i, j := |st.logs[c]|, batch[0].sequence - 1, End(batch);
            S.Append(st, c, d, batch) ==
              if S.BatchShape(batch) && Takes(S.ScopeOf(st, c), S.Taken(st, c), all, m, i, j)
              then (st.(logs := st.logs[c := all[..Max(m, j)]]), S.Ok(Max(m, j) + 1))
              else (st, S.Append(st, c, d, batch).1)
    ensures S.Append(st, c, d, batch).1.Ok? ==>
              S.BatchShape(batch) &&
              Takes(S.ScopeOf(st, c), S.Taken(st, c), all, |st.logs[c]|, batch[0].sequence - 1, End(batch))
  {
    hide S.Taken, S.ScopeOf, S.BatchShape, Takes, S.AppendEach, S.Page;
    var s, taken, log, i, j := S.ScopeOf(st, c), S.Taken(st, c), st.logs[c], batch[0].sequence - 1, End(batch);
    assert log == all[..|log|];
    assert batch == all[i..j];
    SliceAppend(s, d, taken, all, |log|, i, j);
    assert log + all[..Max(|log|, j)][|log|..] == all[..Max(|log|, j)];
  }

  lemma {:induction false} HandleConversation(sys: System, batch: seq<Event>, k: Uuid)
    requires S.Sound(sys.server) && Owned(sys) && Conversations(sys) && IsSlice(sys, batch) && k in sys.mine
    ensures InStep(Receive(sys, batch), k) && Advances(sys, Receive(sys, batch), k)
    ensures Receive(sys, batch).issued == sys.issued
    ensures Acceptable(sys, batch) && k == batch[0].conversation ==>
              |Log(Receive(sys, batch), k)| == Max(|Log(sys, k)|, End(batch))
  {
    hide S.Sound, S.Append, Owned, Aligned, OfConversation, S.Authorized, S.BatchShape, Takes;
    RequestOutcome(sys, batch);
    assert InStep(sys, k);
    if Acceptable(sys, batch) && k == batch[0].conversation {
      var reach := Max(|Log(sys, k)|, End(batch));
      AlignedCursor(Issued(sys, k), Log(sys, k), Queued(sys, k), Cursor(sys.box.cursors, k));
      AlignedServe(Issued(sys, k), Log(sys, k), Queued(sys, k), Cursor(sys.box.cursors, k), reach);
    }
  }

  lemma {:induction false} HandleTransit(sys: System, batch: seq<Event>)
    requires S.Sound(sys.server) && Owned(sys) && Conversations(sys) && IsSlice(sys, batch)
    ensures Transit(sys, Receive(sys, batch))
  {
    hide S.Sound, S.Append, InStep, Advances, Owned, Conversations, SliceOf;
    forall k | k in sys.mine
      ensures InStep(Receive(sys, batch), k) && Advances(sys, Receive(sys, batch), k)
    {
      HandleConversation(sys, batch, k);
    }
  }

  /** Every answer the server gives passes the device's test. */
  lemma {:induction false} HonestAnswer(sys: System, batch: seq<Event>)
    requires S.Sound(sys.server) && Owned(sys) && Conversations(sys) && IsSlice(sys, batch)
    ensures forall a :: a in Receive(sys, batch).acks && a !in sys.acks ==> Answered(Receive(sys, batch), a)
    ensures Acceptable(sys, batch) ==>
              Ack(batch, IdsOf(batch), |Log(Receive(sys, batch), batch[0].conversation)| + 1) in Receive(sys, batch).acks
  {
    hide S.Sound, S.Append, Owned, OfConversation, Advances, Aligned, SliceOf, S.Authorized, S.BatchShape, Takes, Ids, IdsOf;
    var later, c := Receive(sys, batch), batch[0].conversation;
    RequestOutcome(sys, batch);
    HandleConversation(sys, batch, c);
    SliceStays(sys, later, batch);
    AlignedNumbers(sys, c);
    SliceMax(Issued(sys, c), Gone(sys, c), batch);
  }

  lemma {:induction false} AlignedNumbers(sys: System, c: Uuid)
    requires Conversations(sys) && c in sys.mine
    ensures Numbered(Issued(sys, c))
  {
    assert InStep(sys, c);
  }

  lemma {:induction false} HandleNetwork(sys: System, batch: seq<Event>)
    requires S.Sound(sys.server) && Owned(sys) && Conversations(sys) && IsSlice(sys, batch) && Network(sys)
    ensures Network(Receive(sys, batch))
  {
    HandleTransit(sys, batch);
    NetworkStays(sys, Receive(sys, batch));
    HonestAnswer(sys, batch);
  }

  /** Accepted requests leave the log a prefix of what was issued, however late or often they arrive. */
  lemma {:induction false} HandleKeeps(sys: System, batch: seq<Event>)
    requires Invariant(sys) && Enabled(sys, Handle(batch))
    ensures Invariant(Do(sys, Handle(batch)))
  {
    hide S.Sound, InStep, IsSlice, Answered, Passed, S.Append;
    assert IsSlice(sys, batch);
    S.AppendKeepsSound(sys.server, batch[0].conversation, sys.device, batch);
    HandleTransit(sys, batch);
    HandleNetwork(sys, batch);
  }

  // ------------------------------------------------------------- acknowledgment

  lemma {:induction false} OtherConversation(sys: System, batch: seq<Event>, c: Uuid)
    requires Owned(sys) && IsSlice(sys, batch) && c != batch[0].conversation
    ensures forall i :: 0 <= i < |Queued(sys, c)| ==> Queued(sys, c)[i].id !in Ids(batch)
  {
    var queued := Queued(sys, c);
    forall i | 0 <= i < |queued|
      ensures queued[i].id !in Ids(batch)
    {
      OfMembers(sys.box.queue, c, queued[i]);
      forall b | b in batch
        ensures b.id != queued[i].id
      {
        OfMembers(sys.issued, batch[0].conversation, b);
      }
    }
  }

  lemma {:induction false} PersistConversation(sys: System, later: System, batch: seq<Event>, c: Uuid)
    requires Owned(sys) && InStep(sys, c) && IsSlice(sys, batch)
    requires End(batch) <= |Log(sys, batch[0].conversation)|
    requires later == sys.(box := RecordDelivered(sys.box, Ids(batch)), acknowledging := Some(batch))
    ensures InStep(later, c) && Advances(sys, later, c)
    ensures c == batch[0].conversation ==> End(batch) <= Cursor(later.box.cursors, c)
  {
    hide Aligned, SliceOf, Ids, OfConversation, Keep, Drop, Delivered;
    AlignedCursor(Issued(sys, c), Log(sys, c), Queued(sys, c), Cursor(sys.box.cursors, c));
    DeliveredCursor(sys.box.cursors, sys.box.queue, Ids(batch), c);
    if c == batch[0].conversation {
      AlignedPersist(Issued(sys, c), Log(sys, c), Queued(sys, c), Cursor(sys.box.cursors, c), batch);
    } else {
      OtherConversation(sys, batch, c);
      KeepNone(Queued(sys, c), Ids(batch));
    }
  }

  lemma {:induction false} PersistTransit(sys: System, batch: seq<Event>)
    requires Owned(sys) && Conversations(sys) && IsSlice(sys, batch)
    requires End(batch) <= |Log(sys, batch[0].conversation)|
    ensures var later := sys.(box := RecordDelivered(sys.box, Ids(batch)), acknowledging := Some(batch));
            Transit(sys, later) && Passed(later, batch)
  {
    var later := sys.(box := RecordDelivered(sys.box, Ids(batch)), acknowledging := Some(batch));
    forall c | c in sys.mine
      ensures InStep(later, c) && Advances(sys, later, c)
      ensures c == batch[0].conversation ==> End(batch) <= Cursor(later.box.cursors, c)
    {
      assert InStep(sys, c);
      PersistConversation(sys, later, batch, c);
    }
    SliceStays(sys, later, batch);
  }

  lemma {:induction false} PersistKeeps(sys: System, ack: Ack)
    requires Invariant(sys) && Enabled(sys, PersistCursor(ack))
    ensures Invariant(Do(sys, PersistCursor(ack)))
  {
    hide S.Sound, InStep, IsSlice, Passed;
    assert Answered(sys, ack);
    PersistTransit(sys, ack.batch);
    NetworkStays(sys, Do(sys, PersistCursor(ack)));
  }

  lemma {:induction false} RemoveConversation(sys: System, later: System, batch: seq<Event>, c: Uuid)
    requires Owned(sys) && InStep(sys, c) && Passed(sys, batch)
    requires later == sys.(box := RemoveDelivered(sys.box, Ids(batch)), acknowledging := None)
    ensures InStep(later, c) && Advances(sys, later, c)
  {
    hide Aligned, OfConversation, Drop, Keep, Ids, SliceOf;
    AlignedCursor(Issued(sys, c), Log(sys, c), Queued(sys, c), Cursor(sys.box.cursors, c));
    OfDrop(sys.box.queue, Ids(batch), c);
    if c == batch[0].conversation {
      AlignedRemove(Issued(sys, c), Log(sys, c), Queued(sys, c), Cursor(sys.box.cursors, c), batch);
    } else {
      OtherConversation(sys, batch, c);
      KeepNone(Queued(sys, c), Ids(batch));
    }
  }

  lemma {:induction false} RemoveTransit(sys: System, batch: seq<Event>)
    requires Owned(sys) && Conversations(sys) && Passed(sys, batch)
    ensures var later := sys.(box := RemoveDelivered(sys.box, Ids(batch)), acknowledging := None);
            Transit(sys, later) && Owned(later)
  {
    var later := sys.(box := RemoveDelivered(sys.box, Ids(batch)), acknowledging := None);
    forall c | c in sys.mine
      ensures InStep(later, c) && Advances(sys, later, c)
    {
      assert InStep(sys, c);
      RemoveConversation(sys, later, batch, c);
    }
    forall e | e in later.box.queue
      ensures e in sys.issued
    {
      DropMembers(sys.box.queue, Ids(batch), e);
    }
  }

  lemma {:induction false} RemoveKeeps(sys: System)
    requires Invariant(sys) && sys.acknowledging.Some?
    ensures Invariant(Do(sys, RemoveFromQueue))
  {
    hide S.Sound, InStep, Answered, IsSlice, Passed, Ids, RemoveDelivered;
    RemoveTransit(sys, sys.acknowledging.value);
    NetworkStays(sys, Do(sys, RemoveFromQueue));
  }

  lemma {:induction false} CrashKeeps(sys: System)
    requires Invariant(sys)
    ensures Invariant(Do(sys, Crash))
  {
    hide S.Sound, InStep, IsSlice, Answered, Passed;
    SameView(sys, Do(sys, Crash));
    NetworkStays(sys, Do(sys, Crash));
  }

  lemma {:induction false} ForeignLog(sys: System, step: S.Step, c: Uuid)
    requires sys.server.logs.Keys == sys.server.conversations.Keys && ForeignStep(sys, step) && c in sys.mine
    ensures Log(Do(sys, Other(step)), c) == Log(sys, c)
  {
    hide S.AppendEach, S.Page, Replay, S.BatchShape, S.Taken, S.ScopeOf;
  }

  lemma {:induction false} OtherKeeps(sys: System, step: S.Step)
    requires Invariant(sys) && ForeignStep(sys, step)
    ensures Invariant(Do(sys, Other(step)))
  {
    hide S.Sound, InStep, IsSlice, Answered, Passed;
    var later := Do(sys, Other(step));
    S.StepKeepsSound(sys.server, step);
    S.SoundKeys(sys.server);
    forall c | c in sys.mine
      ensures Log(later, c) == Log(sys, c)
    {
      ForeignLog(sys, step, c);
    }
    SameView(sys, later);
    NetworkStays(sys, later);
  }

  lemma {:induction false} StepKeeps(sys: System, step: Step)
    requires Invariant(sys) && Enabled(sys, step)
    ensures Invariant(Do(sys, step))
  {
    match step
    case Issue(e) => IssueKeeps(sys, e);
    case Flush(batch) => FlushKeeps(sys, batch);
    case Handle(batch) => HandleKeeps(sys, batch);
    case PersistCursor(ack) => PersistKeeps(sys, ack);
    case RemoveFromQueue => RemoveKeeps(sys);
    case Crash => CrashKeeps(sys);
    case Other(s) => OtherKeeps(sys, s);
  }

  lemma {:induction false} RunKeeps(sys: System, steps: seq<Step>)
    requires Invariant(sys)
    ensures Invariant(Run(sys, steps)) && Run(sys, steps).mine == sys.mine
    decreases |steps|
  {
    hide Invariant;
    if steps != [] {
      if Enabled(sys, steps[0]) {
        StepKeeps(sys, steps[0]);
        RunKeeps(Do(sys, steps[0]), steps[1..]);
      } else {
        RunKeeps(sys, steps[1..]);
      }
    }
  }

  // ------------------------------------------------------------------ main results

  /** Exactly-once, in-order delivery over every run. */
  lemma {:induction false} ExactlyOnceInOrder(device: Uuid, mine: set<Uuid>, steps: seq<Step>, c: Uuid)
    requires c in mine
    ensures var sys := Run(Start(device, mine), steps);
            var all, log, queued := Issued(sys, c), Log(sys, c), Queued(sys, c);
            && log <= all
            && |queued| <= |all| && queued == all[|all| - |queued|..]
            && |all| <= |log| + |queued|
            && NextSequence(sys.box, c) == |all| + 1
            && (forall i :: 0 <= i < |all| ==> all[i].sequence == i + 1)
  {
    hide Run, Start, Invariant, InStep, NextSequence, Issued, Log, Queued;
    StartHolds(device, mine);
    RunKeeps(Start(device, mine), steps);
    var sys := Run(Start(device, mine), steps);
    ConversationInStep(sys, c);
    NextIsIssuedPlusOne(sys, c);
    InStepMeans(sys, c);
  }

  lemma {:induction false} StartHolds(device: Uuid, mine: set<Uuid>)
    ensures Invariant(Start(device, mine)) && Start(device, mine).mine == mine
  {
    var sys := Start(device, mine);
    forall c | c in mine
      ensures InStep(sys, c)
    {
      assert Issued(sys, c) == [] && Queued(sys, c) == [];
    }
  }

  lemma {:induction false} ConversationInStep(sys: System, c: Uuid)
    requires Invariant(sys) && c in sys.mine
    ensures InStep(sys, c)
  {
    hide InStep, S.Sound, Network, Owned;
  }

  lemma {:induction false} InStepMeans(sys: System, c: Uuid)
    requires InStep(sys, c)
    ensures var all, log, queued := Issued(sys, c), Log(sys, c), Queued(sys, c);
            && log <= all && |queued| <= |all| && queued == all[|all| - |queued|..]
            && |all| <= |log| + |queued|
            && (forall i :: 0 <= i < |all| ==> all[i].sequence == i + 1)
  {
    hide Issued, Log, Queued;
  }

  /** An empty queue means the log holds everything that was issued. */
  lemma {:induction false} DrainedMeansDelivered(sys: System, c: Uuid)
    requires Invariant(sys) && c in sys.mine && Queued(sys, c) == []
    ensures Log(sys, c) == Issued(sys, c)
  {
    assert InStep(sys, c);
  }

  /** The transcript shown after a resume: the remote events, then the pending ones not among them. */
  function Transcript(remote: seq<Event>, pending: seq<Event>): seq<Event>
  {
    remote + Drop(pending, Ids(remote))
  }

  lemma {:induction false} TranscriptIsIssued(sys: System, c: Uuid)
    requires Invariant(sys) && c in sys.mine
    ensures Transcript(Log(sys, c), Queued(sys, c)) == Issued(sys, c)
  {
    assert InStep(sys, c);
    AlignedTranscript(Issued(sys, c), Log(sys, c), Queued(sys, c), Cursor(sys.box.cursors, c));
  }

  lemma {:induction false} AlignedTranscript(all: seq<Event>, log: seq<Event>, queued: seq<Event>, cursor: int)
    requires Aligned(all, log, queued, cursor)
    ensures Transcript(log, queued) == all
  {
    var k, m := |all| - |queued|, |log|;
    assert log == all[..m];
    forall i | k <= i < |all|
      ensures all[i].id in Ids(log) <==> i < m
    {
      if i < m {
        KnownId(all, m, i);
      } else {
        assert forall x :: 0 <= x < m ==> log[x] == all[x];
      }
    }
    SplitAt(all, queued, Ids(log), k, m);
  }

  /** One undisturbed round of a request the server can take: the answer passes the device's
      test, the batch is in the log, and it has left the queue. */
  lemma {:induction false} RoundDelivers(sys: System, batch: seq<Event>)
    requires S.Sound(sys.server) && Owned(sys) && Conversations(sys)
    requires IsSlice(sys, batch) && Acceptable(sys, batch)
    ensures var c := batch[0].conversation;
            var served := Receive(sys, batch);
            && Ack(batch, IdsOf(batch), |Log(served, c)| + 1) in served.acks
            && Trusts(batch, Ack(batch, IdsOf(batch), |Log(served, c)| + 1))
            && Log(served, c) <= Issued(sys, c) && |Log(served, c)| == Max(|Log(sys, c)|, End(batch))
  {
    hide S.Sound, S.Append, Receive, Acceptable, SliceOf, OfConversation;
    var c := batch[0].conversation;
    HonestAnswer(sys, batch);
    HandleConversation(sys, batch, c);
    assert InStep(sys, c);
    SliceMax(Issued(sys, c), Gone(sys, c), batch);
  }

  lemma {:induction false} RoundEmpties(sys: System, batch: seq<Event>)
    requires Owned(sys) && Conversations(sys) && IsBatch(sys.box.queue, batch)
    ensures var c := batch[0].conversation;
            && batch <= Queued(sys, c)
            && OfConversation(RemoveDelivered(RecordDelivered(sys.box, Ids(batch)), Ids(batch)).queue, c)
               == Queued(sys, c)[|batch|..]
  {
    hide Aligned, OfConversation, Drop, Owned, IsSlice, Ids;
    var c := batch[0].conversation;
    FlushIsSlice(sys, batch);
    BatchInStep(sys, batch);
    OfDrop(sys.box.queue, Ids(batch), c);
    FrontDrops(Issued(sys, c), Log(sys, c), Queued(sys, c), Cursor(sys.box.cursors, c), batch);
  }

  lemma {:induction false} BatchInStep(sys: System, batch: seq<Event>)
    requires Owned(sys) && Conversations(sys) && IsBatch(sys.box.queue, batch)
    ensures InStep(sys, batch[0].conversation)
  {
    hide InStep;
    assert sys.box.queue[0] == batch[0];
  }

  /** Dropping a batch from the front of an aligned queue leaves the rest of the queue. */
  lemma {:induction false} FrontDrops(all: seq<Event>, log: seq<Event>, queued: seq<Event>, cursor: int, batch: seq<Event>)
    requires Aligned(all, log, queued, cursor) && batch <= queued && batch != []
    ensures Drop(queued, Ids(batch)) == queued[|batch|..]
  {
    hide Drop, Keep, Ids;
    var k := |all| - |queued|;
    PrefixIsSlice(all, log, queued, cursor, batch);
    AlignedSplit(all, queued, k, batch);
    assert all[k..][|batch|..] == all[k + |batch|..];
  }

  // -------------------------------------------------------------- one flush is a run

  /** What may go wrong during one flush. */
  datatype Fault = NoFault | RequestLost | ResponseLost | StopsBetweenWrites

  predicate Trusted(answer: S.Outcome<nat>, batch: seq<Event>)
  {
    answer.Ok? && answer.value > MaxSequence(batch)
  }

  /** What one flush of a batch leaves of the server and the outbox. */
  function FlushEffect(server: S.Store, box: Box, device: Uuid, batch: seq<Event>, fault: Fault): (S.Store, Box)
    requires batch != []
  {
    if fault.RequestLost? then (server, box)
    else
      var (after, answer) := S.Append(server, batch[0].conversation, device, batch);
      if fault.ResponseLost? || !Trusted(answer, batch) then (after, box)
      else if fault.StopsBetweenWrites? then (after, RecordDelivered(box, Ids(batch)))
      else (after, RemoveDelivered(RecordDelivered(box, Ids(batch)), Ids(batch)))
  }

  /** The protocol steps it amounts to. */
  function FlushSteps(sys: System, batch: seq<Event>, fault: Fault): seq<Step>
    requires batch != []
  {
    var answer := S.Append(sys.server, batch[0].conversation, sys.device, batch).1;
    if fault.RequestLost? then [Flush(batch)]
    else if fault.ResponseLost? || !Trusted(answer, batch) then [Flush(batch), Handle(batch)]
    else
      [Flush(batch), Handle(batch), PersistCursor(Ack(batch, IdsOf(batch), answer.value)),
       if fault.StopsBetweenWrites? then Crash else RemoveFromQueue]
  }

  lemma {:induction false} RunStep(sys: System, step: Step, rest: seq<Step>)
    requires Enabled(sys, step)
    ensures Run(sys, [step] + rest) == Run(Do(sys, step), rest)
  {
    assert ([step] + rest)[1..] == rest;
  }

  lemma {:induction false} AcknowledgedRun(sys: System, ack: Ack, last: Step)
    requires Enabled(sys, PersistCursor(ack)) && (last.Crash? || last.RemoveFromQueue?)
    ensures Run(sys, [PersistCursor(ack), last]) == Do(Do(sys, PersistCursor(ack)), last)
  {
    var persisted := Do(sys, PersistCursor(ack));
    assert [PersistCursor(ack), last] == [PersistCursor(ack)] + ([last] + []);
    RunStep(sys, PersistCursor(ack), [last] + []);
    RunStep(persisted, last, []);
  }

  /** A flush of the device, under every fault, is a run of the protocol; so its invariant and the
      delivery theorem hold for the program's flush. */
  lemma {:induction false} FlushIsRun(sys: System, batch: seq<Event>, fault: Fault)
    requires sys.acknowledging.None? && IsBatch(sys.box.queue, batch)
    ensures var later := Run(sys, FlushSteps(sys, batch, fault));
            && (later.server, later.box) == FlushEffect(sys.server, sys.box, sys.device, batch, fault)
            && later.acknowledging.None? && later.issued == sys.issued && later.device == sys.device && later.mine == sys.mine
  {
    hide S.Append, RecordDelivered, RemoveDelivered, Ids, IsBatch, IdsOf;
    NonEmptyBatch(sys.box.queue, batch);
    var steps, sent := FlushSteps(sys, batch, fault), Do(sys, Flush(batch));
    assert steps == [Flush(batch)] + steps[1..];
    RunStep(sys, Flush(batch), steps[1..]);
    if !fault.RequestLost? {
      var served := Do(sent, Handle(batch));
      assert steps[1..] == [Handle(batch)] + steps[2..];
      RunStep(sent, Handle(batch), steps[2..]);
      if |steps| == 4 {
        assert steps[2..] == [steps[2], steps[3]];
        AcknowledgedRun(served, steps[2].ack, steps[3]);
      }
    }
  }

  lemma {:induction false} NonEmptyBatch(queue: seq<Event>, batch: seq<Event>)
    requires IsBatch(queue, batch)
    ensures batch != []
  {
  }

  // --------------------------------------------------------------- sending is a run

  function IssueSteps(events: seq<Event>): seq<Step>
  {
    seq(|events|, i requires 0 <= i < |events| => Issue(events[i]))
  }

  /** New events of one conversation, numbered on from its next number. */
  ghost predicate Continues(sys: System, c: Uuid, events: seq<Event>)
  {
    && (forall i :: 0 <= i < |events| ==>
          && events[i].device == sys.device && events[i].conversation == c && events[i].id !in Ids(sys.issued)
          && events[i].sequence == NextSequence(sys.box, c) + i)
    && (forall i, j :: 0 <= i < j < |events| ==> events[i].id != events[j].id)
  }

  lemma {:induction false} IssueContinues(sys: System, c: Uuid, events: seq<Event>)
    requires Invariant(sys) && sys.acknowledging.None? && c in sys.mine && events != [] && Continues(sys, c, events)
    ensures Enabled(sys, Issue(events[0])) && Invariant(Do(sys, Issue(events[0])))
    ensures Continues(Do(sys, Issue(events[0])), c, events[1..])
  {
    hide Invariant, NextSequence;
    var e := events[0];
    IssueKeeps(sys, e);
    var later := Do(sys, Issue(e));
    NextAfterIssue(sys, c, e);
    assert Ids(sys.issued + [e]) == Ids(sys.issued) + {e.id};
    forall i | 0 <= i < |events[1..]|
      ensures events[1..][i] == events[i + 1] && events[i + 1].id !in Ids(later.issued)
    {
    }
  }

  lemma {:induction false} NextAfterIssue(sys: System, c: Uuid, e: Event)
    requires Invariant(sys) && c in sys.mine && e.conversation == c && Enabled(sys, Issue(e))
    ensures NextSequence(Do(sys, Issue(e)).box, c) == NextSequence(sys.box, c) + 1
  {
    hide NextSequence, S.Sound, Aligned;
    IssueKeeps(sys, e);
    assert InStep(sys, c) && InStep(Do(sys, Issue(e)), c);
    NextIsIssuedPlusOne(sys, c);
    NextIsIssuedPlusOne(Do(sys, Issue(e)), c);
    OfSnoc(sys.issued, e, c);
  }

  /** Queuing a batch of new events is a run of issue steps; so the delivery theorem holds for the
      program's send. */
  lemma {:induction false} SendIsRun(sys: System, c: Uuid, events: seq<Event>)
    requires Invariant(sys) && sys.acknowledging.None? && c in sys.mine && Continues(sys, c, events)
    ensures Run(sys, IssueSteps(events)) ==
            sys.(issued := sys.issued + events, box := sys.box.(queue := sys.box.queue + events))
    decreases |events|
  {
    hide Invariant, Continues, Enabled;
    if events == [] {
      assert sys.issued + events == sys.issued && sys.box.queue + events == sys.box.queue;
    } else {
      var e, rest := events[0], events[1..];
      IssueContinues(sys, c, events);
      assert IssueSteps(events) == [Issue(e)] + IssueSteps(rest);
      RunStep(sys, Issue(e), IssueSteps(rest));
      SendIsRun(Do(sys, Issue(e)), c, rest);
      assert sys.issued + [e] + rest == sys.issued + events;
      assert sys.box.queue + [e] + rest == sys.box.queue + events;
    }
  }

  lemma {:induction false} RunConcat(sys: System, a: seq<Step>, b: seq<Step>)
    ensures Run(sys, a + b) == Run(Run(sys, a), b)
    decreases |a|
  {
    hide Do;
    if a == [] {
      assert a + b == b;
    } else {
      assert (a + b)[0] == a[0] && (a + b)[1..] == a[1..] + b;
      RunConcat(if Enabled(sys, a[0]) then Do(sys, a[0]) else sys, a[1..], b);
    }
  }
}
