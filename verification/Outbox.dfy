/** The device's durable outbox: a queue of undelivered events and, per conversation, the
    highest sequence known to be delivered. */
module Outbox {
  import opened Journal

  datatype Box = Box(queue: seq<Event>, cursors: map<Uuid, int>)

  function Max(a: int, b: int): int { if a < b then b else a }

  function OfConversation(events: seq<Event>, c: Uuid): seq<Event>
  {
    if events == [] then []
    else
      var rest := OfConversation(events[..|events| - 1], c);
      if events[|events| - 1].conversation == c then rest + [events[|events| - 1]] else rest
  }

  function MaxSequence(events: seq<Event>): int
  {
    if events == [] then 0 else Max(MaxSequence(events[..|events| - 1]), events[|events| - 1].sequence)
  }

  function Cursor(cursors: map<Uuid, int>, c: Uuid): int
  {
    if c in cursors then cursors[c] else 0
  }

  /** The number the next event of a conversation gets. */
  function NextSequence(b: Box, c: Uuid): int
  {
    Max(Cursor(b.cursors, c), MaxSequence(OfConversation(b.queue, c))) + 1
  }

  function Keep(events: seq<Event>, ids: set<Uuid>): seq<Event>
  {
    if events == [] then []
    else
      var rest := Keep(events[..|events| - 1], ids);
      if events[|events| - 1].id in ids then rest + [events[|events| - 1]] else rest
  }

  function Drop(events: seq<Event>, ids: set<Uuid>): seq<Event>
  {
    if events == [] then []
    else
      var rest := Drop(events[..|events| - 1], ids);
      if events[|events| - 1].id in ids then rest else rest + [events[|events| - 1]]
  }

  function Raise(cursors: map<Uuid, int>, e: Event): map<Uuid, int>
  {
    cursors[e.conversation := Max(Cursor(cursors, e.conversation), e.sequence)]
  }

  function Delivered(cursors: map<Uuid, int>, events: seq<Event>, ids: set<Uuid>): map<Uuid, int>
  {
    if events == [] then cursors
    else
      var before := Delivered(cursors, events[..|events| - 1], ids);
      if events[|events| - 1].id in ids then Raise(before, events[|events| - 1]) else before
  }

  /** First durable write of an acknowledgment: the cursors. */
  function RecordDelivered(b: Box, ids: set<Uuid>): Box
  {
    b.(cursors := Delivered(b.cursors, b.queue, ids))
  }

  /** Second durable write of an acknowledgment: the queue. */
  function RemoveDelivered(b: Box, ids: set<Uuid>): Box
  {
    b.(queue := Drop(b.queue, ids))
  }

  /** The events of a batch that may be sent together: a prefix of one conversation's run. */
  ghost predicate IsBatch(queue: seq<Event>, batch: seq<Event>)
  {
    && 1 <= |batch| <= 100 && batch <= queue
    && (forall e :: e in batch ==> e.conversation == batch[0].conversation)
  }

  class EncryptedOutbox {
    var queue: seq<Event>
    var cursors: map<Uuid, int>

    constructor ()
      ensures State() == Box([], map[])
    {
      queue, cursors := [], map[];
    }

    function State(): Box
      reads this
    {
      Box(queue, cursors)
    }

    /** Queues new events behind those of every conversation and moves the next number of each
        conversation past them. */
    method Send(events: seq<Event>)
      modifies this`queue
      ensures queue == old(queue) + events
      ensures forall c :: OfConversation(queue, c) == OfConversation(old(queue), c) + OfConversation(events, c)
      ensures forall c :: NextSequence(State(), c) ==
                Max(old(NextSequence(State(), c)), MaxSequence(OfConversation(events, c)) + 1)
    {
      var pending := queue;
      forall c
        ensures OfConversation(pending + events, c) == OfConversation(pending, c) + OfConversation(events, c)
        ensures NextSequence(Box(pending + events, cursors), c) ==
                Max(NextSequence(Box(pending, cursors), c), MaxSequence(OfConversation(events, c)) + 1)
      {
        OfConcat(pending, events, c);
        MaxConcat(OfConversation(pending, c), OfConversation(events, c));
      }
      queue := pending + events;
    }

    /** One past the delivered and the queued numbers of a conversation. */
    method NextNumber(c: Uuid) returns (next: int)
      ensures next == NextSequence(State(), c)
    {
      var delivered := if c in cursors then cursors[c] else 0;
      var queued := 0;
      var i := 0;
      while i < |queue|
        invariant 0 <= i <= |queue|
        invariant queued == MaxSequence(OfConversation(queue[..i], c))
      {
        assert queue[..i + 1] == queue[..i] + [queue[i]];
        OfSnoc(queue[..i], queue[i], c);
        if queue[i].conversation == c {
          MaxSnoc(OfConversation(queue[..i], c), queue[i]);
          if queued < queue[i].sequence {
            queued := queue[i].sequence;
          }
        }
        i := i + 1;
      }
      assert queue[..i] == queue;
      return (if delivered < queued then queued else delivered) + 1;
    }

    method PersistCursors(ids: set<Uuid>)
      modifies this`cursors
      ensures State() == RecordDelivered(old(State()), ids)
    {
      var raised := cursors;
      var i := 0;
      while i < |queue|
        invariant 0 <= i <= |queue|
        invariant raised == Delivered(cursors, queue[..i], ids)
      {
        assert queue[..i + 1][..i] == queue[..i];
        if queue[i].id in ids {
          var c := queue[i].conversation;
          var reached := if c in raised then raised[c] else 0;
          raised := raised[c := if reached < queue[i].sequence then queue[i].sequence else reached];
        }
        i := i + 1;
      }
      assert queue[..i] == queue;
      if raised != map[] {
        cursors := raised;
      } else {
        DeliveredKeepsKeys(cursors, queue, ids);
      }
    }

    /** The cursors are durable before any event leaves the queue. */
    method Acknowledge(ids: set<Uuid>)
      modifies this`queue, this`cursors
      ensures State() == RemoveDelivered(RecordDelivered(old(State()), ids), ids)
    {
      PersistCursors(ids);
      var remaining: seq<Event> := [];
      var i := 0;
      while i < |queue|
        invariant 0 <= i <= |queue|
        invariant remaining == Drop(queue[..i], ids)
      {
        assert queue[..i + 1][..i] == queue[..i];
        if queue[i].id !in ids {
          remaining := remaining + [queue[i]];
        }
        i := i + 1;
      }
      assert queue[..i] == queue;
      queue := remaining;
    }

    /** Takes events from the front of the queue while they belong to the first one's
        conversation, are at most 100, and the encoded batch stays within the limit. */
    method Snapshot(encodedSize: seq<Event> -> nat, limit: nat) returns (batch: seq<Event>)
      ensures batch != [] ==> IsBatch(queue, batch) && encodedSize(batch) <= limit
      ensures |batch| < |queue| && |batch| < 100 ==>
                || queue[|batch|].conversation != queue[0].conversation
                || encodedSize(queue[..|batch| + 1]) > limit
    {
      batch := [];
      while |batch| < |queue| && |batch| < 100 && queue[|batch|].conversation == queue[0].conversation
        invariant |batch| <= |queue| && |batch| <= 100 && batch == queue[..|batch|]
        invariant forall e :: e in batch ==> e.conversation == queue[0].conversation
        invariant batch != [] ==> encodedSize(batch) <= limit
        decreases |queue| - |batch|
      {
        var candidate := batch + [queue[|batch|]];
        assert candidate == queue[..|batch| + 1];
        if encodedSize(candidate) > limit {
          return;
        }
        batch := candidate;
      }
    }
  }

  lemma {:induction false} DeliveredKeepsKeys(cursors: map<Uuid, int>, events: seq<Event>, ids: set<Uuid>)
    ensures cursors.Keys <= Delivered(cursors, events, ids).Keys
  {
    if events != [] {
      DeliveredKeepsKeys(cursors, events[..|events| - 1], ids);
    }
  }

  // --------------------------------------------------------- laws of the filters

  lemma {:induction false} MaxSnoc(events: seq<Event>, e: Event)
    ensures MaxSequence(events + [e]) == Max(MaxSequence(events), e.sequence)
  {
    assert (events + [e])[..|events|] == events;
  }

  lemma {:induction false} MaxConcat(a: seq<Event>, b: seq<Event>)
    ensures MaxSequence(a + b) == Max(MaxSequence(a), MaxSequence(b))
    decreases |b|
  {
    MaxSequenceBound(a);
    if b == [] {
      assert a + b == a;
    } else {
      var front, e := b[..|b| - 1], b[|b| - 1];
      assert a + b == (a + front) + [e];
      MaxConcat(a, front);
      MaxSnoc(a + front, e);
    }
  }

  lemma {:induction false} OfSnoc(events: seq<Event>, e: Event, c: Uuid)
    ensures OfConversation(events + [e], c) ==
            if e.conversation == c then OfConversation(events, c) + [e] else OfConversation(events, c)
  {
    assert (events + [e])[..|events|] == events;
  }

  lemma {:induction false} OfConcat(a: seq<Event>, b: seq<Event>, c: Uuid)
    ensures OfConversation(a + b, c) == OfConversation(a, c) + OfConversation(b, c)
    decreases |b|
  {
    if b == [] {
      assert a + b == a;
    } else {
      assert a + b == (a + b[..|b| - 1]) + [b[|b| - 1]];
      OfSnoc(a + b[..|b| - 1], b[|b| - 1], c);
      OfConcat(a, b[..|b| - 1], c);
    }
  }

  lemma {:induction false} OfAll(events: seq<Event>, c: Uuid)
    requires forall e :: e in events ==> e.conversation == c
    ensures OfConversation(events, c) == events
  {
    if events != [] {
      OfAll(events[..|events| - 1], c);
    }
  }

  lemma {:induction false} OfMembers(events: seq<Event>, c: Uuid, e: Event)
    ensures e in OfConversation(events, c) <==> e in events && e.conversation == c
  {
    if events != [] {
      assert events == events[..|events| - 1] + [events[|events| - 1]];
      OfMembers(events[..|events| - 1], c, e);
    }
  }

  lemma {:induction false} OfDrop(events: seq<Event>, ids: set<Uuid>, c: Uuid)
    ensures OfConversation(Drop(events, ids), c) == Drop(OfConversation(events, c), ids)
  {
    if events != [] {
      var front, e := events[..|events| - 1], events[|events| - 1];
      OfDrop(front, ids, c);
      OfSnoc(Drop(front, ids), e, c);
      var mine := OfConversation(front, c);
      assert (mine + [e])[..|mine|] == mine;
    }
  }

  lemma {:induction false} DropMembers(events: seq<Event>, ids: set<Uuid>, e: Event)
    ensures e in Drop(events, ids) <==> e in events && e.id !in ids
  {
    if events != [] {
      assert events == events[..|events| - 1] + [events[|events| - 1]];
      DropMembers(events[..|events| - 1], ids, e);
    }
  }

  /** Recording a delivery raises a conversation's cursor to the highest delivered number. */
  lemma {:induction false} DeliveredCursor(cursors: map<Uuid, int>, events: seq<Event>, ids: set<Uuid>, c: Uuid)
    requires Cursor(cursors, c) >= 0
    ensures Cursor(Delivered(cursors, events, ids), c) ==
            Max(Cursor(cursors, c), MaxSequence(Keep(OfConversation(events, c), ids)))
  {
    if events != [] {
      var front, e := events[..|events| - 1], events[|events| - 1];
      DeliveredCursor(cursors, front, ids, c);
      hide Keep, MaxSequence;
      KeepSnoc(OfConversation(front, c), e, ids);
      MaxSnoc(Keep(OfConversation(front, c), ids), e);
    }
  }

  lemma {:induction false} KeepSnoc(events: seq<Event>, e: Event, ids: set<Uuid>)
    ensures Keep(events + [e], ids) == if e.id in ids then Keep(events, ids) + [e] else Keep(events, ids)
  {
    assert (events + [e])[..|events|] == events;
  }

  lemma {:induction false} MaxSequenceBound(events: seq<Event>)
    ensures 0 <= MaxSequence(events)
    ensures forall e :: e in events ==> e.sequence <= MaxSequence(events)
    ensures MaxSequence(events) == 0 || exists i :: 0 <= i < |events| && events[i].sequence == MaxSequence(events)
  {
    if events != [] {
      assert events == events[..|events| - 1] + [events[|events| - 1]];
      MaxSequenceBound(events[..|events| - 1]);
    }
  }
}
