/** The device's side of delivery: one bounded flush of the outbox, the loop that drains it, and
    the paged resume. */
module DeliveryClient {
  import opened Journal
  import S = RelayStore
  import opened Outbox
  import opened Delivery
  import opened RelayTransactions

  const MaxBatchBytes: nat := 256 * 1024
  const PageSize: nat := 100

  datatype Flushed = Idle | InProgress | InvalidBatch | Undelivered | Acknowledged(next: int)

  datatype Resumed = Resumed(events: seq<Event>) | ServerError | InvalidResponse

  predicate DistinctBatch(batch: seq<Event>)
  {
    forall i, j :: 0 <= i < j < |batch| ==> batch[i].id != batch[j].id
  }

  /** The device sends only its own events, each once. */
  predicate Sendable(device: Uuid, batch: seq<Event>)
  {
    DistinctBatch(batch) && forall e :: e in batch ==> e.device == device
  }

  /** The device's test of a page: its size, its cursor and its numbering. */
  predicate PagePasses(page: S.EventPage, c: Uuid, after: int)
  {
    && |page.events| <= PageSize
    && page.cursor == (if page.events == [] then after else page.events[|page.events| - 1].sequence)
    && (forall i :: 0 <= i < |page.events| ==> page.events[i].conversation == c && page.events[i].sequence == after + i + 1)
  }

  /** What the device makes of the answers to its page requests, whatever they are. */
  function Gather(answers: seq<S.Outcome<S.EventPage>>, c: Uuid, remote: seq<Event>, cursor: int): Resumed
    decreases |answers|
  {
    if answers == [] || !answers[0].Ok? then ServerError
    else
      var page := answers[0].value;
      if !PagePasses(page, c, cursor) then InvalidResponse
      else if |page.events| < PageSize then Resumed(remote + page.events)
      else Gather(answers[1..], c, remote + page.events, page.cursor)
  }

  /** Whatever a server answers, what the device takes over is one run of the conversation's
      events, numbered from 1 without a gap. */
  lemma {:induction false} GatheredIsGapless(answers: seq<S.Outcome<S.EventPage>>, c: Uuid, remote: seq<Event>)
    requires forall i :: 0 <= i < |remote| ==> remote[i].conversation == c && remote[i].sequence == i + 1
    ensures var r := Gather(answers, c, remote, |remote|);
            r.Resumed? ==> forall i :: 0 <= i < |r.events| ==> r.events[i].conversation == c && r.events[i].sequence == i + 1
    decreases |answers|
  {
    if answers != [] && answers[0].Ok? && PagePasses(answers[0].value, c, |remote|) {
      var page := answers[0].value;
      var more := remote + page.events;
      if |page.events| >= PageSize {
        assert page.cursor == |more|;
        GatheredIsGapless(answers[1..], c, more);
      }
    }
  }

  /** A protocol state with this device, outbox and store, between two flushes. */
  ghost predicate Matches(sys: System, device: Uuid, box: Box, server: S.Store)
  {
    sys.device == device && sys.box == box && sys.server == server && sys.acknowledging.None?
  }

  class SignedConversationRelay {
    const device: Uuid
    var isDelivering: bool

    constructor (device: Uuid)
      ensures this.device == device && !isDelivering
    {
      this.device, isDelivering := device, false;
    }

    /** Sends the front of the queue once. Whatever happens, the server either took the whole
        batch or did not change, and the queue shrinks only after an answer that covers it. */
    method Flush(outbox: EncryptedOutbox, store: ConversationRelayStore, encodedSize: seq<Event> -> nat, fault: Fault)
      returns (r: Flushed, ghost batch: seq<Event>)
      modifies this`isDelivering, outbox`queue, outbox`cursors, store`logs
      ensures isDelivering == old(isDelivering)
      ensures r.InProgress? <==> old(isDelivering)
      ensures r.Idle? <==> !old(isDelivering) && old(outbox.queue) == []
      ensures r.Idle? || r.InProgress? || r.InvalidBatch? ==>
                outbox.State() == old(outbox.State()) && store.State() == old(store.State())
      ensures r.Undelivered? || r.Acknowledged? ==>
                && IsBatch(old(outbox.queue), batch)
                && (forall e :: e in batch ==> e.device == device)
                && (forall i, j :: 0 <= i < j < |batch| ==> batch[i].id != batch[j].id)
                && (store.State(), outbox.State()) == FlushEffect(old(store.State()), old(outbox.State()), device, batch, fault)
                && var answer := S.Append(old(store.State()), batch[0].conversation, device, batch).1;
                   && (r.Acknowledged? <==> Trusted(answer, batch) && fault.NoFault?)
                   && (r.Acknowledged? ==> r.next == answer.value && forall e :: e in batch ==> e.sequence < r.next)
                   && (r.Undelivered? && fault.NoFault? && answer.Ok? ==>
                         answer.value <= 0 || exists e :: e in batch && answer.value <= e.sequence)
      ensures r.InvalidBatch? ==>
                && old(outbox.queue) != []
                && (|| (batch == [] && encodedSize(old(outbox.queue)[..1]) > 262144)
                    || (IsBatch(old(outbox.queue), batch) &&
                        (|| (exists e :: e in batch && e.device != device)
                         || (exists i, j :: 0 <= i < j < |batch| && batch[i].id == batch[j].id))))
    {
      hide S.Append, IsBatch, Ids, RecordDelivered, RemoveDelivered, MaxSequence;
      batch := [];
      if isDelivering {
        return InProgress, batch;
      }
      if outbox.queue == [] {
        return Idle, batch;
      }
      var taken := outbox.Snapshot(encodedSize, MaxBatchBytes);
      batch := taken;
      if taken == [] || !Sendable(device, taken) {
        return InvalidBatch, batch;
      }
      BeyondAll(taken);
      isDelivering := true;
      if fault.RequestLost? {
        isDelivering := false;
        return Undelivered, batch;
      }
      var answer := store.Append(taken[0].conversation, device, taken);
      if fault.ResponseLost? || !answer.Ok? || answer.value <= MaxSequence(taken) {
        isDelivering := false;
        return Undelivered, batch;
      }
      if fault.StopsBetweenWrites? {
        outbox.PersistCursors(Ids(taken));
        isDelivering := false;
        return Undelivered, batch;
      }
      outbox.Acknowledge(Ids(taken));
      isDelivering := false;
      return Acknowledged(answer.value), batch;
    }

    /** Flushes until the queue is empty or a flush fails; `faults` says what goes wrong when. The
        whole loop is a run of the protocol, and when it ends idle everything issued is in the logs. */
    method Drain(outbox: EncryptedOutbox, store: ConversationRelayStore, encodedSize: seq<Event> -> nat, faults: nat -> Fault,
                 ghost sys: System) returns (r: Flushed, ghost steps: seq<Step>)
      requires !isDelivering && Matches(sys, device, outbox.State(), store.State())
      modifies this`isDelivering, outbox`queue, outbox`cursors, store`logs
      ensures Matches(Run(sys, steps), device, outbox.State(), store.State())
      ensures r.Idle? <==> outbox.queue == []
      ensures !r.Acknowledged? && !r.InProgress? && !isDelivering
      ensures Invariant(sys) ==> Invariant(Run(sys, steps))
      ensures Invariant(sys) && r.Idle? ==> forall c :: c in sys.mine ==> Log(Run(sys, steps), c) == Issued(sys, c)
    {
      hide S.Append, Invariant, IsBatch, Ids, Sendable, FlushEffect, Run;
      steps := [];
      r := Acknowledged(0);
      var k: nat := 0;
      RunNothing(sys);
      while r.Acknowledged?
        invariant !isDelivering && !r.InProgress?
        invariant r.Idle? ==> outbox.queue == []
        invariant !r.Acknowledged? && !r.Idle? ==> outbox.queue != []
        invariant Matches(Run(sys, steps), device, outbox.State(), store.State()) && Run(sys, steps).issued == sys.issued
        decreases |outbox.queue|, if r.Acknowledged? then 1 else 0
      {
        ghost var before, now := outbox.queue, Run(sys, steps);
        ghost var batch;
        r, batch := Flush(outbox, store, encodedSize, faults(k));
        if r.Undelivered? || r.Acknowledged? {
          FlushMatches(now, batch, faults(k));
          RunConcat(sys, steps, FlushSteps(now, batch, faults(k)));
          steps := steps + FlushSteps(now, batch, faults(k));
          FlushShrinks(now.server, now.box, device, batch, faults(k));
        }
        k := k + 1;
      }
      if Invariant(sys) {
        RunKeeps(sys, steps);
        if r.Idle? {
          NothingPending(Run(sys, steps), sys);
        }
      }
    }

    /** Reads the whole conversation page by page. In a sound store every page passes the
        device's test and the pages together are the log. */
    method Resume(store: ConversationRelayStore, c: Uuid) returns (r: Resumed, ghost answers: seq<S.Outcome<S.EventPage>>)
      requires S.Sound(store.State())
      ensures r == Gather(answers, c, [], 0)
      ensures r == if device in store.devices && c in store.conversations
                      && store.devices[device].participant in store.conversations[c].participants && c in store.logs
                   then Resumed(store.logs[c]) else ServerError
    {
      hide PagePasses, S.Page, Gather, S.Sound, S.Append;
      var remote: seq<Event>, cursor: nat := [], 0;
      answers := [];
      if S.Authorized(store.State(), c, device) {
        AuthorizedLog(store.State(), c, device);
      }
      assert forall rest: seq<S.Outcome<S.EventPage>> :: answers + rest == rest;
      while true
        invariant forall rest :: Gather(answers + rest, c, [], 0) == Gather(rest, c, remote, cursor)
        invariant S.Authorized(store.State(), c, device) ==> cursor <= |store.logs[c]| && remote == store.logs[c][..cursor]
        decreases if S.Authorized(store.State(), c, device) then |store.logs[c]| - cursor else 0
      {
        var answer := store.ReadPage(c, device, cursor, PageSize);
        GatherOne(answers, answer, c, remote, cursor);
        answers := answers + [answer];
        if !answer.Ok? {
          return ServerError, answers;
        }
        var page := answer.value;
        PageOfLog(store.State(), c, cursor);
        PagePassesTest(page, c, cursor);
        if !PagePasses(page, c, cursor) {
          return InvalidResponse, answers;
        }
        remote := remote + page.events;
        cursor := page.cursor;
        if |page.events| < PageSize {
          return Resumed(remote), answers;
        }
      }
    }
  }

  lemma {:induction false} PagePassesTest(page: S.EventPage, c: Uuid, after: int)
    requires |page.events| <= PageSize
    requires page.cursor == (if page.events == [] then after else page.events[|page.events| - 1].sequence)
    requires forall i :: 0 <= i < |page.events| ==> page.events[i].conversation == c && page.events[i].sequence == after + i + 1
    ensures PagePasses(page, c, after) && page.cursor == after + |page.events|
  {
  }

  /** One more answer: the loop ends with it or goes on with what it has by then. */
  lemma {:induction false} GatherOne(answers: seq<S.Outcome<S.EventPage>>, answer: S.Outcome<S.EventPage>, c: Uuid, remote: seq<Event>, cursor: int)
    requires forall rest :: Gather(answers + rest, c, [], 0) == Gather(rest, c, remote, cursor)
    ensures !answer.Ok? ==> Gather(answers + [answer], c, [], 0) == ServerError
    ensures answer.Ok? && !PagePasses(answer.value, c, cursor) ==> Gather(answers + [answer], c, [], 0) == InvalidResponse
    ensures answer.Ok? && PagePasses(answer.value, c, cursor) && |answer.value.events| < PageSize ==>
              Gather(answers + [answer], c, [], 0) == Resumed(remote + answer.value.events)
    ensures answer.Ok? && PagePasses(answer.value, c, cursor) && |answer.value.events| >= PageSize ==>
              forall rest :: Gather(answers + [answer] + rest, c, [], 0) ==
                             Gather(rest, c, remote + answer.value.events, answer.value.cursor)
  {
    hide PagePasses;
    forall rest: seq<S.Outcome<S.EventPage>>
      ensures answers + [answer] + rest == answers + ([answer] + rest)
      ensures Gather(answers + ([answer] + rest), c, [], 0) == Gather([answer] + rest, c, remote, cursor)
      ensures ([answer] + rest)[1..] == rest
    {
    }
  }

  lemma {:induction false} DropShorter(events: seq<Event>, ids: set<Uuid>)
    ensures |Drop(events, ids)| <= |events|
    ensures events != [] && events[0].id in ids ==> |Drop(events, ids)| < |events|
  {
    if events != [] {
      DropShorter(events[..|events| - 1], ids);
    }
  }

  lemma {:induction false} RunNothing(sys: System)
    ensures Run(sys, []) == sys
  {
  }

  lemma {:induction false} FlushMatches(sys: System, batch: seq<Event>, fault: Fault)
    requires sys.acknowledging.None? && IsBatch(sys.box.queue, batch)
    ensures batch != []
    ensures var later := Run(sys, FlushSteps(sys, batch, fault));
            && (later.server, later.box) == FlushEffect(sys.server, sys.box, sys.device, batch, fault)
            && later.acknowledging.None? && later.issued == sys.issued && later.device == sys.device
  {
    NonEmptyBatch(sys.box.queue, batch);
    FlushIsRun(sys, batch, fault);
  }

  /** An acknowledged flush leaves a shorter queue, any other the same one. */
  lemma {:induction false} FlushShrinks(server: S.Store, box: Box, device: Uuid, batch: seq<Event>, fault: Fault)
    requires IsBatch(box.queue, batch) && batch != []
    ensures var queue := FlushEffect(server, box, device, batch, fault).1.queue;
            if fault.NoFault? && Trusted(S.Append(server, batch[0].conversation, device, batch).1, batch)
            then |queue| < |box.queue|
            else queue == box.queue && queue != []
  {
    hide S.Append;
    RemovalShrinks(box.queue, batch);
  }

  lemma {:induction false} NothingPending(later: System, sys: System)
    requires Invariant(later) && later.box.queue == [] && later.issued == sys.issued && later.mine == sys.mine
    ensures forall c :: c in sys.mine ==> Log(later, c) == Issued(sys, c)
  {
    hide Invariant, Log;
    forall c | c in sys.mine
      ensures Log(later, c) == Issued(sys, c)
    {
      DrainedMeansDelivered(later, c);
    }
  }

  lemma {:induction false} RemovalShrinks(queue: seq<Event>, batch: seq<Event>)
    requires IsBatch(queue, batch)
    ensures |Drop(queue, Ids(batch))| < |queue|
  {
    assert queue[0] == batch[0];
    DropShorter(queue, Ids(batch));
  }

  lemma {:induction false} AcceptedConversation(s: Scope, trace: seq<Event>)
    requires Accepted(s, trace)
    ensures forall i :: 0 <= i < |trace| ==> trace[i].conversation == s.conversation
  {
    if trace != [] {
      AcceptedConversation(s, trace[..|trace| - 1]);
    }
  }

  lemma {:induction false} AuthorizedLog(st: S.Store, c: Uuid, d: Uuid)
    requires S.Sound(st) && S.Authorized(st, c, d)
    ensures Accepted(S.ScopeOf(st, c), st.logs[c])
    ensures forall i :: 0 <= i < |st.logs[c]| ==> st.logs[c][i].conversation == c && st.logs[c][i].sequence == i + 1
  {
    S.HistoryIsComplete(st, c);
    AcceptedNumbering(S.ScopeOf(st, c), st.logs[c]);
    AcceptedConversation(S.ScopeOf(st, c), st.logs[c]);
  }

  /** One page of a sound log: the next events, numbered without a gap, and fewer than a full
      page only at the end. */
  lemma {:induction false} PageOfLog(st: S.Store, c: Uuid, cursor: nat)
    requires S.Sound(st) && c in st.logs && cursor <= |st.logs[c]|
    ensures var log := st.logs[c]; var page := S.Page(log, cursor, PageSize);
            && |page| <= PageSize && cursor + |page| <= |log|
            && log[..cursor] + page == log[..cursor + |page|]
            && (|page| < PageSize ==> cursor + |page| == |log|)
            && (forall i :: 0 <= i < |page| ==> page[i].conversation == c && page[i].sequence == cursor + i + 1)
  {
    hide S.Sound, S.Page, Accepted;
    S.SoundKeys(st);
    S.HistoryIsComplete(st, c);
    var log, s := st.logs[c], S.ScopeOf(st, c);
    AcceptedNumbering(s, log);
    AcceptedConversation(s, log);
    S.PageIsSlice(s, log, cursor, PageSize);
    SliceJoins(log, cursor, S.Page(log, cursor, PageSize));
  }

  lemma {:induction false} SliceJoins(log: seq<Event>, cursor: nat, page: seq<Event>)
    requires cursor + |page| <= |log| && page == log[cursor..cursor + |page|]
    ensures log[..cursor] + page == log[..cursor + |page|]
  {
  }
}
