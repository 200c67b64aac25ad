/** That delivery happens: from nothing, a device is bound, opens a conversation, issues events that
    the gate accepts and flushes once, and the log holds exactly them. */
module DeliveryReach {
  import opened Options
  import opened Journal
  import S = RelayStore
  import B = RelayBatches
  import opened Outbox
  import opened Delivery
  import opened DeliveryClient

  /** The store after binding the device and creating the conversation. */
  function Opened(identity: (Uuid, string), device: Device, c: Uuid, title: string): S.Store
  {
    S.Store(map[identity.0 := identity.1], map[device.id := device],
            map[c := S.Conversation(title, {device.participant}, true)], map[c := []], {})
  }

  function OpeningSteps(identity: (Uuid, string), device: Device, c: Uuid, title: string): seq<Step>
  {
    [Other(S.ProvisionStep(identity, device)), Other(S.CreateStep(c, title, device.id))]
  }

  /** What the gate of the new conversation knows. */
  function OwnScope(device: Device, c: Uuid): Scope
  {
    Scope(c, true, {device.participant}, map[device.id := device])
  }

  ghost predicate Sendable(device: Device, e: Event)
  {
    && e.device == device.id && e.zoned && e.bytes <= 16384
    && (e.kind == KindPartial || e.kind == KindFinal || e.kind == KindCancellation || e.kind == KindResume)
  }

  lemma {:induction false} Opens(identity: (Uuid, string), device: Device, c: Uuid, title: string)
    requires identity.0 == device.participant
    ensures Run(Start(device.id, {c}), OpeningSteps(identity, device, c, title)) ==
            Start(device.id, {c}).(server := Opened(identity, device, c, title))
  {
    var start := Start(device.id, {c});
    var bind, create := Other(S.ProvisionStep(identity, device)), Other(S.CreateStep(c, title, device.id));
    var bound := Do(start, bind);
    assert OpeningSteps(identity, device, c, title) == [bind] + ([create] + []);
    RunStep(start, bind, [create] + []);
    RunStep(bound, create, []);
    assert bound.server.devices == map[device.id := device];
    assert Do(bound, create).server == Opened(identity, device, c, title);
  }

  lemma {:induction false} OpenedScope(identity: (Uuid, string), device: Device, c: Uuid, title: string)
    ensures S.ScopeOf(Opened(identity, device, c, title), c) == OwnScope(device, c)
  {
  }

  lemma {:induction false} NewsOfNothing(batch: seq<Event>)
    ensures B.News([], batch) == batch
  {
    if batch != [] {
      NewsOfNothing(batch[..|batch| - 1]);
    }
  }

  lemma {:induction false} EachFits(s: Scope, device: Device, events: seq<Event>, k: nat)
    requires k < |events| <= 100 && Accepted(s, events) && forall e :: e in events ==> Sendable(device, e)
    ensures B.Sends(device.id, events[k]) && B.Fits(s, {}, [], events, k)
  {
    hide Replay;
    assert events[k] in events;
    NewsOfNothing(events[..k]);
    AcceptedPrefix(s, events, k + 1);
    assert events[..k + 1] == [] + events[..k] + [events[k]];
  }

  lemma {:induction false} AllGoThrough(s: Scope, device: Device, events: seq<Event>)
    requires |events| <= 100 && Accepted(s, events) && forall e :: e in events ==> Sendable(device, e)
    ensures B.GoesThrough(s, device.id, {}, [], events, |events|)
  {
    hide Replay, B.Fits, B.Sends, Sendable;
    forall k | 0 <= k < |events|
      ensures B.Sends(device.id, events[k]) && B.Fits(s, {}, [], events, k)
    {
      EachFits(s, device, events, k);
    }
  }

  lemma {:induction false} NothingTaken(identity: (Uuid, string), device: Device, c: Uuid, title: string)
    ensures S.Taken(Opened(identity, device, c, title), c) == {}
  {
  }

  /** The store takes the whole batch. */
  lemma {:induction false} TakesAll(identity: (Uuid, string), device: Device, c: Uuid, title: string, events: seq<Event>)
    requires S.Sound(Opened(identity, device, c, title)) && 1 <= |events| <= 100
    requires Accepted(OwnScope(device, c), events) && forall e :: e in events ==> Sendable(device, e)
    ensures var st := Opened(identity, device, c, title);
            S.Append(st, c, device.id, events) == (st.(logs := map[c := events]), S.Ok(|events| + 1))
  {
    hide S.Sound, S.Append, S.Taken, S.ScopeOf, B.News, B.GoesThrough, B.Sends, Replay, Sendable;
    var st, s := Opened(identity, device, c, title), OwnScope(device, c);
    OpenedScope(identity, device, c, title);
    NothingTaken(identity, device, c, title);
    AcceptedNumbering(s, events);
    NewsOfNothing(events);
    AllGoThrough(s, device, events);
    B.AppendExactly(st, c, device.id, events);
    assert [] + events == events;
    assert st.logs[c := events] == map[c := events];
  }

  lemma {:induction false} StartsContinuing(identity: (Uuid, string), device: Device, c: Uuid, title: string, events: seq<Event>)
    requires Accepted(OwnScope(device, c), events) && forall e :: e in events ==> Sendable(device, e)
    ensures Continues(Start(device.id, {c}).(server := Opened(identity, device, c, title)), c, events)
  {
    AcceptedNumbering(OwnScope(device, c), events);
    AcceptedConversation(OwnScope(device, c), events);
    forall i | 0 <= i < |events|
      ensures events[i].device == device.id
    {
      assert events[i] in events;
    }
  }

  lemma {:induction false} LastNumber(events: seq<Event>)
    requires forall i :: 0 <= i < |events| ==> events[i].sequence == i + 1
    ensures MaxSequence(events) == |events|
  {
    if events != [] {
      LastNumber(events[..|events| - 1]);
    }
  }

  lemma {:induction false} AllDropped(events: seq<Event>)
    ensures Drop(events, Ids(events)) == []
  {
    forall i | 0 <= i < |events|
      ensures events[i].id in Ids(events)
    {
      assert events[i] in events;
    }
    KeepAll(events, Ids(events));
  }

  /** From the empty system: bind, create, issue, flush. Everything the gate accepts, up to a full
      batch, is then in the log, in order, and nothing is left in the queue. */
  lemma {:induction false} DeliveredFromStart(identity: (Uuid, string), device: Device, c: Uuid, title: string, events: seq<Event>)
    requires identity.0 == device.participant && 1 <= |events| <= 100
    requires Accepted(OwnScope(device, c), events) && forall e :: e in events ==> Sendable(device, e)
    ensures var sent := Run(Start(device.id, {c}), OpeningSteps(identity, device, c, title) + IssueSteps(events));
            var done := Run(sent, FlushSteps(sent, events, NoFault));
            Log(done, c) == events && done.box.queue == [] && done.issued == events
  {
    hide Run, S.Append, Invariant, Continues, FlushSteps, Ids, Drop, Replay, S.Sound, IssueSteps, Sendable, IsBatch, OwnScope, Opened;
    var start, st := Start(device.id, {c}), Opened(identity, device, c, title);
    var opening := OpeningSteps(identity, device, c, title);
    var ready := start.(server := st);
    Opens(identity, device, c, title);
    StartHolds(device.id, {c});
    RunKeeps(start, opening);
    StartsContinuing(identity, device, c, title, events);
    SendIsRun(ready, c, events);
    RunConcat(start, opening, IssueSteps(events));
    assert [] + events == events;
    SoundServer(ready);
    FlushDelivers(ready.(issued := events, box := Box(events, map[])), identity, device, c, title, events);
  }

  lemma {:induction false} FlushDelivers(sent: System, identity: (Uuid, string), device: Device, c: Uuid, title: string, events: seq<Event>)
    requires sent.server == Opened(identity, device, c, title) && S.Sound(sent.server) && 1 <= |events| <= 100
    requires Accepted(OwnScope(device, c), events) && forall e :: e in events ==> Sendable(device, e)
    requires sent.device == device.id && sent.box == Box(events, map[]) && sent.issued == events && sent.acknowledging.None?
    ensures var done := Run(sent, FlushSteps(sent, events, NoFault));
            Log(done, c) == events && done.box.queue == [] && done.issued == events
  {
    hide Run, S.Append, FlushSteps, Ids, Drop, Replay, S.Sound, Sendable, IsBatch, MaxSequence, Delivered;
    var s := OwnScope(device, c);
    AcceptedConversation(s, events);
    AcceptedNumbering(s, events);
    WholeBatch(events, c);
    FlushIsRun(sent, events, NoFault);
    TakesAll(identity, device, c, title, events);
    LastNumber(events);
    AllDropped(events);
  }

  lemma {:induction false} SoundServer(sys: System)
    requires Invariant(sys)
    ensures S.Sound(sys.server)
  {
  }

  lemma {:induction false} WholeBatch(events: seq<Event>, c: Uuid)
    requires 1 <= |events| <= 100 && forall i :: 0 <= i < |events| ==> events[i].conversation == c
    ensures IsBatch(events, events) && events[0].conversation == c
  {
  }
}
