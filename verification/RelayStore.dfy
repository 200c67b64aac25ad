/** The durable conversation store: device bindings, conversations and their event logs.
    A batch is accepted as a whole or not at all; an exact retry is acknowledged again. */
module RelayStore {
  import opened Journal

  const MaxConversationEvents: nat := 10000
  const MaxBatchEvents: nat := 100
  const MaxEventBytes: nat := 16 * 1024

  const ClientKinds: set<Kind> := {KindPartial, KindFinal, KindCancellation, KindResume}

  datatype Conversation = Conversation(title: string, participants: set<Uuid>, active: bool)

  /** `recordIds` are the identities taken by canonical records outside the logs. */
  datatype Store = Store(
    identities: map<Uuid, string>,
    devices: map<Uuid, Device>,
    conversations: map<Uuid, Conversation>,
    logs: map<Uuid, seq<Event>>,
    recordIds: set<Uuid>)

  const Empty := Store(map[], map[], map[], map[], {})

  datatype Outcome<+T> = Ok(value: T) | AccessDenied | Conflict

  predicate Authorized(st: Store, c: Uuid, d: Uuid)
  {
    d in st.devices && c in st.conversations && c in st.logs &&
    st.devices[d].participant in st.conversations[c].participants
  }

  function ScopeOf(st: Store, c: Uuid): Scope
    requires c in st.conversations
  {
    var v := st.conversations[c];
    Scope(c, v.active, v.participants, st.devices - set d | d in st.devices && st.devices[d].participant !in v.participants)
  }

  // ----------------------------------------------------------------- operations

  /** Binds a device to its participant; binding it again the same way changes nothing. */
  function Provision(st: Store, identity: (Uuid, string), device: Device): (Store, Outcome<()>)
  {
    if identity.0 != device.participant then (st, AccessDenied)
    else if identity.0 in st.identities && st.identities[identity.0] != identity.1 then (st, Conflict)
    else if device.id in st.devices && st.devices[device.id] != device then (st, Conflict)
    else (st.(identities := st.identities[identity.0 := identity.1], devices := st.devices[device.id := device]), Ok(()))
  }

  /** Creates a conversation of the device's participant, or acknowledges the same creation again. */
  function Create(st: Store, c: Uuid, title: string, d: Uuid): (Store, Outcome<Uuid>)
  {
    if d !in st.devices then (st, AccessDenied)
    else if c in st.conversations then
      if !Authorized(st, c, d) then (st, AccessDenied)
      else if st.conversations[c].title != title then (st, Conflict)
      else (st, Ok(c))
    else
      (st.(conversations := st.conversations[c := Conversation(title, {st.devices[d].participant}, true)],
           logs := st.logs[c := []]), Ok(c))
  }

  function After(log: seq<Event>, after: int): seq<Event>
  {
    if log == [] then []
    else After(log[..|log| - 1], after) + (if log[|log| - 1].sequence > after then [log[|log| - 1]] else [])
  }

  /** An ordered page of at most `limit` events with a sequence above `after`. */
  function Page(log: seq<Event>, after: int, limit: nat): seq<Event>
  {
    var later := After(log, after);
    if |later| <= limit then later else later[..limit]
  }

  /** What reading events answers; the access comes before the bounds. */
  function Events(st: Store, c: Uuid, d: Uuid, after: int, limit: int): Outcome<seq<Event>>
  {
    if !Authorized(st, c, d) then AccessDenied
    else if after < 0 || limit < 1 || limit > MaxConversationEvents then Conflict
    else Ok(Page(st.logs[c], after, limit))
  }

  datatype EventPage = EventPage(events: seq<Event>, cursor: int)

  /** A resume page of at most 100 events, with the number of its last event as the cursor. */
  function ReadPage(st: Store, c: Uuid, d: Uuid, after: int, limit: int): Outcome<EventPage>
  {
    if after < 0 || limit < 1 || limit > 100 then Conflict
    else match Events(st, c, d, after, limit)
      case AccessDenied => AccessDenied
      case Conflict => Conflict
      case Ok(events) => Ok(EventPage(events, if events == [] then after else events[|events| - 1].sequence))
  }

  /** The identities an insertion into conversation `c` must not repeat: those of other records. */
  function Taken(st: Store, c: Uuid): set<Uuid>
  {
    st.recordIds + set k, e | k in st.logs && k != c && e in st.logs[k] :: e.id
  }

  predicate ClientEvent(e: Event)
  {
    e.kind in ClientKinds && e.zoned && e.bytes <= MaxEventBytes
  }

  /** The loop over a batch: `known` are the events of the stream so far. */
  function AppendEach(s: Scope, d: Uuid, taken: set<Uuid>, g: Gate, known: seq<Event>, batch: seq<Event>): Outcome<seq<Event>>
    decreases |batch|
  {
    if batch == [] then Ok(known)
    else
      var e := batch[0];
      if e.device != d || e.kind !in ClientKinds then AccessDenied
      else if !e.zoned || e.bytes > MaxEventBytes then Conflict
      else if e.id in Ids(known) then
        if e in known then AppendEach(s, d, taken, g, known, batch[1..]) else Conflict
      else if |known| >= MaxConversationEvents || !Accepts(s, g, e) || e.id in taken then Conflict
      else AppendEach(s, d, taken, Advance(g, e), known + [e], batch[1..])
  }

  predicate BatchShape(batch: seq<Event>)
  {
    1 <= |batch| <= MaxBatchEvents && forall i, j :: 0 <= i < j < |batch| ==> batch[i].id != batch[j].id
  }

  /** The transaction: authorize, replay the stored history, then take the batch or nothing.
      The answer is the number the next event must carry. */
  function Append(st: Store, c: Uuid, d: Uuid, batch: seq<Event>): (Store, Outcome<nat>)
  {
    if !Authorized(st, c, d) then (st, AccessDenied)
    else
      var s := ScopeOf(st, c);
      var history := Page(st.logs[c], 0, MaxConversationEvents);
      var g := Replay(s, history);
      if g.None? || !BatchShape(batch) then (st, Conflict)
      else
        match AppendEach(s, d, Taken(st, c), g.value, history, batch)
        case AccessDenied => (st, AccessDenied)
        case Conflict => (st, Conflict)
        case Ok(known) =>
          if |history| <= |known| then
            (st.(logs := st.logs[c := st.logs[c] + known[|history|..]]), Ok(|known| + 1))
          else (st, Conflict)
  }

  // ------------------------------------------------------------------ invariant

  ghost predicate SoundLog(st: Store, c: Uuid)
    requires c in st.conversations && c in st.logs
  {
    && Accepted(ScopeOf(st, c), st.logs[c])
    && |st.logs[c]| <= MaxConversationEvents
    && (forall e :: e in st.logs[c] ==> ClientEvent(e))
  }

  ghost predicate Sound(st: Store)
  {
    && st.logs.Keys == st.conversations.Keys
    && (forall d :: d in st.devices ==> st.devices[d].id == d)
    && (forall c :: c in st.logs ==> SoundLog(st, c))
    && (forall c, k :: c in st.logs && k in st.logs && c != k ==> Ids(st.logs[c]) !! Ids(st.logs[k]))
    && (forall c :: c in st.logs ==> Ids(st.logs[c]) !! st.recordIds)
  }

  lemma {:induction false} SoundKeys(st: Store)
    requires Sound(st)
    ensures st.logs.Keys == st.conversations.Keys
  {
  }

  lemma {:induction false} AfterIsSlice(log: seq<Event>, after: nat)
    requires forall i :: 0 <= i < |log| ==> log[i].sequence == i + 1
    ensures After(log, after) == if after <= |log| then log[after..] else []
  {
    if log != [] {
      hide After;
      var n := |log| - 1;
      var front, e := log[..n], log[n];
      assert log == front + [e] && e.sequence == n + 1;
      AfterIsSlice(front, after);
      AfterSnoc(front, e, after);
      SliceSnoc(front, e, after);
    } else {
      assert log[0..] == [];
    }
  }

  lemma {:induction false} SliceSnoc(front: seq<Event>, e: Event, after: nat)
    ensures after <= |front| ==> (front + [e])[after..] == front[after..] + [e]
    ensures after == |front| + 1 ==> (front + [e])[after..] == []
  {
  }

  lemma {:induction false} AfterSnoc(log: seq<Event>, e: Event, after: int)
    ensures After(log + [e], after) == if e.sequence > after then After(log, after) + [e] else After(log, after)
  {
    assert (log + [e])[..|log|] == log;
    assert After(log, after) + [] == After(log, after);
  }

  /** In a sound store a page is a slice of the log, so the bounded history read is complete. */
  lemma {:induction false} PageIsSlice(s: Scope, log: seq<Event>, after: nat, limit: nat)
    requires Accepted(s, log)
    ensures Page(log, after, limit) ==
            if after >= |log| then [] else if |log| - after <= limit then log[after..] else log[after..after + limit]
  {
    AcceptedNumbering(s, log);
    AfterIsSlice(log, after);
  }

  lemma {:induction false} HistoryIsComplete(st: Store, c: Uuid)
    requires Sound(st) && c in st.logs
    ensures Page(st.logs[c], 0, MaxConversationEvents) == st.logs[c]
    ensures Accepted(ScopeOf(st, c), st.logs[c])
  {
    assert SoundLog(st, c);
    PageIsSlice(ScopeOf(st, c), st.logs[c], 0, MaxConversationEvents);
  }

  /** The batch loop, from an accepted stream: it extends the stream by accepted client events
      of this device, holds every batch event in the end, and takes no identity in use. */
  lemma {:induction false} AppendEachSound(s: Scope, d: Uuid, taken: set<Uuid>, known: seq<Event>, batch: seq<Event>)
    requires Accepted(s, known) && |known| <= MaxConversationEvents
    requires AppendEach(s, d, taken, Replay(s, known).value, known, batch).Ok?
    ensures var r := AppendEach(s, d, taken, Replay(s, known).value, known, batch).value;
            && known <= r && Accepted(s, r) && |r| <= MaxConversationEvents
            && (forall e :: e in r && e !in known ==> ClientEvent(e) && e.device == d && e.id !in taken)
            && (forall e :: e in batch ==> e in r && ClientEvent(e) && e.device == d)
    decreases |batch|
  {
    if batch != [] {
      var e := batch[0];
      assert batch == [e] + batch[1..];
      if e.id in Ids(known) {
        AppendEachSound(s, d, taken, known, batch[1..]);
      } else {
        ReplaySnoc(s, known, e);
        AppendEachSound(s, d, taken, known + [e], batch[1..]);
        assert e in known + [e];
      }
    }
  }

  /** Events already in the stream are acknowledged without change. */
  lemma {:induction false} AppendEachKnown(s: Scope, d: Uuid, taken: set<Uuid>, g: Gate, known: seq<Event>, batch: seq<Event>)
    requires forall e :: e in batch ==> e in known && ClientEvent(e) && e.device == d
    ensures AppendEach(s, d, taken, g, known, batch) == Ok(known)
    decreases |batch|
  {
    if batch != [] {
      assert batch[0] in batch;
      assert batch[0].id in Ids(known);
      AppendEachKnown(s, d, taken, g, known, batch[1..]);
    }
  }

  /** An accepted append: the log grows by accepted events and nothing else moves. */
  lemma {:induction false} AppendExtends(st: Store, c: Uuid, d: Uuid, batch: seq<Event>)
    requires Sound(st) && Append(st, c, d, batch).1.Ok?
    ensures c in st.logs
    ensures var st' := Append(st, c, d, batch).0;
            && st' == st.(logs := st.logs[c := st'.logs[c]])
            && st.logs[c] <= st'.logs[c]
            && Append(st, c, d, batch).1.value == |st'.logs[c]| + 1
            && SoundLog(st', c)
            && (forall e :: e in st'.logs[c] && e !in st.logs[c] ==> e.id !in Taken(st, c))
            && (forall e :: e in batch ==> e in st'.logs[c] && ClientEvent(e) && e.device == d)
  {
    var known := AppendTakes(st, c, d, batch);
    hide Append, Sound, AppendEach, Taken, Accepted, Replay, ClientEvent, ScopeOf;
    var s, log := ScopeOf(st, c), st.logs[c];
    HistoryIsComplete(st, c);
    LogIsSound(st, c);
    AppendEachSound(s, d, Taken(st, c), log, batch);
    SameScope(st, c, known);
    forall e | e in known
      ensures ClientEvent(e)
    {
      if e !in log {
        assert ClientEvent(e);
      }
    }
  }

  lemma {:induction false} LogIsSound(st: Store, c: Uuid)
    requires Sound(st) && c in st.logs
    ensures c in st.conversations && SoundLog(st, c)
  {
    hide SoundLog;
  }

  lemma {:induction false} SameScope(st: Store, c: Uuid, log: seq<Event>)
    requires c in st.conversations
    ensures ScopeOf(st.(logs := st.logs[c := log]), c) == ScopeOf(st, c)
  {
  }

  /** An accepted append stores the stream the batch loop ends with. */
  lemma {:induction false} AppendTakes(st: Store, c: Uuid, d: Uuid, batch: seq<Event>) returns (known: seq<Event>)
    requires Sound(st) && Append(st, c, d, batch).1.Ok?
    ensures c in st.logs && c in st.conversations && Accepted(ScopeOf(st, c), st.logs[c]) && st.logs[c] <= known
    ensures AppendEach(ScopeOf(st, c), d, Taken(st, c), Replay(ScopeOf(st, c), st.logs[c]).value, st.logs[c], batch) == Ok(known)
    ensures Append(st, c, d, batch) == (st.(logs := st.logs[c := known]), Ok(|known| + 1))
  {
    hide AppendEach, Taken, Replay, ScopeOf, Page;
    HistoryIsComplete(st, c);
    var s, log := ScopeOf(st, c), st.logs[c];
    known := AppendEach(s, d, Taken(st, c), Replay(s, log).value, log, batch).value;
    LogIsSound(st, c);
    StreamGrows(s, d, Taken(st, c), log, batch);
    assert log + known[|log|..] == known;
  }

  lemma {:induction false} StreamGrows(s: Scope, d: Uuid, taken: set<Uuid>, log: seq<Event>, batch: seq<Event>)
    requires Accepted(s, log) && |log| <= MaxConversationEvents
    requires AppendEach(s, d, taken, Replay(s, log).value, log, batch).Ok?
    ensures log <= AppendEach(s, d, taken, Replay(s, log).value, log, batch).value
  {
    AppendEachSound(s, d, taken, log, batch);
  }

  /** A batch that is not accepted changes nothing. */
  lemma {:induction false} FailedBatchChangesNothing(st: Store, c: Uuid, d: Uuid, batch: seq<Event>)
    ensures Append(st, c, d, batch).1.Ok? || Append(st, c, d, batch).0 == st
  {
  }

  lemma {:induction false} AppendKeepsLogs(st: Store, st': Store, c: Uuid)
    requires c in st.logs && c in st'.logs && c in st.conversations
    requires forall k :: k in st.logs ==> k in st.conversations && SoundLog(st, k)
    requires st' == st.(logs := st.logs[c := st'.logs[c]]) && SoundLog(st', c)
    ensures forall k :: k in st'.logs ==> SoundLog(st', k)
  {
    forall k | k in st'.logs
      ensures SoundLog(st', k)
    {
      if k != c {
        assert SoundLog(st, k);
        assert ScopeOf(st', k) == ScopeOf(st, k);
      }
    }
  }

  lemma {:induction false} AppendKeepsApart(st: Store, st': Store, c: Uuid)
    requires Sound(st) && c in st.logs && c in st'.logs && st.logs[c] <= st'.logs[c]
    requires st' == st.(logs := st.logs[c := st'.logs[c]])
    requires forall e :: e in st'.logs[c] && e !in st.logs[c] ==> e.id !in Taken(st, c)
    ensures forall k :: k in st'.logs && k != c ==> Ids(st'.logs[c]) !! Ids(st'.logs[k])
    ensures Ids(st'.logs[c]) !! st.recordIds
  {
    hide SoundLog;
    forall k | k in st'.logs && k != c
      ensures Ids(st'.logs[c]) !! Ids(st'.logs[k])
    {
      NewIdsApart(st, c, k, st'.logs[c]);
    }
    forall e | e in st'.logs[c]
      ensures e.id !in st.recordIds
    {
      if e in st.logs[c] {
        assert e.id in Ids(st.logs[c]);
      }
    }
  }

  lemma {:induction false} AppendKeepsSound(st: Store, c: Uuid, d: Uuid, batch: seq<Event>)
    requires Sound(st)
    ensures Sound(Append(st, c, d, batch).0)
  {
    hide SoundLog, Append, Taken, Ids;
    if Append(st, c, d, batch).1.Ok? {
      AppendExtends(st, c, d, batch);
      AppendKeepsLogs(st, Append(st, c, d, batch).0, c);
      AppendKeepsApart(st, Append(st, c, d, batch).0, c);
    } else {
      FailedBatchChangesNothing(st, c, d, batch);
    }
  }

  lemma {:induction false} NewIdsApart(st: Store, c: Uuid, k: Uuid, log: seq<Event>)
    requires Sound(st) && c in st.logs && k in st.logs && k != c && st.logs[c] <= log
    requires forall e :: e in log && e !in st.logs[c] ==> e.id !in Taken(st, c)
    ensures Ids(log) !! Ids(st.logs[k])
  {
    forall e | e in log
      ensures e.id !in Ids(st.logs[k])
    {
      if e in st.logs[c] {
        assert e.id in Ids(st.logs[c]);
      } else {
        assert forall f :: f in st.logs[k] ==> f.id in Taken(st, c);
      }
    }
  }

  lemma {:induction false} ScopeWidens(st: Store, identity: (Uuid, string), device: Device, c: Uuid)
    requires Sound(st) && c in st.conversations
    ensures var st' := Provision(st, identity, device).0; c in st'.conversations && Wider(ScopeOf(st, c), ScopeOf(st', c))
  {
  }

  /** Binding a device leaves every stored stream acceptable. */
  lemma {:induction false} ProvisionKeepsSound(st: Store, identity: (Uuid, string), device: Device)
    requires Sound(st)
    ensures Sound(Provision(st, identity, device).0)
  {
    var st' := Provision(st, identity, device).0;
    forall c | c in st'.logs
      ensures SoundLog(st', c)
    {
      assert SoundLog(st, c);
      ScopeWidens(st, identity, device, c);
      AcceptedStays(ScopeOf(st, c), ScopeOf(st', c), st.logs[c]);
    }
  }

  lemma {:induction false} CreateKeepsSound(st: Store, c: Uuid, title: string, d: Uuid)
    requires Sound(st)
    ensures Sound(Create(st, c, title, d).0)
  {
    hide Authorized, SoundLog;
    var st' := Create(st, c, title, d).0;
    forall k | k in st'.logs
      ensures k in st'.conversations && SoundLog(st', k)
    {
      if k in st.logs {
        LogIsSound(st, k);
        LogStays(st, st', k);
      } else {
        EmptyLogIsSound(st', k);
      }
    }
  }

  lemma {:induction false} LogStays(st: Store, st': Store, k: Uuid)
    requires k in st.logs && k in st'.logs && k in st.conversations && k in st'.conversations && SoundLog(st, k)
    requires st'.logs[k] == st.logs[k] && st'.conversations[k] == st.conversations[k] && st'.devices == st.devices
    ensures SoundLog(st', k)
  {
    assert ScopeOf(st', k) == ScopeOf(st, k);
  }

  lemma {:induction false} EmptyLogIsSound(st: Store, k: Uuid)
    requires k in st.logs && k in st.conversations && st.logs[k] == []
    ensures SoundLog(st, k)
  {
  }

  // ----------------------------------------------------------------------- runs

  datatype Step =
    | ProvisionStep(identity: (Uuid, string), device: Device)
    | CreateStep(conversation: Uuid, title: string, actor: Uuid)
    | AppendStep(conversation: Uuid, actor: Uuid, batch: seq<Event>)
    | AgentTurnStep(record: Uuid)

  /** An agent turn stores a record under an identity in use nowhere else. */
  function Do(st: Store, step: Step): Store
  {
    match step
    case ProvisionStep(identity, device) => Provision(st, identity, device).0
    case CreateStep(c, title, d) => Create(st, c, title, d).0
    case AppendStep(c, d, batch) => Append(st, c, d, batch).0
    case AgentTurnStep(id) =>
      if (forall c :: c in st.logs ==> id !in Ids(st.logs[c])) then st.(recordIds := st.recordIds + {id}) else st
  }

  function Run(st: Store, steps: seq<Step>): Store
    decreases |steps|
  {
    if steps == [] then st else Run(Do(st, steps[0]), steps[1..])
  }

  lemma {:induction false} StepKeepsSound(st: Store, step: Step)
    requires Sound(st)
    ensures Sound(Do(st, step))
  {
    match step
    case ProvisionStep(identity, device) => ProvisionKeepsSound(st, identity, device);
    case CreateStep(c, title, d) => CreateKeepsSound(st, c, title, d);
    case AppendStep(c, d, batch) => AppendKeepsSound(st, c, d, batch);
    case AgentTurnStep(id) =>
      var st' := Do(st, step);
      forall c | c in st'.logs
        ensures SoundLog(st', c)
      {
        assert SoundLog(st, c);
        assert ScopeOf(st', c) == ScopeOf(st, c);
      }
  }

  /** In every reachable store each log is numbered 1 to n, n at most 10,000, and replays
      through a fresh journal over the devices bound by then. */
  lemma {:induction false} ReachableSound(st: Store, steps: seq<Step>)
    requires Sound(st)
    ensures Sound(Run(st, steps))
    decreases |steps|
  {
    if steps != [] {
      StepKeepsSound(st, steps[0]);
      ReachableSound(Do(st, steps[0]), steps[1..]);
    }
  }

  lemma {:induction false} ReachableLogs(steps: seq<Step>, c: Uuid)
    requires c in Run(Empty, steps).logs
    ensures var st := Run(Empty, steps);
            && c in st.conversations
            && |st.logs[c]| <= MaxConversationEvents
            && (forall i :: 0 <= i < |st.logs[c]| ==> st.logs[c][i].sequence == i + 1)
            && Page(st.logs[c], 0, MaxConversationEvents) == st.logs[c]
            && Accepted(ScopeOf(st, c), st.logs[c])
  {
    ReachableSound(Empty, steps);
    var st := Run(Empty, steps);
    assert SoundLog(st, c);
    HistoryIsComplete(st, c);
    AcceptedNumbering(ScopeOf(st, c), st.logs[c]);
  }

  /** What only grows: device bindings, conversations and logs. */
  ghost predicate Extends(st: Store, later: Store)
  {
    && (forall d :: d in st.devices ==> d in later.devices && later.devices[d] == st.devices[d])
    && (forall c :: c in st.conversations ==> c in later.conversations && later.conversations[c] == st.conversations[c])
    && (forall c :: c in st.logs ==> c in later.logs && st.logs[c] <= later.logs[c])
  }

  lemma {:induction false} AppendGrows(st: Store, c: Uuid, d: Uuid, batch: seq<Event>)
    requires Sound(st)
    ensures Extends(st, Append(st, c, d, batch).0)
  {
    hide Append, Sound, SoundLog, Taken;
    if Append(st, c, d, batch).1.Ok? {
      AppendExtends(st, c, d, batch);
    } else {
      FailedBatchChangesNothing(st, c, d, batch);
    }
  }

  lemma {:induction false} ProvisionGrows(st: Store, identity: (Uuid, string), device: Device)
    ensures Extends(st, Provision(st, identity, device).0)
  {
  }

  lemma {:induction false} CreateGrows(st: Store, c: Uuid, title: string, d: Uuid)
    requires st.logs.Keys == st.conversations.Keys
    ensures Extends(st, Create(st, c, title, d).0)
  {
  }

  lemma {:induction false} StepExtends(st: Store, step: Step)
    requires Sound(st)
    ensures Extends(st, Do(st, step))
  {
    match step
    case ProvisionStep(identity, device) => ProvisionGrows(st, identity, device);
    case CreateStep(c, title, d) => CreateGrows(st, c, title, d);
    case AppendStep(c, d, batch) => AppendGrows(st, c, d, batch);
    case AgentTurnStep(id) =>
  }

  lemma {:induction false} RunExtends(st: Store, steps: seq<Step>)
    requires Sound(st)
    ensures Extends(st, Run(st, steps))
    decreases |steps|
  {
    if steps != [] {
      StepKeepsSound(st, steps[0]);
      StepExtends(st, steps[0]);
      RunExtends(Do(st, steps[0]), steps[1..]);
      forall c | c in st.logs
        ensures st.logs[c] <= Run(st, steps).logs[c]
      {
        assert st.logs[c] <= Do(st, steps[0]).logs[c] <= Run(st, steps).logs[c];
      }
    }
  }

  /** A batch of this device's events that are all stored already is acknowledged unchanged. */
  lemma {:induction false} StoredBatchIsIdempotent(st: Store, c: Uuid, d: Uuid, batch: seq<Event>)
    requires Sound(st) && Authorized(st, c, d) && BatchShape(batch)
    requires forall e :: e in batch ==> e in st.logs[c] && ClientEvent(e) && e.device == d
    ensures Append(st, c, d, batch) == (st, Ok(|st.logs[c]| + 1))
  {
    HistoryIsComplete(st, c);
    var s, log := ScopeOf(st, c), st.logs[c];
    AppendEachKnown(s, d, Taken(st, c), Replay(s, log).value, log, batch);
    assert log + log[|log|..] == log;
    assert st.logs[c := log] == st.logs;
  }

  /** Re-sending a batch that was accepted, at any later time, succeeds and changes nothing. */
  lemma {:induction false} ResendIsIdempotent(st: Store, c: Uuid, d: Uuid, batch: seq<Event>, steps: seq<Step>)
    requires Sound(st) && Append(st, c, d, batch).1.Ok?
    ensures var later := Run(Append(st, c, d, batch).0, steps);
            c in later.logs && Append(later, c, d, batch) == (later, Ok(|later.logs[c]| + 1))
  {
    var st' := Append(st, c, d, batch).0;
    AppendKeepsSound(st, c, d, batch);
    AppendExtends(st, c, d, batch);
    ResendLater(st', c, d, batch, steps);
  }

  lemma {:induction false} ResendLater(st: Store, c: Uuid, d: Uuid, batch: seq<Event>, steps: seq<Step>)
    requires Sound(st) && Authorized(st, c, d) && BatchShape(batch)
    requires forall e :: e in batch ==> e in st.logs[c] && ClientEvent(e) && e.device == d
    ensures var later := Run(st, steps);
            c in later.logs && Append(later, c, d, batch) == (later, Ok(|later.logs[c]| + 1))
  {
    hide Append, Run, Page, Sound;
    RunExtends(st, steps);
    ReachableSound(st, steps);
    var later := Run(st, steps);
    forall e | e in batch
      ensures e in later.logs[c]
    {
      assert e in st.logs[c];
      assert st.logs[c] <= later.logs[c];
    }
    StoredBatchIsIdempotent(later, c, d, batch);
  }
}
