/** The relay store as an object: each transaction changes the tables step by step and keeps
    nothing of a failed one. */
module RelayTransactions {
  import opened Options
  import opened Journal
  import S = RelayStore

  /** The lookup table the append loop builds from the stream. */
  ghost predicate Indexes(known: map<Uuid, Event>, stream: seq<Event>)
  {
    && known.Keys == Ids(stream)
    && |known| == |stream|
    && (forall id :: id in known ==> known[id] in stream && known[id].id == id)
    && (forall e :: e in stream ==> known[e.id] == e)
  }

  lemma {:induction false} SizeGrows(known: map<Uuid, Event>, e: Event)
    requires e.id !in known
    ensures |known[e.id := e]| == |known| + 1
    ensures known[e.id := e].Keys == known.Keys + {e.id}
  {
    var wider := known[e.id := e];
    assert wider.Keys == known.Keys + {e.id};
    assert |wider| == |wider.Keys| && |known| == |known.Keys|;
  }

  lemma {:induction false} IdsGrow(stream: seq<Event>, e: Event)
    ensures Ids(stream + [e]) == Ids(stream) + {e.id}
  {
  }

  lemma {:induction false} IndexGrows(known: map<Uuid, Event>, stream: seq<Event>, e: Event)
    requires Indexes(known, stream) && e.id !in known
    ensures Indexes(known[e.id := e], stream + [e])
  {
    hide Ids;
    var wider, longer := known[e.id := e], stream + [e];
    SizeGrows(known, e);
    IdsGrow(stream, e);
    forall id | id in wider
      ensures wider[id] in longer && wider[id].id == id
    {
      if id != e.id {
        assert known[id] in stream;
      }
    }
    forall f | f in longer
      ensures f.id in wider && wider[f.id] == f
    {
      if f in stream {
        KnownIn(known, stream, f);
      }
    }
  }

  lemma {:induction false} KnownIn(known: map<Uuid, Event>, stream: seq<Event>, f: Event)
    requires Indexes(known, stream) && f in stream
    ensures f.id in known && known[f.id] == f
  {
  }

  /** One round of the batch loop. */
  lemma {:induction false} TakeOne(s: Scope, d: Uuid, taken: set<Uuid>, g: Gate, stream: seq<Event>, e: Event, rest: seq<Event>)
    ensures S.AppendEach(s, d, taken, g, stream, [e] + rest) ==
            if e.device != d || e.kind !in S.ClientKinds then S.AccessDenied
            else if !e.zoned || e.bytes > S.MaxEventBytes then S.Conflict
            else if e.id in Ids(stream) then
              if e in stream then S.AppendEach(s, d, taken, g, stream, rest) else S.Conflict
            else if |stream| >= S.MaxConversationEvents || !Accepts(s, g, e) || e.id in taken then S.Conflict
            else S.AppendEach(s, d, taken, Advance(g, e), stream + [e], rest)
  {
    assert ([e] + rest)[1..] == rest;
  }

  lemma {:induction false} TakeNone(s: Scope, d: Uuid, taken: set<Uuid>, g: Gate, stream: seq<Event>)
    ensures S.AppendEach(s, d, taken, g, stream, []) == S.Ok(stream)
  {
  }

  /** Looking an event up in the table decides whether the stream has it. */
  lemma {:induction false} KnownByTable(known: map<Uuid, Event>, stream: seq<Event>, e: Event)
    requires Indexes(known, stream)
    ensures (e.id in known <==> e.id in Ids(stream)) && |known| == |stream|
    ensures e.id in known ==> (known[e.id] == e <==> e in stream)
  {
  }

  lemma {:induction false} EmptyIndex(s: Scope)
    ensures Replay(s, []) == Some(Fresh) && Indexes(map[], [])
  {
  }

  /** An event the gate accepts after a stream is not in the stream's table. */
  lemma {:induction false} NewToTable(s: Scope, known: map<Uuid, Event>, stream: seq<Event>, g: Gate, e: Event)
    requires Replay(s, stream) == Some(g) && Indexes(known, stream)
    ensures Accepts(s, g, e) ==> e.id !in known
  {
    GateReadsTrace(s, stream);
  }

  class ConversationRelayStore {
    var identities: map<Uuid, string>
    var devices: map<Uuid, Device>
    var conversations: map<Uuid, S.Conversation>
    var logs: map<Uuid, seq<Event>>
    var recordIds: set<Uuid>

    constructor ()
      ensures State() == S.Empty
    {
      identities, devices, conversations, logs, recordIds := map[], map[], map[], map[], {};
    }

    function State(): S.Store
      reads this
    {
      S.Store(identities, devices, conversations, logs, recordIds)
    }

    method Provision(identity: (Uuid, string), device: Device) returns (r: S.Outcome<()>)
      modifies this`identities, this`devices
      ensures (State(), r) == S.Provision(old(State()), identity, device)
    {
      if identity.0 != device.participant {
        return S.AccessDenied;
      }
      var staged := identities;
      if identity.0 !in staged {
        staged := staged[identity.0 := identity.1];
      } else if staged[identity.0] != identity.1 {
        return S.Conflict;
      }
      if device.id in devices {
        if devices[device.id] != device {
          return S.Conflict;
        }
        assert devices[device.id := device] == devices;
        assert identities[identity.0 := identity.1] == staged;
        identities := staged;
        return S.Ok(());
      }
      assert identities[identity.0 := identity.1] == staged;
      identities, devices := staged, devices[device.id := device];
      return S.Ok(());
    }

    method Create(c: Uuid, title: string, d: Uuid) returns (r: S.Outcome<Uuid>)
      modifies this`conversations, this`logs
      ensures (State(), r) == S.Create(old(State()), c, title, d)
      ensures r.AccessDenied? <==>
                || d !in devices
                || (c in old(conversations) &&
                    !(c in old(logs) && devices[d].participant in old(conversations)[c].participants))
      ensures c !in old(conversations) && d in devices ==>
                r == S.Ok(c) && conversations == old(conversations)[c := S.Conversation(title, {devices[d].participant}, true)]
      ensures c in old(conversations) ==> State() == old(State())
    {
      if d !in devices {
        return S.AccessDenied;
      }
      if c in conversations {
        if !S.Authorized(State(), c, d) {
          return S.AccessDenied;
        }
        return if conversations[c].title != title then S.Conflict else S.Ok(c);
      }
      conversations := conversations[c := S.Conversation(title, {devices[d].participant}, true)];
      logs := logs[c := []];
      return S.Ok(c);
    }

    method Events(c: Uuid, d: Uuid, after: int, limit: int) returns (r: S.Outcome<seq<Event>>)
      ensures r == S.Events(State(), c, d, after, limit)
      ensures r.AccessDenied? <==>
                !(d in devices && c in conversations && c in logs && devices[d].participant in conversations[c].participants)
      ensures r.Ok? <==> !r.AccessDenied? && 0 <= after && 1 <= limit <= 10000
    {
      if !S.Authorized(State(), c, d) {
        return S.AccessDenied;
      }
      if after < 0 || limit < 1 || limit > S.MaxConversationEvents {
        return S.Conflict;
      }
      return S.Ok(S.Page(logs[c], after, limit));
    }

    /** A resume page of at most 100 events, with the number of its last event as the cursor. */
    method ReadPage(c: Uuid, d: Uuid, after: int, limit: int) returns (r: S.Outcome<S.EventPage>)
      ensures r == S.ReadPage(State(), c, d, after, limit)
      ensures r.Ok? <==> && d in devices && c in conversations && c in logs && devices[d].participant in conversations[c].participants
                         && 0 <= after && 1 <= limit <= 100
    {
      if after < 0 || limit < 1 || limit > 100 {
        return S.Conflict;
      }
      var answer := Events(c, d, after, limit);
      match answer {
        case AccessDenied => return S.AccessDenied;
        case Conflict => return S.Conflict;
        case Ok(events) => return S.Ok(S.EventPage(events, if events == [] then after else events[|events| - 1].sequence));
      }
    }

    /** Runs the stored history through the gate; `known` is set when all of it is accepted. */
    method ReplayHistory(journal: ConversationJournal, history: seq<Event>) returns (known: Option<map<Uuid, Event>>)
      requires journal.State() == Fresh
      modifies journal
      ensures known.Some? <==> Accepted(journal.scope, history)
      ensures known.Some? ==> Some(journal.State()) == Replay(journal.scope, history) && Indexes(known.value, history)
    {
      hide Replay, Indexes, Ids;
      var table: map<Uuid, Event> := map[];
      EmptyIndex(journal.scope);
      var i := 0;
      assert history[..0] == [];
      while i < |history|
        invariant 0 <= i <= |history|
        invariant Replay(journal.scope, history[..i]) == Some(journal.State())
        invariant Indexes(table, history[..i])
      {
        var e := history[i];
        assert history[..i + 1] == history[..i] + [e];
        ReplaySnoc(journal.scope, history[..i], e);
        NewToTable(journal.scope, table, history[..i], journal.State(), e);
        var a := journal.Accept(e);
        if a.rejection.Some? {
          assert !Accepted(journal.scope, history[..i + 1]);
          if Accepted(journal.scope, history) {
            AcceptedPrefix(journal.scope, history, i + 1);
          }
          return None;
        }
        IndexGrows(table, history[..i], e);
        table := table[e.id := e];
        i := i + 1;
      }
      assert history[..i] == history;
      return Some(table);
    }

    /** Takes the batch event by event; `stream` holds the events known so far. */
    method TakeBatch(journal: ConversationJournal, d: Uuid, taken: set<Uuid>, table: map<Uuid, Event>,
                     history: seq<Event>, batch: seq<Event>) returns (r: S.Outcome<seq<Event>>)
      requires Replay(journal.scope, history) == Some(journal.State()) && Indexes(table, history)
      modifies journal
      ensures r == S.AppendEach(journal.scope, d, taken, old(journal.State()), history, batch)
      ensures r.Ok? ==> history <= r.value
    {
      hide Replay, S.AppendEach, Indexes;
      var known: map<Uuid, Event> := table;
      var stream, i := history, 0;
      assert batch[0..] == batch;
      while i < |batch|
        invariant 0 <= i <= |batch| && history <= stream
        invariant Replay(journal.scope, stream) == Some(journal.State()) && Indexes(known, stream)
        invariant S.AppendEach(journal.scope, d, taken, old(journal.State()), history, batch) ==
                  S.AppendEach(journal.scope, d, taken, journal.State(), stream, batch[i..])
      {
        var e := batch[i];
        assert batch[i..] == [e] + batch[i + 1..];
        TakeOne(journal.scope, d, taken, journal.State(), stream, e, batch[i + 1..]);
        KnownByTable(known, stream, e);
        if e.device != d || e.kind !in S.ClientKinds {
          return S.AccessDenied;
        }
        if !e.zoned || e.bytes > S.MaxEventBytes {
          return S.Conflict;
        }
        if e.id in known {
          if e != known[e.id] {
            return S.Conflict;
          }
        } else {
          if |known| >= S.MaxConversationEvents {
            return S.Conflict;
          }
          ReplaySnoc(journal.scope, stream, e);
          var a := journal.Accept(e);
          if a.rejection.Some? || e.id in taken {
            return S.Conflict;
          }
          IndexGrows(known, stream, e);
          known, stream := known[e.id := e], stream + [e];
        }
        i := i + 1;
      }
      assert batch[i..] == [];
      TakeNone(journal.scope, d, taken, journal.State(), stream);
      return S.Ok(stream);
    }

    /** One append transaction; nothing is stored unless the whole batch is taken. */
    method Append(c: Uuid, d: Uuid, batch: seq<Event>) returns (r: S.Outcome<nat>)
      modifies this`logs
      ensures (State(), r) == S.Append(old(State()), c, d, batch)
    {
      hide S.AppendEach, Replay, S.Page, S.ScopeOf, S.Taken, Indexes, S.BatchShape;
      if !S.Authorized(State(), c, d) {
        return S.AccessDenied;
      }
      var journal := new ConversationJournal(S.ScopeOf(State(), c));
      var history := S.Page(logs[c], 0, S.MaxConversationEvents);
      var table := ReplayHistory(journal, history);
      if table.None? || !S.BatchShape(batch) {
        return S.Conflict;
      }
      var taken := S.Taken(State(), c);
      var stream := TakeBatch(journal, d, taken, table.value, history, batch);
      match stream {
        case AccessDenied => return S.AccessDenied;
        case Conflict => return S.Conflict;
        case Ok(known) =>
          logs := logs[c := logs[c] + known[|history|..]];
          return S.Ok(|known| + 1);
      }
    }
  }
}
