/** Which batches the relay takes, told event by event in the fields of the batch and of the
    stored log. */
module RelayBatches {
  import opened Options
  import opened Journal
  import opened RelayStore

  /** The events of a batch whose identity the log does not have, in order. */
  ghost function News(log: seq<Event>, batch: seq<Event>): seq<Event>
  {
    if batch == [] then []
    else
      var front, e := batch[..|batch| - 1], batch[|batch| - 1];
      News(log, front) + if exists f :: f in log && f.id == e.id then [] else [e]
  }

  ghost predicate DistinctEvents(batch: seq<Event>)
  {
    forall i, j :: 0 <= i < j < |batch| ==> batch[i].id != batch[j].id
  }

  /** The sender may send the event: its own, of a kind clients send. */
  ghost predicate Sends(d: Uuid, e: Event)
  {
    e.device == d && (e.kind == KindPartial || e.kind == KindFinal || e.kind == KindCancellation || e.kind == KindResume)
  }

  /** The log takes the `k`-th event of a batch after those before it: it has a time zone and at
      most 16 KiB, and is stored already just so, or is new: below 10,000 events, under an
      identity nothing else uses, and accepted next. */
  ghost predicate Fits(s: Scope, taken: set<Uuid>, log: seq<Event>, batch: seq<Event>, k: nat)
    requires k < |batch|
  {
    var e, stream := batch[k], log + News(log, batch[..k]);
    && e.zoned && e.bytes <= 16384
    && (if exists f :: f in log && f.id == e.id then e in log
        else |stream| < 10000 && e.id !in taken && Accepted(s, stream + [e]))
  }

  ghost predicate GoesThrough(s: Scope, d: Uuid, taken: set<Uuid>, log: seq<Event>, batch: seq<Event>, n: nat)
    requires n <= |batch|
  {
    forall k :: 0 <= k < n ==> Sends(d, batch[k]) && Fits(s, taken, log, batch, k)
  }

  lemma {:induction false} NewsMembers(log: seq<Event>, batch: seq<Event>)
    ensures forall e :: e in News(log, batch) ==> e in batch
  {
    if batch != [] {
      NewsMembers(log, batch[..|batch| - 1]);
    }
  }

  lemma {:induction false} InIds(log: seq<Event>, id: Uuid)
    ensures id in Ids(log) <==> exists f :: f in log && f.id == id
  {
  }

  /** The stream after the first `k` events has the identity of the next one only from the log. */
  lemma {:induction false} KnownFromLog(log: seq<Event>, batch: seq<Event>, k: nat)
    requires k < |batch| && DistinctEvents(batch)
    ensures var e, stream := batch[k], log + News(log, batch[..k]);
            && (e.id in Ids(stream) <==> exists f :: f in log && f.id == e.id)
            && ((exists f :: f in log && f.id == e.id) ==> (e in stream <==> e in log))
  {
    var e, news := batch[k], News(log, batch[..k]);
    NewsMembers(log, batch[..k]);
    forall f | f in news
      ensures f.id != e.id
    {
      var j :| 0 <= j < k && batch[..k][j] == f;
      assert batch[j] == f;
    }
    assert forall f :: f in log + news <==> f in log || f in news;
    InIds(log + news, e.id);
  }

  lemma {:induction false} NewsStep(log: seq<Event>, batch: seq<Event>, k: nat)
    requires k < |batch|
    ensures News(log, batch[..k + 1]) ==
            News(log, batch[..k]) + if exists f :: f in log && f.id == batch[k].id then [] else [batch[k]]
  {
    assert batch[..k + 1][..k] == batch[..k];
  }

  lemma {:induction false} StreamAccepted(s: Scope, d: Uuid, taken: set<Uuid>, log: seq<Event>, batch: seq<Event>, k: nat)
    requires k <= |batch| && Accepted(s, log) && |log| <= 10000 && GoesThrough(s, d, taken, log, batch, k)
    ensures Accepted(s, log + News(log, batch[..k])) && |log + News(log, batch[..k])| <= 10000
  {
    if k == 0 {
      assert batch[..0] == [] && log + [] == log;
    } else {
      hide Replay, Sends;
      StreamAccepted(s, d, taken, log, batch, k - 1);
      NewsStep(log, batch, k - 1);
      assert batch[..k - 1 + 1] == batch[..k];
      assert Fits(s, taken, log, batch, k - 1);
      var news := News(log, batch[..k - 1]);
      assert log + (news + [batch[k - 1]]) == log + news + [batch[k - 1]];
      assert log + (news + []) == log + news;
    }
  }

  /** The loop from the `k`-th event on. */
  lemma {:induction false} EachFrom(s: Scope, d: Uuid, taken: set<Uuid>, log: seq<Event>, batch: seq<Event>, k: nat)
    requires k <= |batch| && Accepted(s, log) && |log| <= 10000 && DistinctEvents(batch)
    requires GoesThrough(s, d, taken, log, batch, k)
    ensures Accepted(s, log + News(log, batch[..k]))
    ensures var stream := log + News(log, batch[..k]);
            var r := AppendEach(s, d, taken, Replay(s, stream).value, stream, batch[k..]);
            && (r.Ok? <==> GoesThrough(s, d, taken, log, batch, |batch|))
            && (r.Ok? ==> r.value == log + News(log, batch))
            && (r.AccessDenied? <==> exists j :: k <= j < |batch| && GoesThrough(s, d, taken, log, batch, j) && !Sends(d, batch[j]))
    decreases |batch| - k
  {
    hide Replay, AppendEach, GoesThrough, News, Sends, Fits;
    StreamAccepted(s, d, taken, log, batch, k);
    if k == |batch| {
      assert batch[..k] == batch && batch[k..] == [];
      EachOfNone(s, d, taken, log + News(log, batch));
    } else {
      EachOne(s, d, taken, log, batch, k);
      EachGoesOn(s, d, taken, log, batch, k);
      if Sends(d, batch[k]) && Fits(s, taken, log, batch, k) {
        EachFrom(s, d, taken, log, batch, k + 1);
      }
      DeniedLater(s, d, taken, log, batch, k);
    }
  }

  lemma {:induction false} EachOfNone(s: Scope, d: Uuid, taken: set<Uuid>, stream: seq<Event>)
    requires Accepted(s, stream)
    ensures AppendEach(s, d, taken, Replay(s, stream).value, stream, []) == Ok(stream)
  {
    hide Replay;
  }

  lemma {:induction false} EachGoesOn(s: Scope, d: Uuid, taken: set<Uuid>, log: seq<Event>, batch: seq<Event>, k: nat)
    requires k < |batch| && GoesThrough(s, d, taken, log, batch, k)
    ensures GoesThrough(s, d, taken, log, batch, k + 1) <==> Sends(d, batch[k]) && Fits(s, taken, log, batch, k)
    ensures GoesThrough(s, d, taken, log, batch, |batch|) ==> GoesThrough(s, d, taken, log, batch, k + 1)
  {
    hide Sends, Fits;
  }

  lemma {:induction false} DeniedLater(s: Scope, d: Uuid, taken: set<Uuid>, log: seq<Event>, batch: seq<Event>, k: nat)
    requires k < |batch| && GoesThrough(s, d, taken, log, batch, k)
    ensures (exists j :: k <= j < |batch| && GoesThrough(s, d, taken, log, batch, j) && !Sends(d, batch[j])) <==>
            || !Sends(d, batch[k])
            || (Fits(s, taken, log, batch, k)
                && exists j :: k + 1 <= j < |batch| && GoesThrough(s, d, taken, log, batch, j) && !Sends(d, batch[j]))
  {
    hide Sends, Fits;
    if j :| k + 1 <= j < |batch| && GoesThrough(s, d, taken, log, batch, j) {
      assert Sends(d, batch[k]) && Fits(s, taken, log, batch, k);
    }
  }

  /** One round of the loop, by what the event is. */
  lemma {:induction false} EachOne(s: Scope, d: Uuid, taken: set<Uuid>, log: seq<Event>, batch: seq<Event>, k: nat)
    requires k < |batch| && DistinctEvents(batch) && Accepted(s, log + News(log, batch[..k]))
    ensures var stream, more := log + News(log, batch[..k]), log + News(log, batch[..k + 1]);
            var r := AppendEach(s, d, taken, Replay(s, stream).value, stream, batch[k..]);
            && (!Sends(d, batch[k]) ==> r == AccessDenied)
            && (Sends(d, batch[k]) && !Fits(s, taken, log, batch, k) ==> r == Conflict)
            && (Sends(d, batch[k]) && Fits(s, taken, log, batch, k) ==>
                  Accepted(s, more) && r == AppendEach(s, d, taken, Replay(s, more).value, more, batch[k + 1..]))
  {
    hide Replay, News, DistinctEvents, Ids;
    var e, stream := batch[k], log + News(log, batch[..k]);
    KnownFromLog(log, batch, k);
    NewsStep(log, batch, k);
    ReplaySnoc(s, stream, e);
    assert batch[k..][0] == e && batch[k..][1..] == batch[k + 1..];
    var news := News(log, batch[..k]);
    assert log + (news + [e]) == stream + [e];
    assert log + (news + []) == stream;
    ClientSends(d, e);
  }

  lemma {:induction false} ClientSends(d: Uuid, e: Event)
    ensures Sends(d, e) <==> e.device == d && e.kind in ClientKinds
  {
  }

  /** An append of a device with access: it succeeds exactly when the batch has 1 to 100 events
      with different identities, all the device's own and each fitting after those before it. The
      log then grows by the new ones, in order, and nothing else changes. It is denied exactly
      when the first event that stops it is not the device's to send. */
  lemma {:induction false} AppendExactly(st: Store, c: Uuid, d: Uuid, batch: seq<Event>)
    requires Sound(st) && d in st.devices && c in st.conversations && c in st.logs
    requires st.devices[d].participant in st.conversations[c].participants
    ensures var log, s, taken := st.logs[c], ScopeOf(st, c), Taken(st, c);
            var (after, r) := Append(st, c, d, batch);
            var shaped := 1 <= |batch| <= 100 && DistinctEvents(batch);
            && (r.Ok? <==> shaped && GoesThrough(s, d, taken, log, batch, |batch|))
            && (r.Ok? ==> after == st.(logs := st.logs[c := log + News(log, batch)]) && r.value == |log| + |News(log, batch)| + 1)
            && (r.AccessDenied? <==>
                  shaped && exists j :: 0 <= j < |batch| && GoesThrough(s, d, taken, log, batch, j) && !Sends(d, batch[j]))
            && (!r.Ok? ==> after == st)
  {
    hide Sound, AppendEach, Replay, ScopeOf, Taken, GoesThrough, News, Sends, Page;
    HistoryIsComplete(st, c);
    LogIsSound(st, c);
    var log, s, taken := st.logs[c], ScopeOf(st, c), Taken(st, c);
    if BatchShape(batch) {
      NoEvents(s, d, taken, log, batch);
      EachFrom(s, d, taken, log, batch, 0);
      var r := AppendEach(s, d, taken, Replay(s, log).value, log, batch);
      if r.Ok? {
        assert r.value[|log|..] == News(log, batch);
      }
    }
  }

  lemma {:induction false} NoEvents(s: Scope, d: Uuid, taken: set<Uuid>, log: seq<Event>, batch: seq<Event>)
    ensures GoesThrough(s, d, taken, log, batch, 0)
    ensures log + News(log, batch[..0]) == log && batch[0..] == batch
  {
    assert batch[..0] == [];
  }

  /** An identity is used elsewhere exactly when a record or another conversation's log has it. */
  lemma {:induction false} TakenExactly(st: Store, c: Uuid, id: Uuid)
    ensures id in Taken(st, c) <==>
            id in st.recordIds || exists k, e :: k in st.logs && k != c && e in st.logs[k] && e.id == id
  {
  }

  /** The scope an append is judged by: the conversation, its participants and their devices. */
  lemma {:induction false} ScopeExactly(st: Store, c: Uuid, d: Uuid)
    requires c in st.conversations
    ensures var s := ScopeOf(st, c);
            && s.conversation == c && s.active == st.conversations[c].active && s.participants == st.conversations[c].participants
            && (d in s.devices <==> d in st.devices && st.devices[d].participant in st.conversations[c].participants)
            && (d in s.devices ==> s.devices[d] == st.devices[d])
  {
  }

  /** An agent's record takes an identity that no log has, and from then on no batch can bring a
      new event under it. */
  lemma {:induction false} AgentRecordKeepsIdentity(st: Store, id: Uuid, c: Uuid, d: Uuid, batch: seq<Event>)
    requires Sound(st) && forall k :: k in st.logs ==> id !in Ids(st.logs[k])
    requires exists e :: e in batch && e.id == id
    ensures var later := Do(st, AgentTurnStep(id));
            later == st.(recordIds := st.recordIds + {id}) && !Append(later, c, d, batch).1.Ok?
  {
    var later := Do(st, AgentTurnStep(id));
    StepKeepsSound(st, AgentTurnStep(id));
    hide Append, Sound, Do;
    var e :| e in batch && e.id == id;
    RecordStopsBatch(later, e, c, d, batch);
  }

  lemma {:induction false} RecordStopsBatch(st: Store, e: Event, c: Uuid, d: Uuid, batch: seq<Event>)
    requires Sound(st) && e in batch && e.id in st.recordIds && forall k :: k in st.logs ==> e.id !in Ids(st.logs[k])
    ensures !Append(st, c, d, batch).1.Ok?
  {
    hide Append, Sound, ClientEvent, SoundLog, ScopeOf;
    if c in st.logs {
      NotInLog(st.logs[c], e);
    }
    TakenExactly(st, c, e.id);
    hide Taken, Ids;
    if Append(st, c, d, batch).1.Ok? {
      AppendExtends(st, c, d, batch);
    }
  }

  lemma {:induction false} NotInLog(log: seq<Event>, e: Event)
    requires e.id !in Ids(log)
    ensures e !in log
  {
  }
}
