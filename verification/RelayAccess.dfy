/** Who reaches a conversation, over every run of the store: the devices of the participant whose
    device made it, and nobody else. */
module RelayAccess {
  import opened Options
  import opened Journal
  import opened RelayStore

  lemma {:induction false} RunSnoc(st: Store, steps: seq<Step>)
    requires steps != []
    ensures Run(st, steps) == Do(Run(st, steps[..|steps| - 1]), steps[|steps| - 1])
    decreases |steps|
  {
    hide Do;
    var n := |steps| - 1;
    if n > 0 {
      RunSnoc(Do(st, steps[0]), steps[1..]);
      assert steps[1..][..n - 1] == steps[..n][1..];
    }
  }

  lemma {:induction false} EmptyIsSound()
    ensures Sound(Empty)
  {
  }

  lemma {:induction false} ReachedIsSound(steps: seq<Step>)
    ensures Sound(Run(Empty, steps))
  {
    EmptyIsSound();
    ReachableSound(Empty, steps);
  }

  /** The participant who made the conversation: that of the first bound device that created it. */
  ghost function Maker(steps: seq<Step>, c: Uuid): Option<Uuid>
  {
    if steps == [] then None
    else
      var front, last := steps[..|steps| - 1], steps[|steps| - 1];
      if Maker(front, c).Some? then Maker(front, c)
      else if last.CreateStep? && last.conversation == c && last.actor in Run(Empty, front).devices
      then Some(Run(Empty, front).devices[last.actor].participant)
      else None
  }

  ghost predicate MadeBy(st: Store, c: Uuid, maker: Option<Uuid>)
  {
    && (c in st.conversations <==> maker.Some?)
    && (c in st.logs <==> maker.Some?)
    && (maker.Some? ==> st.conversations[c].participants == {maker.value} && st.conversations[c].active)
  }

  lemma {:induction false} StepMakes(st: Store, step: Step, c: Uuid, maker: Option<Uuid>)
    requires Sound(st) && MadeBy(st, c, maker)
    ensures MadeBy(Do(st, step), c,
                   if maker.Some? then maker
                   else if step.CreateStep? && step.conversation == c && step.actor in st.devices
                   then Some(st.devices[step.actor].participant) else None)
  {
    hide Sound, Append;
    StepExtends(st, step);
    match step
    case ProvisionStep(_, _) =>
    case CreateStep(_, _, _) =>
    case AppendStep(k, d, batch) => AppendMakesNothing(st, k, d, batch);
    case AgentTurnStep(_) =>
  }

  lemma {:induction false} AppendMakesNothing(st: Store, c: Uuid, d: Uuid, batch: seq<Event>)
    requires Sound(st)
    ensures Append(st, c, d, batch).0.conversations == st.conversations && Append(st, c, d, batch).0.logs.Keys == st.logs.Keys
  {
    hide Append, Sound, SoundLog, Taken;
    if Append(st, c, d, batch).1.Ok? {
      AppendExtends(st, c, d, batch);
    } else {
      FailedBatchChangesNothing(st, c, d, batch);
    }
  }

  /** A conversation exists exactly when somebody made it, and belongs to its maker alone. */
  lemma {:induction false} ConversationsHaveMakers(steps: seq<Step>, c: Uuid)
    ensures MadeBy(Run(Empty, steps), c, Maker(steps, c))
  {
    if steps != [] {
      var front := steps[..|steps| - 1];
      ConversationsHaveMakers(front, c);
      RunSnoc(Empty, steps);
      ReachedIsSound(front);
      hide Sound, Run, Do;
      StepMakes(Run(Empty, front), steps[|steps| - 1], c, Maker(front, c));
    }
  }

  /** Over every run: reading events within the bounds succeeds exactly for a bound device of the
      participant who made the conversation, and any other device is denied. */
  lemma {:induction false} EventsExactly(steps: seq<Step>, c: Uuid, d: Uuid, after: int, limit: int)
    ensures var st := Run(Empty, steps);
            var mine := d in st.devices && Maker(steps, c) == Some(st.devices[d].participant);
            && (Events(st, c, d, after, limit).Ok? <==> mine && 0 <= after && 1 <= limit <= 10000)
            && (Events(st, c, d, after, limit).AccessDenied? <==> !mine)
  {
    ConversationsHaveMakers(steps, c);
    hide Run, Page;
  }

  /** So does reading a page, whose bounds come first. */
  lemma {:induction false} PagesExactly(steps: seq<Step>, c: Uuid, d: Uuid, after: int, limit: int)
    ensures var st := Run(Empty, steps);
            var mine := d in st.devices && Maker(steps, c) == Some(st.devices[d].participant);
            var bounded := 0 <= after && 1 <= limit <= 100;
            && (ReadPage(st, c, d, after, limit).Ok? <==> mine && bounded)
            && (ReadPage(st, c, d, after, limit).AccessDenied? <==> !mine && bounded)
  {
    ConversationsHaveMakers(steps, c);
    hide Run, Page;
  }

  /** What a reader gets: the events after `after` in order, at most `limit` of them, and a cursor
      to go on from that misses none. */
  lemma {:induction false} PageContents(steps: seq<Step>, c: Uuid, d: Uuid, after: nat, limit: nat)
    requires ReadPage(Run(Empty, steps), c, d, after, limit).Ok?
    ensures c in Run(Empty, steps).logs
    ensures var log, page := Run(Empty, steps).logs[c], ReadPage(Run(Empty, steps), c, d, after, limit).value;
            && |page.events| == (if |log| <= after then 0 else if |log| - after <= limit then |log| - after else limit)
            && (forall i :: 0 <= i < |page.events| ==> page.events[i] == log[after + i])
            && page.cursor == after + |page.events|
  {
    var st := Run(Empty, steps);
    assert c in st.logs;
    ReachableLogs(steps, c);
    hide Run;
    PageIsSlice(ScopeOf(st, c), st.logs[c], after, limit);
    hide Page;
  }

  /** A conversation is created once, by a bound device, for its participant; after that the same
      call of the same participant is acknowledged, another title is a conflict, and everybody
      else is denied. */
  lemma {:induction false} CreateExactly(steps: seq<Step>, c: Uuid, title: string, d: Uuid)
    ensures var st := Run(Empty, steps);
            Create(st, c, title, d) ==
            if d !in st.devices then (st, AccessDenied)
            else if Maker(steps, c).None? then
              (st.(conversations := st.conversations[c := Conversation(title, {st.devices[d].participant}, true)],
                   logs := st.logs[c := []]), Ok(c))
            else if Maker(steps, c) != Some(st.devices[d].participant) then (st, AccessDenied)
            else if c in st.conversations && st.conversations[c].title == title then (st, Ok(c)) else (st, Conflict)
  {
    ConversationsHaveMakers(steps, c);
    hide Run;
  }

  /** No device of another participant appends. */
  lemma {:induction false} StrangersCannotAppend(steps: seq<Step>, c: Uuid, d: Uuid, batch: seq<Event>)
    ensures var st := Run(Empty, steps);
            !(d in st.devices && Maker(steps, c) == Some(st.devices[d].participant)) ==>
              Append(st, c, d, batch) == (st, AccessDenied)
  {
    ConversationsHaveMakers(steps, c);
    hide Run, AppendEach, Replay, Page;
  }

  /** A device is bound to the participant who presents it, once and for all. */
  lemma {:induction false} ProvisionExactly(st: Store, identity: (Uuid, string), device: Device)
    ensures var (after, r) := Provision(st, identity, device);
            && (r.Ok? <==> && identity.0 == device.participant
                           && (identity.0 in st.identities ==> st.identities[identity.0] == identity.1)
                           && (device.id in st.devices ==> st.devices[device.id] == device))
            && (r.AccessDenied? <==> identity.0 != device.participant)
            && (r.Ok? ==> after == st.(identities := st.identities[identity.0 := identity.1], devices := st.devices[device.id := device]))
            && (!r.Ok? ==> after == st)
  {
  }

  /** The owner of a device never changes. */
  lemma {:induction false} BindingsStay(steps: seq<Step>, more: seq<Step>, d: Uuid)
    requires d in Run(Empty, steps).devices
    ensures d in Run(Run(Empty, steps), more).devices && Run(Run(Empty, steps), more).devices[d] == Run(Empty, steps).devices[d]
  {
    ReachedIsSound(steps);
    RunExtends(Run(Empty, steps), more);
  }
}
