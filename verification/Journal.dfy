/** The ordering gate of one conversation: which events are accepted, in what order, and what
    an accepted trace says about its turns. */
module Journal {
  import opened Options

  /** Identifiers are UUIDs; only their equality matters. */
  type Uuid = nat

  datatype Kind = KindPartial | KindFinal | KindAttachment | KindToolResult | KindCancellation | KindResume | KindError

  datatype Payload =
    | Partial(turn: Uuid, text: string)
    | Final(turn: Uuid, text: string)
    | Attachment(reference: string)
    | ToolResult(reference: string)
    | Cancellation(turn: Uuid, reason: string)
    | Resume(turn: Uuid, resumeFrom: Uuid)
    | ErrorReport(code: string)

  function KindOf(p: Payload): Kind
  {
    match p
    case Partial(_, _) => KindPartial
    case Final(_, _) => KindFinal
    case Attachment(_) => KindAttachment
    case ToolResult(_) => KindToolResult
    case Cancellation(_, _) => KindCancellation
    case Resume(_, _) => KindResume
    case ErrorReport(_) => KindError
  }

  /** `zoned` says whether the timestamp carries a time zone; `bytes` is the length of the
      event's JSON form. */
  datatype Event = Event(
    id: Uuid, conversation: Uuid, participant: Uuid, device: Uuid, sequence: int,
    occurredAt: int, zoned: bool, bytes: nat, kind: Kind, payload: Payload)

  datatype Device = Device(id: Uuid, participant: Uuid, name: string)

  /** What the gate knows of its conversation; `devices` are the bound devices of the participants. */
  datatype Scope = Scope(conversation: Uuid, active: bool, participants: set<Uuid>, devices: map<Uuid, Device>)

  datatype Rejection =
    | UnknownConversation | ConversationClosed | DuplicateEvent | OutOfOrder | ForeignParticipant
    | ForeignDevice | DeviceParticipantMismatch | KindMismatch | FinalWithoutPartial | TurnClosed
    | EventAfterCancellation | ResumeWithoutCancellation

  /** The state an accepted event changes. */
  datatype Gate = Gate(next: int, seen: set<Uuid>, open: Option<Uuid>, cancelled: Option<Uuid>)

  const Fresh := Gate(1, {}, None, None)

  function EnvelopeRejection(s: Scope, g: Gate, e: Event): Option<Rejection>
  {
    if e.conversation != s.conversation then Some(UnknownConversation)
    else if !s.active then Some(ConversationClosed)
    else if e.id in g.seen then Some(DuplicateEvent)
    else if e.participant !in s.participants then Some(ForeignParticipant)
    else if e.device !in s.devices then Some(ForeignDevice)
    else if s.devices[e.device].participant != e.participant then Some(DeviceParticipantMismatch)
    else if e.kind != KindOf(e.payload) then Some(KindMismatch)
    else if e.sequence != g.next then Some(OutOfOrder)
    else None
  }

  predicate IsTranscript(p: Payload) { p.Partial? || p.Final? }

  function PayloadRejection(g: Gate, p: Payload): Option<Rejection>
  {
    if IsTranscript(p) then
      if g.cancelled == Some(p.turn) then Some(EventAfterCancellation)
      else if g.open.None? then (if p.Final? then Some(FinalWithoutPartial) else None)
      else if Some(p.turn) != g.open then Some(TurnClosed)
      else None
    else if p.Resume? then
      if g.cancelled != Some(p.resumeFrom) then Some(ResumeWithoutCancellation) else None
    else None
  }

  function RejectionOf(s: Scope, g: Gate, e: Event): Option<Rejection>
  {
    var envelope := EnvelopeRejection(s, g, e);
    if envelope.Some? then envelope else PayloadRejection(g, e.payload)
  }

  predicate Accepts(s: Scope, g: Gate, e: Event)
  {
    RejectionOf(s, g, e).None?
  }

  function ApplyPayload(g: Gate, p: Payload): Gate
  {
    match p
    case Partial(t, _) => g.(open := Some(t))
    case Final(_, _) => g.(open := None)
    case Cancellation(t, _) => g.(open := None, cancelled := Some(t))
    case Resume(t, _) => g.(open := Some(t), cancelled := None)
    case _ => g
  }

  function Advance(g: Gate, e: Event): Gate
  {
    ApplyPayload(g.(seen := g.seen + {e.id}, next := g.next + 1), e.payload)
  }

  datatype Acceptance = Acceptance(rejection: Option<Rejection>, next: int)

  class ConversationJournal {
    const scope: Scope
    var nextSequence: int
    var seen: set<Uuid>
    var openTurn: Option<Uuid>
    var cancelledTurn: Option<Uuid>

    constructor (scope: Scope)
      ensures this.scope == scope && State() == Fresh
    {
      this.scope := scope;
      nextSequence, seen, openTurn, cancelledTurn := 1, {}, None, None;
    }

    function State(): Gate
      reads this
    {
      Gate(nextSequence, seen, openTurn, cancelledTurn)
    }

    /** Accepts one event and moves on, or rejects it and stays. */
    method Accept(e: Event) returns (a: Acceptance)
      modifies this`nextSequence, this`seen, this`openTurn, this`cancelledTurn
      ensures a.rejection == RejectionOf(scope, old(State()), e)
      ensures State() == if a.rejection.None? then Advance(old(State()), e) else old(State())
      ensures a.next == State().next
    {
      var rejection := EnvelopeRejection(scope, State(), e);
      if rejection.Some? {
        return Acceptance(rejection, nextSequence);
      }
      rejection := PayloadRejection(State(), e.payload);
      if rejection.Some? {
        return Acceptance(rejection, nextSequence);
      }
      seen := seen + {e.id};
      nextSequence := nextSequence + 1;
      match e.payload {
        case Partial(t, _) => openTurn := Some(t);
        case Final(_, _) => openTurn := None;
        case Cancellation(t, _) => openTurn := None; cancelledTurn := Some(t);
        case Resume(t, _) => openTurn := Some(t); cancelledTurn := None;
        case _ =>
      }
      return Acceptance(None, nextSequence);
    }
  }

  // ------------------------------------------------------------------- traces

  /** The gate after a trace, if every event of it is accepted. */
  function Replay(s: Scope, trace: seq<Event>): Option<Gate>
  {
    if trace == [] then Some(Fresh)
    else
      var before := Replay(s, trace[..|trace| - 1]);
      var e := trace[|trace| - 1];
      if before.Some? && Accepts(s, before.value, e) then Some(Advance(before.value, e)) else None
  }

  predicate Accepted(s: Scope, trace: seq<Event>) { Replay(s, trace).Some? }

  lemma {:induction false} ReplaySnoc(s: Scope, trace: seq<Event>, e: Event)
    ensures Replay(s, trace + [e]) ==
            if Accepted(s, trace) && Accepts(s, Replay(s, trace).value, e)
            then Some(Advance(Replay(s, trace).value, e)) else None
  {
    assert (trace + [e])[..|trace|] == trace;
  }

  lemma {:induction false} AcceptedPrefix(s: Scope, trace: seq<Event>, n: nat)
    requires Accepted(s, trace) && n <= |trace|
    ensures Accepted(s, trace[..n])
    decreases |trace|
  {
    if n < |trace| {
      var front := trace[..|trace| - 1];
      AcceptedPrefix(s, front, n);
      assert front[..n] == trace[..n];
    } else {
      assert trace[..n] == trace;
    }
  }

  function Ids(trace: seq<Event>): set<Uuid>
  {
    set e | e in trace :: e.id
  }

  /** The latest payload that opens, closes, cancels or resumes a turn. */
  ghost function LastTurnChange(trace: seq<Event>): Option<Payload>
  {
    if trace == [] then None
    else
      var p := trace[|trace| - 1].payload;
      if IsTranscript(p) || p.Cancellation? || p.Resume? then Some(p) else LastTurnChange(trace[..|trace| - 1])
  }

  /** The latest cancellation or resumption. */
  ghost function LastCut(trace: seq<Event>): Option<Payload>
  {
    if trace == [] then None
    else
      var p := trace[|trace| - 1].payload;
      if p.Cancellation? || p.Resume? then Some(p) else LastCut(trace[..|trace| - 1])
  }

  /** The turn in progress: the latest turn change was a partial or a resumption of it. */
  ghost function OpenTurn(trace: seq<Event>): Option<Uuid>
  {
    var last := LastTurnChange(trace);
    if last.Some? && (last.value.Partial? || last.value.Resume?) then Some(last.value.turn) else None
  }

  /** The turn under cancellation: the latest cut cancelled it. */
  ghost function CancelledTurn(trace: seq<Event>): Option<Uuid>
  {
    var last := LastCut(trace);
    if last.Some? && last.value.Cancellation? then Some(last.value.turn) else None
  }

  /** The gate's four variables are functions of the accepted trace. */
  lemma {:induction false} GateReadsTrace(s: Scope, trace: seq<Event>)
    requires Accepted(s, trace)
    ensures Replay(s, trace).value == Gate(|trace| + 1, Ids(trace), OpenTurn(trace), CancelledTurn(trace))
  {
    if trace != [] {
      var front, e := trace[..|trace| - 1], trace[|trace| - 1];
      GateReadsTrace(s, front);
      assert trace == front + [e];
      assert Ids(trace) == Ids(front) + {e.id};
    }
  }

  /** What the rules demand of one more event, read off the trace. */
  ghost predicate TurnAllows(trace: seq<Event>, p: Payload)
  {
    && (IsTranscript(p) ==> CancelledTurn(trace) != Some(p.turn))
    && (p.Partial? ==> OpenTurn(trace).None? || OpenTurn(trace) == Some(p.turn))
    && (p.Final? ==> OpenTurn(trace) == Some(p.turn))
    && (p.Resume? ==> CancelledTurn(trace) == Some(p.resumeFrom))
  }

  /** An event extends an accepted trace exactly when it belongs to the conversation and to a
      bound device of its participant, carries the next number and a new identity, and its
      turn allows it. */
  lemma {:induction false} AcceptedExactly(s: Scope, trace: seq<Event>, e: Event)
    requires Accepted(s, trace)
    ensures Accepted(s, trace + [e]) <==>
            && e.conversation == s.conversation && s.active
            && e.id !in Ids(trace) && e.sequence == |trace| + 1
            && e.participant in s.participants
            && e.device in s.devices && s.devices[e.device].participant == e.participant
            && (e.kind.KindPartial? <==> e.payload.Partial?) && (e.kind.KindFinal? <==> e.payload.Final?)
            && (e.kind.KindAttachment? <==> e.payload.Attachment?) && (e.kind.KindToolResult? <==> e.payload.ToolResult?)
            && (e.kind.KindCancellation? <==> e.payload.Cancellation?) && (e.kind.KindResume? <==> e.payload.Resume?)
            && TurnAllows(trace, e.payload)
  {
    GateReadsTrace(s, trace);
    ReplaySnoc(s, trace, e);
  }

  /** The answer to an event that does not extend the trace names the first rule it breaks, in
      this order. */
  lemma {:induction false} RejectionExactly(s: Scope, trace: seq<Event>, e: Event)
    requires Accepted(s, trace)
    ensures RejectionOf(s, Replay(s, trace).value, e) ==
            if e.conversation != s.conversation then Some(UnknownConversation)
            else if !s.active then Some(ConversationClosed)
            else if exists f :: f in trace && f.id == e.id then Some(DuplicateEvent)
            else if e.participant !in s.participants then Some(ForeignParticipant)
            else if e.device !in s.devices then Some(ForeignDevice)
            else if s.devices[e.device].participant != e.participant then Some(DeviceParticipantMismatch)
            else if e.kind != KindOf(e.payload) then Some(KindMismatch)
            else if e.sequence != |trace| + 1 then Some(OutOfOrder)
            else if (e.payload.Partial? || e.payload.Final?) && CancelledTurn(trace) == Some(e.payload.turn)
            then Some(EventAfterCancellation)
            else if e.payload.Final? && OpenTurn(trace).None? then Some(FinalWithoutPartial)
            else if (e.payload.Partial? || e.payload.Final?) && OpenTurn(trace).Some? && OpenTurn(trace) != Some(e.payload.turn)
            then Some(TurnClosed)
            else if e.payload.Resume? && CancelledTurn(trace) != Some(e.payload.resumeFrom) then Some(ResumeWithoutCancellation)
            else None
  {
    GateReadsTrace(s, trace);
    assert e.id in Ids(trace) <==> exists f :: f in trace && f.id == e.id;
    hide Replay, OpenTurn, CancelledTurn;
  }

  /** Accepted traces are numbered 1 to n with distinct identities. */
  lemma {:induction false} AcceptedNumbering(s: Scope, trace: seq<Event>)
    requires Accepted(s, trace)
    ensures forall i :: 0 <= i < |trace| ==> trace[i].sequence == i + 1
    ensures forall i, j :: 0 <= i < j < |trace| ==> trace[i].id != trace[j].id
  {
    if trace != [] {
      var front, e := trace[..|trace| - 1], trace[|trace| - 1];
      LastAccepted(s, front, e);
      assert trace == front + [e];
      hide Replay;
      AcceptedNumbering(s, front);
      forall i | 0 <= i < |front|
        ensures front[i].id != e.id
      {
        assert front[i].id in Ids(front);
      }
    }
  }

  lemma {:induction false} LastAccepted(s: Scope, front: seq<Event>, e: Event)
    requires Accepted(s, front + [e])
    ensures Accepted(s, front) && e.sequence == |front| + 1 && e.id !in Ids(front)
  {
    ReplaySnoc(s, front, e);
    GateReadsTrace(s, front);
  }

  ghost predicate Opens(change: Option<Payload>, turn: Uuid)
  {
    change.Some? && (change.value.Partial? || change.value.Resume?) && change.value.turn == turn
  }

  ghost predicate Cancels(cut: Option<Payload>, turn: Uuid)
  {
    cut.Some? && cut.value.Cancellation? && cut.value.turn == turn
  }

  /** Turn discipline over whole traces. At any point of an accepted trace: a final closes the
      turn that the latest turn change opened; a transcript never belongs to the turn under
      cancellation; a resumption names it; and the open turn is not the cancelled one. */
  lemma {:induction false} TurnDiscipline(s: Scope, trace: seq<Event>, i: nat)
    requires Accepted(s, trace) && i < |trace|
    ensures trace[i].payload.Final? ==> Opens(LastTurnChange(trace[..i]), trace[i].payload.turn)
    ensures IsTranscript(trace[i].payload) ==> !Cancels(LastCut(trace[..i]), trace[i].payload.turn)
    ensures trace[i].payload.Resume? ==> Cancels(LastCut(trace[..i]), trace[i].payload.resumeFrom)
    ensures OpenTurn(trace[..i]).Some? ==> OpenTurn(trace[..i]) != CancelledTurn(trace[..i])
  {
    var before := trace[..i];
    AcceptedPrefix(s, trace, i);
    AcceptedPrefix(s, trace, i + 1);
    assert trace[..i + 1] == before + [trace[i]];
    AcceptedExactly(s, before, trace[i]);
    OpenIsNotCancelled(s, before);
  }

  lemma {:induction false} OpenIsNotCancelled(s: Scope, trace: seq<Event>)
    requires Accepted(s, trace)
    ensures OpenTurn(trace).Some? ==> OpenTurn(trace) != CancelledTurn(trace)
  {
    if trace != [] {
      var front, e := trace[..|trace| - 1], trace[|trace| - 1];
      OpenIsNotCancelled(s, front);
      GateReadsTrace(s, front);
    }
  }

  /** Binding more devices or participants cannot turn an accepted trace into a rejected one. */
  ghost predicate Wider(s: Scope, w: Scope)
  {
    && w.conversation == s.conversation && w.active == s.active && s.participants <= w.participants
    && (forall d :: d in s.devices ==> d in w.devices && w.devices[d] == s.devices[d])
  }

  lemma {:induction false} AcceptedStays(s: Scope, w: Scope, trace: seq<Event>)
    requires Wider(s, w) && Accepted(s, trace)
    ensures Replay(w, trace) == Replay(s, trace)
  {
    if trace != [] {
      AcceptedStays(s, w, trace[..|trace| - 1]);
    }
  }
}
