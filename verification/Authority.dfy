/** The proposal lifecycle: which transitions a signed fact authorizes, and how often. Callers may
    present any proposal record, current or stale; only the consumed keys are trusted. */
module Authority {
  import opened Consumption
  import opened Separators

  datatype State = Proposed | Approved | Rejected | Expired | Applied | Reverted | Reconciled

  datatype ProposalRecord = ProposalRecord(id: string, payload: string, state: State)

  /** A payload-bound fact. The payload hash is injective, so it is the payload itself;
      `proven` says that the proof is allowed for the action and its signature verifies now. */
  datatype Fact = Fact(
    id: string, proposal: string, payload: string, issued: int, expires: int,
    idempotency: string, device: string, isReset: bool, proven: bool)

  datatype Request =
    | Approve(record: ProposalRecord, fact: Fact, now: int)
    | Reset(record: ProposalRecord, fact: Fact, now: int, zeroEffects: bool)
    | Apply(record: ProposalRecord, fact: Fact, now: int)
    | Revert(record: ProposalRecord, fact: Fact, now: int)
    | Reconcile(record: ProposalRecord, fact: Fact, now: int)

  /** Proof, binding, expiry and issuance of an approval or reset. */
  predicate ValidApproval(record: ProposalRecord, fact: Fact, now: int)
  {
    && fact.proven && fact.proposal == record.id && fact.payload == record.payload
    && now < fact.expires && fact.issued <= now && fact.issued < fact.expires
  }

  predicate Bound(record: ProposalRecord, fact: Fact, now: int)
  {
    fact.proposal == record.id && fact.payload == record.payload && now < fact.expires
  }

  function Digit(d: nat): char
    requires d < 10
  {
    "0123456789"[d]
  }

  function Decimal(n: nat): string
  {
    if n < 10 then [Digit(n)] else Decimal(n / 10) + [Digit(n % 10)]
  }

  /** The key under which one approval round of a proposal is consumed. */
  function RoundKey(proposal: string, generation: nat): string
  {
    if generation == 0 then proposal else proposal + ":" + Decimal(generation)
  }

  function ApproveKeys(fact: Fact, proposal: string, generation: nat): seq<Key>
  {
    [("approve", fact.id), ("approve-proposal", RoundKey(proposal, generation)),
     ("approve-idempotency", fact.device + ":" + fact.idempotency)]
  }

  function ResetKeys(fact: Fact, proposal: string): seq<Key>
  {
    [("recover", fact.id), (RoundNamespace(proposal), fact.id),
     ("recover-idempotency", fact.device + ":" + fact.idempotency)]
  }

  /** The checks before anything is consumed. */
  predicate Permitted(r: Request)
  {
    match r
    case Approve(p, f, now) => p.state.Proposed? && !f.isReset && ValidApproval(p, f, now)
    case Reset(p, f, now, zero) => p.state.Approved? && zero && ValidApproval(p, f, now)
    case Apply(p, f, now) => p.state.Approved? && Bound(p, f, now)
    case Revert(p, f, now) => p.state.Applied? && Bound(p, f, now)
    case Reconcile(p, f, now) => p.state.Applied? && Bound(p, f, now)
  }

  function KeysFor(consumed: set<Key>, r: Request): seq<Key>
  {
    match r
    case Approve(p, f, _) => ApproveKeys(f, p.id, Generation(consumed, p.id))
    case Reset(p, f, _, _) => ResetKeys(f, p.id)
    case Apply(_, f, _) => [("apply", f.id)]
    case Revert(_, f, _) => [("revert", f.id)]
    case Reconcile(_, f, _) => [("reconcile", f.id)]
  }

  function Outcome(r: Request): State
  {
    match r
    case Approve(_, _, _) => Approved
    case Reset(_, _, _, _) => Proposed
    case Apply(_, _, _) => Applied
    case Revert(_, _, _) => Reverted
    case Reconcile(_, _, _) => Reconciled
  }

  /** One request: the consumed keys after it and whether it was granted. */
  function Serve(consumed: set<Key>, r: Request): (set<Key>, bool)
  {
    if Permitted(r) then Consume(consumed, KeysFor(consumed, r)) else (consumed, false)
  }

  /** What each kind of request takes, told in the fields of the record and of the fact and in
      the keys still unused, and which keys it uses up. */
  lemma {:induction false} ServeExactly(consumed: set<Key>, r: Request)
    ensures r.Approve? ==>
              var keys := {("approve", r.fact.id), ("approve-proposal", RoundKey(r.record.id, Generation(consumed, r.record.id))),
                           ("approve-idempotency", r.fact.device + ":" + r.fact.idempotency)};
              && (Serve(consumed, r).1 <==>
                    && r.record.state.Proposed? && !r.fact.isReset && r.fact.proven
                    && r.fact.proposal == r.record.id && r.fact.payload == r.record.payload && r.fact.issued <= r.now < r.fact.expires
                    && keys !! consumed)
              && (Serve(consumed, r).1 ==> Serve(consumed, r).0 == consumed + keys)
    ensures r.Reset? ==>
              var keys := {("recover", r.fact.id), ("reset-round:" + r.record.id, r.fact.id),
                           ("recover-idempotency", r.fact.device + ":" + r.fact.idempotency)};
              && (Serve(consumed, r).1 <==>
                    && r.record.state.Approved? && r.zeroEffects && r.fact.proven
                    && r.fact.proposal == r.record.id && r.fact.payload == r.record.payload && r.fact.issued <= r.now < r.fact.expires
                    && keys !! consumed)
              && (Serve(consumed, r).1 ==> Serve(consumed, r).0 == consumed + keys)
    ensures !r.Approve? && !r.Reset? ==>
              var key := (if r.Apply? then "apply" else if r.Revert? then "revert" else "reconcile", r.fact.id);
              && (Serve(consumed, r).1 <==>
                    && (if r.Apply? then r.record.state.Approved? else r.record.state.Applied?)
                    && r.fact.proposal == r.record.id && r.fact.payload == r.record.payload && r.now < r.fact.expires
                    && key !in consumed)
              && (Serve(consumed, r).1 ==> Serve(consumed, r).0 == consumed + {key})
    ensures !Serve(consumed, r).1 ==> Serve(consumed, r).0 == consumed
  {
    KeysInFull(consumed, r);
  }

  lemma {:induction false} KeysInFull(consumed: set<Key>, r: Request)
    ensures r.Approve? ==>
              KeysOf(KeysFor(consumed, r)) ==
              {("approve", r.fact.id), ("approve-proposal", RoundKey(r.record.id, Generation(consumed, r.record.id))),
               ("approve-idempotency", r.fact.device + ":" + r.fact.idempotency)}
    ensures r.Reset? ==>
              KeysOf(KeysFor(consumed, r)) ==
              {("recover", r.fact.id), ("reset-round:" + r.record.id, r.fact.id),
               ("recover-idempotency", r.fact.device + ":" + r.fact.idempotency)}
    ensures !r.Approve? && !r.Reset? ==>
              KeysOf(KeysFor(consumed, r)) ==
              {(if r.Apply? then "apply" else if r.Revert? then "revert" else "reconcile", r.fact.id)}
  {
  }

  datatype Answer = Granted(state: State) | Refused

  class ProposalLifecycle {
    const consumption: MemoryConsumptionStore

    constructor (consumption: MemoryConsumptionStore)
      ensures this.consumption == consumption
    {
      this.consumption := consumption;
    }

    method Handle(r: Request) returns (a: Answer)
      modifies consumption
      ensures (consumption.consumed, a.Granted?) == Serve(old(consumption.consumed), r)
      ensures a.Granted? ==> a.state == Outcome(r)
      ensures r.Approve? ==>
                (a.Granted? <==>
                   && r.record.state.Proposed? && !r.fact.isReset && r.fact.proven
                   && r.fact.proposal == r.record.id && r.fact.payload == r.record.payload && r.fact.issued <= r.now < r.fact.expires
                   && ("approve", r.fact.id) !in old(consumption.consumed)
                   && ("approve-proposal", RoundKey(r.record.id, Generation(old(consumption.consumed), r.record.id)))
                      !in old(consumption.consumed)
                   && ("approve-idempotency", r.fact.device + ":" + r.fact.idempotency) !in old(consumption.consumed))
      ensures r.Reset? ==>
                (a.Granted? <==>
                   && r.record.state.Approved? && r.zeroEffects && r.fact.proven
                   && r.fact.proposal == r.record.id && r.fact.payload == r.record.payload && r.fact.issued <= r.now < r.fact.expires
                   && ("recover", r.fact.id) !in old(consumption.consumed)
                   && ("reset-round:" + r.record.id, r.fact.id) !in old(consumption.consumed)
                   && ("recover-idempotency", r.fact.device + ":" + r.fact.idempotency) !in old(consumption.consumed))
      ensures !r.Approve? && !r.Reset? ==>
                (a.Granted? <==>
                   && (if r.Apply? then r.record.state.Approved? else r.record.state.Applied?)
                   && r.fact.proposal == r.record.id && r.fact.payload == r.record.payload && r.now < r.fact.expires
                   && (if r.Apply? then "apply" else if r.Revert? then "revert" else "reconcile", r.fact.id)
                      !in old(consumption.consumed))
      ensures a.Granted? ==>
                && (r.Approve? <==> a.state.Approved?) && (r.Reset? <==> a.state.Proposed?) && (r.Apply? <==> a.state.Applied?)
                && (r.Revert? <==> a.state.Reverted?) && (r.Reconcile? <==> a.state.Reconciled?)
      ensures a.Refused? ==> consumption.consumed == old(consumption.consumed)
    {
      ServeExactly(consumption.consumed, r);
      hide Serve, Generation;
      if !Permitted(r) {
        return Refused;
      }
      var keys: seq<Key>;
      match r {
        case Approve(p, f, _) =>
          var generation := consumption.CountRounds(p.id);
          keys := ApproveKeys(f, p.id, generation);
        case Reset(p, f, _, _) => keys := ResetKeys(f, p.id);
        case Apply(_, f, _) => keys := [("apply", f.id)];
        case Revert(_, f, _) => keys := [("revert", f.id)];
        case Reconcile(_, f, _) => keys := [("reconcile", f.id)];
      }
      var unused := consumption.Claim(keys);
      return if unused then Granted(Outcome(r)) else Refused;
    }
  }

  // ------------------------------------------------------------------- namespaces

  lemma {:induction false} KeyNames(consumed: set<Key>, r: Request)
    ensures r.Approve? ==> KeysFor(consumed, r)[0].0[2] == 'p' && KeysFor(consumed, r)[1].0[2] == 'p' && KeysFor(consumed, r)[2].0[2] == 'p'
    ensures r.Reset? ==> KeysFor(consumed, r)[0].0[2] == 'c' && KeysFor(consumed, r)[2].0[2] == 'c'
  {
  }

  lemma {:induction false} RoundNamespaces(p: string, q: string)
    ensures RoundNamespace(p)[2] == 's'
    ensures RoundNamespace(p) == RoundNamespace(q) ==> p == q
  {
    assert RoundNamespace(p)[12..] == p && RoundNamespace(q)[12..] == q;
  }

  /** The keys of one request are distinct, so both stores treat it alike. */
  lemma {:induction false} LifecycleKeysDistinct(consumed: set<Key>, r: Request)
    ensures DistinctKeys(KeysFor(consumed, r))
    ensures Consume(consumed, KeysFor(consumed, r)) == ConsumeUnique(consumed, KeysFor(consumed, r))
  {
    var keys := KeysFor(consumed, r);
    if r.Approve? {
      assert |"approve"| == 7 && |"approve-proposal"| == 16 && |"approve-idempotency"| == 19;
    } else if r.Reset? {
      RoundNamespaces(r.record.id, "");
      KeyNames(consumed, r);
      assert |"recover"| == 7 && |"recover-idempotency"| == 19;
    }
  }

  // ------------------------------------------------------------------ the generation

  predicate IsResetOf(r: Request, p: string) { r.Reset? && r.record.id == p }

  predicate IsApprovalOf(r: Request, p: string) { r.Approve? && r.record.id == p }

  /** Only a granted reset of the proposal starts a new round. */
  lemma {:induction false} ServeGeneration(consumed: set<Key>, r: Request, p: string)
    ensures var (after, ok) := Serve(consumed, r);
            Generation(after, p) == Generation(consumed, p) + if ok && IsResetOf(r, p) then 1 else 0
  {
    var (after, ok) := Serve(consumed, r);
    if ok {
      RoundKeysOf(consumed, r, p);
      var keys := KeysOf(KeysFor(consumed, r));
      if IsResetOf(r, p) {
        var key := (RoundNamespace(p), r.fact.id);
        assert key in keys;
        assert Rounds(after, p) == Rounds(consumed, p) + {key};
      } else {
        assert Rounds(after, p) == Rounds(consumed, p);
      }
    }
  }

  lemma {:induction false} RoundKeysOf(consumed: set<Key>, r: Request, p: string)
    ensures forall k :: k in KeysFor(consumed, r) && k.0 == RoundNamespace(p) ==>
              IsResetOf(r, p) && k == (RoundNamespace(p), r.fact.id)
    ensures IsResetOf(r, p) ==> (RoundNamespace(p), r.fact.id) in KeysFor(consumed, r)
  {
    RoundNamespaces(p, r.record.id);
    KeyNames(consumed, r);
    if r.Reset? {
      assert KeysFor(consumed, r)[1] == (RoundNamespace(r.record.id), r.fact.id);
    } else if !r.Approve? {
      assert "apply"[2] == 'p' && "revert"[2] == 'v' && "reconcile"[2] == 'c';
    }
  }

  // ------------------------------------------------------------------------- runs

  /** The consumed keys after a run of requests. */
  function Run(consumed: set<Key>, requests: seq<Request>): set<Key>
  {
    if requests == [] then consumed
    else Serve(Run(consumed, requests[..|requests| - 1]), requests[|requests| - 1]).0
  }

  /** Whether the `i`-th request of a run was granted. */
  predicate GrantedAt(consumed: set<Key>, requests: seq<Request>, i: nat)
    requires i < |requests|
  {
    Serve(Run(consumed, requests[..i]), requests[i]).1
  }

  function Resets(requests: seq<Request>, p: string): nat
  {
    if requests == [] then 0
    else
      var n := |requests| - 1;
      Resets(requests[..n], p) + if GrantedAt({}, requests, n) && IsResetOf(requests[n], p) then 1 else 0
  }

  function Approvals(requests: seq<Request>, p: string): nat
  {
    if requests == [] then 0
    else
      var n := |requests| - 1;
      Approvals(requests[..n], p) + if GrantedAt({}, requests, n) && IsApprovalOf(requests[n], p) then 1 else 0
  }

  /** The generation counts the granted resets. */
  lemma {:induction false} GenerationCountsResets(requests: seq<Request>, p: string)
    ensures Generation(Run({}, requests), p) == Resets(requests, p)
  {
    if requests == [] {
      assert Rounds({}, p) == {};
    } else {
      var n := |requests| - 1;
      GenerationCountsResets(requests[..n], p);
      ServeGeneration(Run({}, requests[..n]), requests[n], p);
    }
  }

  /** The rounds of a proposal whose approval is consumed. */
  function UsedRounds(consumed: set<Key>, p: string): set<nat>
  {
    set g: nat | g <= Generation(consumed, p) && ("approve-proposal", RoundKey(p, g)) in consumed
  }

  lemma {:induction false} AtMost(s: set<nat>, n: nat)
    requires forall g :: g in s ==> g <= n
    ensures |s| <= n + 1
    decreases n
  {
    if n == 0 {
      assert s <= {0};
      SubsetSize(s, {0});
    } else {
      AtMost(s - {n}, n - 1);
      if n in s {
        assert s == (s - {n}) + {n};
      } else {
        assert s - {n} == s;
      }
    }
  }

  lemma {:induction false} SubsetSize<T>(a: set<T>, b: set<T>)
    requires a <= b
    ensures |a| <= |b|
    decreases |a|
  {
    if a != {} {
      var x :| x in a;
      SubsetSize(a - {x}, b - {x});
    }
  }

  lemma {:induction false} ServeUsesRounds(consumed: set<Key>, r: Request, p: string)
    ensures var (after, ok) := Serve(consumed, r);
            |UsedRounds(after, p)| >= |UsedRounds(consumed, p)| + if ok && IsApprovalOf(r, p) then 1 else 0
  {
    var (after, ok) := Serve(consumed, r);
    ServeGeneration(consumed, r, p);
    var before, now := UsedRounds(consumed, p), UsedRounds(after, p);
    assert before <= now;
    if ok && IsApprovalOf(r, p) {
      var g := Generation(consumed, p);
      var key := ("approve-proposal", RoundKey(p, g));
      assert KeysFor(consumed, r)[1] == key;
      assert key in KeysOf(KeysFor(consumed, r));
      assert g !in before && g in now;
      SubsetSize(before + {g}, now);
    } else {
      SubsetSize(before, now);
    }
  }

  lemma {:induction false} ApprovalsUseRounds(requests: seq<Request>, p: string)
    ensures Approvals(requests, p) <= |UsedRounds(Run({}, requests), p)|
  {
    if requests != [] {
      var n := |requests| - 1;
      ApprovalsUseRounds(requests[..n], p);
      ServeUsesRounds(Run({}, requests[..n]), requests[n], p);
    }
  }

  /** Approval accounting: over every run, even with stale records, a proposal is approved at
      most once more than it was reset. */
  lemma {:induction false} ApprovalsBounded(requests: seq<Request>, p: string)
    ensures Approvals(requests, p) <= Resets(requests, p) + 1
  {
    ApprovalsUseRounds(requests, p);
    GenerationCountsResets(requests, p);
    AtMost(UsedRounds(Run({}, requests), p), Resets(requests, p));
  }

  // ------------------------------------------------------------------- at most once

  lemma {:induction false} KeysStay(consumed: set<Key>, requests: seq<Request>, i: nat)
    requires i <= |requests|
    ensures Run(consumed, requests[..i]) <= Run(consumed, requests)
    decreases |requests|
  {
    if i < |requests| {
      var n := |requests| - 1;
      KeysStay(consumed, requests[..n], i);
      assert requests[..n][..i] == requests[..i];
    } else {
      assert requests[..i] == requests;
    }
  }

  /** A key a granted request named is never granted again. */
  lemma {:induction false} NoKeyTwice(consumed: set<Key>, requests: seq<Request>, i: nat, j: nat, key: Key)
    requires i < j < |requests|
    requires GrantedAt(consumed, requests, i) && GrantedAt(consumed, requests, j)
    requires key in KeysFor(Run(consumed, requests[..i]), requests[i])
    ensures key !in KeysFor(Run(consumed, requests[..j]), requests[j])
  {
    var prefix := requests[..j];
    KeysStay(consumed, prefix, i + 1);
    assert prefix[..i + 1] == requests[..i + 1];
    assert requests[..i + 1][..i] == requests[..i];
    assert key in KeysOf(KeysFor(Run(consumed, requests[..i]), requests[i]));
    var later := KeysFor(Run(consumed, requests[..j]), requests[j]);
    assert forall k :: k in later ==> k in KeysOf(later);
  }

  predicate SameKind(a: Request, b: Request)
  {
    || (a.Approve? && b.Approve?) || (a.Reset? && b.Reset?) || (a.Apply? && b.Apply?)
    || (a.Revert? && b.Revert?) || (a.Reconcile? && b.Reconcile?)
  }

  lemma {:induction false} FactKey(consumed: set<Key>, later: set<Key>, a: Request, b: Request) returns (key: Key)
    requires SameKind(a, b) && a.fact.id == b.fact.id
    ensures key in KeysFor(consumed, a) && key in KeysFor(later, b)
  {
    key := KeysFor(consumed, a)[0];
    assert KeysFor(later, b)[0] == key;
  }

  lemma {:induction false} PairKey(consumed: set<Key>, later: set<Key>, a: Request, b: Request) returns (key: Key)
    requires SameKind(a, b) && (a.Approve? || a.Reset?)
    requires a.fact.device == b.fact.device && a.fact.idempotency == b.fact.idempotency
    ensures key in KeysFor(consumed, a) && key in KeysFor(later, b)
  {
    key := KeysFor(consumed, a)[2];
    assert KeysFor(later, b)[2] == key;
  }

  /** Over every run each fact is accepted at most once per kind of transition, and so is each
      pair of device and idempotency key for approvals and for resets. */
  lemma {:induction false} AcceptedAtMostOnce(requests: seq<Request>, i: nat, j: nat)
    requires i < j < |requests| && GrantedAt({}, requests, i) && GrantedAt({}, requests, j)
    requires SameKind(requests[i], requests[j])
    ensures requests[i].fact.id != requests[j].fact.id
    ensures requests[i].Approve? || requests[i].Reset? ==>
              (requests[i].fact.device, requests[i].fact.idempotency) != (requests[j].fact.device, requests[j].fact.idempotency)
  {
    var a, b := requests[i], requests[j];
    var before, later := Run({}, requests[..i]), Run({}, requests[..j]);
    if a.fact.id == b.fact.id {
      var key := FactKey(before, later, a, b);
      NoKeyTwice({}, requests, i, j, key);
    }
    if (a.Approve? || a.Reset?) && a.fact.device == b.fact.device && a.fact.idempotency == b.fact.idempotency {
      var key := PairKey(before, later, a, b);
      NoKeyTwice({}, requests, i, j, key);
    }
  }

  /** A request that is not granted leaves every key as it was. */
  lemma {:induction false} RefusedChangesNothing(consumed: set<Key>, r: Request)
    ensures !Serve(consumed, r).1 ==> Serve(consumed, r).0 == consumed
  {
  }

  // ------------------------------------------------------------- a reset opens a round

  lemma {:induction false} DigitInjective(a: nat, b: nat)
    requires a < 10 && b < 10 && Digit(a) == Digit(b)
    ensures a == b
  {
  }

  lemma {:induction false} DecimalInjective(a: nat, b: nat)
    requires Decimal(a) == Decimal(b)
    ensures a == b
    decreases a + b
  {
    DecimalNonEmpty(a / 10);
    DecimalNonEmpty(b / 10);
    var x, y := Decimal(a), Decimal(b);
    if a < 10 && b < 10 {
      assert x[0] == y[0];
      DigitInjective(a, b);
    } else if a >= 10 && b >= 10 {
      assert x[|x| - 1] == y[|y| - 1];
      DigitInjective(a % 10, b % 10);
      assert x[..|x| - 1] == Decimal(a / 10) && y[..|y| - 1] == Decimal(b / 10);
      DecimalInjective(a / 10, b / 10);
    }
  }

  lemma {:induction false} DecimalNonEmpty(n: nat)
    ensures |Decimal(n)| >= 1
  {
  }

  /** A proposal identity is a UUID: it has no colon. */
  predicate IsUuid(s: string) { ':' !in s }

  lemma {:induction false} ColonInRound(p: string, g: nat)
    ensures g > 0 ==> ':' in RoundKey(p, g)
  {
    if g > 0 {
      assert RoundKey(p, g)[|p|] == ':';
    }
  }

  lemma {:induction false} RoundKeyInjective(p: string, g: nat, q: string, h: nat)
    requires IsUuid(p) && IsUuid(q) && RoundKey(p, g) == RoundKey(q, h)
    ensures p == q && g == h
  {
    ColonInRound(p, g);
    ColonInRound(q, h);
    if g > 0 {
      SameJoin(p, Decimal(g), q, Decimal(h), ':');
      PlainFirst(p, Decimal(g), q, Decimal(h), ':');
      DecimalInjective(g, h);
    }
  }

  /** Rounds are consumed in order: none beyond the current one. */
  ghost predicate NoFutureRound(consumed: set<Key>, p: string)
  {
    forall g: nat {:trigger RoundKey(p, g)} :: g > Generation(consumed, p) ==> ("approve-proposal", RoundKey(p, g)) !in consumed
  }

  lemma {:induction false} ServeNoFuture(consumed: set<Key>, r: Request, p: string)
    requires IsUuid(p) && IsUuid(r.record.id) && NoFutureRound(consumed, p)
    ensures NoFutureRound(Serve(consumed, r).0, p)
  {
    var (after, ok) := Serve(consumed, r);
    ServeGeneration(consumed, r, p);
    forall g: nat | g > Generation(after, p)
      ensures ("approve-proposal", RoundKey(p, g)) !in after
    {
      var key := ("approve-proposal", RoundKey(p, g));
      if ok && key in KeysOf(KeysFor(consumed, r)) {
        RoundKeySource(consumed, r, key);
        RoundKeyInjective(p, g, r.record.id, Generation(consumed, r.record.id));
      }
    }
  }

  lemma {:induction false} RoundKeySource(consumed: set<Key>, r: Request, key: Key)
    requires key in KeysFor(consumed, r) && key.0 == "approve-proposal"
    ensures r.Approve? && key == ("approve-proposal", RoundKey(r.record.id, Generation(consumed, r.record.id)))
  {
    assert |"approve-proposal"| == 16 && |"approve"| == 7 && |"approve-idempotency"| == 19 && |"apply"| == 5;
    assert "approve-proposal"[2] == 'p';
    assert "revert"[2] == 'v' && "reconcile"[2] == 'c';
    RoundNamespaces(r.record.id, "");
    KeyNames(consumed, r);
  }

  lemma {:induction false} RunNoFuture(requests: seq<Request>, p: string)
    requires IsUuid(p) && forall i :: 0 <= i < |requests| ==> IsUuid(requests[i].record.id)
    ensures NoFutureRound(Run({}, requests), p)
  {
    if requests != [] {
      var n := |requests| - 1;
      RunNoFuture(requests[..n], p);
      ServeNoFuture(Run({}, requests[..n]), requests[n], p);
    }
  }

  /** After a granted reset the proposal can be approved again: a permitted approval with a new
      fact and a new idempotency key is granted. */
  lemma {:induction false} ResetReopens(requests: seq<Request>, reset: Request, approval: Request)
    requires forall i :: 0 <= i < |requests| ==> IsUuid(requests[i].record.id)
    requires reset.Reset? && IsUuid(reset.record.id) && Serve(Run({}, requests), reset).1
    requires approval.Approve? && approval.record.id == reset.record.id && Permitted(approval)
    requires ("approve", approval.fact.id) !in Run({}, requests)
    requires ("approve-idempotency", approval.fact.device + ":" + approval.fact.idempotency) !in Run({}, requests)
    ensures Serve(Serve(Run({}, requests), reset).0, approval).1
  {
    RunNoFuture(requests, reset.record.id);
    ReopenFrom(Run({}, requests), reset, approval);
  }

  lemma {:induction false} ReopenFrom(before: set<Key>, reset: Request, approval: Request)
    requires reset.Reset? && NoFutureRound(before, reset.record.id) && Serve(before, reset).1
    requires approval.Approve? && approval.record.id == reset.record.id && Permitted(approval)
    requires ("approve", approval.fact.id) !in before
    requires ("approve-idempotency", approval.fact.device + ":" + approval.fact.idempotency) !in before
    ensures Serve(Serve(before, reset).0, approval).1
  {
    hide Permitted, Rounds, RoundNamespace, RoundKey;
    var p, after := reset.record.id, Serve(before, reset).0;
    ServeGeneration(before, reset, p);
    assert "approve"[2] == 'p' && "approve-proposal"[2] == 'p' && "approve-idempotency"[2] == 'p';
    ResetKeysAside(before, reset, ("approve", approval.fact.id));
    ResetKeysAside(before, reset, ("approve-proposal", RoundKey(p, Generation(after, p))));
    ResetKeysAside(before, reset, ("approve-idempotency", approval.fact.device + ":" + approval.fact.idempotency));
    AllUnused(after, KeysFor(after, approval));
  }

  lemma {:induction false} ResetKeysAside(consumed: set<Key>, reset: Request, key: Key)
    requires reset.Reset? && |key.0| > 2 && key.0[2] == 'p'
    ensures key !in KeysOf(KeysFor(consumed, reset))
  {
    KeyNames(consumed, reset);
    RoundNamespaces(reset.record.id, "");
  }

  lemma {:induction false} AllUnused(consumed: set<Key>, keys: seq<Key>)
    requires |keys| == 3 && keys[0] !in consumed && keys[1] !in consumed && keys[2] !in consumed
    ensures Consume(consumed, keys).1
  {
  }
}
