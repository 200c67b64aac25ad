/** Which requests of a run are granted, told by what was granted before and nothing else. */
module AuthorityHistory {
  import opened Consumption
  import opened Authority

  /** Finds the granted request that used the key up. */
  lemma {:induction false} UsedUpBy(requests: seq<Request>, key: Key) returns (j: nat)
    requires key in Run({}, requests)
    ensures j < |requests| && GrantedAt({}, requests, j) && key in KeysOf(KeysFor(Run({}, requests[..j]), requests[j]))
  {
    var n := |requests| - 1;
    var front := requests[..n];
    if key in Run({}, front) {
      j := UsedUpBy(front, key);
      assert front[..j] == requests[..j];
    } else {
      j := n;
    }
  }

  lemma {:induction false} GrantUsesUp(requests: seq<Request>, j: nat, i: nat, key: Key)
    requires j < i <= |requests| && GrantedAt({}, requests, j) && key in KeysOf(KeysFor(Run({}, requests[..j]), requests[j]))
    ensures key in Run({}, requests[..i])
  {
    var upTo := requests[..j + 1];
    assert upTo[..j] == requests[..j];
    KeysStay({}, requests[..i], j + 1);
    assert requests[..i][..j + 1] == upTo;
  }

  lemma {:induction false} GrantedInPrefix(requests: seq<Request>, i: nat, j: nat)
    requires j < i <= |requests|
    ensures GrantedAt({}, requests[..i], j) <==> GrantedAt({}, requests, j)
  {
    assert requests[..i][..j] == requests[..j];
  }

  /** Each key is used by one kind of request, and names its fact, its round or its device. */
  lemma {:induction false} KeyOwner(consumed: set<Key>, r: Request, x: string)
    ensures ("approve", x) in KeysOf(KeysFor(consumed, r)) <==> r.Approve? && r.fact.id == x
    ensures ("approve-proposal", x) in KeysOf(KeysFor(consumed, r)) <==>
            r.Approve? && RoundKey(r.record.id, Generation(consumed, r.record.id)) == x
    ensures ("approve-idempotency", x) in KeysOf(KeysFor(consumed, r)) <==>
            r.Approve? && r.fact.device + ":" + r.fact.idempotency == x
    ensures ("recover", x) in KeysOf(KeysFor(consumed, r)) <==> r.Reset? && r.fact.id == x
    ensures ("recover-idempotency", x) in KeysOf(KeysFor(consumed, r)) <==>
            r.Reset? && r.fact.device + ":" + r.fact.idempotency == x
    ensures ("apply", x) in KeysOf(KeysFor(consumed, r)) <==> r.Apply? && r.fact.id == x
    ensures ("revert", x) in KeysOf(KeysFor(consumed, r)) <==> r.Revert? && r.fact.id == x
    ensures ("reconcile", x) in KeysOf(KeysFor(consumed, r)) <==> r.Reconcile? && r.fact.id == x
  {
    KeysInFull(consumed, r);
    hide KeysFor, KeysOf, RoundKey, Generation;
    assert |"approve"| == 7 && |"approve-proposal"| == 16 && |"approve-idempotency"| == 19 && |"apply"| == 5;
    assert |"recover"| == 7 && |"recover-idempotency"| == 19 && |"revert"| == 6 && |"reconcile"| == 9;
    assert "approve"[2] == 'p' && "approve-proposal"[2] == 'p' && "approve-idempotency"[2] == 'p' && "apply"[2] == 'p';
    assert "recover"[2] == 'c' && "recover-idempotency"[2] == 'c' && "revert"[2] == 'v' && "reconcile"[2] == 'c';
    assert ("reset-round:" + r.record.id)[2] == 's';
  }

  lemma {:induction false} RoundKeyOwner(consumed: set<Key>, r: Request, p: string, x: string)
    ensures ("reset-round:" + p, x) in KeysOf(KeysFor(consumed, r)) <==> r.Reset? && r.record.id == p && r.fact.id == x
  {
    KeysInFull(consumed, r);
    hide KeysFor, KeysOf, RoundKey, Generation;
    assert "approve"[2] == 'p' && "approve-proposal"[2] == 'p' && "approve-idempotency"[2] == 'p' && "apply"[2] == 'p';
    assert "recover"[2] == 'c' && "recover-idempotency"[2] == 'c' && "revert"[2] == 'v' && "reconcile"[2] == 'c';
    assert ("reset-round:" + p)[2] == 's' && ("reset-round:" + r.record.id)[2] == 's';
    assert ("reset-round:" + p)[12..] == p && ("reset-round:" + r.record.id)[12..] == r.record.id;
  }

  // ------------------------------------------------------------------------ rounds

  /** The proposal was reset between the two requests. */
  ghost predicate ResetBetween(requests: seq<Request>, p: string, j: nat, i: nat)
    requires i <= |requests|
  {
    exists k :: j < k < i && requests[k].Reset? && requests[k].record.id == p && GrantedAt({}, requests, k)
  }

  lemma {:induction false} ResetsGrow(requests: seq<Request>, p: string, j: nat, i: nat)
    requires j < i <= |requests| && !IsResetOf(requests[j], p)
    ensures Resets(requests[..j], p) <= Resets(requests[..i], p)
    ensures Resets(requests[..j], p) == Resets(requests[..i], p) <==> !ResetBetween(requests, p, j, i)
    decreases i
  {
    hide GrantedAt, ResetBetween;
    var n := i - 1;
    ResetsStep(requests, p, i);
    BetweenStep(requests, p, j, i);
    if n > j {
      ResetsGrow(requests, p, j, n);
    }
  }

  lemma {:induction false} ResetsStep(requests: seq<Request>, p: string, i: nat)
    requires 0 < i <= |requests|
    ensures Resets(requests[..i], p) ==
            Resets(requests[..i - 1], p) + if IsResetOf(requests[i - 1], p) && GrantedAt({}, requests, i - 1) then 1 else 0
  {
    hide GrantedAt;
    assert requests[..i][..i - 1] == requests[..i - 1];
    GrantedInPrefix(requests, i, i - 1);
  }

  lemma {:induction false} BetweenStep(requests: seq<Request>, p: string, j: nat, i: nat)
    requires j < i <= |requests| && !IsResetOf(requests[j], p)
    ensures ResetBetween(requests, p, j, i) <==>
            || (j < i - 1 && ResetBetween(requests, p, j, i - 1))
            || (IsResetOf(requests[i - 1], p) && GrantedAt({}, requests, i - 1))
  {
    hide GrantedAt;
  }

  lemma {:induction false} SameRound(requests: seq<Request>, j: nat, i: nat)
    requires j < i < |requests| && requests[j].Approve? && requests[i].Approve?
    requires IsUuid(requests[j].record.id) && IsUuid(requests[i].record.id)
    ensures RoundKey(requests[j].record.id, Generation(Run({}, requests[..j]), requests[j].record.id)) ==
            RoundKey(requests[i].record.id, Generation(Run({}, requests[..i]), requests[i].record.id)) <==>
            requests[j].record.id == requests[i].record.id && !ResetBetween(requests, requests[i].record.id, j, i)
  {
    var p, q := requests[j].record.id, requests[i].record.id;
    GenerationCountsResets(requests[..j], p);
    GenerationCountsResets(requests[..i], q);
    hide Generation, Run, RoundKey, ResetBetween, Resets;
    ResetsGrow(requests, q, j, i);
    var g, h := Resets(requests[..j], p), Resets(requests[..i], q);
    if RoundKey(p, g) == RoundKey(q, h) {
      RoundKeyInjective(p, g, q, h);
    }
  }

  // -------------------------------------------------------------- granted by history

  /** An earlier approval of the run stands in the way of this one. */
  ghost predicate Hinders(requests: seq<Request>, j: nat, i: nat)
    requires j < i < |requests|
  {
    && requests[j].Approve? && GrantedAt({}, requests, j)
    && (|| requests[j].fact.id == requests[i].fact.id
        || requests[j].fact.device + ":" + requests[j].fact.idempotency == requests[i].fact.device + ":" + requests[i].fact.idempotency
        || (requests[j].record.id == requests[i].record.id && !ResetBetween(requests, requests[i].record.id, j, i)))
  }

  lemma {:induction false} HinderedByKey(requests: seq<Request>, i: nat, key: Key) returns (j: nat)
    requires i < |requests| && requests[i].Approve? && forall j :: 0 <= j <= i ==> IsUuid(requests[j].record.id)
    requires key in KeysOf(KeysFor(Run({}, requests[..i]), requests[i])) && key in Run({}, requests[..i])
    ensures j < i && Hinders(requests, j, i)
  {
    hide Run, GrantedAt, KeysFor, KeysOf, ResetBetween, RoundKey, Generation;
    j := UsedUpBy(requests[..i], key);
    var before, now := Run({}, requests[..i][..j]), Run({}, requests[..i]);
    assert requests[..i][..j] == requests[..j];
    GrantedInPrefix(requests, i, j);
    KeysInFull(now, requests[i]);
    KeyOwner(before, requests[j], key.1);
    if requests[j].Approve? {
      SameRound(requests, j, i);
    }
  }

  lemma {:induction false} HindranceHasKey(requests: seq<Request>, j: nat, i: nat) returns (key: Key)
    requires j < i < |requests| && requests[i].Approve? && Hinders(requests, j, i)
    requires IsUuid(requests[j].record.id) && IsUuid(requests[i].record.id)
    ensures key in KeysOf(KeysFor(Run({}, requests[..i]), requests[i])) && key in Run({}, requests[..i])
  {
    hide Run, GrantedAt, KeysFor, KeysOf, ResetBetween, RoundKey, Generation;
    var a, b := requests[j], requests[i];
    var before, now := Run({}, requests[..j]), Run({}, requests[..i]);
    SameRound(requests, j, i);
    if a.fact.id == b.fact.id {
      key := ("approve", b.fact.id);
    } else if a.fact.device + ":" + a.fact.idempotency == b.fact.device + ":" + b.fact.idempotency {
      key := ("approve-idempotency", b.fact.device + ":" + b.fact.idempotency);
    } else {
      key := ("approve-proposal", RoundKey(b.record.id, Generation(now, b.record.id)));
    }
    KeyOwner(before, a, key.1);
    KeyOwner(now, b, key.1);
    GrantUsesUp(requests, j, i, key);
  }

  /** An approval is granted exactly when it is proven, bound to the proposed record and in
      force, and no approval granted before bears its fact or its device and idempotency key,
      or approved the same proposal with no reset granted since. */
  lemma {:induction false} ApprovalGrantedExactly(requests: seq<Request>, i: nat)
    requires i < |requests| && requests[i].Approve? && forall j :: 0 <= j <= i ==> IsUuid(requests[j].record.id)
    ensures var r := requests[i];
            GrantedAt({}, requests, i) <==>
            && r.record.state.Proposed? && !r.fact.isReset && r.fact.proven
            && r.fact.proposal == r.record.id && r.fact.payload == r.record.payload && r.fact.issued <= r.now < r.fact.expires
            && forall j :: 0 <= j < i ==> !Hinders(requests, j, i)
  {
    var r, now := requests[i], Run({}, requests[..i]);
    ServeExactly(now, r);
    KeysInFull(now, r);
    hide Run, Serve, KeysFor, KeysOf, Hinders, RoundKey, Generation;
    var keys := KeysOf(KeysFor(now, r));
    if !(keys !! now) {
      var key :| key in keys && key in now;
      var j := HinderedByKey(requests, i, key);
    }
    if j :| 0 <= j < i && Hinders(requests, j, i) {
      var key := HindranceHasKey(requests, j, i);
    }
  }

  /** A reset is granted exactly when it is proven, bound to the approved record and in force,
      the calendar shows no effect, and no reset granted before bears its fact or its device
      and idempotency key. */
  lemma {:induction false} ResetGrantedExactly(requests: seq<Request>, i: nat)
    requires i < |requests| && requests[i].Reset?
    ensures var r := requests[i];
            GrantedAt({}, requests, i) <==>
            && r.record.state.Approved? && r.zeroEffects && r.fact.proven
            && r.fact.proposal == r.record.id && r.fact.payload == r.record.payload && r.fact.issued <= r.now < r.fact.expires
            && forall j :: 0 <= j < i && requests[j].Reset? && GrantedAt({}, requests, j) ==>
                 && requests[j].fact.id != r.fact.id
                 && requests[j].fact.device + ":" + requests[j].fact.idempotency != r.fact.device + ":" + r.fact.idempotency
  {
    var r, now := requests[i], Run({}, requests[..i]);
    ServeExactly(now, r);
    KeysInFull(now, r);
    hide Run, Serve, KeysFor, KeysOf, RoundKey, Generation;
    var keys := KeysOf(KeysFor(now, r));
    if !(keys !! now) {
      var key :| key in keys && key in now;
      var j := ResetHindered(requests, i, key);
    }
    hide GrantedAt;
    forall j | 0 <= j < i && requests[j].Reset? && GrantedAt({}, requests, j)
      ensures requests[j].fact.id == r.fact.id ==> ("recover", r.fact.id) in now
      ensures requests[j].fact.device + ":" + requests[j].fact.idempotency == r.fact.device + ":" + r.fact.idempotency ==>
                ("recover-idempotency", r.fact.device + ":" + r.fact.idempotency) in now
    {
      ResetUses(requests, j, i);
    }
  }

  lemma {:induction false} ResetHindered(requests: seq<Request>, i: nat, key: Key) returns (j: nat)
    requires i < |requests| && requests[i].Reset?
    requires key in KeysOf(KeysFor(Run({}, requests[..i]), requests[i])) && key in Run({}, requests[..i])
    ensures j < i && requests[j].Reset? && GrantedAt({}, requests, j)
    ensures || requests[j].fact.id == requests[i].fact.id
            || requests[j].fact.device + ":" + requests[j].fact.idempotency ==
               requests[i].fact.device + ":" + requests[i].fact.idempotency
  {
    hide Run, GrantedAt, KeysFor, KeysOf;
    KeysInFull(Run({}, requests[..i]), requests[i]);
    j := UsedUpBy(requests[..i], key);
    assert requests[..i][..j] == requests[..j];
    GrantedInPrefix(requests, i, j);
    KeyOwner(Run({}, requests[..j]), requests[j], key.1);
    RoundKeyOwner(Run({}, requests[..j]), requests[j], requests[i].record.id, key.1);
  }

  lemma {:induction false} ResetUses(requests: seq<Request>, j: nat, i: nat)
    requires j < i <= |requests| && requests[j].Reset? && GrantedAt({}, requests, j)
    ensures ("recover", requests[j].fact.id) in Run({}, requests[..i])
    ensures ("recover-idempotency", requests[j].fact.device + ":" + requests[j].fact.idempotency) in Run({}, requests[..i])
  {
    hide Run, GrantedAt, KeysFor, KeysOf;
    var before := Run({}, requests[..j]);
    KeyOwner(before, requests[j], requests[j].fact.id);
    KeyOwner(before, requests[j], requests[j].fact.device + ":" + requests[j].fact.idempotency);
    GrantUsesUp(requests, j, i, ("recover", requests[j].fact.id));
    GrantUsesUp(requests, j, i, ("recover-idempotency", requests[j].fact.device + ":" + requests[j].fact.idempotency));
  }

  /** Applying takes an approved record, reverting and reconciling an applied one; each takes a
      fact bound to the record that has not expired, once. */
  lemma {:induction false} EffectGrantedExactly(requests: seq<Request>, i: nat)
    requires i < |requests| && !requests[i].Approve? && !requests[i].Reset?
    ensures var r := requests[i];
            GrantedAt({}, requests, i) <==>
            && (if r.Apply? then r.record.state.Approved? else r.record.state.Applied?)
            && r.fact.proposal == r.record.id && r.fact.payload == r.record.payload && r.now < r.fact.expires
            && forall j :: 0 <= j < i && GrantedAt({}, requests, j) && requests[j].fact.id == r.fact.id ==>
                 requests[j].Apply? != r.Apply? || requests[j].Revert? != r.Revert? || requests[j].Reconcile? != r.Reconcile?
  {
    var r, now := requests[i], Run({}, requests[..i]);
    ServeExactly(now, r);
    hide Run, Serve, KeysFor, KeysOf;
    var key := (if r.Apply? then "apply" else if r.Revert? then "revert" else "reconcile", r.fact.id);
    if key in now {
      var j := UsedUpBy(requests[..i], key);
      assert requests[..i][..j] == requests[..j];
      GrantedInPrefix(requests, i, j);
      KeyOwner(Run({}, requests[..j]), requests[j], key.1);
    }
    forall j | 0 <= j < i && GrantedAt({}, requests, j) && requests[j].fact.id == r.fact.id
               && requests[j].Apply? == r.Apply? && requests[j].Revert? == r.Revert? && requests[j].Reconcile? == r.Reconcile?
      ensures key in now
    {
      KeyOwner(Run({}, requests[..j]), requests[j], key.1);
      GrantUsesUp(requests, j, i, key);
    }
  }
}
