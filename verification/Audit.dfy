/** The audit chain: signed entries that name their predecessor, pruned from the front behind an
    anchor, and the variant that also binds the chain's head. */
module Audit {
  /** The signed fields of an entry other than its place in the chain. */
  datatype Facts = Facts(at: int, text: string)

  /** Signatures are injective in everything they cover. */
  datatype Hash = Zero | Signed(sequence: int, facts: Facts, previous: Hash)

  datatype Entry = Entry(sequence: int, facts: Facts, previous: Hash, hash: Hash)

  datatype Anchor = Anchor(sequence: int, hash: Hash)

  datatype Ledger = Ledger(entries: seq<Entry>, anchor: Anchor)

  datatype Verification = Verified(count: nat, final: Hash) | Tampered(sequence: int)

  const Fresh := Ledger([], Anchor(0, Zero))

  function Sign(e: Entry): Hash { Signed(e.sequence, e.facts, e.previous) }

  function Last(l: Ledger): Anchor
  {
    if l.entries == [] then l.anchor else Anchor(l.entries[|l.entries| - 1].sequence, l.entries[|l.entries| - 1].hash)
  }

  function Next(l: Ledger, f: Facts): Entry
  {
    var last := Last(l);
    Entry(last.sequence + 1, f, last.hash, Signed(last.sequence + 1, f, last.hash))
  }

  function Append(l: Ledger, f: Facts): Ledger { l.(entries := l.entries + [Next(l, f)]) }

  predicate Links(e: Entry, before: Anchor)
  {
    e.sequence == before.sequence + 1 && e.previous == before.hash && e.hash == Sign(e)
  }

  function Before(entries: seq<Entry>, anchor: Anchor, i: nat): Anchor
    requires i <= |entries|
  {
    if i == 0 then anchor else Anchor(anchor.sequence + i, entries[i - 1].hash)
  }

  ghost predicate Chained(entries: seq<Entry>, anchor: Anchor)
  {
    forall i :: 0 <= i < |entries| ==> Links(entries[i], Before(entries, anchor, i))
  }

  /** Verification reports the first entry that does not link, or the length and final hash. */
  ghost predicate IsVerification(entries: seq<Entry>, anchor: Anchor, v: Verification)
  {
    match v
    case Verified(count, final) =>
      Chained(entries, anchor) && count == |entries| && final == Before(entries, anchor, |entries|).hash
    case Tampered(sequence) =>
      var i := sequence - anchor.sequence - 1;
      && 0 <= i < |entries| && Chained(entries[..i], anchor) && !Links(entries[i], Before(entries, anchor, i))
  }

  /** A chain: numbers without a gap, each entry naming the hash before it and signed over
      its number, its facts and that hash. */
  lemma {:induction false} ChainedExactly(entries: seq<Entry>, anchor: Anchor)
    ensures Chained(entries, anchor) <==>
            forall i :: 0 <= i < |entries| ==>
              && entries[i].sequence == anchor.sequence + i + 1
              && entries[i].previous == (if i == 0 then anchor.hash else entries[i - 1].hash)
              && entries[i].hash == Signed(entries[i].sequence, entries[i].facts, entries[i].previous)
  {
  }

  // --------------------------------------------------------------------- pruning

  function ExpiredCount(entries: seq<Entry>, cutoff: int): nat
  {
    if entries == [] then 0
    else ExpiredCount(entries[..|entries| - 1], cutoff) + if entries[|entries| - 1].facts.at < cutoff then 1 else 0
  }

  /** One past the last expired entry: the number of entries a prune deletes. */
  function PruneEnd(entries: seq<Entry>, cutoff: int): (k: nat)
    ensures k <= |entries|
  {
    if entries == [] then 0
    else if entries[|entries| - 1].facts.at < cutoff then |entries|
    else PruneEnd(entries[..|entries| - 1], cutoff)
  }

  function Prune(l: Ledger, cutoff: int): Ledger
  {
    var k := PruneEnd(l.entries, cutoff);
    if k == 0 then l
    else Ledger(l.entries[k..], Anchor(l.entries[k - 1].sequence, l.entries[k - 1].hash))
  }

  class AuditLedger {
    var entries: seq<Entry>
    var anchor: Anchor

    constructor ()
      ensures State() == Fresh
    {
      entries, anchor := [], Anchor(0, Zero);
    }

    function State(): Ledger
      reads this
    {
      Ledger(entries, anchor)
    }

    method AppendFacts(f: Facts)
      modifies this`entries
      ensures State() == Append(old(State()), f)
      ensures |entries| == |old(entries)| + 1 && entries[..|old(entries)|] == old(entries)
      ensures var e, before := entries[|old(entries)|], Last(old(State()));
              && e.facts == f && e.sequence == before.sequence + 1 && e.previous == before.hash
              && e.hash == Signed(e.sequence, f, e.previous)
    {
      var sequence, previous := anchor.sequence, anchor.hash;
      if entries != [] {
        sequence, previous := entries[|entries| - 1].sequence, entries[|entries| - 1].hash;
      }
      var unsigned := Entry(sequence + 1, f, previous, Zero);
      entries := entries + [unsigned.(hash := Sign(unsigned))];
    }

    method Verify() returns (v: Verification)
      ensures IsVerification(entries, anchor, v)
    {
      var previous, i := anchor.hash, 0;
      while i < |entries|
        invariant 0 <= i <= |entries|
        invariant previous == Before(entries, anchor, i).hash
        invariant Chained(entries[..i], anchor)
      {
        var e := entries[i];
        assert Before(entries, anchor, i).sequence == anchor.sequence + i;
        if e.sequence != anchor.sequence + i + 1 || e.previous != previous || e.hash != Sign(e) {
          return Tampered(anchor.sequence + i + 1);
        }
        ChainedSnoc(entries, anchor, i);
        previous := e.hash;
        i := i + 1;
      }
      assert entries[..i] == entries;
      return Verified(|entries|, previous);
    }

    method ScanExpired(cutoff: int) returns (count: nat, end: nat)
      ensures count == ExpiredCount(entries, cutoff) && end == PruneEnd(entries, cutoff)
    {
      count, end := 0, 0;
      var i := 0;
      while i < |entries|
        invariant 0 <= i <= |entries|
        invariant count == ExpiredCount(entries[..i], cutoff) && end == PruneEnd(entries[..i], cutoff)
      {
        assert entries[..i + 1][..i] == entries[..i];
        if entries[i].facts.at < cutoff {
          count, end := count + 1, i + 1;
        }
        i := i + 1;
      }
      assert entries[..i] == entries;
    }

    /** Verifies, then deletes up to the last expired entry and anchors the chain there. The
        answer counts the expired entries. */
    method PruneBefore(cutoff: int) returns (r: Verification)
      modifies this
      ensures r.Tampered? ==> State() == old(State()) && IsVerification(entries, anchor, r)
      ensures r.Verified? <==> Chained(old(entries), old(anchor))
      ensures r.Verified? ==> State() == Prune(old(State()), cutoff) && r.count == ExpiredCount(old(entries), cutoff)
    {
      hide Chained, Links, IsVerification;
      var v := Verify();
      VerificationDecides(entries, anchor, v);
      if v.Tampered? {
        return v;
      }
      var count, end := ScanExpired(cutoff);
      if end > 0 {
        var last := entries[end - 1];
        entries, anchor := entries[end..], Anchor(last.sequence, last.hash);
      }
      return Verified(count, v.final);
    }
  }

  /** Verification succeeds exactly on chains. */
  lemma {:induction false} VerificationDecides(entries: seq<Entry>, anchor: Anchor, v: Verification)
    requires IsVerification(entries, anchor, v)
    ensures v.Verified? <==> Chained(entries, anchor)
  {
    if v.Tampered? {
      TamperedIsNotChained(entries, anchor, v.sequence - anchor.sequence - 1);
    }
  }

  lemma {:induction false} ChainedSnoc(entries: seq<Entry>, anchor: Anchor, i: nat)
    requires i < |entries| && Chained(entries[..i], anchor) && Links(entries[i], Before(entries, anchor, i))
    ensures Chained(entries[..i + 1], anchor)
  {
    hide Links;
    var fewer, more := entries[..i], entries[..i + 1];
    forall j | 0 <= j < i
      ensures Links(more[j], Before(more, anchor, j))
    {
      assert Before(more, anchor, j) == Before(fewer, anchor, j);
      assert Links(fewer[j], Before(fewer, anchor, j));
    }
    assert Before(more, anchor, i) == Before(entries, anchor, i);
  }

  lemma {:induction false} TamperedIsNotChained(entries: seq<Entry>, anchor: Anchor, i: nat)
    requires i < |entries| && !Links(entries[i], Before(entries, anchor, i))
    ensures !Chained(entries, anchor)
  {
  }

  // ------------------------------------------------------------------------- runs

  datatype Op = AppendOp(facts: Facts) | PruneOp(cutoff: int)

  function Do(l: Ledger, op: Op): Ledger
  {
    match op
    case AppendOp(f) => Append(l, f)
    case PruneOp(cutoff) => Prune(l, cutoff)
  }

  function Run(l: Ledger, ops: seq<Op>): Ledger
  {
    if ops == [] then l else Do(Run(l, ops[..|ops| - 1]), ops[|ops| - 1])
  }

  /** The same run without its prunes. */
  function AppendsOnly(ops: seq<Op>): seq<Op>
  {
    if ops == [] then []
    else
      var rest := AppendsOnly(ops[..|ops| - 1]);
      if ops[|ops| - 1].AppendOp? then rest + [ops[|ops| - 1]] else rest
  }

  /** `l` is `full` with its first entries cut off behind the anchor. */
  ghost predicate CutFrom(full: Ledger, l: Ledger)
  {
    && Chained(full.entries, full.anchor) && full.anchor == Anchor(0, Zero)
    && 0 <= l.anchor.sequence <= |full.entries|
    && l.entries == full.entries[l.anchor.sequence..]
    && l.anchor == Before(full.entries, full.anchor, l.anchor.sequence)
  }

  lemma {:induction false} AppendChains(l: Ledger, f: Facts)
    requires Chained(l.entries, l.anchor)
    ensures Chained(Append(l, f).entries, l.anchor)
    ensures Last(l) == Before(l.entries, l.anchor, |l.entries|)
  {
    var n, more := |l.entries|, Append(l, f).entries;
    if n > 0 {
      assert Links(l.entries[n - 1], Before(l.entries, l.anchor, n - 1));
    }
    assert more[..n] == l.entries;
    assert Before(more, l.anchor, n) == Before(l.entries, l.anchor, n);
    ChainedSnoc(more, l.anchor, n);
    assert more[..n + 1] == more;
  }

  lemma {:induction false} LinkAt(entries: seq<Entry>, anchor: Anchor, i: nat)
    requires Chained(entries, anchor) && i < |entries|
    ensures entries[i].sequence == anchor.sequence + i + 1
  {
    assert Links(entries[i], Before(entries, anchor, i));
  }

  lemma {:induction false} CutLinks(full: Ledger, l: Ledger, i: nat)
    requires CutFrom(full, l) && i < |l.entries|
    ensures Links(l.entries[i], Before(l.entries, l.anchor, i))
  {
    var k := l.anchor.sequence;
    assert Links(full.entries[k + i], Before(full.entries, full.anchor, k + i));
  }

  lemma {:induction false} LastOfChain(l: Ledger)
    requires Chained(l.entries, l.anchor)
    ensures Last(l) == Before(l.entries, l.anchor, |l.entries|)
  {
    var n := |l.entries|;
    if n > 0 {
      assert Links(l.entries[n - 1], Before(l.entries, l.anchor, n - 1));
    }
  }

  lemma {:induction false} CutKeepsEnd(full: Ledger, l: Ledger)
    requires CutFrom(full, l)
    ensures Chained(l.entries, l.anchor) && Last(l) == Last(full)
  {
    hide Links;
    CutChains(full, l);
    LastOfChain(l);
    LastOfChain(full);
    hide Chained, Last;
    var k, n := l.anchor.sequence, |full.entries|;
    assert Before(l.entries, l.anchor, |l.entries|) == Before(full.entries, full.anchor, n);
  }

  lemma {:induction false} CutChains(full: Ledger, l: Ledger)
    requires CutFrom(full, l)
    ensures Chained(l.entries, l.anchor)
  {
    hide Links, CutFrom;
    forall i | 0 <= i < |l.entries|
      ensures Links(l.entries[i], Before(l.entries, l.anchor, i))
    {
      CutLinks(full, l, i);
    }
  }

  lemma {:induction false} AppendBoth(full: Ledger, l: Ledger, f: Facts)
    requires CutFrom(full, l)
    ensures CutFrom(Append(full, f), Append(l, f))
  {
    hide Chained, Links, Last;
    CutKeepsEnd(full, l);
    AppendChains(full, f);
    var k := l.anchor.sequence;
    assert (full.entries + [Next(full, f)])[k..] == full.entries[k..] + [Next(full, f)];
  }

  lemma {:induction false} PruneOne(full: Ledger, l: Ledger, cutoff: int)
    requires CutFrom(full, l)
    ensures CutFrom(full, Prune(l, cutoff))
  {
    hide Chained, Links;
    var k, from := PruneEnd(l.entries, cutoff), l.anchor.sequence;
    if k > 0 {
      assert l.entries[k - 1] == full.entries[from + k - 1];
      LinkAt(full.entries, full.anchor, from + k - 1);
      assert full.entries[from..][k..] == full.entries[from + k..];
    }
  }

  lemma {:induction false} RunIsCut(ops: seq<Op>)
    ensures CutFrom(Run(Fresh, AppendsOnly(ops)), Run(Fresh, ops))
  {
    if ops != [] {
      hide CutFrom, Append, Prune;
      var front, op := ops[..|ops| - 1], ops[|ops| - 1];
      RunIsCut(front);
      var full, l := Run(Fresh, AppendsOnly(front)), Run(Fresh, front);
      match op
      case AppendOp(f) =>
        var appends := AppendsOnly(front);
        assert (appends + [op])[..|appends|] == appends;
        AppendBoth(full, l, f);
      case PruneOp(cutoff) => PruneOne(full, l, cutoff);
    }
  }

  /** Pruning is invisible to the chain: after every interleaving of appends and prunes the ledger
      verifies, and its final hash and next number are those of the run without the prunes. */
  lemma {:induction false} PruningIsInvisible(ops: seq<Op>, f: Facts)
    ensures var l := Run(Fresh, ops); var full := Run(Fresh, AppendsOnly(ops));
            && Chained(l.entries, l.anchor)
            && Last(l) == Last(full)
            && Next(l, f) == Next(full, f)
            && l.anchor.sequence >= 0 && |l.entries| + l.anchor.sequence == |full.entries|
  {
    hide Run, AppendsOnly, Chained, Last;
    RunIsCut(ops);
    CutKeepsEnd(Run(Fresh, AppendsOnly(ops)), Run(Fresh, ops));
  }

  /** The facts a run appends, in order. */
  function Appended(ops: seq<Op>): seq<Facts>
  {
    if ops == [] then []
    else Appended(ops[..|ops| - 1]) + if ops[|ops| - 1].AppendOp? then [ops[|ops| - 1].facts] else []
  }

  ghost predicate Carry(entries: seq<Entry>, facts: seq<Facts>)
  {
    |entries| == |facts| && forall i :: 0 <= i < |entries| ==> entries[i].facts == facts[i]
  }

  /** What is stored is what was appended: after every run the ledger holds exactly the latest
      facts appended, in order, and as many before them as its anchor counts are gone. */
  lemma {:induction false} EntriesCarryFacts(ops: seq<Op>, i: nat)
    ensures var l := Run(Fresh, ops);
            && 0 <= l.anchor.sequence && l.anchor.sequence + |l.entries| == |Appended(ops)|
            && (i < |l.entries| ==> l.entries[i].facts == Appended(ops)[l.anchor.sequence + i])
  {
    AppendsCarry(ops);
    RunIsCut(ops);
  }

  lemma {:induction false} AppendsCarry(ops: seq<Op>)
    ensures Carry(Run(Fresh, AppendsOnly(ops)).entries, Appended(ops))
  {
    if ops != [] {
      var front, op := ops[..|ops| - 1], ops[|ops| - 1];
      AppendsCarry(front);
      if op.AppendOp? {
        var appends := AppendsOnly(front);
        assert (appends + [op])[..|appends|] == appends;
      }
    }
  }

  // ------------------------------------------------------------ what a prune deletes

  /** Everything up to the last expired entry is expired. */
  ghost predicate ExpiredPrefix(entries: seq<Entry>, cutoff: int)
  {
    forall i, j :: 0 <= i < j < |entries| && entries[j].facts.at < cutoff ==> entries[i].facts.at < cutoff
  }

  lemma {:induction false} CountBelowEnd(entries: seq<Entry>, cutoff: int)
    ensures ExpiredCount(entries, cutoff) <= PruneEnd(entries, cutoff)
    ensures ExpiredCount(entries, cutoff) == |entries| <==> (forall i :: 0 <= i < |entries| ==> entries[i].facts.at < cutoff)
    ensures ExpiredCount(entries, cutoff) == ExpiredCount(entries[..PruneEnd(entries, cutoff)], cutoff)
    ensures forall i :: PruneEnd(entries, cutoff) <= i < |entries| ==> entries[i].facts.at >= cutoff
    ensures PruneEnd(entries, cutoff) > 0 ==> entries[PruneEnd(entries, cutoff) - 1].facts.at < cutoff
  {
    if entries != [] {
      var front := entries[..|entries| - 1];
      CountBelowEnd(front, cutoff);
      if entries[|entries| - 1].facts.at < cutoff {
        assert entries[..|entries|] == entries;
      } else {
        assert entries[..PruneEnd(entries, cutoff)] == front[..PruneEnd(front, cutoff)];
      }
    }
  }

  /** The count a prune answers is the number of entries it deletes exactly when no entry before
      the last expired one is still current; otherwise it also deletes current entries. */
  lemma {:induction false} PruneCountIsExact(entries: seq<Entry>, cutoff: int)
    ensures ExpiredCount(entries, cutoff) == PruneEnd(entries, cutoff) <==> ExpiredPrefix(entries, cutoff)
    ensures !ExpiredPrefix(entries, cutoff) <==>
              exists i :: 0 <= i < PruneEnd(entries, cutoff) && entries[i].facts.at >= cutoff
  {
    CountBelowEnd(entries, cutoff);
    var k := PruneEnd(entries, cutoff);
    CountBelowEnd(entries[..k], cutoff);
    assert forall i :: 0 <= i < k ==> entries[..k][i] == entries[i];
    if i :| 0 <= i < k && entries[i].facts.at >= cutoff {
      assert entries[k - 1].facts.at < cutoff;
    }
  }

  /** Entries in order of time always expire as a prefix. */
  lemma {:induction false} OrderedTimesPruneExactly(entries: seq<Entry>, cutoff: int)
    requires forall i, j :: 0 <= i < j < |entries| ==> entries[i].facts.at <= entries[j].facts.at
    ensures ExpiredCount(entries, cutoff) == PruneEnd(entries, cutoff)
  {
    PruneCountIsExact(entries, cutoff);
  }

  /** The failing case: a clock that went back. The current first entry goes with the second. */
  lemma {:induction false} BackwardClockPrunesTooMuch()
    ensures var l := Append(Append(Fresh, Facts(10, "new")), Facts(0, "old"));
            Prune(l, 5).entries == [] && ExpiredCount(l.entries, 5) == 1
  {
    var l := Append(Append(Fresh, Facts(10, "new")), Facts(0, "old"));
    assert |l.entries| == 2 && l.entries[0].facts.at == 10 && l.entries[1].facts.at == 0;
    assert ExpiredCount(l.entries[..1], 5) == 0 by {
      assert l.entries[..1][..0] == [];
    }
  }

  // ------------------------------------------------------------------ a bound head

  /** The chain's length and final hash, kept beside the entries. */
  datatype HeadLedger = HeadLedger(entries: seq<Entry>, head: Anchor)

  const FreshHead := HeadLedger([], Anchor(0, Zero))

  function AppendHead(l: HeadLedger, f: Facts): HeadLedger
  {
    var e := Entry(l.head.sequence + 1, f, l.head.hash, Signed(l.head.sequence + 1, f, l.head.hash));
    HeadLedger(l.entries + [e], Anchor(e.sequence, e.hash))
  }

  ghost predicate HeadVerifies(entries: seq<Entry>, head: Anchor)
  {
    Chained(entries, Anchor(0, Zero)) && head == Before(entries, Anchor(0, Zero), |entries|)
  }

  class HeadBoundLedger {
    var entries: seq<Entry>
    var head: Anchor

    constructor ()
      ensures HeadLedger(entries, head) == FreshHead
    {
      entries, head := [], Anchor(0, Zero);
    }

    method AppendFacts(f: Facts)
      modifies this
      ensures HeadLedger(entries, head) == AppendHead(HeadLedger(old(entries), old(head)), f)
      ensures |entries| == |old(entries)| + 1 && entries[..|old(entries)|] == old(entries) && entries[|old(entries)|].facts == f
      ensures head == Anchor(old(head).sequence + 1, Signed(old(head).sequence + 1, f, old(head).hash))
    {
      var entry := Entry(head.sequence + 1, f, head.hash, Zero);
      var signed := entry.(hash := Sign(entry));
      entries := entries + [signed];
      head := Anchor(signed.sequence, signed.hash);
    }

    /** Also compares the stored head, so that lost tail entries show. */
    method Verify() returns (v: Verification)
      ensures v.Verified? <==> HeadVerifies(entries, head)
      ensures v.Verified? ==> v.count == |entries| && v.final == head.hash
    {
      var origin := Anchor(0, Zero);
      var previous, i := Zero, 0;
      while i < |entries|
        invariant 0 <= i <= |entries|
        invariant previous == Before(entries, origin, i).hash
        invariant Chained(entries[..i], origin)
      {
        var e := entries[i];
        if e.sequence != i + 1 || e.previous != previous || e.hash != Sign(e) {
          TamperedIsNotChained(entries, origin, i);
          return Tampered(i + 1);
        }
        ChainedSnoc(entries, origin, i);
        previous := e.hash;
        i := i + 1;
      }
      assert entries[..i] == entries;
      if head != Anchor(|entries|, previous) {
        return Tampered(|entries| + 1);
      }
      return Verified(|entries|, previous);
    }
  }

  lemma {:induction false} AppendHeadVerifies(l: HeadLedger, f: Facts)
    requires HeadVerifies(l.entries, l.head)
    ensures HeadVerifies(AppendHead(l, f).entries, AppendHead(l, f).head)
  {
    var origin, more := Anchor(0, Zero), AppendHead(l, f).entries;
    var n := |l.entries|;
    assert more[..n] == l.entries;
    assert Before(more, origin, n) == Before(l.entries, origin, n);
    ChainedSnoc(more, origin, n);
    assert more[..n + 1] == more;
  }

  function AppendAllHead(facts: seq<Facts>): HeadLedger
  {
    if facts == [] then FreshHead else AppendHead(AppendAllHead(facts[..|facts| - 1]), facts[|facts| - 1])
  }

  /** After every run the bound chain verifies, with one entry for each fact appended, in order,
      and no other list of entries verifies against its head. */
  lemma {:induction false} HeadCarriesFacts(facts: seq<Facts>, other: seq<Entry>)
    ensures var l := AppendAllHead(facts);
            && HeadVerifies(l.entries, l.head) && Carry(l.entries, facts)
            && (HeadVerifies(other, l.head) ==> other == l.entries)
  {
    HeadRun(facts);
    hide AppendAllHead, HeadVerifies;
    if HeadVerifies(other, AppendAllHead(facts).head) {
      HeadDeterminesEntries(other, AppendAllHead(facts).entries, AppendAllHead(facts).head);
    }
  }

  lemma {:induction false} HeadRun(facts: seq<Facts>)
    ensures HeadVerifies(AppendAllHead(facts).entries, AppendAllHead(facts).head) && Carry(AppendAllHead(facts).entries, facts)
  {
    if facts != [] {
      var front := facts[..|facts| - 1];
      HeadRun(front);
      hide HeadVerifies;
      AppendHeadVerifies(AppendAllHead(front), facts[|facts| - 1]);
    } else {
      FreshVerifies();
    }
  }

  lemma {:induction false} FreshVerifies()
    ensures HeadVerifies(FreshHead.entries, FreshHead.head)
  {
  }

  lemma {:induction false} SameLastEntry(a: seq<Entry>, b: seq<Entry>, n: nat)
    requires |a| == |b| == n + 1 && Chained(a, Anchor(0, Zero)) && Chained(b, Anchor(0, Zero)) && a[n].hash == b[n].hash
    ensures a[n] == b[n] && Before(a, Anchor(0, Zero), n) == Before(b, Anchor(0, Zero), n)
  {
    assert Links(a[n], Before(a, Anchor(0, Zero), n)) && Links(b[n], Before(b, Anchor(0, Zero), n));
  }

  /** Two entry lists that verify against the same head are equal. */
  lemma {:induction false} HeadDeterminesEntries(a: seq<Entry>, b: seq<Entry>, head: Anchor)
    requires HeadVerifies(a, head) && HeadVerifies(b, head)
    ensures a == b
    decreases |a|
  {
    hide Chained, Links;
    if |a| > 0 {
      var n := |a| - 1;
      SameLastEntry(a, b, n);
      PrefixVerifies(a, n);
      PrefixVerifies(b, n);
      HeadDeterminesEntries(a[..n], b[..n], Before(a, Anchor(0, Zero), n));
      assert a == a[..n] + [a[n]] && b == b[..n] + [b[n]];
    }
  }

  /** Without a head a lost tail goes unnoticed: every prefix of a chain verifies on its own. */
  lemma {:induction false} PrefixVerifies(entries: seq<Entry>, n: nat)
    requires n <= |entries| && Chained(entries, Anchor(0, Zero))
    ensures HeadVerifies(entries[..n], Before(entries, Anchor(0, Zero), n))
  {
    var origin := Anchor(0, Zero);
    forall i | 0 <= i < n
      ensures Links(entries[..n][i], Before(entries[..n], origin, i))
    {
      assert Links(entries[i], Before(entries, origin, i));
      assert Before(entries[..n], origin, i) == Before(entries, origin, i);
    }
  }
}
