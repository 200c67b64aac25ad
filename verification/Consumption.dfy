/** One-shot consumption of authorization keys: all keys of a claim at once, or none. */
module Consumption {
  type Key = (string, string)

  function KeysOf(keys: seq<Key>): set<Key> { set k | k in keys }

  predicate DistinctKeys(keys: seq<Key>)
  {
    forall i, j :: 0 <= i < j < |keys| ==> keys[i] != keys[j]
  }

  /** What a claim leaves consumed and whether it succeeded. */
  function Consume(consumed: set<Key>, keys: seq<Key>): (set<Key>, bool)
  {
    if KeysOf(keys) !! consumed then (consumed + KeysOf(keys), true) else (consumed, false)
  }

  /** The same with a unique table: a key twice in one claim also refuses it. */
  function ConsumeUnique(rows: set<Key>, keys: seq<Key>): (set<Key>, bool)
  {
    if KeysOf(keys) !! rows && DistinctKeys(keys) then (rows + KeysOf(keys), true) else (rows, false)
  }

  function RoundNamespace(proposal: string): string { "reset-round:" + proposal }

  function Rounds(consumed: set<Key>, proposal: string): set<Key>
  {
    set k | k in consumed && k.0 == RoundNamespace(proposal)
  }

  /** How often the proposal was reset. */
  function Generation(consumed: set<Key>, proposal: string): nat { |Rounds(consumed, proposal)| }

  class MemoryConsumptionStore {
    var consumed: set<Key>

    constructor ()
      ensures consumed == {}
    {
      consumed := {};
    }

    method CountRounds(proposal: string) returns (n: nat)
      ensures n == Generation(consumed, proposal)
    {
      n := 0;
      var left := consumed;
      while left != {}
        invariant left <= consumed
        invariant n == |Rounds(consumed - left, proposal)|
        decreases left
      {
        var key :| key in left;
        var seen := consumed - left;
        assert consumed - (left - {key}) == seen + {key};
        RoundsGrow(seen, key, proposal);
        if key.0 == RoundNamespace(proposal) {
          n := n + 1;
        }
        left := left - {key};
      }
      assert consumed - left == consumed;
    }

    method Claim(keys: seq<Key>) returns (ok: bool)
      modifies this`consumed
      ensures (consumed, ok) == Consume(old(consumed), keys)
    {
      var i := 0;
      while i < |keys|
        invariant 0 <= i <= |keys|
        invariant forall j :: 0 <= j < i ==> keys[j] !in consumed
      {
        if keys[i] in consumed {
          assert keys[i] in KeysOf(keys);
          return false;
        }
        i := i + 1;
      }
      consumed := consumed + KeysOf(keys);
      return true;
    }
  }

  class EncryptedConsumptionStore {
    var rows: set<Key>

    constructor ()
      ensures rows == {}
    {
      rows := {};
    }

    /** Inserts key by key under one transaction; the first duplicate rolls all of them back. */
    method Claim(keys: seq<Key>) returns (ok: bool)
      modifies this`rows
      ensures (rows, ok) == ConsumeUnique(old(rows), keys)
    {
      var staged := rows;
      var i := 0;
      while i < |keys|
        invariant 0 <= i <= |keys|
        invariant staged == rows + KeysOf(keys[..i])
        invariant KeysOf(keys[..i]) !! rows && DistinctKeys(keys[..i])
      {
        assert keys[..i + 1] == keys[..i] + [keys[i]];
        if keys[i] in staged {
          if keys[i] in rows {
            assert keys[i] in KeysOf(keys);
          } else {
            var j :| 0 <= j < i && keys[..i][j] == keys[i];
            assert keys[j] == keys[i];
          }
          return false;
        }
        staged := staged + {keys[i]};
        i := i + 1;
      }
      assert keys[..i] == keys;
      rows := staged;
      return true;
    }
  }

  lemma {:induction false} RoundsGrow(consumed: set<Key>, key: Key, proposal: string)
    requires key !in consumed
    ensures Generation(consumed + {key}, proposal) ==
            Generation(consumed, proposal) + if key.0 == RoundNamespace(proposal) then 1 else 0
  {
    if key.0 == RoundNamespace(proposal) {
      assert Rounds(consumed + {key}, proposal) == Rounds(consumed, proposal) + {key};
    } else {
      assert Rounds(consumed + {key}, proposal) == Rounds(consumed, proposal);
    }
  }

  /** The two stores agree on a claim exactly when its keys are distinct or one is consumed. */
  lemma {:induction false} StoresAgree(consumed: set<Key>, keys: seq<Key>)
    ensures Consume(consumed, keys) == ConsumeUnique(consumed, keys) <==>
            DistinctKeys(keys) || exists k :: k in keys && k in consumed
  {
    if k :| k in keys && k in consumed {
      assert k in KeysOf(keys);
    }
  }

  /** The case where they differ: one key named twice in a fresh claim. */
  lemma {:induction false} StoresMayDiffer(key: Key)
    ensures Consume({}, [key, key]).1 && !ConsumeUnique({}, [key, key]).1
  {
    var keys := [key, key];
    assert keys[0] == keys[1];
  }

  /** A refused claim leaves every key as it was; an accepted one consumes exactly its keys. */
  lemma {:induction false} ClaimIsAtomic(consumed: set<Key>, keys: seq<Key>)
    ensures var (after, ok) := ConsumeUnique(consumed, keys);
            && (!ok ==> after == consumed)
            && (ok ==> (forall k :: k in keys ==> k !in consumed && k in after) && after - consumed == KeysOf(keys))
  {
    forall k | k in keys
      ensures k in KeysOf(keys)
    {
    }
  }
}
