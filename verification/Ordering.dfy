/** The order Python's `sorted` and `min` use on the planner's keys: a rank, an instant,
    then a text compared code point by code point. A sort of distinct keys is determined by the
    set of elements alone, which is what makes the planner independent of input order. */
module Ordering {

  /** Code-point lexicographic order on text. */
  predicate TextBefore(a: string, b: string)
  {
    && b != []
    && (a == [] || a[0] < b[0] || (a[0] == b[0] && TextBefore(a[1..], b[1..])))
  }

  lemma {:induction false} TextBeforeTransitive(a: string, b: string, c: string)
    requires TextBefore(a, b) && TextBefore(b, c)
    ensures TextBefore(a, c)
  {
    if a != [] && a[0] == b[0] == c[0] {
      TextBeforeTransitive(a[1..], b[1..], c[1..]);
    }
  }

  lemma {:induction false} TextBeforeIrreflexive(a: string)
    ensures !TextBefore(a, a)
  {
    if a != [] {
      TextBeforeIrreflexive(a[1..]);
    }
  }

  lemma {:induction false} TextBeforeTotal(a: string, b: string)
    ensures a == b || TextBefore(a, b) || TextBefore(b, a)
  {
    if a != [] && b != [] && a[0] == b[0] {
      TextBeforeTotal(a[1..], b[1..]);
      assert a == [a[0]] + a[1..] && b == [b[0]] + b[1..];
    }
  }

  datatype Key = Key(rank: int, at: int, name: string)

  predicate Before(a: Key, b: Key)
  {
    || a.rank < b.rank
    || (a.rank == b.rank && (a.at < b.at || (a.at == b.at && TextBefore(a.name, b.name))))
  }

  lemma {:induction false} BeforeTransitive(a: Key, b: Key, c: Key)
    requires Before(a, b) && Before(b, c)
    ensures Before(a, c)
  {
    if a.rank == b.rank == c.rank && a.at == b.at == c.at {
      TextBeforeTransitive(a.name, b.name, c.name);
    }
  }

  lemma {:induction false} BeforeAsymmetric(a: Key, b: Key)
    requires Before(a, b)
    ensures a != b && !Before(b, a)
  {
    TextBeforeIrreflexive(a.name);
    if Before(b, a) {
      BeforeTransitive(a, b, a);
    }
  }

  lemma {:induction false} BeforeTotal(a: Key, b: Key)
    ensures a == b || Before(a, b) || Before(b, a)
  {
    TextBeforeTotal(a.name, b.name);
  }

  /** Strictly ascending keys. */
  ghost predicate Ascending<T(!new)>(key: T -> Key, xs: seq<T>)
  {
    forall i, j :: 0 <= i < j < |xs| ==> Before(key(xs[i]), key(xs[j]))
  }

  ghost predicate DistinctKeys<T(!new)>(key: T -> Key, xs: seq<T>)
  {
    forall i, j :: 0 <= i < j < |xs| ==> key(xs[i]) != key(xs[j])
  }

  ghost predicate InjectiveOn<T(!new)>(key: T -> Key, s: set<T>)
  {
    forall x, y :: x in s && y in s && x != y ==> key(x) != key(y)
  }

  ghost function Elements<T>(xs: seq<T>): set<T>
  {
    set x | x in xs
  }

  function Insert<T>(key: T -> Key, x: T, xs: seq<T>): (r: seq<T>)
    ensures multiset(r) == multiset(xs) + multiset{x}
  {
    if xs == [] || !Before(key(xs[0]), key(x)) then [x] + xs
    else
      assert xs == [xs[0]] + xs[1..];
      [xs[0]] + Insert(key, x, xs[1..])
  }

  /** Python's stable `sorted(xs, key=key)`. */
  function Sort<T>(key: T -> Key, xs: seq<T>): (r: seq<T>)
    ensures multiset(r) == multiset(xs)
  {
    if xs == [] then []
    else
      assert xs == [xs[0]] + xs[1..];
      Insert(key, xs[0], Sort(key, xs[1..]))
  }

  lemma {:induction false} MembersOfMultiset<T>(xs: seq<T>, ys: seq<T>)
    requires multiset(xs) == multiset(ys)
    ensures forall x :: x in xs <==> x in ys
    ensures |xs| == |ys|
  {
    forall x
      ensures x in xs <==> x in ys
    {
      assert x in multiset(xs) <==> x in multiset(ys);
    }
    assert |multiset(xs)| == |xs| && |multiset(ys)| == |ys|;
  }

  lemma {:induction false} InsertAscends<T(!new)>(key: T -> Key, x: T, xs: seq<T>)
    requires Ascending(key, xs)
    requires forall y :: y in xs ==> key(y) != key(x)
    ensures Ascending(key, Insert(key, x, xs))
  {
    if xs == [] {
    } else if !Before(key(xs[0]), key(x)) {
      BeforeTotal(key(xs[0]), key(x));
      assert xs[0] in xs;
      var r := [x] + xs;
      forall j | 1 < j < |r|
        ensures Before(key(x), key(r[j]))
      {
        BeforeTransitive(key(x), key(xs[0]), key(xs[j - 1]));
      }
    } else {
      var tail := Insert(key, x, xs[1..]);
      InsertAscends(key, x, xs[1..]);
      forall j | 0 <= j < |tail|
        ensures Before(key(xs[0]), key(tail[j]))
      {
        assert tail[j] in multiset(tail);
        assert tail[j] == x || tail[j] in xs[1..];
      }
    }
  }

  lemma {:induction false} SortAscends<T(!new)>(key: T -> Key, xs: seq<T>)
    requires DistinctKeys(key, xs)
    ensures Ascending(key, Sort(key, xs))
  {
    if xs != [] {
      SortAscends(key, xs[1..]);
      var sorted := Sort(key, xs[1..]);
      MembersOfMultiset(sorted, xs[1..]);
      forall y | y in sorted
        ensures key(y) != key(xs[0])
      {
        assert y in xs[1..];
      }
      InsertAscends(key, xs[0], sorted);
    }
  }

  lemma {:induction false} AscendingHead<T(!new)>(key: T -> Key, xs: seq<T>, ys: seq<T>)
    requires Ascending(key, xs) && Ascending(key, ys) && Elements(xs) == Elements(ys)
    requires xs != [] && ys != []
    ensures xs[0] == ys[0]
  {
    assert xs[0] in Elements(ys) && ys[0] in Elements(xs);
    var i :| 0 <= i < |ys| && ys[i] == xs[0];
    var j :| 0 <= j < |xs| && xs[j] == ys[0];
    if i != 0 && j != 0 {
      BeforeAsymmetric(key(xs[0]), key(xs[j]));
    }
  }

  lemma {:induction false} AscendingTail<T(!new)>(key: T -> Key, xs: seq<T>)
    requires Ascending(key, xs) && xs != []
    ensures Ascending(key, xs[1..]) && Elements(xs[1..]) == Elements(xs) - {xs[0]}
  {
    assert xs == [xs[0]] + xs[1..];
    forall x
      ensures x in Elements(xs[1..]) <==> x in Elements(xs) - {xs[0]}
    {
      if x in xs[1..] {
        var i :| 0 <= i < |xs[1..]| && xs[1..][i] == x;
        BeforeAsymmetric(key(xs[0]), key(xs[i + 1]));
      }
    }
  }

  /** A strictly ascending sequence is determined by its set of elements. */
  lemma {:induction false} AscendingUnique<T(!new)>(key: T -> Key, xs: seq<T>, ys: seq<T>)
    requires Ascending(key, xs) && Ascending(key, ys) && Elements(xs) == Elements(ys)
    ensures xs == ys
  {
    if xs != [] { assert xs[0] in Elements(ys); }
    if ys != [] { assert ys[0] in Elements(xs); }
    if xs != [] && ys != [] {
      AscendingHead(key, xs, ys);
      AscendingTail(key, xs);
      AscendingTail(key, ys);
      AscendingUnique(key, xs[1..], ys[1..]);
      assert xs == [xs[0]] + xs[1..] && ys == [ys[0]] + ys[1..];
    }
  }

  lemma {:induction false} HasLeast<T(!new)>(key: T -> Key, s: set<T>) returns (m: T)
    requires s != {} && InjectiveOn(key, s)
    ensures m in s && forall x :: x in s && x != m ==> Before(key(m), key(x))
  {
    var p :| p in s;
    m := p;
    var rest := s - {p};
    assert s == rest + {p};
    if rest != {} {
      var n := HasLeast(key, rest);
      BeforeTotal(key(p), key(n));
      if Before(key(n), key(p)) {
        m := n;
      } else {
        forall x | x in rest && x != n
          ensures Before(key(p), key(x))
        {
          BeforeTransitive(key(p), key(n), key(x));
        }
      }
    }
  }

  lemma {:induction false} SomeLeast<T(!new)>(key: T -> Key, s: set<T>)
    requires s != {} && InjectiveOn(key, s)
    ensures exists m :: m in s && forall x :: x in s && x != m ==> Before(key(m), key(x))
  {
    var m := HasLeast(key, s);
  }

  /** The element of `s` with the least key: Python's `min(s, key=key)` on distinct keys. */
  ghost function Least<T(!new)>(key: T -> Key, s: set<T>): (m: T)
    requires s != {} && InjectiveOn(key, s)
    ensures m in s && forall x :: x in s && x != m ==> Before(key(m), key(x))
  {
    SomeLeast(key, s);
    var m :| m in s && forall x :: x in s && x != m ==> Before(key(m), key(x));
    m
  }

  /** The elements of `s` in key order: Python's `sorted(s, key=key)` on distinct keys. */
  ghost function SortedOf<T(!new)>(key: T -> Key, s: set<T>): (r: seq<T>)
    requires InjectiveOn(key, s)
    ensures Ascending(key, r) && Elements(r) == s && |r| == |s|
  {
    if s == {} then []
    else
      var m := Least(key, s);
      var rest := SortedOf(key, s - {m});
      LeastFirst(key, s, m, rest);
      [m] + rest
  }

  lemma {:induction false} LeastFirst<T(!new)>(key: T -> Key, s: set<T>, m: T, rest: seq<T>)
    requires m in s && Ascending(key, rest) && Elements(rest) == s - {m} && |rest| == |s - {m}|
    requires forall x :: x in s && x != m ==> Before(key(m), key(x))
    ensures Ascending(key, [m] + rest) && Elements([m] + rest) == s && |[m] + rest| == |s|
  {
    assert forall j :: 0 <= j < |rest| ==> rest[j] in Elements(rest);
    assert forall x :: x in [m] + rest <==> x == m || x in Elements(rest);
  }

  /** Sorting any listing of a set gives its one ascending listing. */
  lemma {:induction false} SortIsSortedOf<T(!new)>(key: T -> Key, xs: seq<T>, s: set<T>)
    requires DistinctKeys(key, xs) && Elements(xs) == s
    ensures InjectiveOn(key, s) && Sort(key, xs) == SortedOf(key, s)
  {
    forall x, y | x in s && y in s && x != y
      ensures key(x) != key(y)
    {
      assert x in xs && y in xs;
    }
    SortAscends(key, xs);
    MembersOfMultiset(Sort(key, xs), xs);
    AscendingUnique(key, Sort(key, xs), SortedOf(key, s));
  }
}
