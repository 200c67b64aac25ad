/** Texts joined by a separator: when two different pairs give the same text. */
module Separators {
  /** `c` goes on where `a` ends, past a separator, and `b` makes up for it. */
  predicate Interlock(a: string, b: string, c: string, d: string, s: char)
  {
    |a| < |c| && c[..|a|] == a && c[|a|] == s && b == c[|a| + 1..] + [s] + d
  }

  lemma {:induction false} LongerFirst(a: string, b: string, c: string, d: string, s: char)
    requires a + [s] + b == c + [s] + d && |a| < |c|
    ensures Interlock(a, b, c, d, s)
  {
    var t, u := a + [s] + b, c + [s] + d;
    assert u[..|c|] == c && t[..|a|] == a && t[|a|] == s && t[|a| + 1..] == b;
    assert c[..|a|] == u[..|a|];
    assert u[|a| + 1..] == c[|a| + 1..] + [s] + d;
  }

  lemma {:induction false} InterlockJoins(a: string, b: string, c: string, d: string, s: char)
    requires Interlock(a, b, c, d, s)
    ensures a + [s] + b == c + [s] + d
  {
    var rest := c[|a| + 1..];
    assert c == a + [s] + rest;
    assert a + [s] + (rest + [s] + d) == a + [s] + rest + [s] + d;
  }

  /** Two pairs give one text exactly when they are equal or interlock at a separator inside the
      longer first part. */
  lemma {:induction false} SameJoin(a: string, b: string, c: string, d: string, s: char)
    ensures a + [s] + b == c + [s] + d <==>
            (a == c && b == d) || Interlock(a, b, c, d, s) || Interlock(c, d, a, b, s)
  {
    if a + [s] + b == c + [s] + d {
      var t, u := a + [s] + b, c + [s] + d;
      if |a| < |c| {
        LongerFirst(a, b, c, d, s);
      } else if |c| < |a| {
        LongerFirst(c, d, a, b, s);
      } else {
        assert t[..|a|] == a && u[..|c|] == c;
        assert t[|a| + 1..] == b && u[|c| + 1..] == d;
      }
    }
    if Interlock(a, b, c, d, s) {
      InterlockJoins(a, b, c, d, s);
    }
    if Interlock(c, d, a, b, s) {
      InterlockJoins(c, d, a, b, s);
    }
  }

  /** First parts without the separator never interlock. */
  lemma {:induction false} PlainFirst(a: string, b: string, c: string, d: string, s: char)
    requires s !in a && s !in c
    ensures !Interlock(a, b, c, d, s) && !Interlock(c, d, a, b, s)
  {
  }

  /** Nor do first parts of one length. */
  lemma {:induction false} EvenFirst(a: string, b: string, c: string, d: string, s: char)
    requires |a| == |c|
    ensures !Interlock(a, b, c, d, s) && !Interlock(c, d, a, b, s)
  {
  }
}
