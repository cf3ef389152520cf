/** Small facts about sequences and sets. */
module Collections {
  function Last<T>(s: seq<T>): T
    requires s != []
  {
    s[|s| - 1]
  }

  function Init<T>(s: seq<T>): seq<T>
    requires s != []
  {
    s[..|s| - 1]
  }

  lemma {:induction false} SubsetIsSmaller<T>(a: set<T>, b: set<T>)
    requires a <= b
    ensures |a| <= |b|
  {
    if x :| x in a {
      SubsetIsSmaller(a - {x}, b - {x});
    }
  }

  lemma AtMostThree<T>(a: T, b: T, c: T)
    ensures |{a, b, c}| <= 3
  {
    assert {a, b, c} == {a} + {b} + {c};
  }

  lemma AtMostFour<T>(a: T, b: T, c: T, d: T)
    ensures |{a, b, c, d}| <= 4
  {
    AtMostThree(a, b, c);
    assert {a, b, c, d} == {a, b, c} + {d};
  }

  /** Equal concatenations whose heads are as long have equal heads and equal tails. */
  lemma SameHeads<T>(a: seq<T>, b: seq<T>, c: seq<T>, d: seq<T>)
    requires a + b == c + d && |a| == |c|
    ensures a == c && b == d
  {
    assert a == (a + b)[..|a|] && c == (c + d)[..|c|];
    assert b == (a + b)[|a|..] && d == (c + d)[|c|..];
  }
}
