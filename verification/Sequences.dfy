/** Small facts about sequences. */
module Sequences {

  lemma TakeAll<T>(s: seq<T>)
    ensures s[..|s|] == s
  {
  }

  /** How often x occurs. */
  ghost function Count<T>(s: seq<T>, x: T): nat {
    if s == [] then 0 else (if s[0] == x then 1 else 0) + Count(s[1..], x)
  }

  lemma {:induction false} CountAppend<T>(a: seq<T>, b: seq<T>, x: T)
    ensures Count(a + b, x) == Count(a, x) + Count(b, x)
  {
    if a == [] {
      assert a + b == b;
    } else {
      CountAppend(a[1..], b, x);
      assert (a + b)[1..] == a[1..] + b;
    }
  }

  lemma {:induction false} CountBound<T>(s: seq<T>, x: T)
    ensures Count(s, x) <= |s|
    ensures x in s <==> Count(s, x) > 0
  {
    if s != [] {
      CountBound(s[1..], x);
      assert s == [s[0]] + s[1..];
    }
  }

  ghost predicate Some<T>(s: seq<T>, p: T -> bool) {
    exists k :: 0 <= k < |s| && p(s[k])
  }

  lemma SomeNext<T>(s: seq<T>, p: T -> bool)
    requires s != []
    ensures Some(s, p) <==> Some(s[..|s| - 1], p) || p(s[|s| - 1])
  {
    var front := s[..|s| - 1];
    if Some(front, p) {
      var k :| 0 <= k < |front| && p(front[k]);
      assert p(s[k]);
    }
    if Some(s, p) {
      var k :| 0 <= k < |s| && p(s[k]);
      if k < |front| {
        assert p(front[k]);
      }
    }
  }
}
