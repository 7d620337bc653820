/** Walking along a sequence of distinct elements, one successor at a time. */
module Walks {

  /** The first element, or `end` if there is none. */
  function First<T>(s: seq<T>, end: T): T {
    if s == [] then end else s[0]
  }

  ghost predicate Once<T>(s: seq<T>) {
    forall i, j :: 0 <= i < j < |s| ==> s[i] != s[j]
  }

  /** y is what comes after an occurrence of x in s, or `end` behind the last element. */
  ghost predicate IsNext<T>(s: seq<T>, x: T, y: T, end: T) {
    exists i :: 0 <= i < |s| && s[i] == x && y == First(s[i + 1..], end)
  }

  /** A walk that has visited the elements in front of x, which is next. */
  ghost predicate Walking<T>(all: seq<T>, visited: seq<T>, x: T, end: T) {
    |visited| <= |all| && visited == all[..|visited|] && x == First(all[|visited|..], end)
  }

  lemma WalkStart<T>(all: seq<T>, end: T)
    ensures Walking(all, [], First(all, end), end)
  {
    assert all[0..] == all;
  }

  /** One more step of a walk along a sequence without repetitions. */
  lemma WalkOn<T>(all: seq<T>, visited: seq<T>, x: T, y: T, end: T)
    requires Once(all) && Walking(all, visited, x, end) && x != end && IsNext(all, x, y, end)
    ensures Walking(all, visited + [x], y, end)
  {
    var k := |visited|;
    assert all[k] == x;
    var i :| 0 <= i < |all| && all[i] == x && y == First(all[i + 1..], end);
    assert i == k;
  }

  lemma WalkOver<T>(all: seq<T>, visited: seq<T>, x: T, end: T)
    requires Walking(all, visited, x, end)
    ensures x != end ==> x in all && |visited| < |all|
    ensures x == end && end !in all ==> visited == all
  {
    if |visited| < |all| {
      assert all[|visited|..][0] == all[|visited|];
    }
  }

  lemma NextAmid<T>(a: seq<T>, x: T, b: seq<T>, end: T)
    ensures IsNext(a + [x] + b, x, First(b, end), end)
  {
    var w := a + [x] + b;
    assert w[|a|] == x && w[|a| + 1..] == b;
  }
}
