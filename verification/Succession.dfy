/** Sets in a row, each put in the place of the one before: what is left of them all when a set that
    is marked cannot be taken back any more. */
module Succession {

  /** The newest set with x is the last one, or is marked. */
  ghost predicate Stays<T>(ts: seq<(set<T>, bool)>, x: T) {
    exists k :: StaysFrom(ts, k, x)
  }

  ghost predicate StaysFrom<T>(ts: seq<(set<T>, bool)>, k: int, x: T) {
    && 0 <= k < |ts| && x in ts[k].0
    && (forall j :: k < j < |ts| ==> x !in ts[j].0)
    && (k == |ts| - 1 || ts[k].1)
  }

  /** The last set, marked. */
  function Marked<T>(ts: seq<(set<T>, bool)>): (us: seq<(set<T>, bool)>)
    requires ts != []
    ensures |us| == |ts| && us[|ts| - 1].1 && forall j :: 0 <= j < |ts| ==> us[j].0 == ts[j].0
    ensures forall j :: 0 <= j < |ts| - 1 ==> us[j].1 == ts[j].1
  {
    ts[..|ts| - 1] + [(ts[|ts| - 1].0, true)]
  }

  /** Marking a set that is still there takes nothing away. */
  lemma MarkedStays<T>(ts: seq<(set<T>, bool)>, x: T)
    requires ts != []
    ensures Stays(Marked(ts), x) <==> Stays(ts, x)
  {
    var us := Marked(ts);
    if k :| StaysFrom(us, k, x) {
      assert StaysFrom(ts, k, x);
    }
    if k :| StaysFrom(ts, k, x) {
      assert StaysFrom(us, k, x);
    }
  }

  /** A new set takes the place of the last one, unless that is marked. */
  lemma ReplacedStays<T>(ts: seq<(set<T>, bool)>, t: set<T>, x: T)
    requires ts != []
    ensures Stays(ts + [(t, false)], x)
       <==> x in t || (Stays(ts, x) && (ts[|ts| - 1].1 || x !in ts[|ts| - 1].0))
  {
    var us := ts + [(t, false)];
    if x in t {
      assert StaysFrom(us, |ts|, x);
    } else {
      assert forall j :: 0 <= j < |ts| ==> us[j] == ts[j];
      if k :| StaysFrom(us, k, x) {
        assert StaysFrom(ts, k, x);
      }
      if k :| StaysFrom(ts, k, x) {
        if ts[|ts| - 1].1 || x !in ts[|ts| - 1].0 {
          assert StaysFrom(us, k, x);
        }
      }
    }
  }
}
