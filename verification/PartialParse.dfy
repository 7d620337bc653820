/** What parsing leaves behind where the input is malformed. */
module PartialParse {

  import opened Wire
  import opened Codec
  import opened CodecLaws

  /** The message once no further field can be read, and the input that is left then. */
  function Stuck(d: Desc, m: Msg, s: seq<byte>): (r: (Msg, seq<byte>))
    requires |m.vals| == |d.fields|
    ensures |r.0.vals| == |d.fields| && |r.1| <= |s|
    decreases |s|
  {
    if s == [] then (m, [])
    else match ParseField(d, m, s)
         case None => (m, s)
         case Some((m', n)) => Stuck(d, m', s[n..])
  }

  /** Parsing succeeds exactly when no input is left. */
  lemma {:induction false} ParseIffNothingLeft(d: Desc, m: Msg, s: seq<byte>)
    requires |m.vals| == |d.fields|
    ensures Parse(d, m, s) == if Stuck(d, m, s).1 == [] then Some(Stuck(d, m, s).0) else None
    decreases |s|
  {
    hide ParseField;
    if s != [] && ParseField(d, m, s).Some? {
      var (m', n) := ParseField(d, m, s).value;
      ParseIffNothingLeft(d, m', s[n..]);
    }
  }

  /** r is m except in field i; field |m.vals| stands for the unknown fields. */
  ghost predicate AllBut(m: Msg, r: Msg, i: nat) {
    && |r.vals| == |m.vals|
    && (forall j :: 0 <= j < |m.vals| && j != i ==> r.vals[j] == m.vals[j])
    && (i != |m.vals| ==> r.unknown == m.unknown)
  }

  /** r is a message that parsing s into m can leave: the fields in front of the malformed one are
      stored, and of the other fields only the malformed one differs. */
  ghost predicate Leaves(d: Desc, m: Msg, s: seq<byte>, r: Msg)
    requires |m.vals| == |d.fields|
    decreases |s|, 3
  {
    var (m', rest) := Stuck(d, m, s);
    if rest == [] then r == m' else LeavesField(d, m', rest, r)
  }

  /** A tag cut off by the end of its message may select any field. */
  ghost predicate LeavesField(d: Desc, m: Msg, s: seq<byte>, r: Msg)
    requires |m.vals| == |d.fields|
    decreases |s|, 2
  {
    match ReadTag(s)
    case None => exists i :: 0 <= i <= |m.vals| && AllBut(m, r, i)
    case Some((tag, n)) =>
      match Case(d, tag)
      case None => AllBut(m, r, |m.vals|)
      case Some(i) => AllBut(m, r, i) && LeavesValue(d.fields[i].kind, m.vals[i], s[n..], r.vals[i])
  }

  /** The value of the malformed field: a sub-message holds what parsing leaves in it, and a list
      has grown by such a message. */
  ghost predicate LeavesValue(k: Kind, was: Value, s: seq<byte>, now: Value)
    decreases |s|, 1
  {
    && Fits(k, now)
    && match k
       case One(d) => now.m.Some? && LeavesBytes(d, Mutable(d, was), s, now.m.value)
       case Many(d) =>
         && was.Subs? && |now.ms| == |was.ms| + 1 && now.ms[..|was.ms|] == was.ms
         && LeavesBytes(d, Empty(d), s, now.ms[|was.ms|])
       case _ => true
  }

  /** A sub-message that is all there. */
  ghost predicate LeavesBytes(d: Desc, m: Msg, s: seq<byte>, r: Msg)
    requires |m.vals| == |d.fields|
    decreases |s|, 0
  {
    match ReadBytes(s)
    case None => true
    case Some((b, _)) => Leaves(d, m, b, r)
  }
}
