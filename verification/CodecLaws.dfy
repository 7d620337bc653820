/** What the message code is for: reading back what was written, merging by concatenation, and
    sizes that agree with the bytes. */
module CodecLaws {

  import opened Wire
  import opened Codec

  // Parsing keeps messages typed.

  lemma KeptMore(d: Desc, u: seq<byte>, r: Rec)
    requires Kept(d, u) && Foreign(d, r)
    ensures Kept(d, u + RecBytes(r))
  {
    var rs: seq<Rec> :| Flat(rs) == u && forall q :: q in rs ==> Foreign(d, q);
    FlatMore(rs, r);
  }

  lemma {:induction false} MutableTyped(d: Desc, v: Value)
    requires Fits(One(d), v)
    ensures Typed(d, Mutable(d, v))
  {
    EmptyTyped(d);
  }

  lemma {:induction false} ParseTyped(d: Desc, m: Msg, s: seq<byte>)
    requires Typed(d, m)
    ensures Parse(d, m, s).Some? ==> Typed(d, Parse(d, m, s).value)
    decreases |s|, 2
  {
    if s != [] {
      FieldTyped(d, m, s);
      var r := ParseField(d, m, s);
      if r.Some? {
        ParseTyped(d, r.value.0, s[r.value.1..]);
      }
    }
  }

  lemma {:induction false} FieldTyped(d: Desc, m: Msg, s: seq<byte>)
    requires Typed(d, m)
    ensures ParseField(d, m, s).Some? ==> Typed(d, ParseField(d, m, s).value.0)
    decreases |s|, 1
  {
    var t := ReadTag(s);
    if t.Some? {
      var (tag, n) := t.value;
      var c := Case(d, tag);
      if c.Some? {
        ValueTyped(d.fields[c.value].kind, m.vals[c.value], s[n..]);
      } else if tag / 8 > 0 {
        var p := ReadPayload(tag % 8, s[n..]);
        if p.Some? {
          KeptMore(d, m.unknown, Rec(tag / 8, p.value.0));
        }
      }
    }
  }

  lemma {:induction false} ValueTyped(k: Kind, v: Value, s: seq<byte>)
    requires Fits(k, v)
    ensures ParseValue(k, v, s).Some? ==> Fits(k, ParseValue(k, v, s).value.0)
    decreases |s|, 3
  {
    var b := ReadBytes(s);
    if k.One? && b.Some? {
      MutableTyped(k.desc, v);
      ParseTyped(k.desc, Mutable(k.desc, v), b.value.0);
    } else if k.Many? && b.Some? {
      EmptyTyped(k.desc);
      ParseTyped(k.desc, Empty(k.desc), b.value.0);
    }
  }

  // A field read from the front of some bytes is read the same with more bytes behind.

  lemma {:induction false} VarintLocal(s: seq<byte>, t: seq<byte>, max: nat)
    requires ReadVarint(s, max).Some?
    ensures ReadVarint(s + t, max) == ReadVarint(s, max)
    decreases |s|
  {
    assert (s + t)[0] == s[0];
    if s[0] >= 128 {
      assert (s + t)[1..] == s[1..] + t;
      VarintLocal(s[1..], t, max - 1);
    }
  }

  lemma BytesLocal(s: seq<byte>, t: seq<byte>)
    requires ReadBytes(s).Some?
    ensures ReadBytes(s + t) == ReadBytes(s)
  {
    VarintLocal(s, t, 5);
    var (size, n) := ReadVarint(s, 5).value;
    assert (s + t)[n..n + size] == s[n..n + size];
  }

  lemma {:induction false} FieldLocal(d: Desc, m: Msg, s: seq<byte>, t: seq<byte>)
    requires |m.vals| == |d.fields|
    requires ParseField(d, m, s).Some?
    ensures ParseField(d, m, s + t) == ParseField(d, m, s)
  {
    hide FieldBody;
    VarintLocal(s, t, 5);
    var (tag, n) := ReadTag(s).value;
    assert (s + t)[n..] == s[n..] + t;
    BodyLocal(d, m, tag, s[n..], t);
  }

  lemma {:induction false} BodyLocal(d: Desc, m: Msg, tag: nat, s: seq<byte>, t: seq<byte>)
    requires |m.vals| == |d.fields|
    requires FieldBody(d, m, tag, s).Some?
    ensures FieldBody(d, m, tag, s + t) == FieldBody(d, m, tag, s)
  {
    var c := Case(d, tag);
    if c.Some? {
      ValueLocal(d.fields[c.value].kind, m.vals[c.value], s, t);
    } else {
      PayloadLocal(tag % 8, s, t);
    }
  }

  lemma {:induction false} ValueLocal(k: Kind, v: Value, s: seq<byte>, t: seq<byte>)
    requires ParseValue(k, v, s).Some?
    ensures ParseValue(k, v, s + t) == ParseValue(k, v, s)
  {
    if k.Bytes? || k.One? || k.Many? {
      BytesLocal(s, t);
    } else {
      VarintLocal(s, t, 10);
    }
  }

  lemma PayloadLocal(wire: nat, s: seq<byte>, t: seq<byte>)
    requires ReadPayload(wire, s).Some?
    ensures ReadPayload(wire, s + t) == ReadPayload(wire, s)
  {
    if wire == 0 {
      VarintLocal(s, t, 10);
    } else if wire == 2 {
      BytesLocal(s, t);
    } else if wire == 1 {
      assert (s + t)[..8] == s[..8];
    } else {
      assert (s + t)[..4] == s[..4];
    }
  }

  /** Reading two byte strings in a row is reading the first and going on with the second. */
  lemma {:induction false} ParseConcat(d: Desc, m: Msg, s: seq<byte>, t: seq<byte>)
    requires |m.vals| == |d.fields|
    requires Parse(d, m, s).Some?
    ensures Parse(d, m, s + t) == Parse(d, Parse(d, m, s).value, t)
    decreases |s|
  {
    if s == [] {
      assert s + t == t;
    } else {
      FieldLocal(d, m, s, t);
      var (m', n) := ParseField(d, m, s).value;
      assert (s + t)[n..] == s[n..] + t;
      ParseConcat(d, m', s[n..], t);
    }
  }

  // Reading back what was written.

  lemma {:induction false} TagRoundTrip(tag: nat, rest: seq<byte>)
    requires tag < TWO32
    ensures ReadTag(Varint(tag) + rest) == Some((tag, |Varint(tag)|))
    ensures (Varint(tag) + rest)[|Varint(tag)|..] == rest
  {
    VarintLengths(tag);
    VarintRoundTrip(tag, rest, 5);
  }

  lemma {:induction false} VarintBack(v: nat, max: nat)
    requires |Varint(v)| <= max
    ensures ReadVarint(Varint(v), max) == Some((v, |Varint(v)|))
  {
    assert Varint(v) + [] == Varint(v);
    VarintRoundTrip(v, [], max);
  }

  lemma {:induction false} ReadVarint64Back(v: nat)
    requires v < TWO64
    ensures ReadVarint64(Varint(v)) == Some((v, |Varint(v)|))
  {
    VarintLengths(v);
    VarintBack(v, 10);
  }

  lemma ReadBytesBack(b: seq<byte>)
    requires |b| <= MAX_SIZE
    ensures ReadBytes(WriteBytes(b)) == Some((b, |WriteBytes(b)|))
  {
    BytesRoundTrip(b, []);
    assert WriteBytes(b) + [] == WriteBytes(b);
  }

  lemma {:induction false} OneTurn(d: Desc, m: Msg, tag: nat, body: seq<byte>, m': Msg)
    requires |m.vals| == |m'.vals| == |d.fields| && tag < TWO32
    requires FieldBody(d, m, tag, body) == Some((m', |body|))
    ensures Parse(d, m, Varint(tag) + body) == Some(m')
  {
    hide FieldBody, ReadTag;
    var s := Varint(tag) + body;
    TagRoundTrip(tag, body);
    assert s[|s|..] == [];
  }

  /** A written known field is one turn of the loop. */
  lemma {:induction false} KnownField(d: Desc, m: Msg, i: nat, body: seq<byte>, v: Value)
    requires Good(d) && |m.vals| == |d.fields| && i < |d.fields|
    requires ParseValue(d.fields[i].kind, m.vals[i], body) == Some((v, |body|))
    ensures Parse(d, m, Varint(Tag(d.fields[i])) + body) == Some(Put(m, i, v))
  {
    CaseOf(d, i);
    OneTurn(d, m, Tag(d.fields[i]), body, Put(m, i, v));
  }

  lemma Regroup<T>(a: seq<T>, b: seq<T>, c: seq<T>)
    ensures a + b + c == a + (b + c)
  {
  }

  lemma Rejoin<T>(a: seq<T>, b: seq<T>)
    requires b != []
    ensures a + b[..|b| - 1] + [b[|b| - 1]] == a + b
  {
  }

  lemma {:induction false} UnknownField(d: Desc, m: Msg, r: Rec)
    requires |m.vals| == |d.fields| && Foreign(d, r)
    requires |RecBytes(r)| <= MAX_SIZE
    ensures Parse(d, m, RecBytes(r)) == Some(m.(unknown := m.unknown + RecBytes(r)))
  {
    var tag, body := RecTag(r), PayloadBytes(r.payload);
    assert tag % 8 == PayloadType(r.payload) && tag / 8 == r.num;
    assert ReadPayload(tag % 8, body) == Some((r.payload, |body|)) by {
      match r.payload
      case VarintP(v) => ReadVarint64Back(v);
      case LengthP(b) => ReadBytesBack(b);
      case Fixed64P(f) => assert f[..8] == f;
      case Fixed32P(f) => assert f[..4] == f;
    }
    assert Rec(tag / 8, r.payload) == r;
    OneTurn(d, m, tag, body, m.(unknown := m.unknown + RecBytes(r)));
  }

  lemma {:induction false} UnknownFields(d: Desc, m: Msg, rs: seq<Rec>)
    requires |m.vals| == |d.fields| && forall r :: r in rs ==> Foreign(d, r)
    requires |Flat(rs)| <= MAX_SIZE
    ensures Parse(d, m, Flat(rs)) == Some(m.(unknown := m.unknown + Flat(rs)))
    decreases |rs|
  {
    if rs == [] {
      assert m.unknown + [] == m.unknown;
    } else {
      var front, r := rs[..|rs| - 1], rs[|rs| - 1];
      var u, b := Flat(front), RecBytes(r);
      UnknownFields(d, m, front);
      UnknownField(d, m.(unknown := m.unknown + u), r);
      ParseConcat(d, m, u, b);
      Regroup(m.unknown, u, b);
    }
  }

  lemma {:induction false} KeptFields(d: Desc, m: Msg, u: seq<byte>)
    requires |m.vals| == |d.fields| && Kept(d, u) && |u| <= MAX_SIZE
    ensures Parse(d, m, u) == Some(m.(unknown := m.unknown + u))
  {
    var rs: seq<Rec> :| Flat(rs) == u && forall r :: r in rs ==> Foreign(d, r);
    UnknownFields(d, m, rs);
  }

  // Merging.

  lemma {:induction false} FlatMore(rs: seq<Rec>, r: Rec)
    ensures Flat(rs + [r]) == Flat(rs) + RecBytes(r)
  {
    assert (rs + [r])[..|rs|] == rs;
  }

  lemma {:induction false} FlatConcat(rs: seq<Rec>, qs: seq<Rec>)
    ensures Flat(rs + qs) == Flat(rs) + Flat(qs)
    decreases |qs|
  {
    if qs == [] {
      assert rs + qs == rs;
    } else {
      var front, r := qs[..|qs| - 1], qs[|qs| - 1];
      FlatConcat(rs, front);
      Rejoin(rs, qs);
      FlatMore(rs + front, r);
      Regroup(Flat(rs), Flat(front), RecBytes(r));
    }
  }

  lemma KeptConcat(d: Desc, u: seq<byte>, v: seq<byte>)
    requires Kept(d, u) && Kept(d, v)
    ensures Kept(d, u + v)
  {
    var rs: seq<Rec> :| Flat(rs) == u && forall r :: r in rs ==> Foreign(d, r);
    var qs: seq<Rec> :| Flat(qs) == v && forall r :: r in qs ==> Foreign(d, r);
    FlatConcat(rs, qs);
    assert Flat(rs + qs) == u + v;
  }

  lemma {:induction false} MergeTyped(d: Desc, x: Msg, y: Msg)
    requires Typed(d, x) && Typed(d, y)
    ensures Typed(d, Merge(d, x, y))
    decreases d
  {
    KeptConcat(d, x.unknown, y.unknown);
    forall i | 0 <= i < |d.fields| ensures Fits(d.fields[i].kind, Merge(d, x, y).vals[i]) {
      MergeFits(d.fields[i].kind, x.vals[i], y.vals[i]);
    }
  }

  lemma {:induction false} MergeFits(k: Kind, x: Value, y: Value)
    requires Fits(k, x) && Fits(k, y)
    ensures Fits(k, MergeValue(k, x, y))
    decreases k
  {
    if k.One? && y.m.Some? {
      MutableTyped(k.desc, x);
      MergeTyped(k.desc, Mutable(k.desc, x), y.m.value);
    }
  }

  /** CopyFrom, which clears and then merges, makes an equal message. */
  lemma {:induction false} MergeIntoEmpty(d: Desc, y: Msg)
    requires Typed(d, y)
    ensures Typed(d, Empty(d)) && Merge(d, Empty(d), y) == y
    decreases d
  {
    EmptyTyped(d);
    forall i | 0 <= i < |d.fields| ensures Merge(d, Empty(d), y).vals[i] == y.vals[i] {
      var k := d.fields[i].kind;
      if k.One? && y.vals[i].m.Some? {
        MergeIntoEmpty(k.desc, y.vals[i].m.value);
      }
    }
    assert Merge(d, Empty(d), y).vals == y.vals;
    assert [] + y.unknown == y.unknown;
  }

  /** x with the fields before the i-th already merged with those of y. */
  function Part(d: Desc, x: Msg, y: Msg, i: nat): (m: Msg)
    requires Typed(d, x) && Typed(d, y) && i <= |d.fields|
    ensures |m.vals| == |d.fields|
  {
    Msg(seq(|d.fields|, j requires 0 <= j < |d.fields| =>
              if j < i then MergeValue(d.fields[j].kind, x.vals[j], y.vals[j]) else x.vals[j]),
        x.unknown)
  }

  /** Parsing a written message merges it into the message parsed into. */
  lemma {:induction false} ParseMerges(d: Desc, x: Msg, y: Msg)
    requires Good(d) && Typed(d, x) && Typed(d, y)
    requires |Ser(d, y)| <= MAX_SIZE
    ensures Parse(d, x, Ser(d, y)) == Some(Merge(d, x, y))
    decreases d, 3
  {
    var all := Part(d, x, y, |d.fields|);
    assert Part(d, x, y, 0).vals == x.vals;
    ParseFrom(d, x, y, 0);
    KeptFields(d, all, y.unknown);
    ParseConcat(d, x, SerFrom(d, y, 0), y.unknown);
    assert all.vals == Merge(d, x, y).vals;
  }

  lemma {:induction false} ParseFrom(d: Desc, x: Msg, y: Msg, i: nat)
    requires Good(d) && Typed(d, x) && Typed(d, y) && i <= |d.fields|
    requires |SerFrom(d, y, i)| <= MAX_SIZE
    ensures Parse(d, Part(d, x, y, i), SerFrom(d, y, i)) == Some(Part(d, x, y, |d.fields|))
    decreases d, 2, |d.fields| - i
  {
    if i < |d.fields| {
      var m, m' := Part(d, x, y, i), Part(d, x, y, i + 1);
      ParseWritten(d, m, i, y.vals[i]);
      assert m'.vals == m.vals[i := MergeValue(d.fields[i].kind, x.vals[i], y.vals[i])];
      ParseFrom(d, x, y, i + 1);
      ParseConcat(d, m, SerValue(d.fields[i], y.vals[i]), SerFrom(d, y, i + 1));
    }
  }

  /** Parsing one written field, which may be nothing at all. */
  lemma {:induction false} ParseWritten(d: Desc, m: Msg, i: nat, v: Value)
    requires Good(d) && |m.vals| == |d.fields| && i < |d.fields|
    requires Fits(d.fields[i].kind, m.vals[i]) && Fits(d.fields[i].kind, v)
    requires |SerValue(d.fields[i], v)| <= MAX_SIZE
    ensures Parse(d, m, SerValue(d.fields[i], v))
         == Some(Put(m, i, MergeValue(d.fields[i].kind, m.vals[i], v)))
    decreases d, 1
  {
    var f := d.fields[i];
    var w := MergeValue(f.kind, m.vals[i], v);
    if SerValue(f, v) == [] && !v.Subs? {
      assert w == m.vals[i];
      assert m.vals[i := w] == m.vals;
    } else {
      match v
      case Num(n) =>
        ParseNumber(f.kind, m.vals[i], n);
        KnownField(d, m, i, Varint(Pattern(n)), w);
      case Str(b) =>
        ReadBytesBack(b);
        KnownField(d, m, i, WriteBytes(b), w);
      case Sub(s) =>
        var sub := f.kind.desc;
        MutableTyped(sub, m.vals[i]);
        ReadBytesBack(Ser(sub, s.value));
        ParseMerges(sub, Mutable(sub, m.vals[i]), s.value);
        KnownField(d, m, i, WriteBytes(Ser(sub, s.value)), w);
      case Subs(ms) => ParseList(d, m, i, ms);
    }
  }

  lemma {:induction false} ParseNumber(k: Kind, was: Value, n: int)
    requires Fits(k, Num(n))
    ensures ParseValue(k, was, Varint(Pattern(n))) == Some((Num(n), |Varint(Pattern(n))|))
  {
    if k.Int32? {
      SignedRoundTrip(n);
    }
    ReadVarint64Back(Pattern(n));
  }

  lemma PutTwice(m: Msg, i: nat, v: Value, w: Value)
    requires i < |m.vals|
    ensures Put(Put(m, i, v), i, w) == Put(m, i, w)
  {
  }

  lemma {:induction false} ParseList(d: Desc, m: Msg, i: nat, ms: seq<Msg>)
    requires Good(d) && |m.vals| == |d.fields| && i < |d.fields| && d.fields[i].kind.Many?
    requires Fits(d.fields[i].kind, m.vals[i]) && Fits(d.fields[i].kind, Subs(ms))
    requires |SerMany(d.fields[i], ms)| <= MAX_SIZE
    ensures Parse(d, m, SerMany(d.fields[i], ms)) == Some(Put(m, i, Subs(m.vals[i].ms + ms)))
    decreases d, 0, |ms|
  {
    var f, was := d.fields[i], m.vals[i].ms;
    if ms == [] {
      assert was + ms == was;
      assert m.vals[i := Subs(was)] == m.vals;
    } else {
      var front, e := ms[..|ms| - 1], ms[|ms| - 1];
      ParseList(d, m, i, front);
      ParseElement(d, Put(m, i, Subs(was + front)), i, e);
      ParseConcat(d, m, SerMany(f, front), SerSub(f, e));
      Rejoin(was, ms);
      PutTwice(m, i, Subs(was + front), Subs(was + ms));
    }
  }

  lemma {:induction false} ParseElement(d: Desc, m: Msg, i: nat, e: Msg)
    requires Good(d) && |m.vals| == |d.fields| && i < |d.fields| && d.fields[i].kind.Many?
    requires m.vals[i].Subs? && Typed(d.fields[i].kind.desc, e)
    requires |SerSub(d.fields[i], e)| <= MAX_SIZE
    ensures Parse(d, m, SerSub(d.fields[i], e))
         == Some(Put(m, i, Subs(m.vals[i].ms + [e])))
    decreases d, 0, 0
  {
    var sub := d.fields[i].kind.desc;
    EmptyTyped(sub);
    ReadBytesBack(Ser(sub, e));
    ParseMerges(sub, Empty(sub), e);
    MergeIntoEmpty(sub, e);
    KnownField(d, m, i, WriteBytes(Ser(sub, e)), Subs(m.vals[i].ms + [e]));
  }

  // Sizes.

  /** The sizes added up in a given order. */
  function Along(sizes: seq<nat>, order: seq<nat>): nat
    requires Below(order, |sizes|)
  {
    if order == [] then 0 else sizes[order[0]] + Along(sizes, order[1..])
  }

  function Sum(sizes: seq<nat>): nat {
    if sizes == [] then 0 else Sum(sizes[..|sizes| - 1]) + sizes[|sizes| - 1]
  }

  lemma {:induction false} AlongPull(sizes: seq<nat>, a: seq<nat>, i: nat, b: seq<nat>)
    requires i < |sizes| && Below(a, |sizes|) && Below(b, |sizes|)
    ensures Along(sizes, a + [i] + b) == sizes[i] + Along(sizes, a + b)
    decreases |a|
  {
    if a == [] {
      assert a + [i] + b == [i] + b && a + b == b;
    } else {
      AlongPull(sizes, a[1..], i, b);
      assert (a + [i] + b)[1..] == a[1..] + [i] + b;
      assert (a + b)[1..] == a[1..] + b;
    }
  }

  lemma {:induction false} AlongShorter(sizes: seq<nat>, order: seq<nat>)
    requires sizes != [] && Below(order, |sizes| - 1)
    ensures Along(sizes, order) == Along(sizes[..|sizes| - 1], order)
    decreases |order|
  {
    if order != [] {
      AlongShorter(sizes, order[1..]);
    }
  }

  /** Adding up in any order that visits every index once gives the sum. */
  lemma {:induction false} AlongPermutation(sizes: seq<nat>, order: seq<nat>)
    requires Permutes(order, |sizes|)
    ensures Along(sizes, order) == Sum(sizes)
    decreases |sizes|
  {
    if sizes != [] {
      var n := |sizes| - 1;
      assert n in order;
      var k :| 0 <= k < |order| && order[k] == n;
      var a, b := order[..k], order[k + 1..];
      assert order == a + [n] + b;
      Without(order, k);
      AlongPull(sizes, a, n, b);
      AlongShorter(sizes, a + b);
      AlongPermutation(sizes[..n], a + b);
    }
  }

  lemma Without(order: seq<nat>, k: nat)
    requires k < |order| && Permutes(order, |order|) && order[k] == |order| - 1
    ensures Permutes(order[..k] + order[k + 1..], |order| - 1)
  {
    var rest := order[..k] + order[k + 1..];
    forall i | 0 <= i < |order| - 1 ensures i in rest {
      assert i in order;
      var j :| 0 <= j < |order| && order[j] == i;
      assert rest[if j < k then j else j - 1] == i;
    }
  }

  /** The sizes of the fields of a message, in field order. */
  function Sizes(d: Desc, m: Msg): (s: seq<nat>)
    requires Good(d) && Typed(d, m)
    ensures |s| == |d.fields|
  {
    seq(|d.fields|, i requires 0 <= i < |d.fields| => SizeValue(d.fields[i], m.vals[i]))
  }

  lemma {:induction false} SizeAlong(d: Desc, m: Msg, k: nat)
    requires Good(d) && Typed(d, m) && k <= |d.sizeOrder|
    ensures Below(d.sizeOrder[k..], |d.fields|)
    ensures SizeFrom(d, m, k) == Along(Sizes(d, m), d.sizeOrder[k..])
    decreases |d.sizeOrder| - k
  {
    if k < |d.sizeOrder| {
      SizeAlong(d, m, k + 1);
      assert d.sizeOrder[k..][1..] == d.sizeOrder[k + 1..];
    }
  }

  /** ByteSizeLong is the number of bytes _InternalSerialize writes. */
  lemma {:induction false} SizeIsLength(d: Desc, m: Msg)
    requires Good(d) && Typed(d, m)
    ensures Size(d, m) == |Ser(d, m)|
    decreases d, 2
  {
    var sizes := Sizes(d, m);
    forall i | 0 <= i < |d.fields| ensures sizes[i] == |SerValue(d.fields[i], m.vals[i])| {
      ValueSize(d.fields[i], m.vals[i]);
    }
    SizeAlong(d, m, 0);
    assert d.sizeOrder[0..] == d.sizeOrder;
    AlongPermutation(sizes, d.sizeOrder);
    WrittenSum(d, m, 0);
    assert sizes[..|sizes|] == sizes;
  }

  lemma {:induction false} WrittenSum(d: Desc, m: Msg, i: nat)
    requires Good(d) && Typed(d, m) && i <= |d.fields|
    requires forall j :: 0 <= j < |d.fields| ==> Sizes(d, m)[j] == |SerValue(d.fields[j], m.vals[j])|
    ensures Sum(Sizes(d, m)) == Sum(Sizes(d, m)[..i]) + |SerFrom(d, m, i)|
    decreases |d.fields| - i
  {
    hide SizeValue, SerValue, Typed, Good;
    var sizes := Sizes(d, m);
    if i < |d.fields| {
      WrittenSum(d, m, i + 1);
      assert sizes[..i + 1][..i] == sizes[..i];
    } else {
      assert sizes[..i] == sizes;
    }
  }

  lemma {:induction false} ValueSize(f: Field, v: Value)
    requires 0 < f.num < 16 && GoodKind(f.kind) && Fits(f.kind, v)
    ensures SizeValue(f, v) == |SerValue(f, v)|
    decreases f, 1
  {
    VarintLengths(Tag(f));
    match v
    case Num(n) => VarintSizes(Pattern(n));
    case Str(b) => VarintSizes(|b|);
    case Sub(None) =>
    case Sub(Some(m)) => SubSize(f, m);
    case Subs(ms) => ListSize(f, ms);
  }

  lemma {:induction false} SubSize(f: Field, m: Msg)
    requires 0 < f.num < 16 && (f.kind.One? || f.kind.Many?) && Good(f.kind.desc) && Typed(f.kind.desc, m)
    ensures 1 + LengthSize(Size(f.kind.desc, m)) == |SerSub(f, m)|
    decreases f.kind
  {
    VarintLengths(Tag(f));
    SizeIsLength(f.kind.desc, m);
    VarintSizes(Size(f.kind.desc, m));
  }

  lemma {:induction false} ListSize(f: Field, ms: seq<Msg>)
    requires 0 < f.num < 16 && f.kind.Many? && GoodKind(f.kind) && Fits(f.kind, Subs(ms))
    ensures |ms| + SizeMany(f, ms) == |SerMany(f, ms)|
    decreases f, 0, |ms|
  {
    if ms != [] {
      ListSize(f, ms[..|ms| - 1]);
      SubSize(f, ms[|ms| - 1]);
    }
  }

  // The theorems.

  /** Parsing the bytes of a message gives the message back. */
  lemma {:induction false} RoundTrip(d: Desc, m: Msg)
    requires Good(d) && Typed(d, m) && |Ser(d, m)| <= MAX_SIZE
    ensures Parse(d, Empty(d), Ser(d, m)) == Some(m)
  {
    MergeIntoEmpty(d, m);
    ParseMerges(d, Empty(d), m);
  }

  /** Parsing two messages written one after the other gives their merge. */
  lemma {:induction false} ConcatMerges(d: Desc, x: Msg, y: Msg)
    requires Good(d) && Typed(d, x) && Typed(d, y)
    requires |Ser(d, x)| <= MAX_SIZE && |Ser(d, y)| <= MAX_SIZE
    ensures Parse(d, Empty(d), Ser(d, x) + Ser(d, y)) == Some(Merge(d, x, y))
  {
    RoundTrip(d, x);
    ParseConcat(d, Empty(d), Ser(d, x), Ser(d, y));
    ParseMerges(d, x, y);
  }

  /** What the parser accepts is a message that survives being written and read again. */
  lemma {:induction false} ParsedSurvives(d: Desc, s: seq<byte>)
    requires Good(d) && Parse(d, Empty(d), s).Some?
    ensures Typed(d, Parse(d, Empty(d), s).value)
    ensures var m := Parse(d, Empty(d), s).value; |Ser(d, m)| <= MAX_SIZE ==> Parse(d, Empty(d), Ser(d, m)) == Some(m)
  {
    EmptyTyped(d);
    ParseTyped(d, Empty(d), s);
    var m := Parse(d, Empty(d), s).value;
    if |Ser(d, m)| <= MAX_SIZE {
      RoundTrip(d, m);
    }
  }
}
