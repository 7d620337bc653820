/** The generated code in its own form: fields assigned while the input pointer advances, sizes
    cached in every message, and length prefixes written from the cached sizes. Sub-messages are
    owned by the message that holds them, so they are held as values. */
module Messages {

  import opened Wire
  import opened Codec
  import opened CodecLaws

  datatype Held = NumH(n: int) | StrH(b: seq<byte>) | SubH(m: Option<Live>) | SubsH(ms: seq<Live>)

  /** A message with the size it has cached. */
  datatype Live = Live(vals: seq<Held>, unknown: seq<byte>, cachedSize: int)

  /** The message without its cached sizes. */
  function Plain(l: Live): (m: Msg)
    ensures |m.vals| == |l.vals|
    ensures forall i :: 0 <= i < |l.vals| ==> m.vals[i] == PlainHeld(l.vals[i])
    decreases l
  {
    Msg(seq(|l.vals|, i requires 0 <= i < |l.vals| => PlainHeld(l.vals[i])), l.unknown)
  }

  function PlainHeld(h: Held): Value
    decreases h
  {
    match h
    case NumH(n) => Num(n)
    case StrH(b) => Str(b)
    case SubH(None) => Sub(None)
    case SubH(Some(m)) => Sub(Some(Plain(m)))
    case SubsH(ms) => Subs(PlainAll(ms))
  }

  function PlainAll(ms: seq<Live>): (r: seq<Msg>)
    ensures |r| == |ms|
    ensures forall j :: 0 <= j < |ms| ==> r[j] == Plain(ms[j])
    decreases ms
  {
    seq(|ms|, i requires 0 <= i < |ms| => Plain(ms[i]))
  }

  ghost predicate Sound(d: Desc, l: Live) {
    Good(d) && Typed(d, Plain(l))
  }

  ghost predicate SoundHeld(f: Field, h: Held) {
    0 < f.num < 16 && GoodKind(f.kind) && Fits(f.kind, PlainHeld(h))
  }

  /** Every message in the tree has cached its own size. */
  ghost predicate Cached(d: Desc, l: Live)
    requires Sound(d, l)
    decreases d
  {
    && l.cachedSize == Signed32(Size(d, Plain(l)))
    && forall i :: 0 <= i < |l.vals| ==> CachedHeld(d.fields[i], l.vals[i])
  }

  ghost predicate CachedHeld(f: Field, h: Held)
    requires SoundHeld(f, h)
    decreases f
  {
    match h
    case SubH(Some(m)) => Cached(f.kind.desc, m)
    case SubsH(ms) => forall j :: 0 <= j < |ms| ==> Cached(f.kind.desc, ms[j])
    case _ => true
  }

  ghost predicate CachedAs(d: Desc, l: Live, m: Msg) {
    Sound(d, l) && Plain(l) == m && Cached(d, l)
  }

  /** The first messages of a list, each with its size cached. */
  ghost predicate CachedSome(d: Desc, done: seq<Live>, ms: seq<Msg>) {
    |done| <= |ms| && forall i :: 0 <= i < |done| ==> CachedAs(d, done[i], ms[i])
  }

  lemma CachedOneMore(d: Desc, done: seq<Live>, l: Live, ms: seq<Msg>)
    requires CachedSome(d, done, ms) && |done| < |ms| && CachedAs(d, l, ms[|done|])
    ensures CachedSome(d, done + [l], ms)
  {
    hide CachedAs;
  }

  lemma {:induction false} CachedList(f: Field, done: seq<Live>, ms: seq<Live>)
    requires SoundHeld(f, SubsH(ms)) && |done| == |ms| && CachedSome(f.kind.desc, done, PlainAll(ms))
    ensures PlainHeld(SubsH(done)) == PlainHeld(SubsH(ms)) && CachedHeld(f, SubsH(done))
  {
    assert PlainAll(done) == PlainAll(ms);
  }

  // The size pass.

  /** The fields show the same values as before, and the first k of the size order have cached
      their sizes. */
  ghost predicate Sized(d: Desc, vals: seq<Held>, m: Msg, k: nat)
    requires Good(d) && Typed(d, m) && k <= |d.sizeOrder|
  {
    && |vals| == |d.fields|
    && (forall i :: 0 <= i < |vals| ==> PlainHeld(vals[i]) == m.vals[i])
    && (forall j :: 0 <= j < k ==> CachedHeld(d.fields[d.sizeOrder[j]], vals[d.sizeOrder[j]]))
  }

  lemma {:induction false} SizedOneMore(d: Desc, vals: seq<Held>, m: Msg, k: nat, h: Held)
    requires Good(d) && Typed(d, m) && k < |d.sizeOrder| && Sized(d, vals, m, k)
    requires PlainHeld(h) == m.vals[d.sizeOrder[k]] && CachedHeld(d.fields[d.sizeOrder[k]], h)
    ensures Sized(d, vals[d.sizeOrder[k] := h], m, k + 1)
  {
  }

  lemma {:induction false} SizedAll(d: Desc, l: Live)
    requires Good(d) && Typed(d, Plain(l)) && l.cachedSize == Signed32(Size(d, Plain(l)))
    requires Sized(d, l.vals, Plain(l), |d.sizeOrder|)
    ensures Cached(d, l)
  {
    forall i | 0 <= i < |l.vals| ensures CachedHeld(d.fields[i], l.vals[i]) {
      assert i in d.sizeOrder;
    }
  }

  lemma {:induction false} SamePlain(l: Live, vals: seq<Held>, size: int)
    requires |vals| == |l.vals| && forall i :: 0 <= i < |vals| ==> PlainHeld(vals[i]) == Plain(l).vals[i]
    ensures Plain(Live(vals, l.unknown, size)) == Plain(l)
  {
    assert Plain(Live(vals, l.unknown, size)).vals == Plain(l).vals;
  }

  method ByteSizeLong(d: Desc, l: Live) returns (total: nat, r: Live)
    requires Sound(d, l)
    ensures Plain(r) == Plain(l)
    ensures total == Size(d, Plain(l)) && Cached(d, r)
    decreases d, 1
  {
    var vals := l.vals;
    total := 0;
    var k := 0;
    ghost var m := Plain(l);
    while k < |d.sizeOrder|
      invariant 0 <= k <= |d.sizeOrder| && Sized(d, vals, m, k)
      invariant total + SizeFrom(d, m, k) == SizeFrom(d, m, 0)
    {
      var i := d.sizeOrder[k];
      var n, h := FieldSize(d.fields[i], vals[i]);
      SizedOneMore(d, vals, m, k, h);
      vals := vals[i := h];
      total := total + n;
      k := k + 1;
    }
    total := total + |l.unknown|;
    r := Live(vals, l.unknown, Signed32(total));
    SamePlain(l, vals, r.cachedSize);
    SizedAll(d, r);
  }

  method FieldSize(f: Field, h: Held) returns (n: nat, r: Held)
    requires SoundHeld(f, h)
    ensures PlainHeld(r) == PlainHeld(h)
    ensures n == SizeValue(f, PlainHeld(h)) && CachedHeld(f, r)
    decreases f
  {
    r := h;
    match h
    case NumH(x) => n := if x == 0 then 0 else 1 + VarintSize(Pattern(x));
    case StrH(b) => n := if b == [] then 0 else 1 + LengthSize(|b|);
    case SubH(None) => n := 0;
    case SubH(Some(m)) =>
      var size, sub := ByteSizeLong(f.kind.desc, m);
      n, r := 1 + LengthSize(size), SubH(Some(sub));
    case SubsH(ms) => n, r := ListFieldSize(f, ms);
  }

  method ListFieldSize(f: Field, ms: seq<Live>) returns (n: nat, r: Held)
    requires SoundHeld(f, SubsH(ms))
    ensures PlainHeld(r) == PlainHeld(SubsH(ms))
    ensures n == SizeValue(f, PlainHeld(SubsH(ms))) && CachedHeld(f, r)
    decreases f, 0
  {
    var done: seq<Live> := [];
    n := |ms|;
    var j := 0;
    ghost var plain := PlainAll(ms);
    while j < |ms|
      invariant 0 <= j <= |ms| && |done| == j
      invariant CachedSome(f.kind.desc, done, plain)
      invariant n == |ms| + SizeMany(f, plain[..j])
    {
      var size, sub := ByteSizeLong(f.kind.desc, ms[j]);
      assert CachedAs(f.kind.desc, sub, plain[j]);
      CachedOneMore(f.kind.desc, done, sub, plain);
      SizeManyMore(f, plain, j);
      done := done + [sub];
      n := n + LengthSize(size);
      j := j + 1;
    }
    assert plain[..|ms|] == plain;
    CachedList(f, done, ms);
    r := SubsH(done);
  }

  lemma {:induction false} SizeManyMore(f: Field, ms: seq<Msg>, j: nat)
    requires f.kind.Many? && GoodKind(f.kind) && Fits(f.kind, Subs(ms)) && j < |ms|
    ensures SizeMany(f, ms[..j + 1]) == SizeMany(f, ms[..j]) + LengthSize(Size(f.kind.desc, ms[j]))
  {
    assert ms[..j + 1][..j] == ms[..j];
  }

  // Serializing: lengths come from the cached sizes.

  method InternalSerialize(d: Desc, l: Live, target: seq<byte>) returns (out: seq<byte>)
    requires Sound(d, l) && Cached(d, l) && |Ser(d, Plain(l))| <= MAX_SIZE
    ensures out == target + Ser(d, Plain(l))
    decreases d, 1
  {
    out := target;
    var i := 0;
    ghost var m := Plain(l);
    hide Ser, SerFrom, SerValue, Sound, Cached, CachedHeld, Plain;
    SerStart(d, l);
    while i < |d.fields|
      invariant 0 <= i <= |d.fields| && |SerFrom(d, m, i)| <= MAX_SIZE
      invariant out + SerFrom(d, m, i) == target + SerFrom(d, m, 0)
    {
      SerStep(d, l, i);
      ghost var was := out;
      out := FieldSerialize(d.fields[i], l.vals[i], out);
      Regroup(was, SerValue(d.fields[i], m.vals[i]), SerFrom(d, m, i + 1));
      i := i + 1;
    }
    Regroup(target, SerFrom(d, m, 0), l.unknown);
    out := out + l.unknown;
  }

  lemma {:induction false} SerStart(d: Desc, l: Live)
    requires Sound(d, l) && |Ser(d, Plain(l))| <= MAX_SIZE
    ensures Typed(d, Plain(l)) && |l.vals| == |d.fields| && SerFrom(d, Plain(l), |d.fields|) == []
    ensures Ser(d, Plain(l)) == SerFrom(d, Plain(l), 0) + l.unknown && |SerFrom(d, Plain(l), 0)| <= MAX_SIZE
  {
  }

  /** The next field to write. */
  lemma {:induction false} SerStep(d: Desc, l: Live, i: nat)
    requires Sound(d, l) && Cached(d, l) && i < |d.fields| && |SerFrom(d, Plain(l), i)| <= MAX_SIZE
    ensures |l.vals| == |d.fields| && SoundHeld(d.fields[i], l.vals[i]) && CachedHeld(d.fields[i], l.vals[i])
    ensures Fits(d.fields[i].kind, PlainHeld(l.vals[i])) && Plain(l).vals[i] == PlainHeld(l.vals[i])
    ensures SerFrom(d, Plain(l), i) == SerValue(d.fields[i], Plain(l).vals[i]) + SerFrom(d, Plain(l), i + 1)
    ensures |SerValue(d.fields[i], PlainHeld(l.vals[i]))| <= MAX_SIZE && |SerFrom(d, Plain(l), i + 1)| <= MAX_SIZE
  {
    hide SerValue;
    assert SoundHeld(d.fields[i], l.vals[i]);
  }

  method FieldSerialize(f: Field, h: Held, target: seq<byte>) returns (out: seq<byte>)
    requires SoundHeld(f, h) && CachedHeld(f, h) && |SerValue(f, PlainHeld(h))| <= MAX_SIZE
    ensures out == target + SerValue(f, PlainHeld(h))
    decreases f
  {
    match h
    case NumH(n) => out := if n == 0 then target else target + (Varint(Tag(f)) + Varint(Pattern(n)));
    case StrH(b) => out := if b == [] then target else target + (Varint(Tag(f)) + WriteBytes(b));
    case SubH(None) => out := target;
    case SubH(Some(m)) => out := WriteMessage(f, m, target);
    case SubsH(ms) => out := ListSerialize(f, ms, target);
  }

  method ListSerialize(f: Field, ms: seq<Live>, target: seq<byte>) returns (out: seq<byte>)
    requires SoundHeld(f, SubsH(ms)) && CachedHeld(f, SubsH(ms)) && |SerMany(f, PlainAll(ms))| <= MAX_SIZE
    ensures out == target + SerMany(f, PlainAll(ms))
    decreases f, 0
  {
    out := target;
    var j := 0;
    ghost var plain := PlainAll(ms);
    while j < |ms|
      invariant 0 <= j <= |ms|
      invariant out == target + SerMany(f, plain[..j])
    {
      ListStep(f, plain, j, target);
      out := WriteMessage(f, ms[j], out);
      j := j + 1;
    }
    assert plain[..|ms|] == plain;
  }

  lemma {:induction false} SerManyMore(f: Field, ms: seq<Msg>, j: nat)
    requires f.kind.Many? && Fits(f.kind, Subs(ms)) && j < |ms|
    ensures SerMany(f, ms[..j + 1]) == SerMany(f, ms[..j]) + SerSub(f, ms[j])
  {
    assert ms[..j + 1][..j] == ms[..j];
  }

  lemma {:induction false} SerManyWithin(f: Field, ms: seq<Msg>, j: nat)
    requires f.kind.Many? && Fits(f.kind, Subs(ms)) && j <= |ms|
    ensures |SerMany(f, ms[..j])| <= |SerMany(f, ms)|
    decreases |ms| - j
  {
    if j < |ms| {
      SerManyMore(f, ms, j);
      SerManyWithin(f, ms, j + 1);
    } else {
      assert ms[..j] == ms;
    }
  }

  lemma {:induction false} ListStep(f: Field, ms: seq<Msg>, j: nat, target: seq<byte>)
    requires f.kind.Many? && Fits(f.kind, Subs(ms)) && j < |ms| && |SerMany(f, ms)| <= MAX_SIZE
    ensures target + SerMany(f, ms[..j + 1]) == target + SerMany(f, ms[..j]) + SerSub(f, ms[j])
    ensures |SerSub(f, ms[j])| <= MAX_SIZE
  {
    SerManyMore(f, ms, j);
    SerManyWithin(f, ms, j + 1);
    Regroup(target, SerMany(f, ms[..j]), SerSub(f, ms[j]));
  }

  /** InternalWriteMessage: the tag, the cached size, and the message. */
  method WriteMessage(f: Field, m: Live, target: seq<byte>) returns (out: seq<byte>)
    requires f.kind.One? || f.kind.Many?
    requires Sound(f.kind.desc, m) && Cached(f.kind.desc, m) && |SerSub(f, Plain(m))| <= MAX_SIZE
    ensures out == target + SerSub(f, Plain(m))
    decreases f.kind
  {
    ghost var s := Ser(f.kind.desc, Plain(m));
    SizeIsLength(f.kind.desc, Plain(m));
    assert Signed32(|s|) == |s|;
    out := target + Varint(Tag(f)) + Varint(m.cachedSize);
    Regroup(target, Varint(Tag(f)), Varint(|s|));
    Regroup(target, Varint(Tag(f)) + Varint(|s|), s);
    Regroup(Varint(Tag(f)), Varint(|s|), s);
    out := InternalSerialize(f.kind.desc, m, out);
  }

  // New messages and stores into a field.

  function DefaultHeld(k: Kind): (h: Held)
    ensures PlainHeld(h) == Default(k)
  {
    match k
    case Bytes => StrH([])
    case One(_) => SubH(None)
    case Many(_) => SubsH([])
    case _ => NumH(0)
  }

  /** A message as its constructor leaves it. */
  function Fresh(d: Desc): (l: Live)
    ensures Plain(l) == Empty(d)
  {
    var l := Live(seq(|d.fields|, i requires 0 <= i < |d.fields| => DefaultHeld(d.fields[i].kind)), [], 0);
    assert Plain(l).vals == Empty(d).vals;
    l
  }

  function Store(l: Live, i: nat, h: Held): (r: Live)
    requires i < |l.vals|
    ensures Plain(r) == Put(Plain(l), i, PlainHeld(h))
  {
    var r := l.(vals := l.vals[i := h]);
    assert Plain(r).vals == Put(Plain(l), i, PlainHeld(h)).vals;
    r
  }
}
