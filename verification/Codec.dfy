/** The generated message code, once for all message types: a descriptor lists a type's fields in
    the order the serializer writes them and the order the size pass visits them. */
module Codec {

  import opened Wire

  datatype Kind = Int32 | UInt32 | UInt64 | Bytes | One(desc: Desc) | Many(desc: Desc)

  datatype Field = Field(num: nat, kind: Kind)

  datatype Desc = Desc(fields: seq<Field>, sizeOrder: seq<nat>)

  datatype Value = Num(n: int) | Str(b: seq<byte>) | Sub(m: Option<Msg>) | Subs(ms: seq<Msg>)

  /** A message: one value for each field, and the bytes of the fields its type does not know. */
  datatype Msg = Msg(vals: seq<Value>, unknown: seq<byte>)

  /** A field the receiving type does not know, by its wire type. */
  datatype Payload = VarintP(v: nat) | Fixed64P(f: seq<byte>) | LengthP(b: seq<byte>) | Fixed32P(f: seq<byte>)

  datatype Rec = Rec(num: nat, payload: Payload)

  // Descriptors.

  function WireType(k: Kind): nat {
    if k.Int32? || k.UInt32? || k.UInt64? then 0 else 2
  }

  function Tag(f: Field): nat {
    8 * f.num + WireType(f.kind)
  }

  predicate Below(order: seq<nat>, n: nat) {
    forall k :: 0 <= k < |order| ==> order[k] < n
  }

  /** The order of the size pass visits every field once. */
  predicate Permutes(order: seq<nat>, n: nat) {
    && |order| == n
    && Below(order, n)
    && (forall j, k :: 0 <= j < k < n ==> order[j] != order[k])
    && (forall i :: 0 <= i < n ==> i in order)
  }

  predicate Good(d: Desc)
    decreases d
  {
    && Permutes(d.sizeOrder, |d.fields|)
    && (forall i :: 0 <= i < |d.fields| ==> 0 < d.fields[i].num < 16)
    && (forall i, j :: 0 <= i < j < |d.fields| ==> d.fields[i].num != d.fields[j].num)
    && (forall i :: 0 <= i < |d.fields| ==> GoodKind(d.fields[i].kind))
  }

  predicate GoodKind(k: Kind)
    decreases k
  {
    k.One? || k.Many? ==> Good(k.desc)
  }

  /** The case a tag selects, if there is one. */
  function Case(d: Desc, tag: nat, i: nat := 0): (r: Option<nat>)
    requires i <= |d.fields|
    ensures r.Some? ==> i <= r.value < |d.fields| && Tag(d.fields[r.value]) == tag
    ensures r.None? ==> forall j :: i <= j < |d.fields| ==> Tag(d.fields[j]) != tag
    decreases |d.fields| - i
  {
    if i == |d.fields| then None
    else if Tag(d.fields[i]) == tag then Some(i)
    else Case(d, tag, i + 1)
  }

  lemma {:induction false} CaseOf(d: Desc, i: nat)
    requires Good(d) && i < |d.fields|
    ensures Case(d, Tag(d.fields[i])) == Some(i)
  {
    var r := Case(d, Tag(d.fields[i]));
    assert d.fields[r.value].num == d.fields[i].num;
  }

  // Values.

  ghost predicate Typed(d: Desc, m: Msg)
    decreases d
  {
    && |m.vals| == |d.fields|
    && (forall i :: 0 <= i < |d.fields| ==> Fits(d.fields[i].kind, m.vals[i]))
    && Kept(d, m.unknown)
  }

  ghost predicate Fits(k: Kind, v: Value)
    decreases k
  {
    match k
    case Int32 => v.Num? && -0x8000_0000 <= v.n < 0x8000_0000
    case UInt32 => v.Num? && 0 <= v.n < TWO32
    case UInt64 => v.Num? && 0 <= v.n < TWO64
    case Bytes => v.Str?
    case One(d) => v.Sub? && (v.m.Some? ==> Typed(d, v.m.value))
    case Many(d) => v.Subs? && forall j :: 0 <= j < |v.ms| ==> Typed(d, v.ms[j])
  }

  function Default(k: Kind): Value {
    match k
    case Bytes => Str([])
    case One(_) => Sub(None)
    case Many(_) => Subs([])
    case _ => Num(0)
  }

  function Empty(d: Desc): (m: Msg)
    ensures |m.vals| == |d.fields|
  {
    Msg(seq(|d.fields|, i requires 0 <= i < |d.fields| => Default(d.fields[i].kind)), [])
  }

  // Unknown fields: kept as bytes, in the form UnknownFieldParse appends them.

  function PayloadType(p: Payload): nat {
    match p
    case VarintP(_) => 0
    case Fixed64P(_) => 1
    case LengthP(_) => 2
    case Fixed32P(_) => 5
  }

  predicate Fitting(p: Payload) {
    match p
    case VarintP(v) => v < TWO64
    case Fixed64P(f) => |f| == 8
    case LengthP(_) => true
    case Fixed32P(f) => |f| == 4
  }

  function RecTag(r: Rec): nat {
    8 * r.num + PayloadType(r.payload)
  }

  predicate Foreign(d: Desc, r: Rec) {
    && r.num > 0 && RecTag(r) < TWO32 && Fitting(r.payload)
    && Case(d, RecTag(r)).None?
  }

  function PayloadBytes(p: Payload): seq<byte> {
    match p
    case VarintP(v) => Varint(v)
    case Fixed64P(f) => f
    case LengthP(b) => WriteBytes(b)
    case Fixed32P(f) => f
  }

  function RecBytes(r: Rec): seq<byte> {
    Varint(RecTag(r)) + PayloadBytes(r.payload)
  }

  function Flat(rs: seq<Rec>): seq<byte> {
    if rs == [] then [] else Flat(rs[..|rs| - 1]) + RecBytes(rs[|rs| - 1])
  }

  ghost predicate Kept(d: Desc, u: seq<byte>) {
    exists rs: seq<Rec> :: Flat(rs) == u && forall r :: r in rs ==> Foreign(d, r)
  }

  function ReadPayload(wire: nat, s: seq<byte>): (r: Option<(Payload, nat)>)
    ensures r.Some? ==> r.value.1 <= |s| && PayloadType(r.value.0) == wire && Fitting(r.value.0)
  {
    if wire == 0 then
      match ReadVarint64(s)
      case None => None
      case Some((v, n)) => Some((VarintP(v), n))
    else if wire == 1 then
      if |s| < 8 then None else Some((Fixed64P(s[..8]), 8))
    else if wire == 2 then
      match ReadBytes(s)
      case None => None
      case Some((b, n)) => Some((LengthP(b), n))
    else if wire == 5 then
      if |s| < 4 then None else Some((Fixed32P(s[..4]), 4))
    else None
  }

  lemma {:induction false} EmptyTyped(d: Desc)
    ensures Typed(d, Empty(d))
  {
    var none: seq<Rec> := [];
    assert Flat(none) == [];
  }

  // Parsing.

  function Put(m: Msg, i: nat, v: Value): Msg
    requires i < |m.vals|
  {
    m.(vals := m.vals[i := v])
  }

  /** _InternalParse up to the end of its input: every field found is stored or merged into m. */
  function Parse(d: Desc, m: Msg, s: seq<byte>): (r: Option<Msg>)
    requires |m.vals| == |d.fields|
    ensures r.Some? ==> |r.value.vals| == |d.fields|
    decreases |s|, 2
  {
    if s == [] then Some(m)
    else match ParseField(d, m, s)
         case None => None
         case Some((m', n)) => Parse(d, m', s[n..])
  }

  /** One turn of the loop: the tag, and the field behind it. */
  function ParseField(d: Desc, m: Msg, s: seq<byte>): (r: Option<(Msg, nat)>)
    requires |m.vals| == |d.fields|
    ensures r.Some? ==> 0 < r.value.1 <= |s| && |r.value.0.vals| == |d.fields|
    decreases |s|, 1
  {
    match ReadTag(s)
    case None => None
    case Some((tag, n)) =>
      match FieldBody(d, m, tag, s[n..])
      case None => None
      case Some((m', k)) => Some((m', n + k))
  }

  /** The switch on the tag: the case it selects, or an unknown field. */
  function FieldBody(d: Desc, m: Msg, tag: nat, s: seq<byte>): (r: Option<(Msg, nat)>)
    requires |m.vals| == |d.fields|
    ensures r.Some? ==> r.value.1 <= |s| && |r.value.0.vals| == |d.fields|
    decreases |s|, 4
  {
    match Case(d, tag)
    case Some(i) => (
      match ParseValue(d.fields[i].kind, m.vals[i], s)
      case None => None
      case Some((v, k)) => Some((Put(m, i, v), k)))
    case None =>
      if tag == 0 || tag % 8 == 4 || tag / 8 == 0 then None
      else match ReadPayload(tag % 8, s)
           case None => None
           case Some((p, k)) => Some((m.(unknown := m.unknown + RecBytes(Rec(tag / 8, p))), k))
  }

  /** A known field: numbers and bytes replace, the sub-message is merged into, a list grows. */
  function ParseValue(k: Kind, was: Value, s: seq<byte>): (r: Option<(Value, nat)>)
    ensures r.Some? ==> 0 < r.value.1 <= |s|
    decreases |s|, 3
  {
    match k
    case Int32 => (match ReadVarint64(s) case None => None case Some((v, n)) => Some((Num(Signed32(v)), n)))
    case UInt32 => (match ReadVarint64(s) case None => None case Some((v, n)) => Some((Num(v % TWO32), n)))
    case UInt64 => (match ReadVarint64(s) case None => None case Some((v, n)) => Some((Num(v), n)))
    case Bytes => (match ReadBytes(s) case None => None case Some((b, n)) => Some((Str(b), n)))
    case One(d) => (
      match ReadBytes(s)
      case None => None
      case Some((b, n)) =>
        match Parse(d, Mutable(d, was), b)
        case None => None
        case Some(m) => Some((Sub(Some(m)), n)))
    case Many(d) => (
      match ReadBytes(s)
      case None => None
      case Some((b, n)) =>
        match Parse(d, Empty(d), b)
        case None => None
        case Some(m) => Some((Subs((if was.Subs? then was.ms else []) + [m]), n)))
  }

  /** The sub-message accessor the parser uses: the one that is there, or a new empty one. */
  function Mutable(d: Desc, v: Value): (m: Msg)
    ensures |m.vals| == |d.fields|
  {
    if v.Sub? && v.m.Some? && |v.m.value.vals| == |d.fields| then v.m.value else Empty(d)
  }

  // Serializing.

  function Ser(d: Desc, m: Msg): seq<byte>
    requires Typed(d, m)
    decreases d
  {
    SerFrom(d, m, 0) + m.unknown
  }

  /** The fields from the i-th on, in order. */
  function SerFrom(d: Desc, m: Msg, i: nat): seq<byte>
    requires Typed(d, m) && i <= |d.fields|
    decreases d, |d.fields| - i
  {
    if i == |d.fields| then [] else SerValue(d.fields[i], m.vals[i]) + SerFrom(d, m, i + 1)
  }

  /** Zero, the empty string and the absent sub-message are not written. */
  function SerValue(f: Field, v: Value): seq<byte>
    requires Fits(f.kind, v)
    decreases f
  {
    match v
    case Num(n) => if n == 0 then [] else Varint(Tag(f)) + Varint(Pattern(n))
    case Str(b) => if b == [] then [] else Varint(Tag(f)) + WriteBytes(b)
    case Sub(None) => []
    case Sub(Some(m)) => SerSub(f, m)
    case Subs(ms) => SerMany(f, ms)
  }

  function SerMany(f: Field, ms: seq<Msg>): seq<byte>
    requires f.kind.Many? && Fits(f.kind, Subs(ms))
    decreases f, 0, |ms|
  {
    if ms == [] then []
    else SerMany(f, ms[..|ms| - 1]) + SerSub(f, ms[|ms| - 1])
  }

  /** A sub-message goes behind its tag and its length. */
  function SerSub(f: Field, m: Msg): seq<byte>
    requires (f.kind.One? || f.kind.Many?) && Typed(f.kind.desc, m)
    decreases f.kind, 0
  {
    Varint(Tag(f)) + WriteBytes(Ser(f.kind.desc, m))
  }

  // The size pass.

  function Size(d: Desc, m: Msg): nat
    requires Good(d) && Typed(d, m)
    decreases d
  {
    SizeFrom(d, m, 0) + |m.unknown|
  }

  /** The sizes of the fields from the k-th of the size order on. */
  function SizeFrom(d: Desc, m: Msg, k: nat): nat
    requires Good(d) && Typed(d, m) && k <= |d.sizeOrder|
    decreases d, |d.sizeOrder| - k
  {
    if k == |d.sizeOrder| then 0
    else
      var i := d.sizeOrder[k];
      SizeValue(d.fields[i], m.vals[i]) + SizeFrom(d, m, k + 1)
  }

  function SizeValue(f: Field, v: Value): nat
    requires GoodKind(f.kind) && Fits(f.kind, v)
    decreases f
  {
    match v
    case Num(n) => if n == 0 then 0 else 1 + VarintSize(Pattern(n))
    case Str(b) => if b == [] then 0 else 1 + LengthSize(|b|)
    case Sub(None) => 0
    case Sub(Some(m)) => 1 + LengthSize(Size(f.kind.desc, m))
    case Subs(ms) => |ms| + SizeMany(f, ms)
  }

  function LengthSize(n: nat): nat {
    VarintSize(n) + n
  }

  function SizeMany(f: Field, ms: seq<Msg>): nat
    requires f.kind.Many? && GoodKind(f.kind) && Fits(f.kind, Subs(ms))
    decreases f, 0, |ms|
  {
    if ms == [] then 0 else SizeMany(f, ms[..|ms| - 1]) + LengthSize(Size(f.kind.desc, ms[|ms| - 1]))
  }

  // Merging.

  function Merge(d: Desc, x: Msg, y: Msg): (m: Msg)
    requires Typed(d, x) && Typed(d, y)
    ensures |m.vals| == |d.fields|
    decreases d
  {
    Msg(seq(|d.fields|, i requires 0 <= i < |d.fields| => MergeValue(d.fields[i].kind, x.vals[i], y.vals[i])),
        x.unknown + y.unknown)
  }

  /** Set numbers and bytes of y win, sub-messages merge, lists append. */
  function MergeValue(k: Kind, x: Value, y: Value): Value
    requires Fits(k, x) && Fits(k, y)
    decreases k
  {
    match y
    case Num(n) => if n != 0 then y else x
    case Str(b) => if b != [] then y else x
    case Sub(None) => x
    case Sub(Some(m)) =>
      EmptyTyped(k.desc);
      Sub(Some(Merge(k.desc, Mutable(k.desc, x), m)))
    case Subs(ms) => Subs(x.ms + ms)
  }
}
