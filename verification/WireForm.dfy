/** The bytes of the wire format themselves: what is written and what is read, in the numbers of the
    Protocol Buffers "Encoding" specification, without the names the codec shares between both. */
module WireForm {

  import opened Wire
  import opened Codec
  import opened CodecLaws

  // Varints.

  /** The value of seven-bit digits, the lowest first. */
  function Digits128(s: seq<byte>): nat {
    if s == [] then 0 else s[0] % 128 + 128 * Digits128(s[1..])
  }

  /** A varint is its value in seven-bit digits, without leading zeros, with the high bit set on all
      bytes but the last. */
  lemma {:induction false} VarintForm(v: nat)
    ensures var s := Varint(v);
            && Digits128(s) == v && s[|s| - 1] < 128 && (forall i :: 0 <= i < |s| - 1 ==> s[i] >= 128)
            && (|s| > 1 ==> s[|s| - 1] != 0)
  {
    if v >= 128 {
      VarintForm(v / 128);
      assert Varint(v)[1..] == Varint(v / 128);
    } else {
      assert Varint(v)[1..] == [];
    }
  }

  /** The first byte below 128 is the n-th, and n is at most max. */
  predicate Ends(s: seq<byte>, max: nat, n: int) {
    0 < n <= |s| && n <= max && s[n - 1] < 128 && forall i :: 0 <= i < n - 1 ==> s[i] >= 128
  }

  /** Reading a varint fails exactly when it has no last byte within the limit. */
  lemma {:induction false} ReadVarintForm(s: seq<byte>, max: nat)
    ensures match ReadVarint(s, max)
            case None => forall n :: !Ends(s, max, n)
            case Some((v, n)) => Ends(s, max, n) && v == Digits128(s[..n])
    decreases |s|
  {
    if s != [] && max > 0 {
      if s[0] < 128 {
        assert s[..1][1..] == [];
      } else {
        ReadVarintForm(s[1..], max - 1);
        var r := ReadVarint(s[1..], max - 1);
        if r.Some? {
          var (v, n) := r.value;
          assert s[..n + 1][1..] == s[1..][..n];
        } else {
          forall n ensures !Ends(s, max, n) {
            assert !Ends(s[1..], max - 1, n - 1);
          }
        }
      }
    }
  }

  /** Numbers on the wire are taken modulo powers of two. */
  lemma NumberForms(n: int, v: nat)
    requires -0x8000_0000 <= n < 0x1_0000_0000_0000_0000
    ensures Pattern(n) < 0x1_0000_0000_0000_0000 && (Pattern(n) - n) % 0x1_0000_0000_0000_0000 == 0
    ensures (Signed32(v) - v) % 0x1_0000_0000 == 0
  {
  }

  // Fields, as they are written.

  predicate IsNumber(k: Kind) {
    k.Int32? || k.UInt32? || k.UInt64?
  }

  /** A number that is not zero, behind its tag; a negative one as its 64-bit two's complement. */
  function NumberBytes(tag: byte, n: int): seq<byte>
    requires n >= -0x8000_0000
  {
    if n == 0 then [] else [tag] + Varint(if n < 0 then n + 0x1_0000_0000_0000_0000 else n)
  }

  /** Bytes behind a tag and their length. */
  function PartBytes(tag: byte, b: seq<byte>): seq<byte> {
    [tag] + Varint(|b|) + b
  }

  function StringBytes(tag: byte, b: seq<byte>): seq<byte> {
    if b == [] then [] else PartBytes(tag, b)
  }

  /** The messages of a list, one behind the other. */
  function PartsBytes(tag: byte, d: Desc, ms: seq<Msg>): seq<byte>
    requires forall i :: 0 <= i < |ms| ==> Typed(d, ms[i])
  {
    if ms == [] then [] else PartBytes(tag, Ser(d, ms[0])) + PartsBytes(tag, d, ms[1..])
  }

  function OptionBytes(tag: byte, d: Desc, m: Option<Msg>): seq<byte>
    requires m.Some? ==> Typed(d, m.value)
  {
    match m
    case None => []
    case Some(x) => PartBytes(tag, Ser(d, x))
  }

  lemma {:induction false} SerNumber(f: Field, n: int)
    requires f.num < 16 && IsNumber(f.kind) && Fits(f.kind, Num(n))
    ensures SerValue(f, Num(n)) == NumberBytes(8 * f.num, n)
  {
    VarintLengths(8 * f.num);
  }

  lemma {:induction false} SerString(f: Field, b: seq<byte>)
    requires f.num < 16 && f.kind.Bytes?
    ensures SerValue(f, Str(b)) == StringBytes(8 * f.num + 2, b)
  {
    VarintLengths(8 * f.num + 2);
  }

  lemma {:induction false} SerPart(f: Field, m: Msg)
    requires f.num < 16 && (f.kind.One? || f.kind.Many?) && Typed(f.kind.desc, m)
    ensures SerSub(f, m) == PartBytes(8 * f.num + 2, Ser(f.kind.desc, m))
  {
    VarintLengths(8 * f.num + 2);
  }

  lemma {:induction false} SerOption(f: Field, m: Option<Msg>)
    requires f.num < 16 && f.kind.One? && (m.Some? ==> Typed(f.kind.desc, m.value))
    ensures SerValue(f, Sub(m)) == OptionBytes(8 * f.num + 2, f.kind.desc, m)
  {
    if m.Some? {
      SerPart(f, m.value);
    }
  }

  lemma {:induction false} LastPart(f: Field, ms: seq<Msg>)
    requires f.num < 16 && f.kind.Many? && Fits(f.kind, Subs(ms)) && ms != []
    ensures var front, e := ms[..|ms| - 1], ms[|ms| - 1];
            && Fits(f.kind, Subs(front)) && Typed(f.kind.desc, e)
            && SerMany(f, ms) == SerMany(f, front) + PartBytes(8 * f.num + 2, Ser(f.kind.desc, e))
  {
    hide PartBytes, SerSub, Typed;
    SerPart(f, ms[|ms| - 1]);
  }

  lemma {:induction false} SerParts(f: Field, ms: seq<Msg>)
    requires f.num < 16 && f.kind.Many? && Fits(f.kind, Subs(ms))
    ensures SerMany(f, ms) == PartsBytes(8 * f.num + 2, f.kind.desc, ms)
    decreases |ms|
  {
    if ms != [] {
      var front, e := ms[..|ms| - 1], ms[|ms| - 1];
      LastPart(f, ms);
      hide PartsBytes, PartBytes, Ser, SerSub, SerMany, Typed;
      SerParts(f, front);
      assert front + [e] == ms;
      PartsMore(8 * f.num + 2, f.kind.desc, front, e);
    }
  }

  lemma {:induction false} SerList(f: Field, ms: seq<Msg>)
    requires f.num < 16 && f.kind.Many? && Fits(f.kind, Subs(ms))
    ensures SerValue(f, Subs(ms)) == PartsBytes(8 * f.num + 2, f.kind.desc, ms)
  {
    hide SerMany, PartsBytes;
    SerParts(f, ms);
  }

  lemma {:induction false} PartsMore(tag: byte, d: Desc, ms: seq<Msg>, e: Msg)
    requires (forall i :: 0 <= i < |ms| ==> Typed(d, ms[i])) && Typed(d, e)
    ensures PartsBytes(tag, d, ms + [e]) == PartsBytes(tag, d, ms) + PartBytes(tag, Ser(d, e))
    decreases |ms|
  {
    hide Typed, PartBytes;
    if ms == [] {
      assert ms + [e] == [e] && [e][1..] == [];
    } else {
      assert (ms + [e])[1..] == ms[1..] + [e];
      PartsMore(tag, d, ms[1..], e);
    }
  }

  // Fields, as they are read: whatever the message held before.

  lemma {:induction false} NumberValue(k: Kind, was: Value, v: nat) returns (n: int)
    requires IsNumber(k) && v < 0x1_0000_0000_0000_0000
    ensures ParseValue(k, was, Varint(v)) == Some((Num(n), |Varint(v)|)) && Fits(k, Num(n))
    ensures (n - v) % 0x1_0000_0000 == 0 && (k.UInt64? ==> n == v)
  {
    n := if k.Int32? then Signed32(v) else if k.UInt32? then v % TWO32 else v;
    ReadVarint64Back(v);
    NumberForms(0, v);
  }

  /** A number field takes the number on the wire, cut to its width. */
  lemma {:induction false} ReadNumber(d: Desc, m: Msg, i: nat, v: nat) returns (n: int)
    requires Good(d) && |m.vals| == |d.fields| && i < |d.fields| && v < 0x1_0000_0000_0000_0000
    requires IsNumber(d.fields[i].kind)
    ensures Parse(d, m, [8 * d.fields[i].num] + Varint(v)) == Some(Put(m, i, Num(n)))
    ensures Fits(d.fields[i].kind, Num(n)) && (n - v) % 0x1_0000_0000 == 0 && (d.fields[i].kind.UInt64? ==> n == v)
  {
    var f := d.fields[i];
    assert Tag(f) == 8 * f.num < 128;
    VarintLengths(Tag(f));
    hide Parse, ParseValue, Fits;
    n := NumberValue(f.kind, m.vals[i], v);
    KnownField(d, m, i, Varint(v), Num(n));
  }

  /** A bytes field takes the bytes on the wire. */
  lemma {:induction false} ReadString(d: Desc, m: Msg, i: nat, b: seq<byte>)
    requires Good(d) && |m.vals| == |d.fields| && i < |d.fields| && d.fields[i].kind.Bytes? && |b| <= MAX_SIZE
    ensures Parse(d, m, PartBytes(8 * d.fields[i].num + 2, b)) == Some(Put(m, i, Str(b)))
  {
    var f := d.fields[i];
    ReadBytesBack(b);
    KnownField(d, m, i, WriteBytes(b), Str(b));
    ReadPart(d, m, i, b);
  }

  /** A sub-message is parsed into the one that is there, or a new one. */
  lemma {:induction false} ReadOption(d: Desc, m: Msg, i: nat, b: seq<byte>)
    requires Good(d) && |m.vals| == |d.fields| && i < |d.fields| && d.fields[i].kind.One? && |b| <= MAX_SIZE
    requires m.vals[i].Sub? && (m.vals[i].m.Some? ==> Typed(d.fields[i].kind.desc, m.vals[i].m.value))
    ensures var sub := d.fields[i].kind.desc;
            var r := Parse(sub, if m.vals[i].m.Some? then m.vals[i].m.value else Empty(sub), b);
            Parse(d, m, PartBytes(8 * d.fields[i].num + 2, b)) == (if r.Some? then Some(Put(m, i, Sub(r))) else None)
  {
    var f := d.fields[i];
    var r := Parse(f.kind.desc, Mutable(f.kind.desc, m.vals[i]), b);
    ReadPart(d, m, i, b);
    ReadBytesBack(b);
    if r.Some? {
      KnownField(d, m, i, WriteBytes(b), Sub(r));
    }
  }

  /** A list grows by a message parsed from nothing. */
  lemma {:induction false} ReadElement(d: Desc, m: Msg, i: nat, b: seq<byte>)
    requires Good(d) && |m.vals| == |d.fields| && i < |d.fields| && d.fields[i].kind.Many? && |b| <= MAX_SIZE
    requires m.vals[i].Subs?
    ensures var r := Parse(d.fields[i].kind.desc, Empty(d.fields[i].kind.desc), b);
            Parse(d, m, PartBytes(8 * d.fields[i].num + 2, b))
              == (if r.Some? then Some(Put(m, i, Subs(m.vals[i].ms + [r.value]))) else None)
  {
    var f := d.fields[i];
    var r := Parse(f.kind.desc, Empty(f.kind.desc), b);
    ReadPart(d, m, i, b);
    ReadBytesBack(b);
    if r.Some? {
      KnownField(d, m, i, WriteBytes(b), Subs(m.vals[i].ms + [r.value]));
    }
  }

  /** Those bytes are the field's, and reading them fails where the field's value does. */
  lemma {:induction false} ReadPart(d: Desc, m: Msg, i: nat, b: seq<byte>)
    requires Good(d) && |m.vals| == |d.fields| && i < |d.fields| && !IsNumber(d.fields[i].kind)
    ensures PartBytes(8 * d.fields[i].num + 2, b) == Varint(Tag(d.fields[i])) + WriteBytes(b)
    ensures ParseValue(d.fields[i].kind, m.vals[i], WriteBytes(b)).None? ==>
              Parse(d, m, PartBytes(8 * d.fields[i].num + 2, b)) == None
  {
    var f := d.fields[i];
    assert Tag(f) == 8 * f.num + 2 < 128;
    VarintLengths(Tag(f));
    Regroup([Tag(f)], Varint(|b|), b);
    assert PartBytes(8 * f.num + 2, b) == Varint(Tag(f)) + WriteBytes(b);
    CaseOf(d, i);
    if ParseValue(f.kind, m.vals[i], WriteBytes(b)).None? {
      NoTurn(d, m, Tag(f), WriteBytes(b));
    }
  }

  lemma {:induction false} NoTurn(d: Desc, m: Msg, tag: nat, body: seq<byte>)
    requires |m.vals| == |d.fields| && tag < TWO32 && FieldBody(d, m, tag, body).None?
    ensures Parse(d, m, Varint(tag) + body) == None
  {
    hide FieldBody, ReadTag;
    TagRoundTrip(tag, body);
  }

  // Unknown fields.

  lemma {:induction false} ReadRec(d: Desc, m: Msg, r: Rec)
    requires |m.vals| == |d.fields| && Foreign(d, r) && RecTag(r) < 128 && |RecBytes(r)| <= MAX_SIZE
    ensures Parse(d, m, [RecTag(r)] + PayloadBytes(r.payload))
         == Some(m.(unknown := m.unknown + ([RecTag(r)] + PayloadBytes(r.payload))))
  {
    UnknownField(d, m, r);
    VarintLengths(RecTag(r));
  }

  /** A varint (wire type 0) under a number that no number field has is kept, byte by byte, behind what
      was kept before. */
  lemma {:induction false} UnknownVarint(d: Desc, m: Msg, num: nat, v: nat)
    requires |m.vals| == |d.fields| && 0 < num < 16 && v < 0x1_0000_0000_0000_0000
    requires forall i :: 0 <= i < |d.fields| && d.fields[i].num == num ==> !IsNumber(d.fields[i].kind)
    ensures var s := [8 * num] + Varint(v); Parse(d, m, s) == Some(m.(unknown := m.unknown + s))
  {
    hide Parse;
    VarintLengths(v);
    SmallTag(d, num, 0);
    ReadRec(d, m, Rec(num, VarintP(v)));
  }

  /** So are a length and that many bytes (2) under a number that only a number field has, or none. */
  lemma {:induction false} UnknownBytes(d: Desc, m: Msg, num: nat, b: seq<byte>)
    requires |m.vals| == |d.fields| && 0 < num < 16 && |b| <= 0x7FFF_FF00
    requires forall i :: 0 <= i < |d.fields| && d.fields[i].num == num ==> IsNumber(d.fields[i].kind)
    ensures var s := [8 * num + 2] + (Varint(|b|) + b); Parse(d, m, s) == Some(m.(unknown := m.unknown + s))
  {
    hide Parse;
    VarintLengths(|b|);
    SmallTag(d, num, 2);
    ReadRec(d, m, Rec(num, LengthP(b)));
  }

  /** So are eight bytes (1) and four bytes (5) under any number. */
  lemma {:induction false} UnknownFixed(d: Desc, m: Msg, num: nat, b: seq<byte>)
    requires |m.vals| == |d.fields| && 0 < num < 16
    ensures |b| == 8 ==> var s := [8 * num + 1] + b; Parse(d, m, s) == Some(m.(unknown := m.unknown + s))
    ensures |b| == 4 ==> var s := [8 * num + 5] + b; Parse(d, m, s) == Some(m.(unknown := m.unknown + s))
  {
    hide Parse;
    SmallTag(d, num, 1);
    SmallTag(d, num, 5);
    if |b| == 8 {
      ReadRec(d, m, Rec(num, Fixed64P(b)));
    } else if |b| == 4 {
      ReadRec(d, m, Rec(num, Fixed32P(b)));
    }
  }

  lemma {:induction false} SmallTag(d: Desc, num: nat, w: nat)
    requires num < 16 && w < 8
    requires forall i :: 0 <= i < |d.fields| && d.fields[i].num == num ==>
               w != if IsNumber(d.fields[i].kind) then 0 else 2
    ensures Case(d, 8 * num + w).None? && Varint(8 * num + w) == [8 * num + w]
  {
    VarintLengths(8 * num + w);
    assert forall i :: 0 <= i < |d.fields| ==> Tag(d.fields[i]) != 8 * num + w;
  }

  /** Field number 0, the end of a group (wire type 4) and the wire types there are not (6 and 7) are
      malformed. */
  lemma {:induction false} MalformedTags(d: Desc, m: Msg, tag: byte, s: seq<byte>)
    requires Good(d) && |m.vals| == |d.fields| && tag < 128
    requires tag < 8 || tag % 8 == 4 || tag % 8 == 6 || tag % 8 == 7
    ensures Parse(d, m, [tag] + s) == None
  {
    var t := [tag] + s;
    assert ReadTag(t) == Some((tag as nat, 1)) && t[1..] == s;
    assert forall i :: 0 <= i < |d.fields| ==> Tag(d.fields[i]) != tag;
    assert FieldBody(d, m, tag, s).None?;
  }

  // A receiver that knows no field at all.

  function Nothing(): Desc {
    Desc([], [])
  }

  lemma {:induction false} RecKept(r: Rec)
    requires Foreign(Nothing(), r)
    ensures Kept(Nothing(), RecBytes(r))
  {
    var rs := [r];
    assert rs[..0] == [] && Flat(rs[..0]) == [];
    assert Flat(rs) == RecBytes(r);
  }

  lemma {:induction false} PartKept(f: Field, m: Msg)
    requires 0 < f.num < 16 && (f.kind.One? || f.kind.Many?) && Typed(f.kind.desc, m)
    ensures Kept(Nothing(), SerSub(f, m))
  {
    hide Kept, Ser, Typed;
    RecKept(Rec(f.num, LengthP(Ser(f.kind.desc, m))));
  }

  lemma {:induction false} PartsKept(f: Field, ms: seq<Msg>)
    requires 0 < f.num < 16 && f.kind.Many? && Fits(f.kind, Subs(ms))
    ensures Kept(Nothing(), SerMany(f, ms))
    decreases |ms|
  {
    hide Kept, SerSub, Typed;
    if ms == [] {
      NothingKept();
    } else {
      PartsKept(f, ms[..|ms| - 1]);
      PartKept(f, ms[|ms| - 1]);
      KeptConcat(Nothing(), SerMany(f, ms[..|ms| - 1]), SerSub(f, ms[|ms| - 1]));
    }
  }

  lemma {:induction false} NothingKept()
    ensures Kept(Nothing(), [])
  {
    var none: seq<Rec> := [];
    assert Flat(none) == [];
  }

  lemma {:induction false} ValueKept(f: Field, v: Value)
    requires 0 < f.num < 16 && Fits(f.kind, v)
    ensures Kept(Nothing(), SerValue(f, v))
  {
    hide Kept, Typed;
    NothingKept();
    match v
    case Num(n) => if n != 0 { RecKept(Rec(f.num, VarintP(Pattern(n)))); }
    case Str(b) => RecKept(Rec(f.num, LengthP(b)));
    case Sub(m) => if m.Some? { PartKept(f, m.value); }
    case Subs(ms) => PartsKept(f, ms);
  }

  lemma {:induction false} FieldsKept(d: Desc, m: Msg, i: nat)
    requires Good(d) && Typed(d, m) && i <= |d.fields|
    ensures Kept(Nothing(), SerFrom(d, m, i))
    decreases |d.fields| - i
  {
    hide Kept, SerValue;
    if i == |d.fields| {
      NothingKept();
    } else {
      ValueKept(d.fields[i], m.vals[i]);
      FieldsKept(d, m, i + 1);
      KeptConcat(Nothing(), SerValue(d.fields[i], m.vals[i]), SerFrom(d, m, i + 1));
    }
  }

  lemma {:induction false} UnknownKept(d: Desc, u: seq<byte>)
    requires Kept(d, u)
    ensures Kept(Nothing(), u)
  {
    var rs: seq<Rec> :| Flat(rs) == u && forall r :: r in rs ==> Foreign(d, r);
    assert forall r :: r in rs ==> Foreign(Nothing(), r);
  }

  /** A receiver that knows no field keeps all that any type writes. */
  lemma {:induction false} StrangerKeepsAll(d: Desc, m: Msg)
    requires Good(d) && Typed(d, m) && |Ser(d, m)| <= MAX_SIZE
    ensures Parse(Nothing(), Msg([], []), Ser(d, m)) == Some(Msg([], Ser(d, m)))
  {
    hide Kept, SerFrom;
    FieldsKept(d, m, 0);
    UnknownKept(d, m.unknown);
    KeptConcat(Nothing(), SerFrom(d, m, 0), m.unknown);
    KeptFields(Nothing(), Msg([], []), Ser(d, m));
    assert [] + Ser(d, m) == Ser(d, m);
  }

  /** So a message passes through such a receiver unchanged. */
  lemma {:induction false} StrangerPassesOn(d: Desc, m: Msg)
    requires Good(d) && Typed(d, m) && |Ser(d, m)| <= MAX_SIZE
    ensures var p := Parse(Nothing(), Empty(Nothing()), Ser(d, m));
            p.Some? && Typed(Nothing(), p.value) && Parse(d, Empty(d), Ser(Nothing(), p.value)) == Some(m)
  {
    StrangerKeepsAll(d, m);
    RoundTrip(d, m);
    var p := Parse(Nothing(), Empty(Nothing()), Ser(d, m));
    assert Empty(Nothing()) == Msg([], []);
    EmptyTyped(Nothing());
    ParseTyped(Nothing(), Empty(Nothing()), Ser(d, m));
    assert SerFrom(Nothing(), p.value, 0) == [];
    assert [] + Ser(d, m) == Ser(d, m);
  }
}
