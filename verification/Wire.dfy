/** The wire format the generated message code relies on: base-128 varints, tags and
    length-delimited payloads, as the Protocol Buffers "Encoding" specification lays them down. */
module Wire {

  type byte = b: int | 0 <= b < 256

  datatype Option<+T> = None | Some(value: T)

  const TWO32: nat := 0x1_0000_0000
  const TWO64: nat := 0x1_0000_0000_0000_0000
  const MAX_SIZE: nat := 0x7FFF_FFFF

  /** Seven bits a byte, lowest first, the high bit set on all bytes but the last. */
  function Varint(v: nat): (s: seq<byte>)
    ensures s != []
  {
    if v < 128 then [v] else [v % 128 + 128] + Varint(v / 128)
  }

  function VarintSize(v: nat): nat {
    if v < 128 then 1 else 1 + VarintSize(v / 128)
  }

  /** A varint of at most max bytes: its value and its length. */
  function ReadVarint(s: seq<byte>, max: nat): (r: Option<(nat, nat)>)
    ensures r.Some? ==> 0 < r.value.1 <= |s|
    decreases |s|
  {
    if s == [] || max == 0 then None
    else if s[0] < 128 then Some((s[0], 1))
    else match ReadVarint(s[1..], max - 1)
         case None => None
         case Some((v, n)) => Some((s[0] - 128 + 128 * v, n + 1))
  }

  function Pow128(k: nat): nat {
    if k == 0 then 1 else 128 * Pow128(k - 1)
  }

  lemma {:induction false} VarintFits(v: nat, k: nat)
    requires v < Pow128(k) && k > 0
    ensures |Varint(v)| <= k
  {
    if v >= 128 {
      VarintFits(v / 128, k - 1);
    }
  }

  lemma {:induction false} VarintLengths(v: nat)
    ensures v < TWO64 ==> |Varint(v)| <= 10
    ensures v <= MAX_SIZE ==> |Varint(v)| <= 5
    ensures v < 128 ==> Varint(v) == [v]
    ensures v < TWO32 ==> |Varint(v)| <= 5
  {
    assert Pow128(5) == 0x8_0000_0000;
    assert Pow128(10) == 0x8_0000_0000 * 0x8_0000_0000;
    if v < TWO64 { VarintFits(v, 10); }
    if v < TWO32 { VarintFits(v, 5); }
  }

  lemma {:induction false} VarintSizes(v: nat)
    ensures VarintSize(v) == |Varint(v)|
  {
    if v >= 128 {
      VarintSizes(v / 128);
    }
  }

  /** Reading a written varint gives the value back and stops right behind it. */
  lemma {:induction false} VarintRoundTrip(v: nat, rest: seq<byte>, max: nat)
    requires |Varint(v)| <= max
    ensures ReadVarint(Varint(v) + rest, max) == Some((v, |Varint(v)|))
  {
    if v < 128 {
      assert (Varint(v) + rest)[0] == v;
    } else {
      var s := Varint(v) + rest;
      assert s[0] == v % 128 + 128;
      assert s[1..] == Varint(v / 128) + rest;
      VarintRoundTrip(v / 128, rest, max - 1);
    }
  }

  /** ReadTag: a varint of at most five bytes, kept to 32 bits. */
  function ReadTag(s: seq<byte>): (r: Option<(nat, nat)>)
    ensures r.Some? ==> 0 < r.value.1 <= |s| && r.value.0 < TWO32
  {
    match ReadVarint(s, 5)
    case None => None
    case Some((v, n)) => Some((v % TWO32, n))
  }

  /** ReadVarint64: a varint of at most ten bytes, kept to 64 bits. */
  function ReadVarint64(s: seq<byte>): (r: Option<(nat, nat)>)
    ensures r.Some? ==> 0 < r.value.1 <= |s| && r.value.0 < TWO64
  {
    match ReadVarint(s, 10)
    case None => None
    case Some((v, n)) => Some((v % TWO64, n))
  }

  /** A length and that many bytes: the bytes and the length of both together. */
  function ReadBytes(s: seq<byte>): (r: Option<(seq<byte>, nat)>)
    ensures r.Some? ==> 0 < r.value.1 <= |s| && |r.value.0| < |s|
  {
    match ReadVarint(s, 5)
    case None => None
    case Some((size, n)) => if n + size > |s| then None else Some((s[n..n + size], n + size))
  }

  function WriteBytes(b: seq<byte>): seq<byte> {
    Varint(|b|) + b
  }

  lemma BytesRoundTrip(b: seq<byte>, rest: seq<byte>)
    requires |b| <= MAX_SIZE
    ensures ReadBytes(WriteBytes(b) + rest) == Some((b, |WriteBytes(b)|))
  {
    VarintLengths(|b|);
    VarintRoundTrip(|b|, b + rest, 5);
    assert WriteBytes(b) + rest == Varint(|b|) + (b + rest);
  }

  /** A negative int32 is written as the 64-bit pattern that has its value. */
  function Pattern(n: int): nat
    requires -0x8000_0000 <= n < TWO64
  {
    if n < 0 then n + TWO64 else n
  }

  /** The low 32 bits of a pattern, as a signed value. */
  function Signed32(v: nat): (n: int)
    ensures -0x8000_0000 <= n < 0x8000_0000
  {
    var w := v % TWO32;
    if w < 0x8000_0000 then w else w - TWO32
  }

  lemma SignedRoundTrip(n: int)
    requires -0x8000_0000 <= n < 0x8000_0000
    ensures Pattern(n) < TWO64 && Signed32(Pattern(n)) == n
    ensures n < 0 ==> |Varint(Pattern(n))| == 10
  {
    if n < 0 {
      assert Pattern(n) % TWO32 == n + TWO32;
      assert Pow128(5) == 0x8_0000_0000;
      assert Pow128(9) == 0x8000_0000_0000_0000;
      assert Pow128(10) == 0x8_0000_0000 * 0x8_0000_0000;
      VarintTen(Pattern(n), 10);
    }
  }

  lemma {:induction false} VarintTen(v: nat, k: nat)
    requires k > 0 && Pow128(k - 1) <= v < Pow128(k)
    ensures |Varint(v)| == k
  {
    if k > 1 {
      assert v >= 128 * Pow128(k - 2);
      assert v / 128 >= Pow128(k - 2) && v / 128 < Pow128(k - 1);
      VarintTen(v / 128, k - 1);
    }
  }
}
