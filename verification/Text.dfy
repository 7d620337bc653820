/** The text helpers: strtok-style splitting, hex MAC addresses and dotted quads. Strings are byte
    strings, as std::string is. */
module Text {

  import opened Wire

  const COLON: byte := 58
  const DOT: byte := 46
  const MINUS: byte := 45
  const PLUS: byte := 43
  const DIGIT_0: byte := 48

  // Splitting.

  /** The part of a string before its first NUL, which is all that strcpy takes. */
  function CString(s: seq<byte>): seq<byte> {
    if s == [] || s[0] == 0 then [] else [s[0]] + CString(s[1..])
  }

  /** The number of bytes before the first delimiter. */
  function Span(s: seq<byte>, delims: seq<byte>): (n: nat)
    ensures n <= |s|
  {
    if s == [] || s[0] in delims then 0 else 1 + Span(s[1..], delims)
  }

  function Tokens(s: seq<byte>, delims: seq<byte>): seq<seq<byte>>
    decreases |s|
  {
    if s == [] then []
    else if s[0] in delims then Tokens(s[1..], delims)
    else
      var n := Span(s, delims);
      [s[..n]] + Tokens(s[n..], delims)
  }

  predicate Free(s: seq<byte>, delims: seq<byte>) {
    forall i :: 0 <= i < |s| ==> s[i] !in delims
  }

  predicate Clean(ts: seq<seq<byte>>, delims: seq<byte>) {
    forall i :: 0 <= i < |ts| ==> ts[i] != [] && Free(ts[i], delims)
  }

  function Flatten(ts: seq<seq<byte>>): seq<byte> {
    if ts == [] then [] else ts[0] + Flatten(ts[1..])
  }

  function Drop(s: seq<byte>, delims: seq<byte>): seq<byte> {
    if s == [] then [] else (if s[0] in delims then [] else [s[0]]) + Drop(s[1..], delims)
  }

  function Join(ts: seq<seq<byte>>, sep: byte): seq<byte> {
    if ts == [] then []
    else if |ts| == 1 then ts[0]
    else ts[0] + [sep] + Join(ts[1..], sep)
  }

  lemma {:induction false} SpanFree(s: seq<byte>, delims: seq<byte>)
    ensures Free(s[..Span(s, delims)], delims)
    ensures Span(s, delims) < |s| ==> s[Span(s, delims)] in delims
  {
    if s != [] && s[0] !in delims {
      SpanFree(s[1..], delims);
      var n := Span(s, delims);
      forall i | 0 <= i < n ensures s[..n][i] !in delims {
        assert i > 0 ==> s[..n][i] == s[1..][..n - 1][i - 1];
      }
    }
  }

  lemma {:induction false} SpanOfFree(t: seq<byte>, rest: seq<byte>, delims: seq<byte>)
    requires Free(t, delims)
    requires rest == [] || rest[0] in delims
    ensures Span(t + rest, delims) == |t|
  {
    if t == [] {
      assert t + rest == rest;
    } else {
      assert (t + rest)[1..] == t[1..] + rest;
      SpanOfFree(t[1..], rest, delims);
    }
  }

  /** Tokens are not empty and hold no delimiter. */
  lemma {:induction false} TokensClean(s: seq<byte>, delims: seq<byte>)
    ensures Clean(Tokens(s, delims), delims)
    decreases |s|
  {
    if s != [] {
      if s[0] in delims {
        TokensClean(s[1..], delims);
      } else {
        SpanFree(s, delims);
        TokensClean(s[Span(s, delims)..], delims);
      }
    }
  }

  lemma {:induction false} DropConcat(a: seq<byte>, b: seq<byte>, delims: seq<byte>)
    ensures Drop(a + b, delims) == Drop(a, delims) + Drop(b, delims)
  {
    if a == [] {
      assert a + b == b;
    } else {
      assert (a + b)[1..] == a[1..] + b;
      DropConcat(a[1..], b, delims);
    }
  }

  lemma {:induction false} DropFree(a: seq<byte>, delims: seq<byte>)
    requires Free(a, delims)
    ensures Drop(a, delims) == a
  {
    if a != [] {
      DropFree(a[1..], delims);
    }
  }

  /** One after the other, the tokens are the string without its delimiters. */
  lemma {:induction false} TokensComplete(s: seq<byte>, delims: seq<byte>)
    ensures Flatten(Tokens(s, delims)) == Drop(s, delims)
    decreases |s|
  {
    if s != [] {
      if s[0] in delims {
        TokensComplete(s[1..], delims);
      } else {
        var n := Span(s, delims);
        SpanFree(s, delims);
        TokensComplete(s[n..], delims);
        DropFree(s[..n], delims);
        DropConcat(s[..n], s[n..], delims);
        assert s[..n] + s[n..] == s;
        assert Tokens(s, delims)[1..] == Tokens(s[n..], delims);
      }
    }
  }

  /** A delimiter cuts: the tokens of what is before it and of what is behind it are all there are. */
  lemma {:induction false} TokensCut(a: seq<byte>, sep: byte, b: seq<byte>, delims: seq<byte>)
    requires sep in delims
    ensures Tokens(a + [sep] + b, delims) == Tokens(a, delims) + Tokens(b, delims)
    decreases |a|
  {
    var s := a + [sep] + b;
    if a == [] {
      assert s[1..] == b;
    } else if a[0] in delims {
      assert s[1..] == a[1..] + [sep] + b;
      TokensCut(a[1..], sep, b, delims);
    } else {
      var n := Span(a, delims);
      SpanFree(a, delims);
      SpanOfFree(a[..n], a[n..] + [sep] + b, delims);
      assert s == a[..n] + (a[n..] + [sep] + b);
      assert s[..n] == a[..n] && s[n..] == a[n..] + [sep] + b;
      TokensCut(a[n..], sep, b, delims);
    }
  }

  lemma {:induction false} TokensWord(t: seq<byte>, delims: seq<byte>)
    requires t != [] && Free(t, delims)
    ensures Tokens(t, delims) == [t]
  {
    SpanOfFree(t, [], delims);
    assert t + [] == t;
    assert t[..|t|] == t && t[|t|..] == [];
  }

  /** Splitting a join of clean tokens gives them back. */
  lemma {:induction false} TokensOfJoin(ts: seq<seq<byte>>, sep: byte, delims: seq<byte>)
    requires sep in delims
    requires Clean(ts, delims)
    ensures Tokens(Join(ts, sep), delims) == ts
    decreases |ts|
  {
    if |ts| == 1 {
      TokensWord(ts[0], delims);
    } else if |ts| > 1 {
      TokensWord(ts[0], delims);
      TokensCut(ts[0], sep, Join(ts[1..], sep), delims);
      TokensOfJoin(ts[1..], sep, delims);
    }
  }

  lemma DropOne(s: seq<byte>, i: nat)
    requires i < |s|
    ensures s[i..][0] == s[i] && s[i..][1..] == s[i + 1..]
  {
  }

  lemma {:induction false} CutToken(s: seq<byte>, p: nat, q: nat, delims: seq<byte>)
    requires p < q <= |s| && s[p] !in delims && Span(s[p..], delims) == q - p
    ensures Tokens(s[p..], delims) == [s[p..q]] + Tokens(s[q..], delims)
  {
    assert s[p..][..q - p] == s[p..q] && s[p..][q - p..] == s[q..];
  }

  /** The first byte from start on that is no delimiter. */
  method SkipDelims(s: seq<byte>, start: nat, delims: seq<byte>) returns (p: nat)
    requires start <= |s|
    ensures start <= p <= |s| && (p < |s| ==> s[p] !in delims)
    ensures Tokens(s[start..], delims) == Tokens(s[p..], delims)
  {
    p := start;
    while p < |s| && s[p] in delims
      invariant start <= p <= |s|
      invariant Tokens(s[start..], delims) == Tokens(s[p..], delims)
    {
      DropOne(s, p);
      p := p + 1;
    }
  }

  /** The first delimiter from start on. */
  method SkipToken(s: seq<byte>, start: nat, delims: seq<byte>) returns (q: nat)
    requires start < |s| && s[start] !in delims
    ensures start < q <= |s| && (q < |s| ==> s[q] in delims)
    ensures Span(s[start..], delims) == q - start
  {
    DropOne(s, start);
    q := start + 1;
    while q < |s| && s[q] !in delims
      invariant start < q <= |s|
      invariant Span(s[start..], delims) == q - start + Span(s[q..], delims)
    {
      DropOne(s, q);
      q := q + 1;
    }
  }

  /** One call of strtok: where the scan resumes is kept between calls. */
  method Strtok(s: seq<byte>, start: nat, delims: seq<byte>) returns (token: Option<seq<byte>>, next: nat)
    requires start <= |s|
    ensures start <= next <= |s|
    ensures token.None? ==> Tokens(s[start..], delims) == []
    ensures token.Some? ==> next > start
    ensures token.Some? ==> Tokens(s[start..], delims) == [token.value] + Tokens(s[next..], delims)
  {
    var p := SkipDelims(s, start, delims);
    if p == |s| {
      return None, p;
    }
    var q := SkipToken(s, p, delims);
    CutToken(s, p, q, delims);
    token := Some(s[p..q]);
    next := if q < |s| then q + 1 else q;
    if q < |s| {
      DropOne(s, q);
    }
  }

  lemma Push(ts: seq<seq<byte>>, t: seq<byte>, us: seq<seq<byte>>)
    ensures ts + ([t] + us) == ts + [t] + us
  {
  }

  method Split(str: seq<byte>, pattern: seq<byte>) returns (tokens: seq<seq<byte>>)
    ensures tokens == Tokens(CString(str), CString(pattern))
  {
    var strc, delims := CString(str), CString(pattern);
    tokens := [];
    var token, next := Strtok(strc, 0, delims);
    assert strc[0..] == strc;
    while token.Some?
      invariant next <= |strc|
      invariant token.Some? ==> Tokens(strc, delims) == tokens + ([token.value] + Tokens(strc[next..], delims))
      invariant token.None? ==> Tokens(strc, delims) == tokens
      decreases |strc| - next, token.Some?
    {
      Push(tokens, token.value, Tokens(strc[next..], delims));
      tokens := tokens + [token.value];
      token, next := Strtok(strc, next, delims);
    }
  }

  // Numbers.

  predicate Space(c: byte) {
    c == 32 || 9 <= c <= 13
  }

  /** The value of a digit, in bases up to 16; 16 when the byte is no digit. */
  function Digit(c: byte): (v: nat) {
    if 48 <= c <= 57 then c - 48
    else if 97 <= c <= 102 then c - 87
    else if 65 <= c <= 70 then c - 55
    else 16
  }

  /** The digits at the front of s, read behind the value before. */
  function ReadDigits(s: seq<byte>, base: nat, before: nat): nat {
    if s == [] || Digit(s[0]) >= base then before
    else ReadDigits(s[1..], base, before * base + Digit(s[0]))
  }

  function SkipSpace(s: seq<byte>): seq<byte> {
    if s != [] && Space(s[0]) then SkipSpace(s[1..]) else s
  }

  /** An optional sign and the digits behind it. */
  function ReadSigned(s: seq<byte>, base: nat): int {
    if s != [] && s[0] == MINUS then 0 - ReadDigits(SkipHex(s[1..], base), base, 0) as int
    else if s != [] && s[0] == PLUS then ReadDigits(SkipHex(s[1..], base), base, 0)
    else ReadDigits(SkipHex(s, base), base, 0)
  }

  /** The prefix 0x that base 16 allows, when a digit follows it. */
  function SkipHex(s: seq<byte>, base: nat): seq<byte> {
    if base == 16 && |s| > 2 && s[0] == DIGIT_0 && s[1] in {88, 120} && Digit(s[2]) < 16 then s[2..] else s
  }

  /** strtol and atoi, without their limits on the value. */
  function Strtol(s: seq<byte>, base: nat): int {
    ReadSigned(SkipSpace(CString(s)), base)
  }

  function HexDigit(v: nat): byte
    requires v < 16
  {
    if v < 10 then 48 + v else 87 + v
  }

  /** Two hex digits, as %02x prints a byte. */
  function HexByte(b: byte): seq<byte> {
    [HexDigit(b / 16), HexDigit(b % 16)]
  }

  /** The text "mac addr error". */
  const MAC_ERROR: seq<byte> := [109, 97, 99, 32, 97, 100, 100, 114, 32, 101, 114, 114, 111, 114]

  function HexPairs(bs: seq<byte>): (ts: seq<seq<byte>>)
    ensures |ts| == |bs|
  {
    seq(|bs|, i requires 0 <= i < |bs| => HexByte(bs[i]))
  }

  function HexMacAddr(mac: seq<byte>): seq<byte> {
    if |mac| != 6 then MAC_ERROR else Join(HexPairs(mac), COLON)
  }

  /** The bytes set_mac is given: none when the text does not split into six parts. */
  function MacBytes(text: seq<byte>): Option<seq<byte>> {
    var parts := Tokens(CString(text), [COLON]);
    if |parts| != 6 then None else Some(ReadHex(parts))
  }

  function ReadHex(parts: seq<seq<byte>>): (bs: seq<byte>)
    ensures |bs| == |parts|
  {
    seq(|parts|, i requires 0 <= i < |parts| => (Strtol(parts[i], 16) % 256) as byte)
  }

  lemma {:induction false} CStringFree(s: seq<byte>)
    requires 0 !in s
    ensures CString(s) == s
  {
    if s != [] {
      CStringFree(s[1..]);
    }
  }

  lemma {:induction false} JoinAvoids(ts: seq<seq<byte>>, sep: byte, c: byte)
    requires c != sep && forall i :: 0 <= i < |ts| ==> c !in ts[i]
    ensures c !in Join(ts, sep)
  {
    if |ts| > 1 {
      JoinAvoids(ts[1..], sep, c);
    }
  }

  /** Splitting a join of NUL-free clean parts gives them back. */
  lemma {:induction false} SplitOfJoin(ts: seq<seq<byte>>, sep: byte)
    requires sep != 0 && Clean(ts, [sep]) && forall i :: 0 <= i < |ts| ==> 0 !in ts[i]
    ensures Tokens(CString(Join(ts, sep)), [sep]) == ts
  {
    JoinAvoids(ts, sep, 0);
    CStringFree(Join(ts, sep));
    TokensOfJoin(ts, sep, [sep]);
  }

  lemma HexByteReads(b: byte)
    ensures HexByte(b) != [] && 0 !in HexByte(b) && Free(HexByte(b), [COLON])
    ensures Strtol(HexByte(b), 16) == b
  {
    var s := HexByte(b);
    CStringFree(s);
    assert Digit(s[0]) == b / 16 && Digit(s[1]) == b % 16;
    assert s[1..] == [s[1]] && s[1..][1..] == [];
    assert SkipHex(s, 16) == s;
    assert ReadDigits(s, 16, 0) == ReadDigits(s[1..], 16, b / 16) == ReadDigits([], 16, b);
  }

  lemma HexPairsRead(bs: seq<byte>)
    ensures Clean(HexPairs(bs), [COLON]) && (forall i :: 0 <= i < |bs| ==> 0 !in HexPairs(bs)[i])
    ensures ReadHex(HexPairs(bs)) == bs
  {
    hide HexByte, Strtol, Free;
    forall i | 0 <= i < |bs|
      ensures HexByte(bs[i]) != [] && 0 !in HexByte(bs[i]) && Free(HexByte(bs[i]), [COLON])
      ensures ReadHex(HexPairs(bs))[i] == bs[i]
    {
      HexByteReads(bs[i]);
    }
  }

  /** Printing a MAC address, splitting the text on ":" and reading base 16 restores the bytes. */
  lemma MacRoundTrip(mac: seq<byte>)
    requires |mac| == 6
    ensures MacBytes(HexMacAddr(mac)) == Some(mac)
  {
    hide ReadHex, HexPairs, Tokens, Join, Clean;
    HexPairsRead(mac);
    SplitOfJoin(HexPairs(mac), COLON);
  }

  /** The text printed for any other length is no MAC address. */
  lemma MacError(mac: seq<byte>)
    requires |mac| != 6
    ensures MacBytes(HexMacAddr(mac)) == None
  {
    assert Free(MAC_ERROR, [COLON]);
    CStringFree(MAC_ERROR);
    TokensWord(MAC_ERROR, [COLON]);
  }

  /** A number as %d prints it. */
  function Decimal(n: nat): (s: seq<byte>)
    ensures s != []
  {
    if n < 10 then [48 + n] else Decimal(n / 10) + [48 + n % 10]
  }

  function Octets(v: nat): (bs: seq<byte>)
    requires v < TWO32
    ensures |bs| == 4
  {
    [v / 0x100_0000, v / 0x1_0000 % 256, v / 256 % 256, v % 256]
  }

  function Decimals(bs: seq<byte>): (ts: seq<seq<byte>>)
    ensures |ts| == |bs|
  {
    seq(|bs|, i requires 0 <= i < |bs| => Decimal(bs[i]))
  }

  function ValueToIP(v: nat): seq<byte>
    requires v < TWO32
  {
    Join(Decimals(Octets(v)), DOT)
  }

  /** A dotted quad read back: four decimal parts, the first the highest. */
  function QuadValue(text: seq<byte>): Option<nat> {
    var ps := Tokens(CString(text), [DOT]);
    if |ps| != 4 then None
    else
      var v := Base256(Strtol(ps[0], 10), Strtol(ps[1], 10), Strtol(ps[2], 10), Strtol(ps[3], 10));
      if v < 0 then None else Some(v)
  }

  function Base256(a: int, b: int, c: int, d: int): int {
    ((a * 256 + b) * 256 + c) * 256 + d
  }

  lemma OctetsValue(v: nat)
    requires v < TWO32
    ensures var o := Octets(v); Base256(o[0], o[1], o[2], o[3]) == v
  {
    assert v / 256 / 256 == v / 0x1_0000 && v / 0x1_0000 / 256 == v / 0x100_0000;
  }

  predicate Digits(s: seq<byte>) {
    forall i :: 0 <= i < |s| ==> 48 <= s[i] <= 57
  }

  lemma {:induction false} ReadDigitsSplit(a: seq<byte>, b: seq<byte>, before: nat)
    requires Digits(a)
    ensures ReadDigits(a + b, 10, before) == ReadDigits(b, 10, ReadDigits(a, 10, before))
  {
    if a == [] {
      assert a + b == b;
    } else {
      assert (a + b)[1..] == a[1..] + b;
      ReadDigitsSplit(a[1..], b, before * 10 + Digit(a[0]));
    }
  }

  lemma {:induction false} DecimalReads(n: nat)
    ensures Digits(Decimal(n)) && ReadDigits(Decimal(n), 10, 0) == n
  {
    if n >= 10 {
      DecimalReads(n / 10);
      ReadDigitsSplit(Decimal(n / 10), [48 + n % 10], 0);
    }
  }

  lemma {:induction false} DecimalStrtol(n: nat)
    ensures 0 !in Decimal(n) && Free(Decimal(n), [DOT]) && Strtol(Decimal(n), 10) == n
  {
    DecimalReads(n);
    CStringFree(Decimal(n));
  }

  /** A dotted quad determines the address it was printed from. */
  lemma QuadRoundTrip(v: nat)
    requires v < TWO32
    ensures QuadValue(ValueToIP(v)) == Some(v)
  {
    var ts := Decimals(Octets(v));
    forall i | 0 <= i < 4 ensures 0 !in ts[i] && Free(ts[i], [DOT]) && Strtol(ts[i], 10) == Octets(v)[i] {
      DecimalStrtol(Octets(v)[i]);
    }
    SplitOfJoin(ts, DOT);
    OctetsValue(v);
  }
}
