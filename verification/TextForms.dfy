/** Texts in literal characters: what is printed, and what is read from a text. */
module TextForms {

  import opened Wire
  import opened Text

  // Printing.

  /** The characters of the hexadecimal digits. */
  const DIGITS: seq<byte> := [48, 49, 50, 51, 52, 53, 54, 55, 56, 57, 97, 98, 99, 100, 101, 102]

  function HexPair(b: byte): seq<byte> {
    [DIGITS[b / 16], DIGITS[b % 16]]
  }

  lemma HexByteForm(b: byte)
    ensures HexByte(b) == HexPair(b)
  {
  }

  /** A MAC address is printed as six pairs of hexadecimal digits with colons (58) between them. */
  lemma {:induction false} MacForm(bs: seq<byte>)
    requires |bs| == 6
    ensures HexMacAddr(bs)
         == HexPair(bs[0]) + ([58] + (HexPair(bs[1]) + ([58] + (HexPair(bs[2]) + ([58] + (HexPair(bs[3])
            + ([58] + (HexPair(bs[4]) + ([58] + HexPair(bs[5]))))))))))
  {
    hide HexPair, HexByte;
    forall i | 0 <= i < 6 ensures HexPairs(bs)[i] == HexPair(bs[i]) {
      HexByteForm(bs[i]);
    }
    JoinSix(HexPairs(bs), 58);
  }

  lemma {:induction false} JoinSix(p: seq<seq<byte>>, sep: byte)
    requires |p| == 6
    ensures Join(p, sep)
         == p[0] + ([sep] + (p[1] + ([sep] + (p[2] + ([sep] + (p[3] + ([sep] + (p[4] + ([sep] + p[5])))))))))
  {
    JoinFour(p[2..], sep);
    JoinStep(p, sep);
    JoinStep(p[1..], sep);
  }

  lemma {:induction false} JoinFour(p: seq<seq<byte>>, sep: byte)
    requires |p| == 4
    ensures Join(p, sep) == p[0] + ([sep] + (p[1] + ([sep] + (p[2] + ([sep] + p[3])))))
  {
    JoinStep(p, sep);
    JoinStep(p[1..], sep);
    JoinStep(p[2..], sep);
    assert p[3..] == [p[3]];
  }

  lemma {:induction false} JoinStep(p: seq<seq<byte>>, sep: byte)
    requires |p| > 1
    ensures Join(p, sep) == p[0] + ([sep] + Join(p[1..], sep))
  {
  }

  /** A number below 1000 is printed with its decimal digits, without leading zeros. */
  lemma {:induction false} DecimalForm(n: nat)
    requires n < 1000
    ensures Decimal(n) == if n < 10 then [48 + n]
                          else if n < 100 then [48 + n / 10, 48 + n % 10]
                          else [48 + n / 100, 48 + n / 10 % 10, 48 + n % 10]
  {
    assert n >= 10 ==> Decimal(n / 10) == if n < 100 then [48 + n / 10] else Decimal(n / 100) + [48 + n / 10 % 10];
  }

  lemma OctetsForm(a: byte, b: byte, c: byte, d: byte)
    ensures Octets(a * 0x100_0000 + b * 0x1_0000 + c * 0x100 + d) == [a, b, c, d]
  {
    var v := a * 0x100_0000 + b * 0x1_0000 + c * 0x100 + d;
    assert v / 256 == a * 0x1_0000 + b * 0x100 + c;
    assert v / 0x1_0000 == a * 0x100 + b;
    assert v / 0x100_0000 == a;
  }

  /** An address is printed as its four bytes, the highest first, with dots (46) between them. */
  lemma {:induction false} QuadForm(a: byte, b: byte, c: byte, d: byte)
    ensures ValueToIP(a * 0x100_0000 + b * 0x1_0000 + c * 0x100 + d)
         == Decimal(a) + ([46] + (Decimal(b) + ([46] + (Decimal(c) + ([46] + Decimal(d))))))
  {
    hide Decimal, Octets;
    OctetsForm(a, b, c, d);
    var ts := Decimals([a, b, c, d]);
    assert ts[0] == Decimal(a) && ts[1] == Decimal(b) && ts[2] == Decimal(c) && ts[3] == Decimal(d);
    JoinFour(ts, 46);
  }

  // Reading.

  /** Only what is in front of the first NUL is read. */
  lemma {:induction false} CStringCuts(a: seq<byte>, b: seq<byte>)
    requires 0 !in a
    ensures CString(a + [0] + b) == a
  {
    CStringBehind(a, [0] + b);
    assert a + ([0] + b) == a + [0] + b && a + [] == a;
  }

  lemma {:induction false} CStringBehind(a: seq<byte>, b: seq<byte>)
    requires 0 !in a
    ensures CString(a + b) == a + CString(b)
  {
    if a == [] {
      assert a + b == b;
    } else {
      assert (a + b)[1..] == a[1..] + b;
      CStringBehind(a[1..], b);
    }
  }

  /** Blanks: the space, and the tabs and line ends from 9 to 13. */
  predicate Blanks(s: seq<byte>) {
    forall i :: 0 <= i < |s| ==> s[i] == 32 || 9 <= s[i] <= 13
  }

  lemma {:induction false} BlanksSkipped(sp: seq<byte>, s: seq<byte>)
    requires Blanks(sp) && (s != [] ==> s[0] != 32 && !(9 <= s[0] <= 13))
    ensures SkipSpace(sp + s) == s
  {
    if sp == [] {
      assert sp + s == s;
    } else {
      assert (sp + s)[1..] == sp[1..] + s;
      BlanksSkipped(sp[1..], s);
    }
  }

  /** The text has no decimal digit in front. */
  predicate NoDigit(s: seq<byte>) {
    s == [] || s[0] < 48 || s[0] > 57
  }

  lemma {:induction false} DigitsRead(n: nat, rest: seq<byte>)
    requires NoDigit(rest)
    ensures ReadDigits(Decimal(n) + CString(rest), 10, 0) == n
  {
    DecimalReads(n);
    ReadDigitsSplit(Decimal(n), CString(rest), 0);
  }

  /** A number is read in base 10 behind blanks and an optional sign, up to what is no digit. */
  lemma {:induction false} StrtolForm(sp: seq<byte>, n: nat, rest: seq<byte>)
    requires Blanks(sp) && NoDigit(rest)
    ensures Strtol(sp + (Decimal(n) + rest), 10) == n
    ensures Strtol(sp + ([43] + Decimal(n) + rest), 10) == n
    ensures Strtol(sp + ([45] + Decimal(n) + rest), 10) == 0 - n as int
  {
    hide Decimal, ReadDigits, Strtol;
    DecimalReads(n);
    DigitsRead(n, rest);
    var d := Decimal(n);
    Signless(sp, d, rest);
    Signless(sp, [43] + d, rest);
    Signless(sp, [45] + d, rest);
    Signs(d, CString(rest));
  }

  lemma {:induction false} Signs(d: seq<byte>, s: seq<byte>)
    requires d != [] && d[0] != 43 && d[0] != 45
    ensures ReadSigned(d + s, 10) == ReadDigits(d + s, 10, 0) == ReadSigned([43] + d + s, 10)
    ensures ReadSigned([45] + d + s, 10) == 0 - ReadDigits(d + s, 10, 0) as int
  {
    hide ReadDigits;
    assert ([43] + d + s)[1..] == d + s && ([45] + d + s)[1..] == d + s;
  }

  lemma {:induction false} Signless(sp: seq<byte>, s: seq<byte>, rest: seq<byte>)
    requires Blanks(sp) && s != [] && 0 !in s && s[0] != 32 && !(9 <= s[0] <= 13)
    ensures Strtol(sp + (s + rest), 10) == ReadSigned(s + CString(rest), 10)
  {
    hide ReadSigned;
    CStringBehind(sp, s + rest);
    CStringBehind(s, rest);
    BlanksSkipped(sp, s + CString(rest));
  }

  /** A text without a number in front reads as 0. */
  lemma {:induction false} NoNumber(sp: seq<byte>, rest: seq<byte>)
    requires Blanks(sp) && NoDigit(rest) && (rest != [] ==> rest[0] !in [9, 10, 11, 12, 13, 32, 43, 45])
    ensures Strtol(sp + rest, 10) == 0
  {
    CStringBehind(sp, rest);
    BlanksSkipped(sp, CString(rest));
  }

  /** In base 16 digits may be upper-case letters (here "AF"), and "0x" may stand in front ("0x1f"). */
  lemma HexTexts()
    ensures Strtol([65, 70], 16) == 0xAF && Strtol([48, 120, 49, 102], 16) == 0x1F
  {
    var s, t := [65, 70], [48, 120, 49, 102];
    CStringFree(s);
    CStringFree(t);
    assert s[1..] == [70] && [70][1..] == [] && t[2..] == [49, 102] && [49, 102][1..] == [102] && [102][1..] == [];
    assert ReadDigits(s, 16, 0) == ReadDigits([70], 16, 10) == ReadDigits([], 16, 0xAF);
    assert ReadDigits([49, 102], 16, 0) == ReadDigits([102], 16, 1) == ReadDigits([], 16, 0x1F);
  }

  /** A comma (44) cuts a text into its parts. */
  lemma {:induction false} CommaCuts(a: seq<byte>, b: seq<byte>)
    requires a != [] && b != [] && 44 !in a && 44 !in b && 0 !in a && 0 !in b
    ensures Tokens(CString(a + [44] + b), [44]) == [a, b]
  {
    CStringFree(a + [44] + b);
    TokensCut(a, 44, b, [44]);
    TokensWord(a, [44]);
    TokensWord(b, [44]);
  }
}
