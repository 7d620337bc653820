/** Prefix masks: the loop that clears host bits, its closed form, and what matching under a mask
    means for addresses. */
module Masks {

  const ALL: bv32 := 0xFFFF_FFFF

  /** The mask of a prefix length: the low 32 - n bits clear. */
  function PrefixMask(n: bv32): bv32
    requires n <= 32
  {
    ALL << (32 - n)
  }

  /** The n highest of the 32 bits are set, and no others. */
  lemma MaskBits(n: bv32, j: bv32)
    requires n <= 32 && j < 32
    ensures PrefixMask(n) & (1 << j) != 0 <==> j + n >= 32
  {
  }

  lemma ClearNext(i: bv32)
    requires i < 32
    ensures (ALL << i) & !(1 << i) == ALL << (i + 1)
  {
  }

  /** The loop over a bitset that starts with all bits set. */
  method ClearHostBits(netmask: bv32) returns (mask: bv32)
    requires netmask <= 32
    ensures mask == PrefixMask(netmask)
  {
    mask := ALL;
    var i: bv32 := 0;
    while i < 32 - netmask
      invariant i <= 32 - netmask
      invariant mask == ALL << i
      decreases 32 - netmask - i
    {
      ClearNext(i);
      mask := mask & !(1 << i);
      i := i + 1;
    }
  }

  /** The mask as handle_mesh_notify computes it. */
  function NotifiedMask(n: bv32): bv32
    requires 2 <= n <= 32
  {
    ALL - (1 << (32 - n)) + 1
  }

  lemma MasksAgree(n: bv32)
    requires 2 <= n <= 32
    ensures NotifiedMask(n) == PrefixMask(n)
  {
  }

  /** One less than the number of addresses under a prefix. */
  function HostCount(n: bv32): bv32
    requires 2 <= n <= 32
  {
    (1 << (32 - n)) - 1
  }

  predicate Matches(ip: bv32, base: bv32, mask: bv32) {
    ip & mask == base
  }

  predicate Between(ip: bv32, low: bv32, high: bv32) {
    low <= ip <= high
  }

  function Highest(base: bv32, count: bv32): bv32 {
    base + count
  }

  /** The low bits of a word, all of them below some place. */
  predicate LowBits(h: bv32) {
    h & (h + 1) == 0
  }

  lemma HostBits(n: bv32)
    requires 2 <= n <= 32
    ensures PrefixMask(n) == !HostCount(n) && LowBits(HostCount(n))
  {
  }

  lemma HostsClear(base: bv32, h: bv32)
    requires Matches(base, base, !h)
    ensures base & h == 0
  {
  }

  lemma HighestIsOr(base: bv32, h: bv32)
    requires base & h == 0
    ensures Highest(base, h) == base | h
  {
  }

  lemma MatchIsBetween(ip: bv32, base: bv32, h: bv32)
    requires LowBits(h) && base & h == 0 && Matches(ip, base, !h)
    ensures Between(ip, base, base | h)
  {
  }

  lemma BetweenBits(ip: bv32, base: bv32, h: bv32)
    requires h & (h + 1) == 0 && base & h == 0 && base <= ip <= base | h
    ensures (ip ^ base) & !h == 0
  {
  }

  lemma BitsMatch(ip: bv32, base: bv32, h: bv32)
    requires base & h == 0 && (ip ^ base) & !h == 0
    ensures ip & !h == base
  {
  }

  lemma BetweenMatches(ip: bv32, base: bv32, h: bv32)
    requires LowBits(h) && base & h == 0 && Between(ip, base, base | h)
    ensures Matches(ip, base, !h)
  {
    BetweenBits(ip, base, h);
    BitsMatch(ip, base, h);
  }

  lemma MatchIffBetween(ip: bv32, base: bv32, h: bv32)
    requires LowBits(h) && Matches(base, base, !h)
    ensures Matches(ip, base, !h) <==> Between(ip, base, Highest(base, h))
  {
    hide LowBits, Matches, Between, Highest;
    HostsClear(base, h);
    HighestIsOr(base, h);
    if Matches(ip, base, !h) {
      MatchIsBetween(ip, base, h);
    }
    if Between(ip, base, Highest(base, h)) {
      BetweenMatches(ip, base, h);
    }
  }

  /** Under an aligned base, matching is lying between the lowest and the highest address; the
      highest does not wrap around, because the base matches too. */
  lemma MatchIsInterval(ip: bv32, base: bv32, n: bv32)
    requires 2 <= n <= 32 && Matches(base, base, PrefixMask(n))
    ensures Matches(ip, base, PrefixMask(n)) <==> Between(ip, base, Highest(base, HostCount(n)))
    ensures Between(base, base, Highest(base, HostCount(n)))
  {
    hide LowBits, Matches, Between, Highest, PrefixMask, HostCount;
    HostBits(n);
    MatchIffBetween(ip, base, HostCount(n));
    MatchIffBetween(base, base, HostCount(n));
  }

  /** A prefix length as the word the loop counts with. */
  function Length(n: nat): (w: bv32)
    requires n <= 32
    ensures w <= 32
  {
    n as bv32
  }
}
