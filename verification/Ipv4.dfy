/** IPv4 prefixes and the textual octets of addresses. */
module Ipv4 {
  import opened Common

  function Pow2(n: nat): (r: int)
    ensures 1 <= r
  {
    if n == 0 then 1 else 2 * Pow2(n - 1)
  }

  /** A CIDR prefix; `addr` need not be masked. */
  datatype Prefix = Prefix(addr: IPv4, bits: nat)

  predicate ValidPrefix(p: Prefix) {
    p.bits <= 32
  }

  function BlockSize(p: Prefix): int
    requires ValidPrefix(p)
  {
    Pow2(32 - p.bits)
  }

  predicate Contains(p: Prefix, ip: int)
    requires ValidPrefix(p)
  {
    ip / BlockSize(p) == p.addr / BlockSize(p)
  }

  function Network(p: Prefix): int
    requires ValidPrefix(p)
  {
    p.addr / BlockSize(p) * BlockSize(p)
  }

  function Broadcast(p: Prefix): int
    requires ValidPrefix(p)
  {
    Network(p) + BlockSize(p) - 1
  }

  predicate IsLoopback(ip: IPv4) {
    ip / 0x100_0000 == 127
  }

  /** Not unspecified, loopback, multicast, link-local or the limited broadcast address. */
  predicate IsGlobalUnicast(ip: IPv4) {
    && ip != 0 && ip != 0xFFFF_FFFF && !IsLoopback(ip)
    && ip / 0x1000_0000 != 14
    && ip / 0x1_0000 != 0xA9FE
  }

  /** The prefix is the range from its network address to its broadcast address. */
  lemma ContainsIsRange(p: Prefix, ip: int)
    requires ValidPrefix(p)
    ensures Contains(p, ip) <==> Network(p) <= ip <= Broadcast(p)
  {
    QuotientRange(ip, BlockSize(p), p.addr / BlockSize(p));
  }

  lemma {:induction false} Monotone(a: int, b: int, size: int)
    requires a < b && 0 < size
    ensures a * size + size <= b * size
    decreases b - a
  {
    if a + 1 < b {
      Monotone(a, b - 1, size);
      assert b * size == (b - 1) * size + size;
    } else {
      assert b * size == a * size + size;
    }
  }

  lemma QuotientRange(x: int, size: int, b: int)
    requires 0 < size
    ensures x / size == b <==> b * size <= x < b * size + size
  {
    var q := x / size;
    assert q * size <= x < q * size + size;
    if q < b {
      Monotone(q, b, size);
    } else if b < q {
      Monotone(b, q, size);
    }
  }

  /** Which addresses count as global unicast, by their ranges. */
  lemma GlobalUnicastRanges(ip: IPv4)
    ensures IsGlobalUnicast(ip) <==>
              && ip != 0x0000_0000 && ip != 0xFFFF_FFFF
              && !(0x7F00_0000 <= ip <= 0x7FFF_FFFF)
              && !(0xE000_0000 <= ip <= 0xEFFF_FFFF)
              && !(0xA9FE_0000 <= ip <= 0xA9FE_FFFF)
  {
  }

  predicate IsDigit(c: char) {
    '0' <= c <= '9'
  }

  function ParseDecimal(s: string): (r: nat)
    requires forall i :: 0 <= i < |s| ==> IsDigit(s[i])
  {
    if s == "" then 0
    else
      assert IsDigit(s[|s| - 1]);
      10 * ParseDecimal(s[..|s| - 1]) + (s[|s| - 1] as int - '0' as int)
  }

  /** A decimal number from 0 to 255 without leading zeros, as it prints. */
  predicate IsOctet(s: string) {
    && 1 <= |s| <= 3 && (forall i :: 0 <= i < |s| ==> IsDigit(s[i]))
    && (|s| > 1 ==> s[0] != '0')
    && ParseDecimal(s) <= 255
  }
}
