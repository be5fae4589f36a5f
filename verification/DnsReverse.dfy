/** Reverse zones: which part of the in-addr.arpa tree belongs to the subnet, for every prefix length. */
module DnsReverse {
  import opened Common
  import opened Hostname
  import opened Ipv4
  import opened DnsNames

  const ARPA: Name := ["in-addr", "arpa"]

  // ----- Decimal octets -----

  function Digit(d: nat): char
    requires d < 10
  {
    ('0' as int + d) as char
  }

  function Print(n: nat): (s: string)
    ensures |s| >= 1 && forall i :: 0 <= i < |s| ==> IsDigit(s[i])
  {
    if n < 10 then [Digit(n)] else Print(n / 10) + [Digit(n % 10)]
  }

  lemma {:induction false} ParsePrint(n: nat)
    ensures ParseDecimal(Print(n)) == n
    ensures n > 0 ==> Print(n)[0] != '0'
    ensures n < 10 ==> |Print(n)| == 1
    ensures 10 <= n < 100 ==> |Print(n)| == 2
    ensures 100 <= n < 1000 ==> |Print(n)| == 3
  {
    if n < 10 {
      assert [Digit(n)][..0] == "";
    } else {
      ParsePrint(n / 10);
      var s := Print(n / 10) + [Digit(n % 10)];
      assert s[..|s| - 1] == Print(n / 10);
    }
  }

  lemma PrintIsOctet(n: nat)
    requires n < 256
    ensures IsOctet(Print(n)) && ParseDecimal(Print(n)) == n
  {
    hide Print;
    ParsePrint(n);
  }

  lemma {:induction false} PrintParse(s: string)
    requires s != "" && (forall i :: 0 <= i < |s| ==> IsDigit(s[i])) && (|s| > 1 ==> s[0] != '0')
    ensures Print(ParseDecimal(s)) == s
    ensures |s| > 1 ==> ParseDecimal(s) >= 10
    ensures s[0] != '0' ==> ParseDecimal(s) >= 1
  {
    var init := s[..|s| - 1];
    assert s == init + [s[|s| - 1]];
    if |s| > 1 {
      PrintParse(init);
      assert init[0] == s[0];
    } else {
      assert init == "";
    }
  }

  // ----- Blocks of addresses -----

  lemma {:induction false} Pow2Sum(a: nat, b: nat)
    ensures Pow2(a + b) == Pow2(a) * Pow2(b)
  {
    if a > 0 {
      Pow2Sum(a - 1, b);
    }
  }

  lemma DivUnique(x: int, d: int, q: int, r: int)
    requires 0 < d && x == d * q + r && 0 <= r < d
    ensures x / d == q
  {
    var t := x / d - q;
    assert d * t == r - x % d by {
      assert x == d * (x / d) + x % d;
    }
    assert t >= 1 ==> d * t >= d;
    assert t <= -1 ==> d * t <= -d;
  }

  lemma DivNested(q: int, r: int, b: int, m: int)
    requires 0 < b && 0 < m && 0 <= r < b
    ensures (b * q + r) / (b * m) == q / m
  {
    var t := q / m;
    var u := q % m;
    assert q == m * t + u;
    assert b * q + r == (b * m) * t + (b * u + r) by {
      assert b * (m * t + u) == b * m * t + b * u;
    }
    assert 0 <= b * u + r < b * m by {
      assert b * u <= b * (m - 1);
      assert b * (m - 1) == b * m - b;
    }
    assert 0 < b * m;
    DivUnique(b * q + r, b * m, t, b * u + r);
  }

  lemma SmallBlock(p: Prefix, b: int, m: int, q: nat, ip: int)
    requires ValidPrefix(p) && 0 < b && 0 < m && BlockSize(p) == b * m && q * b <= ip < (q + 1) * b
    ensures Contains(p, ip) == Contains(p, q * b)
  {
    assert (q + 1) * b == q * b + b;
    DivNested(q, ip - q * b, b, m);
    DivNested(q, 0, b, m);
  }

  lemma LargeBlock(p: Prefix, b: int, m: int, q: nat)
    requires ValidPrefix(p) && 2 <= m && b == BlockSize(p) * m
    ensures q * b <= q * b + BlockSize(p) < (q + 1) * b
    ensures !Contains(p, q * b) || !Contains(p, q * b + BlockSize(p))
  {
    var s := BlockSize(p);
    assert s * m >= s * 2;
    assert (q + 1) * b == q * b + b;
    DivShift(q * b, s);
  }

  /** An aligned block of 2^size addresses lies in the subnet as a whole exactly when the prefix is no
      longer than the block's and its first address is in the subnet. */
  lemma BlockInside(p: Prefix, size: nat, q: nat)
    requires ValidPrefix(p) && size <= 32
    ensures (forall ip :: q * Pow2(size) <= ip < (q + 1) * Pow2(size) ==> Contains(p, ip))
            <==> p.bits + size <= 32 && Contains(p, q * Pow2(size))
  {
    hide Contains, Pow2;
    var b := Pow2(size);
    if p.bits + size <= 32 {
      Pow2Sum(size, 32 - p.bits - size);
      WholeBlock(p, b, Pow2(32 - p.bits - size), q);
    } else {
      Pow2Sum(32 - p.bits, size - (32 - p.bits));
      TwoAtLeast(size - (32 - p.bits));
      LargeBlock(p, b, Pow2(size - (32 - p.bits)), q);
    }
  }

  lemma TwoAtLeast(n: nat)
    requires n > 0
    ensures Pow2(n) >= 2
  {
  }

  lemma WholeBlock(p: Prefix, b: int, m: int, q: nat)
    requires ValidPrefix(p) && 0 < b && 0 < m && BlockSize(p) == b * m
    ensures (forall ip :: q * b <= ip < (q + 1) * b ==> Contains(p, ip)) <==> Contains(p, q * b)
  {
    hide Contains, BlockSize;
    assert q * b < (q + 1) * b by {
      assert (q + 1) * b == q * b + b;
    }
    forall ip | q * b <= ip < (q + 1) * b ensures Contains(p, ip) == Contains(p, q * b) {
      SmallBlock(p, b, m, q, ip);
    }
  }

  lemma DivShift(x: int, d: int)
    requires 0 < d
    ensures (x + d) / d == x / d + 1
  {
    assert x == d * (x / d) + x % d;
    assert x + d == d * (x / d + 1) + x % d;
    DivUnique(x + d, d, x / d + 1, x % d);
  }

  // ----- Reverse names -----

  /** The last `k` labels are octets, the leading octet of the address being the last label. */
  predicate OctetLabels(labels: Name, k: nat) {
    k <= |labels| && forall i :: |labels| - k <= i < |labels| ==> IsOctet(labels[i])
  }

  /** The addresses that start with the first `k` octets are the block with this index. */
  function Block(labels: Name, k: nat): (q: nat)
    requires OctetLabels(labels, k)
  {
    if k == 0 then 0 else 256 * Block(labels, k - 1) + ParseDecimal(labels[|labels| - k])
  }

  lemma {:induction false} BlockBound(labels: Name, k: nat)
    requires OctetLabels(labels, k) && k <= 4
    ensures Block(labels, k) < Pow2(8 * k)
  {
    hide ParseDecimal;
    Units();
    if k > 0 {
      BlockBound(labels, k - 1);
      assert IsOctet(labels[|labels| - k]);
    }
  }

  lemma Units()
    ensures Pow2(0) == 1 && Pow2(8) == 0x100 && Pow2(16) == 0x1_0000 && Pow2(24) == 0x100_0000 && Pow2(32) == 0x1_0000_0000
  {
    assert Pow2(4) == 16;
    Pow2Sum(4, 4);
    Pow2Sum(8, 8);
    Pow2Sum(16, 8);
    Pow2Sum(16, 16);
  }

  /** The zone of the first `k` octets belongs to the subnet: all of its addresses do. */
  ghost predicate ZoneInside(subnet: Prefix, labels: Name, k: nat)
    requires ValidPrefix(subnet)
  {
    && 1 <= k <= 4 && OctetLabels(labels, k)
    && var unit := Pow2(32 - 8 * k);
       forall ip :: Block(labels, k) * unit <= ip < (Block(labels, k) + 1) * unit ==> Contains(subnet, ip)
  }

  ghost predicate IsShortest(subnet: Prefix, labels: Name, k: nat)
    requires ValidPrefix(subnet)
  {
    ZoneInside(subnet, labels, k) && forall j :: 1 <= j < k ==> !ZoneInside(subnet, labels, j)
  }

  datatype Authority = Authority(zone: Option<Name>, ip: Option<IPv4>)

  /** The labels in front of in-addr.arpa. */
  function AddressLabels(name: Name): Name
    requires IsSuffix(ARPA, name)
  {
    name[..|name| - 2]
  }

  /** What the server claims of a name: the shortest octet-aligned zone that encloses it and lies in
      the subnet, and the address it stands for if it is a full reverse name. */
  ghost predicate IsAuthority(subnet: Prefix, name: Name, a: Authority)
    requires ValidPrefix(subnet)
  {
    if !IsSuffix(ARPA, name) || |name| == 2 then a == Authority(None, None)
    else
      var labels := AddressLabels(name);
      && (a.zone.Some? <==> exists k :: ZoneInside(subnet, labels, k))
      && (a.zone.Some? ==> exists k :: IsShortest(subnet, labels, k) && a.zone.value == labels[|labels| - k..] + ARPA)
      && (a.ip.Some? <==> |labels| == 4 && OctetLabels(labels, 4))
      && (a.ip.Some? ==> a.ip.value == Block(labels, 4))
  }

  lemma ZoneTest(subnet: Prefix, labels: Name, k: nat)
    requires ValidPrefix(subnet) && 1 <= k <= 4 && OctetLabels(labels, k)
    ensures ZoneInside(subnet, labels, k) <==> subnet.bits <= 8 * k && Contains(subnet, Block(labels, k) * Pow2(32 - 8 * k))
  {
    hide Contains;
    BlockInside(subnet, 32 - 8 * k, Block(labels, k));
  }

  /** What the scan knows after the first `i` octets. */
  ghost predicate Scanned(subnet: Prefix, labels: Name, i: nat, zone: Option<Name>)
    requires ValidPrefix(subnet)
  {
    && OctetLabels(labels, i)
    && (zone.None? ==> forall j :: 1 <= j <= i ==> !ZoneInside(subnet, labels, j))
    && (zone.Some? ==> exists k :: IsShortest(subnet, labels, k) && zone.value == labels[|labels| - k..] + ARPA)
  }

  lemma ScannedAll(subnet: Prefix, name: Name, i: nat, zone: Option<Name>)
    requires ValidPrefix(subnet) && IsSuffix(ARPA, name) && |name| > 2 && i <= 4
    requires Scanned(subnet, AddressLabels(name), i, zone)
    requires i == 4 || i == |AddressLabels(name)| || !IsOctet(AddressLabels(name)[|AddressLabels(name)| - 1 - i])
    ensures var labels := AddressLabels(name);
            IsAuthority(subnet, name, Authority(zone, if i == 4 && |labels| == 4 then Some(AddressOf(labels)) else None))
  {
    hide IsOctet, ParseDecimal, Contains, Pow2;
    var labels := AddressLabels(name);
    forall k: nat | ZoneInside(subnet, labels, k) ensures k <= i {
      if i < 4 && i < |labels| {
        OctetsStop(labels, i, k);
      }
    }
  }

  lemma OctetsStop(labels: Name, i: nat, k: nat)
    requires OctetLabels(labels, k) && i < |labels| && !IsOctet(labels[|labels| - 1 - i])
    ensures k <= i
  {
    hide IsOctet;
  }

  function AddressOf(labels: Name): IPv4
    requires OctetLabels(labels, 4)
  {
    BlockBound(labels, 4);
    Units();
    Block(labels, 4)
  }

  lemma ScanStep(subnet: Prefix, labels: Name, i: nat, zone: Option<Name>, zone': Option<Name>)
    requires ValidPrefix(subnet) && i < 4 && i < |labels| && Scanned(subnet, labels, i, zone) && IsOctet(labels[|labels| - 1 - i])
    requires zone' == if zone == None && ZoneInside(subnet, labels, i + 1) then Some(labels[|labels| - 1 - i..] + ARPA) else zone
    ensures Scanned(subnet, labels, i + 1, zone')
  {
    hide IsOctet, ZoneInside;
    if zone == None && ZoneInside(subnet, labels, i + 1) {
      assert IsShortest(subnet, labels, i + 1);
    }
  }

  method ReverseAuthority(subnet: Prefix, name: Name) returns (a: Authority)
    requires ValidPrefix(subnet)
    ensures IsAuthority(subnet, name, a)
  {
    if !IsSuffix(ARPA, name) || |name| == 2 {
      return Authority(None, None);
    }
    hide Contains, IsOctet, ParseDecimal, IsAuthority, ZoneInside, IsShortest, Pow2;
    var labels := name[..|name| - 2];
    var limit := if |labels| < 4 then |labels| else 4;
    var value, zone: Option<Name>, i := 0, None, 0;
    while i < limit && IsOctet(labels[|labels| - 1 - i])
      invariant i <= limit && Scanned(subnet, labels, i, zone) && value == Block(labels, i)
    {
      var octet := labels[|labels| - 1 - i];
      OctetDigits(octet);
      value := 256 * value + ParseDecimal(octet);
      assert OctetLabels(labels, i + 1);
      ZoneTest(subnet, labels, i + 1);
      ghost var before := zone;
      if zone == None && (i + 1) * 8 >= subnet.bits && Contains(subnet, value * Pow2(24 - 8 * i)) {
        zone := Some(labels[|labels| - 1 - i..] + ARPA);
      }
      ScanStep(subnet, labels, i, before, zone);
      i := i + 1;
    }
    ScannedAll(subnet, name, i, zone);
    if i == 4 && |labels| == 4 {
      assert value == AddressOf(labels);
      return Authority(zone, Some(value));
    }
    return Authority(zone, None);
  }

  lemma OctetDigits(s: string)
    requires IsOctet(s)
    ensures forall i :: 0 <= i < |s| ==> IsDigit(s[i])
  {
  }

  // ----- Addresses and their reverse names -----

  function ReverseLabels(ip: IPv4): Name {
    [Print(ip % 0x100), Print(ip / 0x100 % 0x100), Print(ip / 0x1_0000 % 0x100), Print(ip / 0x100_0000)]
  }

  function ReverseName(ip: IPv4): Name {
    ReverseLabels(ip) + ARPA
  }

  lemma ReverseLabelsOctets(ip: IPv4)
    ensures |ReverseLabels(ip)| == 4 && OctetLabels(ReverseLabels(ip), 4) && Block(ReverseLabels(ip), 4) == ip
    ensures IsSuffix(ARPA, ReverseName(ip)) && AddressLabels(ReverseName(ip)) == ReverseLabels(ip)
  {
    hide Print, ParseDecimal, IsOctet;
    PrintIsOctet(ip % 0x100);
    PrintIsOctet(ip / 0x100 % 0x100);
    PrintIsOctet(ip / 0x1_0000 % 0x100);
    PrintIsOctet(ip / 0x100_0000);
    var labels := ReverseLabels(ip);
    assert OctetLabels(labels, 1) && OctetLabels(labels, 2) && OctetLabels(labels, 3) && OctetLabels(labels, 4);
    assert Block(labels, 1) == ip / 0x100_0000;
    assert Block(labels, 2) == ip / 0x1_0000;
    assert Block(labels, 3) == ip / 0x100;
  }

  /** The reverse name of an address stands for that address, and is local exactly when the subnet
      contains it. */
  lemma ReverseRoundTrip(subnet: Prefix, ip: IPv4, a: Authority)
    requires ValidPrefix(subnet) && IsAuthority(subnet, ReverseName(ip), a)
    ensures a.ip == Some(ip)
    ensures a.zone.Some? <==> Contains(subnet, ip)
    ensures a.zone.Some? ==> IsSuffix(ARPA, a.zone.value) && |ARPA| < |a.zone.value| && IsSuffix(a.zone.value, ReverseName(ip))
  {
    hide Contains, ReverseLabels, Block;
    var labels := ReverseLabels(ip);
    ReverseLabelsOctets(ip);
    ZoneTest(subnet, labels, 4);
    Units();
    forall k | ZoneInside(subnet, labels, k) ensures Contains(subnet, ip) {
      InBlock(labels, k);
    }
    if a.zone.Some? {
      var k :| IsShortest(subnet, labels, k) && a.zone.value == labels[|labels| - k..] + ARPA;
    }
  }

  lemma NextOctet(labels: Name, k: nat)
    requires |labels| == 4 && OctetLabels(labels, 4) && k < 4
    ensures OctetLabels(labels, k) && OctetLabels(labels, k + 1)
    ensures 256 * Block(labels, k) <= Block(labels, k + 1) < 256 * Block(labels, k) + 256
  {
    hide ParseDecimal;
    assert IsOctet(labels[4 - (k + 1)]);
  }

  /** The full address lies in the block of each of its leading parts. */
  lemma InBlock(labels: Name, k: nat)
    requires |labels| == 4 && OctetLabels(labels, 4) && 1 <= k <= 4
    ensures Block(labels, k) * Pow2(32 - 8 * k) <= Block(labels, 4) < (Block(labels, k) + 1) * Pow2(32 - 8 * k)
  {
    hide Pow2, Block, IsOctet;
    Units();
    NextOctet(labels, 1);
    NextOctet(labels, 2);
    NextOctet(labels, 3);
    if k == 1 {
      assert Pow2(32 - 8 * k) == 0x100_0000;
    } else if k == 2 {
      assert Pow2(32 - 8 * k) == 0x1_0000;
    } else if k == 3 {
      assert Pow2(32 - 8 * k) == 0x100;
    } else {
      assert Pow2(32 - 8 * k) == 1;
    }
  }

  /** Conversely a full reverse name within the canonical form is the name of the address it stands for. */
  lemma ReverseNameOf(name: Name, subnet: Prefix, a: Authority)
    requires ValidPrefix(subnet) && IsAuthority(subnet, name, a) && a.ip.Some?
    ensures name == ReverseName(a.ip.value)
  {
    hide Contains, Print, ParseDecimal, ZoneInside, IsShortest;
    var labels := AddressLabels(name);
    PrintedOctets(labels);
    assert name == labels + ARPA;
  }

  lemma PrintedOctets(labels: Name)
    requires |labels| == 4 && OctetLabels(labels, 4)
    ensures 0 <= Block(labels, 4) < 0x1_0000_0000 && labels == ReverseLabels(Block(labels, 4))
  {
    hide Print, ParseDecimal;
    forall i | 0 <= i < 4 ensures IsOctet(labels[i]) && Print(ParseDecimal(labels[i])) == labels[i] {
      PrintParse(labels[i]);
    }
    assert OctetLabels(labels, 1) && OctetLabels(labels, 2) && OctetLabels(labels, 3);
    assert Block(labels, 1) == ParseDecimal(labels[3]);
    assert Block(labels, 2) == 256 * Block(labels, 1) + ParseDecimal(labels[2]);
    assert Block(labels, 3) == 256 * Block(labels, 2) + ParseDecimal(labels[1]);
    OctetsOf(ParseDecimal(labels[3]), ParseDecimal(labels[2]), ParseDecimal(labels[1]), ParseDecimal(labels[0]));
  }

  lemma OctetsOf(a: nat, b: nat, c: nat, d: nat)
    requires a < 256 && b < 256 && c < 256 && d < 256
    ensures var ip := 256 * (256 * (256 * a + b) + c) + d;
            ip < 0x1_0000_0000 && ip % 0x100 == d && ip / 0x100 % 0x100 == c && ip / 0x1_0000 % 0x100 == b && ip / 0x100_0000 == a
  {
    var ip := 256 * (256 * (256 * a + b) + c) + d;
    assert ip / 0x100 == 256 * (256 * a + b) + c;
    assert ip / 0x1_0000 == 256 * a + b;
  }

  lemma ReverseNameCanonical(ip: IPv4)
    ensures CanonicalName(ReverseName(ip))
  {
    hide Print;
    var n := ReverseName(ip);
    forall i | 0 <= i < 4 ensures n[i] != "" && '.' !in n[i] && ToLower(n[i]) == n[i] {
      assert forall k :: 0 <= k < |n[i]| ==> IsDigit(n[i][k]);
      assert forall k :: 0 <= k < |n[i]| ==> LowerChar(n[i][k]) == n[i][k];
    }
    assert ToLower("in-addr") == "in-addr" && ToLower("arpa") == "arpa";
  }
}
