/** From a question to a response: the forward zone, reverse zones and overrides, and how forward and
    reverse answers for leases fit together. */
module DnsServe {
  import opened Common
  import opened Hostname
  import opened Ipv4
  import opened DnsNames
  import opened DnsReverse
  import opened Dns
  import opened LeaseManager

  datatype Kind = KindA | KindPTR | KindNS | KindSOA | KindANY | OtherKind

  datatype Record =
    | AddressRecord(owner: Name, ip: IPv4, ttl: nat)
    | PtrRecord(owner: Name, target: string, ttl: nat)
    | NsRecord(owner: Name, server: Name, ttl: nat)
    | SoaRecord(owner: Name, ttl: nat)

  /** An answer of this server, or None when the question is forwarded or refused. */
  datatype Response = Response(nameError: bool, answer: seq<Record>, authority: seq<Record>, additional: seq<Record>)

  // ----- What a response must be -----

  function ApexRecords(cfg: Config, name: Name, kind: Kind, zone: Name): seq<Record> {
    if name != zone then []
    else if kind == KindSOA then [SoaRecord(zone, cfg.ttl)]
    else if kind == KindNS then [NsRecord(name, NsName(cfg), cfg.ttl)]
    else []
  }

  function Finished(cfg: Config, name: Name, kind: Kind, zone: Name, known: bool, records: seq<Record>): Response {
    var answer := ApexRecords(cfg, name, kind, zone) + records;
    Response(!known, answer, if answer == [] then [SoaRecord(zone, 0)] else [],
             if name == zone && kind == KindNS then [AddressRecord(NsName(cfg), cfg.serverIP, cfg.ttl)] else [])
  }

  function AddressAnswer(cfg: Config, name: Name, kind: Kind, a: Answer): Response {
    Finished(cfg, name, kind, cfg.domain, a != NameError,
             if a.Address? && (kind == KindA || kind == KindANY) then [AddressRecord(name, a.ip, a.ttl)] else [])
  }

  /** The PTR data of an address in the subnet: the server's own name, or a live lease's host name. */
  ghost predicate PointsTo(cfg: Config, st: L.State, now: Time, ip: IPv4, target: string, ttl: nat) {
    if ip == cfg.serverIP then target == Text(NsName(cfg)) && ttl == cfg.ttl
    else
      exists c :: c in st.leases && st.leases[c].ip == ip && st.leases[c].hostname != "" && now < st.leases[c].expires
                  && target == st.leases[c].hostname && ttl == LeaseTTL(cfg, st.leases[c], now)
  }

  ghost predicate HasPtr(cfg: Config, st: L.State, now: Time, ip: IPv4) {
    exists target, ttl :: PointsTo(cfg, st, now, ip, target, ttl)
  }

  ghost predicate ReverseAnswer(cfg: Config, st: L.State, now: Time, name: Name, kind: Kind, zone: Name, ip: Option<IPv4>, r: Response) {
    if ip.Some? && HasPtr(cfg, st, now, ip.value) then
      exists target, ttl ::
        && PointsTo(cfg, st, now, ip.value, target, ttl)
        && r == Finished(cfg, name, kind, zone, true, if kind == KindPTR || kind == KindANY then [PtrRecord(name, target, ttl)] else [])
    else r == Finished(cfg, name, kind, zone, name == zone, [])
  }

  function OverrideAnswer(cfg: Config, name: Name, kind: Kind, o: Override): Response {
    if kind == KindA || kind == KindANY then Response(false, [AddressRecord(name, o.ip, cfg.ttl)], [], [])
    else Response(false, [], [SoaRecord(o.zone, 0)], [])
  }

  /** The right response to a question: the forward zone first, then the subnet's reverse zones, then
      overrides. */
  ghost predicate Serves(cfg: Config, leases: L.Config, st: L.State, now: Time, name: Name, kind: Kind, r: Option<Response>)
    requires ValidPrefix(cfg.subnet)
  {
    if InZone(cfg.domain, name) then exists a :: Answers(cfg, leases, st, now, name, a) && r == Some(AddressAnswer(cfg, name, kind, a))
    else
      exists a, o ::
        && IsAuthority(cfg.subnet, name, a) && Overrides(cfg, name, o)
        && if a.zone.Some? then r.Some? && ReverseAnswer(cfg, st, now, name, kind, a.zone.value, a.ip, r.value)
           else if o.Some? then r == Some(OverrideAnswer(cfg, name, kind, o.value))
           else r == None
  }

  // ----- The server -----

  method AnswerLocal(s: Server, m: Manager, now: Time, name: Name, kind: Kind, zone: Name, ip: Option<IPv4>) returns (r: Response)
    requires s.Valid() && m.Valid() && Together(s.cfg, m.cfg) && CanonicalName(name) && IsSuffix(zone, name)
    modifies m`leases, m`offers, m`declined, m`clock
    ensures m.Valid() && L.Expire(m.Tables(), now) == L.Expire(old(m.Tables()), now)
    ensures var st := L.Expire(old(m.Tables()), now);
            if zone == s.cfg.domain then exists a :: Answers(s.cfg, m.cfg, st, now, name, a) && r == AddressAnswer(s.cfg, name, kind, a)
            else ReverseAnswer(s.cfg, st, now, name, kind, zone, ip, r)
  {
    hide Answers, L.Expire, LeaseSafety.Inv, Together, CanonicalName, ValidConfig, PointsTo, StaticName;
    var known := name == zone;
    var answer, additional: seq<Record>, authority: seq<Record> := [], [], [];
    if name == zone {
      if kind == KindSOA {
        answer := answer + [SoaRecord(zone, s.cfg.ttl)];
      } else if kind == KindNS {
        answer := answer + [NsRecord(name, NsName(s.cfg), s.cfg.ttl)];
        additional := additional + [AddressRecord(NsName(s.cfg), s.cfg.serverIP, s.cfg.ttl)];
      }
    }
    ghost var records: seq<Record> := [];
    if zone == s.cfg.domain {
      var a := s.LookupLocalAddress(m, now, name);
      known := a != NameError;
      if a.Address? && (kind == KindA || kind == KindANY) {
        records := [AddressRecord(name, a.ip, a.ttl)];
        answer := answer + [AddressRecord(name, a.ip, a.ttl)];
      }
    } else if ip.Some? {
      var ptr := FindPtr(s, m, now, ip.value);
      if ptr.Some? {
        known := true;
        if kind == KindPTR || kind == KindANY {
          records := [PtrRecord(name, ptr.value.0, ptr.value.1)];
          answer := answer + [PtrRecord(name, ptr.value.0, ptr.value.1)];
        }
      }
    }
    if |answer| == 0 {
      authority := authority + [SoaRecord(zone, 0)];
    }
    r := Response(!known, answer, authority, additional);
    assert r == Finished(s.cfg, name, kind, zone, known, records);
  }

  method FindPtr(s: Server, m: Manager, now: Time, ip: IPv4) returns (r: Option<(string, nat)>)
    requires s.Valid() && m.Valid()
    modifies m`leases, m`offers, m`declined, m`clock
    ensures m.Valid() && L.Expire(m.Tables(), now) == L.Expire(old(m.Tables()), now)
    ensures var st := L.Expire(old(m.Tables()), now);
            && (r.Some? <==> HasPtr(s.cfg, st, now, ip))
            && (r.Some? ==> PointsTo(s.cfg, st, now, ip, r.value.0, r.value.1))
  {
    hide ValidConfig, StaticName, LeaseSafety.Entries;
    ghost var st := L.Expire(m.Tables(), now);
    ExpireTwice(m.Tables(), now);
    if ip == s.cfg.serverIP {
      r := Some((Text(NsName(s.cfg)), s.cfg.ttl));
      assert PointsTo(s.cfg, st, now, ip, r.value.0, r.value.1);
      return;
    }
    var entry := m.FindIP(now, ip);
    assert m.Tables() == st;
    if entry.Some? && entry.value.hostname != "" && now < entry.value.expires {
      r := Some((entry.value.hostname, LeaseTTL(s.cfg, entry.value, now)));
      assert PointsTo(s.cfg, st, now, ip, r.value.0, r.value.1);
      return;
    }
    r := None;
    forall target, ttl ensures !PointsTo(s.cfg, st, now, ip, target, ttl) {
      OneHolder(m.cfg, st, ip);
    }
  }

  lemma OneHolder(leases: L.Config, st: L.State, ip: IPv4)
    requires LeaseSafety.Inv(leases, st)
    ensures forall c, d :: c in st.leases && d in st.leases && st.leases[c].ip == ip && st.leases[d].ip == ip ==> c == d
  {
    hide LeaseSafety.Entries;
  }

  /** One question of class IN, as the server answers it. */
  method Serve(s: Server, m: Manager, now: Time, name: Name, kind: Kind) returns (r: Option<Response>)
    requires s.Valid() && m.Valid() && Together(s.cfg, m.cfg) && CanonicalName(name)
    modifies m`leases, m`offers, m`declined, m`clock
    ensures m.Valid() && L.Expire(m.Tables(), now) == L.Expire(old(m.Tables()), now)
    ensures Serves(s.cfg, m.cfg, L.Expire(old(m.Tables()), now), now, name, kind, r)
  {
    hide Answers, L.Expire, LeaseSafety.Inv, Together, CanonicalName, StaticName, ReverseAnswer, Overrides, RecordName, ValidDNSName,
         IsAuthority, Contains;
    if InZone(s.cfg.domain, name) {
      var local := AnswerLocal(s, m, now, name, kind, s.cfg.domain, None);
      return Some(local);
    }
    r := ServeOutside(s, m, now, name, kind);
  }

  /** A question for a name outside the forward zone. */
  method ServeOutside(s: Server, m: Manager, now: Time, name: Name, kind: Kind) returns (r: Option<Response>)
    requires s.Valid() && m.Valid() && Together(s.cfg, m.cfg) && CanonicalName(name) && !InZone(s.cfg.domain, name)
    modifies m`leases, m`offers, m`declined, m`clock
    ensures m.Valid() && L.Expire(m.Tables(), now) == L.Expire(old(m.Tables()), now)
    ensures Serves(s.cfg, m.cfg, L.Expire(old(m.Tables()), now), now, name, kind, r)
  {
    hide Answers, L.Expire, LeaseSafety.Inv, Together, CanonicalName, StaticName, ReverseAnswer, Overrides, RecordName, ValidDNSName,
         IsAuthority, Contains;
    var a := ReverseAuthority(s.cfg.subnet, name);
    var o := s.LookupExternalAddress(name);
    if a.zone.Some? {
      ZoneAbove(s.cfg.subnet, name, a);
      assert a.zone.value != s.cfg.domain;
      var local := AnswerLocal(s, m, now, name, kind, a.zone.value, a.ip);
      return Some(local);
    }
    if o.Some? {
      return Some(OverrideAnswer(s.cfg, name, kind, o.value));
    }
    return None;
  }

  lemma ZoneAbove(subnet: Prefix, name: Name, a: Authority)
    requires ValidPrefix(subnet) && IsAuthority(subnet, name, a) && a.zone.Some?
    ensures IsSuffix(a.zone.value, name)
  {
    var labels := AddressLabels(name);
    var k: nat :| IsShortest(subnet, labels, k) && a.zone.value == labels[|labels| - k..] + ARPA;
    assert name == labels + ARPA;
  }

  // ----- Forward and reverse -----

  /** A live lease with a registered name. */
  ghost predicate Named(st: L.State, now: Time, c: ClientId) {
    c in st.leases && st.leases[c].hostname != "" && now < st.leases[c].expires
  }

  lemma NamedRegisters(cfg: Config, leases: L.Config, st: L.State, now: Time, c: ClientId)
    requires Together(cfg, leases) && LeaseSafety.Inv(leases, st) && Named(st, now, c)
    ensures var n := LeaseName(st.leases[c].hostname);
            && CanonicalName(n) && InZone(cfg.domain, n) && |cfg.domain| < |n| && Text(n) == st.leases[c].hostname && ValidDNSName(Join(n))
            && Registers(leases, st, c, n) && forall d :: Registers(leases, st, d, n) ==> d == c
  {
    hide CanonicalName, ValidDNSName, RecordName;
    assert LeaseSafety.EntryOk(leases, c, st.leases[c]);
    JoinSplitDomain(cfg);
    LeaseNameText(st.leases[c].hostname, leases.domain);
  }

  /** No configured record, exact or wildcard, carries the name of a lease. */
  lemma LeasedIsNoRecord(cfg: Config, leases: L.Config, n: Name)
    requires Together(cfg, leases) && n != [] && CanonicalName(n) && ValidDNSName(Join(n))
    requires InZone(cfg.domain, n) && |cfg.domain| < |n| && Text(n) !in leases.reserved
    ensures n !in cfg.aRecords && n != NsName(cfg) && n != GatewayName(cfg)
  {
    hide RecordName, Contains;
    JoinSplit(n);
    assert ValidLabel(n[0]);
    assert n[0] != "*";
    ServiceText(cfg);
  }

  lemma ServiceText(cfg: Config)
    requires cfg.domain != []
    ensures Text(NsName(cfg)) == "ns." + Join(cfg.domain) + "." && Text(GatewayName(cfg)) == "gateway." + Join(cfg.domain) + "."
  {
    hide Join;
    JoinMore("ns", cfg.domain);
    JoinMore("gateway", cfg.domain);
    assert "ns" + "." == "ns." && "gateway" + "." == "gateway.";
  }

  /** The A question for a leased host name is answered with its address, for no longer than the lease. */
  lemma ForwardAnswer(cfg: Config, leases: L.Config, st: L.State, now: Time, c: ClientId, r: Option<Response>)
    requires Together(cfg, leases) && LeaseSafety.Inv(leases, st) && Named(st, now, c)
    requires Serves(cfg, leases, st, now, LeaseName(st.leases[c].hostname), KindA, r)
    ensures var n := LeaseName(st.leases[c].hostname);
            r == Some(Response(false, [AddressRecord(n, st.leases[c].ip, LeaseTTL(cfg, st.leases[c], now))], [], []))
    ensures now + LeaseTTL(cfg, st.leases[c], now) * SECOND <= st.leases[c].expires
  {
    hide CanonicalName, ValidDNSName, LeaseTTL, LeaseSafety.Inv, Together;
    var n := LeaseName(st.leases[c].hostname);
    NamedRegisters(cfg, leases, st, now, c);
    LeasedIsNoRecord(cfg, leases, n);
    LeaseTTLBound(cfg, st.leases[c], now);
    var a :| Answers(cfg, leases, st, now, n, a) && r == Some(AddressAnswer(cfg, n, KindA, a));
    assert a == Address(st.leases[c].ip, LeaseTTL(cfg, st.leases[c], now));
    assert ApexRecords(cfg, n, KindA, cfg.domain) + [AddressRecord(n, a.ip, a.ttl)] == [AddressRecord(n, a.ip, a.ttl)];
  }

  /** The PTR question for a leased address is answered with its host name, for no longer than the lease,
      if and only if the forward zone does not contain the reverse name: a domain that is an ancestor
      of it answers first, and without a PTR record. */
  lemma ReverseAnswerIff(cfg: Config, leases: L.Config, st: L.State, now: Time, c: ClientId, r: Option<Response>)
    requires Together(cfg, leases) && LeaseSafety.Inv(leases, st) && Named(st, now, c)
    requires Serves(cfg, leases, st, now, ReverseName(st.leases[c].ip), KindPTR, r)
    ensures var n := ReverseName(st.leases[c].ip);
            var ptr := PtrRecord(n, st.leases[c].hostname, LeaseTTL(cfg, st.leases[c], now));
            && r.Some? && (ptr in r.value.answer <==> !InZone(cfg.domain, n))
            && (!InZone(cfg.domain, n) ==> r == Some(Response(false, [ptr], [], [])))
    ensures now + LeaseTTL(cfg, st.leases[c], now) * SECOND <= st.leases[c].expires
  {
    LeaseTTLBound(cfg, st.leases[c], now);
    hide Serves, ReverseName, InZone, LeaseTTL, LeaseSafety.Inv, Together, ReverseAnswer;
    LeasedInSubnet(cfg, leases, st, c);
    if InZone(cfg.domain, ReverseName(st.leases[c].ip)) {
      ForwardHasNoPtr(cfg, leases, st, now, ReverseName(st.leases[c].ip), r);
    } else {
      ReverseLease(cfg, leases, st, now, c, r);
    }
  }

  lemma ForwardHasNoPtr(cfg: Config, leases: L.Config, st: L.State, now: Time, n: Name, r: Option<Response>)
    requires ValidPrefix(cfg.subnet) && InZone(cfg.domain, n) && Serves(cfg, leases, st, now, n, KindPTR, r)
    ensures r.Some? && forall p :: p in r.value.answer ==> !p.PtrRecord?
  {
    hide Answers;
  }

  lemma ReverseLease(cfg: Config, leases: L.Config, st: L.State, now: Time, c: ClientId, r: Option<Response>)
    requires Together(cfg, leases) && LeaseSafety.Inv(leases, st) && Named(st, now, c)
    requires !InZone(cfg.domain, ReverseName(st.leases[c].ip)) && Serves(cfg, leases, st, now, ReverseName(st.leases[c].ip), KindPTR, r)
    ensures var n := ReverseName(st.leases[c].ip);
            var ptr := PtrRecord(n, st.leases[c].hostname, LeaseTTL(cfg, st.leases[c], now));
            r == Some(Response(false, [ptr], [], [])) && ptr in r.value.answer
  {
    hide Answers, IsAuthority, Overrides, ReverseName, LeaseTTL, PointsTo, LeaseSafety.Inv, InZone, ValidConfig, L.ValidConfig, HasPtr;
    LeasedInSubnet(cfg, leases, st, c);
    var ip := st.leases[c].ip;
    var n := ReverseName(ip);
    var a, o :| IsAuthority(cfg.subnet, n, a) && Overrides(cfg, n, o)
                && if a.zone.Some? then r.Some? && ReverseAnswer(cfg, st, now, n, KindPTR, a.zone.value, a.ip, r.value)
                   else if o.Some? then r == Some(OverrideAnswer(cfg, n, KindPTR, o.value))
                   else r == None;
    ReverseRoundTrip(cfg.subnet, ip, a);
    PtrIs(cfg, leases, st, now, c);
    var ptr := PtrRecord(n, st.leases[c].hostname, LeaseTTL(cfg, st.leases[c], now));
    assert ApexRecords(cfg, n, KindPTR, a.zone.value) + [ptr] == [ptr];
  }

  lemma LeasedInSubnet(cfg: Config, leases: L.Config, st: L.State, c: ClientId)
    requires Together(cfg, leases) && LeaseSafety.Inv(leases, st) && c in st.leases
    ensures ValidPrefix(cfg.subnet) && Contains(cfg.subnet, st.leases[c].ip)
  {
    hide Contains, IsCanonical, RecordName, ValidDNSName;
    assert LeaseSafety.EntryOk(leases, c, st.leases[c]);
  }

  lemma PtrIs(cfg: Config, leases: L.Config, st: L.State, now: Time, c: ClientId)
    requires Together(cfg, leases) && LeaseSafety.Inv(leases, st) && Named(st, now, c)
    ensures var l := st.leases[c];
            && HasPtr(cfg, st, now, l.ip)
            && forall target, ttl :: PointsTo(cfg, st, now, l.ip, target, ttl) ==> target == l.hostname && ttl == LeaseTTL(cfg, l, now)
  {
    hide CanonicalName, ValidDNSName, LeaseTTL, RecordName, Contains;
    assert LeaseSafety.EntryOk(leases, c, st.leases[c]);
    assert PointsTo(cfg, st, now, st.leases[c].ip, st.leases[c].hostname, LeaseTTL(cfg, st.leases[c], now));
  }

  // ----- A domain above the reverse names -----

  /** A configuration that is accepted, with `arpa` as its domain: subnet 10.0.0.0/24, server 10.0.0.1. */
  const ARPA_DNS := Config(["arpa"], 0x0A00_0001, Prefix(0x0A00_0000, 24), map[], 60)
  const ARPA_LEASES := L.Config(0x0A00_000A, 0x0A00_0014, "arpa", HOUR, MINUTE, 10 * MINUTE, {"ns.arpa.", "gateway.arpa."}, true)

  lemma SplitPlain(text: string)
    requires ValidLabel(text)
    ensures Split(text) == [text] && ValidDNSName(text) && CanonicalName([text])
  {
    SplitLabel(text);
    LabelsCanonical([text]);
  }

  lemma ArpaTogether()
    ensures Together(ARPA_DNS, ARPA_LEASES)
  {
    SplitPlain("arpa");
    hide ValidDNSName, CanonicalName;
    assert Join(["arpa"]) == "arpa";
    ArpaPool();
    hide Contains;
    assert "ns." + "arpa" + "." == "ns.arpa." && "gateway." + "arpa" + "." == "gateway.arpa.";
  }

  lemma ArpaPool()
    ensures forall ip: IPv4 :: L.InPool(ARPA_LEASES, ip) ==> Contains(ARPA_DNS.subnet, ip) && ip != ARPA_DNS.serverIP
    ensures Contains(ARPA_DNS.subnet, ARPA_DNS.serverIP)
  {
    Units();
  }

  /** In a new registry the first commit under a free canonical name gives a live lease with that name. */
  lemma FirstName(leases: L.Config, client: ClientId, ip: IPv4, name: string)
    requires L.ValidConfig(leases) && ValidClientId(client) && L.InPool(leases, ip)
    requires IsCanonical(name, leases.domain) && name !in leases.reserved
    ensures var st := L.Step(leases, L.INIT, L.CommitCall(1, client, Some(ip), name, "", true)).0.st;
            LeaseSafety.Inv(leases, st) && Named(st, 1, client) && st.leases[client].hostname == name
  {
    hide L.Encode, LeaseSafety.Inv, NormalizeHostname, IsCanonical, ValidDNSName;
    assert L.Expire(L.EMPTY, 1) == L.EMPTY;
    assert name != "" by {
      NotEmpty(name, leases.domain);
    }
    LeaseRuns.InitOk(leases);
    LeaseRuns.StepKeeps(leases, L.INIT, L.CommitCall(1, client, Some(ip), name, "", true));
  }

  lemma NotEmpty(name: string, domain: string)
    requires IsCanonical(name, domain)
    ensures name != ""
  {
    hide CanonicalDomain, ValidDNSName;
  }

  /** Below any domain that leaves room for it, a host can be leased an address and registered. */
  lemma FirstLease(leases: L.Config, client: ClientId, text: string)
    requires L.ValidConfig(leases) && ValidClientId(client) && ValidLabel(text) && |text| + |leases.domain| < 253
    requires text + "." + leases.domain + "." !in leases.reserved
    ensures var name := text + "." + leases.domain + ".";
            var st := L.Step(leases, L.INIT, L.CommitCall(1, client, Some(leases.poolStart), name, "", true)).0.st;
            LeaseSafety.Inv(leases, st) && Named(st, 1, client) && st.leases[client].hostname == name
  {
    hide L.Step, LeaseSafety.Inv, IsCanonical, ValidDNSName, ValidLabel;
    OneLabelBelow(text, leases.domain);
    FirstName(leases, client, leases.poolStart, text + "." + leases.domain + ".");
  }

  /** With such a domain no PTR question for a live named lease is ever answered with a PTR record. */
  lemma ArpaDomainHidesPtr(cfg: Config, leases: L.Config, st: L.State, now: Time, c: ClientId, r: Option<Response>)
    requires Together(cfg, leases) && cfg.domain == ["arpa"] && LeaseSafety.Inv(leases, st) && Named(st, now, c)
    requires Serves(cfg, leases, st, now, ReverseName(st.leases[c].ip), KindPTR, r)
    ensures r.Some? && forall p :: p in r.value.answer ==> !p.PtrRecord?
  {
    hide Serves, Together, LeaseSafety.Inv;
    LeasedInSubnet(cfg, leases, st, c);
    ArpaContains(st.leases[c].ip);
    ForwardHasNoPtr(cfg, leases, st, now, ReverseName(st.leases[c].ip), r);
  }

  lemma ArpaContains(ip: IPv4)
    ensures InZone(["arpa"], ReverseName(ip))
  {
    var n := ReverseName(ip);
    assert n[|n| - 1..] == ["arpa"];
  }
}
