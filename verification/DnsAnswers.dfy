/** The responses themselves, record by record, for each kind of name that can be asked for. */
module DnsAnswers {
  import opened Common
  import opened Hostname
  import opened Ipv4
  import opened DnsNames
  import opened DnsReverse
  import opened Dns
  import opened DnsServe

  /** A question about a name with an address: the address record if it is asked for, and else only that the
      name exists, in a way that is not cached. */
  function Found(cfg: Config, name: Name, kind: Kind, ip: IPv4, ttl: nat): Response {
    if kind == KindA || kind == KindANY then Response(false, [AddressRecord(name, ip, ttl)], [], [])
    else Response(false, [], [SoaRecord(cfg.domain, 0)], [])
  }

  lemma InsideServes(cfg: Config, leases: L.Config, st: L.State, now: Time, name: Name, kind: Kind, r: Option<Response>)
    requires ValidPrefix(cfg.subnet) && InZone(cfg.domain, name) && Serves(cfg, leases, st, now, name, kind, r)
    ensures exists a :: Answers(cfg, leases, st, now, name, a) && r == Some(AddressAnswer(cfg, name, kind, a))
  {
    hide Answers, AddressAnswer, InZone;
  }

  lemma BelowApex(cfg: Config, name: Name, kind: Kind, a: Answer)
    requires name != cfg.domain
    ensures AddressAnswer(cfg, name, kind, a) ==
              if a.Address? then Found(cfg, name, kind, a.ip, a.ttl) else Response(a == NameError, [], [SoaRecord(cfg.domain, 0)], [])
  {
    assert forall records: seq<Record> :: [] + records == records;
  }

  lemma LongerThanDomain(cfg: Config)
    ensures NsName(cfg) != cfg.domain && GatewayName(cfg) != cfg.domain
  {
    assert |NsName(cfg)| == |cfg.domain| + 1 && |GatewayName(cfg)| == |cfg.domain| + 1;
  }

  /** The two service names have the server's address. */
  lemma ServiceNameAnswer(cfg: Config, leases: L.Config, st: L.State, now: Time, name: Name, kind: Kind, r: Option<Response>)
    requires ValidPrefix(cfg.subnet) && InZone(cfg.domain, name) && Serves(cfg, leases, st, now, name, kind, r)
    requires name == ["ns"] + cfg.domain || name == ["gateway"] + cfg.domain
    ensures r == Some(Found(cfg, name, kind, cfg.serverIP, cfg.ttl))
  {
    hide AddressAnswer, Found, InZone;
    InsideServes(cfg, leases, st, now, name, kind, r);
    LongerThanDomain(cfg);
    BelowApex(cfg, name, kind, Address(cfg.serverIP, cfg.ttl));
  }

  /** A configured record answers for its own name. */
  lemma RecordAnswer(cfg: Config, leases: L.Config, st: L.State, now: Time, name: Name, kind: Kind, r: Option<Response>)
    requires ValidConfig(cfg) && InZone(cfg.domain, name) && Serves(cfg, leases, st, now, name, kind, r)
    requires name in cfg.aRecords && name != cfg.domain
    ensures r == Some(Found(cfg, name, kind, cfg.aRecords[name], cfg.ttl))
  {
    hide AddressAnswer, Found, InZone, RecordName, CanonicalName, ValidDNSName;
    InsideServes(cfg, leases, st, now, name, kind, r);
    BelowApex(cfg, name, kind, Address(cfg.aRecords[name], cfg.ttl));
  }

  /** The name is in no record, exact or built in, and no live lease has it. */
  ghost predicate Unowned(cfg: Config, leases: L.Config, st: L.State, name: Name) {
    name != ["ns"] + cfg.domain && name != ["gateway"] + cfg.domain && name != cfg.domain && name !in cfg.aRecords && !Registered(leases, st, name)
  }

  /** An empty non-terminal exists: no name error, and no record, although a wildcard may stand above it. */
  lemma EmptyNonTerminalAnswer(cfg: Config, leases: L.Config, st: L.State, now: Time, name: Name, kind: Kind, r: Option<Response>)
    requires ValidPrefix(cfg.subnet) && InZone(cfg.domain, name) && Serves(cfg, leases, st, now, name, kind, r)
    requires Unowned(cfg, leases, st, name) && Exists(cfg, leases, st, name)
    ensures r == Some(Response(false, [], [SoaRecord(cfg.domain, 0)], []))
  {
    hide AddressAnswer, InZone, Registered, Exists;
    InsideServes(cfg, leases, st, now, name, kind, r);
    BelowApex(cfg, name, kind, NoData);
  }

  /** A name that does not exist has the address of the wildcard directly below its closest existing ancestor;
      if there is none there it is an error, whatever wildcards there are further up. */
  lemma WildcardAnswer(cfg: Config, leases: L.Config, st: L.State, now: Time, name: Name, kind: Kind, ce: Name, r: Option<Response>)
    requires ValidPrefix(cfg.subnet) && InZone(cfg.domain, name) && Serves(cfg, leases, st, now, name, kind, r)
    requires Unowned(cfg, leases, st, name) && !Exists(cfg, leases, st, name) && ClosestEncloser(cfg, leases, st, name, ce)
    ensures ["*"] + ce in cfg.aRecords ==> r == Some(Found(cfg, name, kind, cfg.aRecords[["*"] + ce], cfg.ttl))
    ensures ["*"] + ce !in cfg.aRecords ==> r == Some(Response(true, [], [SoaRecord(cfg.domain, 0)], []))
  {
    hide AddressAnswer, Found, InZone, Registered, Exists, ClosestEncloser;
    InsideServes(cfg, leases, st, now, name, kind, r);
    var a :| Answers(cfg, leases, st, now, name, a) && r == Some(AddressAnswer(cfg, name, kind, a));
    var d :| ClosestEncloser(cfg, leases, st, name, d) && a == Wildcard(cfg, d);
    ClosestEncloserUnique(cfg, leases, st, name, ce, d);
    BelowApex(cfg, name, kind, a);
  }

  /** The apex has the zone's own records, and the name server's address with them. */
  lemma ApexAnswer(cfg: Config, leases: L.Config, st: L.State, now: Time, kind: Kind, r: Option<Response>)
    requires ValidPrefix(cfg.subnet) && Serves(cfg, leases, st, now, cfg.domain, kind, r)
    requires cfg.domain !in cfg.aRecords && !Registered(leases, st, cfg.domain)
    ensures r == Some(
      if kind == KindSOA then Response(false, [SoaRecord(cfg.domain, cfg.ttl)], [], [])
      else if kind == KindNS then
        Response(false, [NsRecord(cfg.domain, ["ns"] + cfg.domain, cfg.ttl)], [], [AddressRecord(["ns"] + cfg.domain, cfg.serverIP, cfg.ttl)])
      else Response(false, [], [SoaRecord(cfg.domain, 0)], []))
  {
    hide InZone, Registered, Exists;
    ApexInZone(cfg);
    InsideServes(cfg, leases, st, now, cfg.domain, kind, r);
    LongerThanDomain(cfg);
    ApexExists(cfg, leases, st);
    assert forall records: seq<Record> :: records + [] == records;
  }

  lemma ApexInZone(cfg: Config)
    ensures InZone(cfg.domain, cfg.domain)
  {
  }

  lemma ApexExists(cfg: Config, leases: L.Config, st: L.State)
    ensures Exists(cfg, leases, st, cfg.domain)
  {
    hide Registered;
    assert IsSuffix(cfg.domain, cfg.domain) && Owner(cfg, leases, st, cfg.domain);
  }

  /** Outside all zones of this server an override answers its exact name, or a name below its wildcard that has
      no static name of its own; every other question is left to others. */
  lemma OverrideResponse(cfg: Config, leases: L.Config, st: L.State, now: Time, name: Name, kind: Kind, r: Option<Response>)
    requires ValidPrefix(cfg.subnet) && !InZone(cfg.domain, name) && Serves(cfg, leases, st, now, name, kind, r)
    requires forall a :: IsAuthority(cfg.subnet, name, a) ==> a.zone.None?
    ensures name in cfg.aRecords ==> r == Some(Overridden(cfg, name, kind, cfg.aRecords[name], name))
    ensures name !in cfg.aRecords && StaticName(cfg, name) ==> r == None
    ensures forall ce :: name !in cfg.aRecords && !StaticName(cfg, name) && StaticEncloser(cfg, name, ce) ==>
              r == if ["*"] + ce in cfg.aRecords then Some(Overridden(cfg, name, kind, cfg.aRecords[["*"] + ce], ce)) else None
    ensures name !in cfg.aRecords && !StaticName(cfg, name) && (forall ce :: !StaticEncloser(cfg, name, ce)) ==> r == None
  {
    hide InZone, IsAuthority, StaticName, StaticEncloser;
    var a, o :| IsAuthority(cfg.subnet, name, a) && Overrides(cfg, name, o)
                && if a.zone.Some? then r.Some? && ReverseAnswer(cfg, st, now, name, kind, a.zone.value, a.ip, r.value)
                   else if o.Some? then r == Some(OverrideAnswer(cfg, name, kind, o.value))
                   else r == None;
    forall ce, d | StaticEncloser(cfg, name, ce) && StaticEncloser(cfg, name, d) ensures ce == d {
      StaticEncloserUnique(cfg, name, ce, d);
    }
  }

  lemma StaticEncloserUnique(cfg: Config, n: Name, a: Name, b: Name)
    requires StaticEncloser(cfg, n, a) && StaticEncloser(cfg, n, b)
    ensures a == b
  {
    hide StaticName;
    SuffixOfLength(a, b, n);
  }

  /** The override's address if it is asked for; else no data, in a zone of its own. */
  function Overridden(cfg: Config, name: Name, kind: Kind, ip: IPv4, zone: Name): Response {
    if kind == KindA || kind == KindANY then Response(false, [AddressRecord(name, ip, cfg.ttl)], [], [])
    else Response(false, [], [SoaRecord(zone, 0)], [])
  }

  /** An address of the subnet that is not the server's and has no live named lease: a name error unless it is
      the apex of its reverse zone, and never a PTR record. */
  lemma UnknownReverseAnswer(cfg: Config, leases: L.Config, st: L.State, now: Time, ip: IPv4, kind: Kind, r: Option<Response>)
    requires ValidPrefix(cfg.subnet) && Contains(cfg.subnet, ip) && ip != cfg.serverIP && !InZone(cfg.domain, ReverseName(ip))
    requires forall c :: c in st.leases && st.leases[c].ip == ip ==> st.leases[c].hostname == "" || st.leases[c].expires <= now
    requires Serves(cfg, leases, st, now, ReverseName(ip), kind, r) && kind != KindSOA && kind != KindNS
    ensures r.Some? && r.value.answer == [] && |r.value.authority| == 1
            && r.value.authority[0].SoaRecord? && r.value.authority[0].ttl == 0 && IsSuffix(r.value.authority[0].owner, ReverseName(ip))
            && (r.value.nameError <==> r.value.authority[0].owner != ReverseName(ip))
  {
    hide Answers, IsAuthority, Overrides, ReverseName, InZone, Contains, HasPtr, ReverseAnswer;
    var n := ReverseName(ip);
    var a, o :| IsAuthority(cfg.subnet, n, a) && Overrides(cfg, n, o)
                && if a.zone.Some? then r.Some? && ReverseAnswer(cfg, st, now, n, kind, a.zone.value, a.ip, r.value)
                   else if o.Some? then r == Some(OverrideAnswer(cfg, n, kind, o.value))
                   else r == None;
    ReverseRoundTrip(cfg.subnet, ip, a);
    ZoneAbove(cfg.subnet, n, a);
    NoPtr(cfg, st, now, ip);
    NothingFound(cfg, st, now, n, kind, a.zone.value, a.ip, r.value);
  }

  lemma NoPtr(cfg: Config, st: L.State, now: Time, ip: IPv4)
    requires ip != cfg.serverIP
    requires forall c :: c in st.leases && st.leases[c].ip == ip ==> st.leases[c].hostname == "" || st.leases[c].expires <= now
    ensures !HasPtr(cfg, st, now, ip)
  {
  }

  lemma NothingFound(cfg: Config, st: L.State, now: Time, name: Name, kind: Kind, zone: Name, ip: Option<IPv4>, r: Response)
    requires ReverseAnswer(cfg, st, now, name, kind, zone, ip, r) && kind != KindSOA && kind != KindNS
    requires ip.Some? ==> !HasPtr(cfg, st, now, ip.value)
    ensures r == Response(name != zone, [], [SoaRecord(zone, 0)], [])
  {
    hide HasPtr, PointsTo;
  }
}
