/** Answers of the local DNS zone: static records, leases and wildcards, against the existence rules
    of section 3.3.1 of RFC 4592. */
module Dns {
  import opened Common
  import opened Hostname
  import opened Ipv4
  import opened DnsNames
  import L = Leases
  import opened LeaseManager

  datatype Config = Config(domain: Name, serverIP: IPv4, subnet: Prefix, aRecords: map<Name, IPv4>, ttl: nat)

  function NsName(cfg: Config): Name {
    ["ns"] + cfg.domain
  }

  function GatewayName(cfg: Config): Name {
    ["gateway"] + cfg.domain
  }

  /** A configured record is for a host name, or for a wildcard directly above one. */
  predicate RecordName(n: Name) {
    && n != [] && CanonicalName(n)
    && var host := if n[0] == "*" then n[1..] else n;
       host != [] && ValidDNSName(Join(host))
  }

  /** What the constructor accepts. */
  predicate ValidConfig(cfg: Config) {
    && cfg.domain != [] && CanonicalName(cfg.domain) && ValidDNSName(Join(cfg.domain))
    && (forall n :: n in cfg.aRecords ==> RecordName(n) && n != NsName(cfg) && n != GatewayName(cfg))
    && ValidPrefix(cfg.subnet) && Contains(cfg.subnet, cfg.serverIP)
  }

  /** Both services are set up from one configuration: the same domain, exact local records reserved
      in the lease registry, and a pool inside the subnet that leaves out the server's address. */
  ghost predicate Together(cfg: Config, leases: L.Config) {
    && ValidConfig(cfg) && L.ValidConfig(leases) && leases.domain == Join(cfg.domain)
    && (forall n :: n in cfg.aRecords && InZone(cfg.domain, n) && |cfg.domain| < |n| && n[0] != "*" ==> Text(n) in leases.reserved)
    && (forall ip: IPv4 :: L.InPool(leases, ip) ==> Contains(cfg.subnet, ip) && ip != cfg.serverIP)
  }

  // ----- Which names exist -----

  /** The owner names in the zone data: the apex, the two service names, every record, every live lease. */
  ghost predicate Owner(cfg: Config, leases: L.Config, st: L.State, n: Name) {
    || n == cfg.domain || n == NsName(cfg) || n == GatewayName(cfg) || n in cfg.aRecords
    || (n != [] && CanonicalName(n) && Registered(leases, st, n))
  }

  /** A name exists when it is an owner or an ancestor of one. */
  ghost predicate Exists(cfg: Config, leases: L.Config, st: L.State, n: Name) {
    exists owner :: IsSuffix(n, owner) && Owner(cfg, leases, st, owner)
  }

  /** The longest existing ancestor of a name that does not exist itself. */
  ghost predicate ClosestEncloser(cfg: Config, leases: L.Config, st: L.State, n: Name, ce: Name) {
    && |ce| < |n| && IsSuffix(ce, n) && Exists(cfg, leases, st, ce)
    && forall a :: IsSuffix(a, n) && Exists(cfg, leases, st, a) ==> |a| <= |ce|
  }

  lemma ClosestEncloserUnique(cfg: Config, leases: L.Config, st: L.State, n: Name, a: Name, b: Name)
    requires ClosestEncloser(cfg, leases, st, n, a) && ClosestEncloser(cfg, leases, st, n, b)
    ensures a == b
  {
    hide Exists;
    SuffixOfLength(a, b, n);
  }

  lemma SuffixOfLength(a: Name, b: Name, n: Name)
    requires IsSuffix(a, n) && IsSuffix(b, n) && |a| == |b|
    ensures a == b
  {
  }

  /** Existence is closed under ancestors. */
  lemma AncestorsExist(cfg: Config, leases: L.Config, st: L.State, n: Name, a: Name)
    requires Exists(cfg, leases, st, n) && IsSuffix(a, n)
    ensures Exists(cfg, leases, st, a)
  {
    hide Owner;
    var owner :| IsSuffix(n, owner) && Owner(cfg, leases, st, owner);
    assert IsSuffix(a, owner);
  }

  // ----- The declarative answer -----

  datatype Answer = Address(ip: IPv4, ttl: nat) | NoData | NameError

  function LeaseTTL(cfg: Config, l: L.Lease, now: Time): nat {
    if l.expires <= now then 0
    else if (l.expires - now) / SECOND < cfg.ttl then (l.expires - now) / SECOND else cfg.ttl
  }

  /** No cache keeps a lease's answer beyond the lease; within that and the configured time it lives as long as
      whole seconds allow. */
  lemma LeaseTTLBound(cfg: Config, l: L.Lease, now: Time)
    requires now < l.expires
    ensures now + LeaseTTL(cfg, l, now) * SECOND <= l.expires && LeaseTTL(cfg, l, now) <= cfg.ttl
    ensures LeaseTTL(cfg, l, now) < cfg.ttl ==> l.expires < now + (LeaseTTL(cfg, l, now) + 1) * SECOND
  {
    assert (l.expires - now) / SECOND * SECOND <= l.expires - now;
  }

  function Wildcard(cfg: Config, ce: Name): Answer {
    if ["*"] + ce in cfg.aRecords then Address(cfg.aRecords[["*"] + ce], cfg.ttl) else NameError
  }

  /** `a` is the right answer for a name in the zone: its own record or lease; else no data if it
      exists; else what the wildcard at its closest encloser gives, and never a broader one. */
  ghost predicate Answers(cfg: Config, leases: L.Config, st: L.State, now: Time, n: Name, a: Answer) {
    if n == NsName(cfg) || n == GatewayName(cfg) then a == Address(cfg.serverIP, cfg.ttl)
    else if n in cfg.aRecords then a == Address(cfg.aRecords[n], cfg.ttl)
    else if Registered(leases, st, n) then
      exists c :: Registers(leases, st, c, n) && a == Address(st.leases[c].ip, LeaseTTL(cfg, st.leases[c], now))
    else if Exists(cfg, leases, st, n) then a == NoData
    else exists ce :: ClosestEncloser(cfg, leases, st, n, ce) && a == Wildcard(cfg, ce)
  }

  // ----- The names kept in the server -----

  ghost predicate FromRecord(cfg: Config, n: Name) {
    n != [] && exists r :: r in cfg.aRecords && IsSuffix(n, r)
  }

  ghost predicate StaticName(cfg: Config, n: Name) {
    n == [] || n == cfg.domain || n == NsName(cfg) || n == GatewayName(cfg) || FromRecord(cfg, n)
  }

  /** In the zone, the two tests of the server together decide existence. */
  lemma ExistsIff(cfg: Config, leases: L.Config, st: L.State, n: Name)
    requires Together(cfg, leases) && LeaseSafety.Inv(leases, st) && CanonicalName(n) && InZone(cfg.domain, n)
    ensures Exists(cfg, leases, st, n) <==> StaticName(cfg, n) || L.HasName(leases, st, Text(n))
  {
    hide L.HasName, CanonicalName, ValidDNSName, Registered, RecordName;
    JoinSplitDomain(cfg);
    HasNameFinds(leases, st, n);
    if StaticName(cfg, n) {
      StaticExists(cfg, leases, st, n);
    }
    if owner :| IsSuffix(n, owner) && Owner(cfg, leases, st, owner) {
      OwnerFound(cfg, leases, st, n, owner);
    }
    if owner :| owner != [] && CanonicalName(owner) && IsSuffix(n, owner) && Registered(leases, st, owner) {
      assert Owner(cfg, leases, st, owner);
    }
  }

  lemma JoinSplitDomain(cfg: Config)
    requires ValidConfig(cfg)
    ensures Split(Join(cfg.domain)) == cfg.domain
  {
    JoinSplit(cfg.domain);
  }

  lemma StaticExists(cfg: Config, leases: L.Config, st: L.State, n: Name)
    requires cfg.domain != [] && StaticName(cfg, n) && InZone(cfg.domain, n)
    ensures Exists(cfg, leases, st, n)
  {
    hide Registered, CanonicalName;
    var owner := if FromRecord(cfg, n) then RecordBelow(cfg, n) else n;
    assert IsSuffix(n, owner) && Owner(cfg, leases, st, owner);
  }

  ghost function RecordBelow(cfg: Config, n: Name): (r: Name)
    requires FromRecord(cfg, n)
    ensures r in cfg.aRecords && IsSuffix(n, r)
  {
    var r :| r in cfg.aRecords && IsSuffix(n, r);
    r
  }

  lemma OwnerFound(cfg: Config, leases: L.Config, st: L.State, n: Name, owner: Name)
    requires cfg.domain != [] && InZone(cfg.domain, n) && IsSuffix(n, owner) && Owner(cfg, leases, st, owner)
    ensures StaticName(cfg, n) || (owner != [] && CanonicalName(owner) && Registered(leases, st, owner))
  {
    hide Registered, CanonicalName;
    if owner == cfg.domain {
      SameLength(n, cfg.domain);
    } else if owner == NsName(cfg) || owner == GatewayName(cfg) {
      OneLonger(cfg.domain, n, owner);
    }
  }

  lemma SameLength(n: Name, domain: Name)
    requires IsSuffix(domain, n) && IsSuffix(n, domain)
    ensures n == domain
  {
  }

  lemma OneLonger(domain: Name, n: Name, owner: Name)
    requires IsSuffix(domain, n) && IsSuffix(n, owner) && |owner| == |domain| + 1 && owner[1..] == domain
    ensures n == domain || n == owner
  {
  }

  // ----- External overrides -----

  /** The closest ancestor among the static names, the root excepted, of a name that is not one. */
  ghost predicate StaticEncloser(cfg: Config, n: Name, ce: Name) {
    && 0 < |ce| < |n| && IsSuffix(ce, n) && StaticName(cfg, ce)
    && forall a :: IsSuffix(a, n) && StaticName(cfg, a) ==> |a| <= |ce|
  }

  datatype Override = Override(ip: IPv4, zone: Name)

  /** An override answers its exact name, or a name that does not exist through the wildcard at its
      closest static ancestor. */
  ghost predicate Overrides(cfg: Config, n: Name, r: Option<Override>) {
    if n in cfg.aRecords then r == Some(Override(cfg.aRecords[n], n))
    else if StaticName(cfg, n) then r == None
    else if exists ce :: StaticEncloser(cfg, n, ce) then
      exists ce :: StaticEncloser(cfg, n, ce) && r == if ["*"] + ce in cfg.aRecords then Some(Override(cfg.aRecords[["*"] + ce], ce)) else None
    else r == None
  }

  function Suffixes(n: Name, k: nat): set<Name>
    requires k <= |n|
  {
    set i | 0 <= i < k :: n[i..]
  }

  lemma ExpireTwice(st: L.State, now: Time)
    ensures L.Expire(L.Expire(st, now), now) == L.Expire(st, now)
  {
  }

  lemma LiveAfterExpiry(st: L.State, now: Time)
    ensures forall c :: c in L.Expire(st, now).leases ==> now < L.Expire(st, now).leases[c].expires
  {
  }

  class Server {
    const cfg: Config
    var staticNames: set<Name>

    ghost predicate Valid()
      reads this
    {
      ValidConfig(cfg) && forall n :: n in staticNames <==> StaticName(cfg, n)
    }

    constructor (cfg: Config)
      requires ValidConfig(cfg)
      ensures this.cfg == cfg && Valid()
    {
      hide RecordName, CanonicalName;
      this.cfg := cfg;
      staticNames := {[], cfg.domain, NsName(cfg), GatewayName(cfg)};
      new;
      var todo := cfg.aRecords.Keys;
      while todo != {}
        invariant todo <= cfg.aRecords.Keys
        invariant forall n :: n in staticNames <==>
                    n == [] || n == cfg.domain || n == NsName(cfg) || n == GatewayName(cfg)
                    || (n != [] && exists r :: r in cfg.aRecords && r !in todo && IsSuffix(n, r))
        decreases |todo|
      {
        var record :| record in todo;
        todo := todo - {record};
        AddSuffixes(record);
        assert forall n :: n in Suffixes(record, |record|) <==> n != [] && IsSuffix(n, record) by {
          SuffixesAre(record);
        }
      }
    }

    method AddSuffixes(record: Name)
      modifies this`staticNames
      ensures staticNames == old(staticNames) + Suffixes(record, |record|)
    {
      var name := record;
      while name != []
        invariant IsSuffix(name, record)
        invariant staticNames == old(staticNames) + Suffixes(record, |record| - |name|)
        decreases |name|
      {
        staticNames := staticNames + {name};
        name := name[1..];
      }
    }

    method NameExists(m: Manager, now: Time, name: Name) returns (exists_: bool)
      requires Valid() && m.Valid() && Together(cfg, m.cfg) && CanonicalName(name) && InZone(cfg.domain, name)
      modifies m`leases, m`offers, m`declined, m`clock
      ensures m.Valid() && L.Expire(m.Tables(), now) == L.Expire(old(m.Tables()), now)
      ensures exists_ == Exists(cfg, m.cfg, L.Expire(old(m.Tables()), now), name)
    {
      hide Exists, StaticName, L.HasName, L.Expire, LeaseSafety.Inv, Together, CanonicalName;
      LeaseSafety.ExpireKeeps(m.cfg, m.Tables(), now);
      ExistsIff(cfg, m.cfg, L.Expire(m.Tables(), now), name);
      ExpireTwice(m.Tables(), now);
      if name in staticNames {
        return true;
      }
      exists_ := m.FindNameAtOrBelow(now, Text(name));
    }

    method FindLease(m: Manager, now: Time, name: Name) returns (r: Option<L.Lease>)
      requires Valid() && m.Valid() && Together(cfg, m.cfg)
      requires CanonicalName(name) && InZone(cfg.domain, name) && |cfg.domain| < |name|
      modifies m`leases, m`offers, m`declined, m`clock
      ensures m.Valid() && L.Expire(m.Tables(), now) == L.Expire(old(m.Tables()), now)
      ensures var st := L.Expire(old(m.Tables()), now);
              && (r.Some? <==> Registered(m.cfg, st, name))
              && (r.Some? ==> now < r.value.expires && exists c :: Registers(m.cfg, st, c, name) && st.leases[c] == r.value)
    {
      hide L.HasName, L.LookupName, L.Expire, LeaseSafety.Inv, CanonicalName, StaticName, RecordName, ValidDNSName, Contains, Text;
      JoinSplitDomain(cfg);
      ghost var st := L.Expire(m.Tables(), now);
      LeaseSafety.ExpireKeeps(m.cfg, m.Tables(), now);
      LookupNameFinds(m.cfg, st, name);
      LiveAfterExpiry(m.Tables(), now);
      ExpireTwice(m.Tables(), now);
      r := m.FindName(now, Text(name));
      assert m.Tables() == st;
    }

    /** The answer for a name in the zone. */
    method LookupLocalAddress(m: Manager, now: Time, name: Name) returns (r: Answer)
      requires Valid() && m.Valid() && Together(cfg, m.cfg) && CanonicalName(name) && InZone(cfg.domain, name)
      modifies m`leases, m`offers, m`declined, m`clock
      ensures m.Valid() && L.Expire(m.Tables(), now) == L.Expire(old(m.Tables()), now)
      ensures Answers(cfg, m.cfg, L.Expire(old(m.Tables()), now), now, name, r)
    {
      hide Exists, StaticName, L.Expire, LeaseSafety.Inv, Together, CanonicalName, Registered;
      ghost var st := L.Expire(m.Tables(), now);
      if name == NsName(cfg) || name == GatewayName(cfg) {
        return Address(cfg.serverIP, cfg.ttl);
      }
      if name in cfg.aRecords {
        return Address(cfg.aRecords[name], cfg.ttl);
      }
      ApexIsNoLease(cfg, m.cfg, m.Tables(), now);
      if name == cfg.domain {
        return NoData;
      }
      var lease := FindLease(m, now, name);
      if lease.Some? {
        return Address(lease.value.ip, LeaseTTL(cfg, lease.value, now));
      }
      var known := NameExists(m, now, name);
      if known {
        return NoData;
      }
      var current, found := name, false;
      while !found && current != cfg.domain
        invariant InZone(cfg.domain, current) && IsSuffix(current, name) && CanonicalName(current)
        invariant m.Valid() && L.Expire(m.Tables(), now) == st
        invariant found == Exists(cfg, m.cfg, st, current)
        invariant forall a :: IsSuffix(a, name) && Exists(cfg, m.cfg, st, a) ==> |a| <= |current|
        invariant found ==> current != name
        decreases |current|, !found
      {
        forall a | IsSuffix(a, name) && Exists(cfg, m.cfg, st, a) ensures |a| < |current| {
          if |a| == |current| {
            SuffixOfLength(a, current, name);
          }
        }
        TailCanonical(current);
        current := current[1..];
        found := NameExists(m, now, current);
      }
      assert found ==> ClosestEncloser(cfg, m.cfg, st, name, current);
      return if found then Wildcard(cfg, current) else NameError;
    }

    /** The override for a name outside the zone, which leases never concern. */
    method LookupExternalAddress(name: Name) returns (r: Option<Override>)
      requires Valid()
      ensures Overrides(cfg, name, r)
    {
      hide StaticName, ValidConfig;
      if name in cfg.aRecords {
        return Some(Override(cfg.aRecords[name], name));
      }
      if name in staticNames {
        return None;
      }
      var current, found := name, false;
      while !found && |current| > 1
        invariant IsSuffix(current, name) && (name != [] ==> current != [])
        invariant found == StaticName(cfg, current)
        invariant forall a :: IsSuffix(a, name) && StaticName(cfg, a) ==> |a| <= |current|
        invariant found ==> current != name
        decreases |current|, !found
      {
        forall a | IsSuffix(a, name) && StaticName(cfg, a) ensures |a| < |current| {
          if |a| == |current| {
            SuffixOfLength(a, current, name);
          }
        }
        current := current[1..];
        found := current in staticNames;
      }
      if !found {
        NoStaticEncloser(cfg, name, current);
        return None;
      }
      assert StaticEncloser(cfg, name, current);
      return if ["*"] + current in cfg.aRecords then Some(Override(cfg.aRecords[["*"] + current], current)) else None;
    }
  }

  lemma NoStaticEncloser(cfg: Config, n: Name, top: Name)
    requires |top| <= 1 && IsSuffix(top, n) && !StaticName(cfg, top)
    requires forall a :: IsSuffix(a, n) && StaticName(cfg, a) ==> |a| <= |top|
    ensures forall ce :: !StaticEncloser(cfg, n, ce)
  {
    hide StaticName;
    forall ce ensures !StaticEncloser(cfg, n, ce) {
      if IsSuffix(ce, n) && |ce| == |top| {
        SuffixOfLength(ce, top, n);
      }
    }
  }

  lemma SuffixesAre(record: Name)
    ensures forall n :: n in Suffixes(record, |record|) <==> n != [] && IsSuffix(n, record)
  {
    forall n: Name ensures n in Suffixes(record, |record|) <==> n != [] && IsSuffix(n, record) {
      if n != [] && IsSuffix(n, record) {
        assert n == record[|record| - |n|..];
      }
    }
  }

  lemma TailCanonical(n: Name)
    requires CanonicalName(n) && n != []
    ensures CanonicalName(n[1..])
  {
  }

  /** The apex exists, and no lease is registered under it. */
  lemma ApexIsNoLease(cfg: Config, leases: L.Config, st: L.State, now: Time)
    requires Together(cfg, leases) && LeaseSafety.Inv(leases, st)
    ensures Exists(cfg, leases, L.Expire(st, now), cfg.domain) && !Registered(leases, L.Expire(st, now), cfg.domain)
  {
    hide CanonicalName, ValidDNSName, RecordName;
    JoinSplitDomain(cfg);
    assert IsSuffix(cfg.domain, cfg.domain) && Owner(cfg, leases, L.Expire(st, now), cfg.domain);
    forall c ensures !Registers(leases, L.Expire(st, now), c, cfg.domain) {
      if c in st.leases && st.leases[c].hostname != "" {
        assert LeaseSafety.EntryOk(leases, c, st.leases[c]);
        LeaseNameText(st.leases[c].hostname, leases.domain);
        TextInjective(LeaseName(st.leases[c].hostname), cfg.domain);
      }
    }
  }
}
