/** Which names the certificate service validates, and who currently answers for them. */
module Validator {
  import opened Common
  import opened Hostname
  import opened Ipv4
  import opened Leases
  import opened LeaseSafety

  /** The DHCP client and address that stand behind a name. */
  datatype Target = Target(ip: Option<IPv4>, client: ClientId)

  const NO_TARGET := Target(None, Utf8(""))

  predicate ProvenTarget(t: Target) {
    t.ip.Some? && t.client != Utf8("")
  }

  /** The current owner of each name that the validator would accept. */
  type Owners = map<string, Target>

  function AsciiLower(s: string): (r: string)
    ensures |r| == |s|
  {
    seq(|s|, i requires 0 <= i < |s| => if 'A' <= s[i] <= 'Z' then (s[i] as int + 32) as char else s[i])
  }

  function CanonicalName(name: string): string {
    AsciiLower(TrimSuffix(name, "."))
  }

  predicate IsAddressLiteral(name: string) {
    var labels := Split(name);
    |labels| == 4 && forall i :: 0 <= i < 4 ==> IsOctet(labels[i])
  }

  predicate ReservedForService(name: string, domain: string) {
    name == "gateway." + domain || name == "ns." + domain || name == "ldap." + domain
  }

  predicate UsableHost(subnet: Prefix, ip: IPv4)
    requires ValidPrefix(subnet)
  {
    && (IsGlobalUnicast(ip) || IsLoopback(ip))
    && Contains(subnet, ip) && ip != Network(subnet) && ip != Broadcast(subnet)
  }

  /** Identifier policy, then the live committed lease of the name. `st` is the lease registry
      after it has expired its tables at `now`. */
  ghost function Lookup(domain: string, subnet: Prefix, cfg: Config, st: State, now: Time, raw: string): Option<Target>
    requires ValidPrefix(subnet)
  {
    var name := CanonicalName(raw);
    if !ValidDNSName(name) || !HasSuffix(name, "." + domain) then None
    else if IsAddressLiteral(name) || ReservedForService(name, domain) then None
    else
      var current := LookupName(cfg, st, name);
      if current.None? || current.value.client == Utf8("") || current.value.expires <= now
         || CanonicalName(current.value.hostname) != name then None
      else if !UsableHost(subnet, current.value.ip) then None
      else Some(Target(Some(current.value.ip), current.value.client))
  }

  /** A successful lookup names the one client whose live lease carries that very host name,
      and always a target that can serve as proof. */
  lemma LookupFindsOwner(domain: string, subnet: Prefix, cfg: Config, st: State, now: Time, raw: string)
    requires ValidPrefix(subnet) && Inv(cfg, st)
    ensures var r := Lookup(domain, subnet, cfg, st, now, raw);
            r.Some? ==>
              && ProvenTarget(r.value)
              && exists c :: c in st.leases && now < st.leases[c].expires
                    && CanonicalName(st.leases[c].hostname) == CanonicalName(raw)
                    && r.value == Target(Some(st.leases[c].ip), c)
                    && forall d :: d in st.leases && st.leases[d].hostname == st.leases[c].hostname ==> d == c
  {
    hide IsCanonical, NormalizeHostname, ValidDNSName, Split;
    var r := Lookup(domain, subnet, cfg, st, now, raw);
    if r.Some? {
      var l := LookupName(cfg, st, CanonicalName(raw)).value;
      var c :| c in st.leases && st.leases[c] == l;
      assert EntryOk(cfg, c, l);
      assert l.hostname != "";
    }
  }

  /** The text of a registered host name is its own canonical form. */
  lemma PlainHostname(name: string, domain: string)
    requires IsCanonical(name, domain)
    ensures name == CanonicalName(name) + "."
  {
    hide CanonicalDomain;
    var n := name[..|name| - 1];
    ValidNameChars(n);
    assert name == n + ".";
    assert TrimSuffix(name, ".") == n;
    forall i | 0 <= i < |n| ensures AsciiLower(n)[i] == n[i] {
      assert n[i] in n;
    }
  }

  /** Exactly what a lookup finds: the live lease that is registered under the name, if the name is not one of
      the built-in ones or an address and the leased address is a usable host of the subnet. */
  lemma LookupIff(subnet: Prefix, cfg: Config, st: State, now: Time, raw: string, c: ClientId)
    requires ValidPrefix(subnet) && ValidConfig(cfg) && Inv(cfg, st)
    requires c in st.leases
    ensures var name := CanonicalName(raw);
            Lookup(cfg.domain, subnet, cfg, st, now, raw) == Some(Target(Some(st.leases[c].ip), c)) <==>
              && st.leases[c].hostname == name + "." && name != "" && now < st.leases[c].expires && UsableHost(subnet, st.leases[c].ip)
              && !IsAddressLiteral(name) && name != "gateway." + cfg.domain && name != "ns." + cfg.domain && name != "ldap." + cfg.domain
  {
    hide IsAddressLiteral, UsableHost, CanonicalName, NormalizeHostname, IsCanonical;
    var name := CanonicalName(raw);
    var r := Lookup(cfg.domain, subnet, cfg, st, now, raw);
    assert EntryOk(cfg, c, st.leases[c]);
    if r == Some(Target(Some(st.leases[c].ip), c)) {
      OwnLease(cfg, st, now, name, c);
    }
    if st.leases[c].hostname == name + "." && name != "" {
      RegisteredFound(cfg, st, name, c);
    }
  }

  lemma OwnLease(cfg: Config, st: State, now: Time, name: string, c: ClientId)
    requires Inv(cfg, st) && c in st.leases && LookupName(cfg, st, name).Some? && LookupName(cfg, st, name).value.client == c
    requires CanonicalName(LookupName(cfg, st, name).value.hostname) == name
    ensures LookupName(cfg, st, name).value == st.leases[c] && st.leases[c].hostname == name + "."
  {
    hide CanonicalName, NormalizeHostname, IsCanonical;
    var l := LookupName(cfg, st, name).value;
    var d :| d in st.leases && st.leases[d] == l;
    assert EntryOk(cfg, d, l);
    PlainHostname(l.hostname, cfg.domain);
  }

  lemma RegisteredFound(cfg: Config, st: State, name: string, c: ClientId)
    requires ValidConfig(cfg) && Inv(cfg, st) && c in st.leases && st.leases[c].hostname == name + "." && name != ""
    ensures LookupName(cfg, st, name) == Some(st.leases[c]) && CanonicalName(name + ".") == name
    ensures ValidDNSName(name) && HasSuffix(name, "." + cfg.domain)
  {
    assert EntryOk(cfg, c, st.leases[c]);
    CanonicalBelow(name, cfg.domain);
    NormalizeIff(name, cfg.domain, name + ".");
    hide NormalizeHostname, IsCanonical, CanonicalName, ValidDNSName, HasSuffix, ToLower, TrimSuffix;
    PlainHostname(name + ".", cfg.domain);
    assert LookupName(cfg, st, name).Some?;
  }

  lemma CanonicalBelow(name: string, domain: string)
    requires ValidDNSName(domain) && IsCanonical(name + ".", domain)
    ensures ValidDNSName(name) && HasSuffix(name, "." + domain) && ToLower(TrimSuffix(name, ".")) == name
  {
    ValidDomainIsCanonical(domain);
    assert (name + ".")[..|name|] == name;
    ValidNameChars(name);
  }

  // ----- The outbound validation -----

  const MAX_RESPONSE := 4096

  /** What the leased host answered on port 80. */
  datatype Fetch = Unreachable | Fetched(status: int, body: string)

  function TrimRight(body: string): string {
    if body != "" && body[|body| - 1] in {' ', '\t', '\r', '\n'} then TrimRight(body[..|body| - 1]) else body
  }

  predicate IsBlank(s: string) {
    forall i :: 0 <= i < |s| ==> s[i] in {' ', '\t', '\r', '\n'}
  }

  predicate EndsBlank(s: string) {
    s != "" && s[|s| - 1] in {' ', '\t', '\r', '\n'}
  }

  predicate Confirms(f: Fetch, keyAuthorization: string) {
    f.Fetched? && f.status == 200 && |f.body| <= MAX_RESPONSE && TrimRight(f.body) == keyAuthorization
  }

  /** One validation: the owner is looked up at `t1`, its host is asked, and at `t2` the owner is looked up
      again. `first` and `second` are the lease tables at these times. */
  ghost function Validate(domain: string, subnet: Prefix, cfg: Config, first: State, t1: Time, fetch: Fetch, second: State, t2: Time,
                          raw: string, keyAuthorization: string): Option<Target>
    requires ValidPrefix(subnet)
  {
    var name := CanonicalName(raw);
    var target := Lookup(domain, subnet, cfg, Expire(first, t1), t1, name);
    if target.None? || !Confirms(fetch, keyAuthorization) then None
    else if Lookup(domain, subnet, cfg, Expire(second, t2), t2, name) != target then None
    else target
  }

  lemma {:induction false} TrimRightKeeps(body: string)
    ensures TrimRight(body) <= body && IsBlank(body[|TrimRight(body)|..]) && !EndsBlank(TrimRight(body))
  {
    if EndsBlank(body) {
      TrimRightKeeps(body[..|body| - 1]);
      var k := |TrimRight(body)|;
      assert body[k..] == body[..|body| - 1][k..] + [body[|body| - 1]];
    }
  }

  lemma {:induction false} TrimRightOf(text: string, blanks: string)
    requires IsBlank(blanks) && !EndsBlank(text)
    ensures TrimRight(text + blanks) == text
  {
    if blanks == "" {
      assert text + blanks == text;
    } else {
      TrimRightOf(text, blanks[..|blanks| - 1]);
      assert (text + blanks)[..|text + blanks| - 1] == text + blanks[..|blanks| - 1];
    }
  }

  lemma TrimRightIff(fetch: Fetch, text: string)
    requires fetch.Fetched?
    ensures TrimRight(fetch.body) == text <==> exists blanks :: fetch.body == text + blanks && IsBlank(blanks) && !EndsBlank(text)
  {
    TrimRightKeeps(fetch.body);
    var k := |TrimRight(fetch.body)|;
    assert fetch.body == fetch.body[..k] + fetch.body[k..];
    if blanks :| fetch.body == text + blanks && IsBlank(blanks) && !EndsBlank(text) {
      TrimRightOf(text, blanks);
    }
  }

  /** A validation succeeds exactly when both lookups find the target and in between the host confirms. */
  lemma ValidateIff(domain: string, subnet: Prefix, cfg: Config, first: State, t1: Time, fetch: Fetch, second: State, t2: Time,
                    raw: string, keyAuthorization: string, target: Target)
    requires ValidPrefix(subnet)
    ensures Validate(domain, subnet, cfg, first, t1, fetch, second, t2, raw, keyAuthorization) == Some(target) <==>
              && Lookup(domain, subnet, cfg, Expire(first, t1), t1, CanonicalName(raw)) == Some(target)
              && Lookup(domain, subnet, cfg, Expire(second, t2), t2, CanonicalName(raw)) == Some(target)
              && fetch.Fetched? && fetch.status == 200 && |fetch.body| <= 4096
              && exists blanks :: fetch.body == keyAuthorization + blanks && IsBlank(blanks) && !EndsBlank(keyAuthorization)
  {
    hide Lookup, TrimRight, IsBlank, EndsBlank;
    if fetch.Fetched? {
      TrimRightIff(fetch, keyAuthorization);
    }
  }
}
