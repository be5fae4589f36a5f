/** The outside parties of the certificate service: the lease registry that says whom a name belongs
    to, and the authority that signs. */
module AcmeOutside {
  import opened Common
  import opened Hostname
  import opened Ipv4
  import opened Validator
  import L = Leases
  import LeaseRuns
  import opened Acme
  import opened AcmeInvariant
  import opened AcmeOrderUpdates
  import opened AcmeSteps
  import opened AcmeIssuance
  import Csr

  /** The validator that answered: its policy and the lease registry it asks. */
  datatype Policy = Policy(domain: string, subnet: Prefix, leases: L.Config)

  /** The owners a step worked with are what the validator finds in the lease tables at that time. */
  ghost predicate AnsweredBy(owners: Owners, p: Policy, st: L.State, now: Time)
    requires ValidPrefix(p.subnet)
  {
    forall n :: n in owners ==> Lookup(p.domain, p.subnet, p.leases, L.Expire(st, now), now, n) == Some(owners[n])
  }

  /** The live lease of `client` carries this very name, and no other lease does. */
  ghost predicate SoleHolder(p: Policy, st: L.State, now: Time, name: string, target: Target) {
    && target.client in st.leases && now < st.leases[target.client].expires
    && target.ip == Some(st.leases[target.client].ip) && L.InPool(p.leases, st.leases[target.client].ip)
    && CanonicalName(st.leases[target.client].hostname) == CanonicalName(name)
    && forall d :: d in st.leases && st.leases[d].hostname == st.leases[target.client].hostname && now < st.leases[d].expires ==> d == target.client
  }

  /** In every run of the lease registry: what a lookup finds is the sole holder of the name. */
  lemma LookupFindsHolder(p: Policy, states: seq<L.System>, events: seq<L.Event>, q: nat, now: Time, name: string, target: Target)
    requires L.ValidConfig(p.leases) && L.IsRun(p.leases, states, events) && q < |states| && ValidPrefix(p.subnet)
    requires Lookup(p.domain, p.subnet, p.leases, L.Expire(states[q].st, now), now, name) == Some(target)
    ensures SoleHolder(p, states[q].st, now, name, target)
  {
    hide L.Step, Lookup, CanonicalName, L.InPool, LeaseSafety.Inv;
    LeaseRuns.RunKeeps(p.leases, states, events, q);
    var st := L.Expire(states[q].st, now);
    LeaseSafety.ExpireKeeps(p.leases, states[q].st, now);
    LookupFindsOwner(p.domain, p.subnet, p.leases, st, now, name);
    PoolEntries(p.leases, st);
    var c' :| c' in st.leases && target == Target(Some(st.leases[c'].ip), c') && CanonicalName(st.leases[c'].hostname) == CanonicalName(name)
              && forall d :: d in st.leases && st.leases[d].hostname == st.leases[c'].hostname ==> d == c';
    forall d | d in states[q].st.leases && now < states[q].st.leases[d].expires ensures d in st.leases {
    }
  }

  /** Whenever the registry answers an issuing step, each name of the certificate is carried by the live
      lease of exactly one client, the one the certificate's account proved control through. */
  lemma CertifiedNameIsLeased(p: Policy, states: seq<L.System>, events: seq<L.Event>, q: nat,
                              before: System, e: Event, c: Certificate, name: string, target: Target)
    requires L.ValidConfig(p.leases) && L.IsRun(p.leases, states, events) && q < |states| && ValidPrefix(p.subnet)
    requires IssuedTo(before, e, c, name, target) && AnsweredBy(e.owners, p, states[q].st, e.now)
    ensures SoleHolder(p, states[q].st, e.now, name, target)
  {
    hide L.Step, Lookup, IssuedBy, L.IsRun, L.ValidConfig;
    LookupFindsHolder(p, states, events, q, e.now, name, target);
  }

  /** One outbound validation: where in the run of the lease registry, and when, its two lookups happened. */
  datatype Validation = Validation(q1: nat, t1: Time, fetch: Fetch, q2: nat, t2: Time)

  /** What the host has to serve: the token that the starting step reads, and the thumbprint of its key. */
  function KeyAuthorization(sys: System, e: Event): string
    requires e.StartCall? && e.authId in sys.mem.auths
  {
    sys.mem.auths[e.authId].token + "." + e.req.key.thumbprint
  }

  /** The proof is what the validator found for the name and key authorization of the starting step. */
  ghost predicate FoundBy(p: Policy, states: seq<L.System>, v: Validation, sent: System, start: Event, proof: Option<Target>)
    requires ValidPrefix(p.subnet) && v.q1 <= v.q2 < |states| && start.StartCall? && start.authId in sent.mem.auths
  {
    proof == Validate(p.domain, p.subnet, p.leases, states[v.q1].st, v.t1, v.fetch, states[v.q2].st, v.t2,
                      sent.mem.auths[start.authId].name, KeyAuthorization(sent, start))
  }

  /** In every run of the certificate service and of the lease registry: a validation that proves a claim
      went out in step `i` for this very name and token; its target was the sole holder of the name at both
      lookups; and in between its host served that token under the key that the account has now. */
  lemma ProvedNameIsLeased(p: Policy, states: seq<L.System>, events: seq<L.Event>, v: Validation,
                           cfg: Config, acmeStates: seq<System>, acmeEvents: seq<Event>, i: nat, m: nat, c: Claim)
    requires L.ValidConfig(p.leases) && L.IsRun(p.leases, states, events) && v.q1 <= v.q2 < |states| && ValidPrefix(p.subnet)
    requires IsRun(cfg, acmeStates, acmeEvents) && m < |acmeEvents| && ProvedBy(acmeStates[m], acmeEvents[m], c)
    requires SentAt(cfg, acmeStates, acmeEvents, i, m, c.id)
    requires FoundBy(p, states, v, acmeStates[i], acmeEvents[i], acmeEvents[m].proof)
    ensures SoleHolder(p, states[v.q1].st, v.t1, c.name, c.target) && SoleHolder(p, states[v.q2].st, v.t2, c.name, c.target)
    ensures SameAuth(acmeStates[i].mem, acmeStates[m].mem, c.id)
    ensures var st := acmeStates[m].mem;
            c.accountId in st.accounts && Confirms(v.fetch, st.auths[c.id].token + "." + st.accounts[c.accountId].thumbprint)
  {
    hide L.Step, Lookup, L.IsRun, L.ValidConfig, Confirms, SystemInv, Step, CanonicalName;
    AcmeRuns.RunKeeps(cfg, acmeStates, acmeEvents, m);
    SentForSame(cfg, acmeStates, acmeEvents, i, m, c.id);
    SentRequest(cfg, acmeStates, acmeEvents, i, m, c.id);
    hide IsRun, SentAt;
    ClaimedName(cfg, acmeStates[m], c);
    LookupFindsHolder(p, states, events, v.q1, v.t1, c.name, c.target);
    LookupFindsHolder(p, states, events, v.q2, v.t2, c.name, c.target);
  }

  lemma ClaimedName(cfg: Config, sys: System, c: Claim)
    requires SystemInv(cfg, sys) && sys.up && c.id in sys.mem.auths && sys.mem.auths[c.id].name == c.name
    ensures CanonicalName(c.name) == c.name
  {
    hide NormalizeHostname, IsCanonical;
    assert AuthOk(cfg, sys.mem, c.id);
    PlainName(cfg.domain, c.name);
  }

  lemma PlainName(domain: string, name: string)
    requires AllowedName(domain, name)
    ensures CanonicalName(name) == name
  {
    hide NormalizeHostname;
    var n := NormalizeHostname(name, domain);
    assert IsCanonical(n, domain);
    assert TrimSuffix(n, ".") == n[..|n| - 1];
    ValidNameChars(name);
  }

  lemma PoolEntries(cfg: L.Config, st: L.State)
    requires LeaseSafety.Inv(cfg, st)
    ensures forall c :: c in st.leases ==> L.InPool(cfg, st.leases[c].ip)
  {
    hide NormalizeHostname, IsCanonical;
  }

  /** Every name that can be ordered can be signed, except the directory's own name and names that read as an
      address; for those the validator finds no owner either. */
  lemma OrderedNameSignable(ca: Csr.Authority, name: string)
    requires ca.hostname == "gateway." + ca.domain && AllowedName(ca.domain, name)
    ensures Csr.CertificateName(ca, name) == if name == "ldap." + ca.domain || IsAddressLiteral(name) then "" else name
  {
    AllowedBelow(ca.domain, name);
    Csr.CertificateNameIff(ca, name);
    hide Csr.CertificateName, IsCanonical, NormalizeHostname, IsAddressLiteral;
  }

  lemma AllowedBelow(domain: string, name: string)
    requires AllowedName(domain, name)
    ensures IsCanonical(name + ".", domain) && ToLower(TrimSuffix(name, ".")) == name && Csr.Ascii(name)
  {
    hide NormalizeHostname;
    var n := NormalizeHostname(name, domain);
    assert IsCanonical(n, domain);
    assert TrimSuffix(n, ".") == n[..|n| - 1] && n == n[..|n| - 1] + ".";
    ValidNameChars(name);
  }

  /** Signing a matching request keeps the contract on names that issuance relies on, for every
      order of a consistent snapshot. */
  lemma SignedNamesKeepContract(cfg: Config, st: State, orderId: Id, ca: Csr.Authority,
                                dnsNames: seq<string>, commonNames: seq<Option<string>>)
    requires Consistent(cfg, st) && orderId in st.orders && ca.domain == cfg.domain
    requires Csr.Matches(ca, dnsNames, commonNames, AuthorizedNames(st, orderId))
    ensures multiset(Csr.SortNames(Csr.Canonical(ca, AuthorizedNames(st, orderId)))) == multiset(AuthorizedNames(st, orderId))
  {
    hide NormalizeHostname, Csr.SortNames, Csr.CertificateName, ValidId, Distinct;
    NamesOfOrder(cfg, st, orderId);
    assert OrderOk(cfg, st, orderId);
    Csr.SignedNames(ca, AuthorizedNames(st, orderId));
  }
}
