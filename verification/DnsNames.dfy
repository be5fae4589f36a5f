/** Domain names as label sequences, and how the lease registry's textual tests read on them. */
module DnsNames {
  import opened Common
  import opened Hostname
  import opened Leases
  import opened LeaseSafety

  /** A domain name, leftmost label first; the root is the empty sequence. */
  type Name = seq<string>

  /** Lower-case labels without dots, as a query name has after canonicalisation. */
  predicate CanonicalName(n: Name) {
    forall i :: 0 <= i < |n| ==> n[i] != "" && '.' !in n[i] && ToLower(n[i]) == n[i]
  }

  function Text(n: Name): string {
    if n == [] then "." else Join(n) + "."
  }

  function LeaseName(hostname: string): Name
    requires hostname != ""
  {
    Split(hostname[..|hostname| - 1])
  }

  lemma LowerConcat(a: string, b: string)
    ensures ToLower(a + b) == ToLower(a) + ToLower(b)
  {
  }

  lemma {:induction false} JoinLower(n: Name)
    requires n != [] && CanonicalName(n)
    ensures ToLower(Join(n)) == Join(n)
  {
    if |n| > 1 {
      JoinLower(n[1..]);
      LowerConcat(n[0], "." + Join(n[1..]));
      LowerConcat(".", Join(n[1..]));
      assert n[0] + "." + Join(n[1..]) == n[0] + ("." + Join(n[1..]));
    }
  }

  lemma TextTrimmed(n: Name)
    requires n != [] && CanonicalName(n)
    ensures ToLower(TrimSuffix(Text(n), ".")) == Join(n) && Split(Join(n)) == n
  {
    JoinLower(n);
    JoinSplit(n);
  }

  lemma TextInjective(a: Name, b: Name)
    requires a != [] && b != [] && CanonicalName(a) && CanonicalName(b)
    ensures Text(a) == Text(b) ==> a == b
  {
    if Text(a) == Text(b) {
      assert Text(a)[..|Text(a)| - 1] == Join(a) && Text(b)[..|Text(b)| - 1] == Join(b);
      JoinSplit(a);
      JoinSplit(b);
    }
  }

  /** A name strictly below the domain normalises to its own text, or to nothing if it is no host name. */
  lemma NormalizedName(n: Name, domain: string)
    requires CanonicalName(n) && ValidDNSName(domain) && IsSuffix(Split(domain), n) && |Split(domain)| < |n|
    ensures NormalizeHostname(Text(n), domain) == if ValidDNSName(Join(n)) then Text(n) else ""
  {
    hide IsCanonical;
    ValidDomainIsCanonical(domain);
    TextTrimmed(n);
    BelowIsLabelSuffix(Join(n), domain);
    hide ValidDNSName, ToLower, TrimSuffix, CanonicalDomain;
  }

  lemma LabelsCanonical(labels: seq<string>)
    requires forall i :: 0 <= i < |labels| ==> ValidLabel(labels[i])
    ensures CanonicalName(labels)
  {
    forall i | 0 <= i < |labels| ensures '.' !in labels[i] && ToLower(labels[i]) == labels[i] {
      assert ValidLabel(labels[i]);
    }
  }

  lemma CanonicalParts(hostname: string, domain: string)
    requires IsCanonical(hostname, domain)
    ensures |hostname| > 1 && hostname == hostname[..|hostname| - 1] + "." && ValidDNSName(hostname[..|hostname| - 1])
  {
    hide ValidDNSName;
  }

  /** A registered host name is the text of a valid name strictly below the domain. */
  lemma LeaseNameText(hostname: string, domain: string)
    requires IsCanonical(hostname, domain) && ValidDNSName(domain)
    ensures var n := LeaseName(hostname);
            && n != [] && Text(n) == hostname && Join(n) == hostname[..|hostname| - 1] && CanonicalName(n) && ValidDNSName(Join(n))
            && IsSuffix(Split(domain), n) && |Split(domain)| < |n|
  {
    hide IsCanonical, ValidDNSName, CanonicalName, ValidLabel, Split, Join;
    CanonicalParts(hostname, domain);
    var text := hostname[..|hostname| - 1];
    CanonicalLabels(hostname, domain);
    ValidDomainIsCanonical(domain);
    LabelsCanonical(Split(text));
    SplitJoin(text);
  }

  lemma DottedSuffix(a: string, b: string)
    ensures HasSuffix(a + ".", b + ".") <==> HasSuffix(a, b)
  {
    if HasSuffix(a, b) {
      assert a + "." == a[..|a| - |b|] + b + ".";
    }
    if HasSuffix(a + ".", b + ".") {
      assert (a + ".")[|a| - |b|..][..|b|] == a[|a| - |b|..];
    }
  }

  /** The registry's textual test "at or below" is the structural one. */
  lemma AtOrBelowIsSuffix(cfg: Config, l: Lease, n: Name)
    requires ValidDNSName(cfg.domain) && l.hostname != "" && IsCanonical(l.hostname, cfg.domain)
    requires n != [] && CanonicalName(n)
    ensures AtOrBelow(cfg, l, Text(n)) <==> l.hostname !in cfg.reserved && IsSuffix(n, LeaseName(l.hostname))
  {
    hide IsCanonical, ValidDNSName, Join, Split;
    var name := LeaseName(l.hostname);
    LeaseNameText(l.hostname, cfg.domain);
    TextInjective(name, n);
    DottedSuffix(Join(name), "." + Join(n));
    assert "." + Join(n) + "." == "." + Text(n);
    BelowIsLabelSuffix(Join(name), Join(n));
    JoinSplit(name);
    JoinSplit(n);
  }

  /** Every ancestor of a valid host name is one. */
  lemma SuffixValid(t: Name, s: Name)
    requires t != [] && IsSuffix(t, s) && CanonicalName(s) && ValidDNSName(Join(s))
    ensures ValidDNSName(Join(t))
  {
    JoinSplit(s);
    JoinSplit(t);
    if |t| < |s| {
      JoinConcat(s[..|s| - |t|], t);
      assert s == s[..|s| - |t|] + t;
    }
    assert forall i :: 0 <= i < |t| ==> t[i] == s[|s| - |t| + i];
    JoinChars(t);
  }

  // ----- The registry's answers -----

  /** A live lease registers this very name. */
  ghost predicate Registers(cfg: Config, st: State, c: ClientId, n: Name) {
    c in st.leases && st.leases[c].hostname != "" && st.leases[c].hostname !in cfg.reserved && st.leases[c].hostname == Text(n)
  }

  ghost predicate Registered(cfg: Config, st: State, n: Name) {
    exists c :: Registers(cfg, st, c, n)
  }

  predicate InZone(domain: Name, n: Name) {
    IsSuffix(domain, n)
  }

  lemma LookupNameFinds(cfg: Config, st: State, n: Name)
    requires ValidDNSName(cfg.domain) && Inv(cfg, st)
    requires CanonicalName(n) && InZone(Split(cfg.domain), n) && |Split(cfg.domain)| < |n|
    ensures var r := LookupName(cfg, st, Text(n));
            && (r.Some? <==> Registered(cfg, st, n))
            && (r.Some? ==> exists c :: Registers(cfg, st, c, n) && st.leases[c] == r.value)
  {
    hide IsCanonical, NormalizeHostname, ValidDNSName;
    NormalizedName(n, cfg.domain);
    if Registered(cfg, st, n) {
      var c :| Registers(cfg, st, c, n);
      assert EntryOk(cfg, c, st.leases[c]);
      LeaseNameText(st.leases[c].hostname, cfg.domain);
      TextInjective(LeaseName(st.leases[c].hostname), n);
    }
    var r := LookupName(cfg, st, Text(n));
    if r.Some? {
      var c :| c in st.leases && st.leases[c] == r.value;
      assert Registers(cfg, st, c, n);
    }
  }

  /** HasName finds exactly the ancestors of registered names, themselves included. */
  lemma HasNameFinds(cfg: Config, st: State, n: Name)
    requires ValidDNSName(cfg.domain) && Inv(cfg, st) && CanonicalName(n) && InZone(Split(cfg.domain), n)
    ensures HasName(cfg, st, Text(n)) <==> exists owner :: owner != [] && CanonicalName(owner) && IsSuffix(n, owner) && Registered(cfg, st, owner)
  {
    hide IsCanonical, NormalizeHostname, ValidDNSName, AtOrBelow, CanonicalName;
    SearchedIsText(cfg, n);
    if HasName(cfg, st, Text(n)) {
      var c :| c in st.leases && AtOrBelow(cfg, st.leases[c], SearchedName(cfg, Text(n)));
      BelowLease(cfg, st, c, n);
    }
    if owner :| owner != [] && CanonicalName(owner) && IsSuffix(n, owner) && Registered(cfg, st, owner) {
      var c :| Registers(cfg, st, c, owner);
      AboveLease(cfg, st, c, owner, n);
    }
  }

  lemma SearchedIsText(cfg: Config, n: Name)
    requires ValidDNSName(cfg.domain) && CanonicalName(n) && InZone(Split(cfg.domain), n)
    ensures n != [] && SearchedName(cfg, Text(n)) == if n == Split(cfg.domain) || ValidDNSName(Join(n)) then Text(n) else ""
  {
    hide IsCanonical, NormalizeHostname, ValidDNSName;
    TextTrimmed(n);
    SplitJoin(cfg.domain);
    if n != Split(cfg.domain) {
      NormalizedName(n, cfg.domain);
    }
  }

  lemma BelowLease(cfg: Config, st: State, c: ClientId, n: Name)
    requires ValidDNSName(cfg.domain) && Inv(cfg, st) && CanonicalName(n) && n != []
    requires c in st.leases && AtOrBelow(cfg, st.leases[c], Text(n))
    ensures var owner := LeaseName(st.leases[c].hostname);
            owner != [] && CanonicalName(owner) && IsSuffix(n, owner) && Registered(cfg, st, owner)
  {
    hide IsCanonical, ValidDNSName, CanonicalName;
    assert EntryOk(cfg, c, st.leases[c]);
    AtOrBelowIsSuffix(cfg, st.leases[c], n);
    LeaseNameText(st.leases[c].hostname, cfg.domain);
    assert Registers(cfg, st, c, LeaseName(st.leases[c].hostname));
  }

  lemma AboveLease(cfg: Config, st: State, c: ClientId, owner: Name, n: Name)
    requires ValidDNSName(cfg.domain) && Inv(cfg, st) && CanonicalName(n) && InZone(Split(cfg.domain), n)
    requires owner != [] && CanonicalName(owner) && IsSuffix(n, owner) && Registers(cfg, st, c, owner)
    ensures HasName(cfg, st, Text(n))
  {
    hide IsCanonical, ValidDNSName, CanonicalName, NormalizeHostname, AtOrBelow, SearchedName;
    assert EntryOk(cfg, c, st.leases[c]);
    LeaseNameText(st.leases[c].hostname, cfg.domain);
    TextInjective(LeaseName(st.leases[c].hostname), owner);
    SearchedIsText(cfg, n);
    SuffixValid(n, owner);
    AtOrBelowIsSuffix(cfg, st.leases[c], n);
  }
}
