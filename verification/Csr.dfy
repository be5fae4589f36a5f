/** The names the certificate authority copies from a signing request. */
module Csr {
  import opened Common
  import opened Hostname
  import opened Validator

  /** The authority's configured domain, and the host name of the gateway derived from it. */
  datatype Authority = Authority(domain: string, hostname: string)

  function TrimPrefix(s: string, t: string): string {
    if t <= s then s[|t|..] else s
  }

  predicate Ascii(s: string) {
    forall i :: 0 <= i < |s| ==> s[i] as int <= 127
  }

  /** The canonical form of a name that may stand in a client certificate, or "". */
  function CertificateName(ca: Authority, raw: string): string {
    if !Ascii(raw) then ""
    else
      var name := ToLower(TrimSuffix(raw, "."));
      if IsAddressLiteral(name) then ""
      else
        var canonical := TrimSuffix(NormalizeHostname(name, ca.domain), ".");
        var domain := TrimPrefix(ca.hostname, "gateway.");
        if name == "" || canonical != name || name == ca.hostname || name == "ns." + domain || name == "ldap." + domain then ""
        else canonical
  }

  /** Exactly which names may stand in a certificate, in any spelling: ASCII host names below the domain other
      than the built-in ones and addresses; each in its lower-case form without the root dot. */
  lemma CertificateNameIff(ca: Authority, raw: string)
    requires ca.hostname == "gateway." + ca.domain
    ensures var name := ToLower(TrimSuffix(raw, "."));
            CertificateName(ca, raw) ==
              if Ascii(raw) && IsCanonical(name + ".", ca.domain) && !IsAddressLiteral(name)
                 && name != "gateway." + ca.domain && name != "ns." + ca.domain && name != "ldap." + ca.domain then name else ""
  {
    var name := ToLower(TrimSuffix(raw, "."));
    assert TrimPrefix(ca.hostname, "gateway.") == ca.domain;
    PlainIff(name, ca.domain);
    hide NormalizeHostname, IsCanonical, IsAddressLiteral, ToLower, TrimSuffix, TrimPrefix;
  }

  lemma PlainIff(name: string, domain: string)
    ensures name != "" && TrimSuffix(NormalizeHostname(name, domain), ".") == name <==> IsCanonical(name + ".", domain)
  {
    var n := NormalizeHostname(name, domain);
    assert (name + ".")[..|name|] == name;
    if n != "" {
      assert IsCanonical(n, domain);
      assert n == n[..|n| - 1] + "." && TrimSuffix(n, ".") == n[..|n| - 1];
    }
    if IsCanonical(name + ".", domain) {
      ValidNameChars(name);
      hide CanonicalDomain, ToLower, NormalizeHostname;
      NormalizeIff(name, domain, name + ".");
      assert TrimSuffix(name + ".", ".") == name;
    }
  }

  function Canonical(ca: Authority, names: seq<string>): (r: seq<string>)
    ensures |r| == |names|
  {
    seq(|names|, i requires 0 <= i < |names| => CertificateName(ca, names[i]))
  }

  ghost predicate DistinctNames(names: seq<string>) {
    forall i, j :: 0 <= i < j < |names| ==> names[i] != names[j]
  }

  // ----- Sorting -----

  predicate NameLe(a: string, b: string) {
    a == "" || (b != "" && (a[0] < b[0] || (a[0] == b[0] && NameLe(a[1..], b[1..]))))
  }

  lemma {:induction false} NameOrder(a: string, b: string, c: string)
    ensures NameLe(a, b) || NameLe(b, a)
    ensures NameLe(a, b) && NameLe(b, a) ==> a == b
    ensures NameLe(a, b) && NameLe(b, c) ==> NameLe(a, c)
  {
    if a != "" && b != "" {
      NameOrder(a[1..], b[1..], if c == "" then "" else c[1..]);
      assert a == [a[0]] + a[1..] && b == [b[0]] + b[1..];
    }
  }

  ghost predicate SortedNames(names: seq<string>) {
    forall i, j :: 0 <= i < j < |names| ==> NameLe(names[i], names[j])
  }

  function InsertName(names: seq<string>, x: string): (r: seq<string>)
    requires SortedNames(names)
    ensures SortedNames(r) && multiset(r) == multiset(names) + multiset{x}
  {
    if names == [] then [x]
    else
      var n := |names| - 1;
      assert names == names[..n] + [names[n]];
      NameOrder(x, names[n], names[n]);
      if NameLe(names[n], x) then
        InsertLast(names, x);
        names + [x]
      else
        var r := InsertName(names[..n], x);
        InsertBefore(names, x, r);
        r + [names[n]]
  }

  lemma InsertLast(names: seq<string>, x: string)
    requires SortedNames(names) && names != [] && NameLe(names[|names| - 1], x)
    ensures SortedNames(names + [x])
  {
    hide NameLe;
    forall i | 0 <= i < |names| ensures NameLe(names[i], x) {
      if i < |names| - 1 {
        NameOrder(names[i], names[|names| - 1], x);
      }
    }
  }

  lemma InsertBefore(names: seq<string>, x: string, r: seq<string>)
    requires SortedNames(names) && names != [] && NameLe(x, names[|names| - 1])
    requires SortedNames(r) && multiset(r) == multiset(names[..|names| - 1]) + multiset{x}
    ensures SortedNames(r + [names[|names| - 1]])
  {
    hide NameLe;
    var last := names[|names| - 1];
    forall i | 0 <= i < |r| ensures NameLe(r[i], last) {
      assert r[i] in multiset(r);
      if r[i] != x {
        assert r[i] in names[..|names| - 1];
      }
    }
  }

  function SortNames(names: seq<string>): (r: seq<string>)
    ensures SortedNames(r) && multiset(r) == multiset(names)
  {
    if names == [] then []
    else
      assert names == names[..|names| - 1] + [names[|names| - 1]];
      InsertName(SortNames(names[..|names| - 1]), names[|names| - 1])
  }

  /** Sorting leaves no freedom: sequences with the same members sort to the same sequence. */
  lemma {:induction false} SortedUnique(a: seq<string>, b: seq<string>)
    requires SortedNames(a) && SortedNames(b) && multiset(a) == multiset(b)
    ensures a == b
  {
    hide NameLe;
    assert |multiset(a)| == |a| && |multiset(b)| == |b|;
    if a != [] {
      SameLast(a, b);
      WithoutLast(a);
      WithoutLast(b);
      SortedUnique(a[..|a| - 1], b[..|b| - 1]);
    }
  }

  lemma SameLast(a: seq<string>, b: seq<string>)
    requires SortedNames(a) && SortedNames(b) && multiset(a) == multiset(b) && |a| == |b| > 0
    ensures a[|a| - 1] == b[|b| - 1]
  {
    hide NameLe;
    var n := |a| - 1;
    assert a[n] in multiset(b) && b[n] in multiset(a);
    var i :| 0 <= i <= n && b[i] == a[n];
    var j :| 0 <= j <= n && a[j] == b[n];
    NameOrder(a[n], b[n], b[n]);
  }

  lemma WithoutLast(a: seq<string>)
    requires a != []
    ensures a == a[..|a| - 1] + [a[|a| - 1]]
    ensures multiset(a[..|a| - 1]) == multiset(a) - multiset{a[|a| - 1]}
  {
    assert a == a[..|a| - 1] + [a[|a| - 1]];
  }

  // ----- The names of a request -----

  /** A request asks for exactly the authorized names: each of them a distinct certifiable name, the
      same names in the request in any order and spelling, and every common name one of them. */
  ghost predicate Matches(ca: Authority, dnsNames: seq<string>, commonNames: seq<Option<string>>, authorized: seq<string>) {
    var names := Canonical(ca, authorized);
    && 1 <= |authorized| <= 100
    && "" !in names && DistinctNames(names)
    && multiset(Canonical(ca, dnsNames)) == multiset(names)
    && forall i :: 0 <= i < |commonNames| ==> commonNames[i].Some? && CertificateName(ca, commonNames[i].value) in names
  }

  method AuthorizedSet(ca: Authority, authorized: seq<string>) returns (r: Option<set<string>>)
    ensures r.Some? <==> "" !in Canonical(ca, authorized) && DistinctNames(Canonical(ca, authorized))
    ensures r.Some? ==> multiset(r.value) == multiset(Canonical(ca, authorized))
  {
    hide CertificateName;
    ghost var all := Canonical(ca, authorized);
    var names: set<string> := {};
    for i := 0 to |authorized|
      invariant "" !in all[..i] && DistinctNames(all[..i])
      invariant multiset(names) == multiset(all[..i])
    {
      var canonical := CertificateName(ca, authorized[i]);
      assert all[..i + 1] == all[..i] + [canonical];
      assert all[i] == canonical;
      if canonical == "" {
        return None;
      }
      if canonical in names {
        assert canonical in multiset(all[..i]);
        Repeated(all, i);
        return None;
      }
      assert canonical !in multiset(all[..i]);
      assert forall k :: 0 <= k < i ==> all[..i][k] in multiset(all[..i]);
      names := names + {canonical};
    }
    assert all[..|authorized|] == all;
    return Some(names);
  }

  lemma Repeated(all: seq<string>, i: nat)
    requires i < |all| && all[i] in all[..i]
    ensures !DistinctNames(all)
  {
    var k :| 0 <= k < i && all[..i][k] == all[i];
    assert all[k] == all[i];
  }

  /** The names for the certificate, exactly when the request matches, in an order that does not
      depend on the request. */
  method CsrNames(ca: Authority, dnsNames: seq<string>, commonNames: seq<Option<string>>, authorized: seq<string>)
    returns (r: Option<seq<string>>)
    ensures r.Some? <==> Matches(ca, dnsNames, commonNames, authorized)
    ensures r.Some? ==> r.value == SortNames(Canonical(ca, authorized))
  {
    hide CertificateName, SortNames;
    ghost var asked := Canonical(ca, dnsNames);
    ghost var granted := Canonical(ca, authorized);
    if |authorized| == 0 || |authorized| > 100 || |dnsNames| != |authorized| {
      assert |multiset(asked)| == |dnsNames| && |multiset(granted)| == |authorized|;
      return None;
    }
    var remaining := AuthorizedSet(ca, authorized);
    if remaining.None? {
      return None;
    }
    var names := TakeNames(ca, dnsNames, remaining.value, granted);
    if names.None? {
      return None;
    }
    SameSetOfNames(names.value, granted);
    var ok := CommonNamesAmong(ca, commonNames, names.value);
    if !ok {
      return None;
    }
    SortedUnique(SortNames(names.value), SortNames(granted));
    return Some(SortNames(names.value));
  }

  lemma SameSetOfNames(a: seq<string>, b: seq<string>)
    requires multiset(a) == multiset(b)
    ensures forall n :: n in a <==> n in b
  {
    assert forall n :: n in a <==> n in multiset(a);
    assert forall n :: n in b <==> n in multiset(b);
  }

  /** Crosses the names of the request off the authorized ones. */
  method TakeNames(ca: Authority, dnsNames: seq<string>, authorized: set<string>, ghost granted: seq<string>)
    returns (r: Option<seq<string>>)
    requires multiset(authorized) == multiset(granted) && "" !in granted && |dnsNames| == |granted|
    ensures r.Some? <==> multiset(Canonical(ca, dnsNames)) == multiset(granted)
    ensures r.Some? ==> r.value == Canonical(ca, dnsNames)
  {
    hide CertificateName;
    ghost var asked := Canonical(ca, dnsNames);
    var left := authorized;
    var names: seq<string> := [];
    for i := 0 to |dnsNames|
      invariant names == asked[..i] && "" !in names
      invariant multiset(left) + multiset(names) == multiset(granted)
    {
      var canonical := CertificateName(ca, dnsNames[i]);
      assert asked[..i + 1] == asked[..i] + [canonical];
      if canonical == "" || canonical !in left {
        Unmatched(asked, granted, i, left);
        return None;
      }
      names := names + [canonical];
      left := left - {canonical};
    }
    assert asked[..|dnsNames|] == asked;
    assert |multiset(names)| == |dnsNames| && |multiset(granted)| == |granted|;
    return Some(names);
  }

  method CommonNamesAmong(ca: Authority, commonNames: seq<Option<string>>, names: seq<string>) returns (ok: bool)
    ensures ok <==> forall i :: 0 <= i < |commonNames| ==> commonNames[i].Some? && CertificateName(ca, commonNames[i].value) in names
  {
    hide CertificateName;
    for i := 0 to |commonNames|
      invariant forall k :: 0 <= k < i ==> commonNames[k].Some? && CertificateName(ca, commonNames[k].value) in names
    {
      if commonNames[i].None? || CertificateName(ca, commonNames[i].value) !in names {
        return false;
      }
    }
    return true;
  }

  /** A name asked for that is not, or no longer, among the remaining ones spoils the match. */
  lemma Unmatched(asked: seq<string>, granted: seq<string>, i: nat, left: set<string>)
    requires i < |asked| && "" !in granted && (asked[i] == "" || asked[i] !in left)
    requires multiset(left) + multiset(asked[..i]) == multiset(granted)
    ensures multiset(asked) != multiset(granted)
  {
    assert asked == asked[..i] + [asked[i]] + asked[i + 1..];
    assert multiset(asked)[asked[i]] >= multiset(asked[..i])[asked[i]] + 1;
    if asked[i] == "" {
      assert "" in multiset(asked) && "" !in multiset(granted);
    }
  }

  /** The authority's certificate carries each authorized name once and nothing else. For names the
      certificate service accepts in orders, the canonical form is the name itself. */
  lemma SignedNames(ca: Authority, authorized: seq<string>)
    requires "" !in Canonical(ca, authorized)
    requires forall i :: 0 <= i < |authorized| ==> authorized[i] == TrimSuffix(NormalizeHostname(authorized[i], ca.domain), ".")
    ensures multiset(SortNames(Canonical(ca, authorized))) == multiset(authorized)
  {
    hide SortNames;
    forall i | 0 <= i < |authorized| ensures CertificateName(ca, authorized[i]) == authorized[i] {
      assert Canonical(ca, authorized)[i] != "";
      CanonicalStays(ca, authorized[i]);
    }
    assert Canonical(ca, authorized) == authorized;
  }

  lemma CanonicalStays(ca: Authority, name: string)
    requires CertificateName(ca, name) != "" && name == TrimSuffix(NormalizeHostname(name, ca.domain), ".")
    ensures CertificateName(ca, name) == name
  {
    var full := NormalizeHostname(name, ca.domain);
    assert IsCanonical(full, ca.domain);
    CanonicalIsStable(full, ca.domain);
    ValidNameChars(name);
  }
}
