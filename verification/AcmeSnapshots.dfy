/** The loops that the certificate service's handlers run over a snapshot. */
module AcmeSnapshots {
  import opened Common
  import opened Validator
  import opened Acme
  import opened AcmeInvariant

  method FindThumbprint(st: State, thumbprint: string) returns (found: Option<Id>)
    ensures found.Some? <==> HasThumbprint(st, thumbprint)
    ensures found.Some? ==> found.value in st.accounts && st.accounts[found.value].thumbprint == thumbprint
  {
    var todo := st.accounts.Keys;
    while todo != {}
      invariant todo <= st.accounts.Keys
      invariant forall id :: id in st.accounts && id !in todo ==> st.accounts[id].thumbprint != thumbprint
      decreases |todo|
    {
      var id :| id in todo;
      todo := todo - {id};
      if st.accounts[id].thumbprint == thumbprint {
        return Some(id);
      }
    }
    return None;
  }

  /** The checks on a new order's identifiers that need no lock. */
  method CheckIdentifiers(cfg: Config, owners: Owners, raw: seq<string>) returns (r: Option<seq<string>>)
    ensures r.Some? ==> AcceptableNames(cfg, owners, raw, r.value)
    ensures r.None? ==> forall names :: !AcceptableNames(cfg, owners, raw, names)
  {
    hide AllowedName, CanonicalIdentifier;
    if |raw| == 0 || |raw| > MAX_IDENTIFIERS {
      return None;
    }
    var seen: set<string> := {};
    var names: seq<string> := [];
    for i := 0 to |raw|
      invariant |names| == i && Distinct(names) && forall n :: n in seen <==> n in names
      invariant forall k :: 0 <= k < i ==> IsAscii(raw[k]) && names[k] == CanonicalIdentifier(raw[k])
      invariant forall k :: 0 <= k < i ==> AllowedName(cfg.domain, names[k]) && names[k] in owners
    {
      var name := CanonicalIdentifier(raw[i]);
      if !IsAscii(raw[i]) || !AllowedName(cfg.domain, name) || name in seen || name !in owners {
        Unacceptable(cfg, owners, raw, names, i);
        return None;
      }
      seen := seen + {name};
      names := names + [name];
    }
    return Some(names);
  }

  predicate IsAscii(s: string) {
    forall k :: 0 <= k < |s| ==> s[k] as int <= 127
  }

  lemma Unacceptable(cfg: Config, owners: Owners, raw: seq<string>, names: seq<string>, i: nat)
    requires i < |raw| && |names| == i && forall k :: 0 <= k < i ==> names[k] == CanonicalIdentifier(raw[k])
    requires var name := CanonicalIdentifier(raw[i]);
             !IsAscii(raw[i]) || !AllowedName(cfg.domain, name) || name in names || name !in owners
    ensures forall all :: !AcceptableNames(cfg, owners, raw, all)
  {
    hide AllowedName, CanonicalIdentifier;
    forall all ensures !AcceptableNames(cfg, owners, raw, all) {
      if |all| == |raw| && all[i] == CanonicalIdentifier(raw[i]) && all[i] in names {
        var k :| 0 <= k < i && names[k] == all[i];
        assert all[k] == CanonicalIdentifier(raw[k]) ==> !Distinct(all);
      }
    }
  }

  method CountOpen(st: State, accountId: Id) returns (open: nat)
    ensures open == |OpenOrders(st, accountId)|
  {
    open := 0;
    var todo := st.orders.Keys;
    ghost var counted: set<Id> := {};
    while todo != {}
      invariant todo <= st.orders.Keys && open == |counted|
      invariant forall id :: id in counted <==> id in st.orders && id !in todo && Open(st.orders[id], accountId)
      decreases |todo|
    {
      var id :| id in todo;
      todo := todo - {id};
      if Open(st.orders[id], accountId) {
        open := open + 1;
        counted := counted + {id};
      }
    }
    assert counted == OpenOrders(st, accountId);
  }

  method AddAuths(auths: map<Id, Authorization>, order: Order, tokens: seq<string>) returns (r: map<Id, Authorization>)
    requires |order.authIds| == |order.identifiers| == |tokens|
    ensures r == WithAuths(auths, order, tokens, |tokens|)
  {
    r := auths;
    for i := 0 to |tokens|
      invariant r == WithAuths(auths, order, tokens, i)
    {
      r := r[order.authIds[i] := NewAuth(order, order.authIds[i], order.identifiers[i], tokens[i])];
    }
  }

  method DeactivateOrders(orders: map<Id, Order>, id: Id) returns (r: map<Id, Order>)
    ensures r == map k | k in orders :: if orders[k].accountId == id then DeactivateOrder(orders[k]) else orders[k]
  {
    r := orders;
    var todo := orders.Keys;
    while todo != {}
      invariant todo <= orders.Keys && r.Keys == orders.Keys
      invariant forall k :: k in orders ==>
                  r[k] == if k !in todo && orders[k].accountId == id then DeactivateOrder(orders[k]) else orders[k]
      decreases |todo|
    {
      var k :| k in todo;
      todo := todo - {k};
      var o := orders[k];
      if o.accountId == id && (o.status == OrderPending || o.status == OrderReady) {
        r := r[k := o.(status := OrderInvalid)];
      }
    }
  }

  method DeactivateAuths(auths: map<Id, Authorization>, id: Id) returns (r: map<Id, Authorization>)
    ensures r == map k | k in auths :: if auths[k].accountId == id then DeactivateAuth(auths[k]) else auths[k]
  {
    r := auths;
    var todo := auths.Keys;
    while todo != {}
      invariant todo <= auths.Keys && r.Keys == auths.Keys
      invariant forall k :: k in auths ==>
                  r[k] == if k !in todo && auths[k].accountId == id then DeactivateAuth(auths[k]) else auths[k]
      decreases |todo|
    {
      var k :| k in todo;
      todo := todo - {k};
      var a := auths[k];
      if a.accountId == id && a.status == AuthPending {
        r := r[k := a.(status := AuthDeactivated, challenge := ChallengeInvalid)];
      }
    }
  }

  method AllAuthsValid(st: State, authIds: seq<Id>) returns (ready: bool)
    ensures ready == AllValid(st, authIds)
  {
    for i := 0 to |authIds|
      invariant forall k :: 0 <= k < i ==> authIds[k] in st.auths && st.auths[authIds[k]].status == AuthValid
    {
      if authIds[i] !in st.auths || st.auths[authIds[i]].status != AuthValid {
        return false;
      }
    }
    return true;
  }

  method AllStillProven(st: State, now: Time, owners: Owners, authIds: seq<Id>) returns (ok: bool)
    ensures !ok <==> exists i :: 0 <= i < |authIds| && !StillProven(st, now, owners, authIds[i])
  {
    for i := 0 to |authIds|
      invariant forall k :: 0 <= k < i ==> StillProven(st, now, owners, authIds[k])
    {
      if !StillProven(st, now, owners, authIds[i]) {
        return false;
      }
    }
    return true;
  }

  method FindRecorded(st: State, leaf: Leaf) returns (found: Option<Id>)
    ensures found.Some? <==> exists id :: IsRecorded(st, leaf, id)
    ensures found.Some? ==> IsRecorded(st, leaf, found.value)
  {
    var todo := st.certs.Keys;
    while todo != {}
      invariant todo <= st.certs.Keys
      invariant forall id :: id in st.certs && id !in todo ==> !IsRecorded(st, leaf, id)
      decreases |todo|
    {
      var id :| id in todo;
      todo := todo - {id};
      if IsRecorded(st, leaf, id) {
        return Some(id);
      }
    }
    return None;
  }

  method IsProvenFor(st: State, now: Time, owners: Owners, accountId: Id, name: string) returns (found: bool)
    ensures found == ProvenFor(st, now, owners, accountId, name)
  {
    if name !in owners {
      return false;
    }
    var todo := st.auths.Keys;
    while todo != {}
      invariant todo <= st.auths.Keys
      invariant forall id :: id in st.auths && id !in todo ==> !Proves(st.auths[id], now, owners[name], accountId, name)
      decreases |todo|
    {
      var id :| id in todo;
      todo := todo - {id};
      if Proves(st.auths[id], now, owners[name], accountId, name) {
        return true;
      }
    }
    return false;
  }

  method AuthorizedForCertificate(st: State, now: Time, owners: Owners, accountId: Id, names: seq<string>) returns (ok: bool)
    ensures ok <==> names != [] && forall i :: 0 <= i < |names| ==> ProvenFor(st, now, owners, accountId, names[i])
  {
    hide ProvenFor;
    if |names| == 0 {
      return false;
    }
    for i := 0 to |names|
      invariant forall k :: 0 <= k < i ==> ProvenFor(st, now, owners, accountId, names[k])
    {
      var found := IsProvenFor(st, now, owners, accountId, names[i]);
      if !found {
        return false;
      }
    }
    return true;
  }

  /** Collects the entries of a revocation list, refusing what the authority would refuse. */
  method CollectEntries(certs: map<Id, Certificate>, now: Time) returns (r: Option<set<CrlEntry>>)
    requires forall id, k :: id in certs && k in certs && id != k ==> certs[id].serial != certs[k].serial
    ensures r.Some? <==> EntriesAccepted(RevokedEntries(certs, now), now)
    ensures r.Some? ==> r.value == RevokedEntries(certs, now)
  {
    var entries: set<CrlEntry> := {};
    var todo := certs.Keys;
    while todo != {}
      invariant todo <= certs.Keys
      invariant forall e :: e in entries <==> exists id :: id in certs && id !in todo && Listed(certs[id], now) && e == EntryOf(certs[id])
      invariant forall e :: e in entries ==> EntryAccepted(e, now)
      decreases |todo|
    {
      var id :| id in todo;
      var c := certs[id];
      if Listed(c, now) {
        if !EntryAccepted(EntryOf(c), now) {
          assert EntryOf(c) in RevokedEntries(certs, now);
          return None;
        }
        entries := entries + {EntryOf(c)};
      }
      todo := todo - {id};
    }
    assert entries == RevokedEntries(certs, now);
    return Some(entries);
  }

  function EntryOf(c: Certificate): CrlEntry
    requires c.revokedAt.Some?
  {
    CrlEntry(c.serial, c.revokedAt.value, c.reason)
  }

  /** `nextUpdate` is what the authority puts in the list, None if it fails. */
  method RefreshList(st: State, now: Time, nextUpdate: Option<Time>) returns (r: Option<State>)
    requires DistinctSerials(st)
    ensures r == RefreshCrl(st, now, nextUpdate)
  {
    hide RevokedEntries, EntriesAccepted;
    if st.crlNumber < 0 || st.crlNumber == MAX_INT64 {
      return None;
    }
    var entries := CollectEntries(st.certs, now);
    if entries.None? || nextUpdate.None? || nextUpdate.value <= now {
      return None;
    }
    var number := st.crlNumber + 1;
    return Some(st.(crl := Some(Crl(number, nextUpdate.value, entries.value, st.root)), crlNumber := number, crlNextUpdate := nextUpdate.value));
  }
}
