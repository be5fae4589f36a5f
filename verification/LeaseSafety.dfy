/** What every run of the lease allocator keeps: exclusive addresses, unique names, and a file
    that always restores to the live tables. */
module LeaseSafety {
  import opened Common
  import opened Hostname
  import opened Leases

  // ----- The inductive invariant on the tables -----

  predicate NameOk(cfg: Config, name: string) {
    name == "" || IsCanonical(name, cfg.domain)
  }

  predicate EntryOk(cfg: Config, c: ClientId, l: Lease) {
    l.client == c && ValidClientId(c) && InPool(cfg, l.ip) && 0 < l.expires && NameOk(cfg, l.hostname)
  }

  ghost predicate Entries(cfg: Config, st: State) {
    && (forall c :: c in st.leases ==> EntryOk(cfg, c, st.leases[c]) && st.leases[c].hostname !in cfg.reserved)
    && (forall c :: c in st.offers ==> EntryOk(cfg, c, st.offers[c]))
    && (forall ip :: ip in st.declined ==> InPool(cfg, ip) && 0 < st.declined[ip])
  }

  /** No two clients share an address, and a client that holds an offer beside its lease
      holds the same address twice. */
  ghost predicate Exclusive(st: State) {
    && (forall c, d :: c in st.leases && d in st.leases && c != d ==> st.leases[c].ip != st.leases[d].ip)
    && (forall c, d :: c in st.offers && d in st.offers && c != d ==> st.offers[c].ip != st.offers[d].ip)
    && (forall c, d :: c in st.leases && d in st.offers ==> (c == d <==> st.leases[c].ip == st.offers[d].ip))
    && (forall c :: c in st.leases ==> st.leases[c].ip !in st.declined)
    && (forall c :: c in st.offers ==> st.offers[c].ip !in st.declined)
  }

  ghost predicate UniqueNames(st: State) {
    forall c, d :: c in st.leases && d in st.leases && c != d && st.leases[c].hostname != "" ==>
      st.leases[c].hostname != st.leases[d].hostname
  }

  ghost predicate Inv(cfg: Config, st: State) {
    Entries(cfg, st) && Exclusive(st) && UniqueNames(st)
  }

  lemma ExpireKeeps(cfg: Config, st: State, now: Time)
    requires Inv(cfg, st)
    ensures Inv(cfg, Expire(st, now))
  {
  }

  /** The address an offer picks is in the pool, free of other holders, and the client's own if it has one. */
  lemma ChosenAddress(cfg: Config, st: State, client: ClientId, requested: Option<IPv4>)
    requires ValidConfig(cfg) && Inv(cfg, st)
    requires ChooseAddress(cfg, st, client, requested).Some?
    ensures var ip := ChooseAddress(cfg, st, client, requested).value;
            && InPool(cfg, ip) && ip !in Occupied(st, client)
            && (client in st.leases ==> st.leases[client].ip == ip)
            && (client in st.offers ==> st.offers[client].ip == ip)
  {
  }

  lemma NamesStayOk(cfg: Config, st: State, client: ClientId, ip: IPv4, hostname: string, fallback: string)
    requires Entries(cfg, st)
    ensures NameOk(cfg, OfferName(cfg, st, client, hostname, fallback))
    ensures NameOk(cfg, WantedName(cfg, st, client, ip, hostname, fallback))
  {
    assert client in st.leases ==> NameOk(cfg, st.leases[client].hostname);
    assert client in st.offers ==> NameOk(cfg, st.offers[client].hostname);
  }

  lemma PutOfferKeeps(cfg: Config, st: State, offer: Lease)
    requires Inv(cfg, st) && EntryOk(cfg, offer.client, offer)
    requires offer.ip !in Occupied(st, offer.client)
    requires offer.client in st.leases ==> st.leases[offer.client].ip == offer.ip
    ensures Inv(cfg, st.(offers := st.offers[offer.client := offer]))
  {
    PutOfferExclusive(cfg, st, offer);
    hide EntryOk, InPool, Exclusive, Occupied;
  }

  lemma PutOfferExclusive(cfg: Config, st: State, offer: Lease)
    requires Exclusive(st) && offer.ip !in Occupied(st, offer.client)
    requires offer.client in st.leases ==> st.leases[offer.client].ip == offer.ip
    ensures Exclusive(st.(offers := st.offers[offer.client := offer]))
  {
    OthersElsewhere(st, offer.client, offer.ip);
    hide Occupied;
  }

  lemma OthersElsewhere(st: State, client: ClientId, ip: IPv4)
    requires ip !in Occupied(st, client)
    ensures forall c :: c in st.leases && c != client ==> st.leases[c].ip != ip
    ensures forall c :: c in st.offers && c != client ==> st.offers[c].ip != ip
    ensures ip !in st.declined
  {
  }

  lemma OfferKeeps(cfg: Config, st: State, now: Time, client: ClientId, requested: Option<IPv4>,
                   hostname: string, fallback: string)
    requires ValidConfig(cfg) && Inv(cfg, st) && 0 < now
    ensures Inv(cfg, Offer(cfg, st, now, client, requested, hostname, fallback).0)
  {
    hide IsCanonical, NormalizeHostname, OfferName, ChooseAddress, Occupied, Inv, Expire;
    var s := Expire(st, now);
    ExpireKeeps(cfg, st, now);
    var ip := ChooseAddress(cfg, s, client, requested);
    if ValidClientId(client) && ip.Some? {
      ChosenAddress(cfg, s, client, requested);
      NamesStayOk(cfg, s, client, ip.value, hostname, fallback);
      PutOfferKeeps(cfg, s, Lease(client, ip.value, OfferName(cfg, s, client, hostname, fallback), now + cfg.offerDuration));
    }
  }

  lemma PutLeaseKeeps(cfg: Config, st: State, lease: Lease)
    requires Inv(cfg, st) && EntryOk(cfg, lease.client, lease)
    requires lease.ip !in Occupied(st, lease.client)
    requires lease.hostname !in cfg.reserved
    requires lease.hostname != "" ==> !NameTaken(st, lease.client, lease.hostname)
    ensures Inv(cfg, Granting(st, lease))
  {
    GrantExclusive(st, lease);
    GrantUnique(st, lease);
    hide EntryOk, InPool, Occupied, Exclusive, UniqueNames;
  }

  lemma GrantExclusive(st: State, lease: Lease)
    requires Exclusive(st) && lease.ip !in Occupied(st, lease.client)
    ensures Exclusive(Granting(st, lease))
  {
    OthersElsewhere(st, lease.client, lease.ip);
    hide Occupied;
  }

  lemma GrantUnique(st: State, lease: Lease)
    requires UniqueNames(st) && (lease.hostname != "" ==> !NameTaken(st, lease.client, lease.hostname))
    ensures UniqueNames(Granting(st, lease))
  {
  }

  lemma GrantKeeps(cfg: Config, st: State, now: Time, client: ClientId, ip: IPv4, hostname: string, fallback: string)
    requires ValidConfig(cfg) && Inv(cfg, st) && 0 < now
    requires ValidClientId(client) && InPool(cfg, ip) && ip !in Occupied(st, client)
    ensures var name := RegisteredName(cfg, st, client, WantedName(cfg, st, client, ip, hostname, fallback));
            Inv(cfg, Granting(st, Lease(client, ip, name, now + cfg.leaseDuration)))
  {
    NamesStayOk(cfg, st, client, ip, hostname, fallback);
    var wanted := WantedName(cfg, st, client, ip, hostname, fallback);
    var name := RegisteredName(cfg, st, client, wanted);
    PutLeaseKeeps(cfg, st, Lease(client, ip, name, now + cfg.leaseDuration));
  }

  lemma RemoveKeeps(cfg: Config, st: State, client: ClientId, ip: IPv4)
    requires Inv(cfg, st)
    ensures Inv(cfg, Remove(st, client, ip))
    ensures Owns(st, client, ip) ==> forall c :: !Owns(Remove(st, client, ip), c, ip)
  {
    hide EntryOk, InPool;
  }

  lemma QuarantineKeeps(cfg: Config, st: State, ip: IPv4, until: Time)
    requires Inv(cfg, st) && InPool(cfg, ip) && 0 < until
    requires forall c :: !Owns(st, c, ip)
    ensures Inv(cfg, st.(declined := st.declined[ip := until]))
  {
    assert forall c :: c in st.leases ==> Owns(st, c, st.leases[c].ip);
    assert forall c :: c in st.offers ==> Owns(st, c, st.offers[c].ip);
  }

  // ----- Reading back the file -----

  /** The tables that a restart at `now` should bring back. */
  function Live(st: State, now: Time): State {
    Expire(st, now).(offers := map[])
  }

  /** A list of saved leases in which no two entries clash. */
  ghost predicate NoClash(cfg: Config, ls: seq<Lease>) {
    && (forall i :: 0 <= i < |ls| ==> EntryOk(cfg, ls[i].client, ls[i]) && ls[i].hostname !in cfg.reserved)
    && (forall i, j :: 0 <= i < j < |ls| ==>
          && ls[i].client != ls[j].client && ls[i].ip != ls[j].ip
          && (ls[i].hostname != "" ==> ls[i].hostname != ls[j].hostname))
  }

  /** The accumulated tables have nothing in common with the leases still to be read. */
  ghost predicate Apart(acc: Restoring, ls: seq<Lease>) {
    forall i :: 0 <= i < |ls| ==>
      ls[i].client !in acc.leases && ls[i].ip !in acc.addresses && ls[i].hostname !in acc.names
  }

  /** `r` is `acc` with the unexpired leases of the list added. */
  ghost predicate Restored(now: Time, acc: Restoring, ls: seq<Lease>, r: Restoring) {
    && r.declined == acc.declined
    && (forall c :: c in r.leases ==>
          || (c in acc.leases && r.leases[c] == acc.leases[c])
          || (r.leases[c] in ls && r.leases[c].client == c && now < r.leases[c].expires))
    && (forall c :: c in acc.leases ==> c in r.leases && r.leases[c] == acc.leases[c])
    && (forall l :: l in ls && now < l.expires ==> l.client in r.leases && r.leases[l.client] == l)
    && (forall ip :: ip in r.addresses ==> ip in acc.addresses || exists l :: l in ls && now < l.expires && l.ip == ip)
  }

  lemma RestoredCons(now: Time, acc: Restoring, first: Restoring, l: Lease, rest: seq<Lease>, r: Restoring)
    requires Restored(now, first, rest, r) && first.declined == acc.declined
    requires if now < l.expires then l.client !in acc.leases && first.leases == acc.leases[l.client := l] && first.addresses == acc.addresses + {l.ip}
             else first == acc
    ensures Restored(now, acc, [l] + rest, r)
  {
    assert forall x :: x in [l] + rest <==> x == l || x in rest;
  }

  /** Every unexpired entry, and nothing else, reaches the restored table. */
  lemma {:induction false} RestoreLeasesAll(cfg: Config, now: Time, acc: Restoring, ls: seq<Lease>)
    requires ValidConfig(cfg) && NoClash(cfg, ls) && Apart(acc, ls) && "" !in acc.names
    ensures var r := RestoreLeases(cfg, now, acc, ls); r.Some? && Restored(now, acc, ls, r.value)
    decreases |ls|
  {
    hide IsCanonical, NormalizeHostname, ValidConfig, SavedLeaseOk, EntryOk;
    if ls != [] {
      hide Restored;
      SavedLeaseIsOk(cfg, ls[0]);
      var first := RestoreLease(cfg, now, acc, ls[0]).value;
      RestoreLeasesAll(cfg, now, first, ls[1..]);
      RestoredCons(now, acc, first, ls[0], ls[1..], RestoreLeases(cfg, now, first, ls[1..]).value);
      assert ls == [ls[0]] + ls[1..];
    }
  }

  lemma SavedLeaseIsOk(cfg: Config, l: Lease)
    requires ValidConfig(cfg) && EntryOk(cfg, l.client, l) && l.hostname !in cfg.reserved
    ensures SavedLeaseOk(cfg, l)
  {
    if l.hostname != "" {
      NormalizeIdempotent(l.hostname, cfg.domain);
    }
  }

  ghost predicate NoClashQ(cfg: Config, qs: seq<Quarantine>) {
    && (forall i :: 0 <= i < |qs| ==> InPool(cfg, qs[i].ip) && 0 < qs[i].expires)
    && (forall i, j :: 0 <= i < j < |qs| ==> qs[i].ip != qs[j].ip)
  }

  /** The unexpired quarantines of a list. */
  function LiveQuarantines(qs: seq<Quarantine>, now: Time): map<IPv4, Time>
  {
    if qs == [] then map[]
    else
      var rest := LiveQuarantines(qs[1..], now);
      if now < qs[0].expires then rest[qs[0].ip := qs[0].expires] else rest
  }

  lemma {:induction false} LiveQuarantinesAre(cfg: Config, qs: seq<Quarantine>, now: Time)
    requires NoClashQ(cfg, qs)
    ensures forall ip :: ip in LiveQuarantines(qs, now) ==>
              Quarantine(ip, LiveQuarantines(qs, now)[ip]) in qs && now < LiveQuarantines(qs, now)[ip]
    ensures forall q :: q in qs && now < q.expires ==>
              q.ip in LiveQuarantines(qs, now) && LiveQuarantines(qs, now)[q.ip] == q.expires
  {
    if qs != [] {
      var rest := qs[1..];
      assert forall q :: q in qs <==> q == qs[0] || q in rest;
      assert forall i :: 0 <= i < |rest| ==> rest[i] == qs[i + 1];
      LiveQuarantinesAre(cfg, rest, now);
      assert forall q :: q in rest ==> q.ip != qs[0].ip;
    }
  }

  /** None of the live quarantines of the list is held already. */
  ghost predicate Unheld(acc: Restoring, qs: seq<Quarantine>, now: Time) {
    forall i :: 0 <= i < |qs| && now < qs[i].expires ==> qs[i].ip !in acc.addresses
  }

  lemma QuarantineTail(cfg: Config, now: Time, acc: Restoring, qs: seq<Quarantine>)
    requires NoClashQ(cfg, qs) && Unheld(acc, qs, now) && qs != []
    ensures var first := RestoreQuarantine(cfg, now, acc, qs[0]);
            && first.Some? && first.value.leases == acc.leases && NoClashQ(cfg, qs[1..]) && Unheld(first.value, qs[1..], now)
            && first.value.declined == if now < qs[0].expires then acc.declined[qs[0].ip := qs[0].expires] else acc.declined
  {
  }

  lemma {:induction false} RestoreQuarantinesAll(cfg: Config, now: Time, acc: Restoring, qs: seq<Quarantine>)
    requires NoClashQ(cfg, qs) && Unheld(acc, qs, now)
    ensures var r := RestoreQuarantines(cfg, now, acc, qs);
            r.Some? && r.value.leases == acc.leases && r.value.declined == acc.declined + LiveQuarantines(qs, now)
    decreases |qs|
  {
    if qs == [] {
      assert acc.declined + map[] == acc.declined;
    } else {
      LiveFirst(cfg, qs, now);
      hide NoClashQ, Unheld, RestoreQuarantine;
      QuarantineTail(cfg, now, acc, qs);
      var first := RestoreQuarantine(cfg, now, acc, qs[0]).value;
      RestoreQuarantinesAll(cfg, now, first, qs[1..]);
      assert first.declined + LiveQuarantines(qs[1..], now) == acc.declined + LiveQuarantines(qs, now);
    }
  }

  lemma LiveFirst(cfg: Config, qs: seq<Quarantine>, now: Time)
    requires NoClashQ(cfg, qs) && qs != []
    ensures qs[0].ip !in LiveQuarantines(qs[1..], now)
  {
    LiveQuarantinesAre(cfg, qs[1..], now);
  }

  lemma EncodeContents(cfg: Config, st: State)
    requires Inv(cfg, st)
    ensures var f := Encode(st);
            && f.version == 1 && NoClash(cfg, f.leases) && NoClashQ(cfg, f.declined)
            && (forall l :: l in f.leases <==> l.client in st.leases && st.leases[l.client] == l)
            && (forall q :: q in f.declined <==> q.ip in st.declined && st.declined[q.ip] == q.expires)
  {
    hide EntryOk, Exclusive, UniqueNames;
    EncodedLeases(cfg, st);
    EncodedQuarantines(cfg, st);
  }

  /** Each entry of the encoded list is the table's entry for the address at that place. */
  ghost predicate ListedInOrder(st: State, ips: seq<IPv4>, ls: seq<Lease>) {
    && |ls| == |ips| && Ascending(ips)
    && forall i :: 0 <= i < |ls| ==> ls[i].ip == ips[i] && exists c :: c in st.leases && st.leases[c] == ls[i]
  }

  lemma EncodedInOrder(st: State)
    ensures ListedInOrder(st, Sorted(LeasedIps(st)), Encode(st).leases)
  {
    var ips := Sorted(LeasedIps(st));
    forall i | 0 <= i < |ips| ensures ips[i] in LeasedIps(st) {
      assert ips[i] in ips;
    }
  }

  lemma OrderedNoClash(cfg: Config, st: State, ips: seq<IPv4>, ls: seq<Lease>)
    requires Inv(cfg, st) && ListedInOrder(st, ips, ls)
    ensures NoClash(cfg, ls)
    ensures forall l :: l in ls ==> l.client in st.leases && st.leases[l.client] == l
  {
    hide EntryOk, Exclusive;
    forall i | 0 <= i < |ls| ensures ls[i].client in st.leases && st.leases[ls[i].client] == ls[i] {
      assert ls[i].ip == ips[i];
      var c :| c in st.leases && st.leases[c] == ls[i];
      OwnClient(cfg, st, c);
    }
    OrderedApart(st, ips, ls);
  }

  lemma OwnClient(cfg: Config, st: State, c: ClientId)
    requires Entries(cfg, st) && c in st.leases
    ensures st.leases[c].client == c
  {
    hide IsCanonical;
  }

  lemma OrderedApart(st: State, ips: seq<IPv4>, ls: seq<Lease>)
    requires ListedInOrder(st, ips, ls)
    ensures forall i, j :: 0 <= i < j < |ls| ==> ls[i].ip != ls[j].ip
  {
  }

  lemma EncodedLeases(cfg: Config, st: State)
    requires Inv(cfg, st)
    ensures NoClash(cfg, Encode(st).leases)
    ensures forall l :: l in Encode(st).leases <==> l.client in st.leases && st.leases[l.client] == l
  {
    hide EntryOk, Exclusive, UniqueNames, NoClash, Encode;
    var ips := Sorted(LeasedIps(st));
    var ls := Encode(st).leases;
    EncodedInOrder(st);
    OrderedNoClash(cfg, st, ips, ls);
    forall l: Lease | l.client in st.leases && st.leases[l.client] == l ensures l in ls {
      EncodedHas(cfg, st, l);
    }
  }

  lemma EncodedHas(cfg: Config, st: State, l: Lease)
    requires Inv(cfg, st) && l.client in st.leases && st.leases[l.client] == l
    ensures l in Encode(st).leases
  {
    hide EntryOk, UniqueNames, Encode;
    var ips := Sorted(LeasedIps(st));
    var ls := Encode(st).leases;
    EncodedInOrder(st);
    assert l.ip in LeasedIps(st);
    var i :| 0 <= i < |ips| && ips[i] == l.ip;
    var c :| c in st.leases && st.leases[c] == ls[i];
    assert c == l.client;
  }

  lemma EncodedQuarantines(cfg: Config, st: State)
    requires Inv(cfg, st)
    ensures NoClashQ(cfg, Encode(st).declined)
    ensures forall q :: q in Encode(st).declined <==> q.ip in st.declined && st.declined[q.ip] == q.expires
  {
    hide EntryOk, Exclusive, UniqueNames;
    var f := Encode(st);
    var declined := Sorted(st.declined.Keys);
    forall i | 0 <= i < |declined| ensures declined[i] in st.declined {
      assert declined[i] in declined;
    }
    forall q: Quarantine | q.ip in st.declined && st.declined[q.ip] == q.expires ensures q in f.declined {
      assert q.ip in declined;
      var i :| 0 <= i < |declined| && declined[i] == q.ip;
      assert f.declined[i] == q;
    }
  }

  lemma LeasesComeBack(cfg: Config, st: State, now: Time)
    requires ValidConfig(cfg) && Inv(cfg, st)
    ensures var r := RestoreLeases(cfg, now, NOTHING, Encode(st).leases);
            && r.Some? && r.value.leases == Live(st, now).leases && r.value.declined == map[]
            && forall ip :: ip in r.value.addresses ==> ip !in st.declined
  {
    hide IsCanonical, NormalizeHostname, Encode, RestoreLeases;
    var f := Encode(st);
    EncodeContents(cfg, st);
    RestoreLeasesAll(cfg, now, NOTHING, f.leases);
    var r := RestoreLeases(cfg, now, NOTHING, f.leases).value;
    assert r.leases == Live(st, now).leases;
  }

  /** Round trip through the file: what a manager writes is accepted at any later time, and
      gives back exactly the unexpired leases and quarantines, without offers. */
  lemma FileRoundTrip(cfg: Config, st: State, now: Time)
    requires ValidConfig(cfg) && Inv(cfg, st)
    ensures Decode(cfg, Encode(st), now) == Some(Live(st, now))
  {
    hide IsCanonical, NormalizeHostname, Encode, RestoreLeases, RestoreQuarantines;
    var f := Encode(st);
    EncodeContents(cfg, st);
    LeasesComeBack(cfg, st, now);
    var r := RestoreLeases(cfg, now, NOTHING, f.leases).value;
    RestoreQuarantinesAll(cfg, now, r, f.declined);
    LiveQuarantinesAre(cfg, f.declined, now);
    var all := RestoreQuarantines(cfg, now, r, f.declined).value;
    forall ip | ip in st.declined ensures Quarantine(ip, st.declined[ip]) in f.declined {
      assert Quarantine(ip, st.declined[ip]).ip == ip;
    }
    assert all.declined == Live(st, now).declined;
  }
}
