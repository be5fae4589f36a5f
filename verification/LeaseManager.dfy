/** The manager as the program runs it: tables updated in place, loops over maps, and a file
    replaced before the tables are. Every method is proved against the step it implements. */
module LeaseManager {
  import opened Common
  import opened Hostname
  import opened Leases
  import opened LeaseSafety
  import opened LeaseRuns

  // ----- Writing lists in address order -----

  function LeaseIps(ls: seq<Lease>): (r: seq<IPv4>)
    ensures |r| == |ls|
  {
    seq(|ls|, i requires 0 <= i < |ls| => ls[i].ip)
  }

  function QuarantineIps(qs: seq<Quarantine>): (r: seq<IPv4>)
    ensures |r| == |qs|
  {
    seq(|qs|, i requires 0 <= i < |qs| => qs[i].ip)
  }

  ghost predicate DistinctIps(leases: map<ClientId, Lease>) {
    forall c, d :: c in leases && d in leases && c != d ==> leases[c].ip != leases[d].ip
  }

  /** Lists every lease of the table and sorts the list by address. */
  method SortLeases(leases: map<ClientId, Lease>) returns (r: seq<Lease>)
    requires DistinctIps(leases)
    ensures Ascending(LeaseIps(r))
    ensures forall l :: l in r <==> exists c :: c in leases && leases[c] == l
  {
    r := [];
    var todo := leases.Keys;
    while todo != {}
      invariant todo <= leases.Keys
      invariant Ascending(LeaseIps(r))
      invariant forall l :: l in r <==> exists c :: c in leases && c !in todo && leases[c] == l
      decreases todo
    {
      var c :| c in todo;
      r := InsertLease(r, leases[c]);
      todo := todo - {c};
    }
  }

  /** Where `ip` belongs in an ascending list. */
  method Position(ips: seq<IPv4>, ip: IPv4) returns (k: nat)
    requires Ascending(ips) && ip !in ips
    ensures k <= |ips|
    ensures Ascending(ips[..k] + [ip] + ips[k..])
  {
    k := 0;
    while k < |ips| && ips[k] < ip
      invariant 0 <= k <= |ips|
      invariant forall i :: 0 <= i < k ==> ips[i] < ip
    {
      k := k + 1;
    }
  }

  method InsertLease(ls: seq<Lease>, l: Lease) returns (r: seq<Lease>)
    requires Ascending(LeaseIps(ls)) && forall x :: x in ls ==> x.ip != l.ip
    ensures Ascending(LeaseIps(r))
    ensures forall x :: x in r <==> x in ls || x == l
  {
    var ips := LeaseIps(ls);
    assert forall i :: 0 <= i < |ls| ==> ls[i] in ls && ips[i] == ls[i].ip;
    var k := Position(ips, l.ip);
    r := ls[..k] + [l] + ls[k..];
    assert ls == ls[..k] + ls[k..];
    assert LeaseIps(r) == ips[..k] + [l.ip] + ips[k..];
  }

  method SortQuarantines(declined: map<IPv4, Time>) returns (r: seq<Quarantine>)
    ensures Ascending(QuarantineIps(r))
    ensures forall q :: q in r <==> q.ip in declined && declined[q.ip] == q.expires
  {
    r := [];
    var todo := declined.Keys;
    while todo != {}
      invariant todo <= declined.Keys
      invariant Ascending(QuarantineIps(r))
      invariant forall q :: q in r <==> q.ip in declined && q.ip !in todo && declined[q.ip] == q.expires
      decreases todo
    {
      var ip :| ip in todo;
      r := InsertQuarantine(r, Quarantine(ip, declined[ip]));
      todo := todo - {ip};
    }
  }

  method InsertQuarantine(qs: seq<Quarantine>, q: Quarantine) returns (r: seq<Quarantine>)
    requires Ascending(QuarantineIps(qs)) && forall x :: x in qs ==> x.ip != q.ip
    ensures Ascending(QuarantineIps(r))
    ensures forall x :: x in r <==> x in qs || x == q
  {
    var ips := QuarantineIps(qs);
    assert forall i :: 0 <= i < |qs| ==> qs[i] in qs && ips[i] == qs[i].ip;
    var k := Position(ips, q.ip);
    r := qs[..k] + [q] + qs[k..];
    assert qs == qs[..k] + qs[k..];
    assert QuarantineIps(r) == ips[..k] + [q.ip] + ips[k..];
  }

  /** Two ascending lists with the same elements are the same list. */
  lemma {:induction false} AscendingUnique(a: seq<IPv4>, b: seq<IPv4>)
    requires Ascending(a) && Ascending(b) && forall ip :: ip in a <==> ip in b
    ensures a == b
    decreases |a|
  {
    assert a != [] ==> a[0] in a;
    assert b != [] ==> b[0] in b;
    if a != [] {
      assert forall ip :: ip in a[1..] <==> ip in a && ip != a[0];
      assert forall ip :: ip in b[1..] <==> ip in b && ip != b[0];
      AscendingUnique(a[1..], b[1..]);
      assert a == [a[0]] + a[1..] && b == [b[0]] + b[1..];
    }
  }

  /** Listing and sorting the tables, in whatever order they are visited, writes the one encoded file. */
  lemma SortedIsEncoded(cfg: Config, st: State, ls: seq<Lease>, qs: seq<Quarantine>)
    requires Inv(cfg, st)
    requires Ascending(LeaseIps(ls)) && forall l :: l in ls <==> exists c :: c in st.leases && st.leases[c] == l
    requires Ascending(QuarantineIps(qs)) && forall q :: q in qs <==> q.ip in st.declined && st.declined[q.ip] == q.expires
    ensures Saved(1, ls, qs) == Encode(st)
  {
    hide IsCanonical;
    SortedLeasesAreEncoded(cfg, st, ls);
    SortedQuarantinesAreEncoded(st, qs);
  }

  lemma SortedLeasesAreEncoded(cfg: Config, st: State, ls: seq<Lease>)
    requires Inv(cfg, st)
    requires Ascending(LeaseIps(ls)) && forall l :: l in ls <==> exists c :: c in st.leases && st.leases[c] == l
    ensures ls == Encode(st).leases
  {
    hide IsCanonical;
    var ips := Sorted(LeasedIps(st));
    forall ip ensures ip in LeaseIps(ls) <==> ip in ips {
      if ip in ips {
        var c :| c in st.leases && st.leases[c].ip == ip;
        assert st.leases[c] in ls;
        var i :| 0 <= i < |ls| && ls[i] == st.leases[c];
        assert LeaseIps(ls)[i] == ip;
      }
      if ip in LeaseIps(ls) {
        var i :| 0 <= i < |ls| && LeaseIps(ls)[i] == ip;
        assert ls[i] in ls;
      }
    }
    AscendingUnique(LeaseIps(ls), ips);
    forall i | 0 <= i < |ls| ensures ls[i] == Encode(st).leases[i] {
      assert ls[i] in ls;
      assert LeaseIps(ls)[i] == ips[i];
    }
  }

  lemma SortedQuarantinesAreEncoded(st: State, qs: seq<Quarantine>)
    requires Ascending(QuarantineIps(qs)) && forall q :: q in qs <==> q.ip in st.declined && st.declined[q.ip] == q.expires
    ensures qs == Encode(st).declined
  {
    var ips := Sorted(st.declined.Keys);
    forall ip ensures ip in QuarantineIps(qs) <==> ip in ips {
      if ip in ips {
        assert Quarantine(ip, st.declined[ip]) in qs;
        var i :| 0 <= i < |qs| && qs[i] == Quarantine(ip, st.declined[ip]);
        assert QuarantineIps(qs)[i] == ip;
      }
      if ip in QuarantineIps(qs) {
        var i :| 0 <= i < |qs| && QuarantineIps(qs)[i] == ip;
        assert qs[i] in qs;
      }
    }
    AscendingUnique(QuarantineIps(qs), ips);
    forall i | 0 <= i < |qs| ensures qs[i] == Encode(st).declined[i] {
      assert qs[i] in qs;
      assert QuarantineIps(qs)[i] == ips[i];
    }
  }

  // ----- The manager -----

  class Manager {
    const cfg: Config
    var leases: map<ClientId, Lease>
    var offers: map<ClientId, Lease>
    var declined: map<IPv4, Time>
    var file: Option<Saved>
    ghost var clock: Time

    ghost function Tables(): State
      reads this
    {
      State(leases, offers, declined)
    }

    /** The manager as a state of the transition system. */
    ghost function View(): System
      reads this
    {
      System(Tables(), file, clock)
    }

    ghost predicate Valid()
      reads this
    {
      ValidConfig(cfg) && Inv(cfg, Tables())
    }

    constructor (cfg: Config)
      requires ValidConfig(cfg)
      ensures this.cfg == cfg && Valid() && View() == INIT
    {
      this.cfg := cfg;
      leases, offers, declined, file := map[], map[], map[], None;
      clock := 0;
    }

    /** Deletes every entry whose time has come, one table after the other. */
    method ExpireAll(now: Time)
      modifies this`leases, this`offers, this`declined, this`clock
      ensures Tables() == Expire(old(Tables()), now) && clock == now
      ensures old(Valid()) ==> Valid()
    {
      clock := now;
      leases := Unexpired(leases, now);
      offers := Unexpired(offers, now);
      var kept := declined;
      var todo := declined.Keys;
      while todo != {}
        invariant todo <= declined.Keys
        invariant kept == map ip | ip in declined && (ip in todo || now < declined[ip]) :: declined[ip]
        decreases todo
      {
        var ip :| ip in todo;
        todo := todo - {ip};
        if declined[ip] <= now {
          kept := kept - {ip};
        }
      }
      declined := kept;
      if old(Valid()) {
        ExpireKeeps(cfg, old(Tables()), now);
      }
    }

    static method Unexpired(entries: map<ClientId, Lease>, now: Time) returns (kept: map<ClientId, Lease>)
      ensures kept == map c | c in entries && now < entries[c].expires :: entries[c]
    {
      kept := entries;
      var todo := entries.Keys;
      while todo != {}
        invariant todo <= entries.Keys
        invariant kept == map c | c in entries && (c in todo || now < entries[c].expires) :: entries[c]
        decreases todo
      {
        var c :| c in todo;
        todo := todo - {c};
        if entries[c].expires <= now {
          kept := kept - {c};
        }
      }
    }

    method OccupiedBy(client: ClientId) returns (occupied: set<IPv4>)
      ensures occupied == Occupied(Tables(), client)
    {
      occupied := {};
      var todo := leases.Keys;
      while todo != {}
        invariant todo <= leases.Keys
        invariant occupied == set c | c in leases && c !in todo && c != client :: leases[c].ip
        decreases todo
      {
        var c :| c in todo;
        todo := todo - {c};
        if c != client {
          occupied := occupied + {leases[c].ip};
        }
      }
      ghost var held := occupied;
      todo := offers.Keys;
      while todo != {}
        invariant todo <= offers.Keys
        invariant occupied == held + set c | c in offers && c !in todo && c != client :: offers[c].ip
        decreases todo
      {
        var c :| c in todo;
        todo := todo - {c};
        if c != client {
          occupied := occupied + {offers[c].ip};
        }
      }
      occupied := occupied + declined.Keys;
    }

    /** Reserves an address; the pool scan advances `candidate` until a free address or the end. */
    method OfferWithFallback(now: Time, client: ClientId, requested: Option<IPv4>, hostname: string, fallback: string)
      returns (reply: Reply)
      requires Valid() && 0 < now
      modifies this`leases, this`offers, this`declined, this`clock
      ensures Valid()
      ensures (View(), reply) == Step(cfg, old(View()), OfferCall(now, client, requested, hostname, fallback))
    {
      hide IsCanonical, Expire, Inv, Occupied;
      OfferKeeps(cfg, Tables(), now, client, requested, hostname, fallback);
      ExpireAll(now);
      if !ValidClientId(client) {
        return Unavailable;
      }
      var name := NormalizeHostname(hostname, cfg.domain);
      if hostname == "" {
        name := NormalizeHostname(fallback, cfg.domain);
        if client in offers {
          name := offers[client].hostname;
        } else if client in leases && leases[client].hostname != "" {
          name := leases[client].hostname;
        }
      }
      assert name == OfferName(cfg, Tables(), client, hostname, fallback);
      var ip: Option<IPv4> := None;
      if client in leases {
        ip := Some(leases[client].ip);
      } else if client in offers {
        ip := Some(offers[client].ip);
      } else {
        var occupied := OccupiedBy(client);
        if requested.Some? && InPool(cfg, requested.value) && requested.value !in occupied {
          ip := requested;
        } else {
          var candidate: int := cfg.poolStart;
          while candidate <= cfg.poolEnd && candidate in occupied
            invariant 0 <= candidate
            invariant LowestFree(cfg.poolStart, cfg.poolEnd, occupied) == LowestFree(candidate, cfg.poolEnd, occupied)
            decreases cfg.poolEnd + 1 - candidate
          {
            candidate := candidate + 1;
          }
          if candidate <= cfg.poolEnd {
            ip := Some(candidate);
          }
        }
      }
      assert ip == ChooseAddress(cfg, Tables(), client, requested);
      if ip.None? {
        return PoolExhausted;
      }
      var offer := Lease(client, ip.value, name, now + cfg.offerDuration);
      offers := offers[client := offer];
      reply := Granted(offer);
    }

    /** Writes the next tables to the file; `written` tells whether the operating system obliges. */
    method Persist(next: State, written: bool) returns (ok: bool)
      requires ValidConfig(cfg) && Inv(cfg, next)
      modifies this`file
      ensures ok == (!cfg.durable || written)
      ensures file == if cfg.durable && written then Some(Encode(next)) else old(file)
    {
      hide IsCanonical;
      if !cfg.durable {
        return true;
      }
      var ls := SortLeases(next.leases);
      var qs := SortQuarantines(next.declined);
      if !written {
        return false;
      }
      SortedIsEncoded(cfg, next, ls, qs);
      file := Some(Saved(1, ls, qs));
      ok := true;
    }

    /** Persists the next tables and installs them only if that succeeded. */
    method PublishTables(next: State, written: bool, success: Reply) returns (reply: Reply)
      requires Valid() && Inv(cfg, next)
      modifies this`leases, this`offers, this`declined, this`file
      ensures Valid()
      ensures (View(), reply) == Publish(cfg, old(View()), next, written, success)
    {
      hide IsCanonical, Encode;
      var ok := Persist(next, written);
      if ok {
        leases, offers, declined := next.leases, next.offers, next.declined;
      }
      reply := if ok then success else PersistFailed;
    }

    method CommitWithFallback(now: Time, client: ClientId, ip: Option<IPv4>, hostname: string, fallback: string, written: bool)
      returns (reply: Reply)
      requires Valid() && 0 < now
      modifies this
      ensures Valid()
      ensures (View(), reply) == Step(cfg, old(View()), CommitCall(now, client, ip, hostname, fallback, written))
    {
      hide IsCanonical, Expire, Inv, Encode, Publish;
      ghost var before := Tables();
      ExpireAll(now);
      ghost var s := Tables();
      var occupied := OccupiedBy(client);
      if !ValidClientId(client) || ip.None? || !InPool(cfg, ip.value) || ip.value in occupied {
        return Unavailable;
      }
      var name := NormalizeHostname(hostname, cfg.domain);
      if hostname == "" {
        name := NormalizeHostname(fallback, cfg.domain);
        if client in offers && offers[client].ip == ip.value {
          name := offers[client].hostname;
        } else if client in leases && leases[client].hostname != "" {
          name := leases[client].hostname;
        }
      }
      ghost var wanted := WantedName(cfg, s, client, ip.value, hostname, fallback);
      assert name == wanted;
      name := Register(client, name);
      assert name == RegisteredName(cfg, s, client, wanted);
      var committed := Lease(client, ip.value, name, now + cfg.leaseDuration);
      GrantKeeps(cfg, s, now, client, ip.value, hostname, fallback);
      var next := State(leases[client := committed], offers - {client}, declined);
      reply := PublishTables(next, written, Granted(committed));
    }

    /** Drops a name that is reserved or registered to someone else. */
    method Register(client: ClientId, wanted: string) returns (name: string)
      requires ValidConfig(cfg)
      ensures name == RegisteredName(cfg, Tables(), client, wanted)
    {
      name := wanted;
      if name in cfg.reserved {
        return "";
      }
      if name != "" {
        var todo := leases.Keys;
        while todo != {}
          invariant todo <= leases.Keys
          invariant forall c :: c in leases && c !in todo && c != client ==> leases[c].hostname != wanted
          decreases todo
        {
          var c :| c in todo;
          todo := todo - {c};
          if c != client && leases[c].hostname == name {
            return "";
          }
        }
      }
    }

    method IsOwner(client: ClientId, ip: Option<IPv4>) returns (owned: bool)
      ensures owned == (ip.Some? && Owns(Tables(), client, ip.value))
    {
      if client in leases && Some(leases[client].ip) == ip {
        return true;
      }
      return client in offers && Some(offers[client].ip) == ip;
    }

    /** A copy of the tables without the client's entries for the address. */
    method WithoutAddress(client: ClientId, ip: IPv4) returns (next: State)
      ensures next == Remove(Tables(), client, ip)
    {
      next := State(leases, offers, declined);
      if client in leases && leases[client].ip == ip {
        next := next.(leases := leases - {client});
      }
      if client in offers && offers[client].ip == ip {
        next := next.(offers := offers - {client});
      }
    }

    method Release(now: Time, client: ClientId, ip: Option<IPv4>, written: bool) returns (reply: Reply)
      requires Valid() && 0 < now
      modifies this
      ensures Valid()
      ensures (View(), reply) == Step(cfg, old(View()), ReleaseCall(now, client, ip, written))
    {
      hide IsCanonical, Expire, Inv, Encode, Publish;
      ExpireAll(now);
      var owned := IsOwner(client, ip);
      if !owned {
        return Unavailable;
      }
      RemoveKeeps(cfg, Tables(), client, ip.value);
      var next := WithoutAddress(client, ip.value);
      hide Remove;
      reply := PublishTables(next, written, Done);
    }

    method Decline(now: Time, client: ClientId, ip: Option<IPv4>, written: bool) returns (reply: Reply)
      requires Valid() && 0 < now
      modifies this
      ensures Valid()
      ensures (View(), reply) == Step(cfg, old(View()), DeclineCall(now, client, ip, written))
    {
      hide IsCanonical, Expire, Inv, Encode, Publish, Remove;
      ExpireAll(now);
      var owned := IsOwner(client, ip);
      if !owned {
        return Unavailable;
      }
      DeclineKeeps(cfg, Tables(), client, ip.value, now);
      var next := WithoutAddress(client, ip.value);
      next := next.(declined := next.declined[ip.value := now + cfg.declineDuration]);
      assert next == Declined(cfg, Tables(), client, ip.value, now);
      reply := PublishTables(next, written, Done);
    }

    /** The live lease of a DNS name; names are unique, so the order of the search does not matter. */
    method FindName(now: Time, name: string) returns (r: Option<Lease>)
      requires Valid()
      modifies this`leases, this`offers, this`declined, this`clock
      ensures Valid() && View() == Step(cfg, old(View()), LookupCall(now)).0
      ensures r == LookupName(cfg, Tables(), name)
    {
      hide IsCanonical, Expire;
      ExpireAll(now);
      var n := NormalizeHostname(name, cfg.domain);
      if n == "" || n in cfg.reserved {
        return None;
      }
      var todo := leases.Keys;
      while todo != {}
        invariant todo <= leases.Keys
        invariant forall c :: c in leases && c !in todo ==> leases[c].hostname != n
        decreases todo
      {
        var c :| c in todo;
        todo := todo - {c};
        if leases[c].hostname == n {
          return Some(leases[c]);
        }
      }
      r := None;
    }

    method FindIP(now: Time, ip: IPv4) returns (r: Option<Lease>)
      requires Valid()
      modifies this`leases, this`offers, this`declined, this`clock
      ensures Valid() && View() == Step(cfg, old(View()), LookupCall(now)).0
      ensures r == LookupIP(Tables(), ip)
    {
      hide IsCanonical, Expire;
      ExpireAll(now);
      var todo := leases.Keys;
      while todo != {}
        invariant todo <= leases.Keys
        invariant forall c :: c in leases && c !in todo ==> leases[c].ip != ip
        decreases todo
      {
        var c :| c in todo;
        todo := todo - {c};
        if leases[c].ip == ip {
          return Some(leases[c]);
        }
      }
      r := None;
    }

    method FindNameAtOrBelow(now: Time, name: string) returns (found: bool)
      requires Valid()
      modifies this`leases, this`offers, this`declined, this`clock
      ensures Valid() && View() == Step(cfg, old(View()), LookupCall(now)).0
      ensures found == HasName(cfg, Tables(), name)
    {
      hide IsCanonical, Expire, NormalizeHostname, ToLower;
      ExpireAll(now);
      var n := ToLower(TrimSuffix(name, "."));
      if n == cfg.domain {
        n := n + ".";
      } else {
        n := NormalizeHostname(name, cfg.domain);
      }
      if n == "" {
        return false;
      }
      var todo := leases.Keys;
      while todo != {}
        invariant todo <= leases.Keys
        invariant forall c :: c in leases && c !in todo ==> !AtOrBelow(cfg, leases[c], n)
        decreases todo
      {
        var c :| c in todo;
        todo := todo - {c};
        var hostname := leases[c].hostname;
        if hostname == "" || hostname in cfg.reserved {
          continue;
        }
        if hostname == n || HasSuffix(hostname, "." + n) {
          return true;
        }
      }
      found := false;
    }

    /** The first loop of a restore; `acc` is what the tables and the two sets hold together. */
    method RestoreSavedLeases(saved: seq<Lease>, now: Time) returns (ok: bool, addresses: set<IPv4>, ghost acc: Restoring)
      requires leases == map[]
      modifies this`leases
      ensures ok == RestoreLeases(cfg, now, NOTHING, saved).Some?
      ensures ok ==> RestoreLeases(cfg, now, NOTHING, saved) == Some(acc)
                     && acc.leases == leases && acc.addresses == addresses && acc.declined == map[]
    {
      hide NormalizeHostname;
      addresses, acc, ok := {}, NOTHING, false;
      var names: set<string> := {};
      for i := 0 to |saved|
        invariant acc == Restoring(leases, addresses, names, map[])
        invariant RestoreLeases(cfg, now, NOTHING, saved) == RestoreLeases(cfg, now, acc, saved[i..])
      {
        assert saved[i..][0] == saved[i] && saved[i..][1..] == saved[i + 1..];
        var current := saved[i];
        if !ValidClientId(current.client) || !InPool(cfg, current.ip) || current.expires == 0 {
          return;
        }
        if current.hostname != "" && (NormalizeHostname(current.hostname, cfg.domain) != current.hostname
                                      || current.hostname == "ns." + cfg.domain + ".") {
          return;
        }
        if current.expires <= now {
          continue;
        }
        if current.client in leases || current.ip in addresses || (current.hostname != "" && current.hostname in names) {
          return;
        }
        addresses := addresses + {current.ip};
        if current.hostname != "" {
          names := names + {current.hostname};
        }
        if current.hostname in cfg.reserved {
          current := current.(hostname := "");
        }
        leases := leases[current.client := current];
        acc := Restoring(leases, addresses, names, map[]);
      }
      ok := true;
    }

    method RestoreSavedQuarantines(saved: seq<Quarantine>, now: Time, taken: set<IPv4>, ghost from: Restoring) returns (ok: bool)
      requires declined == map[] && from.leases == leases && from.addresses == taken && from.declined == map[]
      modifies this`declined
      ensures ok == RestoreQuarantines(cfg, now, from, saved).Some?
      ensures ok ==> RestoreQuarantines(cfg, now, from, saved).value.leases == leases
                     && RestoreQuarantines(cfg, now, from, saved).value.declined == declined
    {
      var addresses := taken;
      ghost var acc := from;
      for i := 0 to |saved|
        invariant acc == from.(addresses := addresses, declined := declined)
        invariant RestoreQuarantines(cfg, now, from, saved) == RestoreQuarantines(cfg, now, acc, saved[i..])
      {
        assert saved[i..][0] == saved[i] && saved[i..][1..] == saved[i + 1..];
        var q := saved[i];
        if !InPool(cfg, q.ip) || q.expires == 0 {
          return false;
        }
        if q.expires <= now {
          continue;
        }
        if q.ip in addresses {
          return false;
        }
        addresses := addresses + {q.ip};
        declined := declined[q.ip := q.expires];
        acc := from.(addresses := addresses, declined := declined);
      }
      ok := true;
    }

    /** A new process: empty tables, filled from the file if there is one. It does not come up when the
        file has a malformed entry or a clash. */
    method Restore(now: Time) returns (ok: bool)
      modifies this`leases, this`offers, this`declined
      ensures ok == (Step(cfg, old(View()), Leases.Restart(now)).1 == Done)
      ensures ok ==> Tables() == Step(cfg, old(View()), Leases.Restart(now)).0.st
    {
      hide RestoreLeases, RestoreQuarantines, Encode;
      leases, offers, declined := map[], map[], map[];
      if !cfg.durable || file.None? {
        return true;
      }
      var saved := file.value;
      if saved.version != 1 {
        return false;
      }
      var restored, addresses, acc := RestoreSavedLeases(saved.leases, now);
      if !restored {
        return false;
      }
      ok := RestoreSavedQuarantines(saved.declined, now, addresses, acc);
    }
  }
}
