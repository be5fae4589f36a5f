/** What each call does to the lease tables, entry by entry, and what a client may then rely on. */
module LeaseEffects {
  import opened Common
  import opened Hostname
  import opened Leases
  import opened LeaseSafety
  import opened LeaseRuns

  // ----- Entries -----

  /** The entry of the client is the same in both tables, unless it has run out. */
  ghost predicate SameUnlessExpired(before: map<ClientId, Lease>, after: map<ClientId, Lease>, now: Time, c: ClientId) {
    if c in before && now < before[c].expires then c in after && after[c] == before[c] else c !in after
  }

  ghost predicate SameQuarantine(before: State, after: State, now: Time, ip: IPv4) {
    if ip in before.declined && now < before.declined[ip] then ip in after.declined && after.declined[ip] == before.declined[ip]
    else ip !in after.declined
  }

  /** The client has the address at this time, by a lease or an offer. */
  ghost predicate HasNow(st: State, now: Time, c: ClientId, ip: IPv4) {
    || (c in st.leases && st.leases[c].ip == ip && now < st.leases[c].expires)
    || (c in st.offers && st.offers[c].ip == ip && now < st.offers[c].expires)
  }

  /** Whom a call is for. */
  predicate CallOf(e: Event, c: ClientId) {
    (e.OfferCall? || e.CommitCall? || e.ReleaseCall? || e.DeclineCall?) && e.client == c
  }

  lemma ExpiredSame(st: State, now: Time, c: ClientId, ip: IPv4)
    ensures SameUnlessExpired(st.leases, Expire(st, now).leases, now, c) && SameUnlessExpired(st.offers, Expire(st, now).offers, now, c)
    ensures SameQuarantine(st, Expire(st, now), now, ip)
    ensures HasNow(st, now, c, ip) <==> Owns(Expire(st, now), c, ip)
  {
  }

  lemma OthersLeased(cfg: Config, sys: System, e: Event, c: ClientId)
    requires !e.Restart? && !CallOf(e, c)
    ensures var s, after := Expire(sys.st, e.now).leases, Step(cfg, sys, e).0.st.leases;
            (c in after <==> c in s) && (c in s ==> after[c] == s[c])
  {
    hide Expire, Occupied, ChooseAddress, OfferName, WantedName, RegisteredName, Encode, Owns;
  }

  lemma OthersOffered(cfg: Config, sys: System, e: Event, c: ClientId)
    requires !e.Restart? && !CallOf(e, c)
    ensures var s, after := Expire(sys.st, e.now).offers, Step(cfg, sys, e).0.st.offers;
            (c in after <==> c in s) && (c in s ==> after[c] == s[c])
  {
    hide Expire, Occupied, ChooseAddress, OfferName, WantedName, RegisteredName, Encode, Owns;
  }

  lemma QuarantinesInTables(cfg: Config, sys: System, e: Event, ip: IPv4)
    requires !e.Restart? && !(e.DeclineCall? && e.ip == Some(ip))
    ensures var s, after := Expire(sys.st, e.now), Step(cfg, sys, e).0.st;
            (ip in after.declined <==> ip in s.declined) && (ip in s.declined ==> after.declined[ip] == s.declined[ip])
  {
    hide Expire, Occupied, ChooseAddress, OfferName, WantedName, RegisteredName, Encode, Owns;
  }

  /** No call changes the entries of other clients, except that those that have run out are gone; and only a
      decline changes a quarantine that has not ended. */
  lemma OthersUntouched(cfg: Config, sys: System, e: Event, c: ClientId, ip: IPv4)
    requires !e.Restart?
    ensures var after := Step(cfg, sys, e).0.st;
            && (!CallOf(e, c) ==> SameUnlessExpired(sys.st.leases, after.leases, e.now, c) && SameUnlessExpired(sys.st.offers, after.offers, e.now, c))
            && (!(e.DeclineCall? && e.ip == Some(ip)) ==> SameQuarantine(sys.st, after, e.now, ip))
  {
    hide Expire, Step;
    ExpiredSame(sys.st, e.now, c, ip);
    if !CallOf(e, c) {
      OthersLeased(cfg, sys, e, c);
      OthersOffered(cfg, sys, e, c);
    }
    if !(e.DeclineCall? && e.ip == Some(ip)) {
      QuarantinesInTables(cfg, sys, e, ip);
    }
  }

  // ----- Giving an address up -----

  /** A release or decline is carried out exactly if the client has the address and the file could be written. */
  lemma GivenUpIff(cfg: Config, sys: System, e: Event)
    requires e.ReleaseCall? || e.DeclineCall?
    ensures Step(cfg, sys, e).1 == Done <==>
              e.ip.Some? && HasNow(sys.st, e.now, e.client, e.ip.value) && (cfg.durable ==> e.written)
  {
    if e.ip.Some? {
      ExpiredSame(sys.st, e.now, e.client, e.ip.value);
    }
    hide Expire, Encode, Owns, Remove;
  }

  /** Nobody has the address; and if it was not declined it can be given to everybody. */
  ghost predicate Freed(cfg: Config, st: State, ip: IPv4, declined: bool) {
    && (forall c :: !Owns(st, c, ip))
    && (!declined ==> forall c :: Available(cfg, st, c, ip))
  }

  lemma FreedByStep(cfg: Config, sys: System, e: Event)
    requires Inv(cfg, sys.st) && (e.ReleaseCall? || e.DeclineCall?) && Step(cfg, sys, e).1 == Done
    ensures e.ip.Some? && InPool(cfg, e.ip.value) && Freed(cfg, Step(cfg, sys, e).0.st, e.ip.value, e.DeclineCall?)
    ensures e.DeclineCall? ==>
              var after := Step(cfg, sys, e).0.st; e.ip.value in after.declined && after.declined[e.ip.value] == e.now + cfg.declineDuration
  {
    hide Encode, Inv, Expire, Remove, Owns;
    ExpireKeeps(cfg, sys.st, e.now);
    var s := Expire(sys.st, e.now);
    RemoveKeeps(cfg, s, e.client, e.ip.value);
    OwnedInPool(cfg, s, e.client, e.ip.value);
    var removed := Remove(s, e.client, e.ip.value);
    FreedRemoved(cfg, removed, e.ip.value, e.now + cfg.declineDuration);
    hide Freed;
  }

  lemma OwnedInPool(cfg: Config, st: State, c: ClientId, ip: IPv4)
    requires Inv(cfg, st) && Owns(st, c, ip)
    ensures InPool(cfg, ip) && ip !in Remove(st, c, ip).declined
  {
    hide IsCanonical;
  }

  lemma FreedRemoved(cfg: Config, st: State, ip: IPv4, until: Time)
    requires InPool(cfg, ip) && ip !in st.declined && forall c :: !Owns(st, c, ip)
    ensures Freed(cfg, st, ip, false) && Freed(cfg, st.(declined := st.declined[ip := until]), ip, true)
  {
    var next := st.(declined := st.declined[ip := until]);
    forall c ensures !Owns(next, c, ip) {
      assert !Owns(st, c, ip);
    }
  }

  lemma FreedLater(cfg: Config, st: State, now: Time, ip: IPv4, declined: bool)
    requires Freed(cfg, st, ip, declined) && InPool(cfg, ip)
    ensures Freed(cfg, Live(st, now), ip, declined)
  {
    forall c ensures !Owns(Live(st, now), c, ip) {
      assert !Owns(st, c, ip);
    }
    if !declined {
      assert Available(cfg, st, Utf8("a"), ip);
    }
  }

  lemma FreedAndStored(cfg: Config, sys: System, e: Event, later: Time)
    requires ValidConfig(cfg) && SystemInv(cfg, sys) && 0 < e.now && sys.clock <= e.now <= later
    requires (e.ReleaseCall? || e.DeclineCall?) && Step(cfg, sys, e).1 == Done && cfg.durable
    ensures e.ip.Some? && Freed(cfg, Step(cfg, Step(cfg, sys, e).0, Restart(later)).0.st, e.ip.value, e.DeclineCall?)
  {
    hide Step, ValidConfig, Freed, Inv, Live, Encode;
    var after := Step(cfg, sys, e).0;
    SystemTables(cfg, sys);
    FreedByStep(cfg, sys, e);
    StepKeeps(cfg, sys, e);
    ClockFollows(cfg, sys, e);
    RestartRestoresLive(cfg, after, Restart(later));
    FreedLater(cfg, after.st, later, e.ip.value, e.DeclineCall?);
  }

  /** Giving up takes effect, in every run: when a release or decline is answered with success nobody has the
      address any more. A released address is then available to every client, a declined one in quarantine.
      With a lease file the same is true after a restart at any later time. */
  lemma GivenUpIsFree(cfg: Config, states: seq<System>, events: seq<Event>, k: nat, later: Time)
    requires ValidConfig(cfg) && IsRun(cfg, states, events) && k < |events| && events[k].now <= later
    requires (events[k].ReleaseCall? || events[k].DeclineCall?) && Step(cfg, states[k], events[k]).1 == Done
    ensures var (e, after) := (events[k], states[k + 1]);
            && e.ip.Some? && Freed(cfg, after.st, e.ip.value, e.DeclineCall?)
            && (e.DeclineCall? ==> e.ip.value in after.st.declined && after.st.declined[e.ip.value] == e.now + cfg.declineDuration)
            && (cfg.durable ==> Freed(cfg, Step(cfg, after, Restart(later)).0.st, e.ip.value, e.DeclineCall?))
  {
    hide Step, ValidConfig, Freed, Inv, Encode;
    assert StepAt(cfg, states, events, k);
    RunKeeps(cfg, states, events, k);
    FreedByStep(cfg, states[k], events[k]);
    if cfg.durable {
      FreedAndStored(cfg, states[k], events[k], later);
    }
  }

  lemma SystemTables(cfg: Config, sys: System)
    requires SystemInv(cfg, sys)
    ensures Inv(cfg, sys.st)
  {
    hide Inv, Encode;
  }

  // ----- Commits -----

  /** A commit is granted exactly if the client is valid, the address is in the pool, nobody else has it, it
      is not in quarantine, and the file could be written. */
  lemma GrantedIff(cfg: Config, sys: System, e: Event)
    requires e.CommitCall?
    ensures Step(cfg, sys, e).1.Granted? <==>
              && ValidClientId(e.client) && e.ip.Some? && InPool(cfg, e.ip.value) && (cfg.durable ==> e.written)
              && (forall c :: c != e.client ==> !HasNow(sys.st, e.now, c, e.ip.value))
              && !(e.ip.value in sys.st.declined && e.now < sys.st.declined[e.ip.value])
  {
    if e.ip.Some? {
      AvailableIsUnoccupied(cfg, Expire(sys.st, e.now), e.client, e.ip.value);
      forall c ensures HasNow(sys.st, e.now, c, e.ip.value) <==> Owns(Expire(sys.st, e.now), c, e.ip.value) {
        ExpiredSame(sys.st, e.now, c, e.ip.value);
      }
      ExpiredSame(sys.st, e.now, e.client, e.ip.value);
    }
    hide Expire, Occupied, WantedName, RegisteredName, Encode, Owns, HasNow, Granting;
  }

  /** Another client's live lease has this name. */
  ghost predicate TakenNow(st: State, now: Time, client: ClientId, name: string) {
    exists c :: c in st.leases && c != client && now < st.leases[c].expires && st.leases[c].hostname == name
  }

  /** The name a client asks for: the one it sends; else the one it was offered with the address; else the one
      it has; else the fallback. */
  ghost predicate AsksFor(cfg: Config, st: State, e: Event, name: string)
    requires e.CommitCall? && e.ip.Some?
  {
    if e.hostname != "" then name == NormalizeHostname(e.hostname, cfg.domain)
    else if e.client in st.offers && e.now < st.offers[e.client].expires && st.offers[e.client].ip == e.ip.value then
      name == st.offers[e.client].hostname
    else if e.client in st.leases && e.now < st.leases[e.client].expires && st.leases[e.client].hostname != "" then
      name == st.leases[e.client].hostname
    else name == NormalizeHostname(e.fallback, cfg.domain)
  }

  /** A granted commit records exactly this lease, for the full duration and under the name asked for unless
      that is reserved or another live lease has it; and the offer is used up. */
  lemma GrantRecords(cfg: Config, sys: System, e: Event)
    requires e.CommitCall? && Step(cfg, sys, e).1.Granted?
    ensures var (after, reply) := Step(cfg, sys, e);
            && e.ip.Some? && e.client in after.st.leases && after.st.leases[e.client] == reply.lease && e.client !in after.st.offers
            && reply.lease.client == e.client && reply.lease.ip == e.ip.value && reply.lease.expires == e.now + cfg.leaseDuration
    ensures forall name :: AsksFor(cfg, sys.st, e, name) ==>
              Step(cfg, sys, e).1.lease.hostname == if name in cfg.reserved || TakenNow(sys.st, e.now, e.client, name) then "" else name
  {
    hide NormalizeHostname, Encode, Occupied;
    var s := Expire(sys.st, e.now);
    forall name ensures NameTaken(s, e.client, name) <==> TakenNow(sys.st, e.now, e.client, name) {
      TakenIff(sys.st, e.now, e.client, name);
    }
    hide NameTaken, TakenNow;
  }

  lemma TakenIff(st: State, now: Time, client: ClientId, name: string)
    ensures NameTaken(Expire(st, now), client, name) <==> TakenNow(st, now, client, name)
  {
    var s := Expire(st, now);
    if c :| c in st.leases && c != client && now < st.leases[c].expires && st.leases[c].hostname == name {
      assert c in s.leases && s.leases[c].hostname == name;
    }
  }

  // ----- Offers -----

  /** The name an offer carries: the one the client sends; else the one it was last offered; else the one it
      has; else the fallback. */
  ghost predicate OffersName(cfg: Config, st: State, e: Event, name: string)
    requires e.OfferCall?
  {
    if e.hostname != "" then name == NormalizeHostname(e.hostname, cfg.domain)
    else if e.client in st.offers && e.now < st.offers[e.client].expires then name == st.offers[e.client].hostname
    else if e.client in st.leases && e.now < st.leases[e.client].expires && st.leases[e.client].hostname != "" then
      name == st.leases[e.client].hostname
    else name == NormalizeHostname(e.fallback, cfg.domain)
  }

  /** A granted offer is recorded for its full duration, and the client's lease is as it was. */
  lemma OfferRecords(cfg: Config, sys: System, e: Event)
    requires e.OfferCall? && Step(cfg, sys, e).1.Granted?
    ensures var (after, reply) := Step(cfg, sys, e);
            && e.client in after.st.offers && after.st.offers[e.client] == reply.lease
            && reply.lease.client == e.client && reply.lease.expires == e.now + cfg.offerDuration
            && SameUnlessExpired(sys.st.leases, after.st.leases, e.now, e.client)
            && OffersName(cfg, sys.st, e, reply.lease.hostname)
  {
    hide ChooseAddress, NormalizeHostname;
  }

  /** The client holds an offer of `ip` that lasts at least until `until`. */
  ghost predicate Offered(sys: System, client: ClientId, ip: IPv4, until: Time) {
    client in sys.st.offers && sys.st.offers[client].ip == ip && until <= sys.st.offers[client].expires
  }

  /** The client takes up an address: whatever it was offered is then settled. */
  ghost predicate TakesUp(cfg: Config, sys: System, e: Event, client: ClientId) {
    e.CommitCall? && e.client == client && Step(cfg, sys, e).1.Granted?
  }

  lemma OfferSurvives(cfg: Config, sys: System, e: Event, client: ClientId, ip: IPv4, until: Time)
    requires ValidConfig(cfg) && Inv(cfg, sys.st) && Offered(sys, client, ip, until) && e.now < until <= e.now + cfg.offerDuration
    requires !e.Restart? && !GivesUp(cfg, sys, e, client, ip) && !TakesUp(cfg, sys, e, client)
    ensures Offered(Step(cfg, sys, e).0, client, ip, until)
  {
    hide Step, GivesUp, TakesUp, Inv;
    if !CallOf(e, client) {
      OthersUntouched(cfg, sys, e, client, ip);
    } else if e.OfferCall? {
      OwnOfferRenewed(cfg, sys, e, client, ip, until);
    } else {
      OwnOfferKept(cfg, sys, e, client, ip, until);
    }
  }

  /** An offer that is renewed is for the same address. */
  lemma OwnOfferRenewed(cfg: Config, sys: System, e: Event, client: ClientId, ip: IPv4, until: Time)
    requires Inv(cfg, sys.st) && Offered(sys, client, ip, until) && e.now < until <= e.now + cfg.offerDuration
    requires e.OfferCall? && e.client == client
    ensures Offered(Step(cfg, sys, e).0, client, ip, until)
  {
    ExpireKeeps(cfg, sys.st, e.now);
    var s := Expire(sys.st, e.now);
    assert client in s.offers && s.offers[client] == sys.st.offers[client];
    assert client in s.leases ==> s.leases[client].ip == ip;
    assert ValidClientId(client);
    hide OfferName, Expire, Inv, Occupied, NormalizeHostname, LowestFree;
  }

  lemma OwnOfferKept(cfg: Config, sys: System, e: Event, client: ClientId, ip: IPv4, until: Time)
    requires Offered(sys, client, ip, until) && e.now < until
    requires CallOf(e, client) && !e.OfferCall? && !GivesUp(cfg, sys, e, client, ip) && !TakesUp(cfg, sys, e, client)
    ensures Offered(Step(cfg, sys, e).0, client, ip, until)
  {
    var s := Expire(sys.st, e.now);
    assert client in s.offers && s.offers[client] == sys.st.offers[client];
    hide Expire, Occupied, Encode, WantedName, RegisteredName, NormalizeHostname;
  }

  lemma {:induction false} OfferLasts(cfg: Config, states: seq<System>, events: seq<Event>, i: nat, j: nat, client: ClientId, ip: IPv4)
    requires ValidConfig(cfg) && IsRun(cfg, states, events) && i < j < |states|
    requires events[i].OfferCall? && Hands(cfg, states[i], events[i], client, ip)
    requires forall k :: i < k < j ==>
               !events[k].Restart? && !GivesUp(cfg, states[k], events[k], client, ip) && !TakesUp(cfg, states[k], events[k], client)
    requires forall k :: i < k < j ==> events[k].now < events[i].now + cfg.offerDuration
    ensures Offered(states[j], client, ip, events[i].now + cfg.offerDuration) && events[i].now <= states[j].clock
  {
    hide Inv, Encode, GivesUp, TakesUp, Step, OffersName;
    assert StepAt(cfg, states, events, j - 1);
    ClockFollows(cfg, states[j - 1], events[j - 1]);
    if i + 1 < j {
      OfferLasts(cfg, states, events, i, j - 1, client, ip);
      RunKeeps(cfg, states, events, j - 1);
      OfferSurvives(cfg, states[j - 1], events[j - 1], client, ip, events[i].now + cfg.offerDuration);
    } else {
      OfferRecords(cfg, states[i], events[i]);
    }
  }

  /** An offered address is reserved, in every run: until the offer runs out, the client takes it up or gives it
      up, or the process restarts, the address is handed to nobody else. */
  lemma OfferReserves(cfg: Config, states: seq<System>, events: seq<Event>, i: nat, j: nat, client: ClientId, ip: IPv4, other: ClientId)
    requires ValidConfig(cfg) && IsRun(cfg, states, events) && i < j < |events|
    requires events[i].OfferCall? && Hands(cfg, states[i], events[i], client, ip)
    requires forall k :: i < k < j ==>
               !events[k].Restart? && !GivesUp(cfg, states[k], events[k], client, ip) && !TakesUp(cfg, states[k], events[k], client)
    requires events[j].now < events[i].now + cfg.offerDuration
    ensures Hands(cfg, states[j], events[j], other, ip) ==> other == client
  {
    hide Inv, Encode, GivesUp, TakesUp, Step, Hands;
    ClockMonotone(cfg, states, events, j);
    OfferLasts(cfg, states, events, i, j, client, ip);
    RunKeeps(cfg, states, events, j);
    if Hands(cfg, states[j], events[j], other, ip) {
      HandsOnlyFree(cfg, states[j], events[j], other, ip);
      OfferedIsOccupied(states[j], events[j].now, client, ip, events[i].now + cfg.offerDuration, other);
    }
  }

  lemma OfferedIsOccupied(sys: System, now: Time, client: ClientId, ip: IPv4, until: Time, other: ClientId)
    requires Offered(sys, client, ip, until) && now < until
    ensures other != client ==> ip in Occupied(Expire(sys.st, now), other)
  {
    assert client in Expire(sys.st, now).offers;
  }
}
