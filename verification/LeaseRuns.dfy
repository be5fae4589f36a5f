/** Properties of whole runs of the lease allocator, restarts and failed writes included. */
module LeaseRuns {
  import opened Common
  import opened Leases
  import opened LeaseSafety

  // ----- The file never disagrees with memory about what is live -----

  /** The file was written from some earlier tables that agree with memory on everything still live. */
  ghost predicate WrittenFrom(cfg: Config, sys: System, base: State) {
    Inv(cfg, base) && sys.file == Some(Encode(base)) && Live(base, sys.clock) == Live(sys.st, sys.clock)
  }

  ghost predicate SystemInv(cfg: Config, sys: System) {
    && Inv(cfg, sys.st)
    && (cfg.durable && sys.file.None? ==> Live(sys.st, sys.clock) == EMPTY)
    && (cfg.durable && sys.file.Some? ==> exists base :: WrittenFrom(cfg, sys, base))
  }

  lemma LiveLater(st: State, t: Time, now: Time)
    requires t <= now
    ensures Live(Live(st, t), now) == Live(st, now)
    ensures Live(Expire(st, t), now) == Live(st, now)
  {
  }

  lemma AgreeLater(a: State, b: State, t: Time, now: Time)
    requires t <= now && Live(a, t) == Live(b, t)
    ensures Live(a, now) == Live(b, now)
  {
    LiveLater(a, t, now);
    LiveLater(b, t, now);
  }

  /** Any step that leaves the file alone and changes no live lease or quarantine keeps the system invariant. */
  lemma QuietStepKeeps(cfg: Config, sys: System, st: State, now: Time)
    requires SystemInv(cfg, sys) && sys.clock <= now
    requires Inv(cfg, st) && Live(st, now) == Live(sys.st, now)
    ensures SystemInv(cfg, sys.(st := st, clock := now))
  {
    hide Inv, Live, Encode;
    var after := sys.(st := st, clock := now);
    if cfg.durable && sys.file.Some? {
      var base :| WrittenFrom(cfg, sys, base);
      AgreeLater(base, sys.st, sys.clock, now);
      assert WrittenFrom(cfg, after, base);
    } else if cfg.durable {
      EmptyLive(now);
      EmptyLive(sys.clock);
      AgreeLater(EMPTY, sys.st, sys.clock, now);
    }
  }

  lemma EmptyLive(now: Time)
    ensures Live(EMPTY, now) == EMPTY
  {
  }

  lemma PublishKeeps(cfg: Config, sys: System, next: State, written: bool, reply: Reply)
    requires SystemInv(cfg, sys) && Inv(cfg, next)
    ensures SystemInv(cfg, Publish(cfg, sys, next, written, reply).0)
  {
    hide Inv, Live, Encode;
    var after := Publish(cfg, sys, next, written, reply).0;
    if cfg.durable && written {
      assert WrittenFrom(cfg, after, next);
    }
  }

  /** Restoring the file at any later time succeeds and yields the live tables. */
  lemma RestoreYieldsLive(cfg: Config, sys: System, now: Time)
    requires ValidConfig(cfg) && SystemInv(cfg, sys) && sys.clock <= now && cfg.durable
    ensures sys.file.None? ==> Live(sys.st, now) == EMPTY
    ensures sys.file.Some? ==> Decode(cfg, sys.file.value, now) == Some(Live(sys.st, now))
  {
    hide Inv, Live, Encode, Decode, ValidConfig;
    if sys.file.Some? {
      var base :| WrittenFrom(cfg, sys, base);
      AgreeLater(base, sys.st, sys.clock, now);
      FileRoundTrip(cfg, base, now);
    } else {
      EmptyLive(now);
      EmptyLive(sys.clock);
      AgreeLater(EMPTY, sys.st, sys.clock, now);
    }
  }

  lemma OfferKeepsLive(cfg: Config, st: State, now: Time, client: ClientId, requested: Option<IPv4>,
                       hostname: string, fallback: string)
    ensures Live(Offer(cfg, st, now, client, requested, hostname, fallback).0, now) == Live(st, now)
  {
    hide ChooseAddress, OfferName;
  }

  lemma LiveKeeps(cfg: Config, st: State, now: Time)
    requires Inv(cfg, st)
    ensures Inv(cfg, Live(st, now)) && Inv(cfg, EMPTY)
  {
    var s := Expire(st, now);
    ExpireKeeps(cfg, st, now);
    OffersDropped(cfg, s);
    assert Live(st, now) == s.(offers := map[]);
    hide Inv;
    EmptyKeeps(cfg);
  }

  lemma OffersDropped(cfg: Config, st: State)
    requires Inv(cfg, st)
    ensures Inv(cfg, st.(offers := map[]))
  {
    hide EntryOk, InPool;
  }

  lemma EmptyKeeps(cfg: Config)
    ensures Inv(cfg, EMPTY)
  {
  }

  lemma StepKeeps(cfg: Config, sys: System, e: Event)
    requires ValidConfig(cfg) && SystemInv(cfg, sys) && 0 < e.now && sys.clock <= e.now
    ensures SystemInv(cfg, Step(cfg, sys, e).0)
  {
    hide SystemInv, Inv, Live, Expire, Offer, Occupied, WantedName, RegisteredName, Granting, Remove, Encode, Decode, Publish;
    var now := e.now;
    var s := Expire(sys.st, now);
    StartOfStep(cfg, sys, now);
    var quiet := sys.(st := s, clock := now);
    match e
    case OfferCall(_, client, requested, hostname, fallback) =>
      OfferKeeps(cfg, sys.st, now, client, requested, hostname, fallback);
      OfferKeepsLive(cfg, sys.st, now, client, requested, hostname, fallback);
      QuietStepKeeps(cfg, sys, Offer(cfg, sys.st, now, client, requested, hostname, fallback).0, now);
    case CommitCall(_, client, ip, hostname, fallback, written) =>
      if ValidClientId(client) && ip.Some? && InPool(cfg, ip.value) && ip.value !in Occupied(s, client) {
        GrantKeeps(cfg, s, now, client, ip.value, hostname, fallback);
        var name := RegisteredName(cfg, s, client, WantedName(cfg, s, client, ip.value, hostname, fallback));
        var lease := Lease(client, ip.value, name, now + cfg.leaseDuration);
        PublishKeeps(cfg, quiet, Granting(s, lease), written, Granted(lease));
      }
    case ReleaseCall(_, client, ip, written) =>
      if ip.Some? && Owns(s, client, ip.value) {
        RemoveKeeps(cfg, s, client, ip.value);
        PublishKeeps(cfg, quiet, Remove(s, client, ip.value), written, Done);
      }
    case DeclineCall(_, client, ip, written) =>
      if ip.Some? && Owns(s, client, ip.value) {
        DeclineKeeps(cfg, s, client, ip.value, now);
        PublishKeeps(cfg, quiet, Declined(cfg, s, client, ip.value, now), written, Done);
      }
    case LookupCall(_) =>
    case Restart(_) =>
      RestartKeeps(cfg, sys, now);
  }

  function Declined(cfg: Config, st: State, client: ClientId, ip: IPv4, now: Time): State {
    var removed := Remove(st, client, ip);
    removed.(declined := removed.declined[ip := now + cfg.declineDuration])
  }

  lemma OwnedInPool(cfg: Config, st: State, client: ClientId, ip: IPv4)
    requires Inv(cfg, st) && Owns(st, client, ip)
    ensures InPool(cfg, ip)
  {
  }

  lemma Durations(cfg: Config)
    requires ValidConfig(cfg)
    ensures 0 < cfg.leaseDuration && 0 < cfg.offerDuration && 0 < cfg.declineDuration
  {
    hide Hostname.ValidDNSName;
  }

  lemma DeclineKeeps(cfg: Config, st: State, client: ClientId, ip: IPv4, now: Time)
    requires ValidConfig(cfg) && Inv(cfg, st) && 0 < now && Owns(st, client, ip)
    ensures Inv(cfg, Declined(cfg, st, client, ip, now))
  {
    hide Inv, Remove, Owns, ValidConfig;
    Durations(cfg);
    OwnedInPool(cfg, st, client, ip);
    RemoveKeeps(cfg, st, client, ip);
    QuarantineKeeps(cfg, Remove(st, client, ip), ip, now + cfg.declineDuration);
  }

  lemma StartOfStep(cfg: Config, sys: System, now: Time)
    requires SystemInv(cfg, sys) && sys.clock <= now
    ensures Inv(cfg, sys.st) && Inv(cfg, Expire(sys.st, now))
    ensures SystemInv(cfg, sys.(st := Expire(sys.st, now), clock := now))
  {
    hide Hostname.IsCanonical;
    ExpireKeeps(cfg, sys.st, now);
    LiveLater(sys.st, now, now);
    QuietStepKeeps(cfg, sys, Expire(sys.st, now), now);
  }

  lemma RestartKeeps(cfg: Config, sys: System, now: Time)
    requires ValidConfig(cfg) && SystemInv(cfg, sys) && sys.clock <= now && 0 < now
    ensures SystemInv(cfg, Step(cfg, sys, Restart(now)).0)
  {
    hide Inv, Live, Encode, Decode, Offer;
    LiveKeeps(cfg, sys.st, now);
    if cfg.durable {
      RestoreYieldsLive(cfg, sys, now);
      LiveLater(sys.st, now, now);
      QuietStepKeeps(cfg, sys, Live(sys.st, now), now);
    }
  }

  lemma {:induction false} RunKeeps(cfg: Config, states: seq<System>, events: seq<Event>, k: nat)
    requires ValidConfig(cfg) && IsRun(cfg, states, events) && k < |states|
    ensures SystemInv(cfg, states[k])
  {
    hide Step, Inv;
    if k == 0 {
      InitOk(cfg);
    } else {
      RunKeeps(cfg, states, events, k - 1);
      assert StepAt(cfg, states, events, k - 1);
      StepKeeps(cfg, states[k - 1], events[k - 1]);
    }
  }

  lemma InitOk(cfg: Config)
    ensures SystemInv(cfg, INIT)
  {
    EmptyLive(0);
  }

  // ----- Main results -----

  /** Crash refinement: wherever a run is interrupted, restoring the file at any later time is
      accepted and gives exactly the leases and quarantines still live in memory, with no offers. */
  lemma CrashRefinement(cfg: Config, states: seq<System>, events: seq<Event>, k: nat, now: Time)
    requires ValidConfig(cfg) && IsRun(cfg, states, events) && k < |states|
    requires cfg.durable && states[k].clock <= now
    ensures states[k].file.Some? ==> Decode(cfg, states[k].file.value, now) == Some(Live(states[k].st, now))
    ensures states[k].file.None? ==> Live(states[k].st, now) == EMPTY
  {
    hide Step, Inv, Live, Encode, Decode;
    RunKeeps(cfg, states, events, k);
    RestoreYieldsLive(cfg, states[k], now);
  }

  /** The address a step hands to its caller, as an offer or as a lease. */
  ghost predicate Hands(cfg: Config, sys: System, e: Event, client: ClientId, ip: IPv4) {
    && (e.OfferCall? || e.CommitCall?) && e.client == client
    && var reply := Step(cfg, sys, e).1; reply.Granted? && reply.lease.ip == ip
  }

  /** `client` successfully gives up `ip` in this step: it releases it, declines it, or moves elsewhere. */
  ghost predicate GivesUp(cfg: Config, sys: System, e: Event, client: ClientId, ip: IPv4) {
    var reply := Step(cfg, sys, e).1;
    || ((e.ReleaseCall? || e.DeclineCall?) && e.client == client && e.ip == Some(ip) && reply == Done)
    || (e.CommitCall? && e.client == client && reply.Granted? && reply.lease.ip != ip)
  }

  /** `client` holds a lease on `ip` that lasts at least until `until`. */
  ghost predicate Holds(sys: System, client: ClientId, ip: IPv4, until: Time) {
    client in sys.st.leases && sys.st.leases[client].ip == ip && until <= sys.st.leases[client].expires
  }

  ghost predicate Quarantined(sys: System, ip: IPv4, until: Time) {
    ip in sys.st.declined && until <= sys.st.declined[ip]
  }

  /** An address is only ever handed out when it is neither held by another client nor in quarantine. */
  lemma HandsOnlyFree(cfg: Config, sys: System, e: Event, client: ClientId, ip: IPv4)
    requires ValidConfig(cfg) && Inv(cfg, sys.st) && Hands(cfg, sys, e, client, ip)
    ensures ip !in Occupied(Expire(sys.st, e.now), client)
  {
    hide Inv, Occupied, Expire, OfferName, WantedName, RegisteredName, Encode, ChooseAddress, Granting, Remove, Decode;
    ExpireKeeps(cfg, sys.st, e.now);
    if e.OfferCall? {
      ChosenAddress(cfg, Expire(sys.st, e.now), client, e.requested);
    }
  }

  lemma HeldIsOccupied(sys: System, now: Time, client: ClientId, ip: IPv4, until: Time, other: ClientId)
    requires Holds(sys, client, ip, until) && now < until
    ensures other != client ==> ip in Occupied(Expire(sys.st, now), other)
  {
    assert client in Expire(sys.st, now).leases;
  }

  lemma HoldingSurvivesCommit(cfg: Config, sys: System, e: Event, client: ClientId, ip: IPv4, until: Time)
    requires Holds(sys, client, ip, until) && e.now < until <= e.now + cfg.leaseDuration
    requires e.CommitCall? && !GivesUp(cfg, sys, e, client, ip)
    ensures Holds(Step(cfg, sys, e).0, client, ip, until)
  {
    hide WantedName, RegisteredName, Encode, Occupied;
  }

  lemma HoldingSurvivesRemoval(cfg: Config, sys: System, e: Event, client: ClientId, ip: IPv4, until: Time)
    requires Holds(sys, client, ip, until) && e.now < until
    requires (e.ReleaseCall? || e.DeclineCall?) && !GivesUp(cfg, sys, e, client, ip)
    ensures Holds(Step(cfg, sys, e).0, client, ip, until)
  {
    hide Encode, Occupied;
  }

  lemma RestartRestoresLive(cfg: Config, sys: System, e: Event)
    requires ValidConfig(cfg) && SystemInv(cfg, sys) && sys.clock <= e.now
    requires cfg.durable && e.Restart?
    ensures Step(cfg, sys, e).0.st == Live(sys.st, e.now) && Step(cfg, sys, e).1 == Done
  {
    hide SystemInv, Decode, Live, Expire, ValidConfig;
    RestoreYieldsLive(cfg, sys, e.now);
  }

  lemma QuietStepOnlyExpires(cfg: Config, sys: System, e: Event)
    requires e.OfferCall? || e.LookupCall?
    ensures Step(cfg, sys, e).0.st.leases == Expire(sys.st, e.now).leases
    ensures Step(cfg, sys, e).0.st.declined == Expire(sys.st, e.now).declined
  {
    hide ChooseAddress, OfferName, Expire;
  }

  /** A holding survives every step in which its owner does not give it up, a restart included. */
  lemma HoldingSurvives(cfg: Config, sys: System, e: Event, client: ClientId, ip: IPv4, until: Time)
    requires ValidConfig(cfg) && SystemInv(cfg, sys) && sys.clock <= e.now
    requires Holds(sys, client, ip, until) && e.now < until <= e.now + cfg.leaseDuration
    requires (cfg.durable || !e.Restart?) && !GivesUp(cfg, sys, e, client, ip)
    ensures Holds(Step(cfg, sys, e).0, client, ip, until)
  {
    hide SystemInv, Step, GivesUp, ValidConfig;
    if e.CommitCall? {
      HoldingSurvivesCommit(cfg, sys, e, client, ip, until);
    } else if e.ReleaseCall? || e.DeclineCall? {
      HoldingSurvivesRemoval(cfg, sys, e, client, ip, until);
    } else if e.Restart? {
      RestartRestoresLive(cfg, sys, e);
    } else {
      QuietStepOnlyExpires(cfg, sys, e);
    }
  }

  lemma GrantHolds(cfg: Config, sys: System, e: Event, client: ClientId, ip: IPv4)
    requires e.CommitCall? && Hands(cfg, sys, e, client, ip)
    ensures Holds(Step(cfg, sys, e).0, client, ip, e.now + cfg.leaseDuration)
  {
    hide Encode, Occupied, WantedName, RegisteredName;
  }

  lemma {:induction false} HoldingLasts(cfg: Config, states: seq<System>, events: seq<Event>,
                                        i: nat, j: nat, client: ClientId, ip: IPv4)
    requires ValidConfig(cfg) && IsRun(cfg, states, events) && i < j < |states|
    requires events[i].CommitCall? && Hands(cfg, states[i], events[i], client, ip)
    requires forall k :: i < k < j ==> !GivesUp(cfg, states[k], events[k], client, ip)
    requires forall k :: i < k < j ==> events[k].now < events[i].now + cfg.leaseDuration
    requires cfg.durable || forall k :: i < k < j ==> !events[k].Restart?
    ensures Holds(states[j], client, ip, events[i].now + cfg.leaseDuration)
    ensures events[i].now <= states[j].clock
  {
    hide SystemInv, Inv, Encode, Decode, GivesUp, Hands, Step;
    assert StepAt(cfg, states, events, j - 1);
    ClockFollows(cfg, states[j - 1], events[j - 1]);
    if i + 1 < j {
      HoldingLasts(cfg, states, events, i, j - 1, client, ip);
      RunKeeps(cfg, states, events, j - 1);
      HoldingSurvives(cfg, states[j - 1], events[j - 1], client, ip, events[i].now + cfg.leaseDuration);
    } else {
      GrantHolds(cfg, states[i], events[i], client, ip);
    }
  }

  lemma ClockFollows(cfg: Config, sys: System, e: Event)
    ensures Step(cfg, sys, e).0.clock == e.now
  {
    hide Encode, Decode, Occupied, WantedName, RegisteredName, Granting, Remove, ChooseAddress, OfferName, Expire;
  }

  /** Exclusive ownership: after a committed lease, the address is neither offered nor granted to
      anyone else until the lease runs out or its owner gives it up, across failed writes and restarts. */
  lemma ExclusiveOwnership(cfg: Config, states: seq<System>, events: seq<Event>,
                           i: nat, j: nat, client: ClientId, ip: IPv4, other: ClientId)
    requires ValidConfig(cfg) && IsRun(cfg, states, events) && i < j < |events|
    requires events[i].CommitCall? && Hands(cfg, states[i], events[i], client, ip)
    requires forall k :: i < k < j ==> !GivesUp(cfg, states[k], events[k], client, ip)
    requires events[j].now < events[i].now + cfg.leaseDuration
    requires cfg.durable || forall k :: i < k < j ==> !events[k].Restart?
    ensures Hands(cfg, states[j], events[j], other, ip) ==> other == client
  {
    hide Inv, Encode, Decode, GivesUp, Step, Hands;
    ClockMonotone(cfg, states, events, j);
    HoldingLasts(cfg, states, events, i, j, client, ip);
    RunKeeps(cfg, states, events, j);
    if Hands(cfg, states[j], events[j], other, ip) {
      HandsOnlyFree(cfg, states[j], events[j], other, ip);
      HeldIsOccupied(states[j], events[j].now, client, ip, events[i].now + cfg.leaseDuration, other);
    }
  }

  /** No event before `j` is later than event `j`. */
  lemma {:induction false} ClockMonotone(cfg: Config, states: seq<System>, events: seq<Event>, j: nat)
    requires IsRun(cfg, states, events) && j < |events|
    ensures forall k :: 0 <= k < j ==> events[k].now <= events[j].now
  {
    hide Step;
    assert StepAt(cfg, states, events, j);
    if j > 0 {
      ClockMonotone(cfg, states, events, j - 1);
      assert StepAt(cfg, states, events, j - 1);
      ClockFollows(cfg, states[j - 1], events[j - 1]);
    }
  }

  // ----- Quarantine -----

  ghost predicate Declines(cfg: Config, sys: System, e: Event, ip: IPv4) {
    e.DeclineCall? && e.ip == Some(ip) && Step(cfg, sys, e).1 == Done
  }

  lemma DeclineQuarantines(cfg: Config, sys: System, e: Event, ip: IPv4)
    requires Declines(cfg, sys, e, ip)
    ensures Quarantined(Step(cfg, sys, e).0, ip, e.now + cfg.declineDuration)
  {
    hide Encode, Remove, Owns;
  }

  lemma PublishKeepsQuarantine(cfg: Config, sys: System, e: Event, ip: IPv4, until: Time)
    requires Quarantined(sys, ip, until) && e.now < until <= e.now + cfg.declineDuration
    requires e.CommitCall? || e.ReleaseCall? || e.DeclineCall?
    ensures Quarantined(Step(cfg, sys, e).0, ip, until)
  {
    hide Encode, Occupied, WantedName, RegisteredName, Owns;
  }

  lemma QuarantineSurvives(cfg: Config, sys: System, e: Event, ip: IPv4, until: Time)
    requires ValidConfig(cfg) && SystemInv(cfg, sys) && sys.clock <= e.now
    requires Quarantined(sys, ip, until) && e.now < until <= e.now + cfg.declineDuration
    requires cfg.durable || !e.Restart?
    ensures Quarantined(Step(cfg, sys, e).0, ip, until)
  {
    hide SystemInv, Step, ValidConfig;
    if e.OfferCall? || e.LookupCall? {
      QuietStepOnlyExpires(cfg, sys, e);
    } else if e.Restart? {
      RestartRestoresLive(cfg, sys, e);
    } else {
      PublishKeepsQuarantine(cfg, sys, e, ip, until);
    }
  }

  lemma {:induction false} QuarantineLasts(cfg: Config, states: seq<System>, events: seq<Event>, i: nat, j: nat, ip: IPv4)
    requires ValidConfig(cfg) && IsRun(cfg, states, events) && i < j < |states|
    requires Declines(cfg, states[i], events[i], ip)
    requires forall k :: i < k < j ==> events[k].now < events[i].now + cfg.declineDuration
    requires cfg.durable || forall k :: i < k < j ==> !events[k].Restart?
    ensures Quarantined(states[j], ip, events[i].now + cfg.declineDuration)
    ensures events[i].now <= states[j].clock
  {
    hide SystemInv, Step, Declines;
    assert StepAt(cfg, states, events, j - 1);
    ClockFollows(cfg, states[j - 1], events[j - 1]);
    if i + 1 < j {
      QuarantineLasts(cfg, states, events, i, j - 1, ip);
      RunKeeps(cfg, states, events, j - 1);
      QuarantineSurvives(cfg, states[j - 1], events[j - 1], ip, events[i].now + cfg.declineDuration);
    } else {
      DeclineQuarantines(cfg, states[i], events[i], ip);
    }
  }

  /** A declined address is handed to no client at all before its quarantine ends. */
  lemma QuarantineRespected(cfg: Config, states: seq<System>, events: seq<Event>,
                            i: nat, j: nat, ip: IPv4, client: ClientId)
    requires ValidConfig(cfg) && IsRun(cfg, states, events) && i < j < |events|
    requires Declines(cfg, states[i], events[i], ip)
    requires events[j].now < events[i].now + cfg.declineDuration
    requires cfg.durable || forall k :: i < k < j ==> !events[k].Restart?
    ensures !Hands(cfg, states[j], events[j], client, ip)
  {
    hide Inv, Step, Hands, Declines;
    ClockMonotone(cfg, states, events, j);
    QuarantineLasts(cfg, states, events, i, j, ip);
    RunKeeps(cfg, states, events, j);
    assert ip in Expire(states[j].st, events[j].now).declined;
    if Hands(cfg, states[j], events[j], client, ip) {
      HandsOnlyFree(cfg, states[j], events[j], client, ip);
    }
  }

  // ----- One address per client, one client per name -----

  /** In every reachable state a client holds at most one address, no two clients share one,
      live names are canonical, unreserved and unique. */
  lemma ReachableTables(cfg: Config, states: seq<System>, events: seq<Event>, k: nat)
    requires ValidConfig(cfg) && IsRun(cfg, states, events) && k < |states|
    ensures forall c, ip, ip' :: Owns(states[k].st, c, ip) && Owns(states[k].st, c, ip') ==> ip == ip'
    ensures forall c, d, ip :: Owns(states[k].st, c, ip) && Owns(states[k].st, d, ip) ==> c == d
    ensures forall c :: c in states[k].st.leases && states[k].st.leases[c].hostname != "" ==>
              && Hostname.IsCanonical(states[k].st.leases[c].hostname, cfg.domain)
              && states[k].st.leases[c].hostname !in cfg.reserved
              && forall d :: d in states[k].st.leases && states[k].st.leases[d].hostname == states[k].st.leases[c].hostname ==> c == d
  {
    hide Step, Hostname.IsCanonical;
    RunKeeps(cfg, states, events, k);
  }

  // ----- Completeness of the allocator -----

  /** `client` could be given `ip`: it is in the pool, nobody else holds it, and it is not in quarantine. */
  ghost predicate Available(cfg: Config, st: State, client: ClientId, ip: IPv4) {
    InPool(cfg, ip) && ip !in st.declined && forall c :: c != client ==> !Owns(st, c, ip)
  }

  /** For a valid client, an offer fails exactly when the client holds nothing and no pool address
      is available; otherwise a client keeps the address it holds, and one that holds nothing gets
      the address it asked for if that is available, else the lowest available one. */
  lemma OfferComplete(cfg: Config, st: State, now: Time, client: ClientId, requested: Option<IPv4>,
                      hostname: string, fallback: string)
    requires ValidConfig(cfg) && Inv(cfg, st) && ValidClientId(client)
    ensures var s := Expire(st, now);
            var reply := Offer(cfg, st, now, client, requested, hostname, fallback).1;
            && (reply == PoolExhausted <==>
                  (forall ip :: !Owns(s, client, ip)) && (forall ip :: !Available(cfg, s, client, ip)))
            && (reply != PoolExhausted ==>
                  reply.Granted? && reply.lease.client == client && Available(cfg, s, client, reply.lease.ip))
            && (reply.Granted? ==> forall ip :: Owns(s, client, ip) ==> reply.lease.ip == ip)
            && (reply.Granted? && (forall ip :: !Owns(s, client, ip)) ==>
                  if requested.Some? && Available(cfg, s, client, requested.value) then reply.lease.ip == requested.value
                  else forall ip: IPv4 :: ip < reply.lease.ip ==> !Available(cfg, s, client, ip))
  {
    hide OfferName, Inv;
    var s := Expire(st, now);
    ExpireKeeps(cfg, st, now);
    forall ip: IPv4 ensures Available(cfg, s, client, ip) <==> InPool(cfg, ip) && ip !in Occupied(s, client) {
      AvailableIsUnoccupied(cfg, s, client, ip);
    }
    assert client in s.leases ==> Owns(s, client, s.leases[client].ip);
    assert client in s.offers ==> Owns(s, client, s.offers[client].ip);
    if ChooseAddress(cfg, s, client, requested).Some? {
      ChosenAddress(cfg, s, client, requested);
    }
  }

  lemma AvailableIsUnoccupied(cfg: Config, st: State, client: ClientId, ip: IPv4)
    ensures Available(cfg, st, client, ip) <==> InPool(cfg, ip) && ip !in Occupied(st, client)
  {
    if ip in Occupied(st, client) && ip !in st.declined {
      var c :| c != client && ((c in st.leases && st.leases[c].ip == ip) || (c in st.offers && st.offers[c].ip == ip));
      assert Owns(st, c, ip);
    }
  }

  // ----- Without a lease file -----

  /** Without a file a restart forgets everything: whatever was leased or quarantined, every pool address is
      available to every client afterwards, and an offer for it is granted. */
  lemma RestartForgets(cfg: Config, sys: System, e: Event, client: ClientId, ip: IPv4, later: Time)
    requires ValidConfig(cfg) && !cfg.durable && e.Restart? && ValidClientId(client) && InPool(cfg, ip)
    ensures var after := Step(cfg, sys, e).0;
            && after.st == EMPTY && Available(cfg, after.st, client, ip)
            && Hands(cfg, after, OfferCall(later, client, Some(ip), "", ""), client, ip)
  {
    hide OfferName, ValidConfig;
    assert Expire(EMPTY, later) == EMPTY;
  }

  /** The address is in the hands of a second client before the first client's lease has run out, although
      the first has not given it up. */
  ghost predicate TwoHolders(cfg: Config, states: seq<System>, events: seq<Event>, i: nat, j: nat, client: ClientId, ip: IPv4, other: ClientId) {
    && IsRun(cfg, states, events) && i < j < |events| && other != client
    && events[i].CommitCall? && Hands(cfg, states[i], events[i], client, ip)
    && (forall k :: i < k < j ==> !GivesUp(cfg, states[k], events[k], client, ip))
    && events[j].now < events[i].now + cfg.leaseDuration
    && Hands(cfg, states[j], events[j], other, ip)
  }

  /** Exclusive ownership across restarts holds of all runs if and only if a lease file is configured. */
  lemma ExclusiveIffDurable(cfg: Config)
    requires ValidConfig(cfg)
    ensures cfg.durable <==> forall states, events, i: nat, j: nat, client, ip: IPv4, other :: !TwoHolders(cfg, states, events, i, j, client, ip, other)
  {
    hide Hands, GivesUp, IsRun, ValidConfig;
    if cfg.durable {
      forall states, events, i: nat, j: nat, client, ip: IPv4, other ensures !TwoHolders(cfg, states, events, i, j, client, ip, other) {
        if i < j < |events| && IsRun(cfg, states, events) && TwoHolders(cfg, states, events, i, j, client, ip, other) {
          ExclusiveOwnership(cfg, states, events, i, j, client, ip, other);
        }
      }
    } else {
      ForgottenLease(cfg, Utf8("a"), Utf8("b"));
    }
  }

  /** The run that shows it: a commit, a restart, and an offer of the same address to another client. */
  function ForgettingEvents(cfg: Config, client: ClientId, other: ClientId): seq<Event> {
    [CommitCall(1, client, Some(cfg.poolStart), "", "", true), Restart(1), OfferCall(1, other, Some(cfg.poolStart), "", "")]
  }

  ghost function ForgettingStates(cfg: Config, client: ClientId, other: ClientId): seq<System> {
    var events := ForgettingEvents(cfg, client, other);
    var s1 := Step(cfg, INIT, events[0]).0;
    var s2 := Step(cfg, s1, events[1]).0;
    [INIT, s1, s2, Step(cfg, s2, events[2]).0]
  }

  lemma ForgottenLease(cfg: Config, client: ClientId, other: ClientId)
    requires ValidConfig(cfg) && !cfg.durable && ValidClientId(client) && ValidClientId(other) && client != other
    ensures TwoHolders(cfg, ForgettingStates(cfg, client, other), ForgettingEvents(cfg, client, other), 0, 2, client, cfg.poolStart, other)
  {
    hide Step, ValidConfig, Hands, GivesUp;
    var states, events := ForgettingStates(cfg, client, other), ForgettingEvents(cfg, client, other);
    Durations(cfg);
    ForgettingRun(cfg, client, other);
    FirstCommit(cfg, client);
    PoolStartIn(cfg);
    RestartForgets(cfg, states[1], events[1], other, cfg.poolStart, 1);
    RestartGivesNothingUp(cfg, states[1], events[1], client, cfg.poolStart);
  }

  lemma PoolStartIn(cfg: Config)
    requires ValidConfig(cfg)
    ensures InPool(cfg, cfg.poolStart)
  {
    hide Hostname.ValidDNSName;
  }

  lemma ForgettingRun(cfg: Config, client: ClientId, other: ClientId)
    ensures IsRun(cfg, ForgettingStates(cfg, client, other), ForgettingEvents(cfg, client, other))
  {
    var states, events := ForgettingStates(cfg, client, other), ForgettingEvents(cfg, client, other);
    forall k | 0 <= k < |events| ensures StepAt(cfg, states, events, k) {
      ClockFollows(cfg, INIT, events[0]);
      ClockFollows(cfg, states[1], events[1]);
      hide Step;
      assert k == 0 || k == 1 || k == 2;
    }
  }

  lemma FirstCommit(cfg: Config, client: ClientId)
    requires ValidConfig(cfg) && !cfg.durable && ValidClientId(client)
    ensures Hands(cfg, INIT, CommitCall(1, client, Some(cfg.poolStart), "", "", true), client, cfg.poolStart)
  {
    hide WantedName, RegisteredName;
    PoolStartIn(cfg);
    assert Expire(EMPTY, 1) == EMPTY;
    hide ValidConfig;
  }

  /** The address is handed out before its quarantine has ended. */
  ghost predicate BrokenQuarantine(cfg: Config, states: seq<System>, events: seq<Event>, i: nat, j: nat, ip: IPv4, client: ClientId) {
    && IsRun(cfg, states, events) && i < j < |events| && Declines(cfg, states[i], events[i], ip)
    && events[j].now < events[i].now + cfg.declineDuration && Hands(cfg, states[j], events[j], client, ip)
  }

  /** Quarantines hold across restarts in all runs if and only if a lease file is configured. */
  lemma QuarantineIffDurable(cfg: Config)
    requires ValidConfig(cfg)
    ensures cfg.durable <==> forall states, events, i: nat, j: nat, ip: IPv4, client :: !BrokenQuarantine(cfg, states, events, i, j, ip, client)
  {
    hide Hands, Declines, IsRun, ValidConfig;
    if cfg.durable {
      forall states, events, i: nat, j: nat, ip: IPv4, client ensures !BrokenQuarantine(cfg, states, events, i, j, ip, client) {
        if BrokenQuarantine(cfg, states, events, i, j, ip, client) {
          QuarantineRespected(cfg, states, events, i, j, ip, client);
        }
      }
    } else {
      ForgottenQuarantine(cfg, Utf8("a"));
    }
  }

  /** A commit, a decline, a restart, and an offer of the declined address. */
  function DecliningEvents(cfg: Config, client: ClientId): seq<Event> {
    [CommitCall(1, client, Some(cfg.poolStart), "", "", true), DeclineCall(1, client, Some(cfg.poolStart), true), Restart(1),
     OfferCall(1, client, Some(cfg.poolStart), "", "")]
  }

  ghost function DecliningStates(cfg: Config, client: ClientId): seq<System> {
    var events := DecliningEvents(cfg, client);
    var s1 := Step(cfg, INIT, events[0]).0;
    var s2 := Step(cfg, s1, events[1]).0;
    var s3 := Step(cfg, s2, events[2]).0;
    [INIT, s1, s2, s3, Step(cfg, s3, events[3]).0]
  }

  lemma ForgottenQuarantine(cfg: Config, client: ClientId)
    requires ValidConfig(cfg) && !cfg.durable && ValidClientId(client)
    ensures BrokenQuarantine(cfg, DecliningStates(cfg, client), DecliningEvents(cfg, client), 1, 3, cfg.poolStart, client)
  {
    hide Step, ValidConfig, Hands, Declines;
    var states, events := DecliningStates(cfg, client), DecliningEvents(cfg, client);
    Durations(cfg);
    DecliningRun(cfg, client);
    FirstDecline(cfg, client);
    PoolStartIn(cfg);
    RestartForgets(cfg, states[2], events[2], client, cfg.poolStart, 1);
  }

  lemma DecliningRun(cfg: Config, client: ClientId)
    ensures IsRun(cfg, DecliningStates(cfg, client), DecliningEvents(cfg, client))
  {
    var states, events := DecliningStates(cfg, client), DecliningEvents(cfg, client);
    forall k | 0 <= k < |events| ensures StepAt(cfg, states, events, k) {
      ClockFollows(cfg, INIT, events[0]);
      ClockFollows(cfg, states[1], events[1]);
      ClockFollows(cfg, states[2], events[2]);
      hide Step;
      assert k == 0 || k == 1 || k == 2 || k == 3;
    }
  }

  lemma FirstDecline(cfg: Config, client: ClientId)
    requires ValidConfig(cfg) && !cfg.durable && ValidClientId(client)
    ensures Declines(cfg, DecliningStates(cfg, client)[1], DecliningEvents(cfg, client)[1], cfg.poolStart)
  {
    hide ValidConfig, WantedName, RegisteredName, Remove;
    Durations(cfg);
    PoolStartIn(cfg);
    assert Expire(EMPTY, 1) == EMPTY;
    var s1 := DecliningStates(cfg, client)[1];
    assert Owns(Expire(s1.st, 1), client, cfg.poolStart);
  }

  lemma RestartGivesNothingUp(cfg: Config, sys: System, e: Event, client: ClientId, ip: IPv4)
    requires e.Restart?
    ensures !GivesUp(cfg, sys, e, client, ip)
  {
    hide Step;
  }
}
