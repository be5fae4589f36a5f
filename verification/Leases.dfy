/** The DHCP lease allocator as a transition system over values: the in-memory tables, the
    lease file, and one step per exported operation of the manager. */
module Leases {
  import opened Common
  import opened Hostname

  // ----- Data -----

  datatype Lease = Lease(client: ClientId, ip: IPv4, hostname: string, expires: Time)

  datatype Config = Config(
    poolStart: IPv4, poolEnd: IPv4, domain: string,
    leaseDuration: int, offerDuration: int, declineDuration: int,
    reserved: set<string>, durable: bool)

  /** What the constructor establishes before it serves any request. */
  predicate ValidConfig(cfg: Config) {
    && cfg.poolStart <= cfg.poolEnd
    && ValidDNSName(cfg.domain)
    && 0 < cfg.leaseDuration && 0 < cfg.offerDuration && 0 < cfg.declineDuration
    && "ns." + cfg.domain + "." in cfg.reserved
    && "gateway." + cfg.domain + "." in cfg.reserved
    && "" !in cfg.reserved
  }

  predicate InPool(cfg: Config, ip: IPv4) {
    cfg.poolStart <= ip <= cfg.poolEnd
  }

  datatype State = State(leases: map<ClientId, Lease>, offers: map<ClientId, Lease>, declined: map<IPv4, Time>)

  const EMPTY := State(map[], map[], map[])

  datatype Reply =
    | Granted(lease: Lease)
    | Done
    | Unavailable
    | PoolExhausted
    | PersistFailed
    | Refused

  // ----- Operations on the tables -----

  /** Forget everything whose absolute expiry has come. */
  function Expire(st: State, now: Time): State {
    State(
      map c | c in st.leases && now < st.leases[c].expires :: st.leases[c],
      map c | c in st.offers && now < st.offers[c].expires :: st.offers[c],
      map ip | ip in st.declined && now < st.declined[ip] :: st.declined[ip])
  }

  /** The addresses `client` may not have: held by someone else, or in quarantine. */
  function Occupied(st: State, client: ClientId): set<IPv4> {
    (set c | c in st.leases && c != client :: st.leases[c].ip)
    + (set c | c in st.offers && c != client :: st.offers[c].ip)
    + st.declined.Keys
  }

  /** The lowest address of [lo, hi] outside `occupied`. The scan stops when it leaves the
      range, also when that is past 255.255.255.255. */
  function LowestFree(lo: int, hi: IPv4, occupied: set<IPv4>): (r: Option<IPv4>)
    requires 0 <= lo
    ensures r.Some? ==> lo <= r.value <= hi && r.value !in occupied
    ensures r.Some? ==> forall ip: IPv4 :: lo <= ip < r.value ==> ip in occupied
    ensures r.None? ==> forall ip: IPv4 :: lo <= ip <= hi ==> ip in occupied
    decreases hi + 1 - lo
  {
    if lo > hi then None
    else if lo !in occupied then Some(lo)
    else LowestFree(lo + 1, hi, occupied)
  }

  function ChooseAddress(cfg: Config, st: State, client: ClientId, requested: Option<IPv4>): Option<IPv4> {
    if client in st.leases then Some(st.leases[client].ip)
    else if client in st.offers then Some(st.offers[client].ip)
    else
      var occupied := Occupied(st, client);
      if requested.Some? && InPool(cfg, requested.value) && requested.value !in occupied then requested
      else LowestFree(cfg.poolStart, cfg.poolEnd, occupied)
  }

  function OfferName(cfg: Config, st: State, client: ClientId, hostname: string, fallback: string): string {
    if hostname != "" then NormalizeHostname(hostname, cfg.domain)
    else if client in st.offers then st.offers[client].hostname
    else if client in st.leases && st.leases[client].hostname != "" then st.leases[client].hostname
    else NormalizeHostname(fallback, cfg.domain)
  }

  function Offer(cfg: Config, st: State, now: Time, client: ClientId, requested: Option<IPv4>,
                 hostname: string, fallback: string): (State, Reply)
  {
    var s := Expire(st, now);
    if !ValidClientId(client) then (s, Unavailable)
    else
      var ip := ChooseAddress(cfg, s, client, requested);
      if ip.None? then (s, PoolExhausted)
      else
        var offer := Lease(client, ip.value, OfferName(cfg, s, client, hostname, fallback), now + cfg.offerDuration);
        (s.(offers := s.offers[client := offer]), Granted(offer))
  }

  function WantedName(cfg: Config, st: State, client: ClientId, ip: IPv4, hostname: string, fallback: string): string {
    if hostname != "" then NormalizeHostname(hostname, cfg.domain)
    else if client in st.offers && st.offers[client].ip == ip then st.offers[client].hostname
    else if client in st.leases && st.leases[client].hostname != "" then st.leases[client].hostname
    else NormalizeHostname(fallback, cfg.domain)
  }

  predicate NameTaken(st: State, client: ClientId, name: string) {
    exists c :: c in st.leases && c != client && st.leases[c].hostname == name
  }

  function RegisteredName(cfg: Config, st: State, client: ClientId, wanted: string): string {
    if wanted in cfg.reserved || NameTaken(st, client, wanted) then "" else wanted
  }

  /** The tables after a grant, before they are published. */
  function Granting(st: State, lease: Lease): State {
    st.(leases := st.leases[lease.client := lease], offers := st.offers - {lease.client})
  }

  predicate Owns(st: State, client: ClientId, ip: IPv4) {
    || (client in st.leases && st.leases[client].ip == ip)
    || (client in st.offers && st.offers[client].ip == ip)
  }

  function Remove(st: State, client: ClientId, ip: IPv4): State {
    st.(leases := if client in st.leases && st.leases[client].ip == ip then st.leases - {client} else st.leases,
        offers := if client in st.offers && st.offers[client].ip == ip then st.offers - {client} else st.offers)
  }

  // ----- Lookups, on tables that have just been expired -----

  /** The lease registered under a DNS name, if any. */
  ghost function LookupName(cfg: Config, st: State, name: string): (r: Option<Lease>)
    ensures r.Some? ==> r.value.hostname == NormalizeHostname(name, cfg.domain)
                        && exists c :: c in st.leases && st.leases[c] == r.value
  {
    var n := NormalizeHostname(name, cfg.domain);
    if n != "" && n !in cfg.reserved && exists c :: c in st.leases && st.leases[c].hostname == n then
      var c :| c in st.leases && st.leases[c].hostname == n;
      Some(st.leases[c])
    else None
  }

  ghost function LookupIP(st: State, ip: IPv4): (r: Option<Lease>)
    ensures r.Some? ==> r.value.ip == ip && exists c :: c in st.leases && st.leases[c] == r.value
  {
    if exists c :: c in st.leases && st.leases[c].ip == ip then
      var c :| c in st.leases && st.leases[c].ip == ip;
      Some(st.leases[c])
    else None
  }

  /** The name under which HasName looks for registrations at or below it. */
  function SearchedName(cfg: Config, name: string): string {
    var canonical := ToLower(TrimSuffix(name, "."));
    if canonical == cfg.domain then canonical + "." else NormalizeHostname(name, cfg.domain)
  }

  predicate AtOrBelow(cfg: Config, l: Lease, name: string) {
    l.hostname != "" && l.hostname !in cfg.reserved && (l.hostname == name || HasSuffix(l.hostname, "." + name))
  }

  predicate HasName(cfg: Config, st: State, name: string) {
    var n := SearchedName(cfg, name);
    n != "" && exists c :: c in st.leases && AtOrBelow(cfg, st.leases[c], n)
  }

  // ----- The lease file -----

  datatype Quarantine = Quarantine(ip: IPv4, expires: Time)

  datatype Saved = Saved(version: int, leases: seq<Lease>, declined: seq<Quarantine>)

  ghost predicate Ascending(ips: seq<IPv4>) {
    forall i, j :: 0 <= i < j < |ips| ==> ips[i] < ips[j]
  }

  ghost predicate IsLeast(least: IPv4, ips: set<IPv4>) {
    least in ips && forall ip :: ip in ips ==> least <= ip
  }

  ghost function Least(ips: set<IPv4>): (least: IPv4)
    requires ips != {}
    ensures IsLeast(least, ips)
  {
    HasLeast(ips);
    var least :| IsLeast(least, ips);
    least
  }

  ghost predicate SameElements(s: seq<IPv4>, ips: set<IPv4>) {
    forall ip :: ip in s <==> ip in ips
  }

  /** The elements of `ips` in increasing order. */
  ghost function Sorted(ips: set<IPv4>): (r: seq<IPv4>)
    ensures Ascending(r) && SameElements(r, ips)
  {
    if ips == {} then []
    else
      var least := Least(ips);
      var rest := Sorted(ips - {least});
      SortedCons(least, rest, ips);
      [least] + rest
  }

  lemma SortedCons(least: IPv4, rest: seq<IPv4>, ips: set<IPv4>)
    requires IsLeast(least, ips)
    requires Ascending(rest) && SameElements(rest, ips - {least})
    ensures Ascending([least] + rest) && SameElements([least] + rest, ips)
  {
    var r := [least] + rest;
    forall i, j | 0 <= i < j < |r| ensures r[i] < r[j] {
      assert r[j] == rest[j - 1] && rest[j - 1] in rest;
      if i > 0 {
        assert r[i] == rest[i - 1];
      }
    }
    assert forall ip :: ip in r <==> ip == least || ip in rest;
  }

  lemma {:induction false} HasLeast(ips: set<IPv4>)
    requires ips != {}
    ensures exists least :: IsLeast(least, ips)
  {
    var x :| x in ips;
    if ips == {x} {
      assert IsLeast(x, ips);
    } else {
      HasLeast(ips - {x});
      var y :| IsLeast(y, ips - {x});
      var least := if x < y then x else y;
      assert forall ip :: ip in ips ==> ip == x || ip in ips - {x};
      assert IsLeast(least, ips);
    }
  }

  function LeasedIps(st: State): set<IPv4> {
    set c | c in st.leases :: st.leases[c].ip
  }

  ghost function LeaseAt(st: State, ip: IPv4): (l: Lease)
    requires ip in LeasedIps(st)
    ensures l.ip == ip && exists c :: c in st.leases && st.leases[c] == l
  {
    var c :| c in st.leases && st.leases[c].ip == ip;
    st.leases[c]
  }

  /** The persisted form: live tables as lists in address order, offers left out. */
  ghost function Encode(st: State): Saved {
    var ips := Sorted(LeasedIps(st));
    var declined := Sorted(st.declined.Keys);
    Saved(1,
          seq(|ips|, i requires 0 <= i < |ips| => LeaseAt(st, ips[i])),
          seq(|declined|, i requires 0 <= i < |declined| => Quarantine(declined[i], st.declined[declined[i]])))
  }

  /** The tables a restore has filled so far, with the address and name sets it checks against. */
  datatype Restoring = Restoring(
    leases: map<ClientId, Lease>, addresses: set<IPv4>, names: set<string>, declined: map<IPv4, Time>)

  predicate SavedLeaseOk(cfg: Config, l: Lease) {
    && ValidClientId(l.client) && InPool(cfg, l.ip) && l.expires != 0
    && (l.hostname == "" ||
        (NormalizeHostname(l.hostname, cfg.domain) == l.hostname && l.hostname != "ns." + cfg.domain + "."))
  }

  function RestoreLease(cfg: Config, now: Time, acc: Restoring, l: Lease): Option<Restoring> {
    if !SavedLeaseOk(cfg, l) then None
    else if l.expires <= now then Some(acc)
    else if l.client in acc.leases || l.ip in acc.addresses || (l.hostname != "" && l.hostname in acc.names) then None
    else
      Some(acc.(
        addresses := acc.addresses + {l.ip},
        names := if l.hostname != "" then acc.names + {l.hostname} else acc.names,
        leases := acc.leases[l.client := if l.hostname in cfg.reserved then l.(hostname := "") else l]))
  }

  function RestoreLeases(cfg: Config, now: Time, acc: Restoring, ls: seq<Lease>): Option<Restoring>
    decreases |ls|
  {
    if ls == [] then Some(acc)
    else
      var first := RestoreLease(cfg, now, acc, ls[0]);
      if first.None? then None else RestoreLeases(cfg, now, first.value, ls[1..])
  }

  function RestoreQuarantine(cfg: Config, now: Time, acc: Restoring, q: Quarantine): Option<Restoring> {
    if !InPool(cfg, q.ip) || q.expires == 0 then None
    else if q.expires <= now then Some(acc)
    else if q.ip in acc.addresses then None
    else Some(acc.(addresses := acc.addresses + {q.ip}, declined := acc.declined[q.ip := q.expires]))
  }

  function RestoreQuarantines(cfg: Config, now: Time, acc: Restoring, qs: seq<Quarantine>): Option<Restoring>
    decreases |qs|
  {
    if qs == [] then Some(acc)
    else
      var first := RestoreQuarantine(cfg, now, acc, qs[0]);
      if first.None? then None else RestoreQuarantines(cfg, now, first.value, qs[1..])
  }

  const NOTHING := Restoring(map[], {}, {}, map[])

  /** Reading a lease file at `now`: the restored tables, or None when the file is refused. */
  function Decode(cfg: Config, saved: Saved, now: Time): Option<State> {
    if saved.version != 1 then None
    else
      var leases := RestoreLeases(cfg, now, NOTHING, saved.leases);
      if leases.None? then None
      else
        var all := RestoreQuarantines(cfg, now, leases.value, saved.declined);
        if all.None? then None else Some(State(all.value.leases, map[], all.value.declined))
  }

  // ----- The transition system -----

  /** The manager, its file (None before the first successful write) and the clock. */
  datatype System = System(st: State, file: Option<Saved>, clock: Time)

  const INIT := System(EMPTY, None, 0)

  /** One call. An address is None when it is not an IPv4 address; `written` says whether
      persisting the new file succeeds, rename being its last step. */
  datatype Event =
    | OfferCall(now: Time, client: ClientId, requested: Option<IPv4>, hostname: string, fallback: string)
    | CommitCall(now: Time, client: ClientId, ip: Option<IPv4>, hostname: string, fallback: string, written: bool)
    | ReleaseCall(now: Time, client: ClientId, ip: Option<IPv4>, written: bool)
    | DeclineCall(now: Time, client: ClientId, ip: Option<IPv4>, written: bool)
    | LookupCall(now: Time)
    | Restart(now: Time)

  /** Publishing writes the file first and replaces the tables only if that worked. */
  ghost function Publish(cfg: Config, sys: System, next: State, written: bool, reply: Reply): (System, Reply) {
    if !cfg.durable then (sys.(st := next), reply)
    else if !written then (sys, PersistFailed)
    else (sys.(st := next, file := Some(Encode(next))), reply)
  }

  ghost function Step(cfg: Config, sys: System, e: Event): (System, Reply) {
    var s := Expire(sys.st, e.now);
    var quiet := sys.(st := s, clock := e.now);
    match e
    case OfferCall(now, client, requested, hostname, fallback) =>
      var (next, reply) := Offer(cfg, sys.st, now, client, requested, hostname, fallback);
      (sys.(st := next, clock := now), reply)
    case CommitCall(now, client, ip, hostname, fallback, written) =>
      if !ValidClientId(client) || ip.None? || !InPool(cfg, ip.value) || ip.value in Occupied(s, client) then
        (quiet, Unavailable)
      else
        var name := RegisteredName(cfg, s, client, WantedName(cfg, s, client, ip.value, hostname, fallback));
        var lease := Lease(client, ip.value, name, now + cfg.leaseDuration);
        Publish(cfg, quiet, Granting(s, lease), written, Granted(lease))
    case ReleaseCall(now, client, ip, written) =>
      if ip.None? || !Owns(s, client, ip.value) then (quiet, Unavailable)
      else Publish(cfg, quiet, Remove(s, client, ip.value), written, Done)
    case DeclineCall(now, client, ip, written) =>
      if ip.None? || !Owns(s, client, ip.value) then (quiet, Unavailable)
      else
        var removed := Remove(s, client, ip.value);
        var next := removed.(declined := removed.declined[ip.value := now + cfg.declineDuration]);
        Publish(cfg, quiet, next, written, Done)
    case LookupCall(now) => (quiet, Done)
    case Restart(now) =>
      if !cfg.durable || sys.file.None? then (sys.(st := EMPTY, clock := now), Done)
      else
        var restored := Decode(cfg, sys.file.value, now);
        if restored.None? then (sys.(clock := now), Refused)
        else (sys.(st := restored.value, clock := now), Done)
  }

  /** A run: every state follows from the one before, under a clock that never goes back. */
  ghost predicate IsRun(cfg: Config, states: seq<System>, events: seq<Event>) {
    && |states| == |events| + 1
    && states[0] == INIT
    && forall k :: 0 <= k < |events| ==> StepAt(cfg, states, events, k)
  }

  ghost predicate StepAt(cfg: Config, states: seq<System>, events: seq<Event>, k: int)
    requires 0 <= k < |events| < |states|
  {
    StepsTo(cfg, states[k], events[k], states[k + 1])
  }

  ghost predicate StepsTo(cfg: Config, before: System, e: Event, after: System) {
    0 < e.now && before.clock <= e.now && after == Step(cfg, before, e).0
  }
}
