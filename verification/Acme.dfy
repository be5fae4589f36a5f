/** The ACME service as a transition system: the snapshot it keeps in memory and on disk, and
    one atomic step per region that the server runs under its lock. An outbound validation is
    two steps, so anything may happen between its start and its finish. */
module Acme {
  import opened Common
  import opened Hostname
  import opened Validator

  // ----- Limits -----

  const MAX_ACCOUNTS := 4096
  const MAX_ACCOUNT_ORDERS := 32
  const MAX_LEASE_ACCOUNTS := 8
  const MAX_LEASE_ORDERS := 32
  const MAX_RECORDS := 10000
  const MAX_IDENTIFIERS := 16
  const MAX_VALIDATIONS := 32
  const MAX_INT64 := 0x7FFF_FFFF_FFFF_FFFF
  const ACCOUNT_IDLE_LIFETIME := 30 * DAY
  const ACCOUNT_RATE_WINDOW := DAY
  const ORDER_RATE_WINDOW := HOUR
  const ORDER_LIFETIME := DAY

  // ----- Records -----

  type Id = string

  predicate ValidId(id: Id) {
    |id| == 32 && forall i :: 0 <= i < 32 ==>
      'a' <= id[i] <= 'z' || 'A' <= id[i] <= 'Z' || '0' <= id[i] <= '9' || id[i] == '-' || id[i] == '_'
  }

  /** A JSON web key; all that matters of it is its RFC 7638 thumbprint and whether it is public. */
  datatype Key = Key(thumbprint: string, public: bool)

  datatype AccountStatus = AccountValid | AccountDeactivated
  datatype OrderStatus = OrderPending | OrderReady | OrderValid | OrderInvalid
  datatype AuthStatus = AuthPending | AuthValid | AuthInvalid | AuthDeactivated | AuthExpired
  datatype ChallengeStatus = ChallengePending | ChallengeProcessing | ChallengeValid | ChallengeInvalid

  datatype Account = Account(
    id: Id, key: Key, thumbprint: string, status: AccountStatus, lastActive: Time, recentOrders: seq<Time>)

  datatype Order = Order(
    id: Id, accountId: Id, status: OrderStatus, expires: Time,
    identifiers: seq<string>, authIds: seq<Id>, certificateId: Id, csr: seq<int>)

  datatype Authorization = Authorization(
    id: Id, accountId: Id, orderId: Id, name: string, status: AuthStatus, expires: Time,
    token: string, challenge: ChallengeStatus, validated: Option<Time>, target: Target)

  /** What the server reads from an issued leaf certificate. */
  datatype Leaf = Leaf(serial: int, names: seq<string>, notAfter: Time, isCA: bool, issuer: string, keyThumbprint: string)

  datatype Certificate = Certificate(
    id: Id, accountId: Id, orderId: Id, leaf: Leaf, serial: int, notAfter: Time, revokedAt: Option<Time>, reason: int)

  datatype LeaseLimit = LeaseLimit(accounts: seq<Time>, orders: seq<Time>)

  const NO_LIMIT := LeaseLimit([], [])

  datatype CrlEntry = CrlEntry(serial: int, revokedAt: Time, reason: int)

  datatype Crl = Crl(number: int, nextUpdate: Time, entries: set<CrlEntry>, issuer: string)

  datatype State = State(
    version: int, domain: string, root: string,
    limits: map<ClientId, LeaseLimit>,
    accounts: map<Id, Account>, orders: map<Id, Order>,
    auths: map<Id, Authorization>, certs: map<Id, Certificate>,
    crl: Option<Crl>, crlNumber: int, crlNextUpdate: Time)

  datatype Config = Config(domain: string, root: string)

  function Fresh(cfg: Config): State {
    State(1, cfg.domain, cfg.root, map[], map[], map[], map[], map[], None, 0, 0)
  }

  /** Names a client may order: canonical host names of the domain other than the built-in ones. */
  predicate AllowedName(domain: string, name: string) {
    && (forall i :: 0 <= i < |name| ==> name[i] as int <= 127)
    && '.' in name
    && name == TrimSuffix(NormalizeHostname(name, domain), ".")
    && name != "gateway." + domain && name != "ns." + domain
  }

  predicate ValidReason(reason: int) {
    0 <= reason <= 6 || reason == 9 || reason == 10
  }

  // ----- Histories and quotas -----

  /** The time stamps after `cutoff`, in order. */
  function Recent(times: seq<Time>, cutoff: Time): (r: seq<Time>)
    ensures |r| <= |times|
  {
    if times == [] then []
    else
      var n := |times| - 1;
      var earlier := Recent(times[..n], cutoff);
      if cutoff < times[n] then earlier + [times[n]] else earlier
  }

  function RecentLimit(limit: LeaseLimit, now: Time): LeaseLimit {
    LeaseLimit(Recent(limit.accounts, now - ACCOUNT_RATE_WINDOW), Recent(limit.orders, now - ORDER_RATE_WINDOW))
  }

  function LimitOf(st: State, source: ClientId): LeaseLimit {
    if source in st.limits then st.limits[source] else NO_LIMIT
  }

  /** The sources whose history still counts at `now`. */
  function LiveLimits(st: State, now: Time): map<ClientId, LeaseLimit> {
    map s | s in st.limits && RecentLimit(st.limits[s], now) != NO_LIMIT :: RecentLimit(st.limits[s], now)
  }

  function RetrySeconds(retry: int): int {
    var seconds := (retry + SECOND - 1) / SECOND;
    if seconds < 1 then 1 else seconds
  }

  datatype Kind = NewAccountKind | NewOrderKind

  function History(limit: LeaseLimit, kind: Kind): seq<Time> {
    if kind.NewAccountKind? then limit.accounts else limit.orders
  }

  function Maximum(kind: Kind): int {
    if kind.NewAccountKind? then MAX_LEASE_ACCOUNTS else MAX_LEASE_ORDERS
  }

  function Window(kind: Kind): int {
    if kind.NewAccountKind? then ACCOUNT_RATE_WINDOW else ORDER_RATE_WINDOW
  }

  datatype Reply =
    | Refused
    | RateLimited(seconds: int)
    | InternalError
    | Accepted(id: Id)
    | ServedCrl(crl: Crl)

  /** None when the source may create one more record now, else the reply that denies it. */
  function DenyCreation(st: State, now: Time, source: ClientId, kind: Kind): Option<Reply> {
    if source == Utf8("") then Some(Refused)
    else
      var recent := Recent(History(LimitOf(st, source), kind), now - Window(kind));
      if |recent| >= Maximum(kind) then Some(RateLimited(RetrySeconds(recent[0] + Window(kind) - now)))
      else if source !in st.limits && |st.limits| >= MAX_RECORDS && |LiveLimits(st, now)| >= MAX_RECORDS then
        Some(RateLimited(RetrySeconds(ORDER_RATE_WINDOW)))
      else None
  }

  function Recorded(limit: LeaseLimit, now: Time, kind: Kind): LeaseLimit {
    if kind.NewAccountKind? then limit.(accounts := Recent(limit.accounts, now - ACCOUNT_RATE_WINDOW) + [now])
    else limit.(orders := Recent(limit.orders, now - ORDER_RATE_WINDOW) + [now])
  }

  function RecordCreation(st: State, now: Time, source: ClientId, kind: Kind): State {
    st.(limits := st.limits[source := Recorded(LimitOf(st, source), now, kind)])
  }

  // ----- Pruning -----

  predicate Live(o: Order, now: Time) {
    o.status != OrderInvalid && now < o.expires
  }

  predicate AuthDropped(st: State, now: Time, authId: Id) {
    exists id :: id in st.orders && !Live(st.orders[id], now) && authId in st.orders[id].authIds
  }

  predicate CertDropped(st: State, now: Time, certId: Id) {
    exists id :: id in st.orders && !Live(st.orders[id], now) && st.orders[id].certificateId == certId
  }

  predicate Referenced(st: State, now: Time, accountId: Id) {
    exists id :: id in st.orders && Live(st.orders[id], now) && st.orders[id].accountId == accountId
  }

  function LastActive(a: Account, activity: map<Id, Time>, id: Id): Time {
    if id in activity && a.lastActive < activity[id] then activity[id] else a.lastActive
  }

  predicate AccountDropped(st: State, now: Time, activity: map<Id, Time>, id: Id)
    requires id in st.accounts
  {
    var active := LastActive(st.accounts[id], activity, id);
    active != 0 && active + ACCOUNT_IDLE_LIFETIME <= now && !Referenced(st, now, id)
  }

  /** An account that stays, with its activity and order history brought up to date. */
  function PrunedAccount(a: Account, now: Time, activity: map<Id, Time>, id: Id): Account {
    a.(lastActive := LastActive(a, activity, id), recentOrders := Recent(a.recentOrders, now - ORDER_LIFETIME))
  }

  /** Drops dead orders with everything that hangs on them, idle accounts and old history. */
  function Prune(st: State, now: Time, activity: map<Id, Time>): State {
    st.(
      orders := map id | id in st.orders && Live(st.orders[id], now) :: st.orders[id],
      auths := map id | id in st.auths && !AuthDropped(st, now, id) :: st.auths[id],
      certs := map id | id in st.certs && !CertDropped(st, now, id) :: st.certs[id],
      accounts := map id | id in st.accounts && !AccountDropped(st, now, activity, id) ::
        PrunedAccount(st.accounts[id], now, activity, id),
      limits := LiveLimits(st, now))
  }

  // ----- The running system -----

  /** The signed request whose proof an outbound validation carries. */
  datatype Request = Request(accountId: Id, key: Key)

  /** The process (if up) with its snapshot, unsaved activity and outbound validations; and the state file. */
  datatype System = System(
    up: bool, mem: State, activity: map<Id, Time>, inflight: map<Id, Request>,
    disk: Option<State>, clock: Time)

  /** A snapshot write fails before the rename, fails to sync the directory after it, or succeeds. */
  datatype Outcome = NotRenamed | RenamedNotSynced | Synced

  /** The rename is the commit point: memory follows the file, whatever is reported upstream. */
  function Commit(sys: System, next: State, now: Time, outcome: Outcome): System {
    if outcome.NotRenamed? then sys
    else
      var pruned := Prune(next, now, sys.activity);
      sys.(mem := pruned, disk := Some(pruned), activity := map[])
  }

  function Committed(sys: System, next: State, now: Time, outcome: Outcome, id: Id): (System, Reply) {
    (Commit(sys, next, now, outcome), if outcome.Synced? then Accepted(id) else InternalError)
  }

  function Touch(sys: System, id: Id, now: Time): System {
    sys.(activity := sys.activity[id := now])
  }

  /** The key that signed the request is the current key of an active account. */
  predicate IsActive(st: State, req: Request) {
    && req.accountId in st.accounts
    && st.accounts[req.accountId].status == AccountValid
    && st.accounts[req.accountId].thumbprint == req.key.thumbprint
  }

  // ----- Accounts -----

  predicate HasThumbprint(st: State, thumbprint: string) {
    exists id :: id in st.accounts && st.accounts[id].thumbprint == thumbprint
  }

  ghost function AccountWith(st: State, thumbprint: string): (id: Id)
    requires HasThumbprint(st, thumbprint)
    ensures id in st.accounts && st.accounts[id].thumbprint == thumbprint
  {
    var id :| id in st.accounts && st.accounts[id].thumbprint == thumbprint;
    id
  }

  ghost function NewAccount(sys: System, now: Time, key: Key, source: ClientId, onlyExisting: bool, id: Id, outcome: Outcome)
    : (System, Reply)
  {
    if HasThumbprint(sys.mem, key.thumbprint) then
      var known := AccountWith(sys.mem, key.thumbprint);
      (Touch(sys, sys.mem.accounts[known].id, now), Accepted(known))
    else if onlyExisting then (sys, Refused)
    else
      var denied := DenyCreation(sys.mem, now, source, NewAccountKind);
      if denied.Some? then (sys, denied.value)
      else
        var pruned := Prune(sys.mem, now, sys.activity);
        if |pruned.accounts| >= MAX_ACCOUNTS then (sys, RateLimited(RetrySeconds(ACCOUNT_IDLE_LIFETIME)))
        else
          Committed(sys, WithAccount(pruned, now, key, source, id), now, outcome, id)
  }

  function WithAccount(pruned: State, now: Time, key: Key, source: ClientId, id: Id): State {
    var recorded := RecordCreation(pruned, now, source, NewAccountKind);
    recorded.(accounts := recorded.accounts[id := Account(id, key, key.thumbprint, AccountValid, now, [])])
  }

  function DeactivateOrder(o: Order): Order {
    if o.status == OrderPending || o.status == OrderReady then o.(status := OrderInvalid) else o
  }

  function DeactivateAuth(a: Authorization): Authorization {
    if a.status == AuthPending then a.(status := AuthDeactivated, challenge := ChallengeInvalid) else a
  }

  /** The snapshot in which account `id` has a new status; deactivation takes its open orders along. */
  function WithAccountStatus(st: State, id: Id, status: AccountStatus): State
    requires id in st.accounts
  {
    var updated := st.(accounts := st.accounts[id := st.accounts[id].(status := status)]);
    if status == AccountValid then updated
    else
      updated.(
        orders := map k | k in st.orders :: if st.orders[k].accountId == id then DeactivateOrder(st.orders[k]) else st.orders[k],
        auths := map k | k in st.auths :: if st.auths[k].accountId == id then DeactivateAuth(st.auths[k]) else st.auths[k])
  }

  /** `status` is None for an update that only sets the contact or changes nothing. */
  function UpdateAccount(sys: System, now: Time, req: Request, contact: bool, status: Option<AccountStatus>, outcome: Outcome)
    : (System, Reply)
  {
    if !IsActive(sys.mem, req) then (sys, Refused)
    else
      var touched := Touch(sys, req.accountId, now);
      if !contact && status.None? then (touched, Accepted(req.accountId))
      else
        var next := WithAccountStatus(sys.mem, req.accountId, if status.Some? then status.value else AccountValid);
        Committed(touched, next, now, outcome, req.accountId)
  }

  function WithKey(st: State, id: Id, key: Key): State
    requires id in st.accounts
  {
    st.(accounts := st.accounts[id := st.accounts[id].(key := key, thumbprint := key.thumbprint)])
  }

  function KeyChange(sys: System, now: Time, req: Request, key: Key, outcome: Outcome): (System, Reply) {
    if key.thumbprint == req.key.thumbprint || !IsActive(sys.mem, req) then (sys, Refused)
    else
      var touched := Touch(sys, req.accountId, now);
      if HasThumbprint(sys.mem, key.thumbprint) then (touched, Refused)
      else Committed(touched, WithKey(sys.mem, req.accountId, key), now, outcome, req.accountId)
  }

  // ----- Orders -----

  function CanonicalIdentifier(raw: string): string {
    ToLower(TrimSuffix(raw, "."))
  }

  predicate Distinct<T(==)>(s: seq<T>) {
    forall i, j :: 0 <= i < j < |s| ==> s[i] != s[j]
  }

  /** The checks a new order passes before the lock: one to sixteen distinct ASCII names of the
      domain, each with an eligible lease. */
  predicate AcceptableNames(cfg: Config, owners: Owners, raw: seq<string>, names: seq<string>) {
    && 1 <= |raw| <= MAX_IDENTIFIERS && |names| == |raw| && Distinct(names)
    && (forall i :: 0 <= i < |raw| ==> forall k :: 0 <= k < |raw[i]| ==> raw[i][k] as int <= 127)
    && (forall i :: 0 <= i < |raw| ==> names[i] == CanonicalIdentifier(raw[i]))
    && (forall i :: 0 <= i < |raw| ==> AllowedName(cfg.domain, names[i]) && names[i] in owners)
  }

  predicate Open(o: Order, accountId: Id) {
    o.accountId == accountId && (o.status == OrderPending || o.status == OrderReady)
  }

  function OpenOrders(st: State, accountId: Id): set<Id> {
    set id | id in st.orders && Open(st.orders[id], accountId)
  }

  predicate OrderCapacityReached(pruned: State, accountId: Id, count: nat)
    requires accountId in pruned.accounts
  {
    || |OpenOrders(pruned, accountId)| >= MAX_ACCOUNT_ORDERS
    || |pruned.accounts[accountId].recentOrders| >= MAX_ACCOUNT_ORDERS
    || |pruned.orders| >= MAX_RECORDS
    || |pruned.auths| + count > MAX_RECORDS
  }

  function NewAuth(order: Order, authId: Id, name: string, token: string): Authorization {
    Authorization(authId, order.accountId, order.id, name, AuthPending, order.expires, token, ChallengePending, None, NO_TARGET)
  }

  function WithAuths(auths: map<Id, Authorization>, order: Order, tokens: seq<string>, k: nat): (r: map<Id, Authorization>)
    requires k <= |order.authIds| == |order.identifiers| == |tokens|
  {
    if k == 0 then auths
    else
      var rest := WithAuths(auths, order, tokens, k - 1);
      rest[order.authIds[k - 1] := NewAuth(order, order.authIds[k - 1], order.identifiers[k - 1], tokens[k - 1])]
  }

  function WithOrder(pruned: State, now: Time, source: ClientId, order: Order, tokens: seq<string>): State
    requires |order.authIds| == |order.identifiers| == |tokens|
    requires order.accountId in pruned.accounts
  {
    var a := pruned.accounts[order.accountId];
    var next := pruned.(
      auths := WithAuths(pruned.auths, order, tokens, |tokens|),
      orders := pruned.orders[order.id := order],
      accounts := pruned.accounts[order.accountId := a.(recentOrders := a.recentOrders + [now])]);
    RecordCreation(next, now, source, NewOrderKind)
  }

  /** Fresh random identifiers for an order and its authorizations. */
  datatype OrderIds = OrderIds(order: Id, auths: seq<Id>, tokens: seq<string>)

  function NewOrder(sys: System, now: Time, req: Request, source: ClientId, names: seq<string>, ids: OrderIds, outcome: Outcome)
    : (System, Reply)
    requires |ids.auths| == |ids.tokens| == |names|
  {
    if !IsActive(sys.mem, req) then (sys, Refused)
    else
      var touched := Touch(sys, req.accountId, now);
      var denied := DenyCreation(sys.mem, now, source, NewOrderKind);
      if denied.Some? then (touched, denied.value)
      else
        var pruned := Prune(sys.mem, now, touched.activity);
        // The account is still there: the touch above keeps it from being idle.
        if req.accountId !in pruned.accounts || OrderCapacityReached(pruned, req.accountId, |names|) then
          (touched, RateLimited(RetrySeconds(ORDER_LIFETIME)))
        else
          var order := Order(ids.order, req.accountId, OrderPending, now + ORDER_LIFETIME, names, ids.auths, "", []);
          Committed(touched, WithOrder(pruned, now, source, order, ids.tokens), now, outcome, ids.order)
  }

  // ----- Authorizations -----

  predicate OwnsAuth(st: State, req: Request, authId: Id) {
    authId in st.auths && st.auths[authId].accountId == req.accountId
  }

  function WithAuthDeactivated(st: State, authId: Id): State
    requires authId in st.auths
  {
    var a := st.auths[authId];
    var gone := a.(status := AuthDeactivated,
                   challenge := if a.challenge == ChallengeProcessing then ChallengeInvalid else a.challenge);
    var next := st.(auths := st.auths[authId := gone]);
    if a.orderId in st.orders && Open(st.orders[a.orderId], st.orders[a.orderId].accountId) then
      next.(orders := next.orders[st.orders[a.orderId].id := st.orders[a.orderId].(status := OrderInvalid)])
    else next
  }

  function DeactivateAuthorization(sys: System, now: Time, req: Request, authId: Id, outcome: Outcome): (System, Reply) {
    if !IsActive(sys.mem, req) then (sys, Refused)
    else
      var touched := Touch(sys, req.accountId, now);
      if !OwnsAuth(sys.mem, req, authId) then (touched, Refused)
      else Committed(touched, WithAuthDeactivated(sys.mem, authId), now, outcome, authId)
  }

  // ----- HTTP-01 challenges -----

  function WithChallenge(st: State, authId: Id, status: ChallengeStatus): State
    requires authId in st.auths
  {
    st.(auths := st.auths[authId := st.auths[authId].(challenge := status)])
  }

  /** After a failed snapshot an outbound check is not left processing in memory. */
  function RetryInterrupted(sys: System, authId: Id): System {
    if authId in sys.mem.auths && sys.mem.auths[authId].status == AuthPending
       && sys.mem.auths[authId].challenge == ChallengeProcessing then
      sys.(mem := WithChallenge(sys.mem, authId, ChallengePending))
    else sys
  }

  predicate CanStart(st: State, now: Time, authId: Id)
    requires authId in st.auths
  {
    var a := st.auths[authId];
    a.status == AuthPending && a.orderId in st.orders && st.orders[a.orderId].status == OrderPending && now < a.expires
  }

  /** The first locked region of a challenge request. */
  function StartChallenge(sys: System, now: Time, req: Request, authId: Id, acknowledged: bool, outcome: Outcome)
    : (System, Reply)
  {
    if !IsActive(sys.mem, req) then (sys, Refused)
    else
      var touched := Touch(sys, req.accountId, now);
      if !OwnsAuth(sys.mem, req, authId) then (touched, Refused)
      else if !acknowledged || sys.mem.auths[authId].challenge == ChallengeProcessing
              || sys.mem.auths[authId].status == AuthValid then (touched, Accepted(authId))
      else if !CanStart(sys.mem, now, authId) then (touched, Refused)
      else if |sys.inflight| >= MAX_VALIDATIONS then (touched, RateLimited(5))
      else
        var after := Commit(touched, WithChallenge(sys.mem, authId, ChallengeProcessing), now, outcome);
        if !outcome.Synced? then (RetryInterrupted(after, authId), InternalError)
        else (after.(inflight := after.inflight[authId := req]), Accepted(authId))
  }

  predicate AllValid(st: State, authIds: seq<Id>) {
    forall i :: 0 <= i < |authIds| ==> authIds[i] in st.auths && st.auths[authIds[i]].status == AuthValid
  }

  /** A proof signed with a key that is no longer the account's: the order stays, the proof is discarded. */
  predicate RolledOver(st: State, now: Time, req: Request, a: Authorization, o: Order) {
    && !IsActive(st, req) && req.accountId in st.accounts
    && st.accounts[req.accountId].status == AccountValid
    && st.accounts[req.accountId].thumbprint != req.key.thumbprint
    && now < a.expires && o.status == OrderPending
  }

  function WithProof(st: State, now: Time, req: Request, authId: Id, proof: Option<Target>): State
    requires authId in st.auths && st.auths[authId].orderId in st.orders
  {
    var a := st.auths[authId];
    var o := st.orders[a.orderId];
    if proof.None? || !IsActive(st, req) || a.expires <= now || o.status != OrderPending then
      st.(auths := st.auths[authId := a.(status := AuthInvalid, challenge := ChallengeInvalid)],
          orders := st.orders[o.id := o.(status := OrderInvalid)])
    else
      var next := st.(auths := st.auths[authId :=
        a.(status := AuthValid, challenge := ChallengeValid, validated := Some(now), target := proof.value)]);
      if AllValid(next, o.authIds) then next.(orders := next.orders[o.id := o.(status := OrderReady)])
      else next
  }

  /** The snapshot a finishing validation commits. */
  function Finished(st: State, now: Time, req: Request, authId: Id, proof: Option<Target>): State
    requires authId in st.auths && st.auths[authId].orderId in st.orders
  {
    if RolledOver(st, now, req, st.auths[authId], st.orders[st.auths[authId].orderId]) then WithChallenge(st, authId, ChallengePending)
    else WithProof(st, now, req, authId, proof)
  }

  /** The second locked region: the outbound validation of `authId` returned `proof`, or an error. */
  function FinishChallenge(sys0: System, now: Time, authId: Id, proof: Option<Target>, outcome: Outcome): (System, Reply)
    requires authId in sys0.inflight
  {
    var req := sys0.inflight[authId];
    var sys := sys0.(inflight := sys0.inflight - {authId});
    if authId !in sys.mem.auths then (sys, Refused)
    else
      var a := sys.mem.auths[authId];
      if a.status != AuthPending || a.challenge != ChallengeProcessing || a.orderId !in sys.mem.orders then
        (sys, Accepted(authId))
      else
        var touched := if IsActive(sys.mem, req) then Touch(sys, req.accountId, now) else sys;
        var after := Commit(touched, Finished(sys.mem, now, req, authId, proof), now, outcome);
        if outcome.Synced? then (after, Accepted(authId))
        else (RetryInterrupted(after, authId), InternalError)
  }

  // ----- Issuance -----

  /** The authorization still proves control: valid, unexpired, and its target still owns the name. */
  predicate StillProven(st: State, now: Time, owners: Owners, authId: Id) {
    && authId in st.auths
    && var a := st.auths[authId];
       a.status == AuthValid && now < a.expires && a.name in owners && owners[a.name] == a.target
  }

  /** What the certificate authority answers: a refused request, an internal failure, or a leaf. */
  datatype Signing = BadRequest | SigningFailed | Signed(leaf: Leaf)

  function WithCertificate(st: State, orderId: Id, leaf: Leaf, certId: Id, csr: seq<int>): State
    requires orderId in st.orders
  {
    var o := st.orders[orderId];
    st.(certs := st.certs[certId := Certificate(certId, o.accountId, orderId, leaf, leaf.serial, leaf.notAfter, None, 0)],
        orders := st.orders[orderId := o.(status := OrderValid, certificateId := certId, csr := csr, expires := leaf.notAfter)])
  }

  function Finalize(sys: System, now: Time, req: Request, orderId: Id, csr: seq<int>, owners: Owners,
                    signing: Signing, certId: Id, outcome: Outcome): (System, Reply)
  {
    if csr == [] || !IsActive(sys.mem, req) then (sys, Refused)
    else
      var touched := Touch(sys, req.accountId, now);
      if orderId !in sys.mem.orders || sys.mem.orders[orderId].accountId != req.accountId then (touched, Refused)
      else
        var o := sys.mem.orders[orderId];
        if o.status == OrderValid && o.csr == csr then (touched, Accepted(orderId))
        else if o.status != OrderReady || o.expires <= now then (touched, Refused)
        else if |sys.mem.certs| >= MAX_RECORDS then (touched, Refused)
        else if exists i :: 0 <= i < |o.authIds| && !StillProven(sys.mem, now, owners, o.authIds[i]) then
          var next := sys.mem.(orders := sys.mem.orders[orderId := o.(status := OrderInvalid)]);
          (Commit(touched, next, now, outcome), if outcome.Synced? then Refused else InternalError)
        else
          match signing
          case BadRequest => (touched, Refused)
          case SigningFailed => (touched, InternalError)
          case Signed(leaf) => Committed(touched, WithCertificate(sys.mem, orderId, leaf, certId, csr), now, outcome, orderId)
  }

  // ----- Revocation -----

  predicate Listed(c: Certificate, now: Time) {
    c.revokedAt.Some? && now < c.notAfter
  }

  function RevokedEntries(certs: map<Id, Certificate>, now: Time): set<CrlEntry> {
    set id | id in certs && Listed(certs[id], now) :: CrlEntry(certs[id].serial, certs[id].revokedAt.value, certs[id].reason)
  }

  predicate EntryAccepted(e: CrlEntry, now: Time) {
    0 < e.serial && e.revokedAt != 0 && e.revokedAt <= now && 0 <= e.reason <= 10 && e.reason != 7
  }

  /** The entry checks of the certificate authority. */
  predicate EntriesAccepted(entries: set<CrlEntry>, now: Time) {
    && (forall e :: e in entries ==> EntryAccepted(e, now))
    && (forall e, f :: e in entries && f in entries && e.serial == f.serial ==> e == f)
  }

  /** The snapshot with a new revocation list, or None when none can be made. `nextUpdate` is what
      the authority puts in the list, None if it fails. */
  function RefreshCrl(st: State, now: Time, nextUpdate: Option<Time>): Option<State> {
    if st.crlNumber < 0 || st.crlNumber == MAX_INT64 then None
    else
      var entries := RevokedEntries(st.certs, now);
      if !EntriesAccepted(entries, now) || nextUpdate.None? || nextUpdate.value <= now then None
      else
        var number := st.crlNumber + 1;
        Some(st.(crl := Some(Crl(number, nextUpdate.value, entries, st.root)), crlNumber := number, crlNextUpdate := nextUpdate.value))
  }

  /** Who asks for a revocation: an account, or the holder of the certificate's own key. */
  datatype Revoker = ByAccount(req: Request) | ByCertificateKey(key: Key)

  predicate Proves(a: Authorization, now: Time, target: Target, accountId: Id, name: string) {
    && a.accountId == accountId && a.name == name && a.status == AuthValid && a.challenge == ChallengeValid
    && a.validated.Some? && a.validated.value <= now && now < a.expires && a.target == target
  }

  predicate ProvenFor(st: State, now: Time, owners: Owners, accountId: Id, name: string) {
    name in owners && exists id :: id in st.auths && Proves(st.auths[id], now, owners[name], accountId, name)
  }

  predicate CanRevoke(st: State, now: Time, owners: Owners, revoker: Revoker, c: Certificate) {
    match revoker
    case ByAccount(req) =>
      && IsActive(st, req)
      && (st.accounts[req.accountId].id == c.accountId
          || (c.leaf.names != [] && forall i :: 0 <= i < |c.leaf.names| ==>
                ProvenFor(st, now, owners, st.accounts[req.accountId].id, c.leaf.names[i])))
    case ByCertificateKey(key) => key.thumbprint == c.leaf.keyThumbprint
  }

  predicate IsRecorded(st: State, leaf: Leaf, id: Id) {
    id in st.certs && st.certs[id].serial == leaf.serial && st.certs[id].leaf == leaf
  }

  ghost function RecordedId(st: State, leaf: Leaf): (id: Id)
    requires exists id :: IsRecorded(st, leaf, id)
    ensures IsRecorded(st, leaf, id)
  {
    var id :| IsRecorded(st, leaf, id);
    id
  }

  function WithRevocation(st: State, id: Id, now: Time, reason: int): State
    requires id in st.certs
  {
    st.(certs := st.certs[id := st.certs[id].(revokedAt := Some(now), reason := reason)])
  }

  ghost function Revoke(sys: System, now: Time, revoker: Revoker, leaf: Leaf, reason: int, owners: Owners,
                        nextUpdate: Option<Time>, outcome: Outcome): (System, Reply)
  {
    if !ValidReason(reason) then (sys, Refused)
    else if !exists id :: IsRecorded(sys.mem, leaf, id) then (sys, Refused)
    else
      var id := RecordedId(sys.mem, leaf);
      var touched := if revoker.ByAccount? && IsActive(sys.mem, revoker.req) then Touch(sys, revoker.req.accountId, now) else sys;
      if !CanRevoke(sys.mem, now, owners, revoker, sys.mem.certs[id]) || sys.mem.certs[id].revokedAt.Some? then (touched, Refused)
      else
        var refreshed := RefreshCrl(WithRevocation(sys.mem, id, now, reason), now, nextUpdate);
        if refreshed.None? then (touched, InternalError)
        else Committed(touched, refreshed.value, now, outcome, sys.mem.certs[id].id)
  }

  predicate CrlStale(st: State, now: Time) {
    st.crl.None? || st.crlNextUpdate <= now + MINUTE
  }

  function ServeCrl(sys: System, now: Time, nextUpdate: Option<Time>, outcome: Outcome): (System, Reply) {
    if !CrlStale(sys.mem, now) then (sys, ServedCrl(sys.mem.crl.value))
    else
      var refreshed := RefreshCrl(sys.mem, now, nextUpdate);
      if refreshed.None? then (sys, InternalError)
      else
        var after := Commit(sys, refreshed.value, now, outcome);
        (after, if outcome.Synced? then ServedCrl(after.mem.crl.value) else InternalError)
  }

  // ----- Start-up -----

  /** Everything the server checks before it accepts a state file. */
  predicate ValidateState(cfg: Config, st: State) {
    && st.version == 1 && st.domain == cfg.domain && st.root == cfg.root
    && |st.accounts| <= MAX_ACCOUNTS && |st.orders| <= MAX_RECORDS && |st.auths| <= MAX_RECORDS && |st.certs| <= MAX_RECORDS
    && |st.limits| <= MAX_RECORDS
    && (forall s :: s in st.limits ==> LimitLoads(s, st.limits[s]))
    && (forall id :: id in st.accounts ==> AccountLoads(st, id))
    && (forall id, k :: id in st.accounts && k in st.accounts && id != k ==> st.accounts[id].thumbprint != st.accounts[k].thumbprint)
    && (forall id :: id in st.orders ==> OrderLoads(cfg, st, id))
    && (forall id :: id in st.auths ==> AuthLoads(cfg, st, id))
    && (forall id :: id in st.certs ==> CertLoads(cfg, st, id))
    && (forall id, k :: id in st.certs && k in st.certs && id != k ==> st.certs[id].serial != st.certs[k].serial)
    && (st.crl.Some? ==> st.crl.value.number == st.crlNumber && st.crl.value.nextUpdate == st.crlNextUpdate
                         && st.crl.value.issuer == cfg.root)
  }

  predicate LimitLoads(source: ClientId, limit: LeaseLimit) {
    source != Utf8("") && |limit.accounts| <= MAX_LEASE_ACCOUNTS && |limit.orders| <= MAX_LEASE_ORDERS
  }

  predicate AccountLoads(st: State, id: Id)
    requires id in st.accounts
  {
    var a := st.accounts[id];
    a.key.public && a.id == id && ValidId(id) && a.key.thumbprint == a.thumbprint && |a.recentOrders| <= MAX_ACCOUNT_ORDERS
  }

  predicate OrderLoads(cfg: Config, st: State, id: Id)
    requires id in st.orders
  {
    var o := st.orders[id];
    && o.id == id && ValidId(id) && o.expires != 0
    && 1 <= |o.identifiers| <= MAX_IDENTIFIERS && |o.authIds| == |o.identifiers|
    && o.accountId in st.accounts
    && Distinct(o.identifiers)
    && (forall i :: 0 <= i < |o.identifiers| ==> IdentifierLoads(cfg, st, o, i))
    && (o.status == OrderValid ==> o.certificateId in st.certs && st.certs[o.certificateId].orderId == id && o.csr != [])
  }

  /** The i-th identifier is allowed, and the i-th authorization is for it and for this order. */
  predicate IdentifierLoads(cfg: Config, st: State, o: Order, i: nat)
    requires i < |o.identifiers| == |o.authIds|
  {
    && AllowedName(cfg.domain, o.identifiers[i]) && o.authIds[i] in st.auths
    && var a := st.auths[o.authIds[i]];
       a.orderId == o.id && a.accountId == o.accountId && a.name == o.identifiers[i]
  }

  predicate AuthLoads(cfg: Config, st: State, id: Id)
    requires id in st.auths
  {
    var a := st.auths[id];
    && a.id == id && ValidId(id) && ValidId(a.token) && a.expires != 0 && AllowedName(cfg.domain, a.name)
    && a.orderId in st.orders && st.orders[a.orderId].accountId == a.accountId
    && (a.status == AuthValid ==> a.validated.Some? && ProvenTarget(a.target) && a.challenge == ChallengeValid)
  }

  predicate CertLoads(cfg: Config, st: State, id: Id)
    requires id in st.certs
  {
    var c := st.certs[id];
    && c.id == id && ValidId(id) && c.leaf.serial == c.serial && c.leaf.notAfter == c.notAfter && !c.leaf.isCA
    && c.leaf.issuer == cfg.root
    && (c.revokedAt.Some? ==> ValidReason(c.reason))
    && c.orderId in st.orders
    && var o := st.orders[c.orderId];
       o.accountId == c.accountId && o.certificateId == id && o.status == OrderValid
  }

  /** A validation interrupted by a crash proves nothing; the client may try again. */
  function RecoveredAuth(a: Authorization): Authorization {
    if a.challenge == ChallengeProcessing then a.(challenge := ChallengePending) else a
  }

  function Recover(st: State): State {
    st.(auths := map id | id in st.auths :: RecoveredAuth(st.auths[id]))
  }

  function Crash(sys: System): System {
    sys.(up := false, activity := map[], inflight := map[])
  }

  /** Loads the file, recovers it, and saves the result; the server is up only if all of that works. */
  function Restart(cfg: Config, sys: System, now: Time, outcome: Outcome): (System, Reply) {
    var down := Crash(sys);
    if sys.disk.Some? && !ValidateState(cfg, sys.disk.value) then (down, Refused)
    else
      var loaded := if sys.disk.None? then Fresh(cfg) else Recover(sys.disk.value);
      var after := Commit(down.(mem := loaded), loaded, now, outcome);
      if outcome.Synced? then (after.(up := true), Accepted("")) else (after, InternalError)
  }

  // ----- Steps -----

  /** One locked region, with everything it reads from outside: the clock, fresh random values,
      the outcome of the snapshot write, and the answers of the lease registry and the authority. */
  datatype Event =
    | NewAccountCall(now: Time, key: Key, source: ClientId, onlyExisting: bool, id: Id, outcome: Outcome)
    | UpdateAccountCall(now: Time, req: Request, contact: bool, status: Option<AccountStatus>, outcome: Outcome)
    | KeyChangeCall(now: Time, req: Request, key: Key, outcome: Outcome)
    | NewOrderCall(now: Time, req: Request, source: ClientId, raw: seq<string>, names: seq<string>, owners: Owners,
                   ids: OrderIds, outcome: Outcome)
    | ReadCall(now: Time, req: Request)
    | DeactivateAuthCall(now: Time, req: Request, authId: Id, outcome: Outcome)
    | StartCall(now: Time, req: Request, authId: Id, acknowledged: bool, outcome: Outcome)
    | FinishCall(now: Time, authId: Id, proof: Option<Target>, outcome: Outcome)
    | FinalizeCall(now: Time, req: Request, orderId: Id, csr: seq<int>, owners: Owners, signing: Signing, certId: Id, outcome: Outcome)
    | RevokeCall(now: Time, revoker: Revoker, leaf: Leaf, reason: int, owners: Owners, nextUpdate: Option<Time>, outcome: Outcome)
    | CrlCall(now: Time, nextUpdate: Option<Time>, outcome: Outcome)
    | CrashEvent(now: Time)
    | RestartCall(now: Time, outcome: Outcome)

  ghost predicate FreshId(sys: System, id: Id) {
    && ValidId(id)
    && id !in sys.mem.accounts && id !in sys.mem.orders && id !in sys.mem.auths && id !in sys.mem.certs
    && id !in sys.inflight
  }

  function AuthorizedNames(st: State, orderId: Id): seq<string>
    requires orderId in st.orders
  {
    var ids := st.orders[orderId].authIds;
    seq(|ids|, i requires 0 <= i < |ids| => if ids[i] in st.auths then st.auths[ids[i]].name else "")
  }

  /** The authority's contract: a leaf of this authority, with a new serial, for exactly the authorized names. */
  ghost predicate SigningContract(cfg: Config, st: State, orderId: Id, leaf: Leaf) {
    && leaf.issuer == cfg.root && !leaf.isCA && 0 < leaf.serial && 0 < leaf.notAfter
    && (forall id :: id in st.certs ==> st.certs[id].serial != leaf.serial)
    && (orderId in st.orders ==> multiset(leaf.names) == multiset(AuthorizedNames(st, orderId)))
  }

  /** When a step may happen: time does not go back, a server that is down only restarts, random
      values are fresh, and outside parties keep their contracts. */
  ghost predicate Enabled(cfg: Config, sys: System, e: Event) {
    && 0 < e.now && sys.clock <= e.now
    && (sys.up || e.CrashEvent? || e.RestartCall?)
    && match e
       case NewAccountCall(_, key, _, _, id, _) => key.public && FreshId(sys, id)
       case KeyChangeCall(_, _, key, _) => key.public
       case NewOrderCall(_, _, _, raw, names, owners, ids, _) =>
         && AcceptableNames(cfg, owners, raw, names)
         && |ids.auths| == |ids.tokens| == |names| && Distinct(ids.auths) && FreshId(sys, ids.order)
         && (forall i :: 0 <= i < |ids.auths| ==> FreshId(sys, ids.auths[i]) && ValidId(ids.tokens[i]))
       case FinishCall(_, authId, proof, _) => authId in sys.inflight && (proof.Some? ==> ProvenTarget(proof.value))
       case FinalizeCall(_, _, orderId, _, _, signing, certId, _) =>
         FreshId(sys, certId) && (signing.Signed? ==> SigningContract(cfg, sys.mem, orderId, signing.leaf))
       case _ => true
  }

  ghost function Step(cfg: Config, before: System, e: Event): (System, Reply)
    requires Enabled(cfg, before, e)
  {
    var sys := before.(clock := e.now);
    match e
    case NewAccountCall(now, key, source, onlyExisting, id, outcome) => NewAccount(sys, now, key, source, onlyExisting, id, outcome)
    case UpdateAccountCall(now, req, contact, status, outcome) => UpdateAccount(sys, now, req, contact, status, outcome)
    case KeyChangeCall(now, req, key, outcome) => KeyChange(sys, now, req, key, outcome)
    case NewOrderCall(now, req, source, _, names, _, ids, outcome) => NewOrder(sys, now, req, source, names, ids, outcome)
    case ReadCall(now, req) =>
      if IsActive(sys.mem, req) then (Touch(sys, req.accountId, now), Accepted(req.accountId)) else (sys, Refused)
    case DeactivateAuthCall(now, req, authId, outcome) => DeactivateAuthorization(sys, now, req, authId, outcome)
    case StartCall(now, req, authId, acknowledged, outcome) => StartChallenge(sys, now, req, authId, acknowledged, outcome)
    case FinishCall(now, authId, proof, outcome) => FinishChallenge(sys, now, authId, proof, outcome)
    case FinalizeCall(now, req, orderId, csr, owners, signing, certId, outcome) =>
      Finalize(sys, now, req, orderId, csr, owners, signing, certId, outcome)
    case RevokeCall(now, revoker, leaf, reason, owners, nextUpdate, outcome) =>
      Revoke(sys, now, revoker, leaf, reason, owners, nextUpdate, outcome)
    case CrlCall(now, nextUpdate, outcome) => ServeCrl(sys, now, nextUpdate, outcome)
    case CrashEvent(_) => (Crash(sys), Refused)
    case RestartCall(now, outcome) => Restart(cfg, sys, now, outcome)
  }

  /** A machine on which the server has never run. */
  function Pristine(cfg: Config): System {
    System(false, Fresh(cfg), map[], map[], None, 0)
  }

  ghost predicate StepsTo(cfg: Config, before: System, e: Event, after: System) {
    Enabled(cfg, before, e) && after == Step(cfg, before, e).0
  }

  ghost predicate IsRun(cfg: Config, states: seq<System>, events: seq<Event>) {
    && |states| == |events| + 1
    && states[0] == Pristine(cfg)
    && forall k :: 0 <= k < |events| ==> StepAt(cfg, states, events, k)
  }

  ghost predicate StepAt(cfg: Config, states: seq<System>, events: seq<Event>, k: int)
    requires 0 <= k < |events| < |states|
  {
    StepsTo(cfg, states[k], events[k], states[k + 1])
  }
}
