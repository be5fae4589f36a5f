/** The whole life of a certificate, as one run: from an empty machine to a certificate on record, to its
    revocation and the list that names it. So the theorems about certificates are about something. */
module AcmeStory {
  import opened Common
  import opened Hostname
  import opened Validator
  import opened Acme
  import AcmeOutside

  /** Who and what the run is about: the identifiers drawn, the name asked for and the host behind it. */
  datatype Cast = Cast(account: Id, order: Id, auth: Id, cert: Id, token: string, source: ClientId, key: Key, name: string, target: Target)

  predicate Proper(cfg: Config, c: Cast) {
    && ValidId(c.account) && ValidId(c.order) && ValidId(c.auth) && ValidId(c.cert) && ValidId(c.token)
    && c.account != c.order && c.account != c.auth && c.account != c.cert && c.order != c.auth && c.order != c.cert && c.auth != c.cert
    && c.source != Utf8("") && c.key.public && AllowedName(cfg.domain, c.name) && ProvenTarget(c.target)
  }

  // ----- What is on record after each step, all at time 1 -----

  function LeafFor(cfg: Config, c: Cast): Leaf {
    Leaf(7, [c.name], 1 + DAY, false, cfg.root, "leaf")
  }

  function TheRequest(c: Cast): Request {
    Request(c.account, c.key)
  }

  function TheAccount(c: Cast, orders: seq<Time>): Account {
    Account(c.account, c.key, c.key.thumbprint, AccountValid, 1, orders)
  }

  function Registered(cfg: Config, c: Cast, orders: seq<Time>): State {
    Fresh(cfg).(accounts := map[c.account := TheAccount(c, orders)], limits := map[c.source := LeaseLimit([1], orders)])
  }

  function TheAuth(c: Cast, status: AuthStatus, challenge: ChallengeStatus, validated: Option<Time>, target: Target): Authorization {
    Authorization(c.auth, c.account, c.order, c.name, status, 1 + DAY, c.token, challenge, validated, target)
  }

  function TheOrder(c: Cast, status: OrderStatus): Order {
    Order(c.order, c.account, status, 1 + DAY, [c.name], [c.auth], "", [])
  }

  function Ordered(cfg: Config, c: Cast, status: OrderStatus, a: Authorization): State {
    Registered(cfg, c, [1]).(orders := map[c.order := TheOrder(c, status)], auths := map[c.auth := a])
  }

  function Asked(cfg: Config, c: Cast): State {
    Ordered(cfg, c, OrderPending, TheAuth(c, AuthPending, ChallengePending, None, NO_TARGET))
  }

  function Checking(cfg: Config, c: Cast): State {
    Ordered(cfg, c, OrderPending, TheAuth(c, AuthPending, ChallengeProcessing, None, NO_TARGET))
  }

  function Ready(cfg: Config, c: Cast): State {
    Ordered(cfg, c, OrderReady, TheAuth(c, AuthValid, ChallengeValid, Some(1), c.target))
  }

  function TheCertificate(cfg: Config, c: Cast, revokedAt: Option<Time>, reason: int): Certificate {
    Certificate(c.cert, c.account, c.order, LeafFor(cfg, c), 7, 1 + DAY, revokedAt, reason)
  }

  function Complete(cfg: Config, c: Cast, revokedAt: Option<Time>, reason: int): State {
    Ready(cfg, c).(
      orders := map[c.order := TheOrder(c, OrderValid).(certificateId := c.cert, csr := [1])],
      certs := map[c.cert := TheCertificate(cfg, c, revokedAt, reason)])
  }

  function Revoked(cfg: Config, c: Cast): State {
    Complete(cfg, c, Some(1), 4).(
      crl := Some(Crl(1, 1 + DAY, {CrlEntry(7, 1, 4)}, cfg.root)), crlNumber := 1, crlNextUpdate := 1 + DAY)
  }

  /** The service is up with this on record, nothing unsaved, and these validations out. */
  function Up(st: State, inflight: map<Id, Request>): System {
    System(true, st, map[], inflight, Some(st), 1)
  }

  // ----- Nothing of it is pruned -----

  ghost predicate Young(st: State) {
    && (forall id :: id in st.orders ==> Live(st.orders[id], 1))
    && (forall id :: id in st.accounts ==> st.accounts[id].lastActive == 1 && st.accounts[id].recentOrders in {[], [1]})
    && (forall s :: s in st.limits ==> st.limits[s] in {LeaseLimit([1], []), LeaseLimit([1], [1])})
  }

  lemma RecentOne(cutoff: Time)
    requires cutoff < 1
    ensures Recent([], cutoff) == [] && Recent([1], cutoff) == [1]
  {
    assert [1][..0] == [];
  }

  lemma YoungAccount(st: State, activity: map<Id, Time>, id: Id)
    requires Young(st) && id in st.accounts && forall k :: k in activity ==> activity[k] == 1
    ensures !AccountDropped(st, 1, activity, id) && PrunedAccount(st.accounts[id], 1, activity, id) == st.accounts[id]
  {
    RecentOne(1 - ORDER_LIFETIME);
    hide Recent, Live, Referenced;
  }

  lemma YoungAccounts(st: State, activity: map<Id, Time>)
    requires Young(st) && forall id :: id in activity ==> activity[id] == 1
    ensures Prune(st, 1, activity).accounts == st.accounts
  {
    hide AccountDropped, PrunedAccount, AuthDropped, CertDropped, LiveLimits, Live, Young;
    forall id | id in st.accounts ensures !AccountDropped(st, 1, activity, id) && PrunedAccount(st.accounts[id], 1, activity, id) == st.accounts[id] {
      YoungAccount(st, activity, id);
    }
  }

  lemma YoungLimit(limit: LeaseLimit)
    requires limit in {LeaseLimit([1], []), LeaseLimit([1], [1])}
    ensures RecentLimit(limit, 1) == limit && limit != NO_LIMIT
  {
    RecentOne(1 - ORDER_RATE_WINDOW);
    RecentOne(1 - ACCOUNT_RATE_WINDOW);
    hide Recent;
  }

  lemma YoungLimits(st: State)
    requires Young(st)
    ensures LiveLimits(st, 1) == st.limits
  {
    hide RecentLimit, Live;
    forall s | s in st.limits ensures RecentLimit(st.limits[s], 1) == st.limits[s] && st.limits[s] != NO_LIMIT {
      YoungLimit(st.limits[s]);
    }
    hide Young;
  }

  lemma YoungStays(st: State, activity: map<Id, Time>)
    requires Young(st) && forall id :: id in activity ==> activity[id] == 1
    ensures Prune(st, 1, activity) == st
  {
    YoungAccounts(st, activity);
    YoungLimits(st);
    hide LiveLimits, AccountDropped, PrunedAccount;
    var p := Prune(st, 1, activity);
    assert p.orders == st.orders && p.auths == st.auths && p.certs == st.certs;
  }

  // ----- The steps -----

  lemma Starts(cfg: Config)
    ensures StepsTo(cfg, Pristine(cfg), RestartCall(1, Synced), Up(Fresh(cfg), map[]))
  {
    YoungStays(Fresh(cfg), map[]);
    hide Prune, ValidateState, Recover, Fresh;
  }

  function Registration(c: Cast): Event {
    NewAccountCall(1, c.key, c.source, false, c.account, Synced)
  }

  lemma RegisteredSnapshot(cfg: Config, c: Cast)
    ensures WithAccount(Fresh(cfg), 1, c.key, c.source, c.account) == Registered(cfg, c, [])
    ensures c.source != Utf8("") ==> DenyCreation(Fresh(cfg), 1, c.source, NewAccountKind).None?
    ensures Young(Fresh(cfg)) && Young(Registered(cfg, c, []))
  {
    RegisteredRecords(cfg, c);
    FirstAllowed(cfg, c.source);
    RegisteredYoung(cfg, c);
    hide WithAccount, DenyCreation, Young, Registered;
  }

  lemma RegisteredRecords(cfg: Config, c: Cast)
    ensures WithAccount(Fresh(cfg), 1, c.key, c.source, c.account) == Registered(cfg, c, [])
  {
    FirstStamp();
    hide Recorded;
    assert Fresh(cfg).accounts == map[] && Fresh(cfg).limits == map[] && LimitOf(Fresh(cfg), c.source) == NO_LIMIT;
    assert map[][c.account := TheAccount(c, [])] == map[c.account := TheAccount(c, [])];
    assert map[][c.source := LeaseLimit([1], [])] == map[c.source := LeaseLimit([1], [])];
  }

  lemma FirstStamp()
    ensures Recorded(NO_LIMIT, 1, NewAccountKind) == LeaseLimit([1], [])
  {
    RecentOne(1 - ACCOUNT_RATE_WINDOW);
    hide Recent;
  }

  lemma FirstAllowed(cfg: Config, source: ClientId)
    ensures source != Utf8("") ==> DenyCreation(Fresh(cfg), 1, source, NewAccountKind).None?
  {
    RecentOne(1 - ACCOUNT_RATE_WINDOW);
    hide Recent, LiveLimits;
  }

  lemma RegisteredYoung(cfg: Config, c: Cast)
    ensures Young(Fresh(cfg)) && Young(Registered(cfg, c, []))
  {
  }

  lemma AccountStep(cfg: Config, st: State, next: State, e: Event)
    requires e.NewAccountCall? && e.now == 1 && e.outcome.Synced? && !e.onlyExisting && Enabled(cfg, Up(st, map[]), e)
    requires !HasThumbprint(st, e.key.thumbprint) && DenyCreation(st, 1, e.source, NewAccountKind).None? && |st.accounts| < MAX_ACCOUNTS
    requires Prune(st, 1, map[]) == st && next == WithAccount(st, 1, e.key, e.source, e.id) && Prune(next, 1, map[]) == next
    ensures StepsTo(cfg, Up(st, map[]), e, Up(next, map[])) && Step(cfg, Up(st, map[]), e).1 == Accepted(e.id)
  {
    hide Prune, WithAccount, DenyCreation, Enabled, HasThumbprint;
  }

  lemma Registers(cfg: Config, c: Cast)
    requires Proper(cfg, c)
    ensures StepsTo(cfg, Up(Fresh(cfg), map[]), Registration(c), Up(Registered(cfg, c, []), map[]))
    ensures Step(cfg, Up(Fresh(cfg), map[]), Registration(c)).1 == Accepted(c.account)
  {
    hide Prune, Step, StepsTo, ValidId, AllowedName, WithAccount, DenyCreation, Registered, Young;
    RegisteredSnapshot(cfg, c);
    YoungStays(Fresh(cfg), map[]);
    YoungStays(Registered(cfg, c, []), map[]);
    AccountStep(cfg, Fresh(cfg), Registered(cfg, c, []), Registration(c));
  }

  function Asking(c: Cast): Event {
    NewOrderCall(1, TheRequest(c), c.source, [c.name], [c.name], map[c.name := c.target], OrderIds(c.order, [c.auth], [c.token]), Synced)
  }

  lemma AskedSnapshot(cfg: Config, c: Cast)
    requires c.source != Utf8("")
    ensures WithOrder(Registered(cfg, c, []), 1, c.source, TheOrder(c, OrderPending), [c.token]) == Asked(cfg, c)
    ensures DenyCreation(Registered(cfg, c, []), 1, c.source, NewOrderKind).None?
    ensures !OrderCapacityReached(Registered(cfg, c, []), c.account, 1)
    ensures Young(Asked(cfg, c))
  {
    RoomForOrder(cfg, c);
    AskedRecords(cfg, c);
    SecondAllowed(cfg, c);
    AskedYoung(cfg, c);
    hide OrderCapacityReached, WithOrder, DenyCreation, Young, Registered, Asked;
  }

  lemma SecondAllowed(cfg: Config, c: Cast)
    requires c.source != Utf8("")
    ensures DenyCreation(Registered(cfg, c, []), 1, c.source, NewOrderKind).None?
  {
    RecentOne(1 - ORDER_RATE_WINDOW);
    hide Recent, LiveLimits;
  }

  lemma AskedYoung(cfg: Config, c: Cast)
    ensures Young(Asked(cfg, c))
  {
  }

  lemma AskedRecords(cfg: Config, c: Cast)
    ensures WithOrder(Registered(cfg, c, []), 1, c.source, TheOrder(c, OrderPending), [c.token]) == Asked(cfg, c)
  {
    var st, order := Registered(cfg, c, []), TheOrder(c, OrderPending);
    OrderParts(st, c.source, order, [c.token]);
    OneAuth(c);
    SecondStamp();
    hide WithOrder, WithAuths, Recorded;
    assert st.orders == map[] && st.auths == map[] && LimitOf(st, c.source) == LeaseLimit([1], []);
    assert st.orders[c.order := order] == map[c.order := order];
    assert st.accounts[c.account := TheAccount(c, [1])] == map[c.account := TheAccount(c, [1])];
    assert st.limits[c.source := LeaseLimit([1], [1])] == map[c.source := LeaseLimit([1], [1])];
  }

  lemma OrderParts(st: State, source: ClientId, order: Order, tokens: seq<string>)
    requires |order.authIds| == |order.identifiers| == |tokens| && order.accountId in st.accounts
    ensures WithOrder(st, 1, source, order, tokens) == st.(
              auths := WithAuths(st.auths, order, tokens, |tokens|), orders := st.orders[order.id := order],
              accounts := st.accounts[order.accountId := st.accounts[order.accountId].(recentOrders := st.accounts[order.accountId].recentOrders + [1])],
              limits := st.limits[source := Recorded(LimitOf(st, source), 1, NewOrderKind)])
  {
    hide WithAuths, Recorded;
  }

  lemma SecondStamp()
    ensures Recorded(LeaseLimit([1], []), 1, NewOrderKind) == LeaseLimit([1], [1])
  {
    RecentOne(1 - ORDER_RATE_WINDOW);
    hide Recent;
  }

  lemma RoomForOrder(cfg: Config, c: Cast)
    ensures !OrderCapacityReached(Registered(cfg, c, []), c.account, 1)
  {
    assert OpenOrders(Registered(cfg, c, []), c.account) == {};
  }

  lemma OneAuth(c: Cast)
    ensures WithAuths(map[], TheOrder(c, OrderPending), [c.token], 1) ==
              map[c.auth := TheAuth(c, AuthPending, ChallengePending, None, NO_TARGET)]
  {
    assert WithAuths(map[], TheOrder(c, OrderPending), [c.token], 0) == map[];
  }

  lemma NameAcceptable(cfg: Config, c: Cast)
    requires AllowedName(cfg.domain, c.name)
    ensures AcceptableNames(cfg, map[c.name := c.target], [c.name], [c.name])
  {
    AcmeOutside.AllowedBelow(cfg.domain, c.name);
    hide AllowedName, ToLower, TrimSuffix;
  }

  /** The step from a snapshot that pruning leaves alone to the one with the order. */
  lemma OrderStep(cfg: Config, st: State, next: State, e: Event)
    requires e.NewOrderCall? && e.now == 1 && e.outcome.Synced? && Enabled(cfg, Up(st, map[]), e)
    requires IsActive(st, e.req) && DenyCreation(st, 1, e.source, NewOrderKind).None?
    requires Prune(st, 1, map[e.req.accountId := 1]) == st && Prune(next, 1, map[e.req.accountId := 1]) == next
    requires !OrderCapacityReached(st, e.req.accountId, |e.names|) && |e.ids.auths| == |e.ids.tokens| == |e.names|
    requires next == WithOrder(st, 1, e.source, Order(e.ids.order, e.req.accountId, OrderPending, 1 + ORDER_LIFETIME, e.names, e.ids.auths, "", []), e.ids.tokens)
    ensures StepsTo(cfg, Up(st, map[]), e, Up(next, map[])) && Step(cfg, Up(st, map[]), e).1 == Accepted(e.ids.order)
  {
    hide Prune, WithOrder, DenyCreation, OrderCapacityReached, Enabled;
    assert map[][e.req.accountId := 1] == map[e.req.accountId := 1];
  }

  lemma AskEnabled(cfg: Config, c: Cast)
    requires Proper(cfg, c)
    ensures Enabled(cfg, Up(Registered(cfg, c, []), map[]), Asking(c))
  {
    hide ValidId, AllowedName, AcceptableNames, FreshId;
    NameAcceptable(cfg, c);
    FreshForOrder(cfg, c);
    hide Registered;
  }

  lemma FreshForOrder(cfg: Config, c: Cast)
    requires Proper(cfg, c)
    ensures FreshId(Up(Registered(cfg, c, []), map[]), c.order) && FreshId(Up(Registered(cfg, c, []), map[]), c.auth)
  {
    hide ValidId, AllowedName;
  }

  lemma Asks(cfg: Config, c: Cast)
    requires Proper(cfg, c)
    ensures StepsTo(cfg, Up(Registered(cfg, c, []), map[]), Asking(c), Up(Asked(cfg, c), map[]))
    ensures Step(cfg, Up(Registered(cfg, c, []), map[]), Asking(c)).1 == Accepted(c.order)
  {
    hide Prune, Step, Enabled, StepsTo, WithOrder, DenyCreation, OrderCapacityReached, AllowedName, ValidId, Asked, Young;
    AskEnabled(cfg, c);
    RegisteredSnapshot(cfg, c);
    AskedSnapshot(cfg, c);
    YoungStays(Registered(cfg, c, []), map[c.account := 1]);
    YoungStays(Asked(cfg, c), map[c.account := 1]);
    OrderStep(cfg, Registered(cfg, c, []), Asked(cfg, c), Asking(c));
  }

  function Starting(c: Cast): Event {
    StartCall(1, TheRequest(c), c.auth, true, Synced)
  }

  lemma ChallengeStep(cfg: Config, st: State, next: State, e: Event)
    requires e.StartCall? && e.now == 1 && e.outcome.Synced? && e.acknowledged && Enabled(cfg, Up(st, map[]), e)
    requires IsActive(st, e.req) && OwnsAuth(st, e.req, e.authId) && CanStart(st, 1, e.authId) && st.auths[e.authId].challenge == ChallengePending
    requires next == WithChallenge(st, e.authId, ChallengeProcessing) && Prune(next, 1, map[e.req.accountId := 1]) == next
    ensures StepsTo(cfg, Up(st, map[]), e, Up(next, map[e.authId := e.req]))
  {
    hide Prune, WithChallenge, Enabled, IsActive;
    assert map[][e.req.accountId := 1] == map[e.req.accountId := 1];
    assert map[][e.authId := e.req] == map[e.authId := e.req];
  }

  lemma CheckingSnapshot(cfg: Config, c: Cast)
    ensures WithChallenge(Asked(cfg, c), c.auth, ChallengeProcessing) == Checking(cfg, c) && Young(Checking(cfg, c))
    ensures IsActive(Asked(cfg, c), TheRequest(c)) && CanStart(Asked(cfg, c), 1, c.auth) && OwnsAuth(Asked(cfg, c), TheRequest(c), c.auth)
  {
  }

  lemma StartsChecking(cfg: Config, c: Cast)
    requires Proper(cfg, c)
    ensures StepsTo(cfg, Up(Asked(cfg, c), map[]), Starting(c), Up(Checking(cfg, c), map[c.auth := TheRequest(c)]))
  {
    hide Prune, Step, StepsTo, WithChallenge, Checking, Young, IsActive, CanStart, Proper;
    CheckingSnapshot(cfg, c);
    YoungStays(Checking(cfg, c), map[c.account := 1]);
    ChallengeStep(cfg, Asked(cfg, c), Checking(cfg, c), Starting(c));
  }

  function Finishing(c: Cast): Event {
    FinishCall(1, c.auth, Some(c.target), Synced)
  }

  lemma FinishedSnapshot(cfg: Config, c: Cast)
    ensures Finished(Checking(cfg, c), 1, TheRequest(c), c.auth, Some(c.target)) == Ready(cfg, c)
    ensures Young(Ready(cfg, c))
  {
    ReadyYoung(cfg, c);
    hide Young;
    var st, good := Checking(cfg, c), TheAuth(c, AuthValid, ChallengeValid, Some(1), c.target);
    assert IsActive(st, TheRequest(c));
    assert st.auths[c.auth := good] == map[c.auth := good];
    assert st.orders[c.order := TheOrder(c, OrderReady)] == map[c.order := TheOrder(c, OrderReady)];
    assert AllValid(st.(auths := map[c.auth := good]), [c.auth]);
    hide IsActive, AllValid;
  }

  lemma ReadyYoung(cfg: Config, c: Cast)
    ensures Young(Ready(cfg, c))
  {
  }

  lemma FinishStep(cfg: Config, st: State, next: State, e: Event, req: Request)
    requires e.FinishCall? && e.now == 1 && e.outcome.Synced? && Enabled(cfg, Up(st, map[e.authId := req]), e)
    requires IsActive(st, req) && e.authId in st.auths && st.auths[e.authId].status == AuthPending
    requires st.auths[e.authId].challenge == ChallengeProcessing && st.auths[e.authId].orderId in st.orders
    requires next == Finished(st, 1, req, e.authId, e.proof) && Prune(next, 1, map[req.accountId := 1]) == next
    ensures StepsTo(cfg, Up(st, map[e.authId := req]), e, Up(next, map[]))
  {
    hide Prune, Finished, Enabled, IsActive;
    assert map[][req.accountId := 1] == map[req.accountId := 1];
    assert map[e.authId := req] - {e.authId} == map[];
  }

  lemma FinishesReady(cfg: Config, c: Cast)
    requires Proper(cfg, c)
    ensures StepsTo(cfg, Up(Checking(cfg, c), map[c.auth := TheRequest(c)]), Finishing(c), Up(Ready(cfg, c), map[]))
  {
    hide Prune, Step, StepsTo, Finished, Ready, Young, AllowedName, ValidId;
    FinishedSnapshot(cfg, c);
    YoungStays(Ready(cfg, c), map[c.account := 1]);
    FinishStep(cfg, Checking(cfg, c), Ready(cfg, c), Finishing(c), TheRequest(c));
  }

  function Finalizing(cfg: Config, c: Cast): Event {
    FinalizeCall(1, TheRequest(c), c.order, [1], map[c.name := c.target], Signed(LeafFor(cfg, c)), c.cert, Synced)
  }

  lemma CompleteSnapshot(cfg: Config, c: Cast)
    ensures WithCertificate(Ready(cfg, c), c.order, LeafFor(cfg, c), c.cert, [1]) == Complete(cfg, c, None, 0)
    ensures StillProven(Ready(cfg, c), 1, map[c.name := c.target], c.auth)
    ensures SigningContract(cfg, Ready(cfg, c), c.order, LeafFor(cfg, c))
    ensures Young(Complete(cfg, c, None, 0))
  {
    assert AuthorizedNames(Ready(cfg, c), c.order) == [c.name];
  }

  lemma FinalizeStep(cfg: Config, st: State, next: State, e: Event, o: Order)
    requires e.FinalizeCall? && e.now == 1 && e.outcome.Synced? && e.csr != [] && e.signing.Signed? && Enabled(cfg, Up(st, map[]), e)
    requires IsActive(st, e.req) && e.orderId in st.orders && st.orders[e.orderId] == o && |st.certs| < MAX_RECORDS
    requires o.accountId == e.req.accountId && o.status == OrderReady && 1 < o.expires
    requires forall i :: 0 <= i < |o.authIds| ==> StillProven(st, 1, e.owners, o.authIds[i])
    requires next == WithCertificate(st, e.orderId, e.signing.leaf, e.certId, e.csr) && Prune(next, 1, map[e.req.accountId := 1]) == next
    ensures StepsTo(cfg, Up(st, map[]), e, Up(next, map[])) && Step(cfg, Up(st, map[]), e).1 == Accepted(e.orderId)
  {
    hide Prune, WithCertificate, Enabled, IsActive, StillProven;
    assert map[][e.req.accountId := 1] == map[e.req.accountId := 1];
  }

  lemma FinalizeEnabled(cfg: Config, c: Cast)
    requires Proper(cfg, c)
    ensures Enabled(cfg, Up(Ready(cfg, c), map[]), Finalizing(cfg, c)) && IsActive(Ready(cfg, c), TheRequest(c))
  {
    CompleteSnapshot(cfg, c);
    hide ValidId, AllowedName, SigningContract, WithCertificate, StillProven, Complete, Young;
  }

  lemma Finalizes(cfg: Config, c: Cast)
    requires Proper(cfg, c)
    ensures StepsTo(cfg, Up(Ready(cfg, c), map[]), Finalizing(cfg, c), Up(Complete(cfg, c, None, 0), map[]))
    ensures Step(cfg, Up(Ready(cfg, c), map[]), Finalizing(cfg, c)).1 == Accepted(c.order)
  {
    hide Prune, Step, Enabled, StepsTo, WithCertificate, StillProven, Complete, Young, IsActive, Proper, SigningContract;
    FinalizeEnabled(cfg, c);
    CompleteSnapshot(cfg, c);
    YoungStays(Complete(cfg, c, None, 0), map[c.account := 1]);
    FinalizeStep(cfg, Ready(cfg, c), Complete(cfg, c, None, 0), Finalizing(cfg, c), TheOrder(c, OrderReady));
  }

  function Revoking(cfg: Config, c: Cast): Event {
    RevokeCall(1, ByAccount(TheRequest(c)), LeafFor(cfg, c), 4, map[], Some(1 + DAY), Synced)
  }

  lemma RevokedSnapshot(cfg: Config, c: Cast)
    ensures RefreshCrl(WithRevocation(Complete(cfg, c, None, 0), c.cert, 1, 4), 1, Some(1 + DAY)) == Some(Revoked(cfg, c))
    ensures Young(Revoked(cfg, c))
  {
    RevokedYoung(cfg, c);
    RevokedRecord(cfg, c);
    OneEntry(cfg, c);
    var st := Complete(cfg, c, Some(1), 4);
    assert EntriesAccepted({CrlEntry(7, 1, 4)}, 1);
    assert st.crlNumber == 0;
    hide Young, WithRevocation, RevokedEntries, EntriesAccepted;
  }

  lemma RevokedYoung(cfg: Config, c: Cast)
    ensures Young(Revoked(cfg, c))
  {
  }

  lemma RevokedRecord(cfg: Config, c: Cast)
    ensures WithRevocation(Complete(cfg, c, None, 0), c.cert, 1, 4) == Complete(cfg, c, Some(1), 4)
  {
    assert map[c.cert := TheCertificate(cfg, c, None, 0)][c.cert := TheCertificate(cfg, c, Some(1), 4)] ==
           map[c.cert := TheCertificate(cfg, c, Some(1), 4)];
  }

  lemma OneEntry(cfg: Config, c: Cast)
    ensures RevokedEntries(Complete(cfg, c, Some(1), 4).certs, 1) == {CrlEntry(7, 1, 4)}
  {
    var certs := map[c.cert := TheCertificate(cfg, c, Some(1), 4)];
    assert Complete(cfg, c, Some(1), 4).certs == certs;
    assert Listed(certs[c.cert], 1);
  }

  lemma OnlyRecord(cfg: Config, c: Cast)
    ensures IsRecorded(Complete(cfg, c, None, 0), LeafFor(cfg, c), c.cert)
    ensures RecordedId(Complete(cfg, c, None, 0), LeafFor(cfg, c)) == c.cert
  {
  }

  lemma RevokeStep(cfg: Config, st: State, next: State, e: Event, id: Id, req: Request)
    requires e.RevokeCall? && e.now == 1 && e.outcome.Synced? && Enabled(cfg, Up(st, map[]), e) && e.revoker == ByAccount(req)
    requires IsActive(st, req) && IsRecorded(st, e.leaf, id) && RecordedId(st, e.leaf) == id && st.certs[id].revokedAt.None? && ValidReason(e.reason)
    requires st.accounts[req.accountId].id == st.certs[id].accountId && st.certs[id].id == id
    requires RefreshCrl(WithRevocation(st, id, 1, e.reason), 1, e.nextUpdate) == Some(next) && Prune(next, 1, map[req.accountId := 1]) == next
    ensures StepsTo(cfg, Up(st, map[]), e, Up(next, map[])) && Step(cfg, Up(st, map[]), e).1 == Accepted(id)
  {
    hide Prune, RefreshCrl, WithRevocation, Enabled, ProvenFor, ValidReason, RecordedId;
    assert map[][req.accountId := 1] == map[req.accountId := 1];
    assert CanRevoke(st, 1, e.owners, e.revoker, st.certs[id]);
    hide CanRevoke;
  }

  lemma Revokes(cfg: Config, c: Cast)
    requires Proper(cfg, c)
    ensures StepsTo(cfg, Up(Complete(cfg, c, None, 0), map[]), Revoking(cfg, c), Up(Revoked(cfg, c), map[]))
    ensures Step(cfg, Up(Complete(cfg, c, None, 0), map[]), Revoking(cfg, c)).1 == Accepted(c.cert)
  {
    hide Prune, Step, StepsTo, RefreshCrl, WithRevocation, Revoked, Young, IsRecorded, Proper, RecordedId;
    OnlyRecord(cfg, c);
    RevokedSnapshot(cfg, c);
    YoungStays(Revoked(cfg, c), map[c.account := 1]);
    RevokeStep(cfg, Complete(cfg, c, None, 0), Revoked(cfg, c), Revoking(cfg, c), c.cert, TheRequest(c));
  }

  // ----- The run -----

  function States(cfg: Config, c: Cast): (r: seq<System>)
    ensures |r| == 8
  {
    [Pristine(cfg), Up(Fresh(cfg), map[]), Up(Registered(cfg, c, []), map[]), Up(Asked(cfg, c), map[]),
     Up(Checking(cfg, c), map[c.auth := TheRequest(c)]), Up(Ready(cfg, c), map[]), Up(Complete(cfg, c, None, 0), map[]), Up(Revoked(cfg, c), map[])]
  }

  function Events(cfg: Config, c: Cast): (r: seq<Event>)
    ensures |r| == 7
  {
    [RestartCall(1, Synced), Registration(c), Asking(c), Starting(c), Finishing(c), Finalizing(cfg, c), Revoking(cfg, c)]
  }

  lemma OneStep(cfg: Config, c: Cast, k: nat)
    requires Proper(cfg, c) && k < 7
    ensures StepAt(cfg, States(cfg, c), Events(cfg, c), k)
  {
    hide StepsTo, Step, Pristine, Up, Fresh, Registered, Asked, Checking, Ready, Complete, Revoked, Registration, Asking, Starting, Finishing,
         Finalizing, Revoking, Proper;
    match k
    case 0 => Starts(cfg);
    case 1 => Registers(cfg, c);
    case 2 => Asks(cfg, c);
    case 3 => StartsChecking(cfg, c);
    case 4 => FinishesReady(cfg, c);
    case 5 => Finalizes(cfg, c);
    case 6 => Revokes(cfg, c);
  }

  /** For every allowed name and every lease owner there is a run that ends with a certificate for the name on
      disk, and goes on to its revocation and a list with its serial number. */
  lemma CertificatesHappen(cfg: Config, c: Cast)
    requires Proper(cfg, c)
    ensures var (states, events) := (States(cfg, c), Events(cfg, c));
            && IsRun(cfg, states, events)
            && states[6].disk.Some? && states[6].disk.value.certs == map[c.cert := TheCertificate(cfg, c, None, 0)]
            && states[7].disk.Some? && states[7].disk.value.certs == map[c.cert := TheCertificate(cfg, c, Some(1), 4)]
            && states[7].disk.value.crl == Some(Crl(1, 1 + DAY, {CrlEntry(7, 1, 4)}, cfg.root))
  {
    forall k | 0 <= k < |Events(cfg, c)| ensures StepAt(cfg, States(cfg, c), Events(cfg, c), k) {
      OneStep(cfg, c, k);
    }
    hide StepAt, Proper;
  }

  lemma NotBuiltIn(domain: string, text: string)
    requires text != "gateway" && text != "ns"
    ensures text + "." + domain != "gateway." + domain && text + "." + domain != "ns." + domain
  {
    var name := text + "." + domain;
    assert name[..|text|] == text;
    assert ("gateway." + domain)[..7] == "gateway" && ("ns." + domain)[..2] == "ns";
  }

  /** And there are such names: any label that is not built in, below any domain that leaves room for it. */
  lemma NamesAreAllowed(domain: string, text: string)
    requires ValidLabel(text) && ValidDNSName(domain) && |text| + |domain| < 253 && text != "gateway" && text != "ns"
    ensures AllowedName(domain, text + "." + domain)
  {
    var name := text + "." + domain;
    NotBuiltIn(domain, text);
    OneLabelBelow(text, domain);
    assert name[|text|] == '.';
    BelowIsPlain(domain, name);
  }

  lemma BelowIsPlain(domain: string, name: string)
    requires IsCanonical(name + ".", domain)
    ensures name == TrimSuffix(NormalizeHostname(name, domain), ".") && forall i :: 0 <= i < |name| ==> name[i] as int <= 127
  {
    hide NormalizeHostname, ToLower, ValidDNSName, CanonicalDomain;
    assert (name + ".")[..|name|] == name;
    ValidNameChars(name);
    NormalizeIff(name, domain, name + ".");
    hide IsCanonical;
    assert TrimSuffix(name + ".", ".") == name;
    forall i | 0 <= i < |name| ensures name[i] as int <= 127 {
      assert name[i] in name;
    }
  }
}
