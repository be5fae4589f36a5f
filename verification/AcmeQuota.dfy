/** The creation quotas, as bounds on what any run can do within any window of time. */
module AcmeQuota {
  import opened Common
  import opened Acme
  import opened AcmeInvariant
  import opened AcmeUpdates
  import opened AcmeSteps
  import opened AcmeRuns
  import opened AcmeIssuance
  import opened RollingHistory

  // ----- The creations of a run -----

  /** The step stores a new account or order created from `source`. */
  ghost predicate Creates(cfg: Config, before: System, e: Event, kind: Kind, source: ClientId) {
    && Prepared(cfg, before, e).Some? && Renamed(e)
    && (if kind.NewAccountKind? then e.NewAccountCall? && e.source == source else e.NewOrderCall? && e.source == source)
  }

  /** The step stores a new order of the account. */
  ghost predicate Orders(cfg: Config, before: System, e: Event, accountId: Id) {
    Prepared(cfg, before, e).Some? && Renamed(e) && e.NewOrderCall? && e.req.accountId == accountId
  }

  /** The times at which the first `k` steps of a run created such a record for the source. */
  ghost function Creations(cfg: Config, states: seq<System>, events: seq<Event>, k: nat, kind: Kind, source: ClientId): seq<Time>
    requires k <= |events| <= |states|
  {
    if k == 0 then []
    else
      var earlier := Creations(cfg, states, events, k - 1, kind, source);
      if Creates(cfg, states[k - 1], events[k - 1], kind, source) then earlier + [events[k - 1].now] else earlier
  }

  ghost function AccountOrders(cfg: Config, states: seq<System>, events: seq<Event>, k: nat, accountId: Id): seq<Time>
    requires k <= |events| <= |states|
  {
    if k == 0 then []
    else
      var earlier := AccountOrders(cfg, states, events, k - 1, accountId);
      if Orders(cfg, states[k - 1], events[k - 1], accountId) then earlier + [events[k - 1].now] else earlier
  }

  // ----- Source quotas -----

  lemma PrunedHistory(st: State, now: Time, activity: map<Id, Time>, kind: Kind, source: ClientId)
    ensures History(LimitOf(Prune(st, now, activity), source), kind) == Recent(History(LimitOf(st, source), kind), now - Window(kind))
  {
    hide Prune, Recent, LimitOf;
    LimitOfPruned(st, now, activity, source);
  }

  lemma PreparedCreation(cfg: Config, before: System, e: Event, kind: Kind, source: ClientId)
    requires Enabled(cfg, before, e) && (e.NewAccountCall? || e.NewOrderCall?)
    requires Prepared(cfg, before, e).Some? && Renamed(e) && LimitsOk(before.mem)
    ensures var recent := Recent(History(LimitOf(before.mem, source), kind), e.now - Window(kind));
            var p := History(LimitOf(Prepared(cfg, before, e).value, source), kind);
            if Creates(cfg, before, e, kind, source) then p == recent + [e.now] && |recent| < Maximum(kind) else p == recent
  {
    hide Prepared, Base, Prune, IsActive, Recorded, Enabled, WithAuths, Recent, RetrySeconds, OrderCapacityReached, HasThumbprint,
         LimitsOk, LimitOf, LiveLimits;
    var st := before.mem;
    if e.NewAccountCall? {
      NewAccountForm(cfg, before, e);
      PrunedHistory(st, e.now, before.activity, kind, source);
      CreationHistory(st, e.now, before.activity, e.source, NewAccountKind, Prepared(cfg, before, e).value, kind, source);
    } else {
      NewOrderForm(cfg, before, e);
      var activity := ActivityAt(before, e.req.accountId, e.now);
      PrunedHistory(st, e.now, activity, kind, source);
      OrderLimits(Prune(st, e.now, activity), e.now, e.source, OrderFor(e), e.ids.tokens);
      CreationHistory(st, e.now, activity, e.source, NewOrderKind, Prepared(cfg, before, e).value, kind, source);
    }
  }

  /** Only creations touch the histories of a snapshot that is being prepared. */
  lemma PreparedLimits(cfg: Config, before: System, e: Event)
    requires Enabled(cfg, before, e) && Prepared(cfg, before, e).Some? && !e.NewAccountCall? && !e.NewOrderCall?
    ensures Prepared(cfg, before, e).value.limits == Base(cfg, before, e).limits
  {
    hide Prepared, Prune, IsActive, Finished, RefreshCrl, Enabled, StillProven, WithAccountStatus, CanStart, HasThumbprint,
         WithCertificate, WithRevocation, Recover, Fresh;
    NothingPrepared(cfg, before, e);
    var st := before.mem;
    match e
    case UpdateAccountCall(_, req, _, status, _) =>
      UpdateForm(cfg, before, e);
      StatusCerts(st, req.accountId, if status.Some? then status.value else AccountValid);
    case FinishCall(now, authId, proof, _) =>
      FinishForm(cfg, before, e);
      FinishedCerts(st, now, before.inflight[authId], authId, proof);
    case FinalizeCall(_, _, orderId, csr, _, signing, certId, _) =>
      FinalizeForm(cfg, before, e);
      if signing.Signed? {
        IssuedAccounts(st, orderId, signing.leaf, certId, csr);
      }
    case RevokeCall(now, _, leaf, reason, _, nextUpdate, _) =>
      RevokeForm(cfg, before, e);
      RefreshAccounts(WithRevocation(st, RecordedId(st, leaf), now, reason), now, nextUpdate);
      RevokedAccounts(st, RecordedId(st, leaf), now, reason);
    case CrlCall(now, nextUpdate, _) =>
      CrlForm(cfg, before, e);
      RefreshAccounts(st, now, nextUpdate);
    case KeyChangeCall(_, _, _, _) => KeyChangeForm(cfg, before, e);
    case DeactivateAuthCall(_, _, _, _) => DeactivationForm(cfg, before, e);
    case StartCall(_, _, _, _, _) => StartForm(cfg, before, e);
    case RestartCall(_, _) => RestartForm(cfg, before, e);
  }

  /** What a prepared snapshot remembers of a source: the same, the recent part of it, or that and this creation. */
  lemma PreparedHistory(cfg: Config, before: System, e: Event, kind: Kind, source: ClientId)
    requires Enabled(cfg, before, e) && Prepared(cfg, before, e).Some? && Renamed(e) && LimitsOk(Base(cfg, before, e))
    ensures var h := History(LimitOf(Base(cfg, before, e), source), kind);
            var recent := Recent(h, e.now - Window(kind));
            var p := History(LimitOf(Prepared(cfg, before, e).value, source), kind);
            if Creates(cfg, before, e, kind, source) then p == recent + [e.now] && |recent| < Maximum(kind)
            else p == h || p == recent
  {
    hide Prepared, Enabled, Recent, LimitsOk, LimitOf, Recover, Fresh;
    if e.NewAccountCall? || e.NewOrderCall? {
      PreparedCreation(cfg, before, e, kind, source);
    } else {
      PreparedLimits(cfg, before, e);
      SameLimits(Base(cfg, before, e), Prepared(cfg, before, e).value, source);
    }
  }

  lemma OrderLimits(pruned: State, now: Time, source: ClientId, order: Order, tokens: seq<string>)
    requires |order.authIds| == |order.identifiers| == |tokens| && order.accountId in pruned.accounts
    ensures WithOrder(pruned, now, source, order, tokens).limits == RecordCreation(pruned, now, source, NewOrderKind).limits
  {
    hide WithAuths, Recorded;
  }

  lemma SameLimits(st: State, next: State, source: ClientId)
    requires next.limits == st.limits
    ensures LimitOf(next, source) == LimitOf(st, source)
  {
  }

  lemma RefreshAccounts(st: State, now: Time, nextUpdate: Option<Time>)
    ensures var r := RefreshCrl(st, now, nextUpdate); r.Some? ==> r.value.accounts == st.accounts && r.value.limits == st.limits
  {
  }

  lemma RevokedAccounts(st: State, id: Id, now: Time, reason: int)
    requires id in st.certs
    ensures var next := WithRevocation(st, id, now, reason); next.accounts == st.accounts && next.limits == st.limits
  {
  }

  /** The histories after an admitted creation by `creator`. */
  lemma CreationHistory(st: State, now: Time, activity: map<Id, Time>, creator: ClientId, created: Kind, next: State, kind: Kind, source: ClientId)
    requires LimitsOk(st) && DenyCreation(st, now, creator, created).None?
    requires next.limits == RecordCreation(Prune(st, now, activity), now, creator, created).limits
    ensures var recent := Recent(History(LimitOf(st, source), kind), now - Window(kind));
            History(LimitOf(next, source), kind) == if creator == source && kind == created then recent + [now] else recent
    ensures |Recent(History(LimitOf(st, creator), created), now - Window(created))| < Maximum(created)
  {
    hide Prune, Recent, LiveLimits;
    RecordedLimit(st, now, activity, creator, created);
    PrunedHistory(st, now, activity, kind, source);
    PrunedHistory(st, now, activity, kind, creator);
  }

  function Stored(sys: System, kind: Kind, source: ClientId): seq<Time> {
    if sys.disk.None? then [] else History(LimitOf(sys.disk.value, source), kind)
  }

  /** The history `h` of the source is respected: the file remembers what counts of it, and it is well spaced. */
  ghost predicate QuotaInv(sys: System, h: seq<Time>, kind: Kind, source: ClientId) {
    Tracks(h, Stored(sys, kind, source), sys.clock, Window(kind)) && Spaced(h, Maximum(kind), Window(kind))
  }

  lemma StoredHistory(cfg: Config, before: System, e: Event, kind: Kind, source: ClientId)
    requires SystemInv(cfg, before) && Enabled(cfg, before, e) && Prepared(cfg, before, e).Some? && Renamed(e)
    ensures History(LimitOf(Base(cfg, before, e), source), kind) == Stored(before, kind, source)
    ensures LimitsOk(Base(cfg, before, e))
  {
    BaseIsStored(cfg, before, e);
    BaseOk(cfg, before, e);
    hide SystemInv, Recover, AcceptableNames, SigningContract, Prepared, Linked, Base;
  }

  lemma StepKeepsQuota(cfg: Config, before: System, e: Event, h: seq<Time>, kind: Kind, source: ClientId)
    requires SystemInv(cfg, before) && Enabled(cfg, before, e) && QuotaInv(before, h, kind, source)
    ensures QuotaInv(Step(cfg, before, e).0, if Creates(cfg, before, e, kind, source) then h + [e.now] else h, kind, source)
  {
    hide SystemInv, Step, Prepared, Prune, Base, Recent, Tracks, Spaced, LimitOf, LimitsOk;
    StepStores(cfg, before, e);
    var after := Step(cfg, before, e).0;
    var window := Window(kind);
    var kept := Stored(before, kind, source);
    TracksLater(h, kept, before.clock, e.now, window);
    if Prepared(cfg, before, e).Some? && Renamed(e) {
      var next := Prepared(cfg, before, e).value;
      var activity :| after.disk == Some(Prune(next, e.now, activity));
      StoredHistory(cfg, before, e, kind, source);
      PreparedHistory(cfg, before, e, kind, source);
      PrunedHistory(next, e.now, activity, kind, source);
      if Creates(cfg, before, e, kind, source) {
        TracksAppend(h, kept, e.now, window, Maximum(kind));
        TracksRecent(h + [e.now], Recent(kept, e.now - window) + [e.now], e.now, window);
      } else {
        TracksRecent(h, kept, e.now, window);
        TracksRecent(h, Recent(kept, e.now - window), e.now, window);
      }
    }
  }

  lemma {:induction false} RunKeepsQuota(cfg: Config, states: seq<System>, events: seq<Event>, k: nat, kind: Kind, source: ClientId)
    requires IsRun(cfg, states, events) && k < |states|
    ensures QuotaInv(states[k], Creations(cfg, states, events, k, kind, source), kind, source)
  {
    hide SystemInv, Step, Enabled, Creates;
    if k > 0 {
      RunKeepsQuota(cfg, states, events, k - 1, kind, source);
      hide QuotaInv;
      assert StepAt(cfg, states, events, k - 1);
      RunKeeps(cfg, states, events, k - 1);
      StepKeepsQuota(cfg, states[k - 1], events[k - 1], Creations(cfg, states, events, k - 1, kind, source), kind, source);
    }
  }

  /** Source quotas over every run, pruning and restarts included: in any window (t - 24h, t] at most 8
      accounts, and in any window (t - 1h, t] at most 32 orders, are created from one source. */
  lemma SourceQuota(cfg: Config, states: seq<System>, events: seq<Event>, k: nat, kind: Kind, source: ClientId, t: Time)
    requires IsRun(cfg, states, events) && k < |states|
    ensures CountIn(Creations(cfg, states, events, k, kind, source), t - Window(kind), t) <= Maximum(kind)
  {
    hide Step, Enabled, Creates, CountIn;
    RunKeepsQuota(cfg, states, events, k, kind, source);
    SpacedCount(Creations(cfg, states, events, k, kind, source), Maximum(kind), Window(kind), t);
  }

  // ----- Account quota -----

  function OrdersOf(st: State, id: Id): seq<Time> {
    if id in st.accounts then st.accounts[id].recentOrders else []
  }

  /** The account's orders are remembered while they count, and none is younger than its last activity. */
  ghost predicate Remembers(st: State, id: Id, h: seq<Time>, now: Time) {
    && Tracks(h, OrdersOf(st, id), now, ORDER_LIFETIME)
    && (id in st.accounts ==> forall i :: 0 <= i < |h| ==> h[i] <= st.accounts[id].lastActive)
  }

  /** Pruning forgets an account only when all its orders are long past. */
  lemma PruneRemembers(st: State, now: Time, activity: map<Id, Time>, id: Id, h: seq<Time>)
    requires Remembers(st, id, h, now)
    ensures Remembers(Prune(st, now, activity), id, h, now)
    ensures OrdersOf(Prune(st, now, activity), id) == (if id in Prune(st, now, activity).accounts then Recent(OrdersOf(st, id), now - ORDER_LIFETIME) else [])
  {
    hide Recent, AuthDropped, CertDropped, LiveLimits, Referenced;
    TracksRecent(h, OrdersOf(st, id), now, ORDER_LIFETIME);
  }

  lemma SameAccount(st: State, next: State, id: Id, h: seq<Time>, now: Time)
    requires Remembers(st, id, h, now)
    requires id in st.accounts <==> id in next.accounts
    requires id in st.accounts ==> next.accounts[id].recentOrders == st.accounts[id].recentOrders && next.accounts[id].lastActive == st.accounts[id].lastActive
    ensures Remembers(next, id, h, now)
  {
    hide Tracks;
  }

  lemma TouchedActive(st: State, now: Time, activity: map<Id, Time>, id: Id)
    requires id in Prune(st, now, activity[id := now]).accounts
    ensures now <= Prune(st, now, activity[id := now]).accounts[id].lastActive
  {
    hide Recent, AuthDropped, CertDropped, LiveLimits, Referenced;
  }

  lemma OrderRemembered(cfg: Config, before: System, e: Event, id: Id, h: seq<Time>)
    requires Enabled(cfg, before, e) && e.NewOrderCall? && Prepared(cfg, before, e).Some? && Renamed(e)
    requires Remembers(before.mem, id, h, e.now) && Spaced(h, MAX_ACCOUNT_ORDERS, ORDER_LIFETIME)
    ensures var h' := if Orders(cfg, before, e, id) then h + [e.now] else h;
            Remembers(Prepared(cfg, before, e).value, id, h', e.now) && Spaced(h', MAX_ACCOUNT_ORDERS, ORDER_LIFETIME)
  {
    hide Prune, Recent, Tracks, Spaced, IsActive, AcceptableNames, FreshId, ValidId, Distinct, WithAuths, Recorded, DenyCreation, OpenOrders;
    var activity := ActivityAt(before, e.req.accountId, e.now);
    var pruned := Prune(before.mem, e.now, activity);
    var next := Prepared(cfg, before, e).value;
    PruneRemembers(before.mem, e.now, activity, id, h);
    if id == e.req.accountId {
      TracksAppend(h, OrdersOf(before.mem, id), e.now, ORDER_LIFETIME, MAX_ACCOUNT_ORDERS);
      TouchedActive(before.mem, e.now, before.activity, id);
      TracksBound(h, OrdersOf(before.mem, id), e.now);
    } else {
      SameAccount(pruned, next, id, h, e.now);
    }
  }

  lemma TracksBound(h: seq<Time>, kept: seq<Time>, now: Time)
    requires Tracks(h, kept, now, ORDER_LIFETIME)
    ensures forall i :: 0 <= i < |h| ==> h[i] <= now
  {
  }

  lemma PreparedRemembers(cfg: Config, before: System, e: Event, id: Id, h: seq<Time>)
    requires Enabled(cfg, before, e) && Prepared(cfg, before, e).Some? && Renamed(e)
    requires Remembers(Base(cfg, before, e), id, h, e.now) && Spaced(h, MAX_ACCOUNT_ORDERS, ORDER_LIFETIME)
    ensures var h' := if Orders(cfg, before, e, id) then h + [e.now] else h;
            Remembers(Prepared(cfg, before, e).value, id, h', e.now) && Spaced(h', MAX_ACCOUNT_ORDERS, ORDER_LIFETIME)
  {
    hide Prepared, Base, Prune, IsActive, Finished, RefreshCrl, Recorded, Enabled, StillProven, WithAuths, Recent, Remembers, Spaced,
         WithAccountStatus, CanStart, OrderCapacityReached, HasThumbprint, WithCertificate, DenyCreation, WithOrder, WithRevocation;
    NothingPrepared(cfg, before, e);
    var st := before.mem;
    var next := Prepared(cfg, before, e).value;
    match e
    case NewOrderCall(_, _, _, _, _, _, _, _) =>
      NewOrderForm(cfg, before, e);
      OrderRemembered(cfg, before, e, id, h);
    case NewAccountCall(now, _, _, _, newId, _) =>
      NewAccountForm(cfg, before, e);
      PruneRemembers(st, now, before.activity, id, h);
      if id != newId {
        SameAccount(Prune(st, now, before.activity), next, id, h, now);
      } else {
        NewAccountRemembers(cfg, before, e, id, h);
      }
    case UpdateAccountCall(now, req, _, status, _) =>
      UpdateForm(cfg, before, e);
      StatusAccounts(st, req.accountId, if status.Some? then status.value else AccountValid);
      SameAccount(st, next, id, h, now);
    case KeyChangeCall(now, _, _, _) =>
      KeyChangeForm(cfg, before, e);
      SameAccount(st, next, id, h, now);
    case DeactivateAuthCall(now, _, _, _) =>
      DeactivationForm(cfg, before, e);
      SameAccount(st, next, id, h, now);
    case StartCall(now, _, _, _, _) =>
      StartForm(cfg, before, e);
      SameAccount(st, next, id, h, now);
    case FinishCall(now, authId, proof, _) =>
      FinishForm(cfg, before, e);
      FinishedCerts(st, now, before.inflight[authId], authId, proof);
      SameAccount(st, next, id, h, now);
    case FinalizeCall(now, _, orderId, csr, _, signing, certId, _) =>
      FinalizeForm(cfg, before, e);
      if signing.Signed? {
        IssuedAccounts(st, orderId, signing.leaf, certId, csr);
      }
      SameAccount(st, next, id, h, now);
    case RevokeCall(now, _, leaf, reason, _, nextUpdate, _) =>
      RevokeForm(cfg, before, e);
      RefreshAccounts(WithRevocation(st, RecordedId(st, leaf), now, reason), now, nextUpdate);
      RevokedAccounts(st, RecordedId(st, leaf), now, reason);
      SameAccount(st, next, id, h, now);
    case CrlCall(now, nextUpdate, _) =>
      CrlForm(cfg, before, e);
      RefreshAccounts(st, now, nextUpdate);
      SameAccount(st, next, id, h, now);
    case RestartCall(_, _) => RestartForm(cfg, before, e);
  }

  lemma StatusAccounts(st: State, id: Id, status: AccountStatus)
    requires id in st.accounts
    ensures WithAccountStatus(st, id, status).accounts == st.accounts[id := st.accounts[id].(status := status)]
  {
  }

  lemma IssuedAccounts(st: State, orderId: Id, leaf: Leaf, certId: Id, csr: seq<int>)
    requires orderId in st.orders
    ensures var next := WithCertificate(st, orderId, leaf, certId, csr); next.accounts == st.accounts && next.limits == st.limits
  {
  }

  lemma NewAccountRemembers(cfg: Config, before: System, e: Event, id: Id, h: seq<Time>)
    requires Enabled(cfg, before, e) && e.NewAccountCall? && e.id == id && Prepared(cfg, before, e).Some?
    requires Remembers(before.mem, id, h, e.now)
    ensures Remembers(Prepared(cfg, before, e).value, id, h, e.now)
  {
    hide Prune, HasThumbprint, DenyCreation, Recorded, ValidId;
    assert id !in before.mem.accounts;
  }

  /** The stored snapshot, empty before the first write. */
  function OnDisk(sys: System): State {
    if sys.disk.Some? then sys.disk.value else Fresh(Config("", ""))
  }

  ghost predicate AccountInv(sys: System, id: Id, h: seq<Time>) {
    && Remembers(OnDisk(sys), id, h, sys.clock)
    && Spaced(h, MAX_ACCOUNT_ORDERS, ORDER_LIFETIME)
  }

  lemma RemembersLater(st: State, id: Id, h: seq<Time>, t: Time, now: Time)
    requires Remembers(st, id, h, t) && t <= now
    ensures Remembers(st, id, h, now)
  {
    TracksLater(h, OrdersOf(st, id), t, now, ORDER_LIFETIME);
  }

  lemma BaseRemembers(cfg: Config, before: System, e: Event, id: Id, h: seq<Time>)
    requires SystemInv(cfg, before) && Enabled(cfg, before, e) && !e.CrashEvent? && AccountInv(before, id, h)
    ensures Remembers(Base(cfg, before, e), id, h, e.now)
  {
    BaseIsStored(cfg, before, e);
    hide SystemInv, Base, Recover, AcceptableNames, SigningContract, Tracks, Spaced;
    RemembersLater(OnDisk(before), id, h, before.clock, e.now);
    SameAccount(OnDisk(before), Base(cfg, before, e), id, h, e.now);
  }

  lemma StepKeepsAccount(cfg: Config, before: System, e: Event, id: Id, h: seq<Time>)
    requires SystemInv(cfg, before) && Enabled(cfg, before, e) && AccountInv(before, id, h)
    ensures AccountInv(Step(cfg, before, e).0, id, if Orders(cfg, before, e, id) then h + [e.now] else h)
  {
    hide SystemInv, Step, Prepared, Prune, Base, Remembers, Spaced, Enabled;
    StepStores(cfg, before, e);
    EnabledClock(cfg, before, e);
    var after := Step(cfg, before, e).0;
    if Prepared(cfg, before, e).Some? && Renamed(e) {
      var next := Prepared(cfg, before, e).value;
      var activity :| after.disk == Some(Prune(next, e.now, activity));
      BaseRemembers(cfg, before, e, id, h);
      PreparedRemembers(cfg, before, e, id, h);
      PruneRemembers(next, e.now, activity, id, if Orders(cfg, before, e, id) then h + [e.now] else h);
    } else {
      RemembersLater(OnDisk(before), id, h, before.clock, e.now);
    }
  }

  lemma EnabledClock(cfg: Config, before: System, e: Event)
    requires Enabled(cfg, before, e)
    ensures before.clock <= e.now
  {
  }

  lemma {:induction false} RunKeepsAccount(cfg: Config, states: seq<System>, events: seq<Event>, k: nat, id: Id)
    requires IsRun(cfg, states, events) && k < |states|
    ensures AccountInv(states[k], id, AccountOrders(cfg, states, events, k, id))
  {
    hide SystemInv, Step, Enabled, Orders;
    if k > 0 {
      RunKeepsAccount(cfg, states, events, k - 1, id);
      hide AccountInv;
      assert StepAt(cfg, states, events, k - 1);
      RunKeeps(cfg, states, events, k - 1);
      StepKeepsAccount(cfg, states[k - 1], events[k - 1], id, AccountOrders(cfg, states, events, k - 1, id));
    }
  }

  /** Account quota over every run: in any window (t - 24h, t] at most 32 orders of one account, even
      if the account is forgotten and its identifier drawn again. */
  lemma AccountQuota(cfg: Config, states: seq<System>, events: seq<Event>, k: nat, id: Id, t: Time)
    requires IsRun(cfg, states, events) && k < |states|
    ensures CountIn(AccountOrders(cfg, states, events, k, id), t - ORDER_LIFETIME, t) <= MAX_ACCOUNT_ORDERS
  {
    hide Step, Enabled, Orders, CountIn;
    RunKeepsAccount(cfg, states, events, k, id);
    SpacedCount(AccountOrders(cfg, states, events, k, id), MAX_ACCOUNT_ORDERS, ORDER_LIFETIME, t);
  }

  // ----- Retry-After -----

  /** The source's window test refuses a creation in snapshot `st` at `now`. */
  predicate WindowFull(st: State, now: Time, source: ClientId, kind: Kind) {
    source != Utf8("") && |Recent(History(LimitOf(st, source), kind), now - Window(kind))| >= Maximum(kind)
  }

  /** In every run, after a refusal by the window test, the announced wait suffices to pass that test if
      the source creates nothing of the kind meanwhile. */
  lemma RetryAfterSuffices(cfg: Config, states: seq<System>, events: seq<Event>, i: nat, j: nat, kind: Kind, source: ClientId, now: Time, later: Time)
    requires IsRun(cfg, states, events) && i <= j < |states| && states[i].up && states[j].up
    requires states[i].clock <= now && states[j].clock <= later
    requires WindowFull(states[i].mem, now, source, kind)
    requires Creations(cfg, states, events, i, kind, source) == Creations(cfg, states, events, j, kind, source)
    requires var denied := DenyCreation(states[i].mem, now, source, kind);
             denied.Some? && denied.value.RateLimited? && now + denied.value.seconds * SECOND <= later
    ensures !WindowFull(states[j].mem, later, source, kind)
  {
    hide Step, Enabled, Creations, Recover, Inv, FlightsMatch, RetrySeconds, Recent, Spaced;
    RunKeeps(cfg, states, events, i);
    RunKeeps(cfg, states, events, j);
    MemHistory(cfg, states[i], kind, source);
    MemHistory(cfg, states[j], kind, source);
    RunKeepsQuota(cfg, states, events, i, kind, source);
    RunKeepsQuota(cfg, states, events, j, kind, source);
    var h := Creations(cfg, states, events, i, kind, source);
    RecentOfTracked(h, Stored(states[i], kind, source), states[i].clock, now, Window(kind));
    RecentOfTracked(h, Stored(states[j], kind, source), states[j].clock, later, Window(kind));
    FullIsMaximum(h, Maximum(kind), Window(kind), now);
    WaitingSuffices(h, now, later, Window(kind), Maximum(kind));
  }

  lemma MemHistory(cfg: Config, sys: System, kind: Kind, source: ClientId)
    requires SystemInv(cfg, sys) && sys.up
    ensures History(LimitOf(sys.mem, source), kind) == Stored(sys, kind, source)
  {
    hide Inv, FlightsMatch;
    assert Recover(sys.mem).limits == sys.mem.limits;
    assert Recover(sys.disk.value).limits == sys.disk.value.limits;
  }

  /** Recent history is the same whether read from the file or from the whole past. */
  lemma RecentOfTracked(h: seq<Time>, kept: seq<Time>, t: Time, now: Time, window: int)
    requires Tracks(h, kept, t, window) && t <= now
    ensures Recent(kept, now - window) == Recent(h, now - window)
  {
    hide Recent;
    RecentIsSuffix(h, now - window);
    RecentIsSuffix(kept, now - window);
    var a, b := Recent(h, now - window), Recent(kept, now - window);
    assert kept == h[|h| - |kept|..];
    SamePlace(h, |h| - |a|, |h| - |b|, now - window);
  }

  ghost predicate Divides(h: seq<Time>, p: nat, cutoff: Time) {
    p <= |h| && (forall i :: 0 <= i < p ==> h[i] <= cutoff) && (forall i :: p <= i < |h| ==> cutoff < h[i])
  }

  lemma SamePlace(h: seq<Time>, p: nat, q: nat, cutoff: Time)
    requires Divides(h, p, cutoff) && Divides(h, q, cutoff)
    ensures p == q
  {
    var before := if p < |h| then h[p] else cutoff;
    var after := if q < |h| then h[q] else cutoff;
  }

  lemma FullIsMaximum(h: seq<Time>, max: nat, window: int, now: Time)
    requires Sorted(h) && Spaced(h, max, window) && (forall i :: 0 <= i < |h| ==> h[i] <= now)
    requires |Recent(h, now - window)| >= max
    ensures |Recent(h, now - window)| == max
  {
    hide Recent;
    RecentIsSuffix(h, now - window);
    var first := |h| - |Recent(h, now - window)|;
    forall i | 0 <= i < |h| - max ensures h[i] + window <= now {
      assert h[i] + window <= h[i + max];
    }
    assert first < |h| ==> now - window < h[first];
  }

  // ----- The windows are half open -----

  /** Exactly when a window that includes its left end holds more than the quota, in every run: when one
      creation falls on its left end and the one a quota later on its right end. */
  lemma ClosedWindow(cfg: Config, states: seq<System>, events: seq<Event>, k: nat, kind: Kind, source: ClientId, t: Time)
    requires IsRun(cfg, states, events) && k < |states|
    ensures var h := Creations(cfg, states, events, k, kind, source);
            CountIn(h, t - Window(kind) - 1, t) > Maximum(kind) <==> exists i :: Overlap(h, Maximum(kind), Window(kind), t, i)
  {
    hide Step, Enabled, Creates, CountIn;
    RunKeepsQuota(cfg, states, events, k, kind, source);
    ClosedCount(Creations(cfg, states, events, k, kind, source), Maximum(kind), Window(kind), t);
  }

  lemma ClosedAccountWindow(cfg: Config, states: seq<System>, events: seq<Event>, k: nat, id: Id, t: Time)
    requires IsRun(cfg, states, events) && k < |states|
    ensures var h := AccountOrders(cfg, states, events, k, id);
            CountIn(h, t - ORDER_LIFETIME - 1, t) > MAX_ACCOUNT_ORDERS <==>
              exists i :: Overlap(h, MAX_ACCOUNT_ORDERS, ORDER_LIFETIME, t, i)
  {
    hide Step, Enabled, Orders, CountIn;
    RunKeepsAccount(cfg, states, events, k, id);
    ClosedCount(AccountOrders(cfg, states, events, k, id), MAX_ACCOUNT_ORDERS, ORDER_LIFETIME, t);
  }

  /** The first of the last full quota of creations is exactly a window old. */
  ghost predicate AtBoundary(h: seq<Time>, now: Time, kind: Kind) {
    |h| >= Maximum(kind) && h[|h| - Maximum(kind)] == now - Window(kind)
  }

  /** When that happens, told from the past alone, at any reachable state: at the boundary the window test
      admits one more creation, and an admitted creation overfills the closed window ending in it if and
      only if the state is at the boundary. */
  lemma BoundaryAdmits(cfg: Config, states: seq<System>, events: seq<Event>, k: nat, kind: Kind, source: ClientId, now: Time)
    requires IsRun(cfg, states, events) && k < |states| && states[k].up && states[k].clock <= now
    ensures var h := Creations(cfg, states, events, k, kind, source);
            && (AtBoundary(h, now, kind) ==> !WindowFull(states[k].mem, now, source, kind))
            && (source != Utf8("") && !WindowFull(states[k].mem, now, source, kind) ==>
                  (CountIn(h + [now], now - Window(kind) - 1, now) > Maximum(kind) <==> AtBoundary(h, now, kind)))
  {
    hide Step, Enabled, Creations, Recover, Inv, FlightsMatch, Recent, Spaced, CountIn, Tracks, Sorted;
    RunKeeps(cfg, states, events, k);
    MemHistory(cfg, states[k], kind, source);
    RunKeepsQuota(cfg, states, events, k, kind, source);
    var h, kept := Creations(cfg, states, events, k, kind, source), Stored(states[k], kind, source);
    TracksLater(h, kept, states[k].clock, now, Window(kind));
    BoundaryHistory(h, kept, now, kind);
  }

  lemma BoundaryHistory(h: seq<Time>, kept: seq<Time>, now: Time, kind: Kind)
    requires Tracks(h, kept, now, Window(kind)) && Spaced(h, Maximum(kind), Window(kind))
    ensures var recent := Recent(kept, now - Window(kind));
            && (AtBoundary(h, now, kind) ==> |recent| < Maximum(kind))
            && (|recent| < Maximum(kind) ==>
                  (CountIn(h + [now], now - Window(kind) - 1, now) > Maximum(kind) <==> AtBoundary(h, now, kind)))
  {
    hide Recent, CountIn;
    var max, window := Maximum(kind), Window(kind);
    RecentOfTracked(h, kept, now, now, window);
    RecentIsSuffix(h, now - window);
    if AtBoundary(h, now, kind) {
      OldIsDropped(h, Recent(h, now - window), now - window, |h| - max);
    }
    if |Recent(kept, now - window)| < max {
      TracksAppend(h, kept, now, window, max);
      ClosedCount(h + [now], max, window, now);
      BoundaryOverlap(h, now, kind);
    }
  }

  lemma BoundaryOverlap(h: seq<Time>, now: Time, kind: Kind)
    requires Sorted(h + [now]) && Spaced(h + [now], Maximum(kind), Window(kind))
    ensures (exists i :: Overlap(h + [now], Maximum(kind), Window(kind), now, i)) <==> AtBoundary(h, now, kind)
  {
    var max, window, h' := Maximum(kind), Window(kind), h + [now];
    if i :| Overlap(h', max, window, now, i) {
      var last := |h| - max;
      assert h'[last] + window <= h'[last + max];
      assert h'[i] <= h'[last];
    }
    if AtBoundary(h, now, kind) {
      assert Overlap(h', max, window, now, |h| - max);
    }
  }
}
