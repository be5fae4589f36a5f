/** What an accepted call does to the snapshot, record by record. */
module AcmeEffects {
  import opened Common
  import opened Validator
  import opened Acme
  import opened AcmeInvariant
  import opened AcmeOrderUpdates
  import opened AcmeSteps
  import opened AcmeRuns
  import opened AcmeIssuance
  import opened AcmeOrders

  // ----- What is in memory after a call that stores something -----

  /** The account whose activity the call notes, if any. */
  ghost function Caller(before: System, e: Event): Option<Id> {
    match e
    case UpdateAccountCall(_, req, _, _, _) => Some(req.accountId)
    case KeyChangeCall(_, req, _, _) => Some(req.accountId)
    case NewOrderCall(_, req, _, _, _, _, _, _) => Some(req.accountId)
    case ReadCall(_, req) => Some(req.accountId)
    case DeactivateAuthCall(_, req, _, _) => Some(req.accountId)
    case StartCall(_, req, _, _, _) => Some(req.accountId)
    case FinalizeCall(_, req, _, _, _, _, _, _) => Some(req.accountId)
    case RevokeCall(_, revoker, _, _, _, _, _) =>
      if revoker.ByAccount? && IsActive(before.mem, revoker.req) then Some(revoker.req.accountId) else None
    case FinishCall(_, authId, _, _) =>
      if authId in before.inflight && IsActive(before.mem, before.inflight[authId]) then Some(before.inflight[authId].accountId) else None
    case _ => None
  }

  ghost function NotedActivity(before: System, e: Event): map<Id, Time> {
    var caller := Caller(before, e);
    if caller.Some? then before.activity[caller.value := e.now] else before.activity
  }

  /** After the step, memory and file are the prepared snapshot, pruned with all activity noted so far. */
  ghost predicate Commits(cfg: Config, before: System, e: Event, after: System) {
    var prepared := Prepared(cfg, before, e);
    prepared.Some? && after.mem == Prune(prepared.value, e.now, NotedActivity(before, e)) && after.disk == Some(after.mem)
  }

  predicate Synchronized(e: Event) {
    !e.ReadCall? && !e.CrashEvent? && !e.RestartCall? && e.outcome.Synced?
  }

  lemma AccountCommits(cfg: Config, before: System, e: Event)
    requires Enabled(cfg, before, e) && Synchronized(e) && (e.NewAccountCall? || e.UpdateAccountCall? || e.KeyChangeCall?)
    requires Prepared(cfg, before, e).Some?
    ensures Commits(cfg, before, e, Step(cfg, before, e).0)
  {
    hide Prune, DenyCreation, HasThumbprint, IsActive, WithAccount, WithAccountStatus, WithKey, FreshId, ValidId, RetrySeconds;
  }

  lemma OrderCommits(cfg: Config, before: System, e: Event)
    requires Enabled(cfg, before, e) && Synchronized(e) && (e.NewOrderCall? || e.DeactivateAuthCall?) && Prepared(cfg, before, e).Some?
    ensures Commits(cfg, before, e, Step(cfg, before, e).0)
  {
    hide Prune, DenyCreation, IsActive, WithOrder, OrderCapacityReached, AcceptableNames, FreshId, Distinct, ValidId, RetrySeconds,
         WithAuthDeactivated;
  }

  lemma ChallengeCommits(cfg: Config, before: System, e: Event)
    requires Enabled(cfg, before, e) && Synchronized(e) && (e.StartCall? || e.FinishCall?) && Prepared(cfg, before, e).Some?
    ensures Commits(cfg, before, e, Step(cfg, before, e).0)
  {
    hide Prune, IsActive, CanStart, WithChallenge, Finished;
  }

  lemma CertCommits(cfg: Config, before: System, e: Event)
    requires Enabled(cfg, before, e) && Synchronized(e) && (e.FinalizeCall? || e.RevokeCall? || e.CrlCall?) && Prepared(cfg, before, e).Some?
    ensures Commits(cfg, before, e, Step(cfg, before, e).0)
  {
    hide Prune, IsActive, WithCertificate, StillProven, SigningContract, FreshId, RefreshCrl, CanRevoke, CrlStale, WithRevocation,
         ValidReason, IsRecorded;
  }

  lemma StepCommits(cfg: Config, before: System, e: Event)
    requires Enabled(cfg, before, e) && Synchronized(e) && Prepared(cfg, before, e).Some?
    ensures Commits(cfg, before, e, Step(cfg, before, e).0)
  {
    hide Commits, Step, Enabled, Prepared;
    match e
    case NewAccountCall(_, _, _, _, _, _) => AccountCommits(cfg, before, e);
    case UpdateAccountCall(_, _, _, _, _) => AccountCommits(cfg, before, e);
    case KeyChangeCall(_, _, _, _) => AccountCommits(cfg, before, e);
    case NewOrderCall(_, _, _, _, _, _, _, _) => OrderCommits(cfg, before, e);
    case DeactivateAuthCall(_, _, _, _) => OrderCommits(cfg, before, e);
    case StartCall(_, _, _, _, _) => ChallengeCommits(cfg, before, e);
    case FinishCall(_, _, _, _) => ChallengeCommits(cfg, before, e);
    case FinalizeCall(_, _, _, _, _, _, _, _) => CertCommits(cfg, before, e);
    case RevokeCall(_, _, _, _, _, _, _) => CertCommits(cfg, before, e);
    case CrlCall(_, _, _) => CertCommits(cfg, before, e);
  }

  /** Calls that are accepted only if they change something. */
  lemma AcceptedStored(cfg: Config, before: System, e: Event)
    requires Enabled(cfg, before, e) && Step(cfg, before, e).1.Accepted?
    requires e.KeyChangeCall? || e.NewOrderCall? || e.DeactivateAuthCall? || e.RevokeCall? || (e.UpdateAccountCall? && (e.contact || e.status.Some?))
    ensures Synchronized(e) && Prepared(cfg, before, e).Some? && Commits(cfg, before, e, Step(cfg, before, e).0)
  {
    if e.RevokeCall? {
      hide Prune, IsActive, RefreshCrl, CanRevoke, WithRevocation, ValidReason, IsRecorded, Commits, Caller;
      StepCommits(cfg, before, e);
    } else {
      hide Prune, DenyCreation, HasThumbprint, IsActive, WithAccountStatus, WithKey, FreshId, ValidId, RetrySeconds, WithOrder,
           OrderCapacityReached, AcceptableNames, Distinct, WithAuthDeactivated, Commits, Caller;
      StepCommits(cfg, before, e);
    }
  }

  // ----- Accounts -----

  /** Exactly which accounts are forgotten when a snapshot is stored: those without a live order whose last
      activity is thirty days back; the others keep their key and status. */
  lemma ForgottenIff(st: State, now: Time, activity: map<Id, Time>, id: Id)
    requires id in st.accounts
    ensures var p := Prune(st, now, activity);
            var last := if id in activity && st.accounts[id].lastActive < activity[id] then activity[id] else st.accounts[id].lastActive;
            && (id !in p.accounts <==>
                  && last != 0 && last + 30 * DAY <= now
                  && forall k :: k in st.orders && st.orders[k].accountId == id ==> st.orders[k].status == OrderInvalid || st.orders[k].expires <= now)
            && (id in p.accounts ==>
                  var a := p.accounts[id];
                  a.key == st.accounts[id].key && a.thumbprint == st.accounts[id].thumbprint && a.status == st.accounts[id].status && a.lastActive == last)
  {
    hide AuthDropped, CertDropped, Recent, LiveLimits;
  }

  lemma CallerStays(st: State, now: Time, activity: map<Id, Time>, id: Id)
    requires id in st.accounts && id in activity && activity[id] == now && 0 < now
    ensures var p := Prune(st, now, activity);
            && id in p.accounts && p.accounts[id].key == st.accounts[id].key
            && p.accounts[id].thumbprint == st.accounts[id].thumbprint && p.accounts[id].status == st.accounts[id].status
  {
    hide Prune;
    ForgottenIff(st, now, activity, id);
  }

  lemma NoNewAccounts(st: State, now: Time, activity: map<Id, Time>)
    ensures forall id :: id in Prune(st, now, activity).accounts ==> id in st.accounts
  {
    hide AuthDropped, CertDropped, AccountDropped, Recent, LiveLimits;
  }

  /** After an accepted key change the account answers to the new key and no longer to the old one, in memory
      and in the file; no other account has a new key. */
  lemma KeyChangeTakesEffect(cfg: Config, before: System, e: Event)
    requires Enabled(cfg, before, e) && e.KeyChangeCall? && Step(cfg, before, e).1.Accepted?
    ensures var after := Step(cfg, before, e).0;
            && after.disk == Some(after.mem)
            && IsActive(after.mem, Request(e.req.accountId, e.key)) && !IsActive(after.mem, e.req)
            && forall id :: id in after.mem.accounts && id != e.req.accountId ==>
                 id in before.mem.accounts && after.mem.accounts[id].key == before.mem.accounts[id].key
                 && after.mem.accounts[id].thumbprint == before.mem.accounts[id].thumbprint
  {
    AcceptedStored(cfg, before, e);
    ActiveCaller(cfg, before, e);
    hide Step, Prepared, Prune, HasThumbprint, Enabled;
    KeyChangeForm(cfg, before, e);
    var next := WithKey(before.mem, e.req.accountId, e.key);
    CallerStays(next, e.now, NotedActivity(before, e), e.req.accountId);
    NoNewAccounts(next, e.now, NotedActivity(before, e));
    forall id | id in Prune(next, e.now, NotedActivity(before, e)).accounts && id != e.req.accountId
      ensures id in before.mem.accounts
      ensures Prune(next, e.now, NotedActivity(before, e)).accounts[id].key == before.mem.accounts[id].key
      ensures Prune(next, e.now, NotedActivity(before, e)).accounts[id].thumbprint == before.mem.accounts[id].thumbprint
    {
      ForgottenIff(next, e.now, NotedActivity(before, e), id);
    }
  }

  lemma ActiveCaller(cfg: Config, before: System, e: Event)
    requires Enabled(cfg, before, e) && Prepared(cfg, before, e).Some?
    ensures 0 < e.now
    ensures e.KeyChangeCall? || e.NewOrderCall? || e.DeactivateAuthCall? || e.UpdateAccountCall? || e.StartCall? || e.FinalizeCall? ==>
              IsActive(before.mem, e.req)
    ensures e.KeyChangeCall? ==> e.key.thumbprint != e.req.key.thumbprint
  {
    hide Prune, DenyCreation, HasThumbprint, WithAccountStatus, WithKey, FreshId, ValidId, RetrySeconds, WithOrder, StillProven,
         OrderCapacityReached, AcceptableNames, Distinct, WithAuthDeactivated, SigningContract, CanStart, IsActive, RefreshCrl, CanRevoke;
  }

  /** The order is on record in both snapshots and the same, unless it is invalid or has expired. */
  ghost predicate SameOrderUnlessOver(st: State, next: State, now: Time, k: Id)
    requires k in st.orders
  {
    if st.orders[k].status != OrderInvalid && now < st.orders[k].expires then k in next.orders && next.orders[k] == st.orders[k]
    else k !in next.orders
  }

  /** No request of the account is honoured in this snapshot, and nothing of it is open. */
  ghost predicate ShutDown(st: State, id: Id) {
    && id in st.accounts && st.accounts[id].status == AccountDeactivated
    && (forall key :: !IsActive(st, Request(id, key)))
    && (forall k :: k in st.orders && st.orders[k].accountId == id ==> st.orders[k].status == OrderValid)
    && (forall k :: k in st.auths && st.auths[k].accountId == id ==> st.auths[k].status != AuthPending)
  }

  lemma DeactivatedSnapshot(st: State, now: Time, activity: map<Id, Time>, id: Id)
    requires id in st.accounts && id in activity && activity[id] == now && 0 < now
    ensures ShutDown(Prune(WithAccountStatus(st, id, AccountDeactivated), now, activity), id)
  {
    hide Prune;
    var next := WithAccountStatus(st, id, AccountDeactivated);
    var p := Prune(next, now, activity);
    CallerStays(next, now, activity, id);
    forall k | k in p.orders && p.orders[k].accountId == id ensures p.orders[k].status == OrderValid {
      PruneAt(next, now, activity, k);
    }
    forall k | k in p.auths && p.auths[k].accountId == id ensures p.auths[k].status != AuthPending {
      PruneAt(next, now, activity, k);
    }
  }

  lemma OthersAfterDeactivation(st: State, now: Time, activity: map<Id, Time>, id: Id, k: Id)
    requires id in st.accounts && k in st.orders && st.orders[k].accountId != id
    ensures SameOrderUnlessOver(st, Prune(WithAccountStatus(st, id, AccountDeactivated), now, activity), now, k)
  {
    hide Prune;
    PruneAt(WithAccountStatus(st, id, AccountDeactivated), now, activity, k);
  }

  /** After an accepted deactivation no request of the account is honoured, it has no open order and no pending
      authorization left, and the orders of other accounts are as they were. */
  lemma DeactivationTakesEffect(cfg: Config, before: System, e: Event)
    requires Enabled(cfg, before, e) && e.UpdateAccountCall? && e.status == Some(AccountDeactivated) && Step(cfg, before, e).1.Accepted?
    ensures var after := Step(cfg, before, e).0;
            && after.disk == Some(after.mem) && ShutDown(after.mem, e.req.accountId)
            && forall k :: k in before.mem.orders && before.mem.orders[k].accountId != e.req.accountId ==>
                 SameOrderUnlessOver(before.mem, after.mem, e.now, k)
  {
    AcceptedStored(cfg, before, e);
    ActiveCaller(cfg, before, e);
    hide Step, Prepared, Prune, Enabled, WithAccountStatus, ShutDown, SameOrderUnlessOver;
    UpdateForm(cfg, before, e);
    var activity := NotedActivity(before, e);
    DeactivatedSnapshot(before.mem, e.now, activity, e.req.accountId);
    forall k | k in before.mem.orders && before.mem.orders[k].accountId != e.req.accountId
      ensures SameOrderUnlessOver(before.mem, Step(cfg, before, e).0.mem, e.now, k)
    {
      OthersAfterDeactivation(before.mem, e.now, activity, e.req.accountId, k);
    }
  }

  lemma AddedAccount(st: State, now: Time, activity: map<Id, Time>, key: Key, source: ClientId, id: Id)
    requires 0 < now
    ensures var p := Prune(WithAccount(Prune(st, now, activity), now, key, source, id), now, activity);
            IsActive(p, Request(id, key)) && p.accounts[id].key == key && now <= p.accounts[id].lastActive
  {
    hide Prune;
    ForgottenIff(WithAccount(Prune(st, now, activity), now, key, source, id), now, activity, id);
  }

  /** The other accounts of a snapshot keep their key and status. */
  lemma OtherAccountsKept(st: State, now: Time, activity: map<Id, Time>, key: Key, source: ClientId, id: Id, k: Id)
    requires k in Prune(WithAccount(Prune(st, now, activity), now, key, source, id), now, activity).accounts && k != id
    ensures var p := Prune(WithAccount(Prune(st, now, activity), now, key, source, id), now, activity);
            k in st.accounts && p.accounts[k].thumbprint == st.accounts[k].thumbprint && p.accounts[k].status == st.accounts[k].status
  {
    hide Prune;
    var next := WithAccount(Prune(st, now, activity), now, key, source, id);
    NoNewAccounts(next, now, activity);
    NoNewAccounts(st, now, activity);
    ForgottenIff(next, now, activity, k);
    ForgottenIff(st, now, activity, k);
  }

  /** A new account is accepted under the drawn identifier, with the given key, active from now on. */
  lemma NewAccountTakesEffect(cfg: Config, before: System, e: Event)
    requires Enabled(cfg, before, e) && e.NewAccountCall? && Step(cfg, before, e).1.Accepted?
    requires !HasThumbprint(before.mem, e.key.thumbprint)
    ensures var (after, reply) := Step(cfg, before, e);
            && reply == Accepted(e.id) && after.disk == Some(after.mem) && IsActive(after.mem, Request(e.id, e.key))
            && after.mem.accounts[e.id].key == e.key && e.now <= after.mem.accounts[e.id].lastActive
            && forall id :: id in after.mem.accounts && id != e.id ==>
                 id in before.mem.accounts && after.mem.accounts[id].thumbprint == before.mem.accounts[id].thumbprint
                 && after.mem.accounts[id].status == before.mem.accounts[id].status
  {
    NewAccountStored(cfg, before, e);
    hide Step, Prepared, Enabled, Prune, WithAccount, IsActive, HasThumbprint;
    NewAccountForm(cfg, before, e);
    AddedAccount(before.mem, e.now, before.activity, e.key, e.source, e.id);
    forall id | id in Step(cfg, before, e).0.mem.accounts && id != e.id
      ensures id in before.mem.accounts && Step(cfg, before, e).0.mem.accounts[id].thumbprint == before.mem.accounts[id].thumbprint
      ensures Step(cfg, before, e).0.mem.accounts[id].status == before.mem.accounts[id].status
    {
      OtherAccountsKept(before.mem, e.now, before.activity, e.key, e.source, e.id, id);
    }
  }

  lemma NewAccountStored(cfg: Config, before: System, e: Event)
    requires Enabled(cfg, before, e) && e.NewAccountCall? && Step(cfg, before, e).1.Accepted? && !HasThumbprint(before.mem, e.key.thumbprint)
    ensures Step(cfg, before, e).1 == Accepted(e.id) && Prepared(cfg, before, e).Some? && 0 < e.now
    ensures Commits(cfg, before, e, Step(cfg, before, e).0)
  {
    hide Prune, WithAccount, RetrySeconds, FreshId, Commits, HasThumbprint, Recent, LiveLimits;
    assert e.outcome.Synced? && Prepared(cfg, before, e).Some?;
    StepCommits(cfg, before, e);
  }

  /** A key that is known already is answered with its account, and nothing is stored. */
  lemma KnownKeyAnswer(cfg: Config, before: System, e: Event, id: Id)
    requires SystemInv(cfg, before) && Enabled(cfg, before, e) && e.NewAccountCall?
    requires id in before.mem.accounts && before.mem.accounts[id].thumbprint == e.key.thumbprint
    ensures var (after, reply) := Step(cfg, before, e);
            reply == Accepted(id) && after.mem == before.mem && after.disk == before.disk
  {
    hide Prune, DenyCreation, WithAccount, RetrySeconds, FreshId, OrdersOk, AuthsOk, CertsOk, LimitsOk, FlightsMatch, Recover, ValidId, AccountOk;
    assert DistinctKeys(before.mem);
  }

  // ----- Orders -----

  /** The i-th authorization of the new order: pending, for the i-th name, with the i-th identifier and token. */
  ghost predicate NewlyPending(st: State, e: Event, i: nat)
    requires e.NewOrderCall? && i < |e.ids.auths| == |e.ids.tokens| == |e.names|
  {
    && e.ids.auths[i] in st.auths
    && var a := st.auths[e.ids.auths[i]];
       && a.id == e.ids.auths[i] && a.accountId == e.req.accountId && a.orderId == e.ids.order && a.name == e.names[i]
       && a.token == e.ids.tokens[i] && a.status == AuthPending && a.challenge == ChallengePending && a.expires == e.now + DAY
  }

  lemma WithOrderContents(pruned: State, e: Event, i: nat)
    requires e.NewOrderCall? && e.req.accountId in pruned.accounts
    requires |e.ids.auths| == |e.ids.tokens| == |e.names| && Distinct(e.ids.auths) && i < |e.names|
    ensures NewlyPending(WithOrder(pruned, e.now, e.source, OrderFor(e), e.ids.tokens), e, i)
  {
    hide WithAuths, Recorded, Distinct;
    WithAuthsContents(pruned.auths, OrderFor(e), e.ids.tokens, |e.ids.tokens|);
  }

  lemma WithOrderOrders(pruned: State, e: Event)
    requires e.NewOrderCall? && e.req.accountId in pruned.accounts && |e.ids.auths| == |e.ids.tokens| == |e.names|
    ensures WithOrder(pruned, e.now, e.source, OrderFor(e), e.ids.tokens).orders == pruned.orders[e.ids.order := OrderFor(e)]
  {
    hide WithAuths, Recorded;
  }

  lemma NewOrderReply(cfg: Config, before: System, e: Event)
    requires Enabled(cfg, before, e) && e.NewOrderCall?
    ensures Step(cfg, before, e).1.Accepted? ==> Step(cfg, before, e).1 == Accepted(e.ids.order)
    ensures Distinct(e.ids.auths) && e.ids.order !in before.mem.orders && |e.ids.auths| == |e.ids.tokens| == |e.names|
  {
    hide Prune, IsActive, WithOrder, OrderCapacityReached, AcceptableNames, Distinct, ValidId, RetrySeconds, Recent, LiveLimits;
  }

  /** An accepted order is on record as asked for, pending for a day, with one pending authorization per name
      under the drawn identifiers and tokens; the other orders are as they were. */
  lemma NewOrderTakesEffect(cfg: Config, before: System, e: Event)
    requires SystemInv(cfg, before) && Enabled(cfg, before, e) && e.NewOrderCall? && Step(cfg, before, e).1.Accepted?
    ensures var (after, reply) := Step(cfg, before, e);
            && reply == Accepted(e.ids.order) && after.disk == Some(after.mem) && e.ids.order in after.mem.orders
            && after.mem.orders[e.ids.order] == Order(e.ids.order, e.req.accountId, OrderPending, e.now + DAY, e.names, e.ids.auths, "", [])
            && |e.ids.auths| == |e.ids.tokens| == |e.names|
            && (forall i :: 0 <= i < |e.names| ==> NewlyPending(after.mem, e, i))
            && (forall k :: k in before.mem.orders ==> SameOrderUnlessOver(before.mem, after.mem, e.now, k))
  {
    hide Step, Prepared, Prune, Enabled, SystemInv, Consistent, WithOrder, NewlyPending, SameOrderUnlessOver, OrderCapacityReached, DenyCreation;
    AcceptedStored(cfg, before, e);
    NewOrderReply(cfg, before, e);
    PreparedConsistent(cfg, before, e);
    NewOrderForm(cfg, before, e);
    var activity := NotedActivity(before, e);
    var next := Prepared(cfg, before, e).value;
    WithOrderOrders(Prune(before.mem, e.now, activity), e);
    PruneAt(next, e.now, activity, e.ids.order);
    forall i | 0 <= i < |e.names| ensures NewlyPending(Prune(next, e.now, activity), e, i) {
      WithOrderContents(Prune(before.mem, e.now, activity), e, i);
      PendingStays(cfg, next, e, activity, i);
    }
    forall k | k in before.mem.orders ensures SameOrderUnlessOver(before.mem, Prune(next, e.now, activity), e.now, k) {
      OldOrderStays(before.mem, next, e.now, activity, k, e.ids.order);
    }
  }

  lemma PendingStays(cfg: Config, next: State, e: Event, activity: map<Id, Time>, i: nat)
    requires Consistent(cfg, next) && e.NewOrderCall? && i < |e.ids.auths| == |e.ids.tokens| == |e.names| && NewlyPending(next, e, i)
    requires e.ids.order in next.orders && next.orders[e.ids.order] == OrderFor(e)
    ensures NewlyPending(Prune(next, e.now, activity), e, i)
  {
    hide Prune, Consistent;
    LiveAuthStays(cfg, next, e.now, activity, e.ids.auths[i]);
  }

  lemma OldOrderStays(st: State, next: State, now: Time, activity: map<Id, Time>, k: Id, orderId: Id)
    requires k in st.orders && orderId !in st.orders && orderId in next.orders
    requires next.orders == Prune(st, now, activity).orders[orderId := next.orders[orderId]]
    ensures SameOrderUnlessOver(st, Prune(next, now, activity), now, k)
  {
    hide Prune;
    PruneAt(st, now, activity, k);
    PruneAt(next, now, activity, k);
  }

  lemma DeactivatedAuthSnapshot(st: State, now: Time, activity: map<Id, Time>, authId: Id)
    requires authId in st.auths && st.auths[authId].orderId in st.orders && st.orders[st.auths[authId].orderId].id == st.auths[authId].orderId
    ensures var p := Prune(WithAuthDeactivated(st, authId), now, activity);
            var orderId := st.auths[authId].orderId;
            && (authId in p.auths ==> p.auths[authId].status == AuthDeactivated)
            && (st.orders[orderId].status in {OrderPending, OrderReady} ==> orderId !in p.orders)
  {
    hide Prune;
    var next := WithAuthDeactivated(st, authId);
    PruneAt(next, now, activity, authId);
    PruneAt(next, now, activity, st.auths[authId].orderId);
  }

  lemma OthersAfterAuth(st: State, now: Time, activity: map<Id, Time>, authId: Id, k: Id)
    requires authId in st.auths && st.auths[authId].orderId in st.orders && st.orders[st.auths[authId].orderId].id == st.auths[authId].orderId
    requires k in st.orders && k != st.auths[authId].orderId
    ensures SameOrderUnlessOver(st, Prune(WithAuthDeactivated(st, authId), now, activity), now, k)
  {
    hide Prune;
    PruneAt(WithAuthDeactivated(st, authId), now, activity, k);
  }

  /** An accepted deactivation leaves the authorization neither pending nor valid; if its order was open it is
      gone, and the other orders are as they were. */
  lemma AuthDeactivationTakesEffect(cfg: Config, before: System, e: Event)
    requires SystemInv(cfg, before) && Enabled(cfg, before, e) && e.DeactivateAuthCall? && Step(cfg, before, e).1.Accepted?
    ensures var after := Step(cfg, before, e).0;
            && after.disk == Some(after.mem) && e.authId in before.mem.auths
            && (e.authId in after.mem.auths ==> after.mem.auths[e.authId].status == AuthDeactivated)
            && var orderId := before.mem.auths[e.authId].orderId;
               && orderId in before.mem.orders
               && (before.mem.orders[orderId].status in {OrderPending, OrderReady} ==> orderId !in after.mem.orders)
               && (forall k :: k in before.mem.orders && k != orderId ==> SameOrderUnlessOver(before.mem, after.mem, e.now, k))
  {
    hide Step, Prepared, Prune, Enabled, WithAuthDeactivated, SameOrderUnlessOver, Inv, FlightsMatch, Recover;
    AcceptedStored(cfg, before, e);
    EnabledIsUp(cfg, before, e);
    DeactivationForm(cfg, before, e);
    OrderOfAuth(cfg, before.mem, e.authId);
    hide SystemInv;
    var activity := NotedActivity(before, e);
    DeactivatedAuthSnapshot(before.mem, e.now, activity, e.authId);
    forall k | k in before.mem.orders && k != before.mem.auths[e.authId].orderId
      ensures SameOrderUnlessOver(before.mem, Step(cfg, before, e).0.mem, e.now, k)
    {
      OthersAfterAuth(before.mem, e.now, activity, e.authId, k);
    }
  }

  // ----- Challenges -----

  /** The validation proves nothing: it found nothing, or came too late, or the account is gone or deactivated. */
  ghost predicate Fails(before: System, e: Event)
    requires e.FinishCall? && e.authId in before.inflight && e.authId in before.mem.auths
  {
    var id := before.inflight[e.authId].accountId;
    || before.mem.auths[e.authId].expires <= e.now
    || id !in before.mem.accounts || before.mem.accounts[id].status != AccountValid
    || (e.proof.None? && before.mem.accounts[id].thumbprint == before.inflight[e.authId].key.thumbprint)
  }

  /** A validation that proves nothing ends its order, and with it the authorization. */
  lemma FailureEndsOrder(cfg: Config, before: System, e: Event)
    requires SystemInv(cfg, before) && Enabled(cfg, before, e) && e.FinishCall? && e.outcome.Synced?
    requires e.authId in before.mem.auths && before.mem.auths[e.authId].challenge == ChallengeProcessing && Fails(before, e)
    ensures var after := Step(cfg, before, e).0;
            && after.disk == Some(after.mem)
            && before.mem.auths[e.authId].orderId !in after.mem.orders && e.authId !in after.mem.auths
  {
    hide Step, Prune, Enabled, SystemInv, Inv, WithProof, Consistent, RolledOver;
    EnabledIsUp(cfg, before, e);
    ProcessingFacts(cfg, before, e);
    StepCommits(cfg, before, e);
    PreparedConsistent(cfg, before, e);
    hide Prepared;
    FinishForm(cfg, before, e);
    FailedSnapshot(before, e);
    OrderGone(cfg, Prepared(cfg, before, e).value, e.now, NotedActivity(before, e), e.authId);
  }

  lemma ProcessingFacts(cfg: Config, before: System, e: Event)
    requires SystemInv(cfg, before) && Enabled(cfg, before, e) && e.FinishCall? && before.up
    requires e.authId in before.mem.auths && before.mem.auths[e.authId].challenge == ChallengeProcessing
    ensures before.mem.auths[e.authId].status == AuthPending && before.mem.auths[e.authId].orderId in before.mem.orders
    ensures before.mem.orders[before.mem.auths[e.authId].orderId].id == before.mem.auths[e.authId].orderId
    ensures Prepared(cfg, before, e).Some?
  {
    hide Inv, FlightsMatch, Recover, Finished, IsActive;
    OrderOfAuth(cfg, before.mem, e.authId);
    PendingWhileProcessing(cfg, before.mem, e.authId);
    hide SystemInv;
  }

  lemma PendingWhileProcessing(cfg: Config, st: State, authId: Id)
    requires Inv(cfg, st) && authId in st.auths && st.auths[authId].challenge == ChallengeProcessing
    ensures st.auths[authId].status == AuthPending
  {
    hide OrdersOk, CertsOk, AccountsOk, AllowedName, ValidId, StatusesAgree;
    assert AuthOk(cfg, st, authId);
  }

  lemma FailedSnapshot(before: System, e: Event)
    requires e.FinishCall? && e.authId in before.inflight && e.authId in before.mem.auths && Fails(before, e)
    requires before.mem.auths[e.authId].orderId in before.mem.orders
    requires before.mem.orders[before.mem.auths[e.authId].orderId].id == before.mem.auths[e.authId].orderId
    ensures var next := Finished(before.mem, e.now, before.inflight[e.authId], e.authId, e.proof);
            var orderId := before.mem.auths[e.authId].orderId;
            && orderId in next.orders && next.orders[orderId].status == OrderInvalid
            && e.authId in next.auths && next.auths[e.authId].orderId == orderId
  {
    hide AllValid;
  }

  lemma OrderGone(cfg: Config, st: State, now: Time, activity: map<Id, Time>, authId: Id)
    requires Consistent(cfg, st) && authId in st.auths && st.auths[authId].orderId in st.orders
    requires st.orders[st.auths[authId].orderId].status == OrderInvalid
    ensures var p := Prune(st, now, activity); st.auths[authId].orderId !in p.orders && authId !in p.auths
  {
    hide Prune, OrdersOk, AuthsOk, CertsOk, AccountsOk;
    AuthGoesWithOrder(cfg, st, now, authId);
    PruneAt(st, now, activity, authId);
    PruneAt(st, now, activity, st.auths[authId].orderId);
  }

  // ----- Finalization -----

  /** The authorization does not back its name any more: not valid, expired, or its target lost the lease. */
  ghost predicate Lapsed(st: State, now: Time, owners: Owners, authId: Id) {
    authId !in st.auths || st.auths[authId].status != AuthValid || st.auths[authId].expires <= now
    || st.auths[authId].name !in owners || owners[st.auths[authId].name] != st.auths[authId].target
  }

  /** What becomes of a ready order: if an authorization has lapsed it is given up and nothing is issued; else,
      when the authority signs, the order is complete with exactly this certificate and request. */
  lemma FinalizeOutcome(cfg: Config, before: System, e: Event)
    requires SystemInv(cfg, before) && Enabled(cfg, before, e) && e.FinalizeCall? && e.outcome.Synced?
    requires e.csr != [] && IsActive(before.mem, e.req) && e.orderId in before.mem.orders && |before.mem.certs| < MAX_RECORDS
    requires var o := before.mem.orders[e.orderId]; o.accountId == e.req.accountId && o.status == OrderReady && e.now < o.expires
    ensures var (after, reply) := Step(cfg, before, e);
            var o := before.mem.orders[e.orderId];
            if exists i :: 0 <= i < |o.authIds| && Lapsed(before.mem, e.now, e.owners, o.authIds[i]) then
              reply == Refused && e.orderId !in after.mem.orders && after.disk == Some(after.mem)
              && forall c :: c in after.mem.certs ==> c in before.mem.certs
            else if e.signing.Signed? then
              && reply == Accepted(e.orderId) && after.disk == Some(after.mem)
              && (e.now < e.signing.leaf.notAfter ==>
                    && e.orderId in after.mem.orders && e.certId in after.mem.certs
                    && after.mem.orders[e.orderId] == o.(status := OrderValid, certificateId := e.certId, csr := e.csr, expires := e.signing.leaf.notAfter)
                    && after.mem.certs[e.certId] ==
                         Certificate(e.certId, o.accountId, e.orderId, e.signing.leaf, e.signing.leaf.serial, e.signing.leaf.notAfter, None, 0))
            else !reply.Accepted? && after.mem == before.mem && after.disk == before.disk
  {
    hide Prune, Enabled, SystemInv, IsActive, Consistent, WithCertificate, Step;
    LapsedIff(before, e);
    hide Lapsed, StillProven;
    FinalizeReply(cfg, before, e);
    var o := before.mem.orders[e.orderId];
    if (exists i :: 0 <= i < |o.authIds| && !StillProven(before.mem, e.now, e.owners, o.authIds[i])) || e.signing.Signed? {
      StepCommits(cfg, before, e);
      PreparedConsistent(cfg, before, e);
      FinalizedSnapshot(cfg, before, e, Prepared(cfg, before, e).value, NotedActivity(before, e));
    }
  }

  lemma LapsedIff(before: System, e: Event)
    requires e.FinalizeCall? && e.orderId in before.mem.orders
    ensures var ids := before.mem.orders[e.orderId].authIds;
            (exists i :: 0 <= i < |ids| && Lapsed(before.mem, e.now, e.owners, ids[i])) <==>
            (exists i :: 0 <= i < |ids| && !StillProven(before.mem, e.now, e.owners, ids[i]))
  {
  }

  lemma FinalizeReply(cfg: Config, before: System, e: Event)
    requires Enabled(cfg, before, e) && e.FinalizeCall? && e.outcome.Synced?
    requires e.csr != [] && IsActive(before.mem, e.req) && e.orderId in before.mem.orders && |before.mem.certs| < MAX_RECORDS
    requires var o := before.mem.orders[e.orderId]; o.accountId == e.req.accountId && o.status == OrderReady && e.now < o.expires
    ensures var (after, reply) := Step(cfg, before, e);
            var o := before.mem.orders[e.orderId];
            if exists i :: 0 <= i < |o.authIds| && !StillProven(before.mem, e.now, e.owners, o.authIds[i]) then reply == Refused
            else if e.signing.Signed? then reply == Accepted(e.orderId)
            else !reply.Accepted? && after.mem == before.mem && after.disk == before.disk
  {
    hide Prune, IsActive, SigningContract, FreshId, WithCertificate, StillProven;
  }

  lemma FinalizedSnapshot(cfg: Config, before: System, e: Event, next: State, activity: map<Id, Time>)
    requires e.FinalizeCall? && e.orderId in before.mem.orders && Consistent(cfg, next)
    ensures var o := before.mem.orders[e.orderId];
            next == before.mem.(orders := before.mem.orders[e.orderId := o.(status := OrderInvalid)]) ==>
              e.orderId !in Prune(next, e.now, activity).orders && forall c :: c in Prune(next, e.now, activity).certs ==> c in before.mem.certs
    ensures var o := before.mem.orders[e.orderId];
            e.signing.Signed? && next == WithCertificate(before.mem, e.orderId, e.signing.leaf, e.certId, e.csr) && e.now < e.signing.leaf.notAfter ==>
              var p := Prune(next, e.now, activity);
              && e.orderId in p.orders && e.certId in p.certs
              && p.orders[e.orderId] == o.(status := OrderValid, certificateId := e.certId, csr := e.csr, expires := e.signing.leaf.notAfter)
              && p.certs[e.certId] ==
                   Certificate(e.certId, o.accountId, e.orderId, e.signing.leaf, e.signing.leaf.serial, e.signing.leaf.notAfter, None, 0)
  {
    hide Prune, Consistent;
    PruneAt(next, e.now, activity, e.orderId);
    forall c | c in Prune(next, e.now, activity).certs ensures c in next.certs {
      PruneAt(next, e.now, activity, c);
    }
    if e.signing.Signed? && next == WithCertificate(before.mem, e.orderId, e.signing.leaf, e.certId, e.csr) && e.now < e.signing.leaf.notAfter {
      RecordStays(cfg, next, e.now, activity, e.certId);
    }
  }

  /** Asking again with the same request is answered as before, and nothing is stored. */
  lemma FinalizeAgain(cfg: Config, before: System, e: Event)
    requires Enabled(cfg, before, e) && e.FinalizeCall? && e.csr != [] && IsActive(before.mem, e.req) && e.orderId in before.mem.orders
    requires var o := before.mem.orders[e.orderId]; o.accountId == e.req.accountId && o.status == OrderValid && o.csr == e.csr
    ensures var (after, reply) := Step(cfg, before, e);
            reply == Accepted(e.orderId) && after.mem == before.mem && after.disk == before.disk
  {
    hide Prune, IsActive, SigningContract, FreshId, StillProven, WithCertificate;
  }
}
