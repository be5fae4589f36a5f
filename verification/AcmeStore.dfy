/** The loops of the certificate service's store: filtering histories, pruning a snapshot, checking
    and recovering a state file. Each computes the function of the model that carries its name. */
module AcmeStore {
  import opened Common
  import opened Acme
  import opened AcmeInvariant

  method RecentTimes(times: seq<Time>, cutoff: Time) returns (recent: seq<Time>)
    ensures recent == Recent(times, cutoff)
  {
    recent := [];
    for i := 0 to |times|
      invariant recent == Recent(times[..i], cutoff)
    {
      assert times[..i + 1][..i] == times[..i];
      if cutoff < times[i] {
        recent := recent + [times[i]];
      }
    }
    assert times[..|times|] == times;
  }

  // ----- Pruning -----

  ghost predicate AuthDroppedIn(st: State, now: Time, done: set<Id>, authId: Id) {
    exists id :: id in done && id in st.orders && !Live(st.orders[id], now) && authId in st.orders[id].authIds
  }

  ghost predicate CertDroppedIn(st: State, now: Time, done: set<Id>, certId: Id) {
    exists id :: id in done && id in st.orders && !Live(st.orders[id], now) && st.orders[id].certificateId == certId
  }

  ghost predicate ReferencedIn(st: State, now: Time, done: set<Id>, accountId: Id) {
    exists id :: id in done && id in st.orders && Live(st.orders[id], now) && st.orders[id].accountId == accountId
  }

  method DeleteAll(auths: map<Id, Authorization>, ids: seq<Id>) returns (r: map<Id, Authorization>)
    ensures forall a :: a in r <==> a in auths && a !in ids
    ensures forall a :: a in r ==> r[a] == auths[a]
  {
    r := auths;
    for i := 0 to |ids|
      invariant forall a :: a in r <==> a in auths && a !in ids[..i]
      invariant forall a :: a in r ==> r[a] == auths[a]
    {
      assert ids[..i + 1] == ids[..i] + [ids[i]];
      r := r - {ids[i]};
    }
    assert ids[..|ids|] == ids;
  }

  /** What is left, and whose orders are live, once the orders in `done` have been looked at. */
  ghost predicate PrunedSoFar(st: State, now: Time, done: set<Id>, auths: map<Id, Authorization>, certs: map<Id, Certificate>, referenced: set<Id>) {
    && (forall id :: id in auths <==> id in st.auths && !AuthDroppedIn(st, now, done, id))
    && (forall id :: id in auths ==> auths[id] == st.auths[id])
    && (forall id :: id in certs <==> id in st.certs && !CertDroppedIn(st, now, done, id))
    && (forall id :: id in certs ==> certs[id] == st.certs[id])
    && (forall a :: a in referenced <==> ReferencedIn(st, now, done, a))
  }

  /** One order: a live one pins its account, a dead one takes its authorizations and certificate along. */
  method PruneOneOrder(st: State, now: Time, id: Id, ghost done: set<Id>,
                    auths0: map<Id, Authorization>, certs0: map<Id, Certificate>, referenced0: set<Id>)
    returns (auths: map<Id, Authorization>, certs: map<Id, Certificate>, referenced: set<Id>)
    requires id in st.orders && PrunedSoFar(st, now, done, auths0, certs0, referenced0)
    ensures PrunedSoFar(st, now, done + {id}, auths, certs, referenced)
  {
    hide AuthDroppedIn, CertDroppedIn, ReferencedIn;
    auths, certs, referenced := auths0, certs0, referenced0;
    var o := st.orders[id];
    DroppedStep(st, now, done, id);
    if o.status != OrderInvalid && now < o.expires {
      referenced := referenced + {o.accountId};
    } else {
      auths := DeleteAll(auths, o.authIds);
      certs := certs - {o.certificateId};
    }
  }

  /** Removes dead orders with their authorizations and certificates, and notes whose orders remain. */
  method PruneOrders(st: State, now: Time)
    returns (orders: map<Id, Order>, auths: map<Id, Authorization>, certs: map<Id, Certificate>, referenced: set<Id>)
    ensures orders == map id | id in st.orders && Live(st.orders[id], now) :: st.orders[id]
    ensures auths == map id | id in st.auths && !AuthDropped(st, now, id) :: st.auths[id]
    ensures certs == map id | id in st.certs && !CertDropped(st, now, id) :: st.certs[id]
    ensures forall a :: a in referenced <==> Referenced(st, now, a)
  {
    hide PrunedSoFar, AuthDropped, CertDropped, Referenced, Live;
    orders, auths, certs, referenced := st.orders, st.auths, st.certs, {};
    var todo := st.orders.Keys;
    ghost var done: set<Id> := {};
    NothingPruned(st, now);
    while todo != {}
      invariant todo <= st.orders.Keys && done == st.orders.Keys - todo
      invariant forall id :: id in orders <==> id in st.orders && (id in todo || Live(st.orders[id], now))
      invariant forall id :: id in orders ==> orders[id] == st.orders[id]
      invariant PrunedSoFar(st, now, done, auths, certs, referenced)
      decreases |todo|
    {
      var id :| id in todo;
      todo := todo - {id};
      auths, certs, referenced := PruneOneOrder(st, now, id, done, auths, certs, referenced);
      if !Live(st.orders[id], now) {
        orders := orders - {id};
      }
      done := done + {id};
    }
    assert done == st.orders.Keys;
    AllPruned(st, now, auths, certs, referenced);
  }

  lemma NothingPruned(st: State, now: Time)
    ensures PrunedSoFar(st, now, {}, st.auths, st.certs, {})
  {
  }

  lemma AllPruned(st: State, now: Time, auths: map<Id, Authorization>, certs: map<Id, Certificate>, referenced: set<Id>)
    requires PrunedSoFar(st, now, st.orders.Keys, auths, certs, referenced)
    ensures auths == map id | id in st.auths && !AuthDropped(st, now, id) :: st.auths[id]
    ensures certs == map id | id in st.certs && !CertDropped(st, now, id) :: st.certs[id]
    ensures forall a :: a in referenced <==> Referenced(st, now, a)
  {
    assert forall a :: AuthDroppedIn(st, now, st.orders.Keys, a) <==> AuthDropped(st, now, a);
    assert forall c :: CertDroppedIn(st, now, st.orders.Keys, c) <==> CertDropped(st, now, c);
    assert forall a :: ReferencedIn(st, now, st.orders.Keys, a) <==> Referenced(st, now, a);
  }

  lemma DroppedStep(st: State, now: Time, done: set<Id>, id: Id)
    requires id in st.orders
    ensures forall a :: AuthDroppedIn(st, now, done + {id}, a) <==>
              AuthDroppedIn(st, now, done, a) || (!Live(st.orders[id], now) && a in st.orders[id].authIds)
    ensures forall c :: CertDroppedIn(st, now, done + {id}, c) <==>
              CertDroppedIn(st, now, done, c) || (!Live(st.orders[id], now) && c == st.orders[id].certificateId)
    ensures forall a :: ReferencedIn(st, now, done + {id}, a) <==>
              ReferencedIn(st, now, done, a) || (Live(st.orders[id], now) && a == st.orders[id].accountId)
  {
    hide Live;
    assert forall k :: k in done + {id} <==> k in done || k == id;
  }

  /** One account brought up to date, or None if it is idle and has no orders left. */
  method PruneAccount(st: State, now: Time, activity: map<Id, Time>, referenced: set<Id>, id: Id) returns (r: Option<Account>)
    requires id in st.accounts && (id in referenced <==> Referenced(st, now, id))
    ensures r == if AccountDropped(st, now, activity, id) then None else Some(PrunedAccount(st.accounts[id], now, activity, id))
  {
    hide Recent, Referenced;
    var a := st.accounts[id];
    if id in activity && a.lastActive < activity[id] {
      a := a.(lastActive := activity[id]);
    }
    if a.lastActive != 0 && a.lastActive + ACCOUNT_IDLE_LIFETIME <= now && id !in referenced {
      return None;
    }
    var recent := RecentTimes(a.recentOrders, now - ORDER_LIFETIME);
    return Some(a.(recentOrders := recent));
  }

  method PruneIdle(st: State, now: Time, activity: map<Id, Time>, referenced: set<Id>) returns (accounts: map<Id, Account>)
    requires forall a :: a in referenced <==> Referenced(st, now, a)
    ensures accounts == map id | id in st.accounts && !AccountDropped(st, now, activity, id) :: PrunedAccount(st.accounts[id], now, activity, id)
  {
    hide Referenced, AccountDropped, PrunedAccount;
    accounts := st.accounts;
    var todo := st.accounts.Keys;
    while todo != {}
      invariant todo <= st.accounts.Keys
      invariant forall id :: id in accounts <==> id in st.accounts && (id in todo || !AccountDropped(st, now, activity, id))
      invariant forall id :: id in accounts ==>
                  accounts[id] == if id in todo then st.accounts[id] else PrunedAccount(st.accounts[id], now, activity, id)
      decreases |todo|
    {
      var id :| id in todo;
      todo := todo - {id};
      var a := PruneAccount(st, now, activity, referenced, id);
      if a.None? {
        accounts := accounts - {id};
      } else {
        accounts := accounts[id := a.value];
      }
    }
  }

  method PruneLimits(st: State, now: Time) returns (limits: map<ClientId, LeaseLimit>)
    ensures limits == LiveLimits(st, now)
  {
    hide Recent;
    limits := st.limits;
    var todo := st.limits.Keys;
    while todo != {}
      invariant todo <= st.limits.Keys
      invariant forall s :: s in todo ==> s in limits && limits[s] == st.limits[s]
      invariant forall s :: s in limits ==> s in st.limits
      invariant forall s :: s in st.limits && s !in todo ==>
                  (s in limits <==> RecentLimit(st.limits[s], now) != NO_LIMIT)
                  && (s in limits ==> limits[s] == RecentLimit(st.limits[s], now))
      decreases |todo|
    {
      var s :| s in todo;
      todo := todo - {s};
      var limit := limits[s];
      var accounts := RecentTimes(limit.accounts, now - ACCOUNT_RATE_WINDOW);
      var orders := RecentTimes(limit.orders, now - ORDER_RATE_WINDOW);
      if |accounts| == 0 && |orders| == 0 {
        limits := limits - {s};
      } else {
        limits := limits[s := LeaseLimit(accounts, orders)];
      }
    }
  }

  method PruneState(st: State, now: Time, activity: map<Id, Time>) returns (r: State)
    ensures r == Prune(st, now, activity)
  {
    hide Recent, AuthDropped, CertDropped, LiveLimits, Referenced, AccountDropped;
    var orders, auths, certs, referenced := PruneOrders(st, now);
    var accounts := PruneIdle(st, now, activity, referenced);
    var limits := PruneLimits(st, now);
    r := st.(orders := orders, auths := auths, certs := certs, accounts := accounts, limits := limits);
  }

  // ----- Quotas -----

  method CountLive(st: State, now: Time) returns (live: nat)
    ensures live == |LiveLimits(st, now)|
  {
    hide Recent;
    live := 0;
    var todo := st.limits.Keys;
    ghost var counted: set<ClientId> := {};
    while todo != {}
      invariant todo <= st.limits.Keys && live == |counted|
      invariant forall s :: s in counted <==> s in st.limits && s !in todo && RecentLimit(st.limits[s], now) != NO_LIMIT
      decreases |todo|
    {
      var s :| s in todo;
      todo := todo - {s};
      var accounts := RecentTimes(st.limits[s].accounts, now - ACCOUNT_RATE_WINDOW);
      var orders := RecentTimes(st.limits[s].orders, now - ORDER_RATE_WINDOW);
      if |accounts| != 0 || |orders| != 0 {
        live := live + 1;
        counted := counted + {s};
      }
    }
    assert counted == LiveLimits(st, now).Keys;
  }

  /** None when the source may create one more record, else the refusal. */
  method AllowCreation(st: State, now: Time, source: ClientId, kind: Kind) returns (denied: Option<Reply>)
    ensures denied == DenyCreation(st, now, source, kind)
  {
    hide Recent, LiveLimits, RetrySeconds;
    if source == Utf8("") {
      return Some(Refused);
    }
    var limit := if source in st.limits then st.limits[source] else NO_LIMIT;
    var times, maximum, window := limit.orders, MAX_LEASE_ORDERS, ORDER_RATE_WINDOW;
    if kind == NewAccountKind {
      times, maximum, window := limit.accounts, MAX_LEASE_ACCOUNTS, ACCOUNT_RATE_WINDOW;
    }
    var recent := RecentTimes(times, now - window);
    if |recent| >= maximum {
      return Some(RateLimited(RetrySeconds(recent[0] + window - now)));
    }
    if source !in st.limits && |st.limits| >= MAX_RECORDS {
      var live := CountLive(st, now);
      if live >= MAX_RECORDS {
        return Some(RateLimited(RetrySeconds(ORDER_RATE_WINDOW)));
      }
    }
    return None;
  }

  // ----- The start-up check -----

  method LimitsLoad(st: State) returns (ok: bool)
    ensures ok <==> forall s :: s in st.limits ==> LimitLoads(s, st.limits[s])
  {
    var todo := st.limits.Keys;
    while todo != {}
      invariant todo <= st.limits.Keys
      invariant forall s :: s in st.limits && s !in todo ==> LimitLoads(s, st.limits[s])
      decreases |todo|
    {
      var s :| s in todo;
      todo := todo - {s};
      if !LimitLoads(s, st.limits[s]) {
        return false;
      }
    }
    return true;
  }

  method AccountsLoad(st: State) returns (ok: bool)
    ensures ok <==> (forall id :: id in st.accounts ==> AccountLoads(st, id)) && DistinctKeys(st)
  {
    hide ValidId;
    var keys: set<string> := {};
    var todo := st.accounts.Keys;
    while todo != {}
      invariant todo <= st.accounts.Keys
      invariant forall id :: id in st.accounts && id !in todo ==> AccountLoads(st, id) && st.accounts[id].thumbprint in keys
      invariant forall t :: t in keys ==> exists id :: id in st.accounts && id !in todo && st.accounts[id].thumbprint == t
      invariant forall id, k :: id in st.accounts && k in st.accounts && id !in todo && k !in todo && id != k ==>
                  st.accounts[id].thumbprint != st.accounts[k].thumbprint
      decreases |todo|
    {
      var id :| id in todo;
      if !AccountLoads(st, id) || st.accounts[id].thumbprint in keys {
        return false;
      }
      todo := todo - {id};
      keys := keys + {st.accounts[id].thumbprint};
    }
    return true;
  }

  method CheckOrder(cfg: Config, st: State, id: Id) returns (ok: bool)
    requires id in st.orders
    ensures ok == OrderLoads(cfg, st, id)
  {
    hide ValidId, AllowedName;
    var o := st.orders[id];
    if o.id != id || !ValidId(id) || o.expires == 0 || |o.identifiers| == 0 || |o.identifiers| > MAX_IDENTIFIERS
       || |o.authIds| != |o.identifiers| || o.accountId !in st.accounts {
      return false;
    }
    var seen: set<string> := {};
    for i := 0 to |o.identifiers|
      invariant seen == set k | 0 <= k < i :: o.identifiers[k]
      invariant Distinct(o.identifiers[..i])
      invariant forall k :: 0 <= k < i ==> IdentifierLoads(cfg, st, o, k)
    {
      var name := o.identifiers[i];
      if name in seen || !IdentifierLoads(cfg, st, o, i) {
        return false;
      }
      seen := seen + {name};
    }
    assert o.identifiers[..|o.identifiers|] == o.identifiers;
    if o.status == OrderValid {
      return o.certificateId in st.certs && st.certs[o.certificateId].orderId == id && o.csr != [];
    }
    return true;
  }

  method OrdersLoad(cfg: Config, st: State) returns (ok: bool)
    ensures ok <==> forall id :: id in st.orders ==> OrderLoads(cfg, st, id)
  {
    hide OrderLoads;
    var todo := st.orders.Keys;
    while todo != {}
      invariant todo <= st.orders.Keys
      invariant forall id :: id in st.orders && id !in todo ==> OrderLoads(cfg, st, id)
      decreases |todo|
    {
      var id :| id in todo;
      todo := todo - {id};
      ok := CheckOrder(cfg, st, id);
      if !ok {
        return;
      }
    }
    ok := true;
  }

  method AuthsLoad(cfg: Config, st: State) returns (ok: bool)
    ensures ok <==> forall id :: id in st.auths ==> AuthLoads(cfg, st, id)
  {
    hide AuthLoads;
    var todo := st.auths.Keys;
    while todo != {}
      invariant todo <= st.auths.Keys
      invariant forall id :: id in st.auths && id !in todo ==> AuthLoads(cfg, st, id)
      decreases |todo|
    {
      var id :| id in todo;
      todo := todo - {id};
      if !AuthLoads(cfg, st, id) {
        return false;
      }
    }
    return true;
  }

  method CertsLoad(cfg: Config, st: State) returns (ok: bool)
    ensures ok <==> (forall id :: id in st.certs ==> CertLoads(cfg, st, id)) && DistinctSerials(st)
  {
    hide CertLoads;
    var serials: set<int> := {};
    var todo := st.certs.Keys;
    while todo != {}
      invariant todo <= st.certs.Keys
      invariant forall id :: id in st.certs && id !in todo ==> CertLoads(cfg, st, id) && st.certs[id].serial in serials
      invariant forall t :: t in serials ==> exists id :: id in st.certs && id !in todo && st.certs[id].serial == t
      invariant forall id, k :: id in st.certs && k in st.certs && id !in todo && k !in todo && id != k ==>
                  st.certs[id].serial != st.certs[k].serial
      decreases |todo|
    {
      var id :| id in todo;
      if !CertLoads(cfg, st, id) || st.certs[id].serial in serials {
        return false;
      }
      todo := todo - {id};
      serials := serials + {st.certs[id].serial};
    }
    return true;
  }

  method LoadsState(cfg: Config, st: State) returns (ok: bool)
    ensures ok == ValidateState(cfg, st)
  {
    hide LimitLoads, AccountLoads, OrderLoads, AuthLoads, CertLoads;
    if st.version != 1 || st.domain != cfg.domain || st.root != cfg.root {
      return false;
    }
    if |st.accounts| > MAX_ACCOUNTS || |st.orders| > MAX_RECORDS || |st.auths| > MAX_RECORDS || |st.certs| > MAX_RECORDS
       || |st.limits| > MAX_RECORDS {
      return false;
    }
    var limits := LimitsLoad(st);
    var accounts := AccountsLoad(st);
    var orders := OrdersLoad(cfg, st);
    var auths := AuthsLoad(cfg, st);
    var certs := CertsLoad(cfg, st);
    if !limits || !accounts || !orders || !auths || !certs {
      return false;
    }
    return st.crl.None? || (st.crl.value.number == st.crlNumber && st.crl.value.nextUpdate == st.crlNextUpdate && st.crl.value.issuer == cfg.root);
  }

  method RecoverState(st: State) returns (r: State)
    ensures r == Recover(st)
  {
    hide Recover;
    var auths := st.auths;
    var todo := st.auths.Keys;
    while todo != {}
      invariant todo <= st.auths.Keys && auths.Keys == st.auths.Keys
      invariant forall id :: id in auths ==> auths[id] == if id in todo then st.auths[id] else RecoveredAuth(st.auths[id])
      decreases |todo|
    {
      var id :| id in todo;
      todo := todo - {id};
      if auths[id].challenge == ChallengeProcessing {
        auths := auths[id := auths[id].(challenge := ChallengePending)];
      }
    }
    r := st.(auths := auths);
    RecoveredAll(st, auths);
  }

  lemma RecoveredAll(st: State, auths: map<Id, Authorization>)
    requires auths.Keys == st.auths.Keys && forall id :: id in auths ==> auths[id] == RecoveredAuth(st.auths[id])
    ensures st.(auths := auths) == Recover(st)
  {
    assert auths == Recover(st).auths;
  }
}
