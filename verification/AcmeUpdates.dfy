/** Every snapshot a handler prepares is consistent, whatever state of affairs it starts from. */
module AcmeUpdates {
  import opened Common
  import opened Acme
  import opened AcmeInvariant

  // ----- Frames -----

  lemma OrdersFrame(cfg: Config, st: State, next: State)
    requires OrdersOk(cfg, st) && st.accounts.Keys <= next.accounts.Keys
    requires next.orders == st.orders && next.auths == st.auths && next.certs == st.certs
    ensures OrdersOk(cfg, next)
  {
    hide AllowedName, ValidId, Distinct;
    forall id | id in next.orders ensures OrderOk(cfg, next, id) {
      assert OrderOk(cfg, st, id);
      assert forall i :: 0 <= i < |st.orders[id].authIds| ==> Backs(st, st.orders[id], i) ==> Backs(next, st.orders[id], i);
    }
  }

  lemma AuthsFrame(cfg: Config, st: State, next: State)
    requires AuthsOk(cfg, st) && next.orders == st.orders && next.auths == st.auths
    ensures AuthsOk(cfg, next)
  {
    hide AllowedName, ValidId, StatusesAgree;
    forall id | id in next.auths ensures AuthOk(cfg, next, id) {
      assert AuthOk(cfg, st, id);
    }
  }

  lemma CertsFrame(cfg: Config, st: State, next: State)
    requires CertsOk(cfg, st) && next.orders == st.orders && next.certs == st.certs
    ensures CertsOk(cfg, next)
  {
    hide ValidId;
    forall id | id in next.certs ensures CertOk(cfg, next, id) {
      assert CertOk(cfg, st, id);
    }
  }

  /** A change to accounts and quotas only, which loses no account, keeps all links. */
  lemma AccountChange(cfg: Config, st: State, next: State)
    requires Linked(cfg, st) && AccountsOk(next) && st.accounts.Keys <= next.accounts.Keys
    requires next.orders == st.orders && next.auths == st.auths && next.certs == st.certs
    ensures Linked(cfg, next)
  {
    hide OrdersOk, AuthsOk, CertsOk, AccountsOk;
    OrdersFrame(cfg, st, next);
    AuthsFrame(cfg, st, next);
    CertsFrame(cfg, st, next);
  }

  // ----- Quotas -----

  lemma LimitOfPruned(st: State, now: Time, activity: map<Id, Time>, source: ClientId)
    ensures Prune(st, now, activity).limits == LiveLimits(st, now)
    ensures LimitOf(Prune(st, now, activity), source) == RecentLimit(LimitOf(st, source), now)
  {
    hide AuthDropped, CertDropped, AccountDropped, Recent;
    if source !in st.limits {
      assert RecentLimit(NO_LIMIT, now) == NO_LIMIT by { NothingRecent(now); }
    }
  }

  lemma NothingRecent(now: Time)
    ensures RecentLimit(NO_LIMIT, now) == NO_LIMIT
  {
  }

  lemma {:induction false} RecentTwice(times: seq<Time>, cutoff: Time)
    ensures Recent(Recent(times, cutoff), cutoff) == Recent(times, cutoff)
  {
    if times != [] {
      var n := |times| - 1;
      RecentTwice(times[..n], cutoff);
      if cutoff < times[n] {
        var r := Recent(times[..n], cutoff);
        assert (r + [times[n]])[..|r|] == r;
      }
    }
  }

  /** The history stored for the creating source is its recent history with this creation appended. */
  lemma RecordedLimit(st: State, now: Time, activity: map<Id, Time>, source: ClientId, kind: Kind)
    requires LimitsOk(st) && DenyCreation(st, now, source, kind).None?
    ensures var limit := Recorded(LimitOf(Prune(st, now, activity), source), now, kind);
            && LimitLoads(source, limit)
            && History(limit, kind) == Recent(History(LimitOf(st, source), kind), now - Window(kind)) + [now]
  {
    hide Prune, LiveLimits, Recent, RetrySeconds;
    LimitOfPruned(st, now, activity, source);
    var limit := LimitOf(st, source);
    RecentTwice(limit.accounts, now - ACCOUNT_RATE_WINDOW);
    RecentTwice(limit.orders, now - ORDER_RATE_WINDOW);
    assert source in st.limits ==> LimitLoads(source, st.limits[source]);
  }

  lemma LiveLimitsLoad(st: State, now: Time)
    requires LimitsOk(st)
    ensures forall s :: s in LiveLimits(st, now) ==> LimitLoads(s, LiveLimits(st, now)[s])
    ensures |LiveLimits(st, now)| <= |st.limits|
  {
    SubsetSize(LiveLimits(st, now).Keys, st.limits.Keys);
    forall s | s in LiveLimits(st, now) ensures LimitLoads(s, LiveLimits(st, now)[s]) {
      assert LimitLoads(s, st.limits[s]);
    }
  }

  lemma AllowedMeansRoom(st: State, now: Time, source: ClientId, kind: Kind)
    requires DenyCreation(st, now, source, kind).None?
    ensures source in st.limits || |st.limits| < MAX_RECORDS || |LiveLimits(st, now)| < MAX_RECORDS
  {
  }

  lemma RecordedLimits(st: State, now: Time, activity: map<Id, Time>, source: ClientId, kind: Kind)
    requires |st.limits| <= MAX_RECORDS && LimitsOk(st) && DenyCreation(st, now, source, kind).None?
    ensures var next := RecordCreation(Prune(st, now, activity), now, source, kind);
            LimitsOk(next) && |next.limits| <= MAX_RECORDS
  {
    hide Prune, DenyCreation, LimitLoads, Recorded, LimitOf;
    var live := LiveLimits(st, now);
    var next := RecordCreation(Prune(st, now, activity), now, source, kind);
    LimitOfPruned(st, now, activity, source);
    LiveLimitsLoad(st, now);
    RecordedLimit(st, now, activity, source, kind);
    AllowedMeansRoom(st, now, source, kind);
    assert next.limits.Keys == live.Keys + {source};
    if source in st.limits {
      SubsetSize(next.limits.Keys, st.limits.Keys);
    }
  }

  // ----- Accounts -----

  lemma PutAccount(st: State, next: State, id: Id, a: Account)
    requires AccountsOk(st) && next.accounts == st.accounts[id := a]
    requires a.key.public && a.id == id && ValidId(id) && a.key.thumbprint == a.thumbprint
    requires |a.recentOrders| <= MAX_ACCOUNT_ORDERS && 0 < a.lastActive
    requires forall k :: k in st.accounts && k != id ==> st.accounts[k].thumbprint != a.thumbprint
    ensures AccountsOk(next) && st.accounts.Keys <= next.accounts.Keys
  {
    hide ValidId;
    forall k | k in next.accounts ensures AccountOk(next, k) {
      if k != id {
        assert AccountOk(st, k);
      }
    }
  }

  lemma PrunedThumbprint(st: State, now: Time, activity: map<Id, Time>, thumbprint: string)
    requires !HasThumbprint(st, thumbprint)
    ensures !HasThumbprint(Prune(st, now, activity), thumbprint)
    ensures Prune(st, now, activity).accounts.Keys <= st.accounts.Keys
  {
    hide Prune;
    var p := Prune(st, now, activity);
    forall id | id in p.accounts ensures id in st.accounts && p.accounts[id].thumbprint == st.accounts[id].thumbprint {
      PruneAt(st, now, activity, id);
    }
  }

  lemma NewAccountConsistent(cfg: Config, sys: System, now: Time, key: Key, source: ClientId, id: Id)
    requires Inv(cfg, sys.mem) && 0 < now && key.public && ValidId(id) && id !in sys.mem.accounts
    requires !HasThumbprint(sys.mem, key.thumbprint)
    requires DenyCreation(sys.mem, now, source, NewAccountKind).None?
    requires |Prune(sys.mem, now, sys.activity).accounts| < MAX_ACCOUNTS
    ensures Consistent(cfg, WithAccount(Prune(sys.mem, now, sys.activity), now, key, source, id))
  {
    hide Linked, AccountsOk, ValidId, DenyCreation, Prune, LimitsOk, Recorded;
    var pruned := Prune(sys.mem, now, sys.activity);
    var next := WithAccount(pruned, now, key, source, id);
    PruneEstablishes(cfg, sys.mem, now, sys.activity);
    RecordedLimits(sys.mem, now, sys.activity, source, NewAccountKind);
    PrunedThumbprint(sys.mem, now, sys.activity, key.thumbprint);
    LinkedAccounts(cfg, pruned);
    PutAccount(pruned, next, id, Account(id, key, key.thumbprint, AccountValid, now, []));
    AccountChange(cfg, pruned, next);
    LimitsFrame(RecordCreation(pruned, now, source, NewAccountKind), next);
  }

  lemma LinkedAccounts(cfg: Config, st: State)
    requires Linked(cfg, st)
    ensures AccountsOk(st)
  {
  }

  lemma LimitsFrame(st: State, next: State)
    requires LimitsOk(st) && next.limits == st.limits
    ensures LimitsOk(next)
  {
  }

  lemma PutKey(st: State, id: Id, key: Key)
    requires AccountsOk(st) && id in st.accounts && key.public && !HasThumbprint(st, key.thumbprint)
    ensures AccountsOk(WithKey(st, id, key))
  {
    hide ValidId;
    assert AccountOk(st, id);
    var next := WithKey(st, id, key);
    PutAccount(st, next, id, next.accounts[id]);
  }

  lemma NewKeyConsistent(cfg: Config, st: State, id: Id, key: Key)
    requires Inv(cfg, st) && id in st.accounts && key.public && !HasThumbprint(st, key.thumbprint)
    ensures Consistent(cfg, WithKey(st, id, key))
  {
    hide Linked, AccountsOk, LimitsOk, HasThumbprint;
    var next := WithKey(st, id, key);
    LinkedAccounts(cfg, st);
    PutKey(st, id, key);
    AccountChange(cfg, st, next);
    LimitsFrame(st, next);
    assert next.accounts.Keys == st.accounts.Keys;
  }

  /** An order whose record changes only in status, to invalid, with authorizations that still back it. */
  lemma OrderStatusChange(cfg: Config, st: State, next: State, k: Id)
    requires k in st.orders && OrderOk(cfg, st, k) && k in next.orders
    requires next.orders[k] == st.orders[k] || (st.orders[k].status != OrderValid && next.orders[k] == st.orders[k].(status := next.orders[k].status)
                                                && next.orders[k].status != OrderValid)
    requires st.accounts.Keys <= next.accounts.Keys && next.certs == st.certs
    requires forall id :: id in st.auths ==> id in next.auths && SameLink(st.auths[id], next.auths[id])
    ensures OrderOk(cfg, next, k)
  {
    hide AllowedName, ValidId, Distinct;
    forall i | 0 <= i < |st.orders[k].authIds| ensures Backs(next, next.orders[k], i) {
      assert Backs(st, st.orders[k], i);
    }
  }

  /** Two versions of an authorization record that agree on what it is for. */
  ghost predicate SameLink(a: Authorization, b: Authorization) {
    a.id == b.id && a.accountId == b.accountId && a.orderId == b.orderId && a.name == b.name && a.expires == b.expires && a.token == b.token
  }

  lemma DeactivatedOrder(cfg: Config, st: State, id: Id, k: Id)
    requires Linked(cfg, st) && id in st.accounts && k in st.orders
    ensures OrderOk(cfg, WithAccountStatus(st, id, AccountDeactivated), k)
  {
    hide OrderOk, AuthOk, CertOk, AccountOk;
    OrderStatusChange(cfg, st, WithAccountStatus(st, id, AccountDeactivated), k);
  }

  lemma DeactivatedAuth(cfg: Config, st: State, id: Id, k: Id)
    requires Linked(cfg, st) && NoDeadOrders(st) && id in st.accounts && k in st.auths
    ensures AuthOk(cfg, WithAccountStatus(st, id, AccountDeactivated), k)
  {
    hide AllowedName, ValidId, Distinct, OrderOk;
    assert AuthOk(cfg, st, k);
  }

  lemma DeactivatedCert(cfg: Config, st: State, id: Id, k: Id)
    requires Linked(cfg, st) && id in st.accounts && k in st.certs
    ensures CertOk(cfg, WithAccountStatus(st, id, AccountDeactivated), k)
  {
    hide ValidId, OrderOk, AuthOk;
    assert CertOk(cfg, st, k);
  }

  lemma SameSizes(st: State, next: State)
    requires SizesOk(st) && next.accounts.Keys == st.accounts.Keys && next.orders.Keys == st.orders.Keys
    requires next.auths.Keys == st.auths.Keys && next.certs.Keys == st.certs.Keys && next.limits == st.limits
    ensures SizesOk(next)
  {
    assert |next.accounts| == |next.accounts.Keys| && |st.accounts| == |st.accounts.Keys|;
    assert |next.orders| == |next.orders.Keys| && |st.orders| == |st.orders.Keys|;
    assert |next.auths| == |next.auths.Keys| && |st.auths| == |st.auths.Keys|;
    assert |next.certs| == |next.certs.Keys| && |st.certs| == |st.certs.Keys|;
  }

  lemma DeactivationLinked(cfg: Config, st: State, id: Id)
    requires Linked(cfg, st) && NoDeadOrders(st) && id in st.accounts
    ensures OrdersOk(cfg, WithAccountStatus(st, id, AccountDeactivated))
    ensures AuthsOk(cfg, WithAccountStatus(st, id, AccountDeactivated))
    ensures CertsOk(cfg, WithAccountStatus(st, id, AccountDeactivated))
  {
    hide OrderOk, AuthOk, CertOk, AccountsOk;
    var next := WithAccountStatus(st, id, AccountDeactivated);
    forall k | k in next.orders ensures OrderOk(cfg, next, k) {
      DeactivatedOrder(cfg, st, id, k);
    }
    forall k | k in next.auths ensures AuthOk(cfg, next, k) {
      DeactivatedAuth(cfg, st, id, k);
    }
    forall k | k in next.certs ensures CertOk(cfg, next, k) {
      DeactivatedCert(cfg, st, id, k);
    }
  }

  lemma PutAccountStatus(st: State, next: State, id: Id, status: AccountStatus)
    requires AccountsOk(st) && id in st.accounts
    requires next.accounts == st.accounts[id := st.accounts[id].(status := status)]
    ensures AccountsOk(next) && next.accounts.Keys == st.accounts.Keys
  {
    hide ValidId;
    assert AccountOk(st, id);
    PutAccount(st, next, id, next.accounts[id]);
  }

  lemma AccountStatusConsistent(cfg: Config, st: State, id: Id, status: AccountStatus)
    requires Inv(cfg, st) && id in st.accounts
    ensures Consistent(cfg, WithAccountStatus(st, id, status))
  {
    hide OrdersOk, AuthsOk, CertsOk, AccountsOk, SizesOk, LimitsOk, ValidId;
    var next := WithAccountStatus(st, id, status);
    PutAccountStatus(st, next, id, status);
    LimitsFrame(st, next);
    SameSizes(st, next);
    if status == AccountValid {
      AccountChange(cfg, st, next);
    } else {
      DeactivationLinked(cfg, st, id);
    }
  }
}
