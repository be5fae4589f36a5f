/** The inductive strengthening of the start-up check, and pruning, which restores it. */
module AcmeInvariant {
  import opened Common
  import opened Validator
  import opened Acme

  /** Everything known of an order, in a snapshot that may still hold orders about to be pruned. */
  ghost predicate OrderOk(cfg: Config, st: State, id: Id)
    requires id in st.orders
  {
    var o := st.orders[id];
    && o.id == id && ValidId(id) && 0 < o.expires
    && 1 <= |o.identifiers| <= MAX_IDENTIFIERS && |o.authIds| == |o.identifiers|
    && o.accountId in st.accounts
    && Distinct(o.identifiers)
    && (forall i :: 0 <= i < |o.identifiers| ==> AllowedName(cfg.domain, o.identifiers[i]))
    && (forall i :: 0 <= i < |o.authIds| ==> Backs(st, o, i))
    && (o.status == OrderValid ==> o.certificateId in st.certs && st.certs[o.certificateId].orderId == id && o.csr != [])
    && (o.status != OrderValid ==> o.certificateId == "")
  }

  /** The i-th authorization of an order points back at it, for the i-th name. */
  ghost predicate Backs(st: State, o: Order, i: nat)
    requires i < |o.authIds| == |o.identifiers|
  {
    && o.authIds[i] in st.auths
    && var a := st.auths[o.authIds[i]];
       a.orderId == o.id && a.accountId == o.accountId && a.name == o.identifiers[i]
  }

  ghost predicate AuthOk(cfg: Config, st: State, id: Id)
    requires id in st.auths
  {
    var a := st.auths[id];
    && a.id == id && ValidId(id) && ValidId(a.token) && 0 < a.expires && AllowedName(cfg.domain, a.name)
    && (a.status == AuthValid ==> a.validated.Some? && ProvenTarget(a.target) && a.challenge == ChallengeValid)
    && (a.challenge == ChallengeProcessing ==> a.status == AuthPending)
    && a.orderId in st.orders
    && st.orders[a.orderId].accountId == a.accountId && id in st.orders[a.orderId].authIds
    && StatusesAgree(a, st.orders[a.orderId])
  }

  /** How far an order and its authorization can be apart, unless the order is already dead. */
  ghost predicate StatusesAgree(a: Authorization, o: Order) {
    o.status != OrderInvalid ==>
      && (a.status == AuthPending ==> o.status == OrderPending && a.challenge in {ChallengePending, ChallengeProcessing})
      && (o.status in {OrderPending, OrderReady} ==> a.expires == o.expires && a.status in {AuthPending, AuthValid})
      && (o.status == OrderReady ==> a.status == AuthValid)
  }

  ghost predicate CertOk(cfg: Config, st: State, id: Id)
    requires id in st.certs
  {
    var c := st.certs[id];
    && c.id == id && ValidId(id) && c.leaf.serial == c.serial && c.leaf.notAfter == c.notAfter && !c.leaf.isCA
    && c.leaf.issuer == cfg.root && 0 < c.serial
    && (c.revokedAt.Some? ==> ValidReason(c.reason) && 0 < c.revokedAt.value)
    && c.orderId in st.orders
    && var o := st.orders[c.orderId];
       && o.accountId == c.accountId && o.certificateId == id && o.status == OrderValid && o.expires == c.notAfter
       && multiset(c.leaf.names) == multiset(o.identifiers)
  }

  ghost predicate AccountOk(st: State, id: Id)
    requires id in st.accounts
  {
    AccountLoads(st, id) && 0 < st.accounts[id].lastActive
  }

  ghost predicate DistinctKeys(st: State) {
    forall id, k :: id in st.accounts && k in st.accounts && id != k ==> st.accounts[id].thumbprint != st.accounts[k].thumbprint
  }

  ghost predicate DistinctSerials(st: State) {
    forall id, k :: id in st.certs && k in st.certs && id != k ==> st.certs[id].serial != st.certs[k].serial
  }

  ghost predicate HeaderOk(cfg: Config, st: State) {
    && st.version == 1 && st.domain == cfg.domain && st.root == cfg.root
    && 0 <= st.crlNumber <= MAX_INT64
    && (st.crl.Some? ==> st.crl.value.number == st.crlNumber && st.crl.value.nextUpdate == st.crlNextUpdate
                         && st.crl.value.issuer == cfg.root)
  }

  ghost predicate SizesOk(st: State) {
    && |st.accounts| <= MAX_ACCOUNTS && |st.orders| <= MAX_RECORDS && |st.auths| <= MAX_RECORDS && |st.certs| <= MAX_RECORDS
    && |st.limits| <= MAX_RECORDS
  }

  ghost predicate LimitsOk(st: State) {
    forall s :: s in st.limits ==> LimitLoads(s, st.limits[s])
  }

  ghost predicate AccountsOk(st: State) {
    (forall id :: id in st.accounts ==> AccountOk(st, id)) && DistinctKeys(st)
  }

  ghost predicate OrdersOk(cfg: Config, st: State) {
    forall id :: id in st.orders ==> OrderOk(cfg, st, id)
  }

  ghost predicate AuthsOk(cfg: Config, st: State) {
    forall id :: id in st.auths ==> AuthOk(cfg, st, id)
  }

  ghost predicate CertsOk(cfg: Config, st: State) {
    (forall id :: id in st.certs ==> CertOk(cfg, st, id)) && DistinctSerials(st)
  }

  /** The links between the records of a snapshot. */
  ghost predicate Linked(cfg: Config, st: State) {
    AccountsOk(st) && OrdersOk(cfg, st) && AuthsOk(cfg, st) && CertsOk(cfg, st)
  }

  ghost predicate Consistent(cfg: Config, st: State) {
    HeaderOk(cfg, st) && SizesOk(st) && LimitsOk(st) && Linked(cfg, st)
  }

  ghost predicate NoDeadOrders(st: State) {
    forall id :: id in st.orders ==> st.orders[id].status != OrderInvalid
  }

  /** What every stored snapshot satisfies. */
  ghost predicate Inv(cfg: Config, st: State) {
    Consistent(cfg, st) && NoDeadOrders(st)
  }

  lemma OrderLoadsIfOk(cfg: Config, st: State, id: Id)
    requires id in st.orders && OrderOk(cfg, st, id)
    ensures OrderLoads(cfg, st, id)
  {
    hide AllowedName, ValidId, Distinct;
    var o := st.orders[id];
    forall i | 0 <= i < |o.identifiers|
      ensures AllowedName(cfg.domain, o.identifiers[i]) && o.authIds[i] in st.auths
      ensures var a := st.auths[o.authIds[i]]; a.orderId == id && a.accountId == o.accountId && a.name == o.identifiers[i]
    {
      assert Backs(st, o, i);
    }
  }

  lemma AuthLoadsIfOk(cfg: Config, st: State, id: Id)
    requires id in st.auths && AuthOk(cfg, st, id)
    ensures AuthLoads(cfg, st, id)
  {
    hide AllowedName, ValidId;
  }

  /** The invariant implies the start-up check. */
  lemma ConsistentLoads(cfg: Config, st: State)
    requires Consistent(cfg, st)
    ensures ValidateState(cfg, st)
  {
    hide AllowedName, ValidId, OrderOk, OrderLoads, AuthOk, AuthLoads;
    forall id | id in st.orders ensures OrderLoads(cfg, st, id) {
      OrderLoadsIfOk(cfg, st, id);
    }
    forall id | id in st.auths ensures AuthLoads(cfg, st, id) {
      AuthLoadsIfOk(cfg, st, id);
    }
    forall id | id in st.certs ensures CertLoads(cfg, st, id) {
      assert CertOk(cfg, st, id);
    }
    forall id | id in st.accounts ensures AccountLoads(st, id) {
      assert AccountOk(st, id);
    }
  }

  lemma FreshOk(cfg: Config)
    ensures Inv(cfg, Fresh(cfg))
  {
  }

  // ----- Pruning -----

  /** An authorization goes exactly when its order does. */
  lemma AuthGoesWithOrder(cfg: Config, st: State, now: Time, authId: Id)
    requires OrdersOk(cfg, st) && AuthsOk(cfg, st) && authId in st.auths
    ensures AuthDropped(st, now, authId) <==> !Live(st.orders[st.auths[authId].orderId], now)
  {
    hide AllowedName, ValidId;
    assert AuthOk(cfg, st, authId);
    var orderId := st.auths[authId].orderId;
    if AuthDropped(st, now, authId) {
      var id :| id in st.orders && !Live(st.orders[id], now) && authId in st.orders[id].authIds;
      assert OrderOk(cfg, st, id);
      var i :| 0 <= i < |st.orders[id].authIds| && st.orders[id].authIds[i] == authId;
      assert Backs(st, st.orders[id], i);
    }
  }

  /** A certificate goes exactly when its order does. */
  lemma CertGoesWithOrder(cfg: Config, st: State, now: Time, certId: Id)
    requires OrdersOk(cfg, st) && CertsOk(cfg, st) && certId in st.certs
    ensures CertDropped(st, now, certId) <==> !Live(st.orders[st.certs[certId].orderId], now)
  {
    hide AllowedName, Backs;
    assert CertOk(cfg, st, certId);
    if CertDropped(st, now, certId) {
      var id :| id in st.orders && !Live(st.orders[id], now) && st.orders[id].certificateId == certId;
      assert OrderOk(cfg, st, id);
      assert |certId| == 32;
    }
  }

  /** Pruning, one identifier at a time. */
  lemma PruneAt(st: State, now: Time, activity: map<Id, Time>, id: Id)
    ensures var p := Prune(st, now, activity);
            && (id in p.orders <==> id in st.orders && Live(st.orders[id], now))
            && (id in p.orders ==> p.orders[id] == st.orders[id])
            && (id in p.auths <==> id in st.auths && !AuthDropped(st, now, id))
            && (id in p.auths ==> p.auths[id] == st.auths[id])
            && (id in p.certs <==> id in st.certs && !CertDropped(st, now, id))
            && (id in p.certs ==> p.certs[id] == st.certs[id])
            && (id in st.accounts && Referenced(st, now, id) ==> id in p.accounts)
            && (id in p.accounts ==>
                  && id in st.accounts && p.accounts[id].thumbprint == st.accounts[id].thumbprint
                  && p.accounts[id].status == st.accounts[id].status)
  {
    hide AuthDropped, CertDropped, Recent, LiveLimits, Referenced;
  }

  lemma PruneOrder(cfg: Config, st: State, now: Time, activity: map<Id, Time>, id: Id)
    requires Linked(cfg, st) && id in Prune(st, now, activity).orders
    ensures OrderOk(cfg, Prune(st, now, activity), id)
  {
    hide AllowedName, ValidId, AuthDropped, CertDropped, Prune, AccountOk, Distinct, CertOk, AuthOk;
    var p := Prune(st, now, activity);
    PruneAt(st, now, activity, id);
    var o := st.orders[id];
    assert OrderOk(cfg, st, id);
    assert Referenced(st, now, o.accountId);
    PruneAt(st, now, activity, o.accountId);
    forall i | 0 <= i < |o.authIds| ensures Backs(p, o, i) {
      assert Backs(st, o, i);
      AuthGoesWithOrder(cfg, st, now, o.authIds[i]);
      PruneAt(st, now, activity, o.authIds[i]);
    }
    if o.status == OrderValid {
      CertGoesWithOrder(cfg, st, now, o.certificateId);
      PruneAt(st, now, activity, o.certificateId);
    }
  }

  lemma PruneAuth(cfg: Config, st: State, now: Time, activity: map<Id, Time>, id: Id)
    requires Linked(cfg, st) && id in Prune(st, now, activity).auths
    ensures AuthOk(cfg, Prune(st, now, activity), id)
  {
    hide AllowedName, ValidId, AuthDropped, CertDropped, Recent, LiveLimits, StatusesAgree;
    assert AuthOk(cfg, st, id);
    AuthGoesWithOrder(cfg, st, now, id);
  }

  lemma PruneCert(cfg: Config, st: State, now: Time, activity: map<Id, Time>, id: Id)
    requires Linked(cfg, st) && id in Prune(st, now, activity).certs
    ensures CertOk(cfg, Prune(st, now, activity), id)
  {
    hide ValidId, AuthDropped, CertDropped, Recent, LiveLimits;
    assert CertOk(cfg, st, id);
    CertGoesWithOrder(cfg, st, now, id);
  }

  lemma PruneAccounts(st: State, now: Time, activity: map<Id, Time>)
    requires AccountsOk(st)
    ensures AccountsOk(Prune(st, now, activity))
  {
    hide ValidId, AuthDropped, CertDropped, Recent, LiveLimits;
    var p := Prune(st, now, activity);
    forall id | id in p.accounts ensures AccountOk(p, id) {
      assert AccountOk(st, id);
    }
  }

  lemma PruneSizes(st: State, now: Time, activity: map<Id, Time>)
    requires SizesOk(st) && LimitsOk(st)
    ensures SizesOk(Prune(st, now, activity)) && LimitsOk(Prune(st, now, activity))
    ensures |Prune(st, now, activity).auths| <= |st.auths| && |Prune(st, now, activity).orders| <= |st.orders|
  {
    hide AuthDropped, CertDropped, AccountDropped;
    var p := Prune(st, now, activity);
    SubsetSize(p.accounts.Keys, st.accounts.Keys);
    SubsetSize(p.orders.Keys, st.orders.Keys);
    SubsetSize(p.auths.Keys, st.auths.Keys);
    SubsetSize(p.certs.Keys, st.certs.Keys);
    SubsetSize(p.limits.Keys, st.limits.Keys);
    forall s | s in p.limits ensures LimitLoads(s, p.limits[s]) {
      assert LimitLoads(s, st.limits[s]);
    }
  }

  /** Pruning keeps a snapshot consistent and leaves no dead order behind, so every snapshot that
      is ever stored satisfies the invariant. */
  lemma PruneEstablishes(cfg: Config, st: State, now: Time, activity: map<Id, Time>)
    requires Consistent(cfg, st)
    ensures Inv(cfg, Prune(st, now, activity))
  {
    hide OrderOk, AuthOk, CertOk, AccountsOk, DistinctKeys, SizesOk, LimitsOk, Recent, LiveLimits, AuthDropped, CertDropped, AccountDropped;
    var p := Prune(st, now, activity);
    PruneAccounts(st, now, activity);
    PruneSizes(st, now, activity);
    forall id | id in p.orders ensures OrderOk(cfg, p, id) {
      PruneOrder(cfg, st, now, activity, id);
    }
    forall id | id in p.auths ensures AuthOk(cfg, p, id) {
      PruneAuth(cfg, st, now, activity, id);
    }
    forall id | id in p.certs ensures CertOk(cfg, p, id) {
      PruneCert(cfg, st, now, activity, id);
    }
    assert DistinctSerials(p);
  }
}
