/** The life of an order over whole runs: it is issued for at most once. */
module AcmeOrders {
  import opened Common
  import opened Validator
  import opened Acme
  import opened AcmeInvariant
  import opened AcmeOrderUpdates
  import opened AcmeSteps
  import opened AcmeRuns
  import opened AcmeIssuance

  /** The step stores a new order under this identifier. */
  ghost predicate Opens(cfg: Config, before: System, e: Event, orderId: Id) {
    e.NewOrderCall? && e.ids.order == orderId && Prepared(cfg, before, e).Some? && Renamed(e)
  }

  /** The order is finished: it has its certificate, or is gone. */
  predicate Settled(st: State, orderId: Id) {
    orderId in st.orders ==> st.orders[orderId].status == OrderValid
  }

  predicate SettledOnDisk(sys: System, orderId: Id) {
    sys.disk.Some? ==> Settled(sys.disk.value, orderId)
  }

  lemma PrunedSettled(st: State, now: Time, activity: map<Id, Time>, orderId: Id)
    requires Settled(st, orderId)
    ensures Settled(Prune(st, now, activity), orderId)
  {
    hide Prune;
    PruneAt(st, now, activity, orderId);
  }

  lemma FinishedSettled(cfg: Config, st: State, now: Time, req: Request, authId: Id, proof: Option<Target>, orderId: Id)
    requires Inv(cfg, st) && authId in st.auths && st.auths[authId].orderId in st.orders && st.auths[authId].status == AuthPending
    requires Settled(st, orderId)
    ensures Settled(Finished(st, now, req, authId, proof), orderId)
  {
    hide Inv, IsActive, AllValid, RolledOver;
    OrderOfAuth(cfg, st, authId);
  }

  lemma OrderOfAuth(cfg: Config, st: State, authId: Id)
    requires Inv(cfg, st) && authId in st.auths
    ensures st.auths[authId].orderId in st.orders
    ensures var o := st.orders[st.auths[authId].orderId];
            o.id == st.auths[authId].orderId && (st.auths[authId].status == AuthPending ==> o.status == OrderPending)
  {
    hide Inv;
    InvFacts(cfg, st);
    assert AuthFact(st, authId);
  }

  lemma SameOrders(st: State, next: State, orderId: Id)
    requires Settled(st, orderId) && (orderId in next.orders ==> orderId in st.orders && next.orders[orderId] == st.orders[orderId])
    ensures Settled(next, orderId)
  {
  }

  lemma AccountStatusSettled(st: State, id: Id, status: AccountStatus, orderId: Id)
    requires id in st.accounts && Settled(st, orderId)
    ensures Settled(WithAccountStatus(st, id, status), orderId)
  {
  }

  lemma AuthDeactivationSettled(cfg: Config, st: State, authId: Id, orderId: Id)
    requires Inv(cfg, st) && authId in st.auths && Settled(st, orderId)
    ensures Settled(WithAuthDeactivated(st, authId), orderId)
  {
    hide Inv;
    OrderOfAuth(cfg, st, authId);
  }

  lemma FinalizeSettled(st: State, k: Id, csr: seq<int>, signing: Signing, certId: Id, orderId: Id)
    requires k in st.orders && st.orders[k].status == OrderReady && Settled(st, orderId)
    ensures Settled(st.(orders := st.orders[k := st.orders[k].(status := OrderInvalid)]), orderId)
    ensures signing.Signed? ==> Settled(WithCertificate(st, k, signing.leaf, certId, csr), orderId)
  {
  }

  /** No step but a new order can unsettle an order. */
  lemma PreparedSettled(cfg: Config, before: System, e: Event, orderId: Id)
    requires SystemInv(cfg, before) && Enabled(cfg, before, e) && Prepared(cfg, before, e).Some?
    requires Settled(Base(cfg, before, e), orderId) && !(e.NewOrderCall? && e.ids.order == orderId)
    ensures Settled(Prepared(cfg, before, e).value, orderId)
  {
    hide Prune, DenyCreation, HasThumbprint, OrderCapacityReached, CanStart, StillProven, CanRevoke, CrlStale,
         ValidateState, Recover, Fresh, AcceptableNames, SigningContract, ValidReason, FreshId, ValidId, Distinct, Finished,
         SystemInv, Inv, Consistent, RevokedEntries, EntriesAccepted, Recorded, WithAuths, AllValid, RolledOver, Settled,
         WithAccountStatus, WithAuthDeactivated, WithCertificate;
    var st := Base(cfg, before, e);
    BaseOk(cfg, before, e);
    match e
    case NewAccountCall(now, _, _, _, _, _) =>
      PrunedSettled(st, now, before.activity, orderId);
      SameOrders(Prune(st, now, before.activity), Prepared(cfg, before, e).value, orderId);
    case NewOrderCall(now, req, _, _, _, _, _, _) =>
      PrunedSettled(st, now, ActivityAt(before, req.accountId, now), orderId);
      SameOrders(Prune(st, now, ActivityAt(before, req.accountId, now)), Prepared(cfg, before, e).value, orderId);
    case FinishCall(now, authId, proof, _) => FinishedSettled(cfg, st, now, before.inflight[authId], authId, proof, orderId);
    case DeactivateAuthCall(_, _, authId, _) => AuthDeactivationSettled(cfg, st, authId, orderId);
    case FinalizeCall(_, _, k, csr, _, signing, certId, _) => FinalizeSettled(st, k, csr, signing, certId, orderId);
    case UpdateAccountCall(_, req, _, status, _) =>
      AccountStatusSettled(st, req.accountId, if status.Some? then status.value else AccountValid, orderId);
    case KeyChangeCall(_, _, _, _) => SameOrders(st, Prepared(cfg, before, e).value, orderId);
    case StartCall(_, _, _, _, _) => SameOrders(st, Prepared(cfg, before, e).value, orderId);
    case RevokeCall(_, _, _, _, _, _, _) => SameOrders(st, Prepared(cfg, before, e).value, orderId);
    case CrlCall(_, _, _) => SameOrders(st, Prepared(cfg, before, e).value, orderId);
    case RestartCall(_, _) =>
  }

  lemma StepKeepsSettled(cfg: Config, before: System, e: Event, orderId: Id)
    requires SystemInv(cfg, before) && Enabled(cfg, before, e)
    requires SettledOnDisk(before, orderId) && !Opens(cfg, before, e, orderId)
    ensures SettledOnDisk(Step(cfg, before, e).0, orderId)
  {
    hide SystemInv, Step, Prepared, Prune, Enabled, Base;
    StepStores(cfg, before, e);
    var prepared := Prepared(cfg, before, e);
    if prepared.Some? && Renamed(e) {
      var activity :| Step(cfg, before, e).0.disk == Some(Prune(prepared.value, e.now, activity));
      BaseIsStored(cfg, before, e);
      BaseSettled(cfg, before, e, orderId);
      PreparedSettled(cfg, before, e, orderId);
      PrunedSettled(prepared.value, e.now, activity, orderId);
    }
  }

  lemma BaseSettled(cfg: Config, before: System, e: Event, orderId: Id)
    requires SystemInv(cfg, before) && Enabled(cfg, before, e) && !e.CrashEvent?
    ensures Settled(Base(cfg, before, e), orderId) == SettledOnDisk(before, orderId)
  {
    BaseIsStored(cfg, before, e);
    hide SystemInv, Recover, AcceptableNames, SigningContract, Base, Enabled;
  }

  lemma IssuedSettles(cfg: Config, before: System, e: Event, c: Certificate)
    requires SystemInv(cfg, before) && Enabled(cfg, before, e) && IssuedBy(before, e, c.id, c)
    ensures SettledOnDisk(Step(cfg, before, e).0, c.orderId)
    ensures !SettledOnDisk(before, c.orderId)
  {
    hide SystemInv, Step, Prepared, Prune, Enabled, Base, IssuedBy, Settled;
    IssuedPrepares(cfg, before, e, c);
    BaseSettled(cfg, before, e, c.orderId);
    StepStores(cfg, before, e);
    var prepared := Prepared(cfg, before, e).value;
    var activity :| Step(cfg, before, e).0.disk == Some(Prune(prepared, e.now, activity));
    PrunedSettled(prepared, e.now, activity, c.orderId);
  }

  lemma IssuedPrepares(cfg: Config, before: System, e: Event, c: Certificate)
    requires SystemInv(cfg, before) && Enabled(cfg, before, e) && IssuedBy(before, e, c.id, c)
    ensures e.FinalizeCall? && Renamed(e) && !Settled(Base(cfg, before, e), c.orderId)
    ensures Prepared(cfg, before, e).Some? && Settled(Prepared(cfg, before, e).value, c.orderId)
  {
    hide SystemInv, Recover, AcceptableNames, SigningContract, IsActive, FreshId;
    var o := before.mem.orders[e.orderId];
    forall i | 0 <= i < |o.authIds| ensures StillProven(before.mem, e.now, e.owners, o.authIds[i]) {
      assert Authorizes(before.mem, e, o, i);
    }
    hide Authorizes, StillProven;
  }

  lemma {:induction false} StaysSettled(cfg: Config, states: seq<System>, events: seq<Event>, i: nat, j: nat, orderId: Id)
    requires IsRun(cfg, states, events) && i <= j < |states| && SettledOnDisk(states[i], orderId)
    requires forall m :: i <= m < j ==> !Opens(cfg, states[m], events[m], orderId)
    ensures SettledOnDisk(states[j], orderId)
    decreases j - i
  {
    hide SystemInv, Step, Enabled, Opens, SettledOnDisk;
    if i < j {
      assert StepAt(cfg, states, events, i);
      RunKeeps(cfg, states, events, i);
      StepKeepsSettled(cfg, states[i], events[i], orderId);
      StaysSettled(cfg, states, events, i + 1, j, orderId);
    }
  }

  /** One certificate per order, in every run: between two issuances for the same order identifier,
      a new order was opened under it. */
  lemma OneCertificatePerOrder(cfg: Config, states: seq<System>, events: seq<Event>, i: nat, j: nat, c: Certificate, d: Certificate)
    requires IsRun(cfg, states, events) && i < j < |events| && c.orderId == d.orderId
    requires IssuedBy(states[i], events[i], c.id, c) && IssuedBy(states[j], events[j], d.id, d)
    ensures exists m :: i < m < j && Opens(cfg, states[m], events[m], c.orderId)
  {
    hide SystemInv, Step, Enabled, Opens, SettledOnDisk, IssuedBy;
    assert StepAt(cfg, states, events, i) && StepAt(cfg, states, events, j);
    RunKeeps(cfg, states, events, i);
    RunKeeps(cfg, states, events, j);
    IssuedSettles(cfg, states[i], events[i], c);
    IssuedSettles(cfg, states[j], events[j], d);
    if forall m :: i < m < j ==> !Opens(cfg, states[m], events[m], c.orderId) {
      StaysSettled(cfg, states, events, i + 1, j, c.orderId);
    }
  }

  // ----- Issued means recorded -----

  /** The converse of issuance safety: a finalization that meets all the conditions puts the authority's
      leaf on record, unrevoked, if it has not expired already. */
  lemma IssuedIsRecorded(cfg: Config, before: System, e: Event, c: Certificate)
    requires SystemInv(cfg, before) && Enabled(cfg, before, e) && IssuedBy(before, e, c.id, c) && e.now < c.leaf.notAfter
    requires c.serial == c.leaf.serial && c.notAfter == c.leaf.notAfter && c.revokedAt == None && c.reason == 0
    ensures var after := Step(cfg, before, e).0;
            after.disk.Some? && c.id in after.disk.value.certs && after.disk.value.certs[c.id] == c
  {
    hide SystemInv, Step, Prepared, Prune, Enabled, Base, IssuedBy, WithCertificate, Consistent;
    IssuedPrepares(cfg, before, e, c);
    StepStores(cfg, before, e);
    var prepared := Prepared(cfg, before, e).value;
    var activity :| Step(cfg, before, e).0.disk == Some(Prune(prepared, e.now, activity));
    IssuedSnapshot(cfg, before, e, c);
    PreparedConsistent(cfg, before, e);
    RecordStays(cfg, prepared, e.now, activity, c.id);
  }

  lemma IssuedSnapshot(cfg: Config, before: System, e: Event, c: Certificate)
    requires Prepared(cfg, before, e).Some? && IssuedBy(before, e, c.id, c) && e.now < c.leaf.notAfter
    requires c.serial == c.leaf.serial && c.notAfter == c.leaf.notAfter && c.revokedAt == None && c.reason == 0
    ensures var next := Prepared(cfg, before, e).value;
            && c.id in next.certs && next.certs[c.id] == c && c.orderId in next.orders && Live(next.orders[c.orderId], e.now)
  {
    hide Prepared, IsActive, Base;
    FinalizeForm(cfg, before, e);
    var o := before.mem.orders[e.orderId];
    forall i | 0 <= i < |o.authIds| ensures StillProven(before.mem, e.now, e.owners, o.authIds[i]) {
      assert Authorizes(before.mem, e, o, i);
    }
    hide Authorizes, StillProven;
  }

  lemma RecordStays(cfg: Config, st: State, now: Time, activity: map<Id, Time>, id: Id)
    requires Consistent(cfg, st) && id in st.certs && st.certs[id].orderId in st.orders && Live(st.orders[st.certs[id].orderId], now)
    ensures var p := Prune(st, now, activity); id in p.certs && p.certs[id] == st.certs[id]
  {
    hide Prune, OrdersOk, AuthsOk, CertsOk, AccountsOk;
    CertGoesWithOrder(cfg, st, now, id);
    PruneAt(st, now, activity, id);
  }
}
