/** Whole runs of the certificate service: every stored snapshot loads again, and what a step
    stores is described by the snapshot it prepared. */
module AcmeRuns {
  import opened Common
  import opened Acme
  import opened AcmeInvariant
  import opened AcmeUpdates
  import opened AcmeOrderUpdates
  import opened AcmeSteps

  lemma PristineOk(cfg: Config)
    ensures SystemInv(cfg, Pristine(cfg))
  {
  }

  lemma {:induction false} RunKeeps(cfg: Config, states: seq<System>, events: seq<Event>, k: nat)
    requires IsRun(cfg, states, events) && k < |states|
    ensures SystemInv(cfg, states[k])
  {
    hide SystemInv, Step, Enabled;
    if k == 0 {
      PristineOk(cfg);
    } else {
      RunKeeps(cfg, states, events, k - 1);
      assert StepAt(cfg, states, events, k - 1);
      StepKeeps(cfg, states[k - 1], events[k - 1]);
    }
  }

  /** In every run, with handlers interleaved with outbound validations in any way, any writes
      failing, crashes and restarts: the state file passes the start-up check, so a restart never
      refuses it, and so does the snapshot in memory. */
  lemma EverySnapshotLoads(cfg: Config, states: seq<System>, events: seq<Event>, k: nat)
    requires IsRun(cfg, states, events) && k < |states|
    ensures states[k].disk.Some? ==> ValidateState(cfg, states[k].disk.value)
    ensures states[k].up ==> states[k].disk.Some? && ValidateState(cfg, states[k].mem)
    ensures forall now, outcome :: Restart(cfg, states[k], now, outcome).1 != Refused
  {
    hide Step, Enabled, Consistent, ValidateState, Restart, IsRun;
    RunKeeps(cfg, states, events, k);
    if states[k].disk.Some? {
      ConsistentLoads(cfg, states[k].disk.value);
    }
    if states[k].up {
      ConsistentLoads(cfg, states[k].mem);
    }
    forall now, outcome ensures Restart(cfg, states[k], now, outcome).1 != Refused {
      RestartKeeps(cfg, states[k], now, outcome);
    }
  }

  /** In every reachable state of a running server: an authorization is processing exactly while one
      validation of it is out, its order is then pending, a ready order has only valid
      authorizations, and no invalid order is kept. */
  lemma ReachableOrders(cfg: Config, states: seq<System>, events: seq<Event>, k: nat)
    requires IsRun(cfg, states, events) && k < |states| && states[k].up
    ensures var st := states[k].mem;
            && |states[k].inflight| <= MAX_VALIDATIONS
            && (forall id :: id in st.auths ==> (st.auths[id].challenge == ChallengeProcessing <==> id in states[k].inflight))
            && (forall id :: id in st.auths ==> st.auths[id].orderId in st.orders && id in st.orders[st.auths[id].orderId].authIds)
            && (forall id :: id in st.auths && st.auths[id].status == AuthPending ==> st.orders[st.auths[id].orderId].status == OrderPending)
            && (forall id :: id in st.auths && st.orders[st.auths[id].orderId].status == OrderReady ==> st.auths[id].status == AuthValid)
            && (forall id :: id in st.orders ==> st.orders[id].status != OrderInvalid)
  {
    hide Step, Enabled, Inv, IsRun, Recover;
    RunKeeps(cfg, states, events, k);
    var st := states[k].mem;
    InvFacts(cfg, st);
    forall id | id in st.auths
      ensures st.auths[id].challenge == ChallengeProcessing <==> id in states[k].inflight
      ensures st.auths[id].orderId in st.orders && id in st.orders[st.auths[id].orderId].authIds
      ensures st.auths[id].status == AuthPending ==> st.orders[st.auths[id].orderId].status == OrderPending
      ensures st.orders[st.auths[id].orderId].status == OrderReady ==> st.auths[id].status == AuthValid
    {
      assert FlightMatches(st.auths[id], states[k].inflight, id);
      assert AuthFact(st, id);
    }
  }

  /** In every reachable state each certificate belongs to exactly one order, which is valid, names it and
      asked for exactly its names; and serial numbers are unique. */
  lemma ReachableCertificates(cfg: Config, states: seq<System>, events: seq<Event>, k: nat)
    requires IsRun(cfg, states, events) && k < |states| && states[k].disk.Some?
    ensures var st := states[k].disk.value;
            && (forall id :: id in st.certs ==> st.certs[id].orderId in st.orders)
            && (forall id :: id in st.certs ==>
                  var o := st.orders[st.certs[id].orderId];
                  o.status == OrderValid && o.certificateId == id && multiset(st.certs[id].leaf.names) == multiset(o.identifiers))
            && (forall id, d :: id in st.certs && d in st.certs && id != d ==>
                  st.certs[id].orderId != st.certs[d].orderId && st.certs[id].serial != st.certs[d].serial)
  {
    hide Step, Enabled, IsRun, Recover, OrdersOk, AuthsOk, AccountsOk, HeaderOk, LimitsOk, Running;
    RunKeeps(cfg, states, events, k);
    var st := states[k].disk.value;
    forall id | id in st.certs
      ensures st.certs[id].orderId in st.orders
      ensures var o := st.orders[st.certs[id].orderId];
              o.status == OrderValid && o.certificateId == id && multiset(st.certs[id].leaf.names) == multiset(o.identifiers)
    {
      assert CertOk(cfg, st, id);
    }
  }

  // ----- What a step stores -----

  /** The snapshot a step starts from: memory, or the file at start-up. */
  function Base(cfg: Config, before: System, e: Event): State {
    if !e.RestartCall? then before.mem
    else if before.disk.None? then Fresh(cfg)
    else Recover(before.disk.value)
  }

  function ActivityAt(before: System, id: Id, now: Time): map<Id, Time> {
    before.activity[id := now]
  }

  /** The snapshot a step attempts to store, before its final pruning; None if it attempts none. */
  ghost function Prepared(cfg: Config, before: System, e: Event): Option<State> {
    var st := Base(cfg, before, e);
    match e
    case NewAccountCall(now, key, source, onlyExisting, id, _) =>
      var pruned := Prune(st, now, before.activity);
      if HasThumbprint(st, key.thumbprint) || onlyExisting || DenyCreation(st, now, source, NewAccountKind).Some?
         || |pruned.accounts| >= MAX_ACCOUNTS then None
      else Some(WithAccount(pruned, now, key, source, id))
    case UpdateAccountCall(_, req, contact, status, _) =>
      if !IsActive(st, req) || (!contact && status.None?) then None
      else Some(WithAccountStatus(st, req.accountId, if status.Some? then status.value else AccountValid))
    case KeyChangeCall(_, req, key, _) =>
      if key.thumbprint == req.key.thumbprint || !IsActive(st, req) || HasThumbprint(st, key.thumbprint) then None
      else Some(WithKey(st, req.accountId, key))
    case NewOrderCall(now, req, source, _, names, _, ids, _) =>
      var pruned := Prune(st, now, ActivityAt(before, req.accountId, now));
      if !IsActive(st, req) || DenyCreation(st, now, source, NewOrderKind).Some? || req.accountId !in pruned.accounts
         || OrderCapacityReached(pruned, req.accountId, |names|) || !(|ids.auths| == |ids.tokens| == |names|) then None
      else
        var order := Order(ids.order, req.accountId, OrderPending, now + ORDER_LIFETIME, names, ids.auths, "", []);
        Some(WithOrder(pruned, now, source, order, ids.tokens))
    case ReadCall(_, _) => None
    case DeactivateAuthCall(_, req, authId, _) =>
      if !IsActive(st, req) || !OwnsAuth(st, req, authId) then None else Some(WithAuthDeactivated(st, authId))
    case StartCall(now, req, authId, acknowledged, _) =>
      if !IsActive(st, req) || !OwnsAuth(st, req, authId) || !acknowledged || st.auths[authId].challenge == ChallengeProcessing
         || st.auths[authId].status == AuthValid || !CanStart(st, now, authId) || |before.inflight| >= MAX_VALIDATIONS then None
      else Some(WithChallenge(st, authId, ChallengeProcessing))
    case FinishCall(now, authId, proof, _) =>
      if authId !in before.inflight || authId !in st.auths || st.auths[authId].status != AuthPending
         || st.auths[authId].challenge != ChallengeProcessing || st.auths[authId].orderId !in st.orders then None
      else Some(Finished(st, now, before.inflight[authId], authId, proof))
    case FinalizeCall(now, req, orderId, csr, owners, signing, certId, _) =>
      if csr == [] || !IsActive(st, req) || orderId !in st.orders || st.orders[orderId].accountId != req.accountId
         || st.orders[orderId].status != OrderReady || st.orders[orderId].expires <= now || |st.certs| >= MAX_RECORDS then None
      else if exists i :: 0 <= i < |st.orders[orderId].authIds| && !StillProven(st, now, owners, st.orders[orderId].authIds[i]) then
        Some(st.(orders := st.orders[orderId := st.orders[orderId].(status := OrderInvalid)]))
      else if !signing.Signed? then None
      else Some(WithCertificate(st, orderId, signing.leaf, certId, csr))
    case RevokeCall(now, revoker, leaf, reason, owners, nextUpdate, _) =>
      if !ValidReason(reason) || !exists id :: IsRecorded(st, leaf, id) then None
      else
        var id := RecordedId(st, leaf);
        if !CanRevoke(st, now, owners, revoker, st.certs[id]) || st.certs[id].revokedAt.Some? then None
        else RefreshCrl(WithRevocation(st, id, now, reason), now, nextUpdate)
    case CrlCall(now, nextUpdate, _) => if CrlStale(st, now) then RefreshCrl(st, now, nextUpdate) else None
    case CrashEvent(_) => None
    case RestartCall(_, _) => if before.disk.Some? && !ValidateState(cfg, before.disk.value) then None else Some(st)
  }

  // ----- The form of a prepared snapshot, one kind of step at a time -----

  lemma NewAccountForm(cfg: Config, before: System, e: Event)
    requires e.NewAccountCall? && Prepared(cfg, before, e).Some?
    ensures var pruned := Prune(before.mem, e.now, before.activity);
            && Prepared(cfg, before, e).value == WithAccount(pruned, e.now, e.key, e.source, e.id)
            && Base(cfg, before, e) == before.mem && !HasThumbprint(before.mem, e.key.thumbprint)
            && DenyCreation(before.mem, e.now, e.source, NewAccountKind).None? && |pruned.accounts| < MAX_ACCOUNTS
  {
    hide Prune, WithAccount, DenyCreation, HasThumbprint;
  }

  lemma UpdateForm(cfg: Config, before: System, e: Event)
    requires e.UpdateAccountCall? && Prepared(cfg, before, e).Some?
    ensures e.req.accountId in before.mem.accounts && Base(cfg, before, e) == before.mem
    ensures Prepared(cfg, before, e).value ==
              WithAccountStatus(before.mem, e.req.accountId, if e.status.Some? then e.status.value else AccountValid)
  {
    hide WithAccountStatus;
  }

  lemma KeyChangeForm(cfg: Config, before: System, e: Event)
    requires e.KeyChangeCall? && Prepared(cfg, before, e).Some?
    ensures e.req.accountId in before.mem.accounts && Base(cfg, before, e) == before.mem && !HasThumbprint(before.mem, e.key.thumbprint)
    ensures Prepared(cfg, before, e).value == WithKey(before.mem, e.req.accountId, e.key)
  {
    hide WithKey, HasThumbprint;
  }

  function OrderFor(e: Event): Order
    requires e.NewOrderCall?
  {
    Order(e.ids.order, e.req.accountId, OrderPending, e.now + ORDER_LIFETIME, e.names, e.ids.auths, "", [])
  }

  lemma NewOrderForm(cfg: Config, before: System, e: Event)
    requires e.NewOrderCall? && Prepared(cfg, before, e).Some?
    ensures Base(cfg, before, e) == before.mem && |e.ids.auths| == |e.ids.tokens| == |e.names|
    ensures var pruned := Prune(before.mem, e.now, ActivityAt(before, e.req.accountId, e.now));
            && e.req.accountId in pruned.accounts && !OrderCapacityReached(pruned, e.req.accountId, |e.names|)
            && DenyCreation(before.mem, e.now, e.source, NewOrderKind).None?
            && Prepared(cfg, before, e).value == WithOrder(pruned, e.now, e.source, OrderFor(e), e.ids.tokens)
  {
    hide Prune, WithOrder, DenyCreation, OrderCapacityReached;
  }

  lemma DeactivationForm(cfg: Config, before: System, e: Event)
    requires e.DeactivateAuthCall? && Prepared(cfg, before, e).Some?
    ensures e.authId in before.mem.auths && Base(cfg, before, e) == before.mem
    ensures Prepared(cfg, before, e).value == WithAuthDeactivated(before.mem, e.authId)
  {
    hide WithAuthDeactivated, IsActive;
  }

  lemma StartForm(cfg: Config, before: System, e: Event)
    requires e.StartCall? && Prepared(cfg, before, e).Some?
    ensures e.authId in before.mem.auths && CanStart(before.mem, e.now, e.authId) && Base(cfg, before, e) == before.mem
    ensures Prepared(cfg, before, e).value == WithChallenge(before.mem, e.authId, ChallengeProcessing)
  {
    hide WithChallenge, IsActive, CanStart;
  }

  lemma FinishForm(cfg: Config, before: System, e: Event)
    requires e.FinishCall? && Prepared(cfg, before, e).Some?
    ensures && e.authId in before.inflight && e.authId in before.mem.auths && Base(cfg, before, e) == before.mem
            && before.mem.auths[e.authId].status == AuthPending && before.mem.auths[e.authId].orderId in before.mem.orders
            && before.mem.auths[e.authId].challenge == ChallengeProcessing
    ensures Prepared(cfg, before, e).value == Finished(before.mem, e.now, before.inflight[e.authId], e.authId, e.proof)
  {
    hide Finished;
  }

  /** Either the order is given up, or every authorization still stands and the authority signed. */
  lemma FinalizeForm(cfg: Config, before: System, e: Event)
    requires e.FinalizeCall? && Prepared(cfg, before, e).Some?
    ensures e.orderId in before.mem.orders && Base(cfg, before, e) == before.mem
    ensures var st := before.mem;
            var o := st.orders[e.orderId];
            && IsActive(st, e.req) && o.accountId == e.req.accountId && o.status == OrderReady && e.now < o.expires
            && e.csr != [] && |st.certs| < MAX_RECORDS
            && if exists i :: 0 <= i < |o.authIds| && !StillProven(st, e.now, e.owners, o.authIds[i]) then
                 Prepared(cfg, before, e).value == st.(orders := st.orders[e.orderId := o.(status := OrderInvalid)])
               else e.signing.Signed? && Prepared(cfg, before, e).value == WithCertificate(st, e.orderId, e.signing.leaf, e.certId, e.csr)
  {
    hide WithCertificate, IsActive, StillProven;
  }

  lemma RevokeForm(cfg: Config, before: System, e: Event)
    requires e.RevokeCall? && Prepared(cfg, before, e).Some?
    ensures exists id :: IsRecorded(before.mem, e.leaf, id)
    ensures var id := RecordedId(before.mem, e.leaf);
            && Base(cfg, before, e) == before.mem && id in before.mem.certs && before.mem.certs[id].revokedAt.None? && ValidReason(e.reason)
            && Prepared(cfg, before, e) == RefreshCrl(WithRevocation(before.mem, id, e.now, e.reason), e.now, e.nextUpdate)
  {
    hide RefreshCrl, WithRevocation, CanRevoke, ValidReason;
  }

  lemma CrlForm(cfg: Config, before: System, e: Event)
    requires e.CrlCall? && Prepared(cfg, before, e).Some?
    ensures Base(cfg, before, e) == before.mem && Prepared(cfg, before, e) == RefreshCrl(before.mem, e.now, e.nextUpdate)
  {
    hide RefreshCrl, CrlStale;
  }

  lemma RestartForm(cfg: Config, before: System, e: Event)
    requires e.RestartCall? && Prepared(cfg, before, e).Some?
    ensures Prepared(cfg, before, e).value == Base(cfg, before, e)
  {
    hide ValidateState, Recover, Fresh;
  }

  lemma NothingPrepared(cfg: Config, before: System, e: Event)
    ensures e.ReadCall? || e.CrashEvent? ==> Prepared(cfg, before, e).None?
  {
  }

  predicate Renamed(e: Event) {
    !e.ReadCall? && !e.CrashEvent? && !e.outcome.NotRenamed?
  }

  /** The file after a step, by what the step prepared. */
  ghost predicate Stores(cfg: Config, before: System, e: Event, after: System) {
    var prepared := Prepared(cfg, before, e);
    && after.clock == e.now
    && if prepared.Some? && Renamed(e) then exists activity :: after.disk == Some(Prune(prepared.value, e.now, activity))
       else after.disk == before.disk
  }

  lemma CommitStores(sys: System, next: State, now: Time, outcome: Outcome)
    ensures var after := Commit(sys, next, now, outcome);
            && after.clock == sys.clock
            && if outcome.NotRenamed? then after.disk == sys.disk else exists activity :: after.disk == Some(Prune(next, now, activity))
  {
    hide Prune;
  }

  lemma AccountStepStores(cfg: Config, before: System, e: Event)
    requires Enabled(cfg, before, e) && (e.NewAccountCall? || e.UpdateAccountCall? || e.KeyChangeCall?)
    ensures Stores(cfg, before, e, Step(cfg, before, e).0)
  {
    hide Prune, DenyCreation, HasThumbprint, IsActive, WithAccount, WithAccountStatus, WithKey, FreshId, ValidId, RetrySeconds;
  }

  lemma OrderStepStores(cfg: Config, before: System, e: Event)
    requires Enabled(cfg, before, e) && e.NewOrderCall?
    ensures Stores(cfg, before, e, Step(cfg, before, e).0)
  {
    hide Prune, DenyCreation, IsActive, WithOrder, OrderCapacityReached, AcceptableNames, FreshId, Distinct, ValidId, RetrySeconds;
  }

  lemma DeactivationStores(cfg: Config, before: System, e: Event)
    requires Enabled(cfg, before, e) && e.DeactivateAuthCall?
    ensures Stores(cfg, before, e, Step(cfg, before, e).0)
  {
    hide Prune, IsActive, WithAuthDeactivated, Commit;
    var sys := Touch(before.(clock := e.now), e.req.accountId, e.now);
    if e.authId in before.mem.auths {
      CommitStores(sys, WithAuthDeactivated(before.mem, e.authId), e.now, e.outcome);
    }
  }

  lemma StartStores(cfg: Config, before: System, e: Event)
    requires Enabled(cfg, before, e) && e.StartCall?
    ensures Stores(cfg, before, e, Step(cfg, before, e).0)
  {
    hide Prune, IsActive, CanStart, WithChallenge, Commit;
    var sys := Touch(before.(clock := e.now), e.req.accountId, e.now);
    if e.authId in before.mem.auths {
      CommitStores(sys, WithChallenge(before.mem, e.authId, ChallengeProcessing), e.now, e.outcome);
    }
  }

  lemma FinishStores(cfg: Config, before: System, e: Event)
    requires Enabled(cfg, before, e) && e.FinishCall?
    ensures Stores(cfg, before, e, Step(cfg, before, e).0)
  {
    hide Prune, IsActive, WithChallenge, Finished, Commit;
    var req := before.inflight[e.authId];
    var sys := before.(clock := e.now, inflight := before.inflight - {e.authId});
    var touched := if IsActive(sys.mem, req) then Touch(sys, req.accountId, e.now) else sys;
    if e.authId in before.mem.auths && before.mem.auths[e.authId].orderId in before.mem.orders {
      CommitStores(touched, Finished(before.mem, e.now, req, e.authId, e.proof), e.now, e.outcome);
    }
  }

  lemma FinalizeStores(cfg: Config, before: System, e: Event)
    requires Enabled(cfg, before, e) && e.FinalizeCall?
    ensures Stores(cfg, before, e, Step(cfg, before, e).0)
  {
    hide Prune, IsActive, WithCertificate, StillProven, SigningContract, FreshId, Commit;
    var sys := Touch(before.(clock := e.now), e.req.accountId, e.now);
    if e.orderId in before.mem.orders {
      var o := before.mem.orders[e.orderId];
      CommitStores(sys, before.mem.(orders := before.mem.orders[e.orderId := o.(status := OrderInvalid)]), e.now, e.outcome);
      if e.signing.Signed? {
        CommitStores(sys, WithCertificate(before.mem, e.orderId, e.signing.leaf, e.certId, e.csr), e.now, e.outcome);
      }
    }
  }

  lemma CertStepStores(cfg: Config, before: System, e: Event)
    requires Enabled(cfg, before, e) && (e.RevokeCall? || e.CrlCall?)
    ensures Stores(cfg, before, e, Step(cfg, before, e).0)
  {
    hide Prune, IsActive, RefreshCrl, CanRevoke, CrlStale, WithRevocation, ValidReason, IsRecorded;
  }

  lemma OtherStepStores(cfg: Config, before: System, e: Event)
    requires Enabled(cfg, before, e) && (e.ReadCall? || e.CrashEvent? || e.RestartCall?)
    ensures Stores(cfg, before, e, Step(cfg, before, e).0)
  {
    hide Prune, IsActive, ValidateState, Recover, Fresh;
  }

  /** The file changes exactly when a snapshot was prepared and its rename happened, and then holds
      that snapshot, pruned. */
  lemma StepStores(cfg: Config, before: System, e: Event)
    requires Enabled(cfg, before, e)
    ensures Stores(cfg, before, e, Step(cfg, before, e).0)
  {
    hide Stores, Step, Enabled;
    match e
    case NewAccountCall(_, _, _, _, _, _) => AccountStepStores(cfg, before, e);
    case UpdateAccountCall(_, _, _, _, _) => AccountStepStores(cfg, before, e);
    case KeyChangeCall(_, _, _, _) => AccountStepStores(cfg, before, e);
    case NewOrderCall(_, _, _, _, _, _, _, _) => OrderStepStores(cfg, before, e);
    case DeactivateAuthCall(_, _, _, _) => DeactivationStores(cfg, before, e);
    case StartCall(_, _, _, _, _) => StartStores(cfg, before, e);
    case FinishCall(_, _, _, _) => FinishStores(cfg, before, e);
    case FinalizeCall(_, _, _, _, _, _, _, _) => FinalizeStores(cfg, before, e);
    case RevokeCall(_, _, _, _, _, _, _) => CertStepStores(cfg, before, e);
    case CrlCall(_, _, _) => CertStepStores(cfg, before, e);
    case ReadCall(_, _) => OtherStepStores(cfg, before, e);
    case CrashEvent(_) => OtherStepStores(cfg, before, e);
    case RestartCall(_, _) => OtherStepStores(cfg, before, e);
  }

  lemma BaseOk(cfg: Config, before: System, e: Event)
    requires SystemInv(cfg, before) && Enabled(cfg, before, e) && !e.CrashEvent?
    ensures Inv(cfg, Base(cfg, before, e)) && Consistent(cfg, Base(cfg, before, e))
  {
    hide Consistent, Recover, Fresh, AcceptableNames, SigningContract, FreshId, Distinct, ValidId;
    FreshOk(cfg);
    if e.RestartCall? && before.disk.Some? {
      RecoverKeeps(cfg, before.disk.value);
    }
  }

  lemma PreparedNewOrder(cfg: Config, before: System, e: Event)
    requires SystemInv(cfg, before) && Enabled(cfg, before, e) && e.NewOrderCall? && Prepared(cfg, before, e).Some?
    ensures Consistent(cfg, Prepared(cfg, before, e).value)
  {
    hide Inv, Consistent, Prune, DenyCreation, IsActive, OrderCapacityReached, AcceptableNames, ValidId, Distinct, WithOrder, Recover, FlightsMatch;
    var st := before.mem;
    var activity := ActivityAt(before, e.req.accountId, e.now);
    var pruned := Prune(st, e.now, activity);
    var order := Order(e.ids.order, e.req.accountId, OrderPending, e.now + ORDER_LIFETIME, e.names, e.ids.auths, "", []);
    PrunedKeys(st, e.now, activity);
    NewOrderAddable(cfg, before, e.now, e.req, e.source, e.raw, e.names, e.owners, e.ids, pruned);
    NewOrderConsistent(cfg, st, activity, e.now, e.source, order, e.ids.tokens);
  }

  lemma PreparedCrl(cfg: Config, before: System, e: Event)
    requires SystemInv(cfg, before) && Enabled(cfg, before, e) && (e.RevokeCall? || e.CrlCall?) && Prepared(cfg, before, e).Some?
    ensures Consistent(cfg, Prepared(cfg, before, e).value)
  {
    hide Inv, Consistent, RefreshCrl, CanRevoke, CrlStale, Recover, FlightsMatch, ValidReason;
    BaseOk(cfg, before, e);
    var st := before.mem;
    if e.RevokeCall? {
      var id := RecordedId(st, e.leaf);
      RevocationConsistent(cfg, st, id, e.now, e.reason);
      CrlConsistent(cfg, WithRevocation(st, id, e.now, e.reason), e.now, e.nextUpdate);
    } else {
      CrlConsistent(cfg, st, e.now, e.nextUpdate);
    }
  }

  lemma PreparedFinalize(cfg: Config, before: System, e: Event)
    requires SystemInv(cfg, before) && Enabled(cfg, before, e) && e.FinalizeCall? && Prepared(cfg, before, e).Some?
    ensures Consistent(cfg, Prepared(cfg, before, e).value)
  {
    hide Inv, Consistent, IsActive, StillProven, WithCertificate, Recover, FlightsMatch, ValidId;
    OrderInvalidatedConsistent(cfg, before.mem, e.orderId);
    if e.signing.Signed? {
      IssuedConsistent(cfg, before.mem, e.orderId, e.signing.leaf, e.certId, e.csr);
    }
  }

  /** Every snapshot a step prepares is consistent already before it is pruned. */
  lemma PreparedConsistent(cfg: Config, before: System, e: Event)
    requires SystemInv(cfg, before) && Enabled(cfg, before, e) && Prepared(cfg, before, e).Some?
    ensures Consistent(cfg, Prepared(cfg, before, e).value)
  {
    hide SystemInv, Inv, Consistent, Prune, DenyCreation, HasThumbprint, WithAccount, WithAccountStatus, WithKey, OrderCapacityReached,
         WithAuthDeactivated, WithChallenge, Finished, WithCertificate, StillProven, RefreshCrl, CanRevoke, CrlStale, WithRevocation, WithOrder,
         ValidateState, Recover, Fresh, AcceptableNames, SigningContract, ValidReason, IsRecorded, ValidId, Distinct;
    var st := Base(cfg, before, e);
    BaseOk(cfg, before, e);
    match e
    case NewAccountCall(now, key, source, _, id, _) => NewAccountConsistent(cfg, before, now, key, source, id);
    case UpdateAccountCall(_, req, _, status, _) =>
      AccountStatusConsistent(cfg, st, req.accountId, if status.Some? then status.value else AccountValid);
    case KeyChangeCall(_, req, key, _) => NewKeyConsistent(cfg, st, req.accountId, key);
    case NewOrderCall(_, _, _, _, _, _, _, _) => PreparedNewOrder(cfg, before, e);
    case ReadCall(_, _) =>
    case DeactivateAuthCall(_, _, authId, _) => AuthDeactivationConsistent(cfg, st, authId);
    case StartCall(_, _, authId, _, _) => ChallengeConsistent(cfg, st, authId, ChallengeProcessing);
    case FinishCall(now, authId, proof, _) => FinishedConsistent(cfg, st, now, before.inflight[authId], authId, proof);
    case FinalizeCall(_, _, _, _, _, _, _, _) => PreparedFinalize(cfg, before, e);
    case RevokeCall(_, _, _, _, _, _, _) => PreparedCrl(cfg, before, e);
    case CrlCall(_, _, _) => PreparedCrl(cfg, before, e);
    case CrashEvent(_) =>
    case RestartCall(_, _) =>
  }
}
