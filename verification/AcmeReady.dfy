/** When orders become ready: exactly when the last of their authorizations is valid. */
module AcmeReady {
  import opened Common
  import opened Validator
  import opened Acme
  import opened AcmeInvariant
  import opened AcmeOrderUpdates
  import opened AcmeSteps
  import opened AcmeRuns
  import opened AcmeIssuance
  import opened AcmeOrders

  /** Some authorization of the order is on record and not valid. */
  ghost predicate Lacks(st: State, o: Order) {
    exists i :: 0 <= i < |o.authIds| && o.authIds[i] in st.auths && st.auths[o.authIds[i]].status != AuthValid
  }

  ghost predicate PendingLack(st: State) {
    forall id :: id in st.orders && st.orders[id].status == OrderPending ==> Lacks(st, st.orders[id])
  }

  /** The pending orders of `next` were pending, and no authorization has become valid or disappeared. */
  ghost predicate NothingGained(st: State, next: State) {
    && (forall id :: id in next.orders && next.orders[id].status == OrderPending ==>
          id in st.orders && st.orders[id].status == OrderPending && st.orders[id].authIds == next.orders[id].authIds)
    && (forall id :: id in st.auths && st.auths[id].status != AuthValid ==> id in next.auths && next.auths[id].status != AuthValid)
  }

  lemma NothingGainedKeeps(st: State, next: State)
    requires PendingLack(st) && NothingGained(st, next)
    ensures PendingLack(next)
  {
    forall id | id in next.orders && next.orders[id].status == OrderPending ensures Lacks(next, next.orders[id]) {
      assert Lacks(st, st.orders[id]);
    }
  }

  lemma PruneKeepsLack(cfg: Config, st: State, now: Time, activity: map<Id, Time>)
    requires OrdersOk(cfg, st) && AuthsOk(cfg, st) && PendingLack(st)
    ensures PendingLack(Prune(st, now, activity))
  {
    hide Prune, OrdersOk, AuthsOk;
    var p := Prune(st, now, activity);
    forall id | id in p.orders && p.orders[id].status == OrderPending ensures Lacks(p, p.orders[id]) {
      PruneAt(st, now, activity, id);
      var o := st.orders[id];
      assert Lacks(st, o);
      var i :| 0 <= i < |o.authIds| && o.authIds[i] in st.auths && st.auths[o.authIds[i]].status != AuthValid;
      OwnOrder(cfg, st, id, i);
      AuthGoesWithOrder(cfg, st, now, o.authIds[i]);
      PruneAt(st, now, activity, o.authIds[i]);
    }
  }

  lemma OwnOrder(cfg: Config, st: State, id: Id, i: nat)
    requires OrdersOk(cfg, st) && id in st.orders && i < |st.orders[id].authIds|
    ensures st.orders[id].id == id && st.orders[id].authIds[i] in st.auths && st.auths[st.orders[id].authIds[i]].orderId == id
  {
    hide AllowedName, ValidId, Distinct;
    assert OrderOk(cfg, st, id);
    assert Backs(st, st.orders[id], i);
  }

  // ----- Each kind of step -----

  lemma NewOrderLacks(pruned: State, now: Time, source: ClientId, order: Order, tokens: seq<string>)
    requires PendingLack(pruned) && order.accountId in pruned.accounts
    requires 1 <= |order.authIds| == |order.identifiers| == |tokens| && Distinct(order.authIds)
    ensures PendingLack(WithOrder(pruned, now, source, order, tokens))
  {
    hide WithAuths, Recorded;
    var next := WithOrder(pruned, now, source, order, tokens);
    WithAuthsContents(pruned.auths, order, tokens, |tokens|);
    forall id | id in next.orders && next.orders[id].status == OrderPending ensures Lacks(next, next.orders[id]) {
      if id == order.id {
        assert order.authIds[0] in next.auths && next.auths[order.authIds[0]].status == AuthPending;
      } else {
        StillLacks(pruned, next, pruned.orders[id]);
      }
    }
  }

  lemma StillLacks(st: State, next: State, o: Order)
    requires Lacks(st, o)
    requires forall k :: k in st.auths && st.auths[k].status != AuthValid ==> k in next.auths && next.auths[k].status != AuthValid
    ensures Lacks(next, o)
  {
  }

  lemma StatusLacks(st: State, id: Id, status: AccountStatus)
    requires id in st.accounts
    ensures NothingGained(st, WithAccountStatus(st, id, status))
  {
  }

  lemma DeactivationLacks(st: State, authId: Id)
    requires authId in st.auths && (st.auths[authId].orderId in st.orders ==> st.orders[st.auths[authId].orderId].id == st.auths[authId].orderId)
    ensures NothingGained(st, WithAuthDeactivated(st, authId))
  {
  }

  /** The one step that makes an authorization valid makes its order ready if it was the last. */
  lemma ProofLacks(cfg: Config, st: State, now: Time, req: Request, authId: Id, proof: Option<Target>)
    requires Inv(cfg, st) && PendingLack(st) && authId in st.auths && st.auths[authId].orderId in st.orders
    ensures PendingLack(WithProof(st, now, req, authId, proof))
  {
    hide Inv, IsActive, Lacks, OrdersOk, AuthsOk, PendingLack;
    OrderOfAuth(cfg, st, authId);
    InvOrders(cfg, st);
    var a, o := st.auths[authId], st.orders[st.auths[authId].orderId];
    if proof.None? || !IsActive(st, req) || a.expires <= now || o.status != OrderPending {
      FailedLacks(st, authId);
    } else {
      var good := a.(status := AuthValid, challenge := ChallengeValid, validated := Some(now), target := proof.value);
      ProvenLacks(cfg, st, authId, good);
    }
  }

  lemma FailedLacks(st: State, authId: Id)
    requires PendingLack(st) && authId in st.auths && st.auths[authId].orderId in st.orders
    requires st.orders[st.auths[authId].orderId].id == st.auths[authId].orderId
    ensures var a, o := st.auths[authId], st.orders[st.auths[authId].orderId];
            PendingLack(st.(auths := st.auths[authId := a.(status := AuthInvalid, challenge := ChallengeInvalid)],
                            orders := st.orders[o.id := o.(status := OrderInvalid)]))
  {
    var a, o := st.auths[authId], st.orders[st.auths[authId].orderId];
    NothingGainedKeeps(st, st.(auths := st.auths[authId := a.(status := AuthInvalid, challenge := ChallengeInvalid)],
                               orders := st.orders[o.id := o.(status := OrderInvalid)]));
  }

  lemma ProvenLacks(cfg: Config, st: State, authId: Id, good: Authorization)
    requires OrdersOk(cfg, st) && PendingLack(st) && authId in st.auths && st.auths[authId].orderId in st.orders
    requires st.orders[st.auths[authId].orderId].id == st.auths[authId].orderId
    ensures var o := st.orders[st.auths[authId].orderId];
            var next := st.(auths := st.auths[authId := good]);
            PendingLack(if AllValid(next, o.authIds) then next.(orders := next.orders[o.id := o.(status := OrderReady)]) else next)
  {
    hide OrdersOk, Lacks, AllValid;
    var orderId := st.auths[authId].orderId;
    var o := st.orders[orderId];
    var next := st.(auths := st.auths[authId := good]);
    var done := if AllValid(next, o.authIds) then next.(orders := next.orders[o.id := o.(status := OrderReady)]) else next;
    forall id | id in done.orders && done.orders[id].status == OrderPending ensures Lacks(done, done.orders[id]) {
      if id == orderId {
        LacksUnlessAllValid(cfg, st, next, id);
      } else {
        OtherLacks(cfg, st, done, authId, id);
      }
    }
  }

  lemma InvOrders(cfg: Config, st: State)
    requires Inv(cfg, st)
    ensures OrdersOk(cfg, st) && AuthsOk(cfg, st)
  {
    hide OrderOk, AuthOk;
  }

  lemma LacksUnlessAllValid(cfg: Config, st: State, next: State, id: Id)
    requires OrdersOk(cfg, st) && id in st.orders && id in next.orders && next.orders[id].authIds == st.orders[id].authIds
    requires next.auths.Keys == st.auths.Keys && !AllValid(next, next.orders[id].authIds)
    ensures Lacks(next, next.orders[id])
  {
    hide OrdersOk;
    var o := next.orders[id];
    var i :| 0 <= i < |o.authIds| && !(o.authIds[i] in next.auths && next.auths[o.authIds[i]].status == AuthValid);
    OwnOrder(cfg, st, id, i);
  }

  lemma OtherLacks(cfg: Config, st: State, next: State, authId: Id, id: Id)
    requires OrdersOk(cfg, st) && PendingLack(st) && authId in st.auths && id in st.orders && id != st.auths[authId].orderId
    requires st.orders[id].status == OrderPending && id in next.orders && next.orders[id] == st.orders[id]
    requires forall k :: k in st.auths && k != authId ==> k in next.auths && next.auths[k] == st.auths[k]
    ensures Lacks(next, next.orders[id])
  {
    hide OrdersOk;
    var o := st.orders[id];
    assert Lacks(st, o);
    var i :| 0 <= i < |o.authIds| && o.authIds[i] in st.auths && st.auths[o.authIds[i]].status != AuthValid;
    OwnOrder(cfg, st, id, i);
  }

  lemma FinishLacks(cfg: Config, st: State, now: Time, req: Request, authId: Id, proof: Option<Target>)
    requires Inv(cfg, st) && PendingLack(st) && authId in st.auths && st.auths[authId].orderId in st.orders
    ensures PendingLack(Finished(st, now, req, authId, proof))
  {
    hide Inv, WithProof, RolledOver, PendingLack;
    ChallengeLacks(st, authId, ChallengePending);
    ProofLacks(cfg, st, now, req, authId, proof);
  }

  lemma ChallengeLacks(st: State, authId: Id, status: ChallengeStatus)
    requires authId in st.auths && PendingLack(st)
    ensures PendingLack(WithChallenge(st, authId, status))
  {
    NothingGainedKeeps(st, WithChallenge(st, authId, status));
  }

  lemma FinalizeLacks(st: State, orderId: Id, leaf: Leaf, certId: Id, csr: seq<int>)
    requires orderId in st.orders
    ensures NothingGained(st, WithCertificate(st, orderId, leaf, certId, csr))
    ensures NothingGained(st, st.(orders := st.orders[orderId := st.orders[orderId].(status := OrderInvalid)]))
  {
  }

  lemma PreparedLacks(cfg: Config, before: System, e: Event)
    requires SystemInv(cfg, before) && Enabled(cfg, before, e) && Prepared(cfg, before, e).Some? && PendingLack(Base(cfg, before, e))
    ensures PendingLack(Prepared(cfg, before, e).value)
  {
    hide Prepared, Base, Prune, IsActive, Finished, RefreshCrl, SystemInv, WithOrder, Enabled, StillProven, PendingLack, NothingGained, Inv,
         WithAccountStatus, CanStart, OrderCapacityReached, DenyCreation, HasThumbprint, WithAuthDeactivated, WithCertificate, WithChallenge,
         OrdersOk, AuthsOk;
    NothingPrepared(cfg, before, e);
    BaseOk(cfg, before, e);
    InvOrders(cfg, Base(cfg, before, e));
    var st := before.mem;
    var next := Prepared(cfg, before, e).value;
    match e
    case NewAccountCall(now, _, _, _, _, _) =>
      NewAccountForm(cfg, before, e);
      PruneKeepsLack(cfg, st, now, before.activity);
      SameLacks(Prune(st, now, before.activity), next);
    case NewOrderCall(now, req, source, _, _, _, ids, _) =>
      NewOrderForm(cfg, before, e);
      NewOrderIds(cfg, before, e);
      PruneKeepsLack(cfg, st, now, ActivityAt(before, req.accountId, now));
      NewOrderLacks(Prune(st, now, ActivityAt(before, req.accountId, now)), now, source, OrderFor(e), ids.tokens);
    case FinishCall(now, authId, proof, _) =>
      FinishForm(cfg, before, e);
      FinishLacks(cfg, st, now, before.inflight[authId], authId, proof);
    case UpdateAccountCall(_, req, _, status, _) =>
      UpdateForm(cfg, before, e);
      StatusLacks(st, req.accountId, if status.Some? then status.value else AccountValid);
      NothingGainedKeeps(st, next);
    case DeactivateAuthCall(_, _, authId, _) =>
      DeactivationForm(cfg, before, e);
      OrderOfAuth(cfg, st, authId);
      DeactivationLacks(st, authId);
      NothingGainedKeeps(st, next);
    case StartCall(_, _, authId, _, _) =>
      StartForm(cfg, before, e);
      ChallengeLacks(st, authId, ChallengeProcessing);
    case FinalizeCall(_, _, orderId, csr, _, signing, certId, _) =>
      FinalizeForm(cfg, before, e);
      FinalizeLacks(st, orderId, if signing.Signed? then signing.leaf else Leaf(0, [], 0, false, "", ""), certId, csr);
      NothingGainedKeeps(st, next);
    case RevokeCall(now, _, leaf, reason, _, nextUpdate, _) =>
      RevokeForm(cfg, before, e);
      RefreshKeepsAuths(WithRevocation(st, RecordedId(st, leaf), now, reason), now, nextUpdate);
      SameLacks(st, next);
    case CrlCall(now, nextUpdate, _) =>
      CrlForm(cfg, before, e);
      RefreshKeepsAuths(st, now, nextUpdate);
      SameLacks(st, next);
    case KeyChangeCall(_, _, _, _) =>
      KeyChangeForm(cfg, before, e);
      SameLacks(st, next);
    case RestartCall(_, _) => RestartForm(cfg, before, e);
  }

  lemma SameLacks(st: State, next: State)
    requires PendingLack(st) && next.orders == st.orders && next.auths == st.auths
    ensures PendingLack(next)
  {
    NothingGainedKeeps(st, next);
  }

  lemma NewOrderIds(cfg: Config, before: System, e: Event)
    requires Enabled(cfg, before, e) && e.NewOrderCall?
    ensures Distinct(e.ids.auths) && 1 <= |e.ids.auths|
  {
    hide AllowedName, ValidId;
  }

  lemma RecoveredLacks(st: State, next: State)
    requires PendingLack(st) && Recover(st) == Recover(next)
    ensures PendingLack(next) && PendingLack(Recover(st))
  {
    assert Recover(st).auths.Keys == st.auths.Keys && Recover(next).auths.Keys == next.auths.Keys;
    forall id | id in st.auths ensures id in next.auths && next.auths[id].status == st.auths[id].status == Recover(st).auths[id].status {
      assert Recover(st).auths[id] == RecoveredAuth(st.auths[id]);
      assert Recover(next).auths[id] == RecoveredAuth(next.auths[id]);
    }
    assert Recover(st).orders == st.orders && Recover(next).orders == next.orders;
    NothingGainedKeeps(st, next);
    NothingGainedKeeps(st, Recover(st));
  }

  ghost predicate LackInv(sys: System) {
    sys.disk.Some? ==> PendingLack(sys.disk.value)
  }

  lemma BaseLacks(cfg: Config, before: System, e: Event)
    requires SystemInv(cfg, before) && Enabled(cfg, before, e) && LackInv(before) && !e.CrashEvent?
    ensures PendingLack(Base(cfg, before, e))
  {
    hide Inv, FlightsMatch, PendingLack, AcceptableNames, SigningContract, FreshId, Distinct, ValidId, Recover;
    if before.disk.Some? {
      if !e.RestartCall? {
        RecoveredLacks(before.disk.value, before.mem);
      } else {
        RecoveredLacks(before.disk.value, before.disk.value);
      }
    } else {
      FreshLacks(cfg);
    }
  }

  lemma FreshLacks(cfg: Config)
    ensures PendingLack(Fresh(cfg))
  {
  }

  lemma StepKeepsLack(cfg: Config, before: System, e: Event)
    requires SystemInv(cfg, before) && Enabled(cfg, before, e) && LackInv(before)
    ensures LackInv(Step(cfg, before, e).0)
  {
    hide SystemInv, Step, Prepared, Prune, Base, PendingLack, Consistent, Enabled;
    StepStores(cfg, before, e);
    NothingPrepared(cfg, before, e);
    var prepared := Prepared(cfg, before, e);
    if prepared.Some? && Renamed(e) {
      var activity :| Step(cfg, before, e).0.disk == Some(Prune(prepared.value, e.now, activity));
      BaseLacks(cfg, before, e);
      PreparedLacks(cfg, before, e);
      PreparedConsistent(cfg, before, e);
      ConsistentOrders(cfg, prepared.value);
      PruneKeepsLack(cfg, prepared.value, e.now, activity);
    }
  }

  lemma ConsistentOrders(cfg: Config, st: State)
    requires Consistent(cfg, st)
    ensures OrdersOk(cfg, st) && AuthsOk(cfg, st)
  {
    hide OrderOk, AuthOk;
  }

  lemma {:induction false} RunKeepsLack(cfg: Config, states: seq<System>, events: seq<Event>, k: nat)
    requires IsRun(cfg, states, events) && k < |states|
    ensures LackInv(states[k])
  {
    hide SystemInv, Step, Enabled, PendingLack;
    if k > 0 {
      RunKeepsLack(cfg, states, events, k - 1);
      assert StepAt(cfg, states, events, k - 1);
      RunKeeps(cfg, states, events, k - 1);
      StepKeepsLack(cfg, states[k - 1], events[k - 1]);
    }
  }

  /** In this snapshot an open order is ready if and only if all its authorizations are valid. */
  ghost predicate ReadyIffValid(st: State) {
    forall id :: id in st.orders && st.orders[id].status in {OrderPending, OrderReady} ==>
      (st.orders[id].status == OrderReady <==>
         forall i :: 0 <= i < |st.orders[id].authIds| ==>
           st.orders[id].authIds[i] in st.auths && st.auths[st.orders[id].authIds[i]].status == AuthValid)
  }

  lemma ReadyIsValid(cfg: Config, st: State, id: Id, i: nat)
    requires Inv(cfg, st) && id in st.orders && st.orders[id].status == OrderReady && i < |st.orders[id].authIds|
    ensures st.orders[id].authIds[i] in st.auths && st.auths[st.orders[id].authIds[i]].status == AuthValid
  {
    hide AllowedName, ValidId, Distinct, CertsOk, AccountsOk;
    assert OrderOk(cfg, st, id);
    assert Backs(st, st.orders[id], i);
    assert AuthOk(cfg, st, st.orders[id].authIds[i]);
  }

  lemma SnapshotReady(cfg: Config, st: State)
    requires Inv(cfg, st) && PendingLack(st)
    ensures ReadyIffValid(st)
  {
    hide Inv;
    forall id, i | id in st.orders && st.orders[id].status == OrderReady && 0 <= i < |st.orders[id].authIds|
      ensures st.orders[id].authIds[i] in st.auths && st.auths[st.orders[id].authIds[i]].status == AuthValid
    {
      ReadyIsValid(cfg, st, id, i);
    }
    forall id | id in st.orders && st.orders[id].status == OrderPending ensures Lacks(st, st.orders[id]) {
    }
  }

  /** In every reachable state, in the file and in the memory of a running server: an order that is pending or
      ready is ready if and only if every one of its authorizations is valid. */
  lemma ReadyExactlyWhenValid(cfg: Config, states: seq<System>, events: seq<Event>, k: nat)
    requires IsRun(cfg, states, events) && k < |states|
    ensures states[k].disk.Some? ==> ReadyIffValid(states[k].disk.value)
    ensures states[k].up ==> ReadyIffValid(states[k].mem)
  {
    hide Step, Enabled, IsRun, Inv, PendingLack, ReadyIffValid, Recover, FlightsMatch;
    RunKeeps(cfg, states, events, k);
    RunKeepsLack(cfg, states, events, k);
    if states[k].disk.Some? {
      SnapshotReady(cfg, states[k].disk.value);
    }
    if states[k].up {
      RecoveredLacks(states[k].disk.value, states[k].mem);
      SnapshotReady(cfg, states[k].mem);
    }
  }
}
