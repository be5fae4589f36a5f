/** Consistency of the snapshots that create, advance, invalidate and complete orders. */
module AcmeOrderUpdates {
  import opened Common
  import opened Validator
  import opened Acme
  import opened AcmeInvariant
  import opened AcmeUpdates

  // ----- Changing one order and its authorizations -----

  /** What an authorization record must satisfy by itself. */
  ghost predicate SelfOk(a: Authorization) {
    && (a.status == AuthValid ==> a.validated.Some? && ProvenTarget(a.target) && a.challenge == ChallengeValid)
    && (a.challenge == ChallengeProcessing ==> a.status == AuthPending)
  }

  ghost predicate OnlyOrderChanged(st: State, next: State, orderId: Id) {
    && next.orders.Keys == st.orders.Keys && next.auths.Keys == st.auths.Keys
    && (forall k :: k in st.orders && k != orderId ==> next.orders[k] == st.orders[k])
    && orderId in st.orders
    && next.orders[orderId] == st.orders[orderId].(status := next.orders[orderId].status)
    && (st.orders[orderId].status == OrderValid <==> next.orders[orderId].status == OrderValid)
    && (forall k :: k in st.auths && st.auths[k].orderId != orderId ==> next.auths[k] == st.auths[k])
    && (forall k :: k in st.auths ==> SameLink(st.auths[k], next.auths[k]))
  }

  ghost predicate OrderAgrees(next: State, orderId: Id)
    requires orderId in next.orders
  {
    forall k :: k in next.auths && next.auths[k].orderId == orderId ==>
      SelfOk(next.auths[k]) && StatusesAgree(next.auths[k], next.orders[orderId])
  }

  lemma ChangedAuths(cfg: Config, st: State, next: State, orderId: Id)
    requires AuthsOk(cfg, st) && OnlyOrderChanged(st, next, orderId) && OrderAgrees(next, orderId)
    ensures AuthsOk(cfg, next)
  {
    hide AllowedName, ValidId, StatusesAgree;
    forall k | k in next.auths ensures AuthOk(cfg, next, k) {
      assert AuthOk(cfg, st, k);
      assert SameLink(st.auths[k], next.auths[k]);
    }
  }

  lemma ChangedCerts(cfg: Config, st: State, next: State, orderId: Id)
    requires CertsOk(cfg, st) && OnlyOrderChanged(st, next, orderId) && next.certs == st.certs
    ensures CertsOk(cfg, next)
  {
    hide ValidId, SameLink;
    forall k | k in next.certs ensures CertOk(cfg, next, k) {
      assert CertOk(cfg, st, k);
    }
  }

  lemma ChangedOrders(cfg: Config, st: State, next: State, orderId: Id)
    requires OrdersOk(cfg, st) && OnlyOrderChanged(st, next, orderId)
    requires next.accounts == st.accounts && next.certs == st.certs
    ensures OrdersOk(cfg, next)
  {
    hide OrderOk, SameLink;
    forall k | k in next.orders ensures OrderOk(cfg, next, k) {
      OrderStatusChange(cfg, st, next, k);
    }
  }

  lemma ChangedConsistent(cfg: Config, st: State, next: State, orderId: Id)
    requires Consistent(cfg, st) && OnlyOrderChanged(st, next, orderId) && OrderAgrees(next, orderId)
    requires next == st.(orders := next.orders, auths := next.auths)
    ensures Consistent(cfg, next)
  {
    hide OrdersOk, AuthsOk, CertsOk, OnlyOrderChanged, OrderAgrees, SizesOk, LimitsOk, AccountsOk;
    AccountsFrame(st, next);
    ChangedOrders(cfg, st, next, orderId);
    ChangedAuths(cfg, st, next, orderId);
    ChangedCerts(cfg, st, next, orderId);
    LimitsFrame(st, next);
    ChangedSizes(st, next, orderId);
  }

  lemma AccountsFrame(st: State, next: State)
    requires AccountsOk(st) && next.accounts == st.accounts
    ensures AccountsOk(next)
  {
    hide ValidId;
    forall k | k in next.accounts ensures AccountOk(next, k) {
      assert AccountOk(st, k);
    }
  }

  lemma ChangedSizes(st: State, next: State, orderId: Id)
    requires SizesOk(st) && OnlyOrderChanged(st, next, orderId)
    requires next == st.(orders := next.orders, auths := next.auths)
    ensures SizesOk(next)
  {
    hide SameLink;
    SameSizes(st, next);
  }

  /** The parts of the invariant that order updates rely on. */
  ghost predicate Facts(st: State) {
    && (forall k :: k in st.auths ==> AuthFact(st, k))
    && (forall k :: k in st.orders ==> st.orders[k].id == k && st.orders[k].status != OrderInvalid)
  }

  ghost predicate AuthFact(st: State, k: Id)
    requires k in st.auths
  {
    var a := st.auths[k];
    && a.id == k && SelfOk(a) && a.orderId in st.orders && StatusesAgree(a, st.orders[a.orderId])
    && st.orders[a.orderId].accountId == a.accountId && k in st.orders[a.orderId].authIds
  }

  lemma InvFacts(cfg: Config, st: State)
    requires Inv(cfg, st)
    ensures Facts(st) && Consistent(cfg, st)
  {
    hide AllowedName, ValidId, StatusesAgree, CertOk, AccountOk;
    forall k | k in st.auths ensures AuthFact(st, k) {
      assert AuthOk(cfg, st, k);
    }
    forall k | k in st.orders ensures st.orders[k].id == k {
      assert OrderOk(cfg, st, k);
    }
  }

  /** Replacing one authorization record, the order following by a change of status at most. */
  function Replace(st: State, authId: Id, a: Authorization, status: OrderStatus): State
    requires authId in st.auths && st.auths[authId].orderId in st.orders
  {
    var orderId := st.auths[authId].orderId;
    st.(auths := st.auths[authId := a], orders := st.orders[orderId := st.orders[orderId].(status := status)])
  }

  lemma ReplaceConsistent(cfg: Config, st: State, authId: Id, a: Authorization, status: OrderStatus)
    requires Inv(cfg, st) && authId in st.auths && st.auths[authId].orderId in st.orders
    requires SameLink(st.auths[authId], a) && SelfOk(a)
    requires st.orders[st.auths[authId].orderId].status == OrderValid <==> status == OrderValid
    requires OrderAgrees(Replace(st, authId, a, status), st.auths[authId].orderId)
    ensures Consistent(cfg, Replace(st, authId, a, status))
  {
    hide Inv, Consistent, OrderAgrees, StatusesAgree;
    InvFacts(cfg, st);
    var next := Replace(st, authId, a, status);
    assert OnlyOrderChanged(st, next, st.auths[authId].orderId);
    ChangedConsistent(cfg, st, next, st.auths[authId].orderId);
  }

  /** Setting the challenge of a pending authorization between pending and processing. */
  lemma ChallengeConsistent(cfg: Config, st: State, authId: Id, status: ChallengeStatus)
    requires Inv(cfg, st) && authId in st.auths && st.auths[authId].status == AuthPending
    requires status in {ChallengePending, ChallengeProcessing}
    ensures Consistent(cfg, WithChallenge(st, authId, status))
  {
    hide Inv, Consistent;
    InvFacts(cfg, st);
    assert AuthFact(st, authId);
    var orderId := st.auths[authId].orderId;
    var a := st.auths[authId].(challenge := status);
    var next := Replace(st, authId, a, st.orders[orderId].status);
    assert next == WithChallenge(st, authId, status) by {
      assert st.orders[orderId := st.orders[orderId]] == st.orders;
    }
    assert OrderAgrees(next, orderId) by {
      assert forall k :: k in st.auths ==> AuthFact(st, k);
    }
    ReplaceConsistent(cfg, st, authId, a, st.orders[orderId].status);
  }

  /** An order that becomes invalid agrees with whatever its authorizations say. */
  lemma InvalidAgrees(st: State, authId: Id, a: Authorization)
    requires Facts(st) && authId in st.auths && SelfOk(a)
    ensures AuthFact(st, authId)
    ensures OrderAgrees(Replace(st, authId, a, OrderInvalid), st.auths[authId].orderId)
  {
    assert AuthFact(st, authId);
    assert forall k :: k in st.auths ==> AuthFact(st, k);
  }

  lemma AuthDeactivationConsistent(cfg: Config, st: State, authId: Id)
    requires Inv(cfg, st) && authId in st.auths
    ensures Consistent(cfg, WithAuthDeactivated(st, authId))
  {
    hide Inv, Consistent;
    InvFacts(cfg, st);
    assert AuthFact(st, authId);
    var a := st.auths[authId];
    var o := st.orders[a.orderId];
    var gone := a.(status := AuthDeactivated,
                   challenge := if a.challenge == ChallengeProcessing then ChallengeInvalid else a.challenge);
    if o.status == OrderValid {
      var next := Replace(st, authId, gone, OrderValid);
      assert next.orders == st.orders;
      assert OrderAgrees(next, a.orderId) by {
        assert forall k :: k in st.auths ==> AuthFact(st, k);
      }
      ReplaceConsistent(cfg, st, authId, gone, OrderValid);
    } else {
      InvalidAgrees(st, authId, gone);
      ReplaceConsistent(cfg, st, authId, gone, OrderInvalid);
    }
  }

  /** Recording the result of an outbound validation, good or bad. */
  lemma ProofConsistent(cfg: Config, st: State, now: Time, req: Request, authId: Id, proof: Option<Target>)
    requires Inv(cfg, st) && authId in st.auths && st.auths[authId].status == AuthPending && st.auths[authId].orderId in st.orders
    requires proof.Some? ==> ProvenTarget(proof.value)
    ensures Consistent(cfg, WithProof(st, now, req, authId, proof))
  {
    hide Inv, Consistent, IsActive;
    InvFacts(cfg, st);
    assert AuthFact(st, authId);
    var a := st.auths[authId];
    var o := st.orders[a.orderId];
    assert o.status == OrderPending;
    if proof.None? || !IsActive(st, req) || a.expires <= now {
      var bad := a.(status := AuthInvalid, challenge := ChallengeInvalid);
      InvalidAgrees(st, authId, bad);
      ReplaceConsistent(cfg, st, authId, bad, OrderInvalid);
    } else {
      var good := a.(status := AuthValid, challenge := ChallengeValid, validated := Some(now), target := proof.value);
      var next := st.(auths := st.auths[authId := good]);
      var status := if AllValid(next, o.authIds) then OrderReady else OrderPending;
      GoodAgrees(st, authId, good, status);
      ReplaceConsistent(cfg, st, authId, good, status);
      assert st.orders[a.orderId := o] == st.orders;
    }
  }

  lemma GoodAgrees(st: State, authId: Id, good: Authorization, status: OrderStatus)
    requires Facts(st) && authId in st.auths && AuthFact(st, authId) && st.auths[authId].status == AuthPending
    requires SameLink(st.auths[authId], good) && SelfOk(good) && good.status == AuthValid
    requires status == if AllValid(st.(auths := st.auths[authId := good]), st.orders[st.auths[authId].orderId].authIds)
                       then OrderReady else OrderPending
    ensures OrderAgrees(Replace(st, authId, good, status), st.auths[authId].orderId)
  {
    var orderId := st.auths[authId].orderId;
    var next := Replace(st, authId, good, status);
    forall k | k in next.auths && next.auths[k].orderId == orderId
      ensures SelfOk(next.auths[k]) && StatusesAgree(next.auths[k], next.orders[orderId])
    {
      assert AuthFact(st, k);
      if status == OrderReady {
        var i :| 0 <= i < |st.orders[orderId].authIds| && st.orders[orderId].authIds[i] == k;
      }
    }
  }

  /** An order that finalization finds no longer authorized. */
  lemma OrderInvalidatedConsistent(cfg: Config, st: State, orderId: Id)
    requires Inv(cfg, st) && orderId in st.orders && st.orders[orderId].status != OrderValid
    ensures Consistent(cfg, st.(orders := st.orders[orderId := st.orders[orderId].(status := OrderInvalid)]))
  {
    hide Inv, Consistent;
    InvFacts(cfg, st);
    var next := st.(orders := st.orders[orderId := st.orders[orderId].(status := OrderInvalid)]);
    assert OnlyOrderChanged(st, next, orderId);
    assert OrderAgrees(next, orderId) by {
      assert forall k :: k in st.auths ==> AuthFact(st, k);
    }
    ChangedConsistent(cfg, st, next, orderId);
  }

  // ----- New orders -----

  ghost predicate KeepsOthers(auths: map<Id, Authorization>, ids: seq<Id>, r: map<Id, Authorization>) {
    && (forall id :: id in auths && id !in ids ==> id in r && r[id] == auths[id])
    && (forall id :: id in r ==> id in auths || id in ids)
  }

  ghost predicate HasNew(order: Order, tokens: seq<string>, k: nat, r: map<Id, Authorization>)
    requires k <= |order.authIds| == |order.identifiers| == |tokens|
  {
    && (forall i :: 0 <= i < k ==> order.authIds[i] in r)
    && (forall i :: 0 <= i < k ==> r[order.authIds[i]] == NewAuth(order, order.authIds[i], order.identifiers[i], tokens[i]))
  }

  /** The first `k` authorizations of the order are in `r`, and everything else is as in `auths`. */
  ghost predicate Added(auths: map<Id, Authorization>, order: Order, tokens: seq<string>, k: nat, r: map<Id, Authorization>)
    requires k <= |order.authIds| == |order.identifiers| == |tokens|
  {
    KeepsOthers(auths, order.authIds, r) && HasNew(order, tokens, k, r) && |r| <= |auths| + k
  }

  lemma KeepsOthersStep(auths: map<Id, Authorization>, ids: seq<Id>, r: map<Id, Authorization>, k: nat, a: Authorization)
    requires k < |ids| && KeepsOthers(auths, ids, r)
    ensures KeepsOthers(auths, ids, r[ids[k] := a])
  {
    assert ids[k] in ids;
  }

  lemma HasNewStep(order: Order, tokens: seq<string>, k: nat, r: map<Id, Authorization>)
    requires k < |order.authIds| == |order.identifiers| == |tokens| && Distinct(order.authIds) && HasNew(order, tokens, k, r)
    ensures HasNew(order, tokens, k + 1, r[order.authIds[k] := NewAuth(order, order.authIds[k], order.identifiers[k], tokens[k])])
  {
    hide NewAuth;
    assert forall i :: 0 <= i < k ==> order.authIds[i] != order.authIds[k];
  }

  lemma AddedOneMore(auths: map<Id, Authorization>, order: Order, tokens: seq<string>, k: nat, r: map<Id, Authorization>)
    requires k < |order.authIds| == |order.identifiers| == |tokens| && Distinct(order.authIds) && Added(auths, order, tokens, k, r)
    ensures Added(auths, order, tokens, k + 1, r[order.authIds[k] := NewAuth(order, order.authIds[k], order.identifiers[k], tokens[k])])
  {
    hide NewAuth, KeepsOthers, HasNew, Distinct;
    var a := NewAuth(order, order.authIds[k], order.identifiers[k], tokens[k]);
    KeepsOthersStep(auths, order.authIds, r, k, a);
    HasNewStep(order, tokens, k, r);
    assert r[order.authIds[k] := a].Keys == r.Keys + {order.authIds[k]};
  }

  lemma {:induction false} WithAuthsContents(auths: map<Id, Authorization>, order: Order, tokens: seq<string>, k: nat)
    requires k <= |order.authIds| == |order.identifiers| == |tokens| && Distinct(order.authIds)
    ensures Added(auths, order, tokens, k, WithAuths(auths, order, tokens, k))
  {
    hide Added, Distinct;
    if k == 0 {
      AddedNone(auths, order, tokens);
    } else {
      WithAuthsContents(auths, order, tokens, k - 1);
      AddedOneMore(auths, order, tokens, k - 1, WithAuths(auths, order, tokens, k - 1));
    }
  }

  lemma AddedNone(auths: map<Id, Authorization>, order: Order, tokens: seq<string>)
    requires |order.authIds| == |order.identifiers| == |tokens|
    ensures Added(auths, order, tokens, 0, auths)
  {
    hide NewAuth;
  }

  /** What makes an order and its identifiers ready to be added to a snapshot. */
  ghost predicate Addable(cfg: Config, st: State, order: Order, tokens: seq<string>) {
    && ValidId(order.id) && order.id !in st.orders && order.status == OrderPending && 0 < order.expires
    && order.accountId in st.accounts && order.certificateId == ""
    && 1 <= |order.identifiers| <= MAX_IDENTIFIERS && |order.authIds| == |order.identifiers| == |tokens|
    && Distinct(order.identifiers) && Distinct(order.authIds)
    && (forall i :: 0 <= i < |order.identifiers| ==> AllowedName(cfg.domain, order.identifiers[i]))
    && (forall i :: 0 <= i < |tokens| ==> ValidId(tokens[i]) && ValidId(order.authIds[i]) && order.authIds[i] !in st.auths)
  }

  lemma AddedOrders(cfg: Config, st: State, order: Order, tokens: seq<string>, next: State)
    requires OrdersOk(cfg, st) && Addable(cfg, st, order, tokens) && st.accounts.Keys <= next.accounts.Keys
    requires next.orders == st.orders[order.id := order] && next.certs == st.certs
    requires next.auths == WithAuths(st.auths, order, tokens, |tokens|)
    ensures OrdersOk(cfg, next)
  {
    hide AllowedName, ValidId, Distinct, WithAuths;
    WithAuthsContents(st.auths, order, tokens, |tokens|);
    forall k | k in next.orders ensures OrderOk(cfg, next, k) {
      if k == order.id {
        forall i | 0 <= i < |order.authIds| ensures Backs(next, order, i) {
        }
      } else {
        assert OrderOk(cfg, st, k);
        forall i | 0 <= i < |st.orders[k].authIds| ensures Backs(next, st.orders[k], i) {
          assert Backs(st, st.orders[k], i);
        }
      }
    }
  }

  lemma AddedAuth(cfg: Config, st: State, order: Order, tokens: seq<string>, next: State, i: nat)
    requires Addable(cfg, st, order, tokens) && i < |tokens|
    requires order.id in next.orders && next.orders[order.id] == order
    requires order.authIds[i] in next.auths
    requires next.auths[order.authIds[i]] == NewAuth(order, order.authIds[i], order.identifiers[i], tokens[i])
    ensures AuthOk(cfg, next, order.authIds[i])
  {
    hide AllowedName, ValidId, Distinct;
  }

  lemma KeptAuth(cfg: Config, st: State, next: State, k: Id)
    requires k in st.auths && AuthOk(cfg, st, k) && k in next.auths && next.auths[k] == st.auths[k]
    requires forall id :: id in st.orders ==> id in next.orders && next.orders[id] == st.orders[id]
    ensures AuthOk(cfg, next, k)
  {
    hide AllowedName, ValidId, StatusesAgree;
  }

  lemma AddedAuths(cfg: Config, st: State, order: Order, tokens: seq<string>, next: State)
    requires AuthsOk(cfg, st) && Addable(cfg, st, order, tokens)
    requires next.orders == st.orders[order.id := order]
    requires next.auths == WithAuths(st.auths, order, tokens, |tokens|)
    ensures AuthsOk(cfg, next)
  {
    hide AllowedName, ValidId, Distinct, WithAuths, AuthOk;
    WithAuthsContents(st.auths, order, tokens, |tokens|);
    forall k | k in next.auths ensures AuthOk(cfg, next, k) {
      if k in st.auths {
        assert k !in order.authIds;
        KeptAuth(cfg, st, next, k);
      } else {
        var i :| 0 <= i < |tokens| && order.authIds[i] == k;
        AddedAuth(cfg, st, order, tokens, next, i);
      }
    }
  }

  lemma AddedCerts(cfg: Config, st: State, order: Order, next: State)
    requires CertsOk(cfg, st) && order.id !in st.orders
    requires next.orders == st.orders[order.id := order] && next.certs == st.certs
    ensures CertsOk(cfg, next)
  {
    hide ValidId;
    forall k | k in next.certs ensures CertOk(cfg, next, k) {
      assert CertOk(cfg, st, k);
    }
  }

  lemma AddedAccount(st: State, next: State, id: Id, now: Time)
    requires AccountsOk(st) && id in st.accounts && |st.accounts[id].recentOrders| < MAX_ACCOUNT_ORDERS
    requires next.accounts == st.accounts[id := st.accounts[id].(recentOrders := st.accounts[id].recentOrders + [now])]
    ensures AccountsOk(next) && next.accounts.Keys == st.accounts.Keys && |next.accounts| == |st.accounts|
  {
    hide ValidId;
    assert AccountOk(st, id);
    PutAccount(st, next, id, next.accounts[id]);
    assert |next.accounts.Keys| == |st.accounts.Keys|;
  }

  lemma NewOrderConsistent(cfg: Config, st: State, activity: map<Id, Time>, now: Time, source: ClientId, order: Order, tokens: seq<string>)
    requires Inv(cfg, st) && DenyCreation(st, now, source, NewOrderKind).None?
    requires var pruned := Prune(st, now, activity);
             Addable(cfg, pruned, order, tokens) && !OrderCapacityReached(pruned, order.accountId, |tokens|)
    ensures Consistent(cfg, WithOrder(Prune(st, now, activity), now, source, order, tokens))
  {
    hide OrdersOk, AuthsOk, CertsOk, AccountsOk, LimitsOk, DenyCreation, Prune, Recorded, WithAuths, AllowedName, ValidId, Distinct, OpenOrders, HeaderOk;
    var pruned := Prune(st, now, activity);
    var next := WithOrder(pruned, now, source, order, tokens);
    PruneEstablishes(cfg, st, now, activity);
    RecordedLimits(st, now, activity, source, NewOrderKind);
    LimitsFrame(RecordCreation(pruned, now, source, NewOrderKind), next);
    AddedAccount(pruned, next, order.accountId, now);
    AddedOrders(cfg, pruned, order, tokens, next);
    AddedAuths(cfg, pruned, order, tokens, next);
    AddedCerts(cfg, pruned, order, next);
    AddedHeader(cfg, pruned, next);
    WithAuthsContents(pruned.auths, order, tokens, |tokens|);
  }

  lemma AddedHeader(cfg: Config, st: State, next: State)
    requires HeaderOk(cfg, st)
    requires next == st.(limits := next.limits, accounts := next.accounts, orders := next.orders, auths := next.auths, certs := next.certs)
    ensures HeaderOk(cfg, next)
  {
  }

  // ----- Issuance -----

  lemma {:induction false} NamesOfOrder(cfg: Config, st: State, orderId: Id)
    requires OrdersOk(cfg, st) && orderId in st.orders
    ensures AuthorizedNames(st, orderId) == st.orders[orderId].identifiers
  {
    hide AllowedName, ValidId;
    assert OrderOk(cfg, st, orderId);
    forall i | 0 <= i < |st.orders[orderId].authIds| ensures AuthorizedNames(st, orderId)[i] == st.orders[orderId].identifiers[i] {
      assert Backs(st, st.orders[orderId], i);
    }
  }

  lemma IssuedOrders(cfg: Config, st: State, orderId: Id, leaf: Leaf, certId: Id, csr: seq<int>)
    requires OrdersOk(cfg, st) && orderId in st.orders && st.orders[orderId].status == OrderReady
    requires certId !in st.certs && csr != [] && 0 < leaf.notAfter
    ensures OrdersOk(cfg, WithCertificate(st, orderId, leaf, certId, csr))
  {
    hide AllowedName, ValidId, Distinct;
    var next := WithCertificate(st, orderId, leaf, certId, csr);
    forall k | k in next.orders ensures OrderOk(cfg, next, k) {
      assert OrderOk(cfg, st, k);
      forall i | 0 <= i < |st.orders[k].authIds| ensures Backs(next, next.orders[k], i) {
        assert Backs(st, st.orders[k], i);
      }
    }
  }

  lemma IssuedAuths(cfg: Config, st: State, orderId: Id, leaf: Leaf, certId: Id, csr: seq<int>)
    requires AuthsOk(cfg, st) && orderId in st.orders && st.orders[orderId].status == OrderReady
    ensures AuthsOk(cfg, WithCertificate(st, orderId, leaf, certId, csr))
  {
    hide AllowedName, ValidId;
    var next := WithCertificate(st, orderId, leaf, certId, csr);
    forall k | k in next.auths ensures AuthOk(cfg, next, k) {
      assert AuthOk(cfg, st, k);
    }
  }

  lemma IssuedCert(cfg: Config, st: State, orderId: Id, leaf: Leaf, certId: Id, csr: seq<int>)
    requires OrdersOk(cfg, st) && orderId in st.orders && ValidId(certId) && SigningContract(cfg, st, orderId, leaf)
    ensures CertOk(cfg, WithCertificate(st, orderId, leaf, certId, csr), certId)
  {
    NamesOfOrder(cfg, st, orderId);
    hide ValidId, OrdersOk, AuthorizedNames;
  }

  lemma EarlierCert(cfg: Config, st: State, orderId: Id, leaf: Leaf, certId: Id, csr: seq<int>, k: Id)
    requires k in st.certs && CertOk(cfg, st, k) && orderId in st.orders && st.orders[orderId].status == OrderReady
    requires k != certId
    ensures CertOk(cfg, WithCertificate(st, orderId, leaf, certId, csr), k)
  {
    hide ValidId;
  }

  lemma IssuedCerts(cfg: Config, st: State, orderId: Id, leaf: Leaf, certId: Id, csr: seq<int>)
    requires CertsOk(cfg, st) && OrdersOk(cfg, st) && orderId in st.orders && st.orders[orderId].status == OrderReady
    requires ValidId(certId) && certId !in st.certs && SigningContract(cfg, st, orderId, leaf)
    ensures CertsOk(cfg, WithCertificate(st, orderId, leaf, certId, csr))
  {
    hide ValidId, OrdersOk, AuthorizedNames, CertOk;
    var next := WithCertificate(st, orderId, leaf, certId, csr);
    IssuedCert(cfg, st, orderId, leaf, certId, csr);
    forall k | k in next.certs ensures CertOk(cfg, next, k) {
      if k != certId {
        EarlierCert(cfg, st, orderId, leaf, certId, csr, k);
      }
    }
  }

  lemma IssuedConsistent(cfg: Config, st: State, orderId: Id, leaf: Leaf, certId: Id, csr: seq<int>)
    requires Inv(cfg, st) && orderId in st.orders && st.orders[orderId].status == OrderReady && |st.certs| < MAX_RECORDS
    requires ValidId(certId) && certId !in st.certs && csr != [] && SigningContract(cfg, st, orderId, leaf) && 0 < leaf.notAfter
    ensures Consistent(cfg, WithCertificate(st, orderId, leaf, certId, csr))
  {
    hide OrdersOk, AuthsOk, CertsOk, AccountsOk, LimitsOk, SigningContract, ValidId;
    var next := WithCertificate(st, orderId, leaf, certId, csr);
    AccountsFrame(st, next);
    LimitsFrame(st, next);
    IssuedOrders(cfg, st, orderId, leaf, certId, csr);
    IssuedAuths(cfg, st, orderId, leaf, certId, csr);
    IssuedCerts(cfg, st, orderId, leaf, certId, csr);
    assert next.orders.Keys == st.orders.Keys;
    assert |next.orders.Keys| == |st.orders.Keys|;
  }

  // ----- Revocation and recovery -----

  lemma RevokedCerts(cfg: Config, st: State, id: Id, now: Time, reason: int)
    requires CertsOk(cfg, st) && id in st.certs && ValidReason(reason) && 0 < now
    ensures CertsOk(cfg, WithRevocation(st, id, now, reason))
  {
    hide ValidId;
    var next := WithRevocation(st, id, now, reason);
    forall k | k in next.certs ensures CertOk(cfg, next, k) {
      assert CertOk(cfg, st, k);
    }
  }

  lemma RevokedOrders(cfg: Config, st: State, id: Id, now: Time, reason: int)
    requires OrdersOk(cfg, st) && id in st.certs
    ensures OrdersOk(cfg, WithRevocation(st, id, now, reason))
  {
    hide AllowedName, ValidId, Distinct;
    var next := WithRevocation(st, id, now, reason);
    forall k | k in next.orders ensures OrderOk(cfg, next, k) {
      assert OrderOk(cfg, st, k);
      forall i | 0 <= i < |st.orders[k].authIds| ensures Backs(next, st.orders[k], i) {
        assert Backs(st, st.orders[k], i);
      }
    }
  }

  lemma RevocationConsistent(cfg: Config, st: State, id: Id, now: Time, reason: int)
    requires Inv(cfg, st) && id in st.certs && ValidReason(reason) && 0 < now
    ensures Consistent(cfg, WithRevocation(st, id, now, reason))
  {
    hide OrdersOk, AuthsOk, CertsOk, AccountsOk, LimitsOk, ValidId;
    var next := WithRevocation(st, id, now, reason);
    AccountsFrame(st, next);
    LimitsFrame(st, next);
    AuthsFrame(cfg, st, next);
    RevokedOrders(cfg, st, id, now, reason);
    RevokedCerts(cfg, st, id, now, reason);
    assert next.certs.Keys == st.certs.Keys;
    assert |next.certs.Keys| == |st.certs.Keys|;
  }

  lemma CrlConsistent(cfg: Config, st: State, now: Time, nextUpdate: Option<Time>)
    requires Consistent(cfg, st) && RefreshCrl(st, now, nextUpdate).Some?
    ensures Consistent(cfg, RefreshCrl(st, now, nextUpdate).value)
  {
    hide OrdersOk, AuthsOk, CertsOk, AccountsOk, LimitsOk, RevokedEntries, EntriesAccepted;
    var next := RefreshCrl(st, now, nextUpdate).value;
    AccountChangeOnlyCrl(cfg, st, next);
    LimitsFrame(st, next);
  }

  lemma AccountChangeOnlyCrl(cfg: Config, st: State, next: State)
    requires Linked(cfg, st) && next.accounts == st.accounts
    requires next.orders == st.orders && next.auths == st.auths && next.certs == st.certs
    ensures Linked(cfg, next)
  {
    hide OrdersOk, AuthsOk, CertsOk, AccountsOk;
    AccountsFrame(st, next);
    AccountChange(cfg, st, next);
  }

  lemma RecoverAuth(cfg: Config, st: State, id: Id)
    requires id in st.auths && AuthOk(cfg, st, id)
    ensures AuthOk(cfg, Recover(st), id)
  {
    hide AllowedName, ValidId;
  }

  lemma RecoverLinked(cfg: Config, st: State)
    requires Linked(cfg, st)
    ensures OrdersOk(cfg, Recover(st)) && AuthsOk(cfg, Recover(st)) && CertsOk(cfg, Recover(st))
  {
    hide AllowedName, ValidId, Distinct, AuthOk;
    var next := Recover(st);
    forall k | k in next.orders ensures OrderOk(cfg, next, k) {
      OrderStatusChange(cfg, st, next, k);
    }
    forall k | k in next.auths ensures AuthOk(cfg, next, k) {
      RecoverAuth(cfg, st, k);
    }
    CertsFrame(cfg, st, next);
  }

  lemma RecoverKeeps(cfg: Config, st: State)
    requires Inv(cfg, st)
    ensures Inv(cfg, Recover(st))
  {
    hide OrdersOk, AuthsOk, CertsOk, AccountsOk, LimitsOk, SizesOk;
    var next := Recover(st);
    AccountsFrame(st, next);
    LimitsFrame(st, next);
    RecoverLinked(cfg, st);
    assert next.auths.Keys == st.auths.Keys;
    SameSizes(st, next);
  }
}
