/** The certificate service itself: an object whose handlers search, copy and rewrite the snapshot in
    loops and publish it through one commit. Every handler is a step of the transition system. */
module AcmeServer {
  import opened Common
  import opened Validator
  import opened Acme
  import opened AcmeInvariant
  import opened AcmeSteps
  import opened AcmeStore
  import opened AcmeSnapshots

  class Server {
    const cfg: Config
    var up: bool
    var state: State
    var activity: map<Id, Time>
    /** The validations that are out, between the two locked regions of their handler. */
    var inflight: map<Id, Request>
    var disk: Option<State>
    ghost var clock: Time

    ghost function View(): System
      reads this
    {
      System(up, state, activity, inflight, disk, clock)
    }

    ghost predicate Valid()
      reads this
    {
      SystemInv(cfg, View())
    }

    /** A machine on which the service has never run. */
    constructor (cfg: Config)
      ensures this.cfg == cfg && View() == Pristine(cfg)
    {
      this.cfg := cfg;
      up, state, activity, inflight, disk, clock := false, Fresh(cfg), map[], map[], None, 0;
    }

    /** Prunes and writes the snapshot; the rename is the commit point. */
    method CommitState(next: State, now: Time, outcome: Outcome)
      modifies this`state, this`disk, this`activity
      ensures View() == Commit(old(View()), next, now, outcome)
    {
      hide Prune;
      var pruned := PruneState(next, now, activity);
      if outcome == NotRenamed {
        return;
      }
      disk := Some(pruned);
      state := pruned;
      activity := map[];
    }

    method TouchAccount(id: Id, now: Time)
      modifies this`activity
      ensures View() == Touch(old(View()), id, now)
    {
      activity := activity[id := now];
    }

    /** Checks under the lock that the signing key is still the active account's, and notes the activity. */
    method ActiveAccount(req: Request, now: Time) returns (ok: bool)
      modifies this`activity
      ensures ok == IsActive(state, req)
      ensures View() == if ok then Touch(old(View()), req.accountId, now) else old(View())
    {
      ok := req.accountId in state.accounts && state.accounts[req.accountId].status == AccountValid
            && state.accounts[req.accountId].thumbprint == req.key.thumbprint;
      if ok {
        TouchAccount(req.accountId, now);
      }
    }

    // ----- Accounts -----

    method CreateAccount(now: Time, key: Key, source: ClientId, onlyExisting: bool, id: Id, outcome: Outcome) returns (reply: Reply)
      requires Valid() && Enabled(cfg, View(), NewAccountCall(now, key, source, onlyExisting, id, outcome))
      modifies this
      ensures (View(), reply) == Step(cfg, old(View()), NewAccountCall(now, key, source, onlyExisting, id, outcome)) && Valid()
    {
      hide Prune, DenyCreation, HasThumbprint, RetrySeconds, Recent, Inv, SystemInv;
      ghost var e := NewAccountCall(now, key, source, onlyExisting, id, outcome);
      StepKeeps(cfg, View(), e);
      UpFacts(cfg, View());
      clock := now;
      var known := FindThumbprint(state, key.thumbprint);
      if known.Some? {
        OneAccount(state, key.thumbprint, known.value);
        TouchAccount(state.accounts[known.value].id, now);
        return Accepted(known.value);
      }
      if onlyExisting {
        return Refused;
      }
      var denied := AllowCreation(state, now, source, NewAccountKind);
      if denied.Some? {
        return denied.value;
      }
      var next := PruneState(state, now, activity);
      if |next.accounts| >= MAX_ACCOUNTS {
        return RateLimited(RetrySeconds(ACCOUNT_IDLE_LIFETIME));
      }
      next := RecordCreation(next, now, source, NewAccountKind);
      next := next.(accounts := next.accounts[id := Account(id, key, key.thumbprint, AccountValid, now, [])]);
      CommitState(next, now, outcome);
      return if outcome == Synced then Accepted(id) else InternalError;
    }

    /** `status` is None when the update leaves it alone. */
    method ChangeAccount(now: Time, req: Request, contact: bool, status: Option<AccountStatus>, outcome: Outcome) returns (reply: Reply)
      requires Valid() && Enabled(cfg, View(), UpdateAccountCall(now, req, contact, status, outcome))
      modifies this
      ensures (View(), reply) == Step(cfg, old(View()), UpdateAccountCall(now, req, contact, status, outcome)) && Valid()
    {
      hide Prune, SystemInv, DeactivateOrder, DeactivateAuth, IsActive;
      StepKeeps(cfg, View(), UpdateAccountCall(now, req, contact, status, outcome));
      clock := now;
      var ok := ActiveAccount(req, now);
      if !ok {
        return Refused;
      }
      AccountThere(state, req);
      if contact || status.Some? {
        var next := state;
        var a := next.accounts[req.accountId].(status := if status.Some? then status.value else AccountValid);
        next := next.(accounts := next.accounts[req.accountId := a]);
        if a.status == AccountDeactivated {
          var orders := DeactivateOrders(next.orders, req.accountId);
          var auths := DeactivateAuths(next.auths, req.accountId);
          next := next.(orders := orders, auths := auths);
        }
        CommitState(next, now, outcome);
        return if outcome == Synced then Accepted(req.accountId) else InternalError;
      }
      return Accepted(req.accountId);
    }

    method ChangeKey(now: Time, req: Request, key: Key, outcome: Outcome) returns (reply: Reply)
      requires Valid() && Enabled(cfg, View(), KeyChangeCall(now, req, key, outcome))
      modifies this
      ensures (View(), reply) == Step(cfg, old(View()), KeyChangeCall(now, req, key, outcome)) && Valid()
    {
      hide Prune, SystemInv, HasThumbprint, IsActive;
      StepKeeps(cfg, View(), KeyChangeCall(now, req, key, outcome));
      clock := now;
      if key.thumbprint == req.key.thumbprint {
        return Refused;
      }
      var ok := ActiveAccount(req, now);
      if !ok {
        return Refused;
      }
      var existing := FindThumbprint(state, key.thumbprint);
      if existing.Some? {
        return Refused;
      }
      AccountThere(state, req);
      var a := state.accounts[req.accountId].(key := key, thumbprint := key.thumbprint);
      CommitState(state.(accounts := state.accounts[req.accountId := a]), now, outcome);
      return if outcome == Synced then Accepted(req.accountId) else InternalError;
    }

    method ReadResource(now: Time, req: Request) returns (reply: Reply)
      requires Valid() && Enabled(cfg, View(), ReadCall(now, req))
      modifies this
      ensures (View(), reply) == Step(cfg, old(View()), ReadCall(now, req)) && Valid()
    {
      hide SystemInv, IsActive;
      StepKeeps(cfg, View(), ReadCall(now, req));
      clock := now;
      var ok := ActiveAccount(req, now);
      return if ok then Accepted(req.accountId) else Refused;
    }

    // ----- Orders -----

    /** The environment of a new order: the clock and fresh random values. */
    ghost predicate CanSubmit(now: Time, count: nat, ids: OrderIds)
      reads this
    {
      && up && 0 < now && clock <= now
      && |ids.auths| == |ids.tokens| == count && Distinct(ids.auths) && FreshId(View(), ids.order)
      && forall i :: 0 <= i < |ids.auths| ==> FreshId(View(), ids.auths[i]) && ValidId(ids.tokens[i])
    }

    /** Checks the identifiers without the lock, then creates the order under it. */
    method SubmitOrder(now: Time, req: Request, source: ClientId, raw: seq<string>, owners: Owners, ids: OrderIds, outcome: Outcome)
      returns (reply: Reply, names: Option<seq<string>>)
      requires Valid() && CanSubmit(now, |raw|, ids)
      modifies this
      ensures names.None? ==> View() == old(View()) && reply == Refused && forall n :: !AcceptableNames(cfg, owners, raw, n)
      ensures names.Some? ==> AcceptableNames(cfg, owners, raw, names.value)
      ensures names.Some? ==>
                && Enabled(cfg, old(View()), NewOrderCall(now, req, source, raw, names.value, owners, ids, outcome))
                && (View(), reply) == Step(cfg, old(View()), NewOrderCall(now, req, source, raw, names.value, owners, ids, outcome))
      ensures Valid()
    {
      hide SystemInv, AllowedName, FreshId, Distinct, ValidId, Step;
      names := CheckIdentifiers(cfg, owners, raw);
      if names.None? {
        return Refused, None;
      }
      ghost var e := NewOrderCall(now, req, source, raw, names.value, owners, ids, outcome);
      assert Enabled(cfg, View(), e);
      reply := CreateOrder(now, req, source, raw, names.value, owners, ids, outcome);
    }

    method CreateOrder(now: Time, req: Request, source: ClientId, ghost raw: seq<string>, names: seq<string>, ghost owners: Owners,
                       ids: OrderIds, outcome: Outcome) returns (reply: Reply)
      requires Valid() && Enabled(cfg, View(), NewOrderCall(now, req, source, raw, names, owners, ids, outcome))
      modifies this
      ensures (View(), reply) == Step(cfg, old(View()), NewOrderCall(now, req, source, raw, names, owners, ids, outcome)) && Valid()
    {
      hide Prune, SystemInv, DenyCreation, RetrySeconds, Recent, IsActive, AcceptableNames, FreshId, Distinct, ValidId, OpenOrders, WithAuths, Recorded;
      StepKeeps(cfg, View(), NewOrderCall(now, req, source, raw, names, owners, ids, outcome));
      ActiveAccounts(cfg, View());
      clock := now;
      var ok := ActiveAccount(req, now);
      if !ok {
        return Refused;
      }
      var denied := AllowCreation(state, now, source, NewOrderKind);
      if denied.Some? {
        return denied.value;
      }
      var next := PruneState(state, now, activity);
      AccountThere(state, req);
      TouchedAccountStays(state, now, old(activity), req.accountId);
      var pending := CountOpen(next, req.accountId);
      if pending >= MAX_ACCOUNT_ORDERS || |next.accounts[req.accountId].recentOrders| >= MAX_ACCOUNT_ORDERS
         || |next.orders| >= MAX_RECORDS || |next.auths| + |names| > MAX_RECORDS {
        return RateLimited(RetrySeconds(ORDER_LIFETIME));
      }
      var o := Order(ids.order, req.accountId, OrderPending, now + ORDER_LIFETIME, names, ids.auths, "", []);
      var auths := AddAuths(next.auths, o, ids.tokens);
      var a := next.accounts[req.accountId];
      next := next.(
        auths := auths,
        orders := next.orders[ids.order := o],
        accounts := next.accounts[req.accountId := a.(recentOrders := a.recentOrders + [now])]);
      next := RecordCreation(next, now, source, NewOrderKind);
      CommitState(next, now, outcome);
      return if outcome == Synced then Accepted(ids.order) else InternalError;
    }

    method DeactivateAuthorizationOf(now: Time, req: Request, authId: Id, outcome: Outcome) returns (reply: Reply)
      requires Valid() && Enabled(cfg, View(), DeactivateAuthCall(now, req, authId, outcome))
      modifies this
      ensures (View(), reply) == Step(cfg, old(View()), DeactivateAuthCall(now, req, authId, outcome)) && Valid()
    {
      hide Prune, SystemInv, IsActive;
      StepKeeps(cfg, View(), DeactivateAuthCall(now, req, authId, outcome));
      clock := now;
      var ok := ActiveAccount(req, now);
      if !ok {
        return Refused;
      }
      if authId !in state.auths || state.auths[authId].accountId != req.accountId {
        return Refused;
      }
      var next := state;
      var a := state.auths[authId].(status := AuthDeactivated);
      if a.challenge == ChallengeProcessing {
        a := a.(challenge := ChallengeInvalid);
      }
      next := next.(auths := next.auths[authId := a]);
      if a.orderId in next.orders {
        var o := next.orders[a.orderId];
        if o.status == OrderPending || o.status == OrderReady {
          next := next.(orders := next.orders[o.id := o.(status := OrderInvalid)]);
        }
      }
      CommitState(next, now, outcome);
      return if outcome == Synced then Accepted(authId) else InternalError;
    }

    // ----- Challenges -----

    method RetryInterruptedChallenge(authId: Id)
      modifies this`state
      ensures View() == RetryInterrupted(old(View()), authId)
    {
      if authId in state.auths && state.auths[authId].status == AuthPending && state.auths[authId].challenge == ChallengeProcessing {
        state := state.(auths := state.auths[authId := state.auths[authId].(challenge := ChallengePending)]);
      }
    }

    /** The first locked region of a challenge request. */
    method BeginChallenge(now: Time, req: Request, authId: Id, acknowledged: bool, outcome: Outcome) returns (reply: Reply)
      requires Valid() && Enabled(cfg, View(), StartCall(now, req, authId, acknowledged, outcome))
      modifies this
      ensures (View(), reply) == Step(cfg, old(View()), StartCall(now, req, authId, acknowledged, outcome)) && Valid()
    {
      hide Prune, SystemInv, IsActive;
      StepKeeps(cfg, View(), StartCall(now, req, authId, acknowledged, outcome));
      clock := now;
      var ok := ActiveAccount(req, now);
      if !ok {
        return Refused;
      }
      if authId !in state.auths || state.auths[authId].accountId != req.accountId {
        return Refused;
      }
      var a := state.auths[authId];
      if !acknowledged || a.challenge == ChallengeProcessing || a.status == AuthValid {
        return Accepted(authId);
      }
      if a.status != AuthPending || a.orderId !in state.orders || state.orders[a.orderId].status != OrderPending || a.expires <= now {
        return Refused;
      }
      if |inflight| >= MAX_VALIDATIONS {
        return RateLimited(5);
      }
      CommitState(state.(auths := state.auths[authId := a.(challenge := ChallengeProcessing)]), now, outcome);
      if outcome != Synced {
        RetryInterruptedChallenge(authId);
        return InternalError;
      }
      inflight := inflight[authId := req];
      return Accepted(authId);
    }

    /** The second locked region: the outbound validation came back with a proof or an error. */
    method EndChallenge(now: Time, authId: Id, proof: Option<Target>, outcome: Outcome) returns (reply: Reply)
      requires Valid() && Enabled(cfg, View(), FinishCall(now, authId, proof, outcome))
      modifies this
      ensures (View(), reply) == Step(cfg, old(View()), FinishCall(now, authId, proof, outcome)) && Valid()
    {
      hide Prune, SystemInv, IsActive, Finished;
      StepKeeps(cfg, View(), FinishCall(now, authId, proof, outcome));
      clock := now;
      var req := inflight[authId];
      inflight := inflight - {authId};
      if authId !in state.auths {
        return Refused;
      }
      var a := state.auths[authId];
      if a.status != AuthPending || a.challenge != ChallengeProcessing || a.orderId !in state.orders {
        return Accepted(authId);
      }
      var active := ActiveAccount(req, now);
      var next := NextSnapshot(now, req, authId, proof, active);
      CommitState(next, now, outcome);
      if outcome != Synced {
        RetryInterruptedChallenge(authId);
        return InternalError;
      }
      return Accepted(authId);
    }

    /** The snapshot that takes the result of a validation into account. */
    method NextSnapshot(now: Time, req: Request, authId: Id, proof: Option<Target>, active: bool) returns (next: State)
      requires authId in state.auths && state.auths[authId].orderId in state.orders && active == IsActive(state, req)
      ensures next == Finished(state, now, req, authId, proof)
    {
      hide AllValid;
      next := state;
      var a := next.auths[authId];
      var o := next.orders[a.orderId];
      if !active && req.accountId in next.accounts && next.accounts[req.accountId].status == AccountValid
         && next.accounts[req.accountId].thumbprint != req.key.thumbprint && now < a.expires && o.status == OrderPending {
        return next.(auths := next.auths[authId := a.(challenge := ChallengePending)]);
      }
      if proof.None? || !active || a.expires <= now || o.status != OrderPending {
        a := a.(status := AuthInvalid, challenge := ChallengeInvalid);
        o := o.(status := OrderInvalid);
      } else {
        a := a.(status := AuthValid, challenge := ChallengeValid, validated := Some(now), target := proof.value);
      }
      next := next.(auths := next.auths[authId := a]);
      if o.status == OrderPending {
        var ready := AllAuthsValid(next, o.authIds);
        if !ready {
          return;
        }
        o := o.(status := OrderReady);
      }
      next := next.(orders := next.orders[o.id := o]);
    }

    // ----- Issuance and revocation -----

    method FinalizeOrder(now: Time, req: Request, orderId: Id, csr: seq<int>, owners: Owners, signing: Signing, certId: Id, outcome: Outcome)
      returns (reply: Reply)
      requires Valid() && Enabled(cfg, View(), FinalizeCall(now, req, orderId, csr, owners, signing, certId, outcome))
      modifies this
      ensures (View(), reply) == Step(cfg, old(View()), FinalizeCall(now, req, orderId, csr, owners, signing, certId, outcome)) && Valid()
    {
      hide Prune, SystemInv, IsActive, StillProven, SigningContract, FreshId;
      StepKeeps(cfg, View(), FinalizeCall(now, req, orderId, csr, owners, signing, certId, outcome));
      clock := now;
      if csr == [] {
        return Refused;
      }
      var ok := ActiveAccount(req, now);
      if !ok {
        return Refused;
      }
      if orderId !in state.orders || state.orders[orderId].accountId != req.accountId {
        return Refused;
      }
      var o := state.orders[orderId];
      if o.status == OrderValid && o.csr == csr {
        return Accepted(orderId);
      }
      if o.status != OrderReady || o.expires <= now {
        return Refused;
      }
      if |state.certs| >= MAX_RECORDS {
        return Refused;
      }
      var proven := AllStillProven(state, now, owners, o.authIds);
      if !proven {
        CommitState(state.(orders := state.orders[orderId := o.(status := OrderInvalid)]), now, outcome);
        return if outcome == Synced then Refused else InternalError;
      }
      match signing {
        case BadRequest =>
          return Refused;
        case SigningFailed =>
          return InternalError;
        case Signed(leaf) =>
          var next := state.(certs := state.certs[certId := Certificate(certId, req.accountId, orderId, leaf, leaf.serial, leaf.notAfter, None, 0)]);
          next := next.(orders := next.orders[orderId :=
            o.(status := OrderValid, certificateId := certId, csr := csr, expires := leaf.notAfter)]);
          CommitState(next, now, outcome);
          return if outcome == Synced then Accepted(orderId) else InternalError;
      }
    }

    method MayRevoke(now: Time, revoker: Revoker, owners: Owners, c: Certificate) returns (ok: bool)
      modifies this`activity
      ensures ok == CanRevoke(state, now, owners, revoker, c)
      ensures View() == if revoker.ByAccount? && IsActive(state, revoker.req) then Touch(old(View()), revoker.req.accountId, now) else old(View())
    {
      hide IsActive, ProvenFor;
      match revoker {
        case ByCertificateKey(key) =>
          return key.thumbprint == c.leaf.keyThumbprint;
        case ByAccount(req) =>
          var active := ActiveAccount(req, now);
          if !active {
            return false;
          }
          AccountThere(state, req);
          var accountId := state.accounts[req.accountId].id;
          if accountId == c.accountId {
            return true;
          }
          ok := AuthorizedForCertificate(state, now, owners, accountId, c.leaf.names);
      }
    }

    method RevokeCertificate(now: Time, revoker: Revoker, leaf: Leaf, reason: int, owners: Owners, nextUpdate: Option<Time>, outcome: Outcome)
      returns (reply: Reply)
      requires Valid() && Enabled(cfg, View(), RevokeCall(now, revoker, leaf, reason, owners, nextUpdate, outcome))
      modifies this
      ensures (View(), reply) == Step(cfg, old(View()), RevokeCall(now, revoker, leaf, reason, owners, nextUpdate, outcome)) && Valid()
    {
      hide Prune, SystemInv, IsActive, CanRevoke, RefreshCrl, Inv;
      StepKeeps(cfg, View(), RevokeCall(now, revoker, leaf, reason, owners, nextUpdate, outcome));
      UpFacts(cfg, View());
      clock := now;
      if !ValidReason(reason) {
        return Refused;
      }
      var issued := FindRecorded(state, leaf);
      if issued.None? {
        return Refused;
      }
      OneRecord(state, leaf, issued.value);
      var c := state.certs[issued.value];
      var allowed := MayRevoke(now, revoker, owners, c);
      if !allowed || c.revokedAt.Some? {
        return Refused;
      }
      var next := state.(certs := state.certs[issued.value := c.(revokedAt := Some(now), reason := reason)]);
      var refreshed := RefreshList(next, now, nextUpdate);
      if refreshed.None? {
        return InternalError;
      }
      CommitState(refreshed.value, now, outcome);
      return if outcome == Synced then Accepted(c.id) else InternalError;
    }

    method ServeList(now: Time, nextUpdate: Option<Time>, outcome: Outcome) returns (reply: Reply)
      requires Valid() && Enabled(cfg, View(), CrlCall(now, nextUpdate, outcome))
      modifies this
      ensures (View(), reply) == Step(cfg, old(View()), CrlCall(now, nextUpdate, outcome)) && Valid()
    {
      hide Prune, SystemInv, RefreshCrl, Inv;
      StepKeeps(cfg, View(), CrlCall(now, nextUpdate, outcome));
      UpFacts(cfg, View());
      clock := now;
      if state.crl.None? || state.crlNextUpdate <= now + MINUTE {
        var next := RefreshList(state, now, nextUpdate);
        if next.None? {
          return InternalError;
        }
        ListThere(state, now, nextUpdate, activity);
        CommitState(next.value, now, outcome);
        if outcome != Synced {
          return InternalError;
        }
      }
      return ServedCrl(state.crl.value);
    }

    // ----- Start and stop -----

    method Stop(now: Time)
      requires Valid() && Enabled(cfg, View(), CrashEvent(now))
      modifies this
      ensures View() == Step(cfg, old(View()), CrashEvent(now)).0 && Valid()
    {
      hide SystemInv;
      StepKeeps(cfg, View(), CrashEvent(now));
      clock := now;
      up, activity, inflight := false, map[], map[];
    }

    /** Loads and checks the file, forgets interrupted validations, and saves the result. */
    method Start(now: Time, outcome: Outcome) returns (reply: Reply)
      requires Valid() && Enabled(cfg, View(), RestartCall(now, outcome))
      modifies this
      ensures (View(), reply) == Step(cfg, old(View()), RestartCall(now, outcome)) && Valid()
    {
      hide SystemInv, Prune, ValidateState, Recover;
      StepKeeps(cfg, View(), RestartCall(now, outcome));
      clock := now;
      up, activity, inflight := false, map[], map[];
      var loaded := Fresh(cfg);
      if disk.Some? {
        var ok := LoadsState(cfg, disk.value);
        if !ok {
          return Refused;
        }
        loaded := RecoverState(disk.value);
      }
      state := loaded;
      CommitState(loaded, now, outcome);
      if outcome != Synced {
        return InternalError;
      }
      up := true;
      return Accepted("");
    }
  }

  lemma UpFacts(cfg: Config, sys: System)
    requires SystemInv(cfg, sys)
    ensures sys.up ==> DistinctKeys(sys.mem) && DistinctSerials(sys.mem)
  {
    hide Recover, FlightsMatch, OrdersOk, AuthsOk, HeaderOk, LimitsOk, AccountOk, CertOk;
  }

  lemma ActiveAccounts(cfg: Config, sys: System)
    requires SystemInv(cfg, sys)
    ensures sys.up ==> forall id :: id in sys.mem.accounts ==> 0 < sys.mem.accounts[id].lastActive
  {
    hide Recover, FlightsMatch, OrdersOk, AuthsOk, HeaderOk, LimitsOk, CertsOk, AccountLoads;
  }

  /** The key determines the account, so any search finds the same one. */
  lemma OneAccount(st: State, thumbprint: string, id: Id)
    requires DistinctKeys(st) && id in st.accounts && st.accounts[id].thumbprint == thumbprint
    ensures HasThumbprint(st, thumbprint) && AccountWith(st, thumbprint) == id
  {
  }

  /** The serial determines the certificate. */
  lemma OneRecord(st: State, leaf: Leaf, id: Id)
    requires DistinctSerials(st) && IsRecorded(st, leaf, id)
    ensures RecordedId(st, leaf) == id
  {
  }

  lemma AccountThere(st: State, req: Request)
    requires IsActive(st, req)
    ensures req.accountId in st.accounts
  {
  }

  lemma ListThere(st: State, now: Time, nextUpdate: Option<Time>, activity: map<Id, Time>)
    ensures var r := RefreshCrl(st, now, nextUpdate); r.Some? ==> Prune(r.value, now, activity).crl == r.value.crl && r.value.crl.Some?
  {
  }
}
