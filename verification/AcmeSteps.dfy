/** Every step, whatever fails in it, leaves a system whose file the server would accept again. */
module AcmeSteps {
  import opened Common
  import opened Validator
  import opened Acme
  import opened AcmeInvariant
  import opened AcmeUpdates
  import opened AcmeOrderUpdates

  /** The challenge is processing exactly when a validation of it is out, on behalf of the right account. */
  ghost predicate FlightMatches(a: Authorization, inflight: map<Id, Request>, id: Id) {
    && (a.challenge == ChallengeProcessing <==> id in inflight)
    && (id in inflight ==> inflight[id].accountId == a.accountId)
  }

  ghost predicate FlightsMatch(auths: map<Id, Authorization>, inflight: map<Id, Request>) {
    forall id :: id in auths ==> FlightMatches(auths[id], inflight, id)
  }

  ghost predicate OthersMatch(auths: map<Id, Authorization>, inflight: map<Id, Request>, except: Id) {
    forall id :: id in auths && id != except ==> FlightMatches(auths[id], inflight, id)
  }

  ghost predicate Running(cfg: Config, sys: System) {
    && sys.disk.Some? && Inv(cfg, sys.mem)
    && Recover(sys.mem) == Recover(sys.disk.value)
    && FlightsMatch(sys.mem.auths, sys.inflight) && |sys.inflight| <= MAX_VALIDATIONS
  }

  ghost predicate SystemInv(cfg: Config, sys: System) {
    && (sys.disk.Some? ==> Inv(cfg, sys.disk.value))
    && (sys.up ==> Running(cfg, sys))
  }

  lemma TouchKeeps(cfg: Config, sys: System, id: Id, now: Time)
    requires SystemInv(cfg, sys)
    ensures SystemInv(cfg, Touch(sys, id, now))
  {
    hide Inv;
  }

  lemma PrunedFlights(st: State, now: Time, activity: map<Id, Time>, inflight: map<Id, Request>)
    requires FlightsMatch(st.auths, inflight)
    ensures FlightsMatch(Prune(st, now, activity).auths, inflight)
  {
    hide AuthDropped, CertDropped, AccountDropped, Recent, LiveLimits;
  }

  /** Committing a consistent snapshot whose surviving authorizations agree with the validations in
      flight, with any outcome. */
  lemma CommitKeeps(cfg: Config, sys: System, next: State, now: Time, outcome: Outcome)
    requires SystemInv(cfg, sys) && sys.up && Consistent(cfg, next)
    requires FlightsMatch(Prune(next, now, sys.activity).auths, sys.inflight)
    ensures SystemInv(cfg, Commit(sys, next, now, outcome)) && Commit(sys, next, now, outcome).up
  {
    hide Inv, Consistent, Prune, FlightsMatch;
    PruneEstablishes(cfg, next, now, sys.activity);
  }

  // ----- Accounts -----

  lemma NewAccountKeeps(cfg: Config, sys: System, now: Time, key: Key, source: ClientId, onlyExisting: bool, id: Id, outcome: Outcome)
    requires SystemInv(cfg, sys) && sys.up && 0 < now && key.public && FreshId(sys, id)
    ensures SystemInv(cfg, NewAccount(sys, now, key, source, onlyExisting, id, outcome).0)
  {
    hide Inv, Consistent, Prune, FlightsMatch, DenyCreation, ValidId, HasThumbprint, Recorded;
    if !HasThumbprint(sys.mem, key.thumbprint) && !onlyExisting && DenyCreation(sys.mem, now, source, NewAccountKind).None?
       && |Prune(sys.mem, now, sys.activity).accounts| < MAX_ACCOUNTS {
      var pruned := Prune(sys.mem, now, sys.activity);
      var next := WithAccount(pruned, now, key, source, id);
      NewAccountConsistent(cfg, sys, now, key, source, id);
      PrunedFlights(sys.mem, now, sys.activity, sys.inflight);
      PrunedFlights(next, now, sys.activity, sys.inflight);
      CommitKeeps(cfg, sys, next, now, outcome);
    }
  }

  /** A pending authorization of a deactivated account goes with its order. */
  lemma DeactivatedGone(st: State, id: Id, k: Id, now: Time)
    requires Facts(st) && id in st.accounts && k in st.auths
    requires st.auths[k].accountId == id && st.auths[k].status == AuthPending
    ensures AuthDropped(WithAccountStatus(st, id, AccountDeactivated), now, k)
  {
    var next := WithAccountStatus(st, id, AccountDeactivated);
    assert AuthFact(st, k);
    var orderId := st.auths[k].orderId;
    assert !Live(next.orders[orderId], now) && k in next.orders[orderId].authIds;
  }

  lemma DeactivationFlights(st: State, id: Id, status: AccountStatus, inflight: map<Id, Request>, now: Time, activity: map<Id, Time>)
    requires Facts(st) && id in st.accounts && FlightsMatch(st.auths, inflight)
    ensures FlightsMatch(Prune(WithAccountStatus(st, id, status), now, activity).auths, inflight)
  {
    hide Prune, AuthDropped, Facts;
    var next := WithAccountStatus(st, id, status);
    var p := Prune(next, now, activity);
    forall k | k in st.auths && st.auths[k].accountId == id && st.auths[k].status == AuthPending && status == AccountDeactivated
      ensures k !in p.auths
    {
      DeactivatedGone(st, id, k, now);
      PruneAt(next, now, activity, k);
    }
    forall k | k in p.auths
      ensures FlightMatches(p.auths[k], inflight, k)
    {
      PruneAt(next, now, activity, k);
    }
  }

  lemma UpdateAccountKeeps(cfg: Config, sys: System, now: Time, req: Request, contact: bool, status: Option<AccountStatus>, outcome: Outcome)
    requires SystemInv(cfg, sys) && sys.up
    ensures SystemInv(cfg, UpdateAccount(sys, now, req, contact, status, outcome).0)
  {
    hide Inv, Consistent, Prune, FlightsMatch, WithAccountStatus;
    if IsActive(sys.mem, req) {
      var touched := Touch(sys, req.accountId, now);
      TouchKeeps(cfg, sys, req.accountId, now);
      var to := if status.Some? then status.value else AccountValid;
      InvFacts(cfg, sys.mem);
      AccountStatusConsistent(cfg, sys.mem, req.accountId, to);
      DeactivationFlights(sys.mem, req.accountId, to, sys.inflight, now, touched.activity);
      CommitKeeps(cfg, touched, WithAccountStatus(sys.mem, req.accountId, to), now, outcome);
    }
  }

  lemma KeyChangeKeeps(cfg: Config, sys: System, now: Time, req: Request, key: Key, outcome: Outcome)
    requires SystemInv(cfg, sys) && sys.up && key.public
    ensures SystemInv(cfg, KeyChange(sys, now, req, key, outcome).0)
  {
    hide Inv, Consistent, Prune, FlightsMatch, HasThumbprint;
    if IsActive(sys.mem, req) {
      var touched := Touch(sys, req.accountId, now);
      TouchKeeps(cfg, sys, req.accountId, now);
      if !HasThumbprint(sys.mem, key.thumbprint) {
        var next := WithKey(sys.mem, req.accountId, key);
        NewKeyConsistent(cfg, sys.mem, req.accountId, key);
        PrunedFlights(next, now, touched.activity, sys.inflight);
        CommitKeeps(cfg, touched, next, now, outcome);
      }
    }
  }

  // ----- Orders -----

  /** The touch that precedes a new order keeps its account from being pruned. */
  lemma TouchedAccountStays(st: State, now: Time, activity: map<Id, Time>, id: Id)
    requires id in st.accounts && 0 < st.accounts[id].lastActive
    ensures id in Prune(st, now, activity[id := now]).accounts
  {
    hide Referenced, AuthDropped, CertDropped, LiveLimits;
  }

  lemma NewOrderFlights(st: State, order: Order, tokens: seq<string>, inflight: map<Id, Request>)
    requires FlightsMatch(st.auths, inflight) && |order.authIds| == |order.identifiers| == |tokens| && Distinct(order.authIds)
    requires forall i :: 0 <= i < |order.authIds| ==> order.authIds[i] !in st.auths && order.authIds[i] !in inflight
    ensures FlightsMatch(WithAuths(st.auths, order, tokens, |tokens|), inflight)
  {
    hide WithAuths, Distinct;
    var auths := WithAuths(st.auths, order, tokens, |tokens|);
    WithAuthsContents(st.auths, order, tokens, |tokens|);
    forall k | k in auths
      ensures FlightMatches(auths[k], inflight, k)
    {
      if k in st.auths {
        assert k !in order.authIds;
      } else {
        var i :| 0 <= i < |tokens| && order.authIds[i] == k;
      }
    }
  }

  lemma PrunedKeys(st: State, now: Time, activity: map<Id, Time>)
    ensures Prune(st, now, activity).orders.Keys <= st.orders.Keys
    ensures Prune(st, now, activity).auths.Keys <= st.auths.Keys
  {
    hide Prune;
    forall id ensures id in Prune(st, now, activity).orders ==> id in st.orders {
      PruneAt(st, now, activity, id);
    }
    forall id ensures id in Prune(st, now, activity).auths ==> id in st.auths {
      PruneAt(st, now, activity, id);
    }
  }

  lemma NewOrderAddable(cfg: Config, sys: System, now: Time, req: Request, source: ClientId, raw: seq<string>, names: seq<string>,
                        owners: Owners, ids: OrderIds, pruned: State)
    requires 0 < now && AcceptableNames(cfg, owners, raw, names) && req.accountId in pruned.accounts
    requires |ids.auths| == |ids.tokens| == |names| && Distinct(ids.auths) && FreshId(sys, ids.order)
    requires forall i :: 0 <= i < |ids.auths| ==> FreshId(sys, ids.auths[i]) && ValidId(ids.tokens[i])
    requires pruned.orders.Keys <= sys.mem.orders.Keys && pruned.auths.Keys <= sys.mem.auths.Keys
    ensures Addable(cfg, pruned, Order(ids.order, req.accountId, OrderPending, now + ORDER_LIFETIME, names, ids.auths, "", []), ids.tokens)
  {
    hide AllowedName, ValidId, Distinct, CanonicalIdentifier;
  }

  lemma NewOrderKeeps(cfg: Config, sys: System, now: Time, req: Request, source: ClientId, raw: seq<string>, names: seq<string>,
                      owners: Owners, ids: OrderIds, outcome: Outcome)
    requires SystemInv(cfg, sys) && sys.up && 0 < now && AcceptableNames(cfg, owners, raw, names)
    requires |ids.auths| == |ids.tokens| == |names| && Distinct(ids.auths) && FreshId(sys, ids.order)
    requires forall i :: 0 <= i < |ids.auths| ==> FreshId(sys, ids.auths[i]) && ValidId(ids.tokens[i])
    ensures SystemInv(cfg, NewOrder(sys, now, req, source, names, ids, outcome).0)
  {
    hide Inv, Consistent, Prune, FlightsMatch, DenyCreation, ValidId, Distinct, AcceptableNames, OrderCapacityReached, WithAuths, Recorded;
    if IsActive(sys.mem, req) {
      var touched := Touch(sys, req.accountId, now);
      TouchKeeps(cfg, sys, req.accountId, now);
      var pruned := Prune(sys.mem, now, touched.activity);
      if DenyCreation(sys.mem, now, source, NewOrderKind).None? && req.accountId in pruned.accounts
         && !OrderCapacityReached(pruned, req.accountId, |names|) {
        var order := Order(ids.order, req.accountId, OrderPending, now + ORDER_LIFETIME, names, ids.auths, "", []);
        var next := WithOrder(pruned, now, source, order, ids.tokens);
        PrunedKeys(sys.mem, now, touched.activity);
        NewOrderAddable(cfg, sys, now, req, source, raw, names, owners, ids, pruned);
        NewOrderConsistent(cfg, sys.mem, touched.activity, now, source, order, ids.tokens);
        PrunedFlights(sys.mem, now, touched.activity, sys.inflight);
        NewOrderFlights(pruned, order, ids.tokens, sys.inflight);
        PrunedFlights(next, now, touched.activity, sys.inflight);
        CommitKeeps(cfg, touched, next, now, outcome);
      }
    }
  }

  // ----- Authorizations -----

  lemma DeactivatedAuthFlights(st: State, authId: Id, inflight: map<Id, Request>, now: Time, activity: map<Id, Time>)
    requires Facts(st) && authId in st.auths && FlightsMatch(st.auths, inflight)
    ensures FlightsMatch(Prune(WithAuthDeactivated(st, authId), now, activity).auths, inflight)
  {
    hide Prune;
    var next := WithAuthDeactivated(st, authId);
    var p := Prune(next, now, activity);
    assert AuthFact(st, authId);
    var orderId := st.auths[authId].orderId;
    if st.auths[authId].challenge == ChallengeProcessing {
      assert !Live(next.orders[orderId], now) && authId in next.orders[orderId].authIds;
      assert AuthDropped(next, now, authId);
    }
    PruneAt(next, now, activity, authId);
    forall k | k in p.auths
      ensures FlightMatches(p.auths[k], inflight, k)
    {
      PruneAt(next, now, activity, k);
    }
  }

  lemma DeactivateAuthKeeps(cfg: Config, sys: System, now: Time, req: Request, authId: Id, outcome: Outcome)
    requires SystemInv(cfg, sys) && sys.up
    ensures SystemInv(cfg, DeactivateAuthorization(sys, now, req, authId, outcome).0)
  {
    hide Inv, Consistent, Prune, FlightsMatch, WithAuthDeactivated, IsActive;
    if IsActive(sys.mem, req) {
      var touched := Touch(sys, req.accountId, now);
      TouchKeeps(cfg, sys, req.accountId, now);
      if OwnsAuth(sys.mem, req, authId) {
        InvFacts(cfg, sys.mem);
        AuthDeactivationConsistent(cfg, sys.mem, authId);
        DeactivatedAuthFlights(sys.mem, authId, sys.inflight, now, touched.activity);
        CommitKeeps(cfg, touched, WithAuthDeactivated(sys.mem, authId), now, outcome);
      }
    }
  }

  // ----- Outbound validations -----

  /** Everything but the validation of `authId`, which is not out, is as it should be. */
  ghost predicate Interrupted(cfg: Config, sys: System, authId: Id) {
    && sys.up && sys.disk.Some? && Inv(cfg, sys.disk.value) && Inv(cfg, sys.mem)
    && Recover(sys.mem) == Recover(sys.disk.value)
    && authId !in sys.inflight && OthersMatch(sys.mem.auths, sys.inflight, authId) && |sys.inflight| <= MAX_VALIDATIONS
  }

  lemma InvFollows(cfg: Config, st: State, next: State)
    requires Inv(cfg, st) && Consistent(cfg, next) && next.orders == st.orders
    ensures Inv(cfg, next)
  {
    hide Consistent;
  }

  lemma ChallengeRecover(st: State, authId: Id, status: ChallengeStatus)
    requires authId in st.auths
    requires st.auths[authId].challenge in {ChallengePending, ChallengeProcessing} && status in {ChallengePending, ChallengeProcessing}
    ensures Recover(WithChallenge(st, authId, status)) == Recover(st)
  {
    assert Recover(WithChallenge(st, authId, status)).auths == Recover(st).auths;
  }

  lemma ChallengeFact(cfg: Config, st: State, authId: Id)
    requires Inv(cfg, st) && authId in st.auths
    ensures st.auths[authId].challenge == ChallengeProcessing ==> st.auths[authId].status == AuthPending
    ensures st.auths[authId].status == AuthPending ==> st.auths[authId].challenge in {ChallengePending, ChallengeProcessing}
    ensures st.auths[authId].orderId in st.orders
  {
    hide Inv;
    InvFacts(cfg, st);
    assert AuthFact(st, authId);
  }

  /** A challenge interrupted by a failed write is not left processing. */
  lemma RetryKeeps(cfg: Config, sys: System, authId: Id)
    requires Interrupted(cfg, sys, authId)
    ensures SystemInv(cfg, RetryInterrupted(sys, authId)) && RetryInterrupted(sys, authId).up
  {
    hide Inv, Recover, Consistent;
    if authId in sys.mem.auths {
      ChallengeFact(cfg, sys.mem, authId);
      if sys.mem.auths[authId].challenge == ChallengeProcessing {
        ChallengeConsistent(cfg, sys.mem, authId, ChallengePending);
        InvFollows(cfg, sys.mem, WithChallenge(sys.mem, authId, ChallengePending));
        ChallengeRecover(sys.mem, authId, ChallengePending);
      }
    }
  }

  /** A renamed snapshot, with the validations that are out once the step is over. */
  lemma RenamedKeeps(cfg: Config, sys: System, next: State, now: Time, outcome: Outcome, inflight: map<Id, Request>)
    requires sys.up && !outcome.NotRenamed? && Consistent(cfg, next)
    requires FlightsMatch(next.auths, inflight) && |inflight| <= MAX_VALIDATIONS
    ensures SystemInv(cfg, Commit(sys, next, now, outcome).(inflight := inflight))
  {
    hide Inv, Consistent, Prune, FlightsMatch;
    PruneEstablishes(cfg, next, now, sys.activity);
    PrunedFlights(next, now, sys.activity, inflight);
  }

  lemma RenamedInterrupted(cfg: Config, sys: System, next: State, now: Time, outcome: Outcome, authId: Id)
    requires sys.up && !outcome.NotRenamed? && Consistent(cfg, next)
    requires authId !in sys.inflight && OthersMatch(next.auths, sys.inflight, authId) && |sys.inflight| <= MAX_VALIDATIONS
    ensures Interrupted(cfg, Commit(sys, next, now, outcome), authId)
  {
    hide Inv, Consistent, Prune, Recover, FlightMatches;
    PruneEstablishes(cfg, next, now, sys.activity);
    var p := Prune(next, now, sys.activity);
    forall k | k in p.auths && k != authId ensures FlightMatches(p.auths[k], sys.inflight, k) {
      PruneAt(next, now, sys.activity, k);
    }
  }

  lemma StartFlights(st: State, authId: Id, req: Request, inflight: map<Id, Request>)
    requires FlightsMatch(st.auths, inflight) && authId in st.auths && st.auths[authId].accountId == req.accountId
    ensures FlightsMatch(WithChallenge(st, authId, ChallengeProcessing).auths, inflight[authId := req])
    ensures OthersMatch(WithChallenge(st, authId, ChallengeProcessing).auths, inflight, authId)
    ensures OthersMatch(st.auths, inflight, authId)
  {
    var next := WithChallenge(st, authId, ChallengeProcessing);
    forall k | k in next.auths && k != authId ensures FlightMatches(next.auths[k], inflight, k) {
      assert FlightMatches(st.auths[k], inflight, k);
    }
  }

  lemma StartedKeeps(cfg: Config, sys: System, now: Time, req: Request, authId: Id, outcome: Outcome)
    requires SystemInv(cfg, sys) && sys.up && OwnsAuth(sys.mem, req, authId) && |sys.inflight| < MAX_VALIDATIONS
    requires sys.mem.auths[authId].challenge != ChallengeProcessing && sys.mem.auths[authId].status == AuthPending
    ensures var touched := Touch(sys, req.accountId, now);
            var after := Commit(touched, WithChallenge(sys.mem, authId, ChallengeProcessing), now, outcome);
            && SystemInv(cfg, RetryInterrupted(after, authId))
            && (outcome.Synced? ==> SystemInv(cfg, after.(inflight := after.inflight[authId := req])))
            && authId !in sys.inflight
  {
    hide Inv, Consistent, Prune, Recover, WithChallenge, RetryInterrupted, OthersMatch;
    var touched := Touch(sys, req.accountId, now);
    var next := WithChallenge(sys.mem, authId, ChallengeProcessing);
    var after := Commit(touched, next, now, outcome);
    assert FlightMatches(sys.mem.auths[authId], sys.inflight, authId);
    StartFlights(sys.mem, authId, req, sys.inflight);
    ChallengeConsistent(cfg, sys.mem, authId, ChallengeProcessing);
    if outcome.NotRenamed? {
      RetryKeeps(cfg, touched, authId);
    } else {
      RenamedKeeps(cfg, touched, next, now, outcome, sys.inflight[authId := req]);
      RenamedInterrupted(cfg, touched, next, now, outcome, authId);
      RetryKeeps(cfg, after, authId);
    }
  }

  lemma StartKeeps(cfg: Config, sys: System, now: Time, req: Request, authId: Id, acknowledged: bool, outcome: Outcome)
    requires SystemInv(cfg, sys) && sys.up
    ensures SystemInv(cfg, StartChallenge(sys, now, req, authId, acknowledged, outcome).0)
  {
    hide SystemInv, IsActive, Commit, RetryInterrupted, WithChallenge;
    TouchKeeps(cfg, sys, req.accountId, now);
    if IsActive(sys.mem, req) && OwnsAuth(sys.mem, req, authId) && acknowledged
       && sys.mem.auths[authId].challenge != ChallengeProcessing && CanStart(sys.mem, now, authId)
       && |sys.inflight| < MAX_VALIDATIONS {
      StartedKeeps(cfg, sys, now, req, authId, outcome);
    }
  }

  lemma FinishedAuth(st: State, now: Time, req: Request, authId: Id, proof: Option<Target>)
    requires authId in st.auths && st.auths[authId].orderId in st.orders
    ensures var auths := Finished(st, now, req, authId, proof).auths;
            && auths.Keys == st.auths.Keys && auths[authId].challenge != ChallengeProcessing
            && forall k :: k in st.auths && k != authId ==> auths[k] == st.auths[k]
  {
    var a := FinishedForm(st, now, req, authId, proof);
  }

  /** Only the record of the validated authorization changes. */
  lemma FinishedForm(st: State, now: Time, req: Request, authId: Id, proof: Option<Target>) returns (a: Authorization)
    requires authId in st.auths && st.auths[authId].orderId in st.orders
    ensures Finished(st, now, req, authId, proof).auths == st.auths[authId := a] && a.challenge != ChallengeProcessing
  {
    hide IsActive, AllValid, RolledOver;
    a := Finished(st, now, req, authId, proof).auths[authId];
  }

  lemma FinishedFlights(st: State, now: Time, req: Request, authId: Id, proof: Option<Target>, inflight: map<Id, Request>)
    requires authId in st.auths && st.auths[authId].orderId in st.orders
    requires authId !in inflight && OthersMatch(st.auths, inflight, authId)
    ensures FlightsMatch(Finished(st, now, req, authId, proof).auths, inflight)
  {
    hide Finished;
    FinishedAuth(st, now, req, authId, proof);
    var auths := Finished(st, now, req, authId, proof).auths;
    forall k | k in auths ensures FlightMatches(auths[k], inflight, k) {
      assert k != authId ==> FlightMatches(st.auths[k], inflight, k);
    }
  }

  lemma FinishedConsistent(cfg: Config, st: State, now: Time, req: Request, authId: Id, proof: Option<Target>)
    requires Inv(cfg, st) && authId in st.auths && st.auths[authId].status == AuthPending && st.auths[authId].orderId in st.orders
    requires proof.Some? ==> ProvenTarget(proof.value)
    ensures Consistent(cfg, Finished(st, now, req, authId, proof))
  {
    hide Inv, Consistent, RolledOver, WithProof, WithChallenge;
    ProofConsistent(cfg, st, now, req, authId, proof);
    ChallengeConsistent(cfg, st, authId, ChallengePending);
  }

  lemma FinishedKeeps(cfg: Config, sys: System, next: State, now: Time, outcome: Outcome, authId: Id)
    requires Interrupted(cfg, sys, authId) && Consistent(cfg, next) && FlightsMatch(next.auths, sys.inflight)
    ensures var after := Commit(sys, next, now, outcome);
            SystemInv(cfg, if outcome.Synced? then after else RetryInterrupted(after, authId))
  {
    hide Inv, Consistent, Prune, Recover, RetryInterrupted, SystemInv, FlightMatches;
    var after := Commit(sys, next, now, outcome);
    if outcome.NotRenamed? {
      RetryKeeps(cfg, sys, authId);
    } else {
      RenamedKeeps(cfg, sys, next, now, outcome, sys.inflight);
      RenamedInterrupted(cfg, sys, next, now, outcome, authId);
      RetryKeeps(cfg, after, authId);
    }
  }

  lemma FlightEnds(cfg: Config, sys0: System, authId: Id)
    requires SystemInv(cfg, sys0) && sys0.up && authId in sys0.inflight
    ensures Interrupted(cfg, sys0.(inflight := sys0.inflight - {authId}), authId)
    ensures authId !in sys0.mem.auths ==> SystemInv(cfg, sys0.(inflight := sys0.inflight - {authId}))
    ensures authId in sys0.mem.auths ==> sys0.mem.auths[authId].challenge == ChallengeProcessing
  {
    hide Inv, Recover;
    var inflight := sys0.inflight - {authId};
    SubsetSize(inflight.Keys, sys0.inflight.Keys);
    forall k | k in sys0.mem.auths && k != authId ensures FlightMatches(sys0.mem.auths[k], inflight, k) {
      assert FlightMatches(sys0.mem.auths[k], sys0.inflight, k);
    }
    assert authId in sys0.mem.auths ==> FlightMatches(sys0.mem.auths[authId], sys0.inflight, authId);
  }

  lemma FinishKeeps(cfg: Config, sys0: System, now: Time, authId: Id, proof: Option<Target>, outcome: Outcome)
    requires SystemInv(cfg, sys0) && sys0.up && authId in sys0.inflight && (proof.Some? ==> ProvenTarget(proof.value))
    ensures SystemInv(cfg, FinishChallenge(sys0, now, authId, proof, outcome).0)
  {
    hide SystemInv, Inv, Consistent, Prune, Recover, WithProof, WithChallenge, RolledOver, IsActive, RetryInterrupted, Commit, FlightMatches;
    var sys := sys0.(inflight := sys0.inflight - {authId});
    var req := sys0.inflight[authId];
    FlightEnds(cfg, sys0, authId);
    if authId in sys.mem.auths {
      ChallengeFact(cfg, sys.mem, authId);
      var touched := if IsActive(sys.mem, req) then Touch(sys, req.accountId, now) else sys;
      FinishedConsistent(cfg, sys.mem, now, req, authId, proof);
      FinishedFlights(sys.mem, now, req, authId, proof, sys.inflight);
      FinishedKeeps(cfg, touched, Finished(sys.mem, now, req, authId, proof), now, outcome, authId);
    }
  }

  // ----- Issuance, revocation, start-up -----

  lemma FinalizeKeeps(cfg: Config, sys: System, now: Time, req: Request, orderId: Id, csr: seq<int>, owners: Owners,
                      signing: Signing, certId: Id, outcome: Outcome)
    requires SystemInv(cfg, sys) && sys.up && FreshId(sys, certId)
    requires signing.Signed? ==> SigningContract(cfg, sys.mem, orderId, signing.leaf)
    ensures SystemInv(cfg, Finalize(sys, now, req, orderId, csr, owners, signing, certId, outcome).0)
  {
    hide Inv, Consistent, Prune, Recover, FlightMatches, IsActive, StillProven, ValidId, Commit, WithCertificate;
    var touched := Touch(sys, req.accountId, now);
    TouchKeeps(cfg, sys, req.accountId, now);
    if csr != [] && IsActive(sys.mem, req) && orderId in sys.mem.orders && sys.mem.orders[orderId].status == OrderReady {
      var o := sys.mem.orders[orderId];
      var dead := sys.mem.(orders := sys.mem.orders[orderId := o.(status := OrderInvalid)]);
      OrderInvalidatedConsistent(cfg, sys.mem, orderId);
      PrunedFlights(dead, now, touched.activity, sys.inflight);
      CommitKeeps(cfg, touched, dead, now, outcome);
      if signing.Signed? && |sys.mem.certs| < MAX_RECORDS {
        var next := WithCertificate(sys.mem, orderId, signing.leaf, certId, csr);
        IssuedConsistent(cfg, sys.mem, orderId, signing.leaf, certId, csr);
        IssuedKeepsAuths(sys.mem, orderId, signing.leaf, certId, csr);
        PrunedFlights(next, now, touched.activity, sys.inflight);
        CommitKeeps(cfg, touched, next, now, outcome);
      }
    }
  }

  lemma IssuedKeepsAuths(st: State, orderId: Id, leaf: Leaf, certId: Id, csr: seq<int>)
    requires orderId in st.orders
    ensures WithCertificate(st, orderId, leaf, certId, csr).auths == st.auths
  {
  }

  lemma CrlCommitKeeps(cfg: Config, sys: System, st: State, now: Time, nextUpdate: Option<Time>, outcome: Outcome)
    requires SystemInv(cfg, sys) && sys.up && Consistent(cfg, st) && st.auths == sys.mem.auths
    requires RefreshCrl(st, now, nextUpdate).Some?
    ensures SystemInv(cfg, Commit(sys, RefreshCrl(st, now, nextUpdate).value, now, outcome))
  {
    hide Inv, Consistent, Prune, Recover, FlightMatches, Commit;
    var next := RefreshCrl(st, now, nextUpdate).value;
    CrlConsistent(cfg, st, now, nextUpdate);
    PrunedFlights(next, now, sys.activity, sys.inflight);
    CommitKeeps(cfg, sys, next, now, outcome);
  }

  lemma RevokeKeeps(cfg: Config, sys: System, now: Time, revoker: Revoker, leaf: Leaf, reason: int, owners: Owners,
                    nextUpdate: Option<Time>, outcome: Outcome)
    requires SystemInv(cfg, sys) && sys.up && 0 < now
    ensures SystemInv(cfg, Revoke(sys, now, revoker, leaf, reason, owners, nextUpdate, outcome).0)
  {
    hide SystemInv, Inv, Consistent, Commit, RefreshCrl, CanRevoke, IsActive, ValidReason;
    if ValidReason(reason) && exists id :: IsRecorded(sys.mem, leaf, id) {
      var touched := if revoker.ByAccount? && IsActive(sys.mem, revoker.req) then Touch(sys, revoker.req.accountId, now) else sys;
      if revoker.ByAccount? {
        TouchKeeps(cfg, sys, revoker.req.accountId, now);
      }
      forall id | IsRecorded(sys.mem, leaf, id)
        ensures var st := WithRevocation(sys.mem, id, now, reason);
                RefreshCrl(st, now, nextUpdate).Some? ==>
                  SystemInv(cfg, Commit(touched, RefreshCrl(st, now, nextUpdate).value, now, outcome))
      {
        RevokedKeeps(cfg, sys, touched, id, now, reason, nextUpdate, outcome);
      }
    }
  }

  lemma RevokedKeeps(cfg: Config, sys: System, touched: System, id: Id, now: Time, reason: int, nextUpdate: Option<Time>, outcome: Outcome)
    requires SystemInv(cfg, sys) && SystemInv(cfg, touched) && touched.up && sys.up && touched.mem == sys.mem
    requires id in sys.mem.certs && ValidReason(reason) && 0 < now
    ensures var st := WithRevocation(sys.mem, id, now, reason);
            RefreshCrl(st, now, nextUpdate).Some? ==>
              SystemInv(cfg, Commit(touched, RefreshCrl(st, now, nextUpdate).value, now, outcome))
  {
    hide Inv, Consistent, Commit, RefreshCrl, ValidReason, Recover, FlightsMatch;
    RevocationConsistent(cfg, sys.mem, id, now, reason);
    var st := WithRevocation(sys.mem, id, now, reason);
    if RefreshCrl(st, now, nextUpdate).Some? {
      CrlCommitKeeps(cfg, touched, st, now, nextUpdate, outcome);
    }
  }

  lemma ServeCrlKeeps(cfg: Config, sys: System, now: Time, nextUpdate: Option<Time>, outcome: Outcome)
    requires SystemInv(cfg, sys) && sys.up
    ensures SystemInv(cfg, ServeCrl(sys, now, nextUpdate, outcome).0)
  {
    hide Consistent, Commit, RefreshCrl, Recover, FlightsMatch, CrlStale;
    if RefreshCrl(sys.mem, now, nextUpdate).Some? {
      CrlCommitKeeps(cfg, sys, sys.mem, now, nextUpdate, outcome);
    }
  }

  lemma RecoveredFlights(st: State)
    ensures FlightsMatch(Recover(st).auths, map[])
  {
  }

  /** A restart always accepts the file, and brings the server up if its own first write succeeds. */
  lemma RestartKeeps(cfg: Config, sys: System, now: Time, outcome: Outcome)
    requires SystemInv(cfg, sys)
    ensures SystemInv(cfg, Restart(cfg, sys, now, outcome).0)
    ensures Restart(cfg, sys, now, outcome).1 != Refused
    ensures outcome.Synced? ==> Restart(cfg, sys, now, outcome).0.up
  {
    hide Inv, Consistent, Prune, Recover, ValidateState, FlightMatches, Fresh;
    var loaded := if sys.disk.None? then Fresh(cfg) else Recover(sys.disk.value);
    LoadedOk(cfg, sys);
    var down := Crash(sys).(mem := loaded, up := true);
    if !outcome.NotRenamed? {
      RenamedKeeps(cfg, down, loaded, now, outcome, map[]);
    }
  }

  lemma LoadedOk(cfg: Config, sys: System)
    requires SystemInv(cfg, sys)
    ensures var loaded := if sys.disk.None? then Fresh(cfg) else Recover(sys.disk.value);
            Consistent(cfg, loaded) && FlightsMatch(loaded.auths, map[])
    ensures sys.disk.Some? ==> ValidateState(cfg, sys.disk.value)
  {
    hide Consistent, ValidateState, Recover;
    FreshOk(cfg);
    if sys.disk.Some? {
      RecoverKeeps(cfg, sys.disk.value);
      RecoveredFlights(sys.disk.value);
      ConsistentLoads(cfg, sys.disk.value);
    }
  }

  // ----- All steps -----

  lemma StepKeeps(cfg: Config, before: System, e: Event)
    requires SystemInv(cfg, before) && Enabled(cfg, before, e)
    ensures SystemInv(cfg, Step(cfg, before, e).0)
  {
    hide SystemInv, NewAccount, UpdateAccount, KeyChange, NewOrder, DeactivateAuthorization, StartChallenge, FinishChallenge,
         Finalize, Revoke, ServeCrl, Restart, AcceptableNames, SigningContract, IsActive, Distinct, FreshId, ValidId;
    var sys := before.(clock := e.now);
    ClockKeeps(cfg, before, e.now);
    match e
    case NewAccountCall(now, key, source, onlyExisting, id, outcome) =>
      FreshIdKeeps(before, e.now, id);
      NewAccountKeeps(cfg, sys, now, key, source, onlyExisting, id, outcome);
    case UpdateAccountCall(now, req, contact, status, outcome) => UpdateAccountKeeps(cfg, sys, now, req, contact, status, outcome);
    case KeyChangeCall(now, req, key, outcome) => KeyChangeKeeps(cfg, sys, now, req, key, outcome);
    case NewOrderCall(now, req, source, raw, names, owners, ids, outcome) =>
      FreshIdKeeps(before, e.now, ids.order);
      forall i | 0 <= i < |ids.auths| ensures FreshId(sys, ids.auths[i]) {
        FreshIdKeeps(before, e.now, ids.auths[i]);
      }
      NewOrderKeeps(cfg, sys, now, req, source, raw, names, owners, ids, outcome);
    case ReadCall(now, req) => TouchKeeps(cfg, sys, req.accountId, now);
    case DeactivateAuthCall(now, req, authId, outcome) => DeactivateAuthKeeps(cfg, sys, now, req, authId, outcome);
    case StartCall(now, req, authId, acknowledged, outcome) => StartKeeps(cfg, sys, now, req, authId, acknowledged, outcome);
    case FinishCall(now, authId, proof, outcome) => FinishKeeps(cfg, sys, now, authId, proof, outcome);
    case FinalizeCall(now, req, orderId, csr, owners, signing, certId, outcome) =>
      FreshIdKeeps(before, e.now, certId);
      FinalizeKeeps(cfg, sys, now, req, orderId, csr, owners, signing, certId, outcome);
    case RevokeCall(now, revoker, leaf, reason, owners, nextUpdate, outcome) =>
      RevokeKeeps(cfg, sys, now, revoker, leaf, reason, owners, nextUpdate, outcome);
    case CrlCall(now, nextUpdate, outcome) => ServeCrlKeeps(cfg, sys, now, nextUpdate, outcome);
    case CrashEvent(_) => CrashKeeps(cfg, sys);
    case RestartCall(now, outcome) => RestartKeeps(cfg, sys, now, outcome);
  }

  lemma ClockKeeps(cfg: Config, sys: System, now: Time)
    requires SystemInv(cfg, sys)
    ensures SystemInv(cfg, sys.(clock := now))
  {
    hide Inv, Recover;
  }

  lemma CrashKeeps(cfg: Config, sys: System)
    requires SystemInv(cfg, sys)
    ensures SystemInv(cfg, Crash(sys))
  {
    hide Inv, Recover;
  }

  lemma FreshIdKeeps(sys: System, now: Time, id: Id)
    requires FreshId(sys, id)
    ensures FreshId(sys.(clock := now), id)
  {
  }
}
