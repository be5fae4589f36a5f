/** Where valid authorizations and certificates come from, over whole runs. */
module AcmeIssuance {
  import opened Common
  import opened Validator
  import opened Acme
  import opened AcmeInvariant
  import opened AcmeUpdates
  import opened AcmeOrderUpdates
  import opened AcmeSteps
  import opened AcmeRuns

  // ----- Authorizations -----

  /** What a valid authorization claims: the account controls the name through the target. */
  datatype Claim = Claim(id: Id, accountId: Id, name: string, target: Target)

  /** In this step the outbound validation of the claim succeeds: it was out on behalf of a request
      whose key is, at this very moment, the key of the active account that owns the authorization,
      and the authorization has not expired. */
  ghost predicate ProvedBy(before: System, e: Event, c: Claim) {
    && before.up && e.FinishCall? && e.authId == c.id && e.proof == Some(c.target)
    && c.id in before.inflight && c.id in before.mem.auths
    && IsActive(before.mem, before.inflight[c.id])
    && before.inflight[c.id].accountId == before.mem.auths[c.id].accountId == c.accountId
    && before.mem.auths[c.id].name == c.name
    && e.now < before.mem.auths[c.id].expires
  }

  ghost predicate IsValidFor(st: State, c: Claim) {
    && c.id in st.auths && st.auths[c.id].status == AuthValid && st.auths[c.id].target == c.target
    && st.auths[c.id].accountId == c.accountId && st.auths[c.id].name == c.name
  }

  lemma PrunedValid(st: State, now: Time, activity: map<Id, Time>, c: Claim)
    requires IsValidFor(Prune(st, now, activity), c)
    ensures IsValidFor(st, c)
  {
    hide Prune;
    PruneAt(st, now, activity, c.id);
  }

  lemma NewOrderValid(st: State, now: Time, activity: map<Id, Time>, source: ClientId, order: Order, tokens: seq<string>, c: Claim)
    requires order.accountId in Prune(st, now, activity).accounts
    requires |order.authIds| == |order.identifiers| == |tokens| && Distinct(order.authIds)
    requires IsValidFor(WithOrder(Prune(st, now, activity), now, source, order, tokens), c)
    ensures IsValidFor(st, c)
  {
    hide Prune, WithAuths, Distinct, Recorded;
    var pruned := Prune(st, now, activity);
    WithAuthsContents(pruned.auths, order, tokens, |tokens|);
    assert c.id !in order.authIds;
    PrunedValid(st, now, activity, c);
  }

  lemma FinishedValid(st: State, now: Time, req: Request, authId: Id, proof: Option<Target>, c: Claim)
    requires authId in st.auths && st.auths[authId].orderId in st.orders && st.auths[authId].status == AuthPending
    requires IsValidFor(Finished(st, now, req, authId, proof), c)
    ensures IsValidFor(st, c)
            || (c.id == authId && proof == Some(c.target) && IsActive(st, req) && now < st.auths[authId].expires
                && st.auths[authId].accountId == c.accountId && st.auths[authId].name == c.name)
  {
    hide IsActive, AllValid, RolledOver;
  }

  /** A prepared snapshot declares an authorization valid only if it was, or if this step proved it. */
  lemma PreparedValid(cfg: Config, before: System, e: Event, c: Claim)
    requires SystemInv(cfg, before) && Enabled(cfg, before, e)
    requires Prepared(cfg, before, e).Some? && IsValidFor(Prepared(cfg, before, e).value, c)
    ensures IsValidFor(Base(cfg, before, e), c) || ProvedBy(before, e, c)
  {
    hide Prepared, Base, Prune, IsActive, Finished, RefreshCrl, SystemInv, WithOrder, Recorded, ProvedBy, Enabled, StillProven,
         WithAccountStatus, CanStart, OrderCapacityReached, DenyCreation, HasThumbprint;
    NothingPrepared(cfg, before, e);
    match e
    case NewAccountCall(now, _, _, _, _, _) =>
      NewAccountForm(cfg, before, e);
      PrunedValid(before.mem, now, before.activity, c);
    case NewOrderCall(now, req, source, _, _, _, ids, _) =>
      NewOrderForm(cfg, before, e);
      DistinctIds(cfg, before, e);
      NewOrderValid(before.mem, now, ActivityAt(before, req.accountId, now), source, OrderFor(e), ids.tokens, c);
    case FinishCall(_, _, _, _) => FinishProves(cfg, before, e, c);
    case UpdateAccountCall(_, req, _, status, _) =>
      UpdateForm(cfg, before, e);
      StatusValid(before.mem, req.accountId, if status.Some? then status.value else AccountValid, c);
    case KeyChangeCall(_, _, _, _) => KeyChangeForm(cfg, before, e);
    case DeactivateAuthCall(_, _, _, _) => DeactivationForm(cfg, before, e);
    case StartCall(_, _, _, _, _) => StartForm(cfg, before, e);
    case FinalizeCall(_, _, _, _, _, _, _, _) => FinalizeForm(cfg, before, e);
    case RevokeCall(now, _, leaf, reason, _, nextUpdate, _) =>
      RevokeForm(cfg, before, e);
      RefreshKeepsAuths(WithRevocation(before.mem, RecordedId(before.mem, leaf), now, reason), now, nextUpdate);
    case CrlCall(now, nextUpdate, _) =>
      CrlForm(cfg, before, e);
      RefreshKeepsAuths(before.mem, now, nextUpdate);
    case RestartCall(_, _) => RestartForm(cfg, before, e);
    case ReadCall(_, _) =>
    case CrashEvent(_) =>
  }

  lemma DistinctIds(cfg: Config, before: System, e: Event)
    requires Enabled(cfg, before, e) && e.NewOrderCall?
    ensures Distinct(e.ids.auths)
  {
  }

  lemma StatusValid(st: State, id: Id, status: AccountStatus, c: Claim)
    requires id in st.accounts && IsValidFor(WithAccountStatus(st, id, status), c)
    ensures IsValidFor(st, c)
  {
  }

  lemma RefreshKeepsAuths(st: State, now: Time, nextUpdate: Option<Time>)
    ensures var r := RefreshCrl(st, now, nextUpdate); r.Some? ==> r.value.auths == st.auths && r.value.certs == st.certs && r.value.orders == st.orders
  {
  }

  lemma FinishProves(cfg: Config, before: System, e: Event, c: Claim)
    requires SystemInv(cfg, before) && Enabled(cfg, before, e) && e.FinishCall?
    requires Prepared(cfg, before, e).Some? && IsValidFor(Prepared(cfg, before, e).value, c)
    ensures IsValidFor(Base(cfg, before, e), c) || ProvedBy(before, e, c)
  {
    hide Prepared, Base, Finished, IsActive, Inv, Recover;
    FinishForm(cfg, before, e);
    FinishedValid(before.mem, e.now, before.inflight[e.authId], e.authId, e.proof, c);
    assert FlightMatches(before.mem.auths[e.authId], before.inflight, e.authId);
  }

  lemma BaseValid(cfg: Config, before: System, e: Event, c: Claim)
    requires SystemInv(cfg, before) && Enabled(cfg, before, e) && IsValidFor(Base(cfg, before, e), c) && !e.CrashEvent?
    ensures before.disk.Some? && IsValidFor(before.disk.value, c)
  {
    hide Inv, FlightsMatch, AcceptableNames, SigningContract, FreshId, Distinct, ValidId;
    if !e.RestartCall? {
      assert IsValidFor(Recover(before.mem), c);
    }
  }

  lemma StoredValid(cfg: Config, before: System, e: Event, c: Claim)
    requires SystemInv(cfg, before) && Enabled(cfg, before, e)
    requires var after := Step(cfg, before, e).0; after.disk.Some? && IsValidFor(after.disk.value, c)
    ensures (before.disk.Some? && IsValidFor(before.disk.value, c)) || ProvedBy(before, e, c)
  {
    hide SystemInv, Step, Prepared, Prune, ProvedBy, IsValidFor, Enabled, Base;
    StepStores(cfg, before, e);
    var prepared := Prepared(cfg, before, e);
    if prepared.Some? && Renamed(e) {
      var activity :| Step(cfg, before, e).0.disk == Some(Prune(prepared.value, e.now, activity));
      PrunedValid(prepared.value, e.now, activity, c);
      PreparedValid(cfg, before, e, c);
      if IsValidFor(Base(cfg, before, e), c) {
        BaseValid(cfg, before, e, c);
      }
    }
  }

  /** Every authorization that is ever stored as valid was proved by an earlier step of the run. */
  lemma {:induction false} ValidWasProved(cfg: Config, states: seq<System>, events: seq<Event>, k: nat, c: Claim)
    requires IsRun(cfg, states, events) && k < |states|
    requires states[k].disk.Some? && IsValidFor(states[k].disk.value, c)
    ensures exists j :: 0 <= j < k && ProvedBy(states[j], events[j], c)
  {
    hide SystemInv, Step, ProvedBy, IsValidFor, Enabled;
    if k > 0 {
      assert StepAt(cfg, states, events, k - 1);
      RunKeeps(cfg, states, events, k - 1);
      StoredValid(cfg, states[k - 1], events[k - 1], c);
      if !ProvedBy(states[k - 1], events[k - 1], c) {
        ValidWasProved(cfg, states, events, k - 1, c);
      }
    }
  }

  /** And what is proved counts: if the write gets as far as the rename, the proof is stored. */
  lemma ProofIsStored(cfg: Config, before: System, e: Event, c: Claim)
    requires SystemInv(cfg, before) && Enabled(cfg, before, e) && ProvedBy(before, e, c) && !e.outcome.NotRenamed?
    ensures var after := Step(cfg, before, e).0; after.disk.Some? && IsValidFor(after.disk.value, c)
  {
    hide SystemInv, Step, Enabled, Prune, IsActive, Finished, Inv, IsValidFor, Stores;
    FinishStep(cfg, before, e);
    ProofKept(cfg, before, e, c);
    FinishCommits(before.(clock := e.now), e.now, e.authId, e.proof, e.outcome);
  }

  lemma ProofKept(cfg: Config, before: System, e: Event, c: Claim)
    requires SystemInv(cfg, before) && ProvedBy(before, e, c) && ProvenTarget(c.target)
    ensures before.mem.auths[c.id].status == AuthPending && before.mem.auths[c.id].challenge == ChallengeProcessing
    ensures before.mem.auths[c.id].orderId in before.mem.orders
    ensures var next := Finished(before.mem, e.now, before.inflight[c.id], c.id, e.proof);
            forall activity :: IsValidFor(Prune(next, e.now, activity), c)
  {
    hide SystemInv, Prune, IsActive, Inv, Consistent;
    RolloverFacts(cfg, before, c.id);
    OrderOfPending(cfg, before.mem, c.id);
    var next := Finished(before.mem, e.now, before.inflight[c.id], c.id, e.proof);
    ProvenSnapshot(before.mem, e.now, before.inflight[c.id], c);
    FinishedConsistent(cfg, before.mem, e.now, before.inflight[c.id], c.id, e.proof);
    forall activity ensures IsValidFor(Prune(next, e.now, activity), c) {
      LiveAuthStays(cfg, next, e.now, activity, c.id);
    }
  }

  lemma OrderOfPending(cfg: Config, st: State, id: Id)
    requires Inv(cfg, st) && id in st.auths && st.auths[id].status == AuthPending
    ensures st.auths[id].orderId in st.orders
    ensures var o := st.orders[st.auths[id].orderId];
            o.id == st.auths[id].orderId && o.status == OrderPending && o.expires == st.auths[id].expires
  {
    hide Inv;
    InvFacts(cfg, st);
    assert AuthFact(st, id);
  }

  lemma ProvenSnapshot(st: State, now: Time, req: Request, c: Claim)
    requires c.id in st.auths && st.auths[c.id].orderId in st.orders && IsActive(st, req)
    requires var a := st.auths[c.id];
             var o := st.orders[a.orderId];
             && a.accountId == c.accountId && a.name == c.name && now < a.expires
             && o.id == a.orderId && o.status == OrderPending && o.expires == a.expires
    ensures var next := Finished(st, now, req, c.id, Some(c.target));
            && IsValidFor(next, c) && next.auths[c.id].orderId == st.auths[c.id].orderId
            && st.auths[c.id].orderId in next.orders && Live(next.orders[st.auths[c.id].orderId], now)
  {
    hide AllValid;
  }

  lemma FinishCommits(sys: System, now: Time, authId: Id, proof: Option<Target>, outcome: Outcome)
    requires authId in sys.inflight && authId in sys.mem.auths && !outcome.NotRenamed?
    requires var a := sys.mem.auths[authId];
             a.status == AuthPending && a.challenge == ChallengeProcessing && a.orderId in sys.mem.orders
    ensures var after := FinishChallenge(sys, now, authId, proof, outcome).0;
            exists activity :: after.disk == Some(Prune(Finished(sys.mem, now, sys.inflight[authId], authId, proof), now, activity))
  {
    hide Prune, Finished, IsActive;
  }

  // ----- Key rollover during a validation -----

  /** The account rolled its key over while the validation of `id` was out. */
  ghost predicate FinishesAfterRollover(before: System, e: Event, id: Id) {
    && before.up && e.FinishCall? && e.authId == id && id in before.inflight && id in before.mem.auths
    && before.mem.auths[id].orderId in before.mem.orders && before.mem.orders[before.mem.auths[id].orderId].status == OrderPending
    && e.now < before.mem.auths[id].expires
    && before.inflight[id].accountId in before.mem.accounts
    && var account := before.mem.accounts[before.inflight[id].accountId];
       account.status == AccountValid && account.thumbprint != before.inflight[id].key.thumbprint
  }

  /** Whatever the validation found and whether or not the write succeeds, the old-key proof is
      discarded, the challenge is open again for the new key, and the order is as before. */
  lemma RolloverReopens(cfg: Config, before: System, e: Event, id: Id)
    requires SystemInv(cfg, before) && Enabled(cfg, before, e) && FinishesAfterRollover(before, e, id)
    ensures var after := Step(cfg, before, e).0;
            var orderId := before.mem.auths[id].orderId;
            && id in after.mem.auths && after.mem.auths[id] == before.mem.auths[id].(challenge := ChallengePending)
            && after.mem.auths[id].status == AuthPending
            && orderId in after.mem.orders && after.mem.orders[orderId] == before.mem.orders[orderId]
            && id !in after.inflight
  {
    hide Prune, SystemInv, Step, Enabled, Inv, IsActive, WithProof, RolledOver, FinishesAfterRollover;
    IsRolledOver(before, e, id);
    FinishStep(cfg, before, e);
    RolloverFacts(cfg, before, id);
    RolloverStays(cfg, before.mem, e.now, before.activity, id);
    RolloverStays(cfg, before.mem, e.now, ActivityAt(before, before.inflight[id].accountId, e.now), id);
  }

  lemma IsRolledOver(before: System, e: Event, id: Id)
    requires FinishesAfterRollover(before, e, id)
    ensures before.up && e.FinishCall? && e.authId == id && id in before.inflight && id in before.mem.auths
    ensures before.mem.auths[id].orderId in before.mem.orders && before.mem.orders[before.mem.auths[id].orderId].status == OrderPending
    ensures e.now < before.mem.auths[id].expires
    ensures RolledOver(before.mem, e.now, before.inflight[id], before.mem.auths[id], before.mem.orders[before.mem.auths[id].orderId])
  {
  }

  lemma FinishStep(cfg: Config, before: System, e: Event)
    requires Enabled(cfg, before, e) && e.FinishCall?
    ensures e.authId in before.inflight && (e.proof.Some? ==> ProvenTarget(e.proof.value))
    ensures Step(cfg, before, e) == FinishChallenge(before.(clock := e.now), e.now, e.authId, e.proof, e.outcome)
  {
    hide FinishChallenge;
  }

  lemma RolloverFacts(cfg: Config, before: System, id: Id)
    requires SystemInv(cfg, before) && before.up && id in before.inflight && id in before.mem.auths
    ensures Inv(cfg, before.mem)
    ensures before.mem.auths[id].status == AuthPending && before.mem.auths[id].challenge == ChallengeProcessing
  {
    hide Inv, Recover;
    FlightEnds(cfg, before, id);
    ChallengeFact(cfg, before.mem, id);
  }

  lemma RolloverStays(cfg: Config, st: State, now: Time, activity: map<Id, Time>, id: Id)
    requires Inv(cfg, st) && id in st.auths && st.auths[id].orderId in st.orders && now < st.auths[id].expires
    requires st.auths[id].status == AuthPending && st.orders[st.auths[id].orderId].status == OrderPending
    ensures var p := Prune(WithChallenge(st, id, ChallengePending), now, activity);
            && id in p.auths && p.auths[id] == st.auths[id].(challenge := ChallengePending)
            && st.auths[id].orderId in p.orders && p.orders[st.auths[id].orderId] == st.orders[st.auths[id].orderId]
  {
    hide Prune, Inv, Consistent;
    InvFacts(cfg, st);
    var next := WithChallenge(st, id, ChallengePending);
    assert AuthFact(st, id);
    ChallengeConsistent(cfg, st, id, ChallengePending);
    LiveAuthStays(cfg, next, now, activity, id);
    PruneAt(next, now, activity, st.auths[id].orderId);
  }

  lemma LiveAuthStays(cfg: Config, st: State, now: Time, activity: map<Id, Time>, id: Id)
    requires Consistent(cfg, st) && id in st.auths && st.auths[id].orderId in st.orders && Live(st.orders[st.auths[id].orderId], now)
    ensures var p := Prune(st, now, activity); id in p.auths && p.auths[id] == st.auths[id]
  {
    hide Prune, OrdersOk, AuthsOk, CertsOk, AccountsOk;
    AuthGoesWithOrder(cfg, st, now, id);
    PruneAt(st, now, activity, id);
  }

  /** The challenge request of this step sends out a validation. */
  ghost predicate GoesOut(cfg: Config, before: System, e: Event, id: Id) {
    e.StartCall? && e.authId == id && e.outcome.Synced? && Prepared(cfg, before, e).Some?
  }

  /** The validation of `id` comes back in this step, or the process stops. */
  predicate ComesBack(e: Event, id: Id) {
    (e.FinishCall? && e.authId == id) || e.CrashEvent? || e.RestartCall?
  }

  /** The validations that are out after a step. */
  ghost function FlightsAfter(cfg: Config, before: System, e: Event): map<Id, Request> {
    match e
    case StartCall(_, req, authId, _, _) => if GoesOut(cfg, before, e, authId) then before.inflight[authId := req] else before.inflight
    case FinishCall(_, authId, _, _) => before.inflight - {authId}
    case CrashEvent(_) => map[]
    case RestartCall(_, _) => map[]
    case _ => before.inflight
  }

  lemma AccountFlights(cfg: Config, before: System, e: Event)
    requires Enabled(cfg, before, e) && (e.NewAccountCall? || e.UpdateAccountCall? || e.KeyChangeCall? || e.NewOrderCall?)
    ensures Step(cfg, before, e).0.inflight == before.inflight
  {
    hide Prune, DenyCreation, HasThumbprint, WithAccount, WithAccountStatus, WithKey, WithOrder, OrderCapacityReached, IsActive,
         AcceptableNames, FreshId, ValidId, Distinct, RetrySeconds;
  }

  lemma CertFlights(cfg: Config, before: System, e: Event)
    requires Enabled(cfg, before, e) && (e.FinalizeCall? || e.RevokeCall? || e.CrlCall?)
    ensures Step(cfg, before, e).0.inflight == before.inflight
  {
    hide Prune, IsActive, WithCertificate, StillProven, RefreshCrl, CanRevoke, CrlStale, WithRevocation, SigningContract, ValidReason,
         IsRecorded, FreshId;
  }

  lemma AuthFlights(cfg: Config, before: System, e: Event)
    requires Enabled(cfg, before, e) && (e.DeactivateAuthCall? || e.FinishCall? || e.ReadCall?)
    ensures Step(cfg, before, e).0.inflight == FlightsAfter(cfg, before, e)
  {
    hide Prune, IsActive, WithAuthDeactivated, Finished, WithChallenge, GoesOut, Prepared;
  }

  lemma StopFlights(cfg: Config, before: System, e: Event)
    requires Enabled(cfg, before, e) && (e.CrashEvent? || e.RestartCall?)
    ensures Step(cfg, before, e).0.inflight == map[]
  {
    hide Prune, ValidateState, Recover, Fresh;
  }

  lemma StartFlightsAre(cfg: Config, before: System, e: Event)
    requires Enabled(cfg, before, e) && e.StartCall?
    ensures Step(cfg, before, e).0.inflight == FlightsAfter(cfg, before, e)
  {
    hide Prune, IsActive, WithChallenge, CanStart, Commit;
    CommitFlights(Touch(before.(clock := e.now), e.req.accountId, e.now), before, e);
  }

  lemma CommitFlights(touched: System, before: System, e: Event)
    requires e.StartCall? && touched.inflight == before.inflight
    ensures forall next: State :: Commit(touched, next, e.now, e.outcome).inflight == before.inflight
  {
    hide Prune;
  }

  /** Which validations are out after any step: only a request that prepared and synced its snapshot adds
      one, and only a return or the end of the process takes one away. */
  lemma StepFlights(cfg: Config, before: System, e: Event)
    requires Enabled(cfg, before, e)
    ensures Step(cfg, before, e).0.inflight == FlightsAfter(cfg, before, e)
  {
    hide Step, Enabled, GoesOut;
    match e
    case NewAccountCall(_, _, _, _, _, _) => AccountFlights(cfg, before, e);
    case UpdateAccountCall(_, _, _, _, _) => AccountFlights(cfg, before, e);
    case KeyChangeCall(_, _, _, _) => AccountFlights(cfg, before, e);
    case NewOrderCall(_, _, _, _, _, _, _, _) => AccountFlights(cfg, before, e);
    case FinalizeCall(_, _, _, _, _, _, _, _) => CertFlights(cfg, before, e);
    case RevokeCall(_, _, _, _, _, _, _) => CertFlights(cfg, before, e);
    case CrlCall(_, _, _) => CertFlights(cfg, before, e);
    case StartCall(_, _, _, _, _) => StartFlightsAre(cfg, before, e);
    case CrashEvent(_) => StopFlights(cfg, before, e);
    case RestartCall(_, _) => StopFlights(cfg, before, e);
    case _ => AuthFlights(cfg, before, e);
  }

  /** A challenge request changes anything only for a pending authorization that has no validation out, at
      the request of its active account. */
  lemma OneFlightAtATime(cfg: Config, before: System, e: Event)
    requires SystemInv(cfg, before) && e.StartCall? && before.up && Prepared(cfg, before, e).Some?
    ensures e.authId !in before.inflight
    ensures e.authId in before.mem.auths && before.mem.auths[e.authId].status == AuthPending && IsActive(before.mem, e.req)
    ensures before.mem.auths[e.authId].accountId == e.req.accountId && e.now < before.mem.auths[e.authId].expires
  {
    hide Inv, Recover, IsActive, WithChallenge;
    assert FlightMatches(before.mem.auths[e.authId], before.inflight, e.authId);
  }

  /** Interleavings, over every run: a validation that finishes after a key rollover gives the challenge
      back and leaves the order alone; and a request sends one out only for a pending authorization of its
      active account that has none out. */
  lemma ValidationInterleavings(cfg: Config, states: seq<System>, events: seq<Event>, k: nat, id: Id)
    requires IsRun(cfg, states, events) && k < |events| && states[k].up
    ensures FinishesAfterRollover(states[k], events[k], id) ==>
              var before, after := states[k].mem, states[k + 1].mem;
              && id in after.auths && after.auths[id] == before.auths[id].(challenge := ChallengePending)
              && before.auths[id].orderId in after.orders && after.orders[before.auths[id].orderId] == before.orders[before.auths[id].orderId]
    ensures GoesOut(cfg, states[k], events[k], id) ==>
              && id !in states[k].inflight && id in states[k].mem.auths
              && states[k].mem.auths[id].status == AuthPending && IsActive(states[k].mem, events[k].req)
    ensures states[k + 1].inflight == FlightsAfter(cfg, states[k], events[k])
  {
    assert StepAt(cfg, states, events, k);
    RunKeeps(cfg, states, events, k);
    hide SystemInv, Step, Enabled, IsActive, RolledOver, Prepared;
    StepFlights(cfg, states[k], events[k]);
    if FinishesAfterRollover(states[k], events[k], id) {
      RolloverReopens(cfg, states[k], events[k], id);
    }
    if GoesOut(cfg, states[k], events[k], id) {
      OneFlightAtATime(cfg, states[k], events[k]);
    }
  }

  lemma {:induction false} StaysOut(cfg: Config, states: seq<System>, events: seq<Event>, i: nat, j: nat, id: Id)
    requires IsRun(cfg, states, events) && i <= j < |states| && id in states[i].inflight
    requires forall m :: i <= m < j ==> !ComesBack(events[m], id)
    ensures id in states[j].inflight
    decreases j - i
  {
    hide Step, Enabled, GoesOut;
    if i < j {
      assert StepAt(cfg, states, events, i);
      StepFlights(cfg, states[i], events[i]);
      StaysOut(cfg, states, events, i + 1, j, id);
    }
  }

  /** No authorization ever has two validations out, in any run: between two that go out for it, the first
      one comes back or the process stops. */
  lemma FlightsDoNotOverlap(cfg: Config, states: seq<System>, events: seq<Event>, i: nat, j: nat, id: Id)
    requires IsRun(cfg, states, events) && i < j < |events|
    requires GoesOut(cfg, states[i], events[i], id) && GoesOut(cfg, states[j], events[j], id)
    ensures exists m :: i < m < j && ComesBack(events[m], id)
  {
    hide Step, Enabled, SystemInv, Prepared;
    assert StepAt(cfg, states, events, i) && StepAt(cfg, states, events, j);
    StepFlights(cfg, states[i], events[i]);
    RunKeeps(cfg, states, events, j);
    EnabledIsUp(cfg, states[j], events[j]);
    OneFlightAtATime(cfg, states[j], events[j]);
    if forall m :: i < m < j ==> !ComesBack(events[m], id) {
      StaysOut(cfg, states, events, i + 1, j, id);
    }
  }

  // ----- What a validation was sent out for -----

  /** The validation of `id` that is out at `m` went out at `i`. */
  ghost predicate SentAt(cfg: Config, states: seq<System>, events: seq<Event>, i: nat, m: nat, id: Id)
    requires m <= |events| <= |states|
  {
    i < m && GoesOut(cfg, states[i], events[i], id) && forall k :: i < k < m ==> !ComesBack(events[k], id)
  }

  /** Every validation that is out was sent out by an earlier step, on behalf of that step's request. */
  lemma {:induction false} WasSent(cfg: Config, states: seq<System>, events: seq<Event>, m: nat, id: Id)
    requires IsRun(cfg, states, events) && m < |states| && id in states[m].inflight
    ensures exists i: nat :: SentAt(cfg, states, events, i, m, id) && states[m].inflight[id] == events[i].req
  {
    hide Step, Enabled, Prepared;
    if m > 0 {
      assert StepAt(cfg, states, events, m - 1);
      StepFlights(cfg, states[m - 1], events[m - 1]);
      if GoesOut(cfg, states[m - 1], events[m - 1], id) {
        assert SentAt(cfg, states, events, m - 1, m, id);
      } else {
        WasSent(cfg, states, events, m - 1, id);
        var i: nat :| SentAt(cfg, states, events, i, m - 1, id) && states[m - 1].inflight[id] == events[i].req;
        assert SentAt(cfg, states, events, i, m, id);
      }
    }
  }

  /** The validation that is out carries the request of the step that sent it. */
  lemma SentRequest(cfg: Config, states: seq<System>, events: seq<Event>, i: nat, m: nat, id: Id)
    requires IsRun(cfg, states, events) && m < |states| && SentAt(cfg, states, events, i, m, id) && id in states[m].inflight
    ensures states[m].inflight[id] == events[i].req
  {
    hide Step, Enabled, Prepared;
    WasSent(cfg, states, events, m, id);
    var j: nat :| SentAt(cfg, states, events, j, m, id) && states[m].inflight[id] == events[j].req;
    if i < j {
      FlightsDoNotOverlap(cfg, states, events, i, j, id);
    } else if j < i {
      FlightsDoNotOverlap(cfg, states, events, j, i, id);
    }
  }

  /** The authorization is on record in both snapshots, for the same name and order and with the same token. */
  ghost predicate SameAuth(st: State, next: State, id: Id) {
    id in st.auths && id in next.auths && SameLink(st.auths[id], next.auths[id])
  }

  lemma PrunedSame(st: State, now: Time, activity: map<Id, Time>, id: Id)
    requires id in Prune(st, now, activity).auths
    ensures SameAuth(st, Prune(st, now, activity), id)
  {
    hide Prune;
    PruneAt(st, now, activity, id);
  }

  lemma NewOrderSame(st: State, now: Time, activity: map<Id, Time>, source: ClientId, order: Order, tokens: seq<string>, id: Id)
    requires order.accountId in Prune(st, now, activity).accounts
    requires |order.authIds| == |order.identifiers| == |tokens| && Distinct(order.authIds) && id !in order.authIds
    requires id in WithOrder(Prune(st, now, activity), now, source, order, tokens).auths
    ensures SameAuth(st, WithOrder(Prune(st, now, activity), now, source, order, tokens), id)
  {
    hide Prune, WithAuths, Distinct, Recorded;
    var pruned := Prune(st, now, activity);
    WithAuthsContents(pruned.auths, order, tokens, |tokens|);
    PrunedSame(st, now, activity, id);
  }

  /** A prepared snapshot has new authorizations only from a new order; the others are for what they were. */
  lemma PreparedSame(cfg: Config, before: System, e: Event, id: Id)
    requires Enabled(cfg, before, e) && Prepared(cfg, before, e).Some? && !e.RestartCall?
    requires id in Prepared(cfg, before, e).value.auths && (e.NewOrderCall? ==> id !in e.ids.auths)
    ensures SameAuth(before.mem, Prepared(cfg, before, e).value, id)
  {
    hide Prepared, Prune, IsActive, Finished, RefreshCrl, WithOrder, Recorded, Enabled, StillProven, WithAccountStatus, CanStart,
         OrderCapacityReached, DenyCreation, HasThumbprint;
    NothingPrepared(cfg, before, e);
    match e
    case NewAccountCall(now, _, _, _, _, _) =>
      NewAccountForm(cfg, before, e);
      PrunedSame(before.mem, now, before.activity, id);
    case NewOrderCall(now, req, source, _, _, _, ids, _) =>
      NewOrderForm(cfg, before, e);
      DistinctIds(cfg, before, e);
      NewOrderSame(before.mem, now, ActivityAt(before, req.accountId, now), source, OrderFor(e), ids.tokens, id);
    case FinishCall(now, authId, proof, _) =>
      FinishForm(cfg, before, e);
      FinishedSame(before.mem, now, before.inflight[authId], authId, proof, id);
    case UpdateAccountCall(_, req, _, status, _) =>
      UpdateForm(cfg, before, e);
      StatusSame(before.mem, req.accountId, if status.Some? then status.value else AccountValid, id);
    case KeyChangeCall(_, _, _, _) => KeyChangeForm(cfg, before, e);
    case DeactivateAuthCall(_, _, _, _) => DeactivationForm(cfg, before, e);
    case StartCall(_, _, _, _, _) => StartForm(cfg, before, e);
    case FinalizeCall(_, _, _, _, _, _, _, _) => FinalizeForm(cfg, before, e);
    case RevokeCall(now, _, leaf, reason, _, nextUpdate, _) =>
      RevokeForm(cfg, before, e);
      RefreshKeepsAuths(WithRevocation(before.mem, RecordedId(before.mem, leaf), now, reason), now, nextUpdate);
    case CrlCall(now, nextUpdate, _) =>
      CrlForm(cfg, before, e);
      RefreshKeepsAuths(before.mem, now, nextUpdate);
  }

  /** One record of the snapshot is replaced by another for the same name, order and token. */
  lemma ReplacedSame(st: State, next: State, authId: Id, a: Authorization, id: Id)
    requires authId in st.auths && SameLink(st.auths[authId], a) && next.auths == st.auths[authId := a] && id in next.auths
    ensures SameAuth(st, next, id)
  {
  }

  lemma ProofSame(st: State, now: Time, req: Request, authId: Id, proof: Option<Target>, id: Id)
    requires authId in st.auths && st.auths[authId].orderId in st.orders && id in WithProof(st, now, req, authId, proof).auths
    ensures SameAuth(st, WithProof(st, now, req, authId, proof), id)
  {
    hide IsActive, AllValid;
    var a := st.auths[authId];
    var next := WithProof(st, now, req, authId, proof);
    if proof.None? || !IsActive(st, req) || a.expires <= now || st.orders[a.orderId].status != OrderPending {
      ReplacedSame(st, next, authId, a.(status := AuthInvalid, challenge := ChallengeInvalid), id);
    } else {
      ReplacedSame(st, next, authId, a.(status := AuthValid, challenge := ChallengeValid, validated := Some(now), target := proof.value), id);
    }
  }

  lemma FinishedSame(st: State, now: Time, req: Request, authId: Id, proof: Option<Target>, id: Id)
    requires authId in st.auths && st.auths[authId].orderId in st.orders && id in Finished(st, now, req, authId, proof).auths
    ensures SameAuth(st, Finished(st, now, req, authId, proof), id)
  {
    hide RolledOver, WithProof, SameAuth;
    var next := Finished(st, now, req, authId, proof);
    if RolledOver(st, now, req, st.auths[authId], st.orders[st.auths[authId].orderId]) {
      ReplacedSame(st, next, authId, st.auths[authId].(challenge := ChallengePending), id);
    } else {
      ProofSame(st, now, req, authId, proof, id);
    }
  }

  lemma StatusSame(st: State, account: Id, status: AccountStatus, id: Id)
    requires account in st.accounts && id in WithAccountStatus(st, account, status).auths
    ensures SameAuth(st, WithAccountStatus(st, account, status), id)
  {
  }

  /** A running server and its file have the same authorizations, but for challenges that were interrupted. */
  lemma DiskSame(cfg: Config, sys: System, id: Id)
    requires SystemInv(cfg, sys) && sys.up
    ensures sys.disk.Some? && (id in sys.mem.auths <==> id in sys.disk.value.auths)
    ensures id in sys.mem.auths ==> SameAuth(sys.mem, sys.disk.value, id)
  {
    hide Inv, FlightsMatch;
    assert Recover(sys.mem).auths.Keys == sys.mem.auths.Keys && Recover(sys.disk.value).auths.Keys == sys.disk.value.auths.Keys;
    if id in sys.mem.auths {
      assert Recover(sys.mem).auths[id] == RecoveredAuth(sys.mem.auths[id]);
      assert Recover(sys.disk.value).auths[id] == RecoveredAuth(sys.disk.value.auths[id]);
    }
  }

  lemma StepSame(cfg: Config, before: System, e: Event, id: Id)
    requires SystemInv(cfg, before) && Enabled(cfg, before, e) && before.up && !e.RestartCall? && !e.CrashEvent?
    requires e.NewOrderCall? ==> id !in e.ids.auths
    requires var after := Step(cfg, before, e).0; SystemInv(cfg, after) && after.up && id in after.mem.auths
    ensures SameAuth(before.mem, Step(cfg, before, e).0.mem, id)
  {
    hide SystemInv, Step, Prepared, Prune, Enabled;
    var after := Step(cfg, before, e).0;
    DiskSame(cfg, before, id);
    DiskSame(cfg, after, id);
    StepStores(cfg, before, e);
    var prepared := Prepared(cfg, before, e);
    if prepared.Some? && Renamed(e) {
      var activity :| after.disk == Some(Prune(prepared.value, e.now, activity));
      PrunedSame(prepared.value, e.now, activity, id);
      PreparedSame(cfg, before, e, id);
    }
  }

  /** New identifiers differ from those of validations that are out. */
  lemma NotDrawn(cfg: Config, before: System, e: Event, id: Id)
    requires Enabled(cfg, before, e) && e.NewOrderCall? && id in before.inflight
    ensures id !in e.ids.auths
  {
    hide ValidId, Distinct, AcceptableNames;
  }

  /** In every run: from the step that sends a validation out until it comes back, the authorization stands
      for the same name, order and account, with the same token, as long as it is on record. */
  lemma {:induction false} SentForSame(cfg: Config, states: seq<System>, events: seq<Event>, i: nat, m: nat, id: Id)
    requires IsRun(cfg, states, events) && m < |states| && SentAt(cfg, states, events, i, m, id)
    requires states[m].up && id in states[m].mem.auths
    ensures SameAuth(states[i].mem, states[m].mem, id) && id in states[m].inflight
  {
    hide SystemInv, Step, Enabled, Prepared;
    assert StepAt(cfg, states, events, m - 1) && StepAt(cfg, states, events, i);
    RunKeeps(cfg, states, events, m - 1);
    RunKeeps(cfg, states, events, m);
    EnabledIsUp(cfg, states[m - 1], events[m - 1]);
    StepFlights(cfg, states[i], events[i]);
    StaysOut(cfg, states, events, i + 1, m, id);
    if i + 1 < m && events[m - 1].NewOrderCall? {
      StaysOut(cfg, states, events, i + 1, m - 1, id);
      NotDrawn(cfg, states[m - 1], events[m - 1], id);
    }
    StepSame(cfg, states[m - 1], events[m - 1], id);
    if i + 1 < m {
      SentForSame(cfg, states, events, i, m - 1, id);
    }
  }

  // ----- Certificates -----

  /** Two versions of a certificate record that differ at most in its revocation. */
  predicate SameIssue(a: Certificate, b: Certificate) {
    a == b.(revokedAt := a.revokedAt, reason := a.reason)
  }

  /** In this step the authority's leaf is stored as certificate `id`, for an order that is ready,
      at the request of its own active account; every name of the order has at this moment a valid,
      unexpired authorization of that account whose target is the name's current lease owner; and
      the names in the leaf are exactly the order's. */
  ghost predicate IssuedBy(before: System, e: Event, id: Id, c: Certificate) {
    && before.up && e.FinalizeCall? && !e.outcome.NotRenamed? && e.certId == id && e.signing == Signed(c.leaf) && IsActive(before.mem, e.req)
    && c.id == id && c.orderId == e.orderId && c.accountId == e.req.accountId
    && e.csr != [] && |before.mem.certs| < MAX_RECORDS && e.orderId in before.mem.orders
    && var o := before.mem.orders[e.orderId];
       && o.accountId == e.req.accountId && o.status == OrderReady && e.now < o.expires
       && multiset(c.leaf.names) == multiset(o.identifiers) && |o.authIds| == |o.identifiers|
       && forall i :: 0 <= i < |o.authIds| ==> Authorizes(before.mem, e, o, i)
  }

  ghost predicate Authorizes(st: State, e: Event, o: Order, i: nat)
    requires e.FinalizeCall? && i < |o.authIds| == |o.identifiers|
  {
    && StillProven(st, e.now, e.owners, o.authIds[i])
    && st.auths[o.authIds[i]].name == o.identifiers[i] && st.auths[o.authIds[i]].accountId == o.accountId
  }

  ghost predicate Records(st: State, c: Certificate) {
    c.id in st.certs && SameIssue(c, st.certs[c.id])
  }

  lemma PrunedCert(st: State, now: Time, activity: map<Id, Time>, c: Certificate)
    requires Records(Prune(st, now, activity), c)
    ensures Records(st, c)
  {
    hide Prune;
    PruneAt(st, now, activity, c.id);
  }

  lemma OrderAuthorizes(cfg: Config, st: State, e: Event, orderId: Id)
    requires e.FinalizeCall? && OrdersOk(cfg, st) && orderId in st.orders
    requires forall i :: 0 <= i < |st.orders[orderId].authIds| ==> StillProven(st, e.now, e.owners, st.orders[orderId].authIds[i])
    ensures var o := st.orders[orderId];
            |o.authIds| == |o.identifiers| && forall i :: 0 <= i < |o.authIds| ==> Authorizes(st, e, o, i)
  {
    hide AllowedName, ValidId, Distinct, StillProven;
    assert OrderOk(cfg, st, orderId);
    var o := st.orders[orderId];
    forall i | 0 <= i < |o.authIds| ensures Authorizes(st, e, o, i) {
      assert Backs(st, o, i);
    }
  }

  lemma FinalizeIssues(cfg: Config, before: System, e: Event, c: Certificate)
    requires SystemInv(cfg, before) && Enabled(cfg, before, e) && e.FinalizeCall? && Renamed(e) && before.up
    requires Prepared(cfg, before, e).Some? && Records(Prepared(cfg, before, e).value, c)
    ensures Records(before.mem, c) || IssuedBy(before, e, c.id, c)
  {
    hide Prepared, Base, IsActive, StillProven, SystemInv, Enabled, AuthorizedNames, Authorizes, IssuedBy, Records, WithCertificate;
    FinalizeForm(cfg, before, e);
    if !Records(before.mem, c) {
      OnlyNewRecord(before.mem, e.orderId, e.signing, e.certId, e.csr, c);
      IssuableOrder(cfg, before, e);
      IssuedWhole(before, e, c);
    }
  }

  /** The certificate a finalization adds is the only one it adds. */
  lemma OnlyNewRecord(st: State, orderId: Id, signing: Signing, certId: Id, csr: seq<int>, c: Certificate)
    requires orderId in st.orders && !Records(st, c)
    ensures !Records(st.(orders := st.orders[orderId := st.orders[orderId].(status := OrderInvalid)]), c)
    ensures signing.Signed? && Records(WithCertificate(st, orderId, signing.leaf, certId, csr), c) ==>
              c.id == certId && c.leaf == signing.leaf && c.orderId == orderId && c.accountId == st.orders[orderId].accountId
  {
  }

  lemma IssuedWhole(before: System, e: Event, c: Certificate)
    requires before.up && e.FinalizeCall? && Renamed(e) && e.orderId in before.mem.orders && e.signing.Signed?
    requires c.id == e.certId && c.leaf == e.signing.leaf && c.orderId == e.orderId && c.accountId == before.mem.orders[e.orderId].accountId
    requires var o := before.mem.orders[e.orderId];
             && IsActive(before.mem, e.req) && o.accountId == e.req.accountId && o.status == OrderReady && e.now < o.expires
             && e.csr != [] && |before.mem.certs| < MAX_RECORDS
             && multiset(e.signing.leaf.names) == multiset(o.identifiers) && |o.authIds| == |o.identifiers|
             && forall i :: 0 <= i < |o.authIds| ==> Authorizes(before.mem, e, o, i)
    ensures IssuedBy(before, e, c.id, c)
  {
    hide IsActive, Authorizes;
  }

  lemma IssuableOrder(cfg: Config, before: System, e: Event)
    requires SystemInv(cfg, before) && Enabled(cfg, before, e) && e.FinalizeCall? && before.up && e.signing.Signed?
    requires e.orderId in before.mem.orders
    requires forall i :: 0 <= i < |before.mem.orders[e.orderId].authIds| ==>
               StillProven(before.mem, e.now, e.owners, before.mem.orders[e.orderId].authIds[i])
    ensures var o := before.mem.orders[e.orderId];
            && multiset(e.signing.leaf.names) == multiset(o.identifiers) && |o.authIds| == |o.identifiers|
            && forall i :: 0 <= i < |o.authIds| ==> Authorizes(before.mem, e, o, i)
  {
    hide StillProven, FlightsMatch, Recover, AuthorizedNames, OrdersOk, AccountsOk, AuthsOk, CertsOk, Authorizes, FreshId;
    NamesOfOrder(cfg, before.mem, e.orderId);
    OrderAuthorizes(cfg, before.mem, e, e.orderId);
  }

  lemma PreparedCert(cfg: Config, before: System, e: Event, c: Certificate)
    requires SystemInv(cfg, before) && Enabled(cfg, before, e) && Renamed(e)
    requires Prepared(cfg, before, e).Some? && Records(Prepared(cfg, before, e).value, c)
    ensures Records(Base(cfg, before, e), c) || IssuedBy(before, e, c.id, c)
  {
    hide Prepared, Base, Prune, IsActive, Finished, RefreshCrl, SystemInv, Recorded, IssuedBy, Enabled, StillProven, WithAuths,
         WithAccountStatus, CanStart, OrderCapacityReached, DenyCreation, HasThumbprint;
    NothingPrepared(cfg, before, e);
    match e
    case NewAccountCall(now, _, _, _, _, _) =>
      NewAccountForm(cfg, before, e);
      PrunedCert(before.mem, now, before.activity, c);
    case NewOrderCall(now, req, _, _, _, _, _, _) =>
      NewOrderForm(cfg, before, e);
      PrunedCert(before.mem, now, ActivityAt(before, req.accountId, now), c);
    case FinalizeCall(_, _, _, _, _, _, _, _) =>
      EnabledIsUp(cfg, before, e);
      FinalizeIssues(cfg, before, e, c);
      FinalizeForm(cfg, before, e);
    case RevokeCall(now, _, leaf, reason, _, nextUpdate, _) =>
      RevokeForm(cfg, before, e);
      RefreshKeepsAuths(WithRevocation(before.mem, RecordedId(before.mem, leaf), now, reason), now, nextUpdate);
    case CrlCall(now, nextUpdate, _) =>
      CrlForm(cfg, before, e);
      RefreshKeepsAuths(before.mem, now, nextUpdate);
    case _ => QuietPrepared(cfg, before, e);
  }

  lemma EnabledIsUp(cfg: Config, before: System, e: Event)
    requires Enabled(cfg, before, e) && !e.RestartCall? && !e.CrashEvent?
    ensures before.up
  {
  }

  lemma FinishedCerts(st: State, now: Time, req: Request, authId: Id, proof: Option<Target>)
    requires authId in st.auths && st.auths[authId].orderId in st.orders
    ensures var next := Finished(st, now, req, authId, proof);
            SameIssued(st, next) && next.accounts == st.accounts && next.limits == st.limits
  {
    hide IsActive, AllValid, RolledOver;
  }

  /** Certificates and revocation list are the same. */
  predicate SameIssued(st: State, next: State) {
    next.certs == st.certs && next.crl == st.crl && next.crlNumber == st.crlNumber && next.crlNextUpdate == st.crlNextUpdate
  }

  lemma StatusCerts(st: State, id: Id, status: AccountStatus)
    requires id in st.accounts
    ensures var next := WithAccountStatus(st, id, status); SameIssued(st, next) && next.limits == st.limits
  {
  }

  /** Steps that concern accounts, authorizations and start-up leave certificates and list alone. */
  lemma QuietPrepared(cfg: Config, before: System, e: Event)
    requires Prepared(cfg, before, e).Some?
    requires !e.NewAccountCall? && !e.NewOrderCall? && !e.FinalizeCall? && !e.RevokeCall? && !e.CrlCall?
    ensures SameIssued(Base(cfg, before, e), Prepared(cfg, before, e).value)
  {
    hide Prepared, Base, IsActive, Finished, WithAccountStatus, CanStart;
    NothingPrepared(cfg, before, e);
    match e
    case FinishCall(now, authId, proof, _) =>
      FinishForm(cfg, before, e);
      FinishedCerts(before.mem, now, before.inflight[authId], authId, proof);
    case UpdateAccountCall(_, req, _, status, _) =>
      UpdateForm(cfg, before, e);
      StatusCerts(before.mem, req.accountId, if status.Some? then status.value else AccountValid);
    case KeyChangeCall(_, _, _, _) => KeyChangeForm(cfg, before, e);
    case DeactivateAuthCall(_, _, _, _) => DeactivationForm(cfg, before, e);
    case StartCall(_, _, _, _, _) => StartForm(cfg, before, e);
    case RestartCall(_, _) => RestartForm(cfg, before, e);
    case ReadCall(_, _) =>
    case CrashEvent(_) =>
  }

  /** What memory and file always have in common. */
  lemma BaseIsStored(cfg: Config, before: System, e: Event)
    requires SystemInv(cfg, before) && Enabled(cfg, before, e) && !e.CrashEvent?
    ensures var st := Base(cfg, before, e);
            if before.disk.Some? then
              var d := before.disk.value;
              st.certs == d.certs && st.orders == d.orders && st.accounts == d.accounts && st.limits == d.limits
              && st.crl == d.crl && st.crlNumber == d.crlNumber && st.crlNextUpdate == d.crlNextUpdate
            else e.RestartCall? && st == Fresh(cfg)
  {
    hide Inv, FlightsMatch, AcceptableNames, SigningContract, FreshId, Distinct, ValidId;
    if !e.RestartCall? {
      assert Recover(before.mem).certs == before.mem.certs;
    }
  }

  lemma StoredCert(cfg: Config, before: System, e: Event, c: Certificate)
    requires SystemInv(cfg, before) && Enabled(cfg, before, e)
    requires var after := Step(cfg, before, e).0; after.disk.Some? && Records(after.disk.value, c)
    ensures (before.disk.Some? && Records(before.disk.value, c)) || IssuedBy(before, e, c.id, c)
  {
    hide SystemInv, Step, Prepared, Prune, IssuedBy, Enabled, Base;
    StepStores(cfg, before, e);
    var prepared := Prepared(cfg, before, e);
    if prepared.Some? && Renamed(e) {
      var activity :| Step(cfg, before, e).0.disk == Some(Prune(prepared.value, e.now, activity));
      PrunedCert(prepared.value, e.now, activity, c);
      PreparedCert(cfg, before, e, c);
      BaseIsStored(cfg, before, e);
    }
  }

  /** Issuance safety: every certificate ever recorded, revoked since or not, was issued by an earlier
      step of the run that satisfied all the conditions of IssuedBy. */
  lemma {:induction false} CertificateWasIssued(cfg: Config, states: seq<System>, events: seq<Event>, k: nat, c: Certificate)
    requires IsRun(cfg, states, events) && k < |states|
    requires states[k].disk.Some? && Records(states[k].disk.value, c)
    ensures exists j :: 0 <= j < k && IssuedBy(states[j], events[j], c.id, c)
  {
    hide SystemInv, Step, IssuedBy, Records, Enabled;
    if k > 0 {
      assert StepAt(cfg, states, events, k - 1);
      RunKeeps(cfg, states, events, k - 1);
      StoredCert(cfg, states[k - 1], events[k - 1], c);
      if !IssuedBy(states[k - 1], events[k - 1], c.id, c) {
        CertificateWasIssued(cfg, states, events, k - 1, c);
      }
    }
  }

  // ----- From the certificate back to the proof -----

  lemma AuthorizedIsStored(cfg: Config, before: System, e: Event, o: Order, i: nat)
    requires SystemInv(cfg, before) && before.up && e.FinalizeCall? && i < |o.authIds| == |o.identifiers|
    requires Authorizes(before.mem, e, o, i)
    ensures o.identifiers[i] in e.owners && before.disk.Some?
    ensures IsValidFor(before.disk.value, Claim(o.authIds[i], o.accountId, o.identifiers[i], e.owners[o.identifiers[i]]))
  {
    hide Inv, FlightsMatch;
    assert IsValidFor(Recover(before.mem), Claim(o.authIds[i], o.accountId, o.identifiers[i], e.owners[o.identifiers[i]]));
  }

  lemma NameOfLeaf(names: seq<string>, identifiers: seq<string>, i: nat) returns (j: nat)
    requires multiset(names) == multiset(identifiers) && i < |names|
    ensures j < |identifiers| && identifiers[j] == names[i]
  {
    assert names[i] in multiset(identifiers);
    j :| j < |identifiers| && identifiers[j] == names[i];
  }

  /** The step stores the certificate, and the name's lease owner of that moment is `target`. */
  ghost predicate IssuedTo(before: System, e: Event, c: Certificate, name: string, target: Target) {
    IssuedBy(before, e, c.id, c) && name in e.owners && e.owners[name] == target
  }

  /** Provenance, over every run: a certificate that was ever recorded goes back, for each of its names,
      to an outbound validation that earlier in the run proved the very target that held the name's
      lease when the certificate was issued, under a key that was the account's own at that moment. */
  lemma CertificateProvenance(cfg: Config, states: seq<System>, events: seq<Event>, k: nat, c: Certificate, i: nat)
    requires IsRun(cfg, states, events) && k < |states| && i < |c.leaf.names|
    requires states[k].disk.Some? && Records(states[k].disk.value, c)
    ensures exists m: nat, j: nat, id, target ::
              && m < j < k && IssuedTo(states[j], events[j], c, c.leaf.names[i], target)
              && ProvedBy(states[m], events[m], Claim(id, c.accountId, c.leaf.names[i], target))
  {
    hide SystemInv, Step, Records, Enabled, ProvedBy, Authorizes, IsActive, IsValidFor;
    CertificateWasIssued(cfg, states, events, k, c);
    var j: nat :| j < k && IssuedBy(states[j], events[j], c.id, c);
    var o := states[j].mem.orders[events[j].orderId];
    var n := NameOfLeaf(c.leaf.names, o.identifiers, i);
    RunKeeps(cfg, states, events, j);
    AuthorizedIsStored(cfg, states[j], events[j], o, n);
    var target := events[j].owners[c.leaf.names[i]];
    var claim := Claim(o.authIds[n], c.accountId, c.leaf.names[i], target);
    ValidWasProved(cfg, states, events, j, claim);
    var m: nat :| m < j && ProvedBy(states[m], events[m], claim);
    assert IssuedTo(states[j], events[j], c, c.leaf.names[i], target);
  }
}
