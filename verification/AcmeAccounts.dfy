/** Accounts over whole runs: an active one is not forgotten, a deactivated one stays shut. */
module AcmeAccounts {
  import opened Common
  import opened Acme
  import opened AcmeInvariant
  import opened AcmeSteps
  import opened AcmeRuns
  import opened AcmeIssuance
  import opened AcmeEffects
  import opened AcmeQuota

  // ----- An active account is not forgotten -----

  /** The account is on record, and activity at `t` or later is on record for it or about to be. */
  ghost predicate Seen(st: State, activity: map<Id, Time>, id: Id, t: Time) {
    id in st.accounts && (t <= st.accounts[id].lastActive || (id in activity && t <= activity[id]))
  }

  lemma PruneKeepsSeen(st: State, now: Time, activity: map<Id, Time>, id: Id, t: Time)
    requires Seen(st, activity, id, t) && now < t + ACCOUNT_IDLE_LIFETIME
    ensures var p := Prune(st, now, activity); id in p.accounts && t <= p.accounts[id].lastActive
  {
    hide Prune;
    ForgottenIff(st, now, activity, id);
  }

  /** No step takes an account that was seen lately out of the snapshot it prepares. */
  lemma PreparedSeen(cfg: Config, before: System, e: Event, id: Id, t: Time)
    requires Prepared(cfg, before, e).Some? && !e.RestartCall? && Seen(before.mem, before.activity, id, t) && e.now < t + ACCOUNT_IDLE_LIFETIME
    requires t <= e.now
    ensures Seen(Prepared(cfg, before, e).value, NotedActivity(before, e), id, t)
  {
    hide Prepared, Prune, RefreshCrl, StillProven, IsActive, WithAuths, Recorded, DenyCreation, HasThumbprint, OrderCapacityReached, Finished,
         WithAccountStatus, CanStart;
    NothingPrepared(cfg, before, e);
    match e
    case NewAccountCall(now, _, _, _, _, _) =>
      NewAccountForm(cfg, before, e);
      PruneKeepsSeen(before.mem, now, before.activity, id, t);
    case NewOrderCall(now, req, _, _, _, _, _, _) =>
      NewOrderForm(cfg, before, e);
      PruneKeepsSeen(before.mem, now, ActivityAt(before, req.accountId, now), id, t);
    case UpdateAccountCall(_, req, _, status, _) =>
      UpdateForm(cfg, before, e);
      StatusAccounts(before.mem, req.accountId, if status.Some? then status.value else AccountValid);
    case KeyChangeCall(_, _, _, _) => KeyChangeForm(cfg, before, e);
    case DeactivateAuthCall(_, _, _, _) => DeactivationForm(cfg, before, e);
    case StartCall(_, _, _, _, _) => StartForm(cfg, before, e);
    case FinishCall(now, authId, proof, _) =>
      FinishForm(cfg, before, e);
      FinishedCerts(before.mem, now, before.inflight[authId], authId, proof);
    case FinalizeCall(_, _, _, _, _, _, _, _) => FinalizeForm(cfg, before, e);
    case RevokeCall(now, _, leaf, reason, _, nextUpdate, _) =>
      RevokeForm(cfg, before, e);
      RefreshAccounts(WithRevocation(before.mem, RecordedId(before.mem, leaf), now, reason), now, nextUpdate);
    case CrlCall(now, nextUpdate, _) =>
      CrlForm(cfg, before, e);
      RefreshAccounts(before.mem, now, nextUpdate);
  }

  /** The accounts in memory after a step, and the activity noted but not yet stored. */
  ghost predicate AccountsAfter(cfg: Config, before: System, e: Event, after: System) {
    var prepared := Prepared(cfg, before, e);
    if prepared.Some? && Renamed(e) then after.mem.accounts == Prune(prepared.value, e.now, NotedActivity(before, e)).accounts
    else after.mem.accounts == before.mem.accounts && ActivityKept(before.activity, after.activity, e.now)
  }

  /** Activity that was noted still is, or was noted again just now. */
  ghost predicate ActivityKept(before: map<Id, Time>, after: map<Id, Time>, now: Time) {
    forall id :: id in before ==> id in after && (after[id] == before[id] || after[id] == now)
  }

  lemma TouchKept(activity: map<Id, Time>, id: Id, now: Time)
    ensures ActivityKept(activity, activity, now) && ActivityKept(activity, activity[id := now], now)
  {
  }

  lemma CommitAccounts(sys: System, next: State, now: Time, outcome: Outcome)
    ensures var after := Commit(sys, next, now, outcome);
            after.mem.accounts == (if outcome.NotRenamed? then sys.mem.accounts else Prune(next, now, sys.activity).accounts)
            && (outcome.NotRenamed? ==> after.activity == sys.activity)
  {
    hide Prune;
  }

  lemma RetryAccounts(sys: System, authId: Id)
    ensures RetryInterrupted(sys, authId).mem.accounts == sys.mem.accounts && RetryInterrupted(sys, authId).activity == sys.activity
  {
  }

  lemma AccountCallAccounts(cfg: Config, before: System, e: Event)
    requires Enabled(cfg, before, e) && (e.NewAccountCall? || e.UpdateAccountCall? || e.KeyChangeCall? || e.ReadCall?)
    ensures AccountsAfter(cfg, before, e, Step(cfg, before, e).0)
  {
    hide ActivityKept, Prune, DenyCreation, HasThumbprint, IsActive, WithAccount, WithAccountStatus, WithKey, FreshId, ValidId, RetrySeconds;
    if e.NewAccountCall? {
      var known := HasThumbprint(before.mem, e.key.thumbprint);
      TouchKept(before.activity, if known then before.mem.accounts[AccountWith(before.mem, e.key.thumbprint)].id else "", e.now);
    } else {
      TouchKept(before.activity, e.req.accountId, e.now);
    }
  }

  lemma NewOrderAccounts(cfg: Config, before: System, e: Event)
    requires Enabled(cfg, before, e) && e.NewOrderCall?
    ensures AccountsAfter(cfg, before, e, Step(cfg, before, e).0)
  {
    hide ActivityKept, Prune, DenyCreation, IsActive, FreshId, ValidId, RetrySeconds, WithOrder, OrderCapacityReached, AcceptableNames, Distinct;
    TouchKept(before.activity, e.req.accountId, e.now);
  }

  lemma DeactivationAccounts(cfg: Config, before: System, e: Event)
    requires Enabled(cfg, before, e) && e.DeactivateAuthCall?
    ensures AccountsAfter(cfg, before, e, Step(cfg, before, e).0)
  {
    hide ActivityKept, Prune, IsActive, WithAuthDeactivated, Commit;
    TouchKept(before.activity, e.req.accountId, e.now);
    var sys := Touch(before.(clock := e.now), e.req.accountId, e.now);
    if e.authId in before.mem.auths {
      CommitAccounts(sys, WithAuthDeactivated(before.mem, e.authId), e.now, e.outcome);
    }
  }

  lemma StartAccounts(cfg: Config, before: System, e: Event)
    requires Enabled(cfg, before, e) && e.StartCall?
    ensures AccountsAfter(cfg, before, e, Step(cfg, before, e).0)
  {
    hide ActivityKept, Prune, IsActive, CanStart, WithChallenge, Commit, RetryInterrupted;
    TouchKept(before.activity, e.req.accountId, e.now);
    var sys := Touch(before.(clock := e.now), e.req.accountId, e.now);
    if e.authId in before.mem.auths {
      var next := WithChallenge(before.mem, e.authId, ChallengeProcessing);
      CommitAccounts(sys, next, e.now, e.outcome);
      RetryAccounts(Commit(sys, next, e.now, e.outcome), e.authId);
    }
  }

  lemma FinishAccounts(cfg: Config, before: System, e: Event)
    requires Enabled(cfg, before, e) && e.FinishCall?
    ensures AccountsAfter(cfg, before, e, Step(cfg, before, e).0)
  {
    hide ActivityKept, Prune, IsActive, Finished, Commit, RetryInterrupted;
    var req := before.inflight[e.authId];
    TouchKept(before.activity, req.accountId, e.now);
    var sys := before.(clock := e.now, inflight := before.inflight - {e.authId});
    var touched := if IsActive(sys.mem, req) then Touch(sys, req.accountId, e.now) else sys;
    if e.authId in before.mem.auths && before.mem.auths[e.authId].orderId in before.mem.orders {
      var next := Finished(before.mem, e.now, req, e.authId, e.proof);
      CommitAccounts(touched, next, e.now, e.outcome);
      RetryAccounts(Commit(touched, next, e.now, e.outcome), e.authId);
    }
  }

  lemma FinalizeIsCommit(cfg: Config, before: System, e: Event)
    requires Enabled(cfg, before, e) && e.FinalizeCall?
    ensures var sys := before.(clock := e.now);
            var touched := Touch(sys, e.req.accountId, e.now);
            var prepared := Prepared(cfg, before, e);
            if prepared.Some? then Step(cfg, before, e).0 == Commit(touched, prepared.value, e.now, e.outcome)
            else Step(cfg, before, e).0 == touched || Step(cfg, before, e).0 == sys
  {
    hide Commit, IsActive, WithCertificate, StillProven, SigningContract, FreshId;
  }

  lemma FinalizeAccounts(cfg: Config, before: System, e: Event)
    requires Enabled(cfg, before, e) && e.FinalizeCall?
    ensures AccountsAfter(cfg, before, e, Step(cfg, before, e).0)
  {
    hide ActivityKept, Prune, Step, Enabled, Prepared, Commit;
    FinalizeIsCommit(cfg, before, e);
    TouchKept(before.activity, e.req.accountId, e.now);
    var prepared := Prepared(cfg, before, e);
    if prepared.Some? {
      CommitAccounts(Touch(before.(clock := e.now), e.req.accountId, e.now), prepared.value, e.now, e.outcome);
    }
  }

  lemma CertAccounts(cfg: Config, before: System, e: Event)
    requires Enabled(cfg, before, e) && (e.RevokeCall? || e.CrlCall?)
    ensures AccountsAfter(cfg, before, e, Step(cfg, before, e).0)
  {
    hide ActivityKept, Prune, IsActive, RefreshCrl, CanRevoke, CrlStale, WithRevocation, ValidReason, IsRecorded;
    TouchKept(before.activity, if e.RevokeCall? && e.revoker.ByAccount? then e.revoker.req.accountId else "", e.now);
  }

  lemma StepAccounts(cfg: Config, before: System, e: Event)
    requires Enabled(cfg, before, e) && !e.CrashEvent? && !e.RestartCall?
    ensures AccountsAfter(cfg, before, e, Step(cfg, before, e).0)
  {
    hide AccountsAfter, Step, Enabled;
    match e
    case NewOrderCall(_, _, _, _, _, _, _, _) => NewOrderAccounts(cfg, before, e);
    case DeactivateAuthCall(_, _, _, _) => DeactivationAccounts(cfg, before, e);
    case StartCall(_, _, _, _, _) => StartAccounts(cfg, before, e);
    case FinishCall(_, _, _, _) => FinishAccounts(cfg, before, e);
    case FinalizeCall(_, _, _, _, _, _, _, _) => FinalizeAccounts(cfg, before, e);
    case RevokeCall(_, _, _, _, _, _, _) => CertAccounts(cfg, before, e);
    case CrlCall(_, _, _) => CertAccounts(cfg, before, e);
    case _ => AccountCallAccounts(cfg, before, e);
  }

  lemma StepKeepsSeen(cfg: Config, before: System, e: Event, id: Id, t: Time)
    requires Enabled(cfg, before, e) && !e.CrashEvent? && !e.RestartCall?
    requires Seen(before.mem, before.activity, id, t) && t <= e.now < t + ACCOUNT_IDLE_LIFETIME
    ensures var after := Step(cfg, before, e).0; Seen(after.mem, after.activity, id, t)
  {
    hide Step, Enabled, Prepared, Prune, Caller;
    StepAccounts(cfg, before, e);
    var prepared := Prepared(cfg, before, e);
    if prepared.Some? && Renamed(e) {
      PreparedSeen(cfg, before, e, id, t);
      PruneKeepsSeen(prepared.value, e.now, NotedActivity(before, e), id, t);
    }
  }

  /** The active account makes a request whose activity is noted. */
  predicate Requests(before: System, e: Event, id: Id) {
    (e.ReadCall? || e.UpdateAccountCall? || e.NewOrderCall? || e.DeactivateAuthCall? || e.StartCall?)
    && e.req.accountId == id && IsActive(before.mem, e.req)
  }

  lemma RequestIsSeen(cfg: Config, before: System, e: Event, id: Id)
    requires Enabled(cfg, before, e) && Requests(before, e, id)
    ensures var after := Step(cfg, before, e).0; Seen(after.mem, after.activity, id, e.now)
  {
    hide Prune, DenyCreation, WithAccountStatus, FreshId, ValidId, RetrySeconds, WithOrder, OrderCapacityReached, AcceptableNames, Distinct,
         CanStart, WithAuthDeactivated, Step, Prepared, IsActive;
    if Prepared(cfg, before, e).Some? && Renamed(e) {
      StepAccounts(cfg, before, e);
      EnabledNow(cfg, before, e);
      PreparedCaller(cfg, before, e, id);
      CallerStays(Prepared(cfg, before, e).value, e.now, NotedActivity(before, e), id);
      ForgottenIff(Prepared(cfg, before, e).value, e.now, NotedActivity(before, e), id);
    } else {
      RequestTouches(cfg, before, e, id);
    }
  }

  lemma EnabledNow(cfg: Config, before: System, e: Event)
    requires Enabled(cfg, before, e)
    ensures 0 < e.now
  {
  }

  lemma PreparedCaller(cfg: Config, before: System, e: Event, id: Id)
    requires Prepared(cfg, before, e).Some? && Requests(before, e, id)
    ensures id in Prepared(cfg, before, e).value.accounts && id in NotedActivity(before, e) && NotedActivity(before, e)[id] == e.now
  {
    hide Prepared, Prune, IsActive, WithAuths, Recorded, DenyCreation, OrderCapacityReached, CanStart, WithAccountStatus;
    NothingPrepared(cfg, before, e);
    match e
    case NewOrderCall(_, _, _, _, _, _, _, _) => NewOrderForm(cfg, before, e);
    case UpdateAccountCall(_, req, _, status, _) =>
      UpdateForm(cfg, before, e);
      StatusAccounts(before.mem, req.accountId, if status.Some? then status.value else AccountValid);
    case DeactivateAuthCall(_, req, _, _) =>
      DeactivationForm(cfg, before, e);
      ActiveIsOnRecord(before.mem, req);
    case StartCall(_, req, _, _, _) =>
      StartForm(cfg, before, e);
      ActiveIsOnRecord(before.mem, req);
    case ReadCall(_, _) =>
  }

  lemma ActiveIsOnRecord(st: State, req: Request)
    requires IsActive(st, req)
    ensures req.accountId in st.accounts
  {
  }

  lemma RequestTouches(cfg: Config, before: System, e: Event, id: Id)
    requires Enabled(cfg, before, e) && Requests(before, e, id) && !(Prepared(cfg, before, e).Some? && Renamed(e))
    ensures var after := Step(cfg, before, e).0; id in after.mem.accounts && id in after.activity && after.activity[id] == e.now
  {
    hide Prune, DenyCreation, WithAccountStatus, FreshId, ValidId, RetrySeconds, WithOrder, OrderCapacityReached, AcceptableNames, Distinct,
         CanStart, WithAuthDeactivated;
  }

  lemma {:induction false} SeenLasts(cfg: Config, states: seq<System>, events: seq<Event>, i: nat, j: nat, id: Id)
    requires IsRun(cfg, states, events) && i < j < |states| && Requests(states[i], events[i], id)
    requires forall k :: i < k < j ==> !events[k].CrashEvent? && !events[k].RestartCall? && events[k].now < events[i].now + ACCOUNT_IDLE_LIFETIME
    ensures Seen(states[j].mem, states[j].activity, id, events[i].now) && events[i].now <= states[j].clock
  {
    hide Step, Prepared, Requests, Seen;
    assert StepAt(cfg, states, events, j - 1);
    StepStores(cfg, states[j - 1], events[j - 1]);
    if i + 1 < j {
      SeenLasts(cfg, states, events, i, j - 1, id);
      StepKeepsSeen(cfg, states[j - 1], events[j - 1], id, events[i].now);
    } else {
      RequestIsSeen(cfg, states[i], events[i], id);
    }
  }

  /** In every run, an account whose request was honoured less than thirty days ago is on record, as long as the
      process has not stopped in between; unstored activity is what a stop may lose. */
  lemma ActiveAccountStays(cfg: Config, states: seq<System>, events: seq<Event>, i: nat, j: nat, id: Id)
    requires IsRun(cfg, states, events) && i < j < |states| && Requests(states[i], events[i], id)
    requires forall k :: i < k < j ==> !events[k].CrashEvent? && !events[k].RestartCall? && events[k].now < events[i].now + 30 * DAY
    ensures id in states[j].mem.accounts
  {
    hide IsRun, Requests;
    SeenLasts(cfg, states, events, i, j, id);
  }

  // ----- A deactivated account stays shut -----

  predicate Shut(st: State, id: Id) {
    id in st.accounts ==> st.accounts[id].status == AccountDeactivated
  }

  predicate ShutOnDisk(sys: System, id: Id) {
    sys.disk.Some? ==> Shut(sys.disk.value, id)
  }

  lemma PrunedShut(st: State, now: Time, activity: map<Id, Time>, id: Id)
    requires Shut(st, id)
    ensures Shut(Prune(st, now, activity), id)
  {
    hide Prune;
    PruneAt(st, now, activity, id);
  }

  lemma PreparedShut(cfg: Config, before: System, e: Event, id: Id)
    requires Prepared(cfg, before, e).Some? && Shut(Base(cfg, before, e), id) && !(e.NewAccountCall? && e.id == id)
    ensures Shut(Prepared(cfg, before, e).value, id)
  {
    hide Prepared, Prune, RefreshCrl, StillProven, WithAuths, Recorded, DenyCreation, HasThumbprint, OrderCapacityReached, Finished,
         WithAccountStatus, CanStart, Base;
    NothingPrepared(cfg, before, e);
    match e
    case NewAccountCall(now, _, _, _, _, _) =>
      NewAccountForm(cfg, before, e);
      PrunedShut(before.mem, now, before.activity, id);
    case NewOrderCall(now, req, _, _, _, _, _, _) =>
      NewOrderForm(cfg, before, e);
      PrunedShut(before.mem, now, ActivityAt(before, req.accountId, now), id);
    case UpdateAccountCall(_, req, _, status, _) =>
      UpdateForm(cfg, before, e);
      UpdaterActive(cfg, before, e);
      StatusAccounts(before.mem, req.accountId, if status.Some? then status.value else AccountValid);
    case KeyChangeCall(_, _, _, _) => KeyChangeForm(cfg, before, e);
    case DeactivateAuthCall(_, _, _, _) => DeactivationForm(cfg, before, e);
    case StartCall(_, _, _, _, _) => StartForm(cfg, before, e);
    case FinishCall(now, authId, proof, _) =>
      FinishForm(cfg, before, e);
      FinishedCerts(before.mem, now, before.inflight[authId], authId, proof);
    case FinalizeCall(_, _, _, _, _, _, _, _) => FinalizeForm(cfg, before, e);
    case RevokeCall(now, _, leaf, reason, _, nextUpdate, _) =>
      RevokeForm(cfg, before, e);
      RefreshAccounts(WithRevocation(before.mem, RecordedId(before.mem, leaf), now, reason), now, nextUpdate);
    case CrlCall(now, nextUpdate, _) =>
      CrlForm(cfg, before, e);
      RefreshAccounts(before.mem, now, nextUpdate);
    case RestartCall(_, _) => RestartForm(cfg, before, e);
  }

  lemma UpdaterActive(cfg: Config, before: System, e: Event)
    requires e.UpdateAccountCall? && Prepared(cfg, before, e).Some?
    ensures IsActive(before.mem, e.req)
  {
    hide WithAccountStatus;
  }

  lemma StepKeepsShut(cfg: Config, before: System, e: Event, id: Id)
    requires SystemInv(cfg, before) && Enabled(cfg, before, e) && ShutOnDisk(before, id) && !(e.NewAccountCall? && e.id == id)
    ensures ShutOnDisk(Step(cfg, before, e).0, id)
  {
    hide SystemInv, Step, Prepared, Prune, Enabled, Base;
    StepStores(cfg, before, e);
    var prepared := Prepared(cfg, before, e);
    if prepared.Some? && Renamed(e) {
      var activity :| Step(cfg, before, e).0.disk == Some(Prune(prepared.value, e.now, activity));
      BaseIsStored(cfg, before, e);
      FreshHasNone(cfg);
      PreparedShut(cfg, before, e, id);
      PrunedShut(prepared.value, e.now, activity, id);
    }
  }

  lemma FreshHasNone(cfg: Config)
    ensures Fresh(cfg).accounts == map[]
  {
  }

  lemma {:induction false} StaysShut(cfg: Config, states: seq<System>, events: seq<Event>, i: nat, j: nat, id: Id)
    requires IsRun(cfg, states, events) && i <= j < |states| && ShutOnDisk(states[i], id)
    requires forall k :: i <= k < j ==> !(events[k].NewAccountCall? && events[k].id == id)
    ensures ShutOnDisk(states[j], id)
    decreases j - i
  {
    hide SystemInv, Step, Enabled, ShutOnDisk;
    if i < j {
      assert StepAt(cfg, states, events, i);
      RunKeeps(cfg, states, events, i);
      StepKeepsShut(cfg, states[i], events[i], id);
      StaysShut(cfg, states, events, i + 1, j, id);
    }
  }

  lemma SameAccounts(cfg: Config, sys: System)
    requires SystemInv(cfg, sys) && sys.up
    ensures sys.disk.Some? && sys.mem.accounts == sys.disk.value.accounts
  {
    hide Inv, FlightsMatch;
    assert Recover(sys.mem).accounts == sys.mem.accounts && Recover(sys.disk.value).accounts == sys.disk.value.accounts;
  }

  /** In every run: after an accepted deactivation no request of the account is ever honoured again, across
      failed writes, crashes and restarts, unless a new account is created under the same identifier. */
  lemma DeactivatedForGood(cfg: Config, states: seq<System>, events: seq<Event>, i: nat, j: nat, key: Key)
    requires IsRun(cfg, states, events) && i < j < |states| && states[j].up
    requires events[i].UpdateAccountCall? && events[i].status == Some(AccountDeactivated)
    requires StepAt(cfg, states, events, i) && Step(cfg, states[i], events[i]).1.Accepted?
    requires forall k :: i < k < j ==> !(events[k].NewAccountCall? && events[k].id == events[i].req.accountId)
    ensures !IsActive(states[j].mem, Request(events[i].req.accountId, key))
  {
    var id := events[i].req.accountId;
    DeactivationTakesEffect(cfg, states[i], events[i]);
    hide Step, Enabled, SystemInv;
    StaysShut(cfg, states, events, i + 1, j, id);
    RunKeeps(cfg, states, events, j);
    SameAccounts(cfg, states[j]);
  }
}
