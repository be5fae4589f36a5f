/** Exactly which requests are honoured, in terms of what is on record. */
module AcmeReplies {
  import opened Common
  import opened Validator
  import opened Acme
  import opened AcmeInvariant
  import opened AcmeSteps
  import opened AcmeRuns
  import opened AcmeIssuance
  import opened AcmeRevocation
  import opened AcmeRevoking

  /** An unknown key is refused, and nothing changes, if only an existing account is asked for. */
  lemma OnlyExisting(cfg: Config, before: System, e: Event)
    requires Enabled(cfg, before, e) && e.NewAccountCall? && e.onlyExisting
    requires forall id :: id in before.mem.accounts ==> before.mem.accounts[id].thumbprint != e.key.thumbprint
    ensures var (after, reply) := Step(cfg, before, e);
            reply == Refused && after.mem == before.mem && after.disk == before.disk && after.activity == before.activity
  {
    hide Prune, DenyCreation, WithAccount, RetrySeconds, FreshId;
  }

  /** A key change is accepted exactly if it is signed with the account's key, no account has the new key yet,
      and the write succeeds. */
  lemma KeyChangeIff(cfg: Config, before: System, e: Event)
    requires Enabled(cfg, before, e) && e.KeyChangeCall?
    ensures Step(cfg, before, e).1.Accepted? <==>
              && IsActive(before.mem, e.req) && e.outcome.Synced?
              && forall id :: id in before.mem.accounts ==> before.mem.accounts[id].thumbprint != e.key.thumbprint
  {
    hide Prune, WithKey, IsActive;
    SameKeyKnown(before.mem, e.req);
  }

  lemma SameKeyKnown(st: State, req: Request)
    ensures IsActive(st, req) ==> HasThumbprint(st, req.key.thumbprint)
  {
  }

  /** An account update is accepted exactly if it is signed with the account's key and, when it changes
      something, the write succeeds. */
  lemma UpdateIff(cfg: Config, before: System, e: Event)
    requires Enabled(cfg, before, e) && e.UpdateAccountCall?
    ensures Step(cfg, before, e).1.Accepted? <==> IsActive(before.mem, e.req) && (e.contact || e.status.Some? ==> e.outcome.Synced?)
  {
    hide Prune, WithAccountStatus, IsActive;
  }

  /** An authorization is deactivated exactly at the request of its own account, if the write succeeds. */
  lemma AuthDeactivationIff(cfg: Config, before: System, e: Event)
    requires Enabled(cfg, before, e) && e.DeactivateAuthCall?
    ensures Step(cfg, before, e).1.Accepted? <==>
              && IsActive(before.mem, e.req) && e.outcome.Synced?
              && e.authId in before.mem.auths && before.mem.auths[e.authId].accountId == e.req.accountId
  {
    hide Prune, WithAuthDeactivated, IsActive;
  }

  /** A validation goes out exactly if its account acknowledges a challenge that is open: the authorization and
      its order are pending and unexpired, none is out for it, fewer than 32 are out, and the write succeeds. */
  lemma StartIff(cfg: Config, before: System, e: Event)
    requires SystemInv(cfg, before) && Enabled(cfg, before, e) && e.StartCall?
    ensures GoesOut(cfg, before, e, e.authId) <==>
              && IsActive(before.mem, e.req) && e.acknowledged && e.outcome.Synced? && |before.inflight| < 32
              && e.authId in before.mem.auths && e.authId !in before.inflight
              && var a := before.mem.auths[e.authId];
                 && a.accountId == e.req.accountId && a.status == AuthPending && e.now < a.expires
                 && a.orderId in before.mem.orders && before.mem.orders[a.orderId].status == OrderPending
  {
    hide SystemInv, Enabled, WithChallenge, IsActive, Step;
    EnabledIsUp(cfg, before, e);
    if e.authId in before.mem.auths {
      ProcessingIsOut(cfg, before, e.authId);
    }
  }

  lemma ProcessingIsOut(cfg: Config, sys: System, id: Id)
    requires SystemInv(cfg, sys) && sys.up && id in sys.mem.auths
    ensures sys.mem.auths[id].challenge == ChallengeProcessing <==> id in sys.inflight
  {
    hide Inv, Recover;
    assert FlightMatches(sys.mem.auths[id], sys.inflight, id);
  }

  /** The signer may ask for the revocation of this certificate now. */
  ghost predicate MayRevoke(st: State, e: Event, c: Certificate)
    requires e.RevokeCall?
  {
    match e.revoker
    case ByCertificateKey(key) => key.thumbprint == c.leaf.keyThumbprint
    case ByAccount(req) =>
      IsActive(st, req) && (req.accountId == c.accountId
                         || (c.leaf.names != [] && forall i :: 0 <= i < |c.leaf.names| ==> ControlsNow(st, e.now, e.owners, req.accountId, c.leaf.names[i])))
  }

  /** A revocation is accepted exactly if the leaf is on record and not revoked yet, the signer may ask for it,
      the reason is one of those allowed, a list can be made, and the write succeeds. */
  lemma RevokeIff(cfg: Config, states: seq<System>, events: seq<Event>, k: nat, id: Id)
    requires IsRun(cfg, states, events) && k < |events| && events[k].RevokeCall? && StepAt(cfg, states, events, k)
    requires id in states[k].mem.certs && states[k].mem.certs[id].leaf == events[k].leaf
    ensures var (before, e) := (states[k], events[k]);
            Step(cfg, before, e).1.Accepted? <==>
              && before.mem.certs[id].revokedAt == None && MayRevoke(before.mem, e, before.mem.certs[id])
              && e.reason in {0, 1, 2, 3, 4, 5, 6, 9, 10} && e.outcome.Synced?
              && before.mem.crlNumber < MAX_INT64 && e.nextUpdate.Some? && e.now < e.nextUpdate.value
  {
    var before, e := states[k], events[k];
    EnabledIsUp(cfg, before, e);
    RunKeeps(cfg, states, events, k);
    OnlyRecord(cfg, before.mem, e.leaf, id);
    MayIff(cfg, before, e, id);
    RevocationListable(cfg, states, events, k, id);
    hide IsRun, SystemInv, MayRevoke;
    RevokeReply(cfg, before, e, id);
    hide Step, CanRevoke, RefreshCrl, WithRevocation;
  }

  lemma RevokeReply(cfg: Config, before: System, e: Event, id: Id)
    requires Enabled(cfg, before, e) && e.RevokeCall? && IsRecorded(before.mem, e.leaf, id) && RecordedId(before.mem, e.leaf) == id
    ensures Step(cfg, before, e).1.Accepted? <==>
              && ValidReason(e.reason) && CanRevoke(before.mem, e.now, e.owners, e.revoker, before.mem.certs[id])
              && before.mem.certs[id].revokedAt.None? && e.outcome.Synced?
              && RefreshCrl(WithRevocation(before.mem, id, e.now, e.reason), e.now, e.nextUpdate).Some?
  {
    hide Prune, IsActive, RefreshCrl, CanRevoke, WithRevocation, ValidReason;
  }

  lemma OnlyRecord(cfg: Config, st: State, leaf: Leaf, id: Id)
    requires Inv(cfg, st) && id in st.certs && st.certs[id].leaf == leaf
    ensures IsRecorded(st, leaf, id) && RecordedId(st, leaf) == id
  {
    hide OrdersOk, AuthsOk, AccountsOk, ValidId, LimitsOk;
    assert CertOk(cfg, st, id);
    assert IsRecorded(st, leaf, id);
  }

  lemma MayIff(cfg: Config, before: System, e: Event, id: Id)
    requires SystemInv(cfg, before) && before.up && e.RevokeCall? && id in before.mem.certs
    ensures CanRevoke(before.mem, e.now, e.owners, e.revoker, before.mem.certs[id]) <==> MayRevoke(before.mem, e, before.mem.certs[id])
  {
    hide Inv, FlightsMatch, Recover, ProvenFor, ControlsNow;
    if e.revoker.ByAccount? {
      var req := e.revoker.req;
      if req.accountId in before.mem.accounts {
        OwnAccountId(cfg, before.mem, req.accountId);
      }
      forall i | 0 <= i < |before.mem.certs[id].leaf.names|
        ensures ProvenFor(before.mem, e.now, e.owners, req.accountId, before.mem.certs[id].leaf.names[i]) <==>
                ControlsNow(before.mem, e.now, e.owners, req.accountId, before.mem.certs[id].leaf.names[i])
      {
        ProvenIff(cfg, before.mem, e.now, e.owners, req.accountId, before.mem.certs[id].leaf.names[i]);
      }
      hide SystemInv, IsActive;
    }
  }

  lemma ProvenIff(cfg: Config, st: State, now: Time, owners: Owners, accountId: Id, name: string)
    requires Inv(cfg, st)
    ensures ProvenFor(st, now, owners, accountId, name) <==> ControlsNow(st, now, owners, accountId, name)
  {
    hide Inv;
    if ProvenFor(st, now, owners, accountId, name) {
      ProvenControls(st, now, owners, accountId, name);
    }
    if name in owners {
      if id :| id in st.auths && st.auths[id].accountId == accountId && st.auths[id].name == name && st.auths[id].status == AuthValid
               && st.auths[id].validated.Some? && st.auths[id].validated.value <= now < st.auths[id].expires && st.auths[id].target == owners[name] {
        ValidChallenge(cfg, st, id);
        assert Proves(st.auths[id], now, owners[name], accountId, name);
      }
    }
  }

  lemma ValidChallenge(cfg: Config, st: State, id: Id)
    requires Inv(cfg, st) && id in st.auths && st.auths[id].status == AuthValid
    ensures st.auths[id].challenge == ChallengeValid
  {
    hide OrdersOk, CertsOk, AccountsOk, AllowedName, ValidId, StatusesAgree;
    assert AuthOk(cfg, st, id);
  }

  /** The authority never rejects an entry of the list that a revocation makes. */
  lemma RevocationListable(cfg: Config, states: seq<System>, events: seq<Event>, k: nat, id: Id)
    requires IsRun(cfg, states, events) && k < |events| && events[k].RevokeCall? && StepAt(cfg, states, events, k) && id in states[k].mem.certs
    ensures var (before, e) := (states[k], events[k]);
            ValidReason(e.reason) ==>
              (RefreshCrl(WithRevocation(before.mem, id, e.now, e.reason), e.now, e.nextUpdate).Some? <==>
                 before.mem.crlNumber < MAX_INT64 && e.nextUpdate.Some? && e.now < e.nextUpdate.value)
  {
    hide Step, EntriesAccepted, ValidReason, SystemInv, CrlOk;
    var before, e := states[k], events[k];
    EnabledIsUp(cfg, before, e);
    RunKeeps(cfg, states, events, k);
    RunKeepsCrl(cfg, states, events, k);
    BaseCrlOk(cfg, before, e);
    CrlOkParts(before.mem, e.now);
    if ValidReason(e.reason) {
      NumberOk(cfg, before);
      EntriesAfterRevocation(cfg, before, e, id);
    }
  }

  lemma NumberOk(cfg: Config, sys: System)
    requires SystemInv(cfg, sys) && sys.up
    ensures 0 <= sys.mem.crlNumber <= MAX_INT64
  {
    hide Linked, FlightsMatch, Recover, SizesOk, LimitsOk;
  }

  lemma EntriesAfterRevocation(cfg: Config, before: System, e: Event, id: Id)
    requires SystemInv(cfg, before) && before.up && Enabled(cfg, before, e) && e.RevokeCall? && id in before.mem.certs
    requires ValidReason(e.reason) && RevokedInPast(before.mem, e.now)
    ensures EntriesAccepted(RevokedEntries(WithRevocation(before.mem, id, e.now, e.reason).certs, e.now), e.now)
  {
    hide EntriesAccepted, FlightsMatch, Recover, OrdersOk, AuthsOk, AccountsOk, CertsOk, LimitsOk;
    var st := WithRevocation(before.mem, id, e.now, e.reason);
    RevokedCertsOk(cfg, before.mem, id, e.now, e.reason);
    hide SystemInv;
    EntriesAreAccepted(cfg, st, e.now);
  }

  lemma RevokedCertsOk(cfg: Config, st: State, id: Id, now: Time, reason: int)
    requires CertsOk(cfg, st) && id in st.certs && ValidReason(reason) && 0 < now
    ensures CertsOk(cfg, WithRevocation(st, id, now, reason))
  {
    hide ValidId, ValidReason;
    var next := WithRevocation(st, id, now, reason);
    forall k | k in next.certs ensures CertOk(cfg, next, k) {
      assert CertOk(cfg, st, k);
    }
  }

  /** A list that is due in more than a minute is served as it is, and nothing is stored. */
  lemma FreshListServed(cfg: Config, before: System, e: Event)
    requires SystemInv(cfg, before) && Enabled(cfg, before, e) && e.CrlCall?
    requires before.mem.crl.Some? && e.now + MINUTE < before.mem.crl.value.nextUpdate
    ensures var (after, reply) := Step(cfg, before, e);
            reply == ServedCrl(before.mem.crl.value) && after.mem == before.mem && after.disk == before.disk
  {
    EnabledIsUp(cfg, before, e);
    HeaderOf(cfg, before);
    hide SystemInv, RefreshCrl, Prune;
  }
}
