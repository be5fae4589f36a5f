/** What an accepted revocation does, who may ask for one, and what the lists that are served contain. */
module AcmeRevoking {
  import opened Common
  import opened Validator
  import opened Acme
  import opened AcmeInvariant
  import opened AcmeSteps
  import opened AcmeRuns
  import opened AcmeIssuance
  import opened AcmeRevocation
  import opened AcmeEffects

  // ----- An accepted revocation -----

  /** In `next` the certificate is revoked as asked, listed with its serial number, and nothing else about
      certificates has changed, except that expired ones are gone. */
  ghost predicate RevokedAsAsked(st: State, next: State, id: Id, leaf: Leaf, now: Time, reason: int) {
    && id in st.certs && st.certs[id].leaf == leaf && st.certs[id].revokedAt == None
    && (now < leaf.notAfter ==>
          && id in next.certs && next.certs[id] == st.certs[id].(revokedAt := Some(now), reason := reason)
          && next.crl.Some? && CrlEntry(leaf.serial, now, reason) in next.crl.value.entries)
    && (forall d :: d in next.certs && d != id ==> d in st.certs && next.certs[d] == st.certs[d])
    && (forall d :: d in st.certs && d != id && now < st.certs[d].notAfter ==> d in next.certs)
  }

  lemma RevokedSnapshot(cfg: Config, st: State, next: State, now: Time, activity: map<Id, Time>, id: Id, reason: int, nextUpdate: Option<Time>)
    requires Inv(cfg, st) && id in st.certs && st.certs[id].revokedAt == None
    requires RefreshCrl(WithRevocation(st, id, now, reason), now, nextUpdate) == Some(next) && Consistent(cfg, next)
    ensures RevokedAsAsked(st, Prune(next, now, activity), id, st.certs[id].leaf, now, reason)
  {
    hide Prune, Inv, Consistent, EntriesAccepted;
    var p := Prune(next, now, activity);
    PruneKeepsList(next, now, activity);
    CertDates(cfg, st, id);
    if now < st.certs[id].leaf.notAfter {
      CertStays(cfg, next, now, activity, id);
      RevocationListed(st, id, now, reason);
    }
    forall d | d in p.certs && d != id ensures d in st.certs && p.certs[d] == st.certs[d] {
      PruneAt(next, now, activity, d);
    }
    forall d | d in st.certs && d != id && now < st.certs[d].notAfter ensures d in p.certs {
      CertStays(cfg, next, now, activity, d);
    }
  }

  lemma CertDates(cfg: Config, st: State, id: Id)
    requires Inv(cfg, st) && id in st.certs
    ensures st.certs[id].leaf.serial == st.certs[id].serial && st.certs[id].leaf.notAfter == st.certs[id].notAfter && st.certs[id].id == id
  {
    hide OrdersOk, AuthsOk, AccountsOk, ValidId;
    assert CertOk(cfg, st, id);
  }

  lemma RevocationListed(st: State, id: Id, now: Time, reason: int)
    requires id in st.certs && now < st.certs[id].notAfter
    ensures CrlEntry(st.certs[id].serial, now, reason) in RevokedEntries(WithRevocation(st, id, now, reason).certs, now)
  {
    var certs := WithRevocation(st, id, now, reason).certs;
    assert Listed(certs[id], now);
  }

  /** In every run, an accepted revocation revokes: the record of exactly this leaf then has this time and
      reason, in memory and in the file, and the stored list names its serial number. */
  lemma RevocationTakesEffect(cfg: Config, states: seq<System>, events: seq<Event>, k: nat)
    requires IsRun(cfg, states, events) && k < |events| && events[k].RevokeCall?
    requires StepAt(cfg, states, events, k) && Step(cfg, states[k], events[k]).1.Accepted?
    ensures var (before, e, after) := (states[k], events[k], states[k + 1]);
            && after.disk == Some(after.mem)
            && exists id :: RevokedAsAsked(before.mem, after.mem, id, e.leaf, e.now, e.reason)
  {
    var before, e := states[k], events[k];
    RunKeeps(cfg, states, events, k);
    EnabledIsUp(cfg, before, e);
    hide IsRun;
    AcceptedStored(cfg, before, e);
    PreparedConsistent(cfg, before, e);
    hide Step, Prepared, Prune, Enabled, Inv, Consistent, RefreshCrl, RevokedAsAsked, WithRevocation, FlightsMatch, Recover;
    RevokeForm(cfg, before, e);
    var id := RecordedId(before.mem, e.leaf);
    RevokedSnapshot(cfg, before.mem, Prepared(cfg, before, e).value, e.now, NotedActivity(before, e), id, e.reason, e.nextUpdate);
  }

  // ----- Who may ask -----

  /** The account has at this moment a valid proof of control of the name, by its present lease owner. */
  ghost predicate ControlsNow(st: State, now: Time, owners: Owners, accountId: Id, name: string) {
    && name in owners
    && exists id :: id in st.auths
         && st.auths[id].accountId == accountId && st.auths[id].name == name && st.auths[id].status == AuthValid
         && st.auths[id].validated.Some? && st.auths[id].validated.value <= now < st.auths[id].expires && st.auths[id].target == owners[name]
  }

  /** This step asks for the revocation of the leaf, with this reason and time, and its signer may: it holds the
      certificate's own key, or the active key of the issuing account, or that of an account that now has a
      valid proof for every name. */
  ghost predicate AskedBy(before: System, e: Event, c: Certificate) {
    && before.up && e.RevokeCall? && e.leaf == c.leaf && c.revokedAt == Some(e.now) && c.reason == e.reason
    && e.reason in {0, 1, 2, 3, 4, 5, 6, 9, 10}
    && match e.revoker
       case ByCertificateKey(key) => key.thumbprint == c.leaf.keyThumbprint
       case ByAccount(req) =>
         && IsActive(before.mem, req)
         && (req.accountId == c.accountId
             || (c.leaf.names != [] && forall i :: 0 <= i < |c.leaf.names| ==> ControlsNow(before.mem, e.now, e.owners, req.accountId, c.leaf.names[i])))
  }

  lemma AllowedAsked(cfg: Config, before: System, e: Event, c: Certificate)
    requires SystemInv(cfg, before) && before.up && e.RevokeCall? && Prepared(cfg, before, e).Some?
    requires exists id :: IsRecorded(before.mem, e.leaf, id)
    requires c == before.mem.certs[RecordedId(before.mem, e.leaf)].(revokedAt := Some(e.now), reason := e.reason)
    ensures AskedBy(before, e, c)
  {
    hide Inv, FlightsMatch, Recover, RefreshCrl, WithRevocation, IsRecorded;
    var id := RecordedId(before.mem, e.leaf);
    RecordedLeaf(before.mem, e.leaf);
    assert CanRevoke(before.mem, e.now, e.owners, e.revoker, before.mem.certs[id]) && ValidReason(e.reason);
    if e.revoker.ByAccount? && e.revoker.req.accountId in before.mem.accounts {
      OwnAccountId(cfg, before.mem, e.revoker.req.accountId);
    }
    hide SystemInv, Prepared;
    if e.revoker.ByAccount? && before.mem.accounts[e.revoker.req.accountId].id != c.accountId {
      forall i | 0 <= i < |c.leaf.names| ensures ControlsNow(before.mem, e.now, e.owners, e.revoker.req.accountId, c.leaf.names[i]) {
        ProvenControls(before.mem, e.now, e.owners, e.revoker.req.accountId, c.leaf.names[i]);
      }
    }
  }

  lemma RecordedLeaf(st: State, leaf: Leaf)
    requires exists id :: IsRecorded(st, leaf, id)
    ensures RecordedId(st, leaf) in st.certs && st.certs[RecordedId(st, leaf)].leaf == leaf
  {
  }

  lemma OwnAccountId(cfg: Config, st: State, id: Id)
    requires Inv(cfg, st) && id in st.accounts
    ensures st.accounts[id].id == id
  {
    hide OrdersOk, AuthsOk, CertsOk, ValidId;
    assert AccountOk(st, id);
  }

  lemma ProvenControls(st: State, now: Time, owners: Owners, accountId: Id, name: string)
    requires ProvenFor(st, now, owners, accountId, name)
    ensures ControlsNow(st, now, owners, accountId, name)
  {
  }

  lemma PreparedRevoked(cfg: Config, before: System, e: Event, c: Certificate)
    requires SystemInv(cfg, before) && Enabled(cfg, before, e) && Prepared(cfg, before, e).Some?
    requires IsRevoked(Prepared(cfg, before, e).value, c)
    ensures IsRevoked(Base(cfg, before, e), c) || AskedBy(before, e, c)
  {
    hide Prepared, Base, Prune, RefreshCrl, Enabled, SystemInv, StillProven, IsActive, WithAuths, Recorded, DenyCreation,
         HasThumbprint, OrderCapacityReached, AskedBy;
    NothingPrepared(cfg, before, e);
    match e
    case NewAccountCall(now, _, _, _, _, _) =>
      NewAccountForm(cfg, before, e);
      PruneAt(before.mem, now, before.activity, c.id);
    case NewOrderCall(now, req, _, _, _, _, _, _) =>
      NewOrderForm(cfg, before, e);
      PruneAt(before.mem, now, ActivityAt(before, req.accountId, now), c.id);
    case FinalizeCall(_, _, _, _, _, _, _, _) => FinalizeForm(cfg, before, e);
    case RevokeCall(now, _, leaf, reason, _, nextUpdate, _) =>
      RevokeForm(cfg, before, e);
      RefreshKeepsAuths(WithRevocation(before.mem, RecordedId(before.mem, leaf), now, reason), now, nextUpdate);
      if c.id == RecordedId(before.mem, leaf) {
        EnabledIsUp(cfg, before, e);
        AllowedAsked(cfg, before, e, c);
      }
    case CrlCall(now, nextUpdate, _) =>
      CrlForm(cfg, before, e);
      RefreshKeepsAuths(before.mem, now, nextUpdate);
    case _ => QuietPrepared(cfg, before, e);
  }

  lemma StoredRevoked(cfg: Config, before: System, e: Event, c: Certificate)
    requires SystemInv(cfg, before) && Enabled(cfg, before, e)
    requires var after := Step(cfg, before, e).0; after.disk.Some? && IsRevoked(after.disk.value, c)
    ensures (before.disk.Some? && IsRevoked(before.disk.value, c)) || AskedBy(before, e, c)
  {
    hide SystemInv, Step, Prepared, Prune, Enabled, Base, AskedBy;
    StepStores(cfg, before, e);
    var prepared := Prepared(cfg, before, e);
    if prepared.Some? && Renamed(e) {
      var activity :| Step(cfg, before, e).0.disk == Some(Prune(prepared.value, e.now, activity));
      PruneAt(prepared.value, e.now, activity, c.id);
      PreparedRevoked(cfg, before, e, c);
      BaseIsStored(cfg, before, e);
    }
  }

  /** Every revocation that is ever stored was asked for, in an earlier step of the run, by someone who may. */
  lemma {:induction false} RevocationWasAsked(cfg: Config, states: seq<System>, events: seq<Event>, k: nat, c: Certificate)
    requires IsRun(cfg, states, events) && k < |states| && states[k].disk.Some? && IsRevoked(states[k].disk.value, c)
    ensures exists j :: 0 <= j < k && AskedBy(states[j], events[j], c)
  {
    hide SystemInv, Step, Enabled, AskedBy, IsRevoked;
    if k > 0 {
      assert StepAt(cfg, states, events, k - 1);
      RunKeeps(cfg, states, events, k - 1);
      StoredRevoked(cfg, states[k - 1], events[k - 1], c);
      if !AskedBy(states[k - 1], events[k - 1], c) {
        RevocationWasAsked(cfg, states, events, k - 1, c);
      }
    }
  }

  // ----- What is served -----

  /** The list names exactly the certificates of the snapshot that are revoked and have not expired. */
  ghost predicate NamesExactly(crl: Crl, st: State, now: Time) {
    forall serial, at, reason :: CrlEntry(serial, at, reason) in crl.entries <==>
      exists id :: id in st.certs && st.certs[id].serial == serial && st.certs[id].revokedAt == Some(at) && st.certs[id].reason == reason
                   && now < st.certs[id].notAfter
  }

  lemma RefreshNames(st: State, now: Time, nextUpdate: Option<Time>)
    requires RefreshCrl(st, now, nextUpdate).Some?
    ensures var next := RefreshCrl(st, now, nextUpdate).value;
            && next.crl.Some? && NamesExactly(next.crl.value, st, now) && next.certs == st.certs
            && nextUpdate == Some(next.crl.value.nextUpdate) && now < next.crl.value.nextUpdate
  {
    hide EntriesAccepted;
    var crl := RefreshCrl(st, now, nextUpdate).value.crl.value;
    forall serial, at, reason | CrlEntry(serial, at, reason) in crl.entries
      ensures exists id :: id in st.certs && st.certs[id].serial == serial && st.certs[id].revokedAt == Some(at) && st.certs[id].reason == reason
                           && now < st.certs[id].notAfter
    {
      var id :| id in st.certs && Listed(st.certs[id], now)
                && CrlEntry(serial, at, reason) == CrlEntry(st.certs[id].serial, st.certs[id].revokedAt.value, st.certs[id].reason);
      assert st.certs[id].revokedAt == Some(at);
    }
    forall serial, at, reason, id | id in st.certs && st.certs[id].serial == serial && st.certs[id].revokedAt == Some(at)
                                    && st.certs[id].reason == reason && now < st.certs[id].notAfter
      ensures CrlEntry(serial, at, reason) in crl.entries
    {
      assert Listed(st.certs[id], now);
    }
  }

  /** A served list is current: it is due for an update in more than a minute; or it was made in this step, is
      not out of date, and names exactly the certificates that are revoked and have not expired. */
  lemma ServedIsCurrent(cfg: Config, before: System, e: Event)
    requires SystemInv(cfg, before) && Enabled(cfg, before, e) && e.CrlCall? && Step(cfg, before, e).1.ServedCrl?
    ensures var crl := Step(cfg, before, e).1.crl;
            || (before.mem.crl == Some(crl) && e.now + MINUTE < crl.nextUpdate)
            || (e.nextUpdate == Some(crl.nextUpdate) && e.now < crl.nextUpdate && NamesExactly(crl, before.mem, e.now))
  {
    hide Step, RefreshCrl, NamesExactly, SystemInv, CrlStale, Prune;
    EnabledIsUp(cfg, before, e);
    ServeForm(cfg, before, e);
    if CrlStale(before.mem, e.now) {
      RefreshNames(before.mem, e.now, e.nextUpdate);
    } else {
      FreshEnough(cfg, before, e.now);
    }
  }

  lemma ServeForm(cfg: Config, before: System, e: Event)
    requires Enabled(cfg, before, e) && e.CrlCall? && Step(cfg, before, e).1.ServedCrl?
    ensures if CrlStale(before.mem, e.now) then
              var refreshed := RefreshCrl(before.mem, e.now, e.nextUpdate);
              refreshed.Some? && refreshed.value.crl == Some(Step(cfg, before, e).1.crl)
            else before.mem.crl == Some(Step(cfg, before, e).1.crl)
  {
    hide RevokedEntries, EntriesAccepted, AuthDropped, CertDropped, AccountDropped, LiveLimits, Recent;
  }

  lemma FreshEnough(cfg: Config, sys: System, now: Time)
    requires SystemInv(cfg, sys) && sys.up && !CrlStale(sys.mem, now)
    ensures sys.mem.crl.Some? && now + MINUTE < sys.mem.crl.value.nextUpdate
  {
    hide SystemInv;
    HeaderOf(cfg, sys);
  }

  lemma HeaderOf(cfg: Config, sys: System)
    requires SystemInv(cfg, sys) && sys.up
    ensures sys.mem.crl.Some? ==> sys.mem.crl.value.nextUpdate == sys.mem.crlNextUpdate
  {
    hide Linked, FlightsMatch, Recover, SizesOk, LimitsOk;
  }

  /** The entry says of the certificate when and why it was revoked. */
  predicate EntryOf(entry: CrlEntry, c: Certificate) {
    entry.serial == c.serial && c.revokedAt == Some(entry.revokedAt) && entry.reason == c.reason
  }

  ghost predicate ListsEntry(st: State, entry: CrlEntry) {
    st.crl.Some? && entry in st.crl.value.entries
  }

  /** A snapshot's list is the one it had, or its entries are of certificates on record. */
  lemma PreparedEntry(cfg: Config, before: System, e: Event, entry: CrlEntry)
    requires Enabled(cfg, before, e) && Prepared(cfg, before, e).Some? && ListsEntry(Prepared(cfg, before, e).value, entry)
    ensures ListsEntry(Base(cfg, before, e), entry) || exists id :: RecordListed(Prepared(cfg, before, e).value, entry, id)
  {
    hide Prepared, Base, Prune, RefreshCrl, Enabled, StillProven, IsActive, WithAuths, Recorded, DenyCreation, HasThumbprint,
         OrderCapacityReached, WithRevocation, RecordListed;
    NothingPrepared(cfg, before, e);
    match e
    case NewAccountCall(now, _, _, _, _, _) =>
      NewAccountForm(cfg, before, e);
      PruneKeepsList(before.mem, now, before.activity);
    case NewOrderCall(now, req, _, _, _, _, _, _) =>
      NewOrderForm(cfg, before, e);
      PruneKeepsList(before.mem, now, ActivityAt(before, req.accountId, now));
    case FinalizeCall(_, _, _, _, _, _, _, _) => FinalizeForm(cfg, before, e);
    case RevokeCall(now, _, leaf, reason, _, nextUpdate, _) =>
      RevokeForm(cfg, before, e);
      RefreshedEntry(WithRevocation(before.mem, RecordedId(before.mem, leaf), now, reason), now, nextUpdate, entry);
    case CrlCall(now, nextUpdate, _) =>
      CrlForm(cfg, before, e);
      RefreshedEntry(before.mem, now, nextUpdate, entry);
    case _ => QuietPrepared(cfg, before, e);
  }

  ghost predicate RecordListed(st: State, entry: CrlEntry, id: Id) {
    id in st.certs && st.certs[id].revokedAt.Some? && EntryOf(entry, st.certs[id])
  }

  lemma RefreshedEntry(st: State, now: Time, nextUpdate: Option<Time>, entry: CrlEntry)
    requires RefreshCrl(st, now, nextUpdate).Some? && ListsEntry(RefreshCrl(st, now, nextUpdate).value, entry)
    ensures exists id :: RecordListed(RefreshCrl(st, now, nextUpdate).value, entry, id)
  {
    hide EntriesAccepted;
    var id :| id in st.certs && Listed(st.certs[id], now)
              && entry == CrlEntry(st.certs[id].serial, st.certs[id].revokedAt.value, st.certs[id].reason);
    assert RecordListed(RefreshCrl(st, now, nextUpdate).value, entry, id);
  }

  /** Nothing is listed without cause, in any run: every entry of a list that was ever stored goes back to a
      revocation that was asked for in an earlier step by someone who may. */
  lemma {:induction false} ListedWasAsked(cfg: Config, states: seq<System>, events: seq<Event>, k: nat, entry: CrlEntry)
    requires IsRun(cfg, states, events) && k < |states| && states[k].disk.Some? && ListsEntry(states[k].disk.value, entry)
    ensures exists j: nat, c :: j < k && AskedBy(states[j], events[j], c) && EntryOf(entry, c)
  {
    hide SystemInv, Step, Enabled, AskedBy, ListsEntry, EntryOf, Prepared, Base, Prune;
    if k > 0 {
      assert StepAt(cfg, states, events, k - 1);
      RunKeeps(cfg, states, events, k - 1);
      var before, e := states[k - 1], events[k - 1];
      StoredEntry(cfg, before, e, entry);
      if c :| NewlyListed(cfg, before, e, entry, c) {
        if !AskedBy(before, e, c) {
          RevocationWasAsked(cfg, states, events, k - 1, c);
        }
      } else {
        ListedWasAsked(cfg, states, events, k - 1, entry);
      }
    }
  }

  /** The entry is of a certificate whose revocation was stored before or is asked for in this step. */
  ghost predicate NewlyListed(cfg: Config, before: System, e: Event, entry: CrlEntry, c: Certificate) {
    EntryOf(entry, c) && ((before.disk.Some? && IsRevoked(before.disk.value, c)) || AskedBy(before, e, c))
  }

  lemma StoredEntry(cfg: Config, before: System, e: Event, entry: CrlEntry)
    requires SystemInv(cfg, before) && Enabled(cfg, before, e)
    requires var after := Step(cfg, before, e).0; after.disk.Some? && ListsEntry(after.disk.value, entry)
    ensures (before.disk.Some? && ListsEntry(before.disk.value, entry)) || exists c :: NewlyListed(cfg, before, e, entry, c)
  {
    hide SystemInv, Step, Prepared, Prune, Enabled, Base, AskedBy, EntryOf, Consistent;
    StepStores(cfg, before, e);
    var prepared := Prepared(cfg, before, e);
    if prepared.Some? && Renamed(e) {
      var activity :| Step(cfg, before, e).0.disk == Some(Prune(prepared.value, e.now, activity));
      PruneKeepsList(prepared.value, e.now, activity);
      PreparedEntry(cfg, before, e, entry);
      BaseIsStored(cfg, before, e);
      FreshListsNothing(cfg);
      if id :| RecordListed(prepared.value, entry, id) {
        PreparedConsistent(cfg, before, e);
        OwnCertId(cfg, prepared.value, id);
        PreparedRevoked(cfg, before, e, prepared.value.certs[id]);
        assert NewlyListed(cfg, before, e, entry, prepared.value.certs[id]);
      }
    }
  }

  lemma FreshListsNothing(cfg: Config)
    ensures Fresh(cfg).crl.None?
  {
  }

  lemma OwnCertId(cfg: Config, st: State, id: Id)
    requires Consistent(cfg, st) && id in st.certs
    ensures st.certs[id].id == id
  {
    hide OrdersOk, AuthsOk, AccountsOk, ValidId;
    assert CertOk(cfg, st, id);
  }
}
