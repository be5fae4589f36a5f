/** Revocations are never lost, and every list served names them until the certificate expires. */
module AcmeRevocation {
  import opened Common
  import opened Acme
  import opened AcmeInvariant
  import opened AcmeSteps
  import opened AcmeRuns
  import opened AcmeIssuance

  ghost predicate Lists(crl: Crl, serial: int) {
    exists e :: e in crl.entries && e.serial == serial
  }

  /** The stored list names every revoked certificate that has not expired. */
  ghost predicate CrlComplete(st: State, now: Time) {
    forall id :: id in st.certs && Listed(st.certs[id], now) ==> st.crl.Some? && Lists(st.crl.value, st.certs[id].serial)
  }

  ghost predicate RevokedInPast(st: State, now: Time) {
    forall id :: id in st.certs && st.certs[id].revokedAt.Some? ==> st.certs[id].revokedAt.value <= now
  }

  ghost predicate CrlOk(st: State, now: Time) {
    CrlComplete(st, now) && RevokedInPast(st, now)
  }

  lemma PruneKeepsCrl(st: State, now: Time, activity: map<Id, Time>)
    requires CrlOk(st, now)
    ensures CrlOk(Prune(st, now, activity), now)
  {
    hide Lists, Recent, AuthDropped, CertDropped, LiveLimits, AccountDropped;
  }

  lemma RefreshCompletes(st: State, now: Time, nextUpdate: Option<Time>)
    requires RevokedInPast(st, now) && RefreshCrl(st, now, nextUpdate).Some?
    ensures CrlOk(RefreshCrl(st, now, nextUpdate).value, now)
  {
    hide EntriesAccepted;
    var next := RefreshCrl(st, now, nextUpdate).value;
    forall id | id in next.certs && Listed(next.certs[id], now) ensures Lists(next.crl.value, next.certs[id].serial) {
      assert CrlEntry(st.certs[id].serial, st.certs[id].revokedAt.value, st.certs[id].reason) in RevokedEntries(st.certs, now);
    }
  }

  lemma LaterCrl(st: State, t: Time, now: Time)
    requires CrlOk(st, t) && t <= now
    ensures CrlOk(st, now)
  {
    hide Lists;
  }

  /** A snapshot with the certificates and list of another. */
  lemma SameCrl(st: State, next: State, now: Time)
    requires CrlOk(st, now) && next.certs == st.certs && next.crl == st.crl
    ensures CrlOk(next, now)
  {
  }

  lemma IssuedKeepsCrl(st: State, orderId: Id, leaf: Leaf, certId: Id, csr: seq<int>, now: Time)
    requires CrlOk(st, now) && orderId in st.orders && certId !in st.certs
    ensures CrlOk(WithCertificate(st, orderId, leaf, certId, csr), now)
  {
  }

  lemma PreparedCrlOk(cfg: Config, before: System, e: Event)
    requires Enabled(cfg, before, e) && Prepared(cfg, before, e).Some? && CrlOk(Base(cfg, before, e), e.now)
    ensures CrlOk(Prepared(cfg, before, e).value, e.now)
  {
    hide Prepared, Base, Prune, IsActive, Finished, RefreshCrl, Recorded, Enabled, StillProven, WithAuths, CrlOk,
         WithAccountStatus, CanStart, OrderCapacityReached, DenyCreation, HasThumbprint, WithCertificate;
    NothingPrepared(cfg, before, e);
    var st := before.mem;
    var next := Prepared(cfg, before, e).value;
    match e
    case NewAccountCall(now, _, _, _, _, _) =>
      NewAccountForm(cfg, before, e);
      PruneKeepsCrl(st, now, before.activity);
      SameCrl(Prune(st, now, before.activity), next, now);
    case NewOrderCall(now, req, _, _, _, _, _, _) =>
      NewOrderForm(cfg, before, e);
      var activity := ActivityAt(before, req.accountId, now);
      PruneKeepsCrl(st, now, activity);
      SameCrl(Prune(st, now, activity), next, now);
    case FinalizeCall(now, _, orderId, csr, _, signing, certId, _) =>
      FinalizeForm(cfg, before, e);
      NewCertId(cfg, before, e);
      if signing.Signed? {
        IssuedKeepsCrl(st, orderId, signing.leaf, certId, csr, now);
      }
      SameCrl(st, st.(orders := next.orders), now);
    case RevokeCall(now, _, leaf, reason, _, nextUpdate, _) =>
      RevokeForm(cfg, before, e);
      RevokedStaysInPast(st, RecordedId(st, leaf), now, reason);
      RefreshCompletes(WithRevocation(st, RecordedId(st, leaf), now, reason), now, nextUpdate);
    case CrlCall(now, nextUpdate, _) =>
      CrlForm(cfg, before, e);
      CrlOkParts(st, now);
      RefreshCompletes(st, now, nextUpdate);
    case _ =>
      QuietPrepared(cfg, before, e);
      SameCrl(Base(cfg, before, e), next, e.now);
  }

  lemma NewCertId(cfg: Config, before: System, e: Event)
    requires Enabled(cfg, before, e) && e.FinalizeCall?
    ensures e.certId !in before.mem.certs
  {
    hide SigningContract;
  }

  lemma CrlOkParts(st: State, now: Time)
    requires CrlOk(st, now)
    ensures RevokedInPast(st, now)
  {
  }

  lemma RevokedStaysInPast(st: State, id: Id, now: Time, reason: int)
    requires CrlOk(st, now) && id in st.certs
    ensures RevokedInPast(WithRevocation(st, id, now, reason), now)
  {
    hide Lists;
  }

  ghost predicate CrlInv(sys: System) {
    sys.disk.Some? ==> CrlOk(sys.disk.value, sys.clock)
  }

  lemma BaseCrlOk(cfg: Config, before: System, e: Event)
    requires SystemInv(cfg, before) && Enabled(cfg, before, e) && CrlInv(before) && !e.CrashEvent?
    ensures CrlOk(Base(cfg, before, e), e.now)
  {
    BaseIsStored(cfg, before, e);
    hide SystemInv, Base, Recover, AcceptableNames, SigningContract, Lists;
    if before.disk.Some? {
      LaterCrl(before.disk.value, before.clock, e.now);
      SameCrl(before.disk.value, Base(cfg, before, e), e.now);
    }
  }

  lemma StepKeepsCrl(cfg: Config, before: System, e: Event)
    requires SystemInv(cfg, before) && Enabled(cfg, before, e) && CrlInv(before)
    ensures CrlInv(Step(cfg, before, e).0)
  {
    hide SystemInv, Step, Prepared, Prune, Base, CrlOk;
    StepStores(cfg, before, e);
    var prepared := Prepared(cfg, before, e);
    if prepared.Some? && Renamed(e) {
      var activity :| Step(cfg, before, e).0.disk == Some(Prune(prepared.value, e.now, activity));
      BaseCrlOk(cfg, before, e);
      PreparedCrlOk(cfg, before, e);
      PruneKeepsCrl(prepared.value, e.now, activity);
    } else if before.disk.Some? {
      LaterCrl(before.disk.value, before.clock, e.now);
    }
  }

  lemma {:induction false} RunKeepsCrl(cfg: Config, states: seq<System>, events: seq<Event>, k: nat)
    requires IsRun(cfg, states, events) && k < |states|
    ensures CrlInv(states[k])
  {
    hide SystemInv, Step, Enabled, CrlOk;
    if k > 0 {
      RunKeepsCrl(cfg, states, events, k - 1);
      assert StepAt(cfg, states, events, k - 1);
      RunKeeps(cfg, states, events, k - 1);
      StepKeepsCrl(cfg, states[k - 1], events[k - 1]);
    }
  }

  // ----- A revocation lasts until the certificate expires -----

  ghost predicate IsRevoked(st: State, c: Certificate) {
    c.id in st.certs && st.certs[c.id] == c && c.revokedAt.Some?
  }

  lemma PreparedKeepsRevoked(cfg: Config, before: System, e: Event, c: Certificate)
    requires Enabled(cfg, before, e) && Prepared(cfg, before, e).Some? && SystemInv(cfg, before)
    requires IsRevoked(Base(cfg, before, e), c) && e.now < c.notAfter
    ensures IsRevoked(Prepared(cfg, before, e).value, c)
  {
    hide Prepared, Base, Prune, RefreshCrl, Enabled, SystemInv, Inv, Consistent, StillProven, IsActive, WithAuths, Recorded, DenyCreation,
         HasThumbprint, OrderCapacityReached;
    NothingPrepared(cfg, before, e);
    BaseOk(cfg, before, e);
    match e
    case NewAccountCall(now, _, _, _, _, _) =>
      NewAccountForm(cfg, before, e);
      PruneKeepsRevoked(cfg, before.mem, now, before.activity, c);
    case NewOrderCall(now, req, _, _, _, _, _, _) =>
      NewOrderForm(cfg, before, e);
      PruneKeepsRevoked(cfg, before.mem, now, ActivityAt(before, req.accountId, now), c);
    case FinalizeCall(_, _, _, _, _, _, _, _) =>
      FinalizeForm(cfg, before, e);
      NewCertId(cfg, before, e);
    case RevokeCall(now, _, leaf, reason, _, nextUpdate, _) =>
      RevokeForm(cfg, before, e);
      RefreshKeepsAuths(WithRevocation(before.mem, RecordedId(before.mem, leaf), now, reason), now, nextUpdate);
    case CrlCall(now, nextUpdate, _) =>
      CrlForm(cfg, before, e);
      RefreshKeepsAuths(before.mem, now, nextUpdate);
    case _ => QuietPrepared(cfg, before, e);
  }

  /** Pruning never drops a certificate before it expires, since its order expires with it. */
  lemma CertStays(cfg: Config, st: State, now: Time, activity: map<Id, Time>, id: Id)
    requires Consistent(cfg, st) && id in st.certs && now < st.certs[id].notAfter
    ensures var p := Prune(st, now, activity); id in p.certs && p.certs[id] == st.certs[id]
  {
    hide Prune, OrdersOk, AuthsOk, AccountsOk, ValidId;
    assert CertOk(cfg, st, id);
    CertGoesWithOrder(cfg, st, now, id);
    PruneAt(st, now, activity, id);
  }

  lemma PruneKeepsRevoked(cfg: Config, st: State, now: Time, activity: map<Id, Time>, c: Certificate)
    requires Consistent(cfg, st) && IsRevoked(st, c) && now < c.notAfter
    ensures IsRevoked(Prune(st, now, activity), c)
  {
    hide Prune, Consistent;
    CertStays(cfg, st, now, activity, c.id);
  }

  lemma StepKeepsRevoked(cfg: Config, before: System, e: Event, c: Certificate)
    requires SystemInv(cfg, before) && Enabled(cfg, before, e) && before.disk.Some?
    requires IsRevoked(before.disk.value, c) && e.now < c.notAfter
    ensures var after := Step(cfg, before, e).0; after.disk.Some? && IsRevoked(after.disk.value, c)
  {
    hide SystemInv, Step, Prepared, Prune, Base, Consistent;
    StepStores(cfg, before, e);
    var prepared := Prepared(cfg, before, e);
    if prepared.Some? && Renamed(e) {
      var activity :| Step(cfg, before, e).0.disk == Some(Prune(prepared.value, e.now, activity));
      BaseIsStored(cfg, before, e);
      PreparedKeepsRevoked(cfg, before, e, c);
      PreparedConsistent(cfg, before, e);
      PruneKeepsRevoked(cfg, prepared.value, e.now, activity, c);
    }
  }

  /** No revocation is undone: a revoked certificate stays on record, unchanged, until it expires. */
  lemma {:induction false} RevocationLasts(cfg: Config, states: seq<System>, events: seq<Event>, i: nat, j: nat, c: Certificate)
    requires IsRun(cfg, states, events) && i <= j < |states|
    requires states[i].disk.Some? && IsRevoked(states[i].disk.value, c)
    requires forall k :: i <= k < j ==> events[k].now < c.notAfter
    ensures states[j].disk.Some? && IsRevoked(states[j].disk.value, c)
  {
    hide SystemInv, Step, Enabled, IsRevoked;
    if i < j {
      RevocationLasts(cfg, states, events, i, j - 1, c);
      assert StepAt(cfg, states, events, j - 1);
      RunKeeps(cfg, states, events, j - 1);
      StepKeepsRevoked(cfg, states[j - 1], events[j - 1], c);
    }
  }

  lemma ServedIsStored(cfg: Config, before: System, e: Event)
    requires SystemInv(cfg, before) && Enabled(cfg, before, e) && e.CrlCall? && Step(cfg, before, e).1.ServedCrl?
    ensures var after := Step(cfg, before, e).0;
            after.disk.Some? && after.disk.value.crl == Some(Step(cfg, before, e).1.crl)
  {
    hide Inv, FlightsMatch, AuthDropped, CertDropped, AccountDropped, LiveLimits, Recent, RevokedEntries, EntriesAccepted;
    assert Recover(before.mem).crl == before.mem.crl;
    assert Recover(before.disk.value).crl == before.disk.value.crl;
  }

  /** Revocation completeness: once a revocation is stored, every list served before the certificate
      expires names its serial number. */
  lemma ServedListsRevoked(cfg: Config, states: seq<System>, events: seq<Event>, i: nat, j: nat, c: Certificate)
    requires IsRun(cfg, states, events) && i <= j < |events|
    requires states[i].disk.Some? && IsRevoked(states[i].disk.value, c)
    requires events[j].CrlCall? && events[j].now < c.notAfter
    requires StepAt(cfg, states, events, j) && Step(cfg, states[j], events[j]).1.ServedCrl?
    ensures Lists(Step(cfg, states[j], events[j]).1.crl, c.serial)
  {
    hide SystemInv, Step, Enabled, Lists;
    ClockMonotone(cfg, states, events, j);
    RevocationLasts(cfg, states, events, i, j, c);
    RunKeeps(cfg, states, events, j);
    RunKeepsCrl(cfg, states, events, j);
    StepKeepsRevoked(cfg, states[j], events[j], c);
    StepKeepsCrl(cfg, states[j], events[j]);
    ServedIsStored(cfg, states[j], events[j]);
    StepStores(cfg, states[j], events[j]);
  }

  lemma {:induction false} ClockMonotone(cfg: Config, states: seq<System>, events: seq<Event>, j: nat)
    requires IsRun(cfg, states, events) && j < |events|
    ensures forall k :: 0 <= k < j ==> events[k].now <= events[j].now
  {
    hide Step, Prepared;
    assert StepAt(cfg, states, events, j);
    if j > 0 {
      ClockMonotone(cfg, states, events, j - 1);
      assert StepAt(cfg, states, events, j - 1);
      StepStores(cfg, states[j - 1], events[j - 1]);
    }
  }

  // ----- List numbers -----

  /** The list and number of `next` are those of `st`, or newer. */
  ghost predicate Newer(st: State, next: State) {
    st.crlNumber < next.crlNumber || (st.crlNumber == next.crlNumber && st.crl == next.crl)
  }

  lemma PreparedNewer(cfg: Config, before: System, e: Event)
    requires Enabled(cfg, before, e) && Prepared(cfg, before, e).Some?
    ensures Newer(Base(cfg, before, e), Prepared(cfg, before, e).value)
  {
    hide Prepared, Base, Prune, RefreshCrl, Enabled, StillProven, IsActive, WithAuths, Recorded, DenyCreation, HasThumbprint, OrderCapacityReached;
    NothingPrepared(cfg, before, e);
    match e
    case NewAccountCall(now, _, _, _, _, _) =>
      NewAccountForm(cfg, before, e);
      PruneKeepsList(before.mem, now, before.activity);
    case NewOrderCall(now, req, _, _, _, _, _, _) =>
      NewOrderForm(cfg, before, e);
      PruneKeepsList(before.mem, now, ActivityAt(before, req.accountId, now));
    case FinalizeCall(_, _, _, _, _, _, _, _) => FinalizeForm(cfg, before, e);
    case RevokeCall(now, _, leaf, reason, _, nextUpdate, _) =>
      RevokeForm(cfg, before, e);
      RefreshIsNewer(WithRevocation(before.mem, RecordedId(before.mem, leaf), now, reason), now, nextUpdate);
    case CrlCall(now, nextUpdate, _) =>
      CrlForm(cfg, before, e);
      RefreshIsNewer(before.mem, now, nextUpdate);
    case _ => QuietPrepared(cfg, before, e);
  }

  lemma PruneKeepsList(st: State, now: Time, activity: map<Id, Time>)
    ensures var p := Prune(st, now, activity); p.crl == st.crl && p.crlNumber == st.crlNumber && p.crlNextUpdate == st.crlNextUpdate
  {
    hide AuthDropped, CertDropped, AccountDropped, LiveLimits, Recent;
  }

  lemma RefreshIsNewer(st: State, now: Time, nextUpdate: Option<Time>)
    ensures var r := RefreshCrl(st, now, nextUpdate); r.Some? ==> Newer(st, r.value)
  {
    hide RevokedEntries, EntriesAccepted;
  }

  lemma StepNewer(cfg: Config, before: System, e: Event)
    requires SystemInv(cfg, before) && Enabled(cfg, before, e) && before.disk.Some?
    ensures Step(cfg, before, e).0.disk.Some? && Newer(before.disk.value, Step(cfg, before, e).0.disk.value)
  {
    hide SystemInv, Step, Prepared, Base, Recent, AuthDropped, CertDropped, AccountDropped, LiveLimits;
    StepStores(cfg, before, e);
    var prepared := Prepared(cfg, before, e);
    if prepared.Some? && Renamed(e) {
      BaseIsStored(cfg, before, e);
      PreparedNewer(cfg, before, e);
    }
  }

  /** Published list numbers strictly increase: a later stored list is the same list or has a larger number. */
  lemma {:induction false} CrlNumbersIncrease(cfg: Config, states: seq<System>, events: seq<Event>, i: nat, j: nat)
    requires IsRun(cfg, states, events) && i <= j < |states| && states[i].disk.Some?
    ensures states[j].disk.Some? && Newer(states[i].disk.value, states[j].disk.value)
  {
    hide SystemInv, Step, Enabled;
    if i < j {
      CrlNumbersIncrease(cfg, states, events, i, j - 1);
      assert StepAt(cfg, states, events, j - 1);
      RunKeeps(cfg, states, events, j - 1);
      StepNewer(cfg, states[j - 1], events[j - 1]);
    }
  }

  // ----- The authority never rejects an entry -----

  lemma EntriesAreAccepted(cfg: Config, st: State, now: Time)
    requires CertsOk(cfg, st) && RevokedInPast(st, now)
    ensures EntriesAccepted(RevokedEntries(st.certs, now), now)
  {
    hide ValidId;
    var entries := RevokedEntries(st.certs, now);
    forall e | e in entries
      ensures 0 < e.serial && e.revokedAt != 0 && e.revokedAt <= now && 0 <= e.reason <= 10 && e.reason != 7
    {
      var id :| id in st.certs && Listed(st.certs[id], now) && e == CrlEntry(st.certs[id].serial, st.certs[id].revokedAt.value, st.certs[id].reason);
      assert CertOk(cfg, st, id);
    }
  }

  /** In every reachable state a new list can be made exactly when the number can still grow and the
      authority delivers; its checks of serials, times and reasons never stand in the way. */
  lemma RefreshSucceeds(cfg: Config, states: seq<System>, events: seq<Event>, k: nat, now: Time, nextUpdate: Option<Time>)
    requires IsRun(cfg, states, events) && k < |states| && states[k].up && states[k].clock <= now
    ensures RefreshCrl(states[k].mem, now, nextUpdate).Some? <==>
              states[k].mem.crlNumber < MAX_INT64 && nextUpdate.Some? && now < nextUpdate.value
  {
    hide Step, Enabled, IsRun, EntriesAccepted, OrdersOk, AuthsOk, AccountsOk, CertsOk, LimitsOk, FlightsMatch, Lists;
    RunKeeps(cfg, states, events, k);
    RunKeepsCrl(cfg, states, events, k);
    assert Recover(states[k].mem).certs == states[k].mem.certs;
    assert RevokedInPast(states[k].mem, now);
    EntriesAreAccepted(cfg, states[k].mem, now);
  }
}
