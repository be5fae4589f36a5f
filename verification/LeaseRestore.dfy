/** Reading lease files that anyone may have written: which are accepted, and that what they restore is safe. */
module LeaseRestore {
  import opened Common
  import opened Hostname
  import opened Leases
  import opened LeaseSafety

  // ----- Which files are accepted -----

  /** The entry still counts and has nothing in common with what has been read so far. */
  ghost predicate NewTo(now: Time, acc: Restoring, l: Lease) {
    now < l.expires ==> l.client !in acc.leases && l.ip !in acc.addresses && (l.hostname == "" || l.hostname !in acc.names)
  }

  /** Two entries that both still count do not share client, address or name. */
  ghost predicate Disjoint(now: Time, a: Lease, b: Lease) {
    now < a.expires && now < b.expires ==> a.client != b.client && a.ip != b.ip && (a.hostname == "" || a.hostname != b.hostname)
  }

  ghost predicate AllDisjoint(now: Time, ls: seq<Lease>) {
    forall i, j :: 0 <= i < j < |ls| ==> Disjoint(now, ls[i], ls[j])
  }

  ghost predicate AllNew(now: Time, acc: Restoring, ls: seq<Lease>) {
    forall i :: 0 <= i < |ls| ==> NewTo(now, acc, ls[i])
  }

  ghost predicate AllWellFormed(cfg: Config, ls: seq<Lease>) {
    forall i :: 0 <= i < |ls| ==> SavedLeaseOk(cfg, ls[i])
  }

  lemma FirstAndRest(cfg: Config, now: Time, acc: Restoring, ls: seq<Lease>)
    requires ls != []
    ensures AllWellFormed(cfg, ls) <==> SavedLeaseOk(cfg, ls[0]) && AllWellFormed(cfg, ls[1..])
    ensures AllDisjoint(now, ls) <==> (forall j :: 0 <= j < |ls[1..]| ==> Disjoint(now, ls[0], ls[1..][j])) && AllDisjoint(now, ls[1..])
    ensures AllNew(now, acc, ls) <==> NewTo(now, acc, ls[0]) && AllNew(now, acc, ls[1..])
  {
    hide SavedLeaseOk, NewTo, Disjoint;
    var rest := ls[1..];
    assert forall j :: 0 <= j < |rest| ==> rest[j] == ls[j + 1];
    if AllDisjoint(now, ls) {
      forall i, j | 0 <= i < j < |rest| ensures Disjoint(now, rest[i], rest[j]) {
        assert Disjoint(now, ls[i + 1], ls[j + 1]);
      }
      forall j | 0 <= j < |rest| ensures Disjoint(now, ls[0], rest[j]) {
        assert Disjoint(now, ls[0], ls[j + 1]);
      }
    }
    if (forall j :: 0 <= j < |rest| ==> Disjoint(now, ls[0], rest[j])) && AllDisjoint(now, rest) {
      forall i, j | 0 <= i < j < |ls| ensures Disjoint(now, ls[i], ls[j]) {
        if i == 0 {
          assert Disjoint(now, ls[0], rest[j - 1]);
        } else {
          assert Disjoint(now, rest[i - 1], rest[j - 1]);
        }
      }
    }
    if SavedLeaseOk(cfg, ls[0]) && AllWellFormed(cfg, rest) {
      forall i | 0 <= i < |ls| ensures SavedLeaseOk(cfg, ls[i]) {
        assert i > 0 ==> ls[i] == rest[i - 1];
      }
    }
    if NewTo(now, acc, ls[0]) && AllNew(now, acc, rest) {
      forall i | 0 <= i < |ls| ensures NewTo(now, acc, ls[i]) {
        assert i > 0 ==> ls[i] == rest[i - 1];
      }
    }
  }

  /** What one more entry takes. */
  lemma AddedEntry(cfg: Config, now: Time, acc: Restoring, l: Lease, next: Restoring, m: Lease)
    requires RestoreLease(cfg, now, acc, l) == Some(next) && now < l.expires
    ensures NewTo(now, next, m) <==> NewTo(now, acc, m) && Disjoint(now, l, m)
  {
    hide SavedLeaseOk;
  }

  lemma {:induction false} LeasesAcceptedIff(cfg: Config, now: Time, acc: Restoring, ls: seq<Lease>)
    ensures RestoreLeases(cfg, now, acc, ls).Some? <==> AllWellFormed(cfg, ls) && AllDisjoint(now, ls) && AllNew(now, acc, ls)
    decreases |ls|
  {
    if ls != [] {
      var first := RestoreLease(cfg, now, acc, ls[0]);
      var rest := ls[1..];
      FirstAndRest(cfg, now, acc, ls);
      if first.Some? {
        LeasesAcceptedIff(cfg, now, first.value, rest);
        hide SavedLeaseOk, AllWellFormed;
        RestIsNew(cfg, now, acc, ls[0], first.value, rest);
      }
      hide AllWellFormed, AllDisjoint, AllNew;
    }
  }

  lemma RestIsNew(cfg: Config, now: Time, acc: Restoring, l: Lease, next: Restoring, rest: seq<Lease>)
    requires RestoreLease(cfg, now, acc, l) == Some(next)
    ensures AllNew(now, next, rest) <==> AllNew(now, acc, rest) && forall j :: 0 <= j < |rest| ==> Disjoint(now, l, rest[j])
  {
    if now < l.expires {
      forall j | 0 <= j < |rest| ensures NewTo(now, next, rest[j]) <==> NewTo(now, acc, rest[j]) && Disjoint(now, l, rest[j]) {
        AddedEntry(cfg, now, acc, l, next, rest[j]);
      }
    } else {
      assert next == acc;
    }
    hide RestoreLease, NewTo;
  }

  // ----- What is restored is safe -----

  /** The tables read so far satisfy the invariant, and the two sets have what is in them. */
  ghost predicate Safe(cfg: Config, now: Time, acc: Restoring) {
    && Inv(cfg, State(acc.leases, map[], acc.declined)) && "" !in acc.names
    && (forall c :: c in acc.leases ==>
          now < acc.leases[c].expires && acc.leases[c].ip in acc.addresses && (acc.leases[c].hostname == "" || acc.leases[c].hostname in acc.names))
    && (forall ip :: ip in acc.declined ==> now < acc.declined[ip] && ip in acc.addresses)
  }

  lemma LeaseKeepsSafe(cfg: Config, now: Time, acc: Restoring, l: Lease)
    requires ValidConfig(cfg) && 0 <= now && Safe(cfg, now, acc) && RestoreLease(cfg, now, acc, l).Some?
    ensures Safe(cfg, now, RestoreLease(cfg, now, acc, l).value)
  {
    hide Safe, EntryOk, ValidConfig, SavedLeaseOk;
    if now < l.expires {
      SavedEntryOk(cfg, l);
      SafeAdded(cfg, now, acc, l);
    }
  }

  lemma SafeAdded(cfg: Config, now: Time, acc: Restoring, l: Lease)
    requires Safe(cfg, now, acc) && now < l.expires && "" !in cfg.reserved
    requires EntryOk(cfg, l.client, l) && EntryOk(cfg, l.client, l.(hostname := ""))
    requires l.client !in acc.leases && l.ip !in acc.addresses && (l.hostname == "" || l.hostname !in acc.names)
    ensures Safe(cfg, now, acc.(addresses := acc.addresses + {l.ip},
                                names := if l.hostname != "" then acc.names + {l.hostname} else acc.names,
                                leases := acc.leases[l.client := if l.hostname in cfg.reserved then l.(hostname := "") else l]))
  {
    hide EntryOk;
    PutRestored(cfg, now, acc, if l.hostname in cfg.reserved then l.(hostname := "") else l);
    hide Inv;
  }

  lemma SavedEntryOk(cfg: Config, l: Lease)
    requires ValidConfig(cfg) && SavedLeaseOk(cfg, l) && 0 < l.expires
    ensures EntryOk(cfg, l.client, l) && EntryOk(cfg, l.client, l.(hostname := "")) && "" !in cfg.reserved
  {
    hide NormalizeHostname, IsCanonical;
    if l.hostname != "" {
      assert NormalizeHostname(l.hostname, cfg.domain) == l.hostname;
    }
  }

  lemma PutRestored(cfg: Config, now: Time, acc: Restoring, l: Lease)
    requires Safe(cfg, now, acc) && EntryOk(cfg, l.client, l) && l.hostname !in cfg.reserved && now < l.expires
    requires l.client !in acc.leases && l.ip !in acc.addresses && (l.hostname == "" || l.hostname !in acc.names)
    ensures Inv(cfg, State(acc.leases[l.client := l], map[], acc.declined))
  {
    hide EntryOk;
  }

  lemma {:induction false} LeasesSafe(cfg: Config, now: Time, acc: Restoring, ls: seq<Lease>)
    requires ValidConfig(cfg) && 0 <= now && Safe(cfg, now, acc) && RestoreLeases(cfg, now, acc, ls).Some?
    ensures Safe(cfg, now, RestoreLeases(cfg, now, acc, ls).value)
    decreases |ls|
  {
    hide Safe, RestoreLease, ValidConfig;
    if ls != [] {
      LeaseKeepsSafe(cfg, now, acc, ls[0]);
      LeasesSafe(cfg, now, RestoreLease(cfg, now, acc, ls[0]).value, ls[1..]);
    }
  }

  lemma QuarantineKeepsSafe(cfg: Config, now: Time, acc: Restoring, q: Quarantine)
    requires 0 <= now && Safe(cfg, now, acc) && RestoreQuarantine(cfg, now, acc, q).Some?
    ensures Safe(cfg, now, RestoreQuarantine(cfg, now, acc, q).value)
  {
    hide EntryOk;
  }

  lemma {:induction false} QuarantinesSafe(cfg: Config, now: Time, acc: Restoring, qs: seq<Quarantine>)
    requires 0 <= now && Safe(cfg, now, acc) && RestoreQuarantines(cfg, now, acc, qs).Some?
    ensures Safe(cfg, now, RestoreQuarantines(cfg, now, acc, qs).value)
    decreases |qs|
  {
    hide Safe, RestoreQuarantine;
    if qs != [] {
      QuarantineKeepsSafe(cfg, now, acc, qs[0]);
      QuarantinesSafe(cfg, now, RestoreQuarantine(cfg, now, acc, qs[0]).value, qs[1..]);
    }
  }

  lemma NothingIsSafe(cfg: Config, now: Time)
    ensures Safe(cfg, now, NOTHING)
  {
  }

  /** Whatever a file contains: if it is accepted, the tables it gives satisfy the invariant that all operations
      rely on, with addresses in the pool and held once, names canonical, unreserved and unique; nothing in
      them has expired, and there are no offers. */
  lemma RestoredIsSafe(cfg: Config, saved: Saved, now: Time)
    requires ValidConfig(cfg) && 0 <= now && Decode(cfg, saved, now).Some?
    ensures var st := Decode(cfg, saved, now).value;
            && Inv(cfg, st) && st.offers == map[]
            && (forall c :: c in st.leases ==> now < st.leases[c].expires) && (forall ip :: ip in st.declined ==> now < st.declined[ip])
  {
    hide Inv, ValidConfig, RestoreLeases, RestoreQuarantines;
    NothingIsSafe(cfg, now);
    LeasesSafe(cfg, now, NOTHING, saved.leases);
    QuarantinesSafe(cfg, now, RestoreLeases(cfg, now, NOTHING, saved.leases).value, saved.declined);
  }

  /** A file is refused if it has another version, an entry that is not well formed, or two leases that both
      still count and share a client, an address or a name; without quarantines these are the only reasons. */
  lemma RefusedIff(cfg: Config, saved: Saved, now: Time)
    ensures saved.version != 1 || !AllWellFormed(cfg, saved.leases) || !AllDisjoint(now, saved.leases) ==> Decode(cfg, saved, now).None?
    ensures saved.declined == [] ==>
              (Decode(cfg, saved, now).Some? <==> saved.version == 1 && AllWellFormed(cfg, saved.leases) && AllDisjoint(now, saved.leases))
  {
    LeasesAcceptedIff(cfg, now, NOTHING, saved.leases);
    assert AllNew(now, NOTHING, saved.leases);
    hide AllWellFormed, AllDisjoint, AllNew, RestoreLeases;
  }
}
