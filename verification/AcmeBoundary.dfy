/** A run in which one source creates nine accounts within a closed day: the first, and eight more at the
    moment it is exactly a day old. */
module AcmeBoundary {
  import opened Common
  import opened Acme
  import opened AcmeUpdates
  import opened AcmeQuota
  import opened RollingHistory

  const SOURCE := Utf8("laptop")

  function IdOf(i: nat): (id: Id)
    requires i < 9
    ensures |id| == 32 && id[31] as int == 'A' as int + i && ValidId(id)
  {
    seq(31, _ => 'a') + [('A' as int + i) as char]
  }

  function KeyOf(i: nat): Key
    requires i < 9
  {
    Key([('a' as int + i) as char], true)
  }

  function TimeOf(i: nat): Time {
    if i == 0 then 1 else 1 + DAY
  }

  function AccountOf(i: nat): Account
    requires i < 9
  {
    Account(IdOf(i), KeyOf(i), KeyOf(i).thumbprint, AccountValid, TimeOf(i), [])
  }

  function AccountsUpTo(n: nat): map<Id, Account>
    requires n <= 9
  {
    if n == 0 then map[] else AccountsUpTo(n - 1)[IdOf(n - 1) := AccountOf(n - 1)]
  }

  function Stamps(n: nat): seq<Time> {
    if n == 0 then [] else if n == 1 then [1] else seq(n - 1, _ => 1 + DAY)
  }

  function Limits(stamps: seq<Time>): map<ClientId, LeaseLimit> {
    if stamps == [] then map[] else map[SOURCE := LeaseLimit(stamps, [])]
  }

  /** The snapshot of the first `i` accounts, with this history. */
  function With(cfg: Config, i: nat, stamps: seq<Time>): State
    requires i <= 9
  {
    Fresh(cfg).(accounts := AccountsUpTo(i), limits := Limits(stamps))
  }

  function Snapshot(cfg: Config, n: nat): State
    requires n <= 9
  {
    With(cfg, n, Stamps(n))
  }

  /** The service after `n` creations. */
  function After(cfg: Config, n: nat): System
    requires n <= 9
  {
    System(true, Snapshot(cfg, n), map[], map[], Some(Snapshot(cfg, n)), if n == 0 then 1 else TimeOf(n - 1))
  }

  function Creation(i: nat): Event
    requires i < 9
  {
    NewAccountCall(TimeOf(i), KeyOf(i), SOURCE, false, IdOf(i), Synced)
  }

  // ----- The accounts and the history -----

  ghost predicate Young(accounts: map<Id, Account>, n: nat) {
    forall id :: id in accounts ==>
      && |id| == 32 && id[31] as int < 'A' as int + n
      && accounts[id].recentOrders == [] && accounts[id].lastActive in {1, 1 + DAY}
      && |accounts[id].thumbprint| == 1 && accounts[id].thumbprint[0] as int < 'a' as int + n
  }

  lemma {:induction false} AccountsYoung(n: nat)
    requires n <= 9
    ensures Young(AccountsUpTo(n), n) && |AccountsUpTo(n)| <= n
  {
    if n > 0 {
      AccountsYoung(n - 1);
      assert AccountsUpTo(n).Keys == AccountsUpTo(n - 1).Keys + {IdOf(n - 1)};
    }
  }

  lemma {:induction false} AllRecent(s: seq<Time>, cutoff: Time)
    requires forall i :: 0 <= i < |s| ==> cutoff < s[i]
    ensures Recent(s, cutoff) == s
  {
    if s != [] {
      AllRecent(s[..|s| - 1], cutoff);
      assert s == s[..|s| - 1] + [s[|s| - 1]];
    }
  }

  lemma {:induction false} NoneRecentOf(s: seq<Time>, cutoff: Time)
    requires forall i :: 0 <= i < |s| ==> s[i] <= cutoff
    ensures Recent(s, cutoff) == []
  {
    if s != [] {
      NoneRecentOf(s[..|s| - 1], cutoff);
    }
  }

  lemma YoungAccounts(st: State, n: nat, now: Time)
    requires Young(st.accounts, n) && now in {1, 1 + DAY}
    ensures Prune(st, now, map[]).accounts == st.accounts
  {
    hide Recent, Live, AuthDropped, CertDropped, LiveLimits;
    AllRecent([], now - ORDER_LIFETIME);
  }

  lemma OneLimit(st: State, stamps: seq<Time>, now: Time)
    requires st.limits == Limits(stamps)
    ensures LiveLimits(st, now) == Limits(Recent(stamps, now - DAY))
  {
    hide Recent;
    AllRecent([], now - ORDER_RATE_WINDOW);
    NoneRecentOf([], now - ACCOUNT_RATE_WINDOW);
  }

  /** What pruning does to a snapshot of young accounts: it only forgets old stamps. */
  lemma PrunedYoung(cfg: Config, accounts: map<Id, Account>, n: nat, stamps: seq<Time>, now: Time)
    requires Young(accounts, n) && now in {1, 1 + DAY}
    ensures var st := Fresh(cfg).(accounts := accounts, limits := Limits(stamps));
            Prune(st, now, map[]) == st.(limits := Limits(Recent(stamps, now - DAY)))
  {
    hide Recent, Limits, LiveLimits, Young, AccountDropped, PrunedAccount;
    var st := Fresh(cfg).(accounts := accounts, limits := Limits(stamps));
    YoungAccounts(st, n, now);
    OneLimit(st, stamps, now);
  }

  lemma RecentStamps(i: nat)
    requires i < 9
    ensures Recent(Stamps(i), TimeOf(i) - DAY) + [TimeOf(i)] == Stamps(i + 1)
    ensures |Recent(Stamps(i), TimeOf(i) - DAY)| < 8
    ensures Recent(Stamps(i + 1), TimeOf(i) - DAY) == Stamps(i + 1)
  {
    hide Recent;
    if i <= 1 {
      NoneRecentOf(Stamps(i), TimeOf(i) - DAY);
    } else {
      AllRecent(Stamps(i), TimeOf(i) - DAY);
    }
    AllRecent(Stamps(i + 1), TimeOf(i) - DAY);
  }

  // ----- The steps -----

  lemma FreshPruned(cfg: Config)
    ensures Snapshot(cfg, 0) == Fresh(cfg) && Prune(Fresh(cfg), 1, map[]) == Fresh(cfg)
  {
    hide Recent, Prune;
    PrunedYoung(cfg, map[], 0, [], 1);
    AllRecent([], 1 - DAY);
  }

  lemma Starts(cfg: Config)
    ensures StepsTo(cfg, Pristine(cfg), RestartCall(1, Synced), After(cfg, 0))
  {
    hide Prune, ValidateState, Recover, Fresh, Snapshot;
    FreshPruned(cfg);
  }

  lemma Allowed(cfg: Config, i: nat)
    requires i < 9
    ensures DenyCreation(Snapshot(cfg, i), TimeOf(i), SOURCE, NewAccountKind).None?
    ensures !HasThumbprint(Snapshot(cfg, i), KeyOf(i).thumbprint)
  {
    hide Recent, LiveLimits, RetrySeconds;
    RecentStamps(i);
    AccountsYoung(i);
    AllRecent([], TimeOf(i) - DAY);
  }

  lemma RecordedStamps(cfg: Config, i: nat, recent: seq<Time>)
    requires i < 9 && Recent(recent, TimeOf(i) - DAY) == recent && recent + [TimeOf(i)] == Stamps(i + 1)
    ensures WithAccount(With(cfg, i, recent), TimeOf(i), KeyOf(i), SOURCE, IdOf(i)) == Snapshot(cfg, i + 1)
  {
    hide Recent;
    AllRecent([], TimeOf(i) - DAY);
    var st := With(cfg, i, recent);
    var limit := Recorded(LimitOf(st, SOURCE), TimeOf(i), NewAccountKind);
    assert limit == LeaseLimit(Stamps(i + 1), []);
    assert st.limits[SOURCE := limit] == Limits(Stamps(i + 1));
  }

  /** What the creation puts into the pruned snapshot, and what is left of it after the final pruning. */
  lemma CreatedSnapshot(cfg: Config, i: nat)
    requires i < 9
    ensures var pruned := Prune(Snapshot(cfg, i), TimeOf(i), map[]);
            && |pruned.accounts| < MAX_ACCOUNTS
            && WithAccount(pruned, TimeOf(i), KeyOf(i), SOURCE, IdOf(i)) == Snapshot(cfg, i + 1)
    ensures Prune(Snapshot(cfg, i + 1), TimeOf(i), map[]) == Snapshot(cfg, i + 1)
  {
    hide Prune, Recent, WithAccount, Limits, AccountsUpTo, Stamps, Young;
    AccountsYoung(i);
    AccountsYoung(i + 1);
    RecentStamps(i);
    PrunedYoung(cfg, AccountsUpTo(i), i, Stamps(i), TimeOf(i));
    PrunedYoung(cfg, AccountsUpTo(i + 1), i + 1, Stamps(i + 1), TimeOf(i));
    RecentTwice(Stamps(i), TimeOf(i) - DAY);
    RecordedStamps(cfg, i, Recent(Stamps(i), TimeOf(i) - DAY));
  }

  lemma CreatesNext(cfg: Config, i: nat)
    requires i < 9
    ensures StepsTo(cfg, After(cfg, i), Creation(i), After(cfg, i + 1))
    ensures Creates(cfg, After(cfg, i), Creation(i), NewAccountKind, SOURCE)
  {
    hide Prune, DenyCreation, HasThumbprint, WithAccount, Recent, Snapshot;
    Allowed(cfg, i);
    CreatedSnapshot(cfg, i);
    FreshHere(cfg, i);
  }

  lemma FreshHere(cfg: Config, i: nat)
    requires i < 9
    ensures FreshId(After(cfg, i), IdOf(i))
  {
    AccountsYoung(i);
  }

  // ----- The run -----

  function States(cfg: Config): (r: seq<System>)
    ensures |r| == 11
  {
    [Pristine(cfg)] + seq(10, n requires 0 <= n < 10 => After(cfg, n))
  }

  function Events(): (r: seq<Event>)
    ensures |r| == 10
  {
    [RestartCall(1, Synced)] + seq(9, i requires 0 <= i < 9 => Creation(i))
  }

  lemma OneOfTheSteps(cfg: Config, k: nat)
    requires k < 10
    ensures StepAt(cfg, States(cfg), Events(), k)
  {
    StatesAt(cfg, k);
    hide StepsTo, Pristine, After, Creation, States, Events;
    if k == 0 {
      Starts(cfg);
    } else {
      CreatesNext(cfg, k - 1);
    }
  }

  lemma StatesAt(cfg: Config, k: nat)
    requires k < 10
    ensures States(cfg)[k] == (if k == 0 then Pristine(cfg) else After(cfg, k - 1)) && States(cfg)[k + 1] == After(cfg, k)
    ensures Events()[k] == if k == 0 then RestartCall(1, Synced) else Creation(k - 1)
  {
    hide Pristine, After, Creation;
  }

  lemma NineAreARun(cfg: Config)
    ensures IsRun(cfg, States(cfg), Events())
  {
    assert States(cfg)[0] == Pristine(cfg);
    hide StepAt, States, Events, Pristine;
    forall k | 0 <= k < |Events()| ensures StepAt(cfg, States(cfg), Events(), k) {
      OneOfTheSteps(cfg, k);
    }
  }

  lemma {:induction false} NineCreations(cfg: Config, k: nat)
    requires 1 <= k <= 10
    ensures Creations(cfg, States(cfg), Events(), k, NewAccountKind, SOURCE) == seq(k - 1, i requires 0 <= i < k - 1 => TimeOf(i))
  {
    hide Creates, After, Pristine;
    if k > 1 {
      NineCreations(cfg, k - 1);
      CreatesNext(cfg, k - 2);
    } else {
      assert !Creates(cfg, Pristine(cfg), RestartCall(1, Synced), NewAccountKind, SOURCE) by {
        NoneAtStart(cfg);
      }
    }
  }

  lemma NoneAtStart(cfg: Config)
    ensures !Creates(cfg, Pristine(cfg), RestartCall(1, Synced), NewAccountKind, SOURCE)
  {
  }

  /** The quota of eight accounts a day is exceeded in a closed day, by one. */
  lemma NineInAClosedDay(cfg: Config)
    ensures IsRun(cfg, States(cfg), Events())
    ensures var h := Creations(cfg, States(cfg), Events(), 10, NewAccountKind, SOURCE);
            CountIn(h, 1 - 1, 1 + DAY) == Maximum(NewAccountKind) + 1
  {
    hide IsRun, CountIn, Creates;
    NineAreARun(cfg);
    NineCreations(cfg, 10);
    CountBetween(Creations(cfg, States(cfg), Events(), 10, NewAccountKind, SOURCE), 0, 1 + DAY, 0, 9);
  }
}
