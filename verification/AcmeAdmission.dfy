/** Exactly which account and order requests are admitted, told from the creations of the run. */
module AcmeAdmission {
  import opened Common
  import opened Acme
  import opened AcmeInvariant
  import opened AcmeSteps
  import opened AcmeRuns
  import opened AcmeIssuance
  import opened RollingHistory
  import opened AcmeQuota

  lemma RecentCounts(h: seq<Time>, kept: seq<Time>, t: Time, now: Time, window: int)
    requires Tracks(h, kept, t, window) && t <= now && 0 < window
    ensures |Recent(kept, now - window)| == CountIn(h, now - window, now)
  {
    hide Recent, CountIn;
    RecentOfTracked(h, kept, t, now, window);
    RecentIsSuffix(h, now - window);
    var r := Recent(h, now - window);
    forall i | |h| - |r| <= i < |h| ensures now - window < h[i] <= now {
      assert h[i] == r[i - (|h| - |r|)];
    }
    CountBetween(h, now - window, now, |h| - |r|, |h|);
  }

  /** In every reachable state the window test is exact: it refuses the source if and only if the run has a full
      quota of its creations in the window that ends now. */
  lemma WindowExact(cfg: Config, states: seq<System>, events: seq<Event>, k: nat, kind: Kind, source: ClientId, now: Time)
    requires IsRun(cfg, states, events) && k < |states| && states[k].up && states[k].clock <= now && source != Utf8("")
    ensures WindowFull(states[k].mem, now, source, kind) <==>
              CountIn(Creations(cfg, states, events, k, kind, source), now - Window(kind), now) == Maximum(kind)
  {
    hide Step, Enabled, Creations, Recent, CountIn, Tracks, Spaced, SystemInv;
    RunKeeps(cfg, states, events, k);
    MemHistory(cfg, states[k], kind, source);
    RunKeepsQuota(cfg, states, events, k, kind, source);
    SourceQuota(cfg, states, events, k, kind, source, now);
    RecentCounts(Creations(cfg, states, events, k, kind, source), Stored(states[k], kind, source), states[k].clock, now, Window(kind));
  }

  /** And the announced wait is no longer than it has to be: a whole second earlier the test still refuses. */
  lemma RetryAfterIsTight(cfg: Config, states: seq<System>, events: seq<Event>, i: nat, j: nat, kind: Kind, source: ClientId, now: Time, later: Time)
    requires IsRun(cfg, states, events) && i <= j < |states| && states[i].up && states[j].up
    requires states[i].clock <= now <= later && states[j].clock <= later
    requires WindowFull(states[i].mem, now, source, kind)
    requires Creations(cfg, states, events, i, kind, source) == Creations(cfg, states, events, j, kind, source)
    requires var denied := DenyCreation(states[i].mem, now, source, kind);
             denied.Some? && denied.value.RateLimited? && later <= now + (denied.value.seconds - 1) * SECOND
    ensures WindowFull(states[j].mem, later, source, kind)
  {
    hide Step, Enabled, Creations, Recent, Spaced, SystemInv, RetrySeconds, LiveLimits;
    RunKeeps(cfg, states, events, i);
    RunKeeps(cfg, states, events, j);
    MemHistory(cfg, states[i], kind, source);
    MemHistory(cfg, states[j], kind, source);
    RunKeepsQuota(cfg, states, events, i, kind, source);
    RunKeepsQuota(cfg, states, events, j, kind, source);
    hide IsRun;
    var h, window := Creations(cfg, states, events, i, kind, source), Window(kind);
    RecentOfTracked(h, Stored(states[i], kind, source), states[i].clock, now, window);
    RecentOfTracked(h, Stored(states[j], kind, source), states[j].clock, later, window);
    hide Tracks;
    TrackedSorted(h, Stored(states[i], kind, source), states[i].clock, window);
    StillFull(h, now, later, window);
  }

  lemma TrackedSorted(h: seq<Time>, kept: seq<Time>, t: Time, window: int)
    requires Tracks(h, kept, t, window)
    ensures Sorted(h)
  {
  }

  lemma StillFull(h: seq<Time>, now: Time, later: Time, window: int)
    requires Sorted(h) && Recent(h, now - window) != [] && now <= later
    requires later <= now + (RetrySeconds(Recent(h, now - window)[0] + window - now) - 1) * SECOND
    ensures Recent(h, later - window) == Recent(h, now - window)
  {
    hide Recent, RetrySeconds;
    RecentIsSuffix(h, now - window);
    RetryBound(Recent(h, now - window)[0] + window - now);
    StillRecent(h, now - window, later - window);
  }

  lemma RetryBound(retry: int)
    requires 0 < retry
    ensures (RetrySeconds(retry) - 1) * SECOND < retry
  {
  }

  lemma StillRecent(h: seq<Time>, cutoff: Time, later: Time)
    requires Sorted(h) && Recent(h, cutoff) != [] && cutoff <= later < Recent(h, cutoff)[0]
    ensures Recent(h, later) == Recent(h, cutoff)
  {
    RecentIsSuffix(h, cutoff);
    RecentIsSuffix(h, later);
    hide Recent;
    var a, b := Recent(h, cutoff), Recent(h, later);
    assert a[0] == h[|h| - |a|];
    SamePlace(h, |h| - |a|, |h| - |b|, later);
  }

  /** There is room for the history of one more source. */
  predicate SourceFits(st: State, now: Time, source: ClientId) {
    source in st.limits || |st.limits| < 10000 || |LiveLimits(st, now)| < 10000
  }

  /** A request for a new account with a new key is accepted if and only if the source has created fewer than
      eight accounts in the past day, there is room for it, and the write succeeds. */
  lemma NewAccountAdmitted(cfg: Config, states: seq<System>, events: seq<Event>, k: nat)
    requires IsRun(cfg, states, events) && k < |events| && events[k].NewAccountCall? && StepAt(cfg, states, events, k)
    requires !HasThumbprint(states[k].mem, events[k].key.thumbprint) && !events[k].onlyExisting && events[k].source != Utf8("")
    ensures var (before, e) := (states[k], events[k]);
            Step(cfg, before, e).1.Accepted? <==>
              && CountIn(Creations(cfg, states, events, k, NewAccountKind, e.source), e.now - DAY, e.now) < 8
              && SourceFits(before.mem, e.now, e.source) && |Prune(before.mem, e.now, before.activity).accounts| < 4096
              && e.outcome.Synced?
  {
    var before, e := states[k], events[k];
    EnabledIsUp(cfg, before, e);
    EnabledClock(cfg, before, e);
    WindowExact(cfg, states, events, k, NewAccountKind, e.source, e.now);
    SourceQuota(cfg, states, events, k, NewAccountKind, e.source, e.now);
    hide IsRun, Creations, CountIn, Prune, LiveLimits, Recent, HasThumbprint, RetrySeconds, WithAccount, FreshId;
  }

  /** The account's orders that are open and have not expired. */
  function OpenNow(st: State, now: Time, id: Id): set<Id> {
    set k | k in st.orders && st.orders[k].accountId == id && st.orders[k].status in {OrderPending, OrderReady} && now < st.orders[k].expires
  }

  lemma OpenAfterPruning(st: State, now: Time, activity: map<Id, Time>, id: Id)
    ensures OpenOrders(Prune(st, now, activity), id) == OpenNow(st, now, id)
  {
    hide Prune;
    forall k ensures k in OpenOrders(Prune(st, now, activity), id) <==> k in OpenNow(st, now, id) {
      PruneAt(st, now, activity, k);
    }
  }

  /** There is room for the records of the order. */
  ghost predicate OrderFits(before: System, e: Event)
    requires e.NewOrderCall?
  {
    var pruned := Prune(before.mem, e.now, before.activity[e.req.accountId := e.now]);
    |pruned.orders| < 10000 && |pruned.auths| + |e.names| <= 10000
  }

  /** A request for a new order of an active account is accepted if and only if the source has fewer than 32
      orders in the past hour, the account fewer than 32 in the past day and fewer than 32 open ones, there is
      room for it, and the write succeeds. */
  lemma NewOrderAdmitted(cfg: Config, states: seq<System>, events: seq<Event>, k: nat)
    requires IsRun(cfg, states, events) && k < |events| && events[k].NewOrderCall? && StepAt(cfg, states, events, k)
    requires events[k].source != Utf8("")
    ensures var (before, e) := (states[k], events[k]);
            Step(cfg, before, e).1.Accepted? <==>
              && IsActive(before.mem, e.req)
              && CountIn(Creations(cfg, states, events, k, NewOrderKind, e.source), e.now - HOUR, e.now) < 32
              && CountIn(AccountOrders(cfg, states, events, k, e.req.accountId), e.now - DAY, e.now) < 32
              && |OpenNow(before.mem, e.now, e.req.accountId)| < 32
              && SourceFits(before.mem, e.now, e.source) && OrderFits(before, e) && e.outcome.Synced?
  {
    hide Step, Creations, AccountOrders, CountIn, Prune, WindowFull, OpenOrders, OpenNow, SourceFits, DenyCreation;
    var before, e := states[k], events[k];
    EnabledIsUp(cfg, before, e);
    EnabledClock(cfg, before, e);
    WindowExact(cfg, states, events, k, NewOrderKind, e.source, e.now);
    SourceQuota(cfg, states, events, k, NewOrderKind, e.source, e.now);
    if IsActive(before.mem, e.req) {
      AccountWindowExact(cfg, states, events, k);
    }
    hide IsRun, IsActive;
    DenyIff(before.mem, e.now, e.source, NewOrderKind);
    OrderReply(cfg, before, e);
    if IsActive(before.mem, e.req) {
      CapacityIff(before, e, CountIn(AccountOrders(cfg, states, events, k, e.req.accountId), e.now - DAY, e.now));
    }
  }

  lemma CapacityIff(before: System, e: Event, count: nat)
    requires e.NewOrderCall?
    requires var pruned := Prune(before.mem, e.now, before.activity[e.req.accountId := e.now]);
             e.req.accountId in pruned.accounts && |pruned.accounts[e.req.accountId].recentOrders| == count
    ensures var pruned := Prune(before.mem, e.now, before.activity[e.req.accountId := e.now]);
            !OrderCapacityReached(pruned, e.req.accountId, |e.names|) <==>
              count < 32 && |OpenNow(before.mem, e.now, e.req.accountId)| < 32 && OrderFits(before, e)
  {
    hide Prune, OpenOrders, OpenNow;
    OpenAfterPruning(before.mem, e.now, before.activity[e.req.accountId := e.now], e.req.accountId);
  }

  lemma DenyIff(st: State, now: Time, source: ClientId, kind: Kind)
    requires source != Utf8("")
    ensures DenyCreation(st, now, source, kind).None? <==> !WindowFull(st, now, source, kind) && SourceFits(st, now, source)
    ensures DenyCreation(st, now, source, kind).Some? ==> DenyCreation(st, now, source, kind).value.RateLimited?
  {
    hide LiveLimits, Recent, RetrySeconds;
  }

  lemma OrderReply(cfg: Config, before: System, e: Event)
    requires Enabled(cfg, before, e) && e.NewOrderCall? && (DenyCreation(before.mem, e.now, e.source, NewOrderKind).Some? ==> DenyCreation(before.mem, e.now, e.source, NewOrderKind).value.RateLimited?)
    ensures var pruned := Prune(before.mem, e.now, before.activity[e.req.accountId := e.now]);
            Step(cfg, before, e).1.Accepted? <==>
              && IsActive(before.mem, e.req) && DenyCreation(before.mem, e.now, e.source, NewOrderKind).None? && e.req.accountId in pruned.accounts
              && !OrderCapacityReached(pruned, e.req.accountId, |e.names|) && e.outcome.Synced?
  {
    hide Prune, DenyCreation, IsActive, WithOrder, OrderCapacityReached, AcceptableNames, FreshId, Distinct, ValidId, RetrySeconds;
  }

  /** The history that an active account's next order is judged by has exactly its orders of the past day. */
  lemma AccountWindowExact(cfg: Config, states: seq<System>, events: seq<Event>, k: nat)
    requires IsRun(cfg, states, events) && k < |events| && events[k].NewOrderCall? && StepAt(cfg, states, events, k)
    requires IsActive(states[k].mem, events[k].req)
    ensures var (before, e) := (states[k], events[k]);
            var pruned := Prune(before.mem, e.now, before.activity[e.req.accountId := e.now]);
            && e.req.accountId in pruned.accounts
            && |pruned.accounts[e.req.accountId].recentOrders| == CountIn(AccountOrders(cfg, states, events, k, e.req.accountId), e.now - DAY, e.now)
  {
    hide Step, AccountOrders, Recent, CountIn, Prune, Tracks, Spaced;
    var before, e := states[k], events[k];
    var id := e.req.accountId;
    RunKeeps(cfg, states, events, k);
    RunKeepsAccount(cfg, states, events, k, id);
    EnabledIsUp(cfg, before, e);
    EnabledClock(cfg, before, e);
    hide IsRun;
    MemOrders(cfg, before, id);
    var h := AccountOrders(cfg, states, events, k, id);
    PrunedCaller(cfg, before, e);
    RecentCounts(h, OrdersOf(before.mem, id), before.clock, e.now, DAY);
  }

  lemma MemOrders(cfg: Config, sys: System, id: Id)
    requires SystemInv(cfg, sys) && sys.up
    ensures OrdersOf(OnDisk(sys), id) == OrdersOf(sys.mem, id)
  {
    hide Inv, FlightsMatch;
    assert Recover(sys.mem).accounts == sys.mem.accounts;
    assert Recover(sys.disk.value).accounts == sys.disk.value.accounts;
  }

  lemma PrunedCaller(cfg: Config, before: System, e: Event)
    requires Enabled(cfg, before, e) && e.NewOrderCall? && e.req.accountId in before.mem.accounts
    ensures var p := Prune(before.mem, e.now, before.activity[e.req.accountId := e.now]);
            && e.req.accountId in p.accounts
            && p.accounts[e.req.accountId].recentOrders == Recent(OrdersOf(before.mem, e.req.accountId), e.now - DAY)
  {
    hide AuthDropped, CertDropped, Recent, LiveLimits, Referenced, AcceptableNames, FreshId, Distinct, ValidId;
  }
}
