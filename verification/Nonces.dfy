/** The replay nonces of the certificate service: a bounded, expiring, single-use store. */
module Nonces {
  import opened Common

  const MAX_NONCES := 8192
  const NONCE_TTL := 10 * MINUTE

  datatype Entry = Entry(value: string, expires: Time)

  // ----- The store as a queue, oldest nonce first -----

  /** What is left after making room for one more nonce. */
  function MakeRoom(q: seq<Entry>, now: Time): seq<Entry> {
    if q == [] || (|q| < MAX_NONCES && now < q[0].expires) then q else MakeRoom(q[1..], now)
  }

  function Issue(q: seq<Entry>, now: Time, nonce: string): seq<Entry> {
    MakeRoom(q, now) + [Entry(nonce, now + NONCE_TTL)]
  }

  predicate Outstanding(q: seq<Entry>, nonce: string) {
    exists i :: 0 <= i < |q| && q[i].value == nonce
  }

  function Without(q: seq<Entry>, nonce: string): (r: seq<Entry>)
    ensures |r| <= |q|
  {
    if q == [] then [] else if q[0].value == nonce then q[1..] else [q[0]] + Without(q[1..], nonce)
  }

  predicate Accepts(q: seq<Entry>, now: Time, nonce: string) {
    exists i :: 0 <= i < |q| && q[i].value == nonce && now < q[i].expires
  }

  // ----- What every operation keeps -----

  ghost predicate DistinctValues(q: seq<Entry>) {
    forall i, j :: 0 <= i < j < |q| ==> q[i].value != q[j].value
  }

  ghost predicate ExpiryOrder(q: seq<Entry>) {
    forall i, j :: 0 <= i < j < |q| ==> q[i].expires <= q[j].expires
  }

  ghost predicate Inv(q: seq<Entry>, clock: Time) {
    && DistinctValues(q) && ExpiryOrder(q) && |q| <= MAX_NONCES
    && forall i :: 0 <= i < |q| ==> q[i].expires <= clock + NONCE_TTL
  }

  lemma {:induction false} MakeRoomIsSuffix(q: seq<Entry>, now: Time)
    ensures var r := MakeRoom(q, now);
            && |r| <= |q| && r == q[|q| - |r|..]
            && (q != [] ==> |r| < MAX_NONCES || r == [])
            && (r != [] ==> |r| < MAX_NONCES && now < r[0].expires)
            && forall p :: 0 <= p < |q| && |q| - p < MAX_NONCES && now < q[p].expires ==> |q| - |r| <= p
  {
    if q != [] && !(|q| < MAX_NONCES && now < q[0].expires) {
      MakeRoomIsSuffix(q[1..], now);
      var r := MakeRoom(q[1..], now);
      assert q[1..][|q| - 1 - |r|..] == q[|q| - |r|..];
      forall p | 0 <= p < |q| && |q| - p < MAX_NONCES && now < q[p].expires ensures |q| - |r| <= p {
        if p > 0 {
          assert q[1..][p - 1] == q[p];
        }
      }
    }
  }

  lemma IssueKeeps(q: seq<Entry>, clock: Time, now: Time, nonce: string)
    requires Inv(q, clock) && clock <= now && !Outstanding(q, nonce)
    ensures Inv(Issue(q, now, nonce), now)
  {
    hide MakeRoom;
    MakeRoomIsSuffix(q, now);
    var kept := MakeRoom(q, now);
    assert forall i :: 0 <= i < |kept| ==> kept[i] == q[|q| - |kept| + i];
  }

  function Removed(q: seq<Entry>, p: nat): (r: seq<Entry>)
    requires p < |q|
  {
    q[..p] + q[p + 1..]
  }

  lemma {:induction false} WithoutIs(q: seq<Entry>, nonce: string, p: nat)
    requires p < |q| && q[p].value == nonce && forall i :: 0 <= i < p ==> q[i].value != nonce
    ensures Without(q, nonce) == Removed(q, p)
  {
    if p > 0 {
      assert forall i :: 0 <= i < p - 1 ==> q[1..][i] == q[i + 1];
      WithoutIs(q[1..], nonce, p - 1);
      assert [q[0]] + Removed(q[1..], p - 1) == Removed(q, p);
    }
  }

  /** Where the other entries are after one has been removed. */
  lemma RemovedAt(q: seq<Entry>, p: nat, k: nat)
    requires p < |q| && k < |q| && k != p
    ensures var r := Removed(q, p); |r| == |q| - 1 && r[if k < p then k else k - 1] == q[k]
  {
  }

  lemma {:induction false} WithoutAbsent(q: seq<Entry>, nonce: string)
    requires !Outstanding(q, nonce)
    ensures Without(q, nonce) == q
  {
    if q != [] {
      assert q[0].value != nonce;
      assert forall i :: 0 <= i < |q[1..]| ==> q[1..][i] == q[i + 1];
      WithoutAbsent(q[1..], nonce);
    }
  }

  lemma ConsumeKeeps(q: seq<Entry>, clock: Time, now: Time, nonce: string)
    requires Inv(q, clock) && clock <= now
    ensures Inv(Without(q, nonce), now) && !Outstanding(Without(q, nonce), nonce)
  {
    hide Without;
    if Outstanding(q, nonce) {
      var p := Place(q, nonce);
      WithoutIs(q, nonce, p);
      RemovedOk(q, clock, p);
    } else {
      WithoutAbsent(q, nonce);
    }
  }

  lemma RemovedOk(q: seq<Entry>, clock: Time, p: nat)
    requires Inv(q, clock) && p < |q|
    ensures Inv(Removed(q, p), clock) && !Outstanding(Removed(q, p), q[p].value)
  {
    RemovedFrom(q, p);
    var r := Removed(q, p);
    forall i, j | 0 <= i < j < |r| ensures r[i].expires <= r[j].expires {
      assert r[i] == q[if i < p then i else i + 1] && r[j] == q[if j < p then j else j + 1];
    }
  }

  ghost function Place(q: seq<Entry>, nonce: string): (i: nat)
    requires Outstanding(q, nonce)
    ensures i < |q| && q[i].value == nonce
  {
    var i :| 0 <= i < |q| && q[i].value == nonce;
    i
  }

  // ----- Runs -----

  datatype Event = IssueCall(now: Time, nonce: string) | ConsumeCall(now: Time, nonce: string)

  datatype Store = Store(queue: seq<Entry>, clock: Time)

  function Next(s: Store, e: Event): Store {
    Store(if e.IssueCall? then Issue(s.queue, e.now, e.nonce) else Without(s.queue, e.nonce), e.now)
  }

  /** Time does not go back, and a random nonce is not one of those still outstanding. */
  ghost predicate Steps(s: Store, e: Event, after: Store) {
    s.clock <= e.now && (e.IssueCall? ==> !Outstanding(s.queue, e.nonce)) && after == Next(s, e)
  }

  ghost predicate IsRun(states: seq<Store>, events: seq<Event>) {
    && |states| == |events| + 1 && states[0] == Store([], 0)
    && forall k {:trigger events[k]} :: 0 <= k < |events| ==> Steps(states[k], events[k], states[k + 1])
  }

  predicate Accepted(s: Store, e: Event, nonce: string) {
    e == ConsumeCall(e.now, nonce) && Accepts(s.queue, e.now, nonce)
  }

  lemma StepKeeps(s: Store, e: Event, after: Store)
    requires Inv(s.queue, s.clock) && Steps(s, e, after)
    ensures Inv(after.queue, after.clock)
  {
    hide MakeRoom, Without, Inv;
    if e.IssueCall? {
      IssueKeeps(s.queue, s.clock, e.now, e.nonce);
    } else {
      ConsumeKeeps(s.queue, s.clock, e.now, e.nonce);
    }
  }

  /** In every run the store holds distinct nonces in the order they expire, never more than 8192. */
  lemma {:induction false} RunKeeps(states: seq<Store>, events: seq<Event>, k: nat)
    requires IsRun(states, events) && k < |states|
    ensures Inv(states[k].queue, states[k].clock)
  {
    hide Inv, Steps;
    if k > 0 {
      RunKeeps(states, events, k - 1);
      StepKeeps(states[k - 1], events[k - 1], states[k]);
    } else {
      EmptyOk();
    }
  }

  lemma EmptyOk()
    ensures Inv([], 0)
  {
  }

  lemma {:induction false} ClockMonotone(states: seq<Store>, events: seq<Event>, i: nat, j: nat)
    requires IsRun(states, events) && i <= j < |states|
    ensures states[i].clock <= states[j].clock
  {
    hide Issue, Without;
    if i < j {
      ClockMonotone(states, events, i, j - 1);
      assert Steps(states[j - 1], events[j - 1], states[j]);
    }
  }

  // ----- Soundness -----

  /** Step `i` issues the nonce, with this expiry, and no step from `i` up to `j` presents it. */
  ghost predicate IssuedUnused(events: seq<Event>, i: nat, j: nat, nonce: string, expires: Time)
    requires j <= |events|
  {
    && i < j && events[i] == IssueCall(expires - NONCE_TTL, nonce)
    && forall m :: i < m < j ==> events[m] != ConsumeCall(events[m].now, nonce)
  }

  /** The step issues a nonce, finds the queue full with this one in front, and drops it. */
  ghost predicate Displaces(s: Store, e: Event, nonce: string) {
    e.IssueCall? && |s.queue| >= MAX_NONCES && s.queue[0].value == nonce
  }

  /** No step between `i` and `j` displaces the nonce. */
  ghost predicate Undisplaced(states: seq<Store>, events: seq<Event>, i: nat, j: nat, nonce: string)
    requires j <= |events| <= |states|
  {
    forall m :: i < m < j ==> !Displaces(states[m], events[m], nonce)
  }

  lemma EntryComesFrom(s: Store, e: Event, after: Store, p: nat) returns (k: nat)
    requires Inv(s.queue, s.clock) && Steps(s, e, after) && p < |after.queue|
    requires after.queue[p] != Entry(e.nonce, e.now + NONCE_TTL) || e.ConsumeCall?
    ensures k < |s.queue| && s.queue[k] == after.queue[p]
    ensures e.ConsumeCall? ==> after.queue[p].value != e.nonce
    ensures !Displaces(s, e, after.queue[p].value)
  {
    hide MakeRoom, Without;
    if e.IssueCall? {
      MakeRoomIsSuffix(s.queue, e.now);
      k := p + (|s.queue| - |MakeRoom(s.queue, e.now)|);
    } else {
      k := ConsumedFrom(s.queue, e.nonce, p);
    }
  }

  lemma ConsumedFrom(q: seq<Entry>, nonce: string, p: nat) returns (k: nat)
    requires DistinctValues(q) && p < |Without(q, nonce)|
    ensures k < |q| && q[k] == Without(q, nonce)[p] && q[k].value != nonce
  {
    hide Without;
    if Outstanding(q, nonce) {
      var x := Place(q, nonce);
      WithoutIs(q, nonce, x);
      k := if p < x then p else p + 1;
    } else {
      WithoutAbsent(q, nonce);
      k := p;
    }
  }

  /** Every outstanding nonce was issued earlier and has been neither presented nor displaced since. */
  lemma {:induction false} OutstandingWasIssued(states: seq<Store>, events: seq<Event>, j: nat, p: nat) returns (i: nat)
    requires IsRun(states, events) && j < |states| && p < |states[j].queue|
    ensures IssuedUnused(events, i, j, states[j].queue[p].value, states[j].queue[p].expires)
    ensures Undisplaced(states, events, i, j, states[j].queue[p].value)
  {
    hide Inv, Issue, Without;
    if j > 0 {
      assert Steps(states[j - 1], events[j - 1], states[j]);
      RunKeeps(states, events, j - 1);
      var entry := states[j].queue[p];
      if events[j - 1] == IssueCall(entry.expires - NONCE_TTL, entry.value) {
        i := j - 1;
      } else {
        var k := EntryComesFrom(states[j - 1], events[j - 1], states[j], p);
        i := OutstandingWasIssued(states, events, j - 1, k);
      }
    }
  }

  /** A nonce is accepted only inside its lifetime, and only once: some earlier step issued it, less
      than the lifetime ago, and no step in between presented it. */
  lemma AcceptedOnce(states: seq<Store>, events: seq<Event>, j: nat, nonce: string)
    requires IsRun(states, events) && j < |events| && Accepted(states[j], events[j], nonce)
    ensures exists i: nat, expires :: IssuedUnused(events, i, j, nonce, expires) && events[j].now < expires
  {
    var p :| 0 <= p < |states[j].queue| && states[j].queue[p].value == nonce && events[j].now < states[j].queue[p].expires;
    var i := OutstandingWasIssued(states, events, j, p);
  }

  // ----- Completeness -----

  /** How many of the steps from `i` up to `j` issue a nonce. */
  function Issued(events: seq<Event>, i: nat, j: nat): nat
    requires j <= |events|
    decreases j
  {
    if j <= i then 0 else Issued(events, i, j - 1) + if events[j - 1].IssueCall? then 1 else 0
  }

  /** The nonce is still queued, with at most `after` younger ones. */
  ghost predicate Queued(q: seq<Entry>, nonce: string, expires: Time, after: int) {
    exists p :: 0 <= p < |q| && q[p] == Entry(nonce, expires) && |q| - 1 - p <= after
  }

  /** Issuing a nonce moves a young and unexpired one by at most one place. */
  lemma IssueMoves(q: seq<Entry>, now: Time, nonce: string, p: nat)
    requires p < |q| && |q| - p < MAX_NONCES && now < q[p].expires
    ensures var r := Issue(q, now, nonce);
            exists k :: 0 <= k < |r| && r[k] == q[p] && |r| - 1 - k == |q| - p
  {
    hide MakeRoom;
    MakeRoomIsSuffix(q, now);
    var kept := MakeRoom(q, now);
    var k := p - (|q| - |kept|);
    assert Issue(q, now, nonce)[k] == q[p];
  }

  lemma StepKeepsQueued(s: Store, e: Event, after: Store, nonce: string, expires: Time, n: nat)
    requires Inv(s.queue, s.clock) && Steps(s, e, after) && Queued(s.queue, nonce, expires, n)
    requires e.now < expires && e != ConsumeCall(e.now, nonce) && (e.IssueCall? ==> n + 1 < MAX_NONCES)
    ensures Queued(after.queue, nonce, expires, if e.IssueCall? then n + 1 else n)
  {
    hide MakeRoom, Without, Issue;
    var p :| 0 <= p < |s.queue| && s.queue[p] == Entry(nonce, expires) && |s.queue| - 1 - p <= n;
    if e.IssueCall? {
      IssueMoves(s.queue, e.now, e.nonce, p);
    } else if Outstanding(s.queue, e.nonce) {
      var x := Place(s.queue, e.nonce);
      WithoutIs(s.queue, e.nonce, x);
      RemovedAt(s.queue, x, p);
    } else {
      WithoutAbsent(s.queue, e.nonce);
    }
  }

  lemma {:induction false} StaysQueued(states: seq<Store>, events: seq<Event>, i: nat, j: nat, nonce: string, expires: Time)
    requires IsRun(states, events) && j < |states| && IssuedUnused(events, i, j, nonce, expires)
    requires states[j].clock < expires && Issued(events, i + 1, j) < MAX_NONCES
    ensures Queued(states[j].queue, nonce, expires, Issued(events, i + 1, j))
  {
    hide Inv, Without, MakeRoom;
    assert Steps(states[j - 1], events[j - 1], states[j]);
    if i + 1 == j {
      var q := states[j].queue;
      assert q[|q| - 1] == Entry(nonce, expires);
    } else {
      RunKeeps(states, events, j - 1);
      StaysQueued(states, events, i, j - 1, nonce, expires);
      hide Steps;
      StepKeepsQueued(states[j - 1], events[j - 1], states[j], nonce, expires, Issued(events, i + 1, j - 1));
    }
  }

  /** A nonce presented for the first time inside its lifetime is accepted if at most 8191 nonces were
      issued after it. */
  lemma FreshNonceAccepted(states: seq<Store>, events: seq<Event>, i: nat, j: nat, nonce: string, expires: Time)
    requires IsRun(states, events) && j < |events| && IssuedUnused(events, i, j, nonce, expires)
    requires events[j] == ConsumeCall(events[j].now, nonce) && events[j].now < expires
    requires Issued(events, i + 1, j) < MAX_NONCES
    ensures Accepted(states[j], events[j], nonce)
  {
    hide Without, Issue;
    assert Steps(states[j], events[j], states[j + 1]);
    StaysQueued(states, events, i, j, nonce, expires);
  }

  // ----- Exactly which nonces are accepted -----

  /** An unexpired nonce leaves the queue only by being presented or displaced. */
  lemma StepSpares(s: Store, e: Event, after: Store, entry: Entry)
    requires Inv(s.queue, s.clock) && Steps(s, e, after) && entry in s.queue && e.now < entry.expires
    requires e != ConsumeCall(e.now, entry.value) && !Displaces(s, e, entry.value)
    ensures entry in after.queue
  {
    hide MakeRoom, Without;
    var p :| 0 <= p < |s.queue| && s.queue[p] == entry;
    if e.IssueCall? {
      MakeRoomIsSuffix(s.queue, e.now);
      var kept := MakeRoom(s.queue, e.now);
      assert after.queue[p - (|s.queue| - |kept|)] == entry;
    } else if Outstanding(s.queue, e.nonce) {
      var x := Place(s.queue, e.nonce);
      WithoutIs(s.queue, e.nonce, x);
      RemovedAt(s.queue, x, p);
    } else {
      WithoutAbsent(s.queue, e.nonce);
    }
  }

  lemma {:induction false} StaysUntilDisplaced(states: seq<Store>, events: seq<Event>, i: nat, j: nat, nonce: string, expires: Time)
    requires IsRun(states, events) && j < |states| && IssuedUnused(events, i, j, nonce, expires)
    requires states[j].clock < expires && Undisplaced(states, events, i, j, nonce)
    ensures Entry(nonce, expires) in states[j].queue
  {
    hide Inv, Without, MakeRoom;
    assert Steps(states[j - 1], events[j - 1], states[j]);
    if i + 1 == j {
      var q := states[j].queue;
      assert q[|q| - 1] == Entry(nonce, expires);
    } else {
      RunKeeps(states, events, j - 1);
      StaysUntilDisplaced(states, events, i, j - 1, nonce, expires);
      hide Steps;
      StepSpares(states[j - 1], events[j - 1], states[j], Entry(nonce, expires));
    }
  }

  /** Every presentation in every run: the nonce is accepted if and only if some earlier step issued it,
      less than its lifetime ago, and it has been neither presented nor displaced since. */
  lemma AcceptedIff(states: seq<Store>, events: seq<Event>, j: nat, nonce: string)
    requires IsRun(states, events) && j < |events| && events[j] == ConsumeCall(events[j].now, nonce)
    ensures Accepted(states[j], events[j], nonce) <==>
              exists i: nat, expires :: IssuedUnused(events, i, j, nonce, expires) && events[j].now < expires && Undisplaced(states, events, i, j, nonce)
  {
    hide Without, Issue;
    assert Steps(states[j], events[j], states[j + 1]);
    if Accepted(states[j], events[j], nonce) {
      var p :| 0 <= p < |states[j].queue| && states[j].queue[p].value == nonce && events[j].now < states[j].queue[p].expires;
      var i := OutstandingWasIssued(states, events, j, p);
    }
    if i: nat, expires :| IssuedUnused(events, i, j, nonce, expires) && events[j].now < expires && Undisplaced(states, events, i, j, nonce) {
      StaysUntilDisplaced(states, events, i, j, nonce, expires);
    }
  }

  /** A nonce presented for the first time, inside the lifetime of its latest issue, is accepted if and only
      if no issuing step in between found the queue full with this nonce in front. */
  lemma FirstPresentation(states: seq<Store>, events: seq<Event>, i: nat, j: nat, nonce: string, expires: Time)
    requires IsRun(states, events) && j < |events| && IssuedUnused(events, i, j, nonce, expires)
    requires events[j] == ConsumeCall(events[j].now, nonce) && events[j].now < expires
    requires forall m :: i < m < j ==> events[m] != IssueCall(events[m].now, nonce)
    ensures Accepted(states[j], events[j], nonce) <==> Undisplaced(states, events, i, j, nonce)
  {
    hide Steps;
    AcceptedIff(states, events, j, nonce);
    if Accepted(states[j], events[j], nonce) {
      var i': nat, expires' :| IssuedUnused(events, i', j, nonce, expires') && events[j].now < expires' && Undisplaced(states, events, i', j, nonce);
      if i' < i {
        StillThere(states, events, i', i, j, nonce, expires');
      }
    }
  }

  /** While an unexpired nonce is queued it is not drawn again. */
  lemma StillThere(states: seq<Store>, events: seq<Event>, i: nat, m: nat, j: nat, nonce: string, expires: Time)
    requires IsRun(states, events) && i < m < j < |events| && IssuedUnused(events, i, j, nonce, expires)
    requires events[j].now < expires && Undisplaced(states, events, i, j, nonce)
    ensures events[m] != IssueCall(events[m].now, nonce)
  {
    hide Without, Issue;
    assert Steps(states[m], events[m], states[m + 1]) && Steps(states[j], events[j], states[j + 1]);
    ClockMonotone(states, events, m, j);
    StaysUntilDisplaced(states, events, i, m, nonce, expires);
  }

  /** A displaced nonce is refused from then on, unless it is issued again. */
  lemma DisplacedNonceRefused(states: seq<Store>, events: seq<Event>, m: nat, j: nat, nonce: string)
    requires IsRun(states, events) && m < j < |events| && Displaces(states[m], events[m], nonce)
    requires forall k :: m <= k < j ==> events[k] != IssueCall(events[k].now, nonce)
    ensures !Accepted(states[j], events[j], nonce)
  {
    hide Steps;
    if Accepted(states[j], events[j], nonce) {
      AcceptedIff(states, events, j, nonce);
    }
  }

  // ----- The bound of 8191 is tight -----

  /** The nonce is gone, or all `n` nonces issued after it are still queued behind it. */
  ghost predicate Crowded(q: seq<Entry>, nonce: string, n: nat) {
    forall p :: 0 <= p < |q| && q[p].value == nonce ==> |q| - 1 - p >= n
  }

  lemma StepKeepsCrowded(s: Store, e: Event, after: Store, nonce: string, n: nat)
    requires Steps(s, e, after) && e.IssueCall? && e.nonce != nonce && Crowded(s.queue, nonce, n)
    ensures Crowded(after.queue, nonce, n + 1)
  {
    hide MakeRoom;
    MakeRoomIsSuffix(s.queue, e.now);
    CrowdedSuffix(s.queue, MakeRoom(s.queue, e.now), nonce, n, Entry(e.nonce, e.now + NONCE_TTL));
  }

  lemma CrowdedSuffix(q: seq<Entry>, kept: seq<Entry>, nonce: string, n: nat, last: Entry)
    requires |kept| <= |q| && kept == q[|q| - |kept|..] && Crowded(q, nonce, n) && last.value != nonce
    ensures Crowded(kept + [last], nonce, n + 1)
  {
    forall p | 0 <= p < |kept| && kept[p].value == nonce ensures |kept| - p >= n + 1 {
      assert kept[p] == q[|q| - |kept| + p];
    }
  }

  lemma {:induction false} StaysCrowded(states: seq<Store>, events: seq<Event>, i: nat, j: nat, nonce: string)
    requires IsRun(states, events) && i < j < |states|
    requires forall m :: i < m < j ==> events[m].IssueCall? && events[m].nonce != nonce
    ensures Crowded(states[j].queue, nonce, j - i - 1)
  {
    hide Without, MakeRoom;
    if i + 1 < j {
      assert Steps(states[j - 1], events[j - 1], states[j]);
      StaysCrowded(states, events, i, j - 1, nonce);
      StepKeepsCrowded(states[j - 1], events[j - 1], states[j], nonce, j - i - 2);
    }
  }

  /** With 8192 more nonces issued and none presented in between, the nonce has been displaced. */
  lemma BoundIsTight(states: seq<Store>, events: seq<Event>, i: nat, j: nat, nonce: string)
    requires IsRun(states, events) && j < |events| && i + 1 + MAX_NONCES <= j
    requires forall m :: i < m < j ==> events[m].IssueCall? && events[m].nonce != nonce
    ensures !Accepted(states[j], events[j], nonce)
  {
    hide Steps;
    RunKeeps(states, events, j);
    StaysCrowded(states, events, i, j, nonce);
  }

  // ----- The implementation: a map and a queue that must agree -----

  /** The map and the queue hold the same entries, each nonce once. */
  ghost predicate Agree(nonces: map<string, Entry>, queue: seq<Entry>) {
    && DistinctValues(queue)
    && (forall i :: 0 <= i < |queue| ==> queue[i].value in nonces && nonces[queue[i].value] == queue[i])
    && (forall v :: v in nonces ==> Outstanding(queue, v))
  }

  /** Taking one nonce out of both leaves them in agreement. */
  lemma AgreeWithout(nonces: map<string, Entry>, queue: seq<Entry>, p: nat)
    requires Agree(nonces, queue) && p < |queue|
    ensures Agree(nonces - {queue[p].value}, Removed(queue, p)) && Without(queue, queue[p].value) == Removed(queue, p)
  {
    hide Without, Removed, Outstanding;
    WithoutIs(queue, queue[p].value, p);
    RemovedFrom(queue, p);
    forall v | v in nonces - {queue[p].value} ensures Outstanding(Removed(queue, p), v) {
      StillOutstanding(queue, p, v);
    }
  }

  lemma RemovedFrom(q: seq<Entry>, p: nat)
    requires DistinctValues(q) && p < |q|
    ensures DistinctValues(Removed(q, p))
    ensures forall k :: 0 <= k < |Removed(q, p)| ==> Removed(q, p)[k] in q && Removed(q, p)[k].value != q[p].value
  {
    var r := Removed(q, p);
    forall k | 0 <= k < |r| ensures r[k] in q && r[k].value != q[p].value {
      assert r[k] == q[if k < p then k else k + 1];
    }
    forall i, j | 0 <= i < j < |r| ensures r[i].value != r[j].value {
      assert r[i] == q[if i < p then i else i + 1] && r[j] == q[if j < p then j else j + 1];
    }
  }

  lemma StillOutstanding(q: seq<Entry>, p: nat, v: string)
    requires p < |q| && Outstanding(q, v) && v != q[p].value
    ensures Outstanding(Removed(q, p), v)
  {
    RemovedAt(q, p, Place(q, v));
  }

  class Verifier {
    var nonces: map<string, Entry>
    var queue: seq<Entry>

    ghost predicate Valid()
      reads this
    {
      Agree(nonces, queue)
    }

    constructor ()
      ensures Valid() && queue == []
    {
      nonces := map[];
      queue := [];
    }

    /** `random` is the freshly drawn nonce. */
    method Nonce(random: string, now: Time) returns (nonce: string)
      requires Valid() && random !in nonces
      modifies this
      ensures Valid() && nonce == random && queue == Issue(old(queue), now, random)
    {
      while queue != []
        invariant Valid() && random !in nonces
        invariant MakeRoom(queue, now) == MakeRoom(old(queue), now)
        decreases |queue|
      {
        var first := queue[0];
        SameSize(nonces, queue);
        if |nonces| < MAX_NONCES && now < first.expires {
          break;
        }
        DropFirst();
      }
      assert MakeRoom(queue, now) == queue by {
        SameSize(nonces, queue);
      }
      ghost var kept := queue;
      nonces := nonces[random := Entry(random, now + NONCE_TTL)];
      queue := queue + [Entry(random, now + NONCE_TTL)];
      forall v | v in nonces ensures Outstanding(queue, v) {
        var i := if v == random then |kept| else Place(kept, v);
        assert queue[i].value == v;
      }
      nonce := random;
    }

    method DropFirst()
      requires Valid() && queue != []
      modifies this
      ensures Valid() && queue == old(queue)[1..] && nonces == old(nonces) - {old(queue)[0].value}
    {
      AgreeWithout(nonces, queue, 0);
      hide Agree;
      nonces := nonces - {queue[0].value};
      assert Removed(queue, 0) == queue[1..];
      queue := queue[1..];
    }

    method Consume(nonce: string, now: Time) returns (ok: bool)
      requires Valid()
      modifies this
      ensures Valid() && queue == Without(old(queue), nonce)
      ensures ok == Accepts(old(queue), now, nonce)
    {
      hide Without;
      if nonce !in nonces {
        WithoutAbsent(queue, nonce);
        return false;
      }
      var element := nonces[nonce];
      var p :| 0 <= p < |queue| && queue[p] == element;
      AgreeWithout(nonces, queue, p);
      ok := now < element.expires;
      nonces := nonces - {nonce};
      queue := queue[..p] + queue[p + 1..];
    }
  }

  /** The map and the queue have the same size when they hold the same nonces. */
  lemma {:induction false} SameSize(nonces: map<string, Entry>, q: seq<Entry>)
    requires DistinctValues(q)
    requires forall i :: 0 <= i < |q| ==> q[i].value in nonces
    requires forall v :: v in nonces ==> Outstanding(q, v)
    ensures |nonces| == |q|
  {
    if q == [] {
      assert nonces == map[];
    } else {
      var last := |q| - 1;
      var rest := nonces - {q[last].value};
      forall v | v in rest ensures Outstanding(q[..last], v) {
        var i :| 0 <= i < |q| && q[i].value == v;
        assert q[..last][i].value == v;
      }
      SameSize(rest, q[..last]);
      assert nonces.Keys == rest.Keys + {q[last].value};
    }
  }
}
