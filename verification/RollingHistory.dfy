/** Rolling windows over time stamps: what filtering a history by age keeps, and how many events
    a window can hold. */
module RollingHistory {
  import opened Common
  import opened Acme

  ghost predicate Sorted(h: seq<Time>) {
    forall i, j :: 0 <= i < j < |h| ==> h[i] <= h[j]
  }

  /** `kept` is all of the history `h` that is younger than `window` at time `t`, and perhaps more. */
  ghost predicate Tracks(h: seq<Time>, kept: seq<Time>, t: Time, window: int) {
    && Sorted(h) && (forall i :: 0 <= i < |h| ==> h[i] <= t)
    && |kept| <= |h| && kept == h[|h| - |kept|..]
    && forall i :: 0 <= i < |h| - |kept| ==> h[i] <= t - window
  }

  /** Any event and the one `max` places later are at least `window` apart. */
  ghost predicate Spaced(h: seq<Time>, max: nat, window: int) {
    forall i :: 0 <= i < |h| - max ==> h[i] + window <= h[i + max]
  }

  /** `s` consists of old stamps followed by the recent ones. */
  ghost predicate Splits(s: seq<Time>, r: seq<Time>, cutoff: Time) {
    && |r| <= |s| && r == s[|s| - |r|..]
    && (forall i :: 0 <= i < |s| - |r| ==> s[i] <= cutoff)
    && (forall i :: 0 <= i < |r| ==> cutoff < r[i])
  }

  lemma SplitsAppend(s: seq<Time>, r: seq<Time>, cutoff: Time, x: Time)
    requires Splits(s, r, cutoff)
    ensures cutoff < x ==> Splits(s + [x], r + [x], cutoff)
    ensures x <= cutoff && r == [] ==> Splits(s + [x], r, cutoff)
  {
    assert (s + [x])[|s| - |r|..] == s[|s| - |r|..] + [x];
  }

  lemma {:induction false} RecentIsSuffix(s: seq<Time>, cutoff: Time)
    requires Sorted(s)
    ensures Splits(s, Recent(s, cutoff), cutoff)
  {
    if s != [] {
      hide Splits, Sorted, AllBefore, Recent;
      var init, last := s[..|s| - 1], s[|s| - 1];
      SortedInit(s);
      RecentIsSuffix(init, cutoff);
      NoneRecent(init, Recent(init, cutoff), cutoff, last);
      SplitsAppend(init, Recent(init, cutoff), cutoff, last);
      RecentLast(s, cutoff);
    }
  }

  lemma RecentLast(s: seq<Time>, cutoff: Time)
    requires s != []
    ensures var init, last := s[..|s| - 1], s[|s| - 1];
            s == init + [last] && Recent(s, cutoff) == if cutoff < last then Recent(init, cutoff) + [last] else Recent(init, cutoff)
  {
  }

  lemma SortedInit(s: seq<Time>)
    requires Sorted(s) && s != []
    ensures Sorted(s[..|s| - 1]) && AllBefore(s[..|s| - 1], s[|s| - 1])
  {
  }

  ghost predicate AllBefore(s: seq<Time>, x: Time) {
    forall i :: 0 <= i < |s| ==> s[i] <= x
  }

  lemma NoneRecent(s: seq<Time>, r: seq<Time>, cutoff: Time, x: Time)
    requires Splits(s, r, cutoff) && AllBefore(s, x)
    ensures x <= cutoff ==> r == []
  {
    if r != [] {
      assert r[0] == s[|s| - |r|];
    }
  }

  lemma TracksLater(h: seq<Time>, kept: seq<Time>, t: Time, now: Time, window: int)
    requires Tracks(h, kept, t, window) && t <= now
    ensures Tracks(h, kept, now, window)
  {
  }

  /** Forgetting what is older than the window loses nothing that counts. */
  lemma TracksRecent(h: seq<Time>, kept: seq<Time>, t: Time, window: int)
    requires Tracks(h, kept, t, window)
    ensures Tracks(h, Recent(kept, t - window), t, window)
  {
    RecentIsSuffix(kept, t - window);
    var r := Recent(kept, t - window);
    var dropped := |h| - |kept|;
    forall i | 0 <= i < |h| - |r| ensures h[i] <= t - window {
      if i >= dropped {
        assert h[i] == kept[i - dropped];
      }
    }
  }

  lemma TracksNew(h: seq<Time>, r: seq<Time>, t: Time, window: int)
    requires Tracks(h, r, t, window)
    ensures Tracks(h + [t], r + [t], t, window)
  {
    assert (h + [t])[|h| - |r|..] == h[|h| - |r|..] + [t];
  }

  lemma SpacedNew(h: seq<Time>, r: seq<Time>, t: Time, window: int, max: nat)
    requires Tracks(h, r, t, window) && Spaced(h, max, window) && |r| < max
    ensures Spaced(h + [t], max, window)
  {
    var h' := h + [t];
    forall i | 0 <= i < |h'| - max ensures h'[i] + window <= h'[i + max] {
      if i + max == |h| {
        assert h[i] <= t - window;
      }
    }
  }

  /** Admitting an event while fewer than `max` are recent keeps every window within `max`. */
  lemma TracksAppend(h: seq<Time>, kept: seq<Time>, t: Time, window: int, max: nat)
    requires Tracks(h, kept, t, window) && Spaced(h, max, window) && 0 < max
    requires |Recent(kept, t - window)| < max
    ensures Tracks(h + [t], Recent(kept, t - window) + [t], t, window)
    ensures Spaced(h + [t], max, window)
  {
    hide Tracks, Spaced, Recent;
    TracksRecent(h, kept, t, window);
    TracksNew(h, Recent(kept, t - window), t, window);
    SpacedNew(h, Recent(kept, t - window), t, window, max);
  }

  // ----- Counting -----

  /** How many events lie in the half-open window (lo, hi]. */
  function CountIn(h: seq<Time>, lo: Time, hi: Time): nat {
    if h == [] then 0
    else
      var n := |h| - 1;
      CountIn(h[..n], lo, hi) + if lo < h[n] <= hi then 1 else 0
  }

  /** The stamps of the window (lo, hi] are those from index `p` up to `q`. */
  ghost predicate Between(h: seq<Time>, lo: Time, hi: Time, p: nat, q: nat) {
    && p <= q <= |h| && (forall i :: 0 <= i < p ==> h[i] <= lo)
    && (forall i :: p <= i < q ==> lo < h[i] <= hi) && (forall i :: q <= i < |h| ==> hi < h[i])
  }

  lemma {:induction false} CountBetween(h: seq<Time>, lo: Time, hi: Time, p: nat, q: nat)
    requires lo <= hi && Between(h, lo, hi, p, q)
    ensures CountIn(h, lo, hi) == q - p
  {
    if h != [] {
      var n := |h| - 1;
      var q' := if q == |h| && p < |h| then q - 1 else if q == |h| then n else q;
      var p' := if p == |h| then n else p;
      assert Between(h[..n], lo, hi, p', q');
      CountBetween(h[..n], lo, hi, p', q');
    }
  }

  /** How many stamps of a sorted history are at most `x`. */
  lemma {:induction false} UpTo(h: seq<Time>, x: Time) returns (p: nat)
    requires Sorted(h)
    ensures p <= |h| && (forall i :: 0 <= i < p ==> h[i] <= x) && (forall i :: p <= i < |h| ==> x < h[i])
  {
    if h == [] || h[|h| - 1] <= x {
      p := |h|;
    } else {
      p := UpTo(h[..|h| - 1], x);
    }
  }

  lemma Ordered(h: seq<Time>, lo: Time, hi: Time, p: nat, q: nat)
    requires lo <= hi && p <= |h| && q <= |h|
    requires (forall i :: 0 <= i < p ==> h[i] <= lo) && (forall i :: q <= i < |h| ==> hi < h[i])
    ensures p <= q
  {
    var next := if q < |h| then h[q] else hi + 1;
  }

  /** A well-spaced history has at most `max` events in any window (t - window, t]. */
  lemma SpacedCount(h: seq<Time>, max: nat, window: int, t: Time)
    requires Sorted(h) && Spaced(h, max, window) && 0 < window
    ensures CountIn(h, t - window, t) <= max
  {
    hide CountIn;
    var p := UpTo(h, t - window);
    var q := UpTo(h, t);
    Ordered(h, t - window, t, p, q);
    CountBetween(h, t - window, t, p, q);
    forall i | 0 <= i < q - max ensures h[i] <= t - window {
      assert h[i] + window <= h[i + max];
    }
    var first := if p < |h| then h[p] else t;
  }

  // ----- Windows with both ends -----

  /** The event at `i` is exactly a window before the one `max` places later, which is at `t`. */
  ghost predicate Overlap(h: seq<Time>, max: nat, window: int, t: Time, i: int) {
    0 <= i < |h| - max && h[i] == t - window && h[i + max] == t
  }

  /** A window [t - window, t] of a well-spaced history holds more than `max` events exactly when one
      event falls on its left end and the one `max` places later on its right end. */
  lemma ClosedCount(h: seq<Time>, max: nat, window: int, t: Time)
    requires Sorted(h) && Spaced(h, max, window) && 0 < window
    ensures CountIn(h, t - window - 1, t) > max <==> exists i :: Overlap(h, max, window, t, i)
  {
    hide CountIn;
    var p := UpTo(h, t - window - 1);
    var q := UpTo(h, t);
    Ordered(h, t - window - 1, t, p, q);
    CountBetween(h, t - window - 1, t, p, q);
    if q - p > max {
      assert h[p] + window <= h[p + max];
      assert Overlap(h, max, window, t, p);
    }
    if i :| Overlap(h, max, window, t, i) {
      assert p <= i && i + max < q;
    }
  }

  // ----- Waiting out a refusal -----

  /** The seconds announced with a refusal suffice: with no further event, fewer than `max` are recent
      after them, provided no more than `max` were kept. */
  lemma WaitingSuffices(kept: seq<Time>, now: Time, later: Time, window: int, max: nat)
    requires Sorted(kept) && 0 < max && |Recent(kept, now - window)| == max
    requires now + RetrySeconds(Recent(kept, now - window)[0] + window - now) * SECOND <= later
    ensures |Recent(kept, later - window)| < max
  {
    hide Recent, RetrySeconds;
    RecentIsSuffix(kept, now - window);
    RecentIsSuffix(kept, later - window);
    var p := |kept| - max;
    var first := Recent(kept, now - window)[0];
    assert first == kept[p];
    CeilSeconds(first + window - now);
    OldIsDropped(kept, Recent(kept, later - window), later - window, p);
  }

  lemma OldIsDropped(s: seq<Time>, r: seq<Time>, cutoff: Time, p: nat)
    requires Splits(s, r, cutoff) && p < |s| && s[p] <= cutoff
    ensures |r| < |s| - p
  {
    assert forall i :: |s| - |r| <= i < |s| ==> s[i] == r[i - (|s| - |r|)];
  }

  lemma CeilSeconds(retry: int)
    ensures retry <= RetrySeconds(retry) * SECOND
  {
  }
}
