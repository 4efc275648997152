/** The in-memory sliding-window limiter. The code keeps, per key, only the hits it still needs, in
    an array it filters in place; the specification is over the full history of allowed hits. */
module RateLimiter {

  /** The hits after a cutoff, in order. */
  function Newer(hits: seq<int>, cutoff: int): (r: seq<int>)
    ensures |r| <= |hits|
  {
    if hits == [] then []
    else if hits[0] > cutoff then [hits[0]] + Newer(hits[1..], cutoff)
    else Newer(hits[1..], cutoff)
  }

  lemma {:induction false} NewerAppend(hits: seq<int>, h: int, cutoff: int)
    ensures Newer(hits + [h], cutoff) == Newer(hits, cutoff) + if h > cutoff then [h] else []
  {
    if hits != [] {
      assert (hits + [h])[1..] == hits[1..] + [h];
      NewerAppend(hits[1..], h, cutoff);
    }
  }

  predicate Sorted(hits: seq<int>) {
    forall i, j :: 0 <= i < j < |hits| ==> hits[i] <= hits[j]
  }

  /** Hits at least `limit` places apart are at least a window apart. */
  ghost predicate Spaced(hits: seq<int>, limit: int, window: int) {
    limit > 0 && forall i, j :: 0 <= i < j < |hits| && j - i >= limit ==> hits[j] - hits[i] >= window
  }

  lemma {:induction false} NewerTwice(hits: seq<int>, earlier: int, cutoff: int)
    requires earlier <= cutoff
    ensures Newer(Newer(hits, earlier), cutoff) == Newer(hits, cutoff)
  {
    if hits != [] {
      NewerTwice(hits[1..], earlier, cutoff);
      assert ([hits[0]] + Newer(hits[1..], earlier))[1..] == Newer(hits[1..], earlier);
    }
  }

  /** In a sorted history, how many hits are newer than a cutoff that falls before position k. */
  lemma {:induction false} NewerSuffix(hits: seq<int>, cutoff: int, k: nat)
    requires Sorted(hits) && k <= |hits|
    ensures (k < |hits| ==> hits[k] > cutoff) ==> |Newer(hits, cutoff)| >= |hits| - k
    ensures (k > 0 ==> hits[k - 1] <= cutoff) ==> |Newer(hits, cutoff)| <= |hits| - k
  {
    if hits != [] {
      NewerSuffix(hits[1..], cutoff, if k == 0 then 0 else k - 1);
    }
  }

  /** Allowing a hit when fewer than `limit` are newer than the window keeps the history spaced. */
  lemma AllowKeepsSpaced(hits: seq<int>, now: int, limit: int, window: int)
    requires Sorted(hits) && Spaced(hits, limit, window) && |Newer(hits, now - window)| < limit
    ensures Spaced(hits + [now], limit, window)
  {
    var all := hits + [now];
    forall i, j | 0 <= i < j < |all| && j - i >= limit ensures all[j] - all[i] >= window {
      if j == |hits| {
        NewerSuffix(hits, now - window, i);
      }
    }
  }

  function Indexes(hits: seq<int>, from: int, to: int): set<nat> {
    set i | 0 <= i < |hits| && from < hits[i] <= to
  }

  /** The number of hits in the half-open interval (from, to]. */
  function Within(hits: seq<int>, from: int, to: int): nat {
    |Indexes(hits, from, to)|
  }

  lemma WithinSplit(hits: seq<int>, from: int, to: int, k: nat)
    requires Sorted(hits) && k <= |hits| && (k < |hits| ==> hits[k] > to)
    ensures Within(hits, from, to) == Within(hits[..k], from, to)
  {
    assert Indexes(hits, from, to) == Indexes(hits[..k], from, to);
  }

  lemma {:induction false} WithinIsNewer(hits: seq<int>, from: int, to: int)
    requires forall i :: 0 <= i < |hits| ==> hits[i] <= to
    ensures Within(hits, from, to) == |Newer(hits, from)|
  {
    if hits == [] {
      assert Indexes(hits, from, to) == {};
    } else {
      var n := |hits| - 1;
      WithinIsNewer(hits[..n], from, to);
      NewerAppend(hits[..n], hits[n], from);
      assert hits == hits[..n] + [hits[n]];
      assert Indexes(hits, from, to) == Indexes(hits[..n], from, to) + if hits[n] > from then {n} else {};
    }
  }

  /** No interval of window length holds more than `limit` hits of a spaced history, wherever it lies. */
  lemma EveryWindowIsBounded(hits: seq<int>, limit: int, window: int, to: int)
    requires Sorted(hits) && Spaced(hits, limit, window)
    ensures Within(hits, to - window, to) <= limit
  {
    var k := FirstAfter(hits, to);
    WithinSplit(hits, to - window, to, k);
    var upto := hits[..k];
    WithinIsNewer(upto, to - window, to);
    if k > limit {
      assert hits[k - 1] - hits[k - 1 - limit] >= window;
      NewerSuffix(upto, to - window, k - limit);
    }
  }

  lemma FirstAfter(hits: seq<int>, to: int) returns (k: nat)
    requires Sorted(hits)
    ensures k <= |hits| && (k < |hits| ==> hits[k] > to) && forall i :: 0 <= i < k ==> hits[i] <= to
  {
    k := 0;
    while k < |hits| && hits[k] <= to
      invariant k <= |hits| && forall i :: 0 <= i < k ==> hits[i] <= to
    {
      k := k + 1;
    }
  }

  // ----- the limiter on values -----

  predicate Fits(stored: seq<int>, limit: int, window: int, now: int) {
    |Newer(stored, now - window)| < limit
  }

  /** What a call at `now` stores for its key, from what was stored. */
  function Kept(stored: seq<int>, limit: int, window: int, now: int): seq<int> {
    Newer(stored, now - window) + if Fits(stored, limit, window, now) then [now] else []
  }

  /** What is stored after the calls at the given times. */
  function StoredAfter(calls: seq<int>, limit: int, window: int): (r: seq<int>) {
    if calls == [] then [] else Kept(StoredAfter(calls[..|calls| - 1], limit, window), limit, window, calls[|calls| - 1])
  }

  /** The specification: every allowed hit is remembered, and a call is allowed if and only if fewer
      than `limit` of them lie in (now - window, now]. */
  predicate Admits(log: seq<int>, limit: int, window: int, now: int) {
    Within(log, now - window, now) < limit
  }

  function Logged(log: seq<int>, limit: int, window: int, now: int): seq<int> {
    if Admits(log, limit, window, now) then log + [now] else log
  }

  function LogAfter(calls: seq<int>, limit: int, window: int): (r: seq<int>) {
    if calls == [] then [] else Logged(LogAfter(calls[..|calls| - 1], limit, window), limit, window, calls[|calls| - 1])
  }

  ghost predicate History(log: seq<int>, limit: int, window: int, now: int) {
    Sorted(log) && Spaced(log, limit, window) && forall i :: 0 <= i < |log| ==> log[i] <= now
  }

  lemma HistoryStep(log: seq<int>, limit: int, window: int, now: int)
    requires History(log, limit, window, now) && window > 0
    ensures Admits(log, limit, window, now) <==> |Newer(log, now - window)| < limit
    ensures History(Logged(log, limit, window, now), limit, window, now)
  {
    WithinIsNewer(log, now - window, now);
    if Admits(log, limit, window, now) {
      AllowKeepsSpaced(log, now, limit, window);
    }
  }

  /** The stored history is the part of the full one after a cutoff no later than any coming window needs. */
  lemma SimulationStep(stored: seq<int>, log: seq<int>, cut: int, limit: int, window: int, now: int)
    requires stored == Newer(log, cut) && cut <= now - window && window > 0
    requires Admits(log, limit, window, now) <==> |Newer(log, now - window)| < limit
    ensures Admits(log, limit, window, now) <==> |Newer(stored, now - window)| < limit
    ensures Kept(stored, limit, window, now) == Newer(Logged(log, limit, window, now), now - window)
  {
    NewerTwice(log, cut, now - window);
    NewerAppend(log, now, now - window);
  }

  lemma {:induction false} LogIsHistory(calls: seq<int>, limit: int, window: int, now: int)
    requires Sorted(calls) && limit > 0 && window > 0 && forall i :: 0 <= i < |calls| ==> calls[i] <= now
    ensures History(LogAfter(calls, limit, window), limit, window, now)
  {
    if calls != [] {
      var n := |calls| - 1;
      LogIsHistory(calls[..n], limit, window, calls[n]);
      HistoryStep(LogAfter(calls[..n], limit, window), limit, window, calls[n]);
    }
  }

  lemma StoredStep(stored: seq<int>, log: seq<int>, cut: int, limit: int, window: int, now: int)
    requires History(log, limit, window, now) && window > 0 && stored == Newer(log, cut) && cut <= now - window
    ensures Kept(stored, limit, window, now) == Newer(Logged(log, limit, window, now), now - window)
  {
    HistoryStep(log, limit, window, now);
    SimulationStep(stored, log, cut, limit, window, now);
  }

  lemma {:induction false} StoredIsNewer(calls: seq<int>, limit: int, window: int)
    requires Sorted(calls) && calls != [] && limit > 0 && window > 0
    ensures StoredAfter(calls, limit, window) == Newer(LogAfter(calls, limit, window), calls[|calls| - 1] - window)
  {
    var n := |calls| - 1;
    var before, now := calls[..n], calls[n];
    LogIsHistory(before, limit, window, now);
    if n == 0 {
      StoredStep([], [], now - window, limit, window, now);
    } else {
      StoredIsNewer(before, limit, window);
      StoredStep(StoredAfter(before, limit, window), LogAfter(before, limit, window), calls[n - 1] - window, limit, window, now);
    }
  }

  lemma SortedPrefix(calls: seq<int>, now: int)
    requires Sorted(calls + [now])
    ensures Sorted(calls) && forall i :: 0 <= i < |calls| ==> calls[i] <= now
  {
    var all := calls + [now];
    forall i, j | 0 <= i < j < |calls| ensures calls[i] <= calls[j] {
      assert all[i] <= all[j];
    }
    forall i | 0 <= i < |calls| ensures calls[i] <= now {
      assert all[i] <= all[|calls|];
    }
  }

  lemma SameDecision(stored: seq<int>, log: seq<int>, cut: int, limit: int, window: int, now: int)
    requires stored == Newer(log, cut) && cut <= now - window && window > 0 && History(log, limit, window, now)
    ensures Fits(stored, limit, window, now) <==> Admits(log, limit, window, now)
  {
    HistoryStep(log, limit, window, now);
    NewerTwice(log, cut, now - window);
  }

  /** Pruning loses nothing: for any calls whose clock does not go back, the pruned history decides
      the next one as the full history does. */
  lemma PruningRefinesFullHistory(calls: seq<int>, limit: int, window: int, now: int)
    requires Sorted(calls + [now]) && limit > 0 && window > 0
    ensures Fits(StoredAfter(calls, limit, window), limit, window, now) <==> Admits(LogAfter(calls, limit, window), limit, window, now)
  {
    SortedPrefix(calls, now);
    LogIsHistory(calls, limit, window, now);
    if calls == [] {
      SameDecision([], [], now - window, limit, window, now);
    } else {
      StoredIsNewer(calls, limit, window);
      SameDecision(StoredAfter(calls, limit, window), LogAfter(calls, limit, window), calls[|calls| - 1] - window, limit, window, now);
    }
  }

  /** The hits the limiter has allowed. */
  function AllowedAfter(calls: seq<int>, limit: int, window: int): (r: seq<int>) {
    if calls == [] then []
    else
      var n := |calls| - 1;
      var front := AllowedAfter(calls[..n], limit, window);
      if Fits(StoredAfter(calls[..n], limit, window), limit, window, calls[n]) then front + [calls[n]] else front
  }

  /** They are those the specification allows. */
  lemma {:induction false} AllowedIsLogged(calls: seq<int>, limit: int, window: int)
    requires Sorted(calls) && limit > 0 && window > 0
    ensures AllowedAfter(calls, limit, window) == LogAfter(calls, limit, window)
  {
    if calls != [] {
      var n := |calls| - 1;
      assert calls[..n] + [calls[n]] == calls;
      AllowedIsLogged(calls[..n], limit, window);
      PruningRefinesFullHistory(calls[..n], limit, window, calls[n]);
    }
  }

  /** Hence every interval of window length, wherever it lies, holds at most `limit` allowed hits. */
  lemma EveryWindowHolds(calls: seq<int>, limit: int, window: int, to: int)
    requires Sorted(calls) && limit > 0 && window > 0
    ensures Within(AllowedAfter(calls, limit, window), to - window, to) <= limit
  {
    AllowedIsLogged(calls, limit, window);
    if calls == [] {
      assert Indexes([], to - window, to) == {};
    } else {
      LogIsHistory(calls, limit, window, calls[|calls| - 1]);
      EveryWindowIsBounded(LogAfter(calls, limit, window), limit, window, to);
    }
  }

  /** No more than `limit` hits are ever stored, even when the clock does go back. */
  lemma {:induction false} StorageIsBounded(calls: seq<int>, limit: int, window: int)
    requires limit > 0
    ensures |StoredAfter(calls, limit, window)| <= limit
  {
    if calls != [] {
      var n := |calls| - 1;
      StorageIsBounded(calls[..n], limit, window);
    }
  }

  /** With a clock that goes back the refinement fails: after calls at 0, 1 and 100 a call at 5 is
      allowed although two hits, the limit, lie in its window. */
  lemma ClockMustNotGoBack()
    ensures Fits(StoredAfter([0, 1, 100], 2, 10), 2, 10, 5)
    ensures !Admits(LogAfter([0, 1, 100], 2, 10), 2, 10, 5)
  {
    PrunedExample();
    LoggedExample();
    assert Indexes([0, 1, 100], -5, 5) == {0, 1};
  }

  lemma PrunedExample()
    ensures StoredAfter([0, 1, 100], 2, 10) == [100]
  {
    assert [0, 1, 100][..2] == [0, 1] && [0, 1][..1] == [0] && [0][..0] == [];
    assert StoredAfter([0], 2, 10) == [0];
    assert StoredAfter([0, 1], 2, 10) == [0, 1];
    assert Newer([0, 1], 90) == [] by {
      assert [0, 1][1..] == [1];
    }
  }

  lemma LoggedExample()
    ensures LogAfter([0, 1, 100], 2, 10) == [0, 1, 100]
  {
    assert [0, 1, 100][..2] == [0, 1] && [0, 1][..1] == [0] && [0][..0] == [];
    assert Indexes([], -10, 0) == {};
    assert LogAfter([0], 2, 10) == [0];
    assert Indexes([0], -9, 1) == {0};
    assert LogAfter([0, 1], 2, 10) == [0, 1];
    assert Indexes([0, 1], 90, 100) == {};
  }

  /** The pruned history decides call n as the full one does. */
  predicate DecidesAlike(calls: seq<int>, limit: int, window: int, n: nat)
    requires n < |calls|
  {
    Fits(StoredAfter(calls[..n], limit, window), limit, window, calls[n])
    <==> Admits(LogAfter(calls[..n], limit, window), limit, window, calls[n])
  }

  ghost predicate AlwaysAlike(calls: seq<int>) {
    forall limit, window, n: nat :: limit > 0 && window > 0 && n < |calls| ==> DecidesAlike(calls, limit, window, n)
  }

  /** A window that holds all calls, whichever of them it ends at. */
  predicate HoldsAll(calls: seq<int>, window: int) {
    forall i, j :: 0 <= i < |calls| && 0 <= j < |calls| ==> calls[j] - calls[i] < window
  }

  lemma {:induction false} SomeWindowHoldsAll(calls: seq<int>) returns (window: int)
    ensures window > 0 && HoldsAll(calls, window)
  {
    window := 1;
    if calls != [] {
      var n := |calls| - 1;
      var before := SomeWindowHoldsAll(calls[..n]);
      var a := if n > 0 && calls[n] - calls[0] > 0 then calls[n] - calls[0] else 0;
      var b := if n > 0 && calls[0] - calls[n] > 0 then calls[0] - calls[n] else 0;
      window := before + a + b + 1;
      forall i, j | 0 <= i < |calls| && 0 <= j < |calls| ensures calls[j] - calls[i] < window {
        assert 0 < n && i < n ==> calls[..n][i] - calls[..n][0] < before && calls[..n][0] - calls[..n][i] < before;
        assert 0 < n && j < n ==> calls[..n][j] - calls[..n][0] < before && calls[..n][0] - calls[..n][j] < before;
        assert i < n && j < n ==> calls[..n][j] - calls[..n][i] < before;
      }
    }
  }

  lemma {:induction false} NewerOfAll(hits: seq<int>, cutoff: int)
    requires forall i :: 0 <= i < |hits| ==> hits[i] > cutoff
    ensures Newer(hits, cutoff) == hits
  {
    if hits != [] {
      NewerOfAll(hits[1..], cutoff);
    }
  }

  lemma CallAllowed(hits: seq<int>, limit: int, window: int, now: int)
    requires |hits| < limit && forall i :: 0 <= i < |hits| ==> hits[i] > now - window
    ensures Kept(hits, limit, window, now) == hits + [now] && Logged(hits, limit, window, now) == hits + [now]
  {
    NewerOfAll(hits, now - window);
    WithinAtMost(hits, now - window, now);
  }

  /** Within such a window the first `limit` calls are all allowed and all stored. */
  lemma {:induction false} FirstCallsAllowed(calls: seq<int>, limit: int, window: int, n: nat)
    requires n <= |calls| && n <= limit && HoldsAll(calls, window)
    ensures StoredAfter(calls[..n], limit, window) == calls[..n] && LogAfter(calls[..n], limit, window) == calls[..n]
  {
    if n > 0 {
      var k := n - 1;
      FirstCallsAllowed(calls, limit, window, k);
      var now, first := calls[k], calls[..n];
      assert first[..k] == calls[..k] && first[k] == now && first == calls[..k] + [now];
      CallAllowed(calls[..k], limit, window, now);
    }
  }

  lemma IndexesOfPrefix(hits: seq<int>, from: int, to: int)
    requires hits != []
    ensures var n := |hits| - 1;
            Within(hits, from, to) == Within(hits[..n], from, to) + if from < hits[n] <= to then 1 else 0
  {
    var n := |hits| - 1;
    var front := Indexes(hits[..n], from, to);
    assert n !in front;
    assert Indexes(hits, from, to) == if from < hits[n] <= to then front + {n} else front;
  }

  lemma {:induction false} WithinAtMost(hits: seq<int>, from: int, to: int)
    ensures Within(hits, from, to) <= |hits|
  {
    if hits == [] {
      assert Indexes(hits, from, to) == {};
    } else {
      IndexesOfPrefix(hits, from, to);
      WithinAtMost(hits[..|hits| - 1], from, to);
    }
  }

  lemma {:induction false} WithinMisses(hits: seq<int>, from: int, to: int, k: nat)
    requires k < |hits| && hits[k] > to
    ensures Within(hits, from, to) < |hits|
  {
    var n := |hits| - 1;
    IndexesOfPrefix(hits, from, to);
    if k == n {
      WithinAtMost(hits[..n], from, to);
    } else {
      WithinMisses(hits[..n], from, to, k);
    }
  }

  /** After a call that lies before an earlier one, some limit and window tell the two apart. */
  lemma ClockBackDiffers(calls: seq<int>, i: nat, j: nat) returns (window: int)
    requires i < j < |calls| && calls[i] > calls[j]
    ensures window > 0 && !DecidesAlike(calls, j, window, j)
  {
    window := SomeWindowHoldsAll(calls);
    FirstCallsAllowed(calls, j, window, j);
    NewerOfAll(calls[..j], calls[j] - window);
    WithinMisses(calls[..j], calls[j] - window, calls[j], i);
  }

  lemma SortedDecidesAlike(calls: seq<int>, limit: int, window: int, n: nat)
    requires Sorted(calls) && limit > 0 && window > 0 && n < |calls|
    ensures DecidesAlike(calls, limit, window, n)
  {
    assert calls[..n] + [calls[n]] == calls[..n + 1];
    PruningRefinesFullHistory(calls[..n], limit, window, calls[n]);
  }

  /** The pruned history decides every call as the full one does, for every limit and window, if and
      only if the clock does not go back. */
  lemma AlwaysAlikeIff(calls: seq<int>)
    ensures AlwaysAlike(calls) <==> Sorted(calls)
  {
    if Sorted(calls) {
      forall limit, window, n: nat | limit > 0 && window > 0 && n < |calls| ensures DecidesAlike(calls, limit, window, n) {
        SortedDecidesAlike(calls, limit, window, n);
      }
    } else {
      var i, j :| 0 <= i < j < |calls| && calls[i] > calls[j];
      var window := ClockBackDiffers(calls, i, j);
    }
  }

  // ----- many keys -----

  type Store = map<string, seq<int>>

  function Get(store: Store, key: string): seq<int> {
    if key in store then store[key] else []
  }

  predicate Active(key: string, limit: int, window: int) {
    key != "" && limit > 0 && window > 0
  }

  /** The store after a call; unlimited calls are not recorded. */
  function AfterCall(store: Store, key: string, now: int, limit: int, window: int): Store {
    if Active(key, limit, window) then store[key := Kept(Get(store, key), limit, window, now)] else store
  }

  function StoreAfter(calls: seq<(string, int)>, limit: int, window: int): (r: Store) {
    if calls == [] then map[]
    else
      var n := |calls| - 1;
      AfterCall(StoreAfter(calls[..n], limit, window), calls[n].0, calls[n].1, limit, window)
  }

  function Times(calls: seq<(string, int)>, key: string): (r: seq<int>) {
    if calls == [] then []
    else
      var n := |calls| - 1;
      Times(calls[..n], key) + if calls[n].0 == key then [calls[n].1] else []
  }

  /** Keys do not interact: what is stored for a key depends on the calls with that key only. */
  lemma {:induction false} KeysDoNotInteract(calls: seq<(string, int)>, key: string, limit: int, window: int)
    requires Active(key, limit, window)
    ensures Get(StoreAfter(calls, limit, window), key) == StoredAfter(Times(calls, key), limit, window)
  {
    if calls != [] {
      var n := |calls| - 1;
      KeysDoNotInteract(calls[..n], key, limit, window);
      var before, times := Times(calls[..n], key), Times(calls, key);
      if calls[n].0 == key {
        assert times[..|times| - 1] == before;
      } else {
        assert times == before;
      }
    }
  }

  /** Over any run of calls on any keys, a call whose key's clock has not gone back is allowed if and
      only if fewer than `limit` allowed hits of that key lie in (now - window, now]. */
  lemma LimiterRefinesSlidingWindow(calls: seq<(string, int)>, key: string, now: int, limit: int, window: int)
    requires Active(key, limit, window) && Sorted(Times(calls, key) + [now])
    ensures Fits(Get(StoreAfter(calls, limit, window), key), limit, window, now)
            <==> Admits(LogAfter(Times(calls, key), limit, window), limit, window, now)
  {
    KeysDoNotInteract(calls, key, limit, window);
    PruningRefinesFullHistory(Times(calls, key), limit, window, now);
  }

  /** The hits of a key allowed in a run of calls on any keys. */
  function AllowedHits(calls: seq<(string, int)>, key: string, limit: int, window: int): (r: seq<int>) {
    if calls == [] then []
    else
      var n := |calls| - 1;
      var front := AllowedHits(calls[..n], key, limit, window);
      if calls[n].0 == key && Fits(Get(StoreAfter(calls[..n], limit, window), key), limit, window, calls[n].1)
      then front + [calls[n].1] else front
  }

  lemma {:induction false} AllowedHitsAreAllowed(calls: seq<(string, int)>, key: string, limit: int, window: int)
    requires Active(key, limit, window)
    ensures AllowedHits(calls, key, limit, window) == AllowedAfter(Times(calls, key), limit, window)
  {
    if calls != [] {
      var n := |calls| - 1;
      AllowedHitsAreAllowed(calls[..n], key, limit, window);
      KeysDoNotInteract(calls[..n], key, limit, window);
      var before, times := Times(calls[..n], key), Times(calls, key);
      if calls[n].0 == key {
        assert times[..|times| - 1] == before;
      } else {
        assert times == before;
      }
    }
  }

  /** Over any run of calls on any keys, every interval of window length holds at most `limit` hits
      allowed for a key whose clock does not go back. */
  lemma EveryWindowHoldsPerKey(calls: seq<(string, int)>, key: string, limit: int, window: int, to: int)
    requires Active(key, limit, window) && Sorted(Times(calls, key))
    ensures Within(AllowedHits(calls, key, limit, window), to - window, to) <= limit
  {
    AllowedHitsAreAllowed(calls, key, limit, window);
    EveryWindowHolds(Times(calls, key), limit, window, to);
  }

  // ----- the limiter on the heap -----

  class Limiter {
    const limit: int
    const window: int
    var history: map<string, array<int>>

    /** Keys have arrays of their own. */
    ghost predicate Valid()
      reads this
    {
      forall j, k :: j in history && k in history && j != k ==> history[j] != history[k]
    }

    ghost function Contents(): Store
      reads this, history.Values
    {
      map k | k in history :: history[k][..]
    }

    constructor (limit: int, window: int)
      ensures Valid() && this.limit == limit && this.window == window && Contents() == map[]
    {
      this.limit, this.window := limit, window;
      history := map[];
    }

    /** `current[:0]` reused as the target: keeps the newer hits at the front of the same array. */
    static method FilterInPlace(current: array<int>, cutoff: int) returns (n: nat)
      modifies current
      ensures n <= current.Length && current[..n] == Newer(old(current[..]), cutoff)
    {
      n := 0;
      ghost var before := current[..];
      for i := 0 to current.Length
        invariant n <= i
        invariant current[..n] == Newer(before[..i], cutoff)
        invariant forall k :: i <= k < current.Length ==> current[k] == before[k]
      {
        assert before[..i + 1] == before[..i] + [before[i]];
        NewerAppend(before[..i], before[i], cutoff);
        if current[i] > cutoff {
          current[n] := current[i];
          n := n + 1;
        }
      }
      assert before[..current.Length] == before;
    }

    /** The key's stored hits after the cutoff; other keys' arrays are left alone. */
    method Filtered(key: string, cutoff: int) returns (filtered: seq<int>)
      requires Valid()
      modifies history.Values
      ensures filtered == Newer(Get(old(Contents()), key), cutoff)
      ensures Contents() - {key} == old(Contents()) - {key}
    {
      if key !in history { return []; }
      var current := history[key];
      var n := FilterInPlace(current, cutoff);
      return current[..n];
    }

    /** Stores a copy, so the filtered array is shared with nobody. */
    method Put(key: string, filtered: seq<int>)
      requires Valid()
      modifies this`history
      ensures Valid() && Contents() == old(Contents())[key := filtered]
    {
      var copy := new int[|filtered|](i requires 0 <= i < |filtered| => filtered[i]);
      assert copy[..] == filtered;
      history := history[key := copy];
    }

    method Allow(key: string, now: int) returns (ok: bool)
      requires Valid()
      modifies this, history.Values
      ensures Valid()
      ensures ok <==> !Active(key, limit, window) || Fits(Get(old(Contents()), key), limit, window, now)
      ensures Contents() == AfterCall(old(Contents()), key, now, limit, window)
    {
      if key == "" || limit <= 0 || window <= 0 { return true; }
      ghost var before := Contents();
      var filtered := Filtered(key, now - window);
      ghost var between := Contents();
      ok := |filtered| < limit;
      if ok {
        filtered := filtered + [now];
      }
      assert filtered == Kept(Get(before, key), limit, window, now);
      Put(key, filtered);
      SameElsewhere(before, between, key, filtered);
    }
  }

  lemma SameElsewhere(a: Store, b: Store, key: string, v: seq<int>)
    requires a - {key} == b - {key}
    ensures a[key := v] == b[key := v]
  {
    forall k | k in a || k in b ensures k == key || (k in a && k in b && a[k] == b[k]) {
      assert k != key ==> (k in a - {key} <==> k in b - {key});
    }
  }
}
