/** A sliding-window rate limiter: per client address, the timestamps (in
    milliseconds) of the requests it admitted inside the current window. */
module RateLimiting {

  type Address = string
  type Timestamp = int
  type Requests = map<Address, seq<Timestamp>>

  /** Result of one rate-limit check: the verdict and the mapping it leaves. */
  datatype Outcome = Outcome(limited: bool, requests: Requests)

  /** The timestamps of `ts` that are still inside the window ending at `now`,
      that is, strictly less than `window` old, in their original order. */
  function Prune(ts: seq<Timestamp>, now: Timestamp, window: int): (r: seq<Timestamp>)
    ensures |r| <= |ts|
    ensures forall i :: 0 <= i < |r| ==> now - r[i] < window
    ensures forall t :: multiset(r)[t] == if now - t < window then multiset(ts)[t] else 0
  {
    if ts == [] then []
    else
      assert ts == [ts[0]] + ts[1..];
      if now - ts[0] < window then [ts[0]] + Prune(ts[1..], now, window)
      else Prune(ts[1..], now, window)
  }

  /** One isRateLimited call on the mapping `requests`: an unseen address gets
      a singleton list and is let through; a known address has its list
      pruned, and is refused when the pruned list already holds at least
      `threshold` entries, otherwise `now` is appended and it is let through. */
  function Step(requests: Requests, ip: Address, now: Timestamp, threshold: int, window: int): (o: Outcome)
    ensures o.requests.Keys == requests.Keys + {ip}
    ensures o.limited ==> ip in requests
    ensures |o.requests[ip]| <= (if ip in requests then |requests[ip]| else 0) + 1
  {
    if ip !in requests then Outcome(false, requests[ip := [now]])
    else
      var recent := Prune(requests[ip], now, window);
      if |recent| >= threshold then Outcome(true, requests[ip := recent])
      else Outcome(false, requests[ip := recent + [now]])
  }

  /** The verdicts of successive checks of one address at the given times. */
  function Run(requests: Requests, ip: Address, times: seq<Timestamp>, threshold: int, window: int): (r: seq<bool>)
    ensures |r| == |times|
    ensures |times| > 0 && ip !in requests ==> !r[0]
    decreases |times|
  {
    if times == [] then []
    else
      var o := Step(requests, ip, times[0], threshold, window);
      [o.limited] + Run(o.requests, ip, times[1..], threshold, window)
  }

  /** One call `isRateLimited(ip)` made at time `now`. */
  datatype Call = Call(ip: Address, now: Timestamp)

  /** The addresses a series of calls comes from. */
  function Addresses(calls: seq<Call>): set<Address> {
    if calls == [] then {} else {calls[0].ip} + Addresses(calls[1..])
  }

  /** The mapping left by a series of calls, from any addresses, in order:
      exactly the calling addresses are added. */
  function Replay(requests: Requests, calls: seq<Call>, threshold: int, window: int): (r: Requests)
    ensures r.Keys == requests.Keys + Addresses(calls)
    decreases |calls|
  {
    if calls == [] then requests
    else Replay(Step(requests, calls[0].ip, calls[0].now, threshold, window).requests, calls[1..], threshold, window)
  }

  predicate Sorted(s: seq<Timestamp>) {
    forall i, j :: 0 <= i < j < |s| ==> s[i] <= s[j]
  }

  function Max(a: int, b: int): int { if a < b then b else a }

  /** Every stored list is sorted and holds nothing later than `now`. */
  predicate SortedUpTo(requests: Requests, now: Timestamp) {
    forall a :: a in requests ==> Sorted(requests[a]) && forall i :: 0 <= i < |requests[a]| ==> requests[a][i] <= now
  }

  /** Every stored list has at most `bound` entries. */
  predicate Bounded(requests: Requests, bound: int) {
    forall a :: a in requests ==> |requests[a]| <= bound
  }

  class RateLimiter {
    var requests: Requests
    const threshold: int
    const timeWindow: int

    constructor (threshold: int := 100, timeWindow: int := 60000)
      ensures this.threshold == threshold && this.timeWindow == timeWindow
      ensures requests == map[]
    {
      this.threshold := threshold;
      this.timeWindow := timeWindow;
      requests := map[];
    }

    /** True when the request from `ip` at time `now` is over budget. */
    method IsRateLimited(ip: Address, now: Timestamp) returns (limited: bool)
      modifies this
      ensures Outcome(limited, requests) == Step(old(requests), ip, now, threshold, timeWindow)
    {
      if ip !in requests {
        requests := requests[ip := [now]];
        return false;
      }
      var recent := Prune(requests[ip], now, timeWindow);
      requests := requests[ip := recent];
      if |recent| >= threshold {
        return true;
      }
      requests := requests[ip := recent + [now]];
      return false;
    }
  }

  // ---------------------------------------------------------------------------
  // Properties of pruning

  /** Pruning filters element by element, so it distributes over concatenation:
      arrival order is kept. */
  lemma {:induction false} PruneConcat(a: seq<Timestamp>, b: seq<Timestamp>, now: Timestamp, window: int)
    ensures Prune(a + b, now, window) == Prune(a, now, window) + Prune(b, now, window)
  {
    if a == [] {
      assert a + b == b;
    } else {
      assert (a + b)[0] == a[0];
      assert (a + b)[1..] == a[1..] + b;
      PruneConcat(a[1..], b, now, window);
    }
  }

  /** Pruning a list that lies wholly inside the window changes nothing. */
  lemma {:induction false} PruneAllFresh(ts: seq<Timestamp>, now: Timestamp, window: int)
    requires forall i :: 0 <= i < |ts| ==> now - ts[i] < window
    ensures Prune(ts, now, window) == ts
  {
    if ts != [] {
      PruneAllFresh(ts[1..], now, window);
    }
  }

  /** Pruning a list that lies wholly outside the window empties it. */
  lemma {:induction false} PruneAllExpired(ts: seq<Timestamp>, now: Timestamp, window: int)
    requires forall i :: 0 <= i < |ts| ==> now - ts[i] >= window
    ensures Prune(ts, now, window) == []
  {
    if ts != [] {
      PruneAllExpired(ts[1..], now, window);
    }
  }

  /** Pruning keeps a sorted list sorted. */
  lemma {:induction false} PruneSorted(ts: seq<Timestamp>, now: Timestamp, window: int)
    requires Sorted(ts)
    ensures Sorted(Prune(ts, now, window))
  {
    if ts != [] {
      PruneSorted(ts[1..], now, window);
      var rest := Prune(ts[1..], now, window);
      forall i | 0 <= i < |rest| ensures ts[0] <= rest[i] {
        assert rest[i] in multiset(rest);
        assert rest[i] in ts[1..];
      }
    }
  }

  // ---------------------------------------------------------------------------
  // Properties of one check

  /** The first check of an address lets it through and stores exactly `[now]`. */
  lemma FirstCallAllowed(requests: Requests, ip: Address, now: Timestamp, threshold: int, window: int)
    requires ip !in requests
    ensures var o := Step(requests, ip, now, threshold, window);
      !o.limited && o.requests[ip] == [now] && o.requests.Keys == requests.Keys + {ip}
  {
  }

  /** For a known address: refused exactly when the pruned list holds at least
      `threshold` entries; a refused request leaves the pruned list, an admitted
      one leaves the pruned list followed by `now`. */
  lemma KnownCall(requests: Requests, ip: Address, now: Timestamp, threshold: int, window: int)
    requires ip in requests
    ensures var o := Step(requests, ip, now, threshold, window);
      var recent := Prune(requests[ip], now, window);
      (o.limited <==> |recent| >= threshold) &&
      (o.limited ==> o.requests[ip] == recent) &&
      (!o.limited ==> o.requests[ip] == recent + [now])
  {
  }

  /** After a check with a positive window, every timestamp stored for the
      checked address is strictly less than `window` old; a timestamp exactly
      `window` old has been dropped. */
  lemma StoredAreFresh(requests: Requests, ip: Address, now: Timestamp, threshold: int, window: int)
    requires window > 0
    ensures var o := Step(requests, ip, now, threshold, window);
      ip in o.requests &&
      (forall i :: 0 <= i < |o.requests[ip]| ==> now - o.requests[ip][i] < window) &&
      (ip in requests ==> forall t :: t in requests[ip] && now - t == window ==> t !in o.requests[ip])
  {
    var o := Step(requests, ip, now, threshold, window);
    if ip in requests {
      var recent := Prune(requests[ip], now, window);
      forall t | t in requests[ip] && now - t == window ensures t !in o.requests[ip] {
        assert multiset(recent)[t] == 0;
        assert t !in recent;
      }
    }
  }

  /** A check touches only the checked address: every other address keeps its
      presence and its list, and no address other than `ip` is added. */
  lemma OthersUnchanged(requests: Requests, ip: Address, now: Timestamp, threshold: int, window: int)
    ensures var o := Step(requests, ip, now, threshold, window);
      o.requests.Keys == requests.Keys + {ip} &&
      forall a :: a in requests && a != ip ==> o.requests[a] == requests[a]
  {
  }

  /** With non-decreasing times every stored list stays sorted: if all lists
      are sorted and none holds a time later than `now`, that still holds
      after a check at `now`, and for any later time too. */
  lemma {:induction false} StepKeepsSorted(requests: Requests, ip: Address, now: Timestamp, later: Timestamp, threshold: int, window: int)
    requires SortedUpTo(requests, now)
    requires now <= later
    ensures SortedUpTo(Step(requests, ip, now, threshold, window).requests, later)
  {
    var o := Step(requests, ip, now, threshold, window);
    if ip in requests {
      var before := requests[ip];
      var recent := Prune(before, now, window);
      PruneSorted(before, now, window);
      forall i | 0 <= i < |recent| ensures recent[i] <= now {
        assert recent[i] in multiset(recent);
        assert recent[i] in before;
      }
      var appended := recent + [now];
      assert Sorted(appended) by {
        forall i, j | 0 <= i < j < |appended| ensures appended[i] <= appended[j] {
          if j < |recent| {
            assert appended[i] == recent[i] && appended[j] == recent[j];
          }
        }
      }
    }
  }

  /** Each stored list has at most `max(threshold, 1)` entries, and a check
      keeps it so: refused requests are not recorded. */
  lemma StepKeepsBounded(requests: Requests, ip: Address, now: Timestamp, threshold: int, window: int)
    requires Bounded(requests, Max(threshold, 1))
    ensures Bounded(Step(requests, ip, now, threshold, window).requests, Max(threshold, 1))
  {
  }

  /** Once every recorded request of an address is at least `window` old, its
      next check is let through and its list restarts as `[now]`. */
  lemma WindowResets(requests: Requests, ip: Address, now: Timestamp, threshold: int, window: int)
    requires threshold >= 1
    requires ip in requests
    requires forall i :: 0 <= i < |requests[ip]| ==> now - requests[ip][i] >= window
    ensures var o := Step(requests, ip, now, threshold, window);
      !o.limited && o.requests[ip] == [now]
  {
    PruneAllExpired(requests[ip], now, window);
  }

  /** A mapping sorted up to one time is sorted up to any later time. */
  lemma SortedUpToLater(requests: Requests, now: Timestamp, later: Timestamp)
    requires SortedUpTo(requests, now) && now <= later
    ensures SortedUpTo(requests, later)
  {
  }

  /** Over a series of calls whose times never go backwards, all inside
      `[start, end]`, every stored list stays sorted and holds nothing later
      than `end`. */
  lemma {:induction false} ReplayKeepsSorted(requests: Requests, calls: seq<Call>, threshold: int, window: int, start: Timestamp, end: Timestamp)
    requires SortedUpTo(requests, start) && start <= end
    requires forall i :: 0 <= i < |calls| ==> start <= calls[i].now <= end
    requires forall i, j :: 0 <= i < j < |calls| ==> calls[i].now <= calls[j].now
    ensures SortedUpTo(Replay(requests, calls, threshold, window), end)
    decreases |calls|
  {
    if calls == [] {
      SortedUpToLater(requests, start, end);
    } else {
      var c := calls[0];
      SortedUpToLater(requests, start, c.now);
      StepKeepsSorted(requests, c.ip, c.now, c.now, threshold, window);
      var after := Step(requests, c.ip, c.now, threshold, window).requests;
      ReplayKeepsSorted(after, calls[1..], threshold, window, c.now, end);
    }
  }

  /** Over any series of calls every stored list keeps at most
      `max(threshold, 1)` entries. */
  lemma {:induction false} ReplayKeepsBounded(requests: Requests, calls: seq<Call>, threshold: int, window: int)
    requires Bounded(requests, Max(threshold, 1))
    ensures Bounded(Replay(requests, calls, threshold, window), Max(threshold, 1))
    decreases |calls|
  {
    if calls != [] {
      StepKeepsBounded(requests, calls[0].ip, calls[0].now, threshold, window);
      var after := Step(requests, calls[0].ip, calls[0].now, threshold, window).requests;
      ReplayKeepsBounded(after, calls[1..], threshold, window);
    }
  }

  // ---------------------------------------------------------------------------
  // Bursts inside one window

  predicate Within(ts: seq<Timestamp>, lo: Timestamp, hi: Timestamp) {
    forall i :: 0 <= i < |ts| ==> lo <= ts[i] <= hi
  }

  /** A burst from a known address holding `n` recent entries, all times
      inside one interval shorter than the window: the `i`-th check is refused
      exactly when `n + i` reaches `threshold`. */
  lemma {:induction false} BurstFrom(requests: Requests, ip: Address, times: seq<Timestamp>, threshold: int, window: int, lo: Timestamp, hi: Timestamp)
    requires ip in requests
    requires hi - lo < window
    requires Within(requests[ip], lo, hi) && Within(times, lo, hi)
    ensures forall i :: 0 <= i < |times| ==>
      Run(requests, ip, times, threshold, window)[i] == (|requests[ip]| + i >= threshold)
  {
    if times != [] {
      var n := |requests[ip]|;
      var o := Step(requests, ip, times[0], threshold, window);
      PruneAllFresh(requests[ip], times[0], window);
      var stored := o.requests[ip];
      assert Within(stored, lo, hi);
      assert Within(times[1..], lo, hi);
      BurstFrom(o.requests, ip, times[1..], threshold, window, lo, hi);
      var r := Run(requests, ip, times, threshold, window);
      forall i | 0 <= i < |times| ensures r[i] == (n + i >= threshold) {
        if i > 0 {
          assert r[i] == Run(o.requests, ip, times[1..], threshold, window)[i - 1];
        }
      }
    }
  }

  /** A burst from a new address, all times inside one interval shorter than
      the window: the first `threshold` checks are let through and every later
      one is refused. */
  lemma Burst(requests: Requests, ip: Address, times: seq<Timestamp>, threshold: int, window: int, lo: Timestamp, hi: Timestamp)
    requires ip !in requests
    requires threshold >= 1
    requires hi - lo < window
    requires Within(times, lo, hi)
    ensures forall i :: 0 <= i < |times| ==>
      Run(requests, ip, times, threshold, window)[i] == (i >= threshold)
  {
    if times != [] {
      var o := Step(requests, ip, times[0], threshold, window);
      assert Within(times[1..], lo, hi);
      BurstFrom(o.requests, ip, times[1..], threshold, window, lo, hi);
      var r := Run(requests, ip, times, threshold, window);
      var rest := Run(o.requests, ip, times[1..], threshold, window);
      assert |o.requests[ip]| == 1;
      assert r == [false] + rest;
      forall i | 0 <= i < |times| ensures r[i] == (i >= threshold) {
        if i > 0 {
          assert r[i] == rest[i - 1] == (1 + (i - 1) >= threshold);
        }
      }
    }
  }
}
