/**
 The fixed-window rate limiter: a Redis counter per key that expires `window` seconds after its first
 increment, and the check against the limit.
 */
module RateLimit {
  import opened Common

  /** The stored counter and the time at which Redis drops it. */
  datatype Counter = Counter(count: nat, expiresAt: int)

  /** INCR, and EXPIRE when the counter was just created. */
  function Increment(c: Option<Counter>, window: nat, now: int): Counter {
    if c.None? || c.value.expiresAt <= now then Counter(1, now + window) else c.value.(count := c.value.count + 1)
  }

  // ----- One key over a whole trace -----

  predicate Ordered(times: seq<int>) {
    forall i, j :: 0 <= i < j < |times| ==> times[i] <= times[j]
  }

  /** The counter after a trace of requests. */
  function After(times: seq<int>, window: nat): Option<Counter> {
    if times == [] then None
    else Some(Increment(After(times[..|times| - 1], window), window, times[|times| - 1]))
  }

  lemma AfterAppend(times: seq<int>, window: nat, now: int)
    ensures After(times + [now], window) == Some(Increment(After(times, window), window, now))
  {
    assert (times + [now])[..|times|] == times;
  }

  /** Whether request `i` of the trace is let through. */
  predicate Allowed(times: seq<int>, window: nat, limit: nat, i: nat)
    requires i < |times|
  {
    After(times[..i + 1], window).value.count <= limit
  }

  /** When the window that request `i` falls into ends. */
  function WindowEnd(times: seq<int>, window: nat, i: nat): int
    requires i < |times|
  {
    After(times[..i + 1], window).value.expiresAt
  }

  /** How many requests in [from, upto) of the trace are let through. */
  function AllowedCount(times: seq<int>, window: nat, limit: nat, from: nat, upto: nat): nat
    requires from <= upto <= |times|
    decreases upto - from
  {
    if from == upto then 0
    else AllowedCount(times, window, limit, from, upto - 1) + (if Allowed(times, window, limit, upto - 1) then 1 else 0)
  }

  function CountAt(times: seq<int>, window: nat, i: nat): nat
    requires i < |times|
  {
    After(times[..i + 1], window).value.count
  }

  /** Request i + 1 stays in the window of request i, with the next count, exactly when it comes before
      that window ends; otherwise it opens a window of its own with count 1. */
  lemma NextRequest(times: seq<int>, window: nat, i: nat)
    requires i + 1 < |times|
    ensures if times[i + 1] < WindowEnd(times, window, i)
            then WindowEnd(times, window, i + 1) == WindowEnd(times, window, i)
                 && CountAt(times, window, i + 1) == CountAt(times, window, i) + 1
            else WindowEnd(times, window, i + 1) == times[i + 1] + window && CountAt(times, window, i + 1) == 1
  {
    var upto := times[..i + 2];
    assert upto[..|upto| - 1] == times[..i + 1] && upto[|upto| - 1] == times[i + 1];
    assert After(upto, window) == Some(Increment(After(times[..i + 1], window), window, times[i + 1]));
  }

  lemma FirstRequest(times: seq<int>, window: nat)
    requires times != []
    ensures WindowEnd(times, window, 0) == times[0] + window && CountAt(times, window, 0) == 1
  {
    var one := times[..1];
    assert one[..|one| - 1] == [] && one[|one| - 1] == times[0];
    assert After(one, window) == Some(Increment(None, window, times[0]));
  }

  /** A request lies in its own window, which is `window` seconds long and started no later. */
  lemma {:induction false} InOwnWindow(times: seq<int>, window: nat, i: nat)
    requires window > 0 && Ordered(times) && i < |times|
    ensures times[i] < WindowEnd(times, window, i) <= times[i] + window
    ensures CountAt(times, window, i) >= 1
  {
    if i == 0 {
      FirstRequest(times, window);
    } else {
      InOwnWindow(times, window, i - 1);
      NextRequest(times, window, i - 1);
    }
  }

  /** Windows end later and later. */
  lemma {:induction false} WindowsAdvance(times: seq<int>, window: nat, i: nat, j: nat)
    requires window > 0 && Ordered(times) && i <= j < |times|
    ensures WindowEnd(times, window, i) <= WindowEnd(times, window, j)
    ensures times[j] >= WindowEnd(times, window, i) ==>
      WindowEnd(times, window, j) >= WindowEnd(times, window, i) + window
    ensures times[j] < WindowEnd(times, window, i) ==>
      && WindowEnd(times, window, j) == WindowEnd(times, window, i)
      && CountAt(times, window, j) == CountAt(times, window, i) + (j - i)
    decreases j
  {
    if i < j {
      WindowsAdvance(times, window, i, j - 1);
      NextRequest(times, window, j - 1);
      InOwnWindow(times, window, j - 1);
    }
  }

  /** Requests [from, upto) that all lie in one window are let through at most `limit` times. */
  lemma {:induction false} OneWindowBound(times: seq<int>, window: nat, limit: nat, from: nat, upto: nat)
    requires window > 0 && Ordered(times) && from < upto <= |times|
    requires times[upto - 1] < WindowEnd(times, window, from)
    ensures AllowedCount(times, window, limit, from, upto) <= limit
    ensures AllowedCount(times, window, limit, from, upto) <= upto - from
    decreases upto - from
  {
    WindowsAdvance(times, window, from, upto - 1);
    InOwnWindow(times, window, from);
    if from + 1 < upto {
      assert times[upto - 2] <= times[upto - 1];
      OneWindowBound(times, window, limit, from, upto - 1);
    }
  }

  lemma {:induction false} CountSplits(times: seq<int>, window: nat, limit: nat, from: nat, mid: nat, upto: nat)
    requires from <= mid <= upto <= |times|
    ensures AllowedCount(times, window, limit, from, upto)
         == AllowedCount(times, window, limit, from, mid) + AllowedCount(times, window, limit, mid, upto)
    decreases upto - mid
  {
    if mid < upto { CountSplits(times, window, limit, from, mid, upto - 1); }
  }

  /** The first request of [from, upto) that does not fall into the window of request `from`. */
  function WindowBreak(times: seq<int>, window: nat, from: nat, upto: nat): (k: nat)
    requires from < upto <= |times|
    ensures from <= k <= upto
    decreases upto - from
  {
    if times[upto - 1] < WindowEnd(times, window, from) then upto
    else if from + 1 == upto then from
    else WindowBreak(times, window, from, upto - 1)
  }

  lemma {:induction false} WindowBreakSplits(times: seq<int>, window: nat, from: nat, upto: nat)
    requires window > 0 && Ordered(times) && from < upto <= |times|
    ensures var k := WindowBreak(times, window, from, upto);
      && from < k
      && times[k - 1] < WindowEnd(times, window, from)
      && (k < upto ==> times[k] >= WindowEnd(times, window, from))
    decreases upto - from
  {
    InOwnWindow(times, window, from);
    if times[upto - 1] >= WindowEnd(times, window, from) && from + 1 < upto {
      WindowBreakSplits(times, window, from, upto - 1);
    }
  }

  /** Each fixed window lets at most `limit` requests through: any run of requests up to the end of the
      window that its first request falls into. */
  lemma FixedWindowBound(times: seq<int>, window: nat, limit: nat, from: nat)
    requires window > 0 && Ordered(times) && from < |times|
    ensures var k := WindowBreak(times, window, from, |times|);
      AllowedCount(times, window, limit, from, k) <= limit
  {
    WindowBreakSplits(times, window, from, |times|);
    OneWindowBound(times, window, limit, from, WindowBreak(times, window, from, |times|));
  }

  /** Any requests within `window` seconds of each other, wherever that interval starts, are let
      through at most twice the limit. */
  lemma SlidingWindowBound(times: seq<int>, window: nat, limit: nat, from: nat, upto: nat)
    requires window > 0 && Ordered(times) && from < upto <= |times|
    requires times[upto - 1] - times[from] <= window
    ensures AllowedCount(times, window, limit, from, upto) <= 2 * limit
  {
    var k := WindowBreak(times, window, from, upto);
    WindowBreakSplits(times, window, from, upto);
    OneWindowBound(times, window, limit, from, k);
    CountSplits(times, window, limit, from, k, upto);
    if k < upto {
      InOwnWindow(times, window, from);
      WindowsAdvance(times, window, from, k);
      assert times[upto - 1] < WindowEnd(times, window, k);
      OneWindowBound(times, window, limit, k, upto);
    }
  }

  /** Less than a window apart, they are let through at most once less than twice the limit: the first
      of them is not the first of its window, or all of them are in one window. */
  lemma HalfOpenWindowBound(times: seq<int>, window: nat, limit: nat, from: nat, upto: nat)
    requires window > 0 && limit > 0 && Ordered(times) && from < upto <= |times|
    requires times[upto - 1] - times[from] < window
    ensures AllowedCount(times, window, limit, from, upto) <= 2 * limit - 1
  {
    var k := WindowBreak(times, window, from, upto);
    WindowBreakSplits(times, window, from, upto);
    CountSplits(times, window, limit, from, k, upto);
    if k < upto {
      InOwnWindow(times, window, from);
      WindowsAdvance(times, window, from, k);
      OneWindowBound(times, window, limit, k, upto);
      NotFirstInWindow(times, window, limit, from, k);
    } else {
      OneWindowBound(times, window, limit, from, upto);
    }
  }

  /** A request whose window ends less than a window later is not the first of its window, so one slot
      is already taken. */
  lemma {:induction false} NotFirstInWindow(times: seq<int>, window: nat, limit: nat, from: nat, upto: nat)
    requires window > 0 && limit > 0 && Ordered(times) && from < upto <= |times|
    requires times[upto - 1] < WindowEnd(times, window, from) < times[from] + window
    ensures AllowedCount(times, window, limit, from, upto) <= limit - 1
    decreases upto - from
  {
    LateInWindow(times, window, from);
    WindowsAdvance(times, window, from, upto - 1);
    if from + 1 < upto {
      assert times[upto - 2] <= times[upto - 1];
      NotFirstInWindow(times, window, limit, from, upto - 1);
      OneWindowBound(times, window, limit, from, upto);
    }
  }

  lemma LateInWindow(times: seq<int>, window: nat, i: nat)
    requires window > 0 && Ordered(times) && i < |times| && WindowEnd(times, window, i) < times[i] + window
    ensures CountAt(times, window, i) >= 2
  {
    if i == 0 {
      FirstRequest(times, window);
    } else {
      InOwnWindow(times, window, i - 1);
      NextRequest(times, window, i - 1);
    }
  }

  // ----- Both bounds are reached -----

  /** One request at 0, the rest of the first window's at `late`, and a second window's worth at the
      moment the first window ends. */
  function Burst(limit: nat, window: nat, late: nat): (times: seq<int>)
    ensures |times| == 2 * limit
  {
    seq(2 * limit, i => if i == 0 then 0 else if i < limit then late else window)
  }

  lemma {:induction false} BurstCounts(limit: nat, window: nat, late: nat, i: nat)
    requires late < window && i < 2 * limit
    ensures var times := Burst(limit, window, late);
      && WindowEnd(times, window, i) == (if i < limit then window else 2 * window)
      && CountAt(times, window, i) == (if i < limit then i + 1 else i + 1 - limit)
  {
    var times := Burst(limit, window, late);
    if i == 0 {
      FirstRequest(times, window);
    } else {
      BurstCounts(limit, window, late, i - 1);
      NextRequest(times, window, i - 1);
    }
  }

  lemma {:induction false} BurstAllowed(limit: nat, window: nat, late: nat, from: nat, upto: nat)
    requires late < window && from <= upto <= 2 * limit
    ensures AllowedCount(Burst(limit, window, late), window, limit, from, upto) == upto - from
    decreases upto - from
  {
    if from < upto {
      BurstCounts(limit, window, late, upto - 1);
      BurstAllowed(limit, window, late, from, upto - 1);
    }
  }

  /** For every limit and window there are requests a window apart of which twice the limit get through. */
  lemma SlidingWindowBoundIsReached(limit: nat, window: nat)
    requires window > 0 && limit > 0
    ensures var times := Burst(limit, window, 0);
      && Ordered(times) && times[2 * limit - 1] - times[0] <= window
      && AllowedCount(times, window, limit, 0, 2 * limit) == 2 * limit
  {
    BurstAllowed(limit, window, 0, 0, 2 * limit);
  }

  /** And for every window of at least two seconds there are requests one second apart of which one less
      than twice the limit get through. */
  lemma HalfOpenWindowBoundIsReached(limit: nat, window: nat)
    requires window > 1 && limit > 0
    ensures var times := Burst(limit, window, window - 1);
      && Ordered(times) && times[2 * limit - 1] - times[1] < window
      && AllowedCount(times, window, limit, 1, 2 * limit) == 2 * limit - 1
  {
    BurstAllowed(limit, window, window - 1, 1, 2 * limit);
  }

  // ----- The limiter over all keys -----

  class Limiter {
    const maxAttempts: nat
    const window: nat
    var counters: map<string, Counter>
    ghost var requests: map<string, seq<int>>     // the times of all requests so far, by key

    /** Every stored counter is what its key's own requests made of it. */
    ghost predicate Valid()
      reads this
    {
      && counters.Keys == requests.Keys
      && forall key :: key in counters ==> Some(counters[key]) == After(requests[key], window)
    }

    constructor (maxAttempts: nat, window: nat)
      ensures this.maxAttempts == maxAttempts && this.window == window && Valid() && requests == map[]
    {
      this.maxAttempts, this.window, counters, requests := maxAttempts, window, map[], map[];
    }

    ghost function Requests(key: string): seq<int>
      reads this
    {
      if key in requests then requests[key] else []
    }

    /** The request is refused once the count passes the limit; the count goes up either way. The
        answer depends on the requests made with the same key and on no others. */
    method Enforce(key: string, now: int) returns (allowed: bool)
      requires Valid()
      modifies this
      ensures Valid() && requests == old(requests)[key := old(Requests(key)) + [now]]
      ensures allowed == Allowed(Requests(key), window, maxAttempts, |Requests(key)| - 1)
    {
      AfterAppend(Requests(key), window, now);
      var current: nat, expiry: int := 0, now + window;
      if key in counters && now < counters[key].expiresAt {
        current, expiry := counters[key].count, counters[key].expiresAt;
      }
      current := current + 1;
      counters := counters[key := Counter(current, expiry)];
      requests := requests[key := Requests(key) + [now]];
      allowed := current <= maxAttempts;
      assert requests[key][..|requests[key]|] == requests[key];
    }
  }
}
