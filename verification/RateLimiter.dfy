/** The token endpoint's sliding-window limiter: one pruned queue of call times per key. */
module RateLimiter {

  // ----- one call -----------------------------------------------------------

  datatype Limits = Limits(max: int, window: int)

  type Buckets = map<string, seq<int>>

  predicate IsUnlimited(l: Limits) {
    l.max <= 0 || l.window <= 0
  }

  function Bucket(buckets: Buckets, key: string): seq<int> {
    if key in buckets then buckets[key] else []
  }

  /** Drop times older than the window from the front, up to the first that is not. */
  function Prune(bucket: seq<int>, now: int, window: int): seq<int> {
    if bucket != [] && now - bucket[0] > window then Prune(bucket[1..], now, window) else bucket
  }

  function Step(l: Limits, buckets: Buckets, key: string, now: int): (Buckets, bool) {
    if IsUnlimited(l) then (buckets, true)
    else
      var kept := Prune(Bucket(buckets, key), now, l.window);
      if |kept| >= l.max then (buckets[key := kept], false) else (buckets[key := kept + [now]], true)
  }

  class TokenRateLimiter {
    const limits: Limits
    var buckets: Buckets

    constructor (max: int, window: int)
      ensures limits == Limits(max, window) && buckets == map[]
    {
      limits, buckets := Limits(max, window), map[];
    }

    method Allow(key: string, now: int) returns (allowed: bool)
      modifies this`buckets
      ensures (buckets, allowed) == Step(limits, old(buckets), key, now)
    {
      if limits.max <= 0 || limits.window <= 0 {
        return true;
      }
      if key !in buckets {
        buckets := buckets[key := []];
      }
      while buckets[key] != [] && now - buckets[key][0] > limits.window
        invariant key in buckets && buckets == old(buckets)[key := buckets[key]]
        invariant Prune(buckets[key], now, limits.window) == Prune(Bucket(old(buckets), key), now, limits.window)
        decreases |buckets[key]|
      {
        buckets := buckets[key := buckets[key][1..]];
      }
      if |buckets[key]| >= limits.max {
        return false;
      }
      ghost var kept := buckets[key];
      assert old(buckets)[key := kept][key := kept + [now]] == old(buckets)[key := kept + [now]];
      buckets := buckets[key := buckets[key] + [now]];
      return true;
    }
  }

  // ----- runs ---------------------------------------------------------------

  datatype Call = Call(key: string, now: int)

  /** The queues after the first `n` calls. */
  function BucketsAt(l: Limits, calls: seq<Call>, n: nat): Buckets
    requires n <= |calls|
  {
    if n == 0 then map[] else Step(l, BucketsAt(l, calls, n - 1), calls[n - 1].key, calls[n - 1].now).0
  }

  /** The answer call `n` gets. */
  predicate IsAllowed(l: Limits, calls: seq<Call>, n: nat)
    requires n < |calls|
  {
    Step(l, BucketsAt(l, calls, n), calls[n].key, calls[n].now).1
  }

  /** The times of all allowed calls on a key among the first `n`. */
  function AllowedTimes(l: Limits, calls: seq<Call>, n: nat, key: string): seq<int>
    requires n <= |calls|
  {
    if n == 0 then []
    else
      var earlier := AllowedTimes(l, calls, n - 1, key);
      if calls[n - 1].key == key && IsAllowed(l, calls, n - 1) then earlier + [calls[n - 1].now] else earlier
  }

  /** The times in a closed interval. */
  function Between(times: seq<int>, lo: int, hi: int): seq<int> {
    if times == [] then []
    else (if lo <= times[0] <= hi then [times[0]] else []) + Between(times[1..], lo, hi)
  }

  ghost predicate IsMonotone(calls: seq<Call>) {
    forall i, j | 0 <= i < j < |calls| :: calls[i].now <= calls[j].now
  }

  predicate Ascending(times: seq<int>) {
    forall i, j | 0 <= i < j < |times| :: times[i] <= times[j]
  }

  // ----- queues -------------------------------------------------------------

  lemma {:induction false} BetweenOfAll(times: seq<int>, lo: int, hi: int)
    requires AllInside(times, lo, hi)
    ensures Between(times, lo, hi) == times
    decreases |times|
  {
    if times != [] {
      BetweenOfAll(times[1..], lo, hi);
      assert times == [times[0]] + times[1..];
    }
  }

  lemma {:induction false} BetweenOfNone(times: seq<int>, lo: int, hi: int)
    requires AllOutside(times, lo, hi)
    ensures Between(times, lo, hi) == []
    decreases |times|
  {
    if times != [] {
      BetweenOfNone(times[1..], lo, hi);
    }
  }

  lemma {:induction false} BetweenOfConcat(a: seq<int>, b: seq<int>, lo: int, hi: int)
    ensures Between(a + b, lo, hi) == Between(a, lo, hi) + Between(b, lo, hi)
    decreases |a|
  {
    if a == [] {
      assert a + b == b;
    } else {
      var first := if lo <= a[0] <= hi then [a[0]] else [];
      BetweenOfConcat(a[1..], b, lo, hi);
      assert (a + b)[1..] == a[1..] + b && (a + b)[0] == a[0];
      assert first + (Between(a[1..], lo, hi) + Between(b, lo, hi)) == (first + Between(a[1..], lo, hi)) + Between(b, lo, hi);
    }
  }

  /** A time more than a window later follows the `i`-th. */
  ghost predicate IsOutrun(times: seq<int>, i: nat, window: int)
    requires i < |times|
  {
    exists j | i < j < |times| :: times[j] - times[i] > window
  }

  predicate NoneAfter(times: seq<int>, now: int) {
    forall t | t in times :: t <= now
  }

  /** What a call leaves a key's queue: the last of the key's allowed times. Each one dropped is followed by an allowed
    * time more than a window later, since only a call that is then allowed drops anything. */
  ghost predicate IsTail(bucket: seq<int>, times: seq<int>, d: nat, window: int) {
    && d <= |times| && bucket == times[d..]
    && forall i | 0 <= i < d :: IsOutrun(times, i, window)
  }

  lemma {:induction false} PruneDrops(bucket: seq<int>, now: int, window: int) returns (k: nat)
    ensures k <= |bucket| && Prune(bucket, now, window) == bucket[k..]
    ensures forall i | 0 <= i < k :: now - bucket[i] > window
    ensures k < |bucket| ==> now - bucket[k] <= window
    decreases |bucket|
  {
    if bucket != [] && now - bucket[0] > window {
      var j := PruneDrops(bucket[1..], now, window);
      k := j + 1;
      assert bucket[1..][j..] == bucket[k..];
      assert forall i | 0 < i < k :: bucket[i] == bucket[1..][i - 1];
    } else {
      k := 0;
    }
  }

  lemma TailGrows(bucket: seq<int>, times: seq<int>, d: nat, k: nat, now: int, window: int)
    requires IsTail(bucket, times, d, window) && k <= |bucket| && forall i | 0 <= i < k :: now - bucket[i] > window
    ensures IsTail(bucket[k..] + [now], times + [now], d + k, window)
  {
    var more := times + [now];
    assert bucket[k..] == times[d + k..];
    assert more[d + k..] == times[d + k..] + [now];
    forall i | 0 <= i < d + k ensures IsOutrun(more, i, window) {
      if i < d {
        assert IsOutrun(times, i, window);
        var j :| i < j < |times| && times[j] - times[i] > window;
        assert more[j] - more[i] > window;
      } else {
        assert times[i] == bucket[i - d];
        assert more[|times|] - more[i] > window;
      }
    }
  }

  /** In every run, with times in any order, a key's queue is such a tail, and never longer than the maximum. */
  lemma {:induction false} QueueIsTail(l: Limits, calls: seq<Call>, n: nat, key: string) returns (d: nat)
    requires n <= |calls| && !IsUnlimited(l)
    ensures var bucket := Bucket(BucketsAt(l, calls, n), key);
            |bucket| <= l.max && IsTail(bucket, AllowedTimes(l, calls, n, key), d, l.window)
    decreases n
  {
    hide Prune, IsTail;
    if n == 0 {
      d := 0;
      NoTail(l.window);
    } else {
      d := QueueIsTail(l, calls, n - 1, key);
      if calls[n - 1].key == key {
        var bucket := Bucket(BucketsAt(l, calls, n - 1), key);
        var k := PruneDrops(bucket, calls[n - 1].now, l.window);
        if IsAllowed(l, calls, n - 1) {
          TailGrows(bucket, AllowedTimes(l, calls, n - 1, key), d, k, calls[n - 1].now, l.window);
          d := d + k;
        }
      }
    }
  }

  lemma NoTail(window: int)
    ensures IsTail([], [], 0, window)
  {
  }

  // ----- when the queue is the window ----------------------------------------

  /** The queue that call `n` counts. */
  function Kept(l: Limits, calls: seq<Call>, n: nat): seq<int>
    requires n < |calls|
  {
    Prune(Bucket(BucketsAt(l, calls, n), calls[n].key), calls[n].now, l.window)
  }

  /** The allowed times of the key that lie in the window of call `n`. */
  function InWindow(l: Limits, calls: seq<Call>, n: nat): seq<int>
    requires n < |calls|
  {
    Between(AllowedTimes(l, calls, n, calls[n].key), calls[n].now - l.window, calls[n].now)
  }

  predicate AllInside(times: seq<int>, lo: int, hi: int) {
    forall i | 0 <= i < |times| :: lo <= times[i] <= hi
  }

  predicate AllOutside(times: seq<int>, lo: int, hi: int) {
    forall i | 0 <= i < |times| :: !(lo <= times[i] <= hi)
  }

  /** For any list of times and any queue that is its end: the queue holds exactly the times in the window if and only if
    * no expired and no later time is left in it, and no time of the window was dropped. */
  lemma EndIsWindowExactly(times: seq<int>, e: nat, lo: int, hi: int)
    requires e <= |times|
    ensures Between(times, lo, hi) == times[e..] <==> AllInside(times[e..], lo, hi) && AllOutside(times[..e], lo, hi)
  {
    hide Between, AllInside, AllOutside;
    var first, kept := times[..e], times[e..];
    assert times == first + kept;
    BetweenOfConcat(first, kept, lo, hi);
    if Between(times, lo, hi) == kept {
      BetweenIsInside(times, lo, hi);
      BetweenOfAll(kept, lo, hi);
      BetweenIsOutside(first, lo, hi);
    }
    if AllInside(kept, lo, hi) && AllOutside(first, lo, hi) {
      BetweenOfAll(kept, lo, hi);
      BetweenOfNone(first, lo, hi);
    }
  }

  lemma BetweenIsInside(times: seq<int>, lo: int, hi: int)
    ensures AllInside(Between(times, lo, hi), lo, hi)
  {
    hide Between;
    BetweenMembers(times, lo, hi);
    var inside := Between(times, lo, hi);
    assert forall i | 0 <= i < |inside| :: inside[i] in inside;
  }

  lemma BetweenIsOutside(times: seq<int>, lo: int, hi: int)
    requires Between(times, lo, hi) == []
    ensures AllOutside(times, lo, hi)
  {
    hide Between;
    BetweenMembers(times, lo, hi);
    assert forall i | 0 <= i < |times| :: times[i] in times;
  }

  lemma {:induction false} BetweenMembers(times: seq<int>, lo: int, hi: int)
    ensures forall t :: t in Between(times, lo, hi) <==> t in times && lo <= t <= hi
    decreases |times|
  {
    if times != [] {
      BetweenMembers(times[1..], lo, hi);
      assert times == [times[0]] + times[1..];
    }
  }

  lemma {:induction false} BetweenIsShort(times: seq<int>, lo: int, hi: int)
    ensures |Between(times, lo, hi)| <= |times|
    decreases |times|
  {
    if times != [] {
      BetweenIsShort(times[1..], lo, hi);
    }
  }

  lemma {:induction false} LatestTime(times: seq<int>) returns (i: nat)
    requires times != []
    ensures i < |times| && forall j | 0 <= j < |times| :: times[j] <= times[i]
    decreases |times|
  {
    var n := |times| - 1;
    i := n;
    if n > 0 {
      var k := LatestTime(times[..n]);
      assert forall j | 0 <= j < n :: times[..n][j] == times[j];
      i := if times[k] <= times[n] then n else k;
    }
  }

  /** Each of the first `e` times has expired, or is followed by one more than a window later. */
  ghost predicate AreGone(times: seq<int>, e: nat, now: int, window: int)
    requires e <= |times|
  {
    forall i | 0 <= i < e :: now - times[i] > window || IsOutrun(times, i, window)
  }

  /** What call `n` finds: where its queue begins among the allowed times, and why each one before has gone. */
  lemma KeptIsTail(l: Limits, calls: seq<Call>, n: nat) returns (e: nat)
    requires n < |calls| && !IsUnlimited(l)
    ensures var times := AllowedTimes(l, calls, n, calls[n].key);
            && e <= |times| && Kept(l, calls, n) == times[e..] && |times[e..]| <= l.max
            && (e < |times| ==> calls[n].now - times[e] <= l.window)
            && AreGone(times, e, calls[n].now, l.window)
  {
    hide Prune, BucketsAt, AllowedTimes;
    var c := calls[n];
    var bucket, times := Bucket(BucketsAt(l, calls, n), c.key), AllowedTimes(l, calls, n, c.key);
    var d := QueueIsTail(l, calls, n, c.key);
    var k := PruneDrops(bucket, c.now, l.window);
    e := d + k;
    assert bucket[k..] == times[e..];
    forall i | 0 <= i < e
      ensures c.now - times[i] > l.window || IsOutrun(times, i, l.window)
    {
      if i >= d {
        assert times[i] == bucket[i - d];
      }
    }
  }

  lemma NoneInsideIsGone(times: seq<int>, e: nat, now: int, window: int)
    requires e <= |times| && AreGone(times, e, now, window) && NoneAfter(times, now)
    ensures AllOutside(times[..e], now - window, now)
  {
    forall i | 0 <= i < e ensures now - times[i] > window {
      if IsOutrun(times, i, window) {
        var j :| i < j < |times| && times[j] - times[i] > window;
        assert times[j] in times;
      }
    }
  }

  /** A time later than `now` cannot be gone unless an even later one came after it; so the latest is still there. */
  lemma NoneIsLater(times: seq<int>, e: nat, now: int, window: int)
    requires e <= |times| && AreGone(times, e, now, window) && AllInside(times[e..], now - window, now) && window >= 0
    ensures NoneAfter(times, now)
  {
    if times != [] {
      var i := LatestTime(times);
      if i >= e {
        assert times[e..][i - e] == times[i];
      }
      assert times[i] <= now;
    }
  }

  /** The exact condition, for every run, times in any order: the queue a call counts is the key's allowed times in its
    * window if and only if none of them is later than the call and the queue keeps none that has expired. */
  lemma KeptIsWindowExactly(l: Limits, calls: seq<Call>, n: nat)
    requires n < |calls| && !IsUnlimited(l)
    ensures Kept(l, calls, n) == InWindow(l, calls, n) <==>
            && NoneAfter(AllowedTimes(l, calls, n, calls[n].key), calls[n].now)
            && (forall t | t in Kept(l, calls, n) :: calls[n].now - t <= l.window)
  {
    hide AllowedTimes, Kept, Between, AreGone, AllOutside;
    var now, times := calls[n].now, AllowedTimes(l, calls, n, calls[n].key);
    var e := KeptIsTail(l, calls, n);
    EndIsWindowExactly(times, e, now - l.window, now);
    assert forall i | 0 <= i < |times[e..]| :: times[e..][i] in times[e..] && times[e..][i] in times;
    if Kept(l, calls, n) == InWindow(l, calls, n) {
      NoneIsLater(times, e, now, l.window);
    } else if NoneAfter(times, now) {
      NoneInsideIsGone(times, e, now, l.window);
    }
  }

  /** So a time of the window is only ever missing when a call was allowed at a time later than this one. */
  lemma DroppedTooSoon(l: Limits, calls: seq<Call>, n: nat, i: nat) returns (j: nat)
    requires n < |calls| && !IsUnlimited(l) && i < |AllowedTimes(l, calls, n, calls[n].key)| - |Kept(l, calls, n)|
    requires AllowedTimes(l, calls, n, calls[n].key)[i] >= calls[n].now - l.window
    ensures var times := AllowedTimes(l, calls, n, calls[n].key); i < j < |times| && times[j] > calls[n].now
  {
    hide AllowedTimes, Kept;
    var e := KeptIsTail(l, calls, n);
    var times := AllowedTimes(l, calls, n, calls[n].key);
    assert i < e && IsOutrun(times, i, l.window);
    j :| i < j < |times| && times[j] - times[i] > l.window;
  }

  /** No call on the key is earlier than one allowed before it. */
  ghost predicate InTime(l: Limits, calls: seq<Call>, n: nat, key: string)
    requires n <= |calls|
  {
    forall k | 0 <= k < n && calls[k].key == key :: NoneAfter(AllowedTimes(l, calls, k, key), calls[k].now)
  }

  lemma MonotoneIsInTime(l: Limits, calls: seq<Call>, n: nat, key: string)
    requires n <= |calls| && IsMonotone(calls)
    ensures InTime(l, calls, n, key)
  {
    hide IsAllowed, AllowedTimes;
    forall k | 0 <= k < n && calls[k].key == key ensures NoneAfter(AllowedTimes(l, calls, k, key), calls[k].now) {
      AllowedTimesAreCalls(l, calls, k, key);
    }
  }

  lemma {:induction false} AllowedTimesAreCalls(l: Limits, calls: seq<Call>, n: nat, key: string)
    requires n <= |calls|
    ensures forall t | t in AllowedTimes(l, calls, n, key) :: exists i | 0 <= i < n :: calls[i].now == t
    decreases n
  {
    hide IsAllowed;
    if n > 0 {
      AllowedTimesAreCalls(l, calls, n - 1, key);
      forall t | t in AllowedTimes(l, calls, n, key) ensures exists i | 0 <= i < n :: calls[i].now == t {
        if t !in AllowedTimes(l, calls, n - 1, key) {
          assert calls[n - 1].now == t;
        }
      }
    }
  }

  lemma {:induction false} AllowedTimesAscend(l: Limits, calls: seq<Call>, n: nat, key: string)
    requires n <= |calls| && InTime(l, calls, n, key)
    ensures Ascending(AllowedTimes(l, calls, n, key))
    decreases n
  {
    hide IsAllowed, InTime;
    if n > 0 {
      InTimeEarlier(l, calls, n, key);
      AllowedTimesAscend(l, calls, n - 1, key);
      if calls[n - 1].key == key {
        AscendingSnoc(AllowedTimes(l, calls, n - 1, key), calls[n - 1].now);
      }
    }
  }

  lemma AscendingSnoc(times: seq<int>, now: int)
    requires Ascending(times) && NoneAfter(times, now)
    ensures Ascending(times + [now])
  {
    assert forall i | 0 <= i < |times| :: times[i] in times;
  }

  /** The exact condition over a whole run: the queue is the window at every call of a key if and only if no call on the
    * key is earlier than one allowed before it. */
  lemma QueuesAreWindowsExactly(l: Limits, calls: seq<Call>, n: nat, key: string)
    requires n <= |calls| && !IsUnlimited(l)
    ensures (forall k | 0 <= k < n && calls[k].key == key :: Kept(l, calls, k) == InWindow(l, calls, k)) <==>
            InTime(l, calls, n, key)
  {
    hide Kept, InWindow, AllowedTimes;
    forall k | 0 <= k < n && calls[k].key == key
      ensures Kept(l, calls, k) == InWindow(l, calls, k) ==> NoneAfter(AllowedTimes(l, calls, k, key), calls[k].now)
      ensures InTime(l, calls, n, key) ==> Kept(l, calls, k) == InWindow(l, calls, k)
    {
      KeptIsWindowExactly(l, calls, k);
      if InTime(l, calls, n, key) {
        InTimeIsWindow(l, calls, k);
      }
    }
  }

  lemma InTimeIsWindow(l: Limits, calls: seq<Call>, n: nat)
    requires n < |calls| && !IsUnlimited(l) && InTime(l, calls, n + 1, calls[n].key)
    ensures Kept(l, calls, n) == InWindow(l, calls, n)
  {
    hide Kept, InWindow, AllowedTimes;
    var times := AllowedTimes(l, calls, n, calls[n].key);
    KeptIsWindowExactly(l, calls, n);
    AllowedTimesAscend(l, calls, n, calls[n].key);
    var e := KeptIsTail(l, calls, n);
    forall t | t in times[e..] ensures calls[n].now - t <= l.window {
      var i :| 0 <= i < |times[e..]| && times[e..][i] == t;
      assert times[e] <= times[e + i];
    }
  }

  // ----- the laws -----------------------------------------------------------

  /** When no call of the key is earlier than one allowed before, the queue answers like counting every allowed call of
    * the key in the window: a call is refused exactly when `max` calls were already allowed in it. */
  lemma RefusedExactly(l: Limits, calls: seq<Call>, n: nat)
    requires n < |calls| && InTime(l, calls, n + 1, calls[n].key) && !IsUnlimited(l)
    ensures !IsAllowed(l, calls, n) <==> |InWindow(l, calls, n)| >= l.max
  {
    hide BucketsAt, AllowedTimes, Prune;
    InTimeIsWindow(l, calls, n);
  }

  /** Then no closed interval of one window length ever holds more than `max` allowed calls of the key. */
  lemma {:induction false} WindowBound(l: Limits, calls: seq<Call>, n: nat, key: string, from: int)
    requires n <= |calls| && InTime(l, calls, n, key) && !IsUnlimited(l)
    ensures |Between(AllowedTimes(l, calls, n, key), from, from + l.window)| <= l.max
    decreases n
  {
    hide IsAllowed, InTime, Between;
    if n == 0 {
      BetweenOfNone([], from, from + l.window);
    } else {
      InTimeEarlier(l, calls, n, key);
      WindowBound(l, calls, n - 1, key, from);
      if calls[n - 1].key == key && IsAllowed(l, calls, n - 1) {
        OneMoreFits(l, calls, n - 1, from);
      }
    }
  }

  lemma InTimeEarlier(l: Limits, calls: seq<Call>, n: nat, key: string)
    requires 0 < n <= |calls| && InTime(l, calls, n, key)
    ensures InTime(l, calls, n - 1, key)
    ensures calls[n - 1].key == key ==> NoneAfter(AllowedTimes(l, calls, n - 1, key), calls[n - 1].now)
  {
    hide AllowedTimes;
  }

  lemma OneMoreFits(l: Limits, calls: seq<Call>, n: nat, from: int)
    requires n < |calls| && InTime(l, calls, n + 1, calls[n].key) && !IsUnlimited(l) && IsAllowed(l, calls, n)
    requires |Between(AllowedTimes(l, calls, n, calls[n].key), from, from + l.window)| <= l.max
    ensures |Between(AllowedTimes(l, calls, n, calls[n].key) + [calls[n].now], from, from + l.window)| <= l.max
  {
    hide IsAllowed, InTime, AllowedTimes;
    var now, times := calls[n].now, AllowedTimes(l, calls, n, calls[n].key);
    InTimeEarlier(l, calls, n + 1, calls[n].key);
    BetweenOfConcat(times, [now], from, from + l.window);
    if from <= now <= from + l.window {
      RefusedExactly(l, calls, n);
      forall i | 0 <= i < |times| ensures times[i] <= now {
        assert times[i] in times;
      }
      BetweenIsMonotone(times, from, from + l.window, now - l.window, now);
    }
  }

  lemma {:induction false} BetweenIsMonotone(times: seq<int>, lo: int, hi: int, wideLo: int, wideHi: int)
    requires forall i | 0 <= i < |times| :: lo <= times[i] <= hi ==> wideLo <= times[i] <= wideHi
    ensures |Between(times, lo, hi)| <= |Between(times, wideLo, wideHi)|
    decreases |times|
  {
    if times != [] {
      assert lo <= times[0] <= hi ==> wideLo <= times[0] <= wideHi;
      BetweenIsMonotone(times[1..], lo, hi, wideLo, wideHi);
    }
  }

  /** The calls of one key, in order. */
  function CallsOn(calls: seq<Call>, key: string): seq<Call> {
    if calls == [] then []
    else
      var c := calls[|calls| - 1];
      CallsOn(calls[..|calls| - 1], key) + (if c.key == key then [c] else [])
  }

  /** Keys do not affect each other: a key's queue is the one its own calls alone would have left. */
  lemma {:induction false} KeysAreIndependent(l: Limits, calls: seq<Call>, key: string)
    ensures var own := CallsOn(calls, key);
            Bucket(BucketsAt(l, calls, |calls|), key) == Bucket(BucketsAt(l, own, |own|), key)
    decreases |calls|
  {
    hide Step;
    if calls != [] {
      var n := |calls| - 1;
      var earlier, c := calls[..n], calls[n];
      KeysAreIndependent(l, earlier, key);
      BucketsOfPrefix(l, earlier, [c], n);
      assert calls == earlier + [c];
      var own := CallsOn(earlier, key);
      StepOnKey(l, BucketsAt(l, earlier, n), BucketsAt(l, own, |own|), c, key);
      if c.key == key {
        BucketsOfPrefix(l, own, [c], |own|);
        assert CallsOn(calls, key) == own + [c];
        assert (own + [c])[|own|] == c;
      } else {
        assert CallsOn(calls, key) == own + [] == own;
      }
    }
  }

  /** A call changes only its own key's queue, by that queue alone. */
  lemma StepOnKey(l: Limits, a: Buckets, b: Buckets, c: Call, key: string)
    requires Bucket(a, key) == Bucket(b, key)
    ensures Bucket(Step(l, a, c.key, c.now).0, key) ==
            if c.key == key then Bucket(Step(l, b, c.key, c.now).0, key) else Bucket(a, key)
  {
  }

  lemma {:induction false} BucketsOfPrefix(l: Limits, calls: seq<Call>, more: seq<Call>, n: nat)
    requires n <= |calls|
    ensures BucketsAt(l, calls + more, n) == BucketsAt(l, calls, n)
    decreases n
  {
    hide Step;
    if n > 0 {
      BucketsOfPrefix(l, calls, more, n - 1);
    }
  }

  /** Hence the answer to a call is the one it would get among the calls of its own key. */
  lemma AnswersAreIndependent(l: Limits, calls: seq<Call>, c: Call)
    ensures var own := CallsOn(calls, c.key);
            IsAllowed(l, calls + [c], |calls|) <==> IsAllowed(l, own + [c], |own|)
  {
    hide BucketsAt, Prune, CallsOn;
    var own := CallsOn(calls, c.key);
    KeysAreIndependent(l, calls, c.key);
    BucketsOfPrefix(l, calls, [c], |calls|);
    BucketsOfPrefix(l, own, [c], |own|);
  }
}
