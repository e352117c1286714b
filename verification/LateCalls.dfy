/** The limiter when a call is counted late: its clock is read before its lock is taken, so times can go back. */
module LateCalls {
  import opened RateLimiter

  // ----- one answer ---------------------------------------------------------

  /** The exact condition for one answer, times in any order. `stale` counts what the queue holds outside the window,
    * `lost` what it dropped inside: a refusal is right if and only if at least as many times were lost as are stale, an
    * admission if and only if the lost ones, less the stale ones, leave room. */
  lemma AnswerIsRightExactly(l: Limits, calls: seq<Call>, n: nat) returns (stale: nat, lost: nat)
    requires n < |calls| && !IsUnlimited(l)
    ensures var c, times, kept := calls[n], AllowedTimes(l, calls, n, calls[n].key), Kept(l, calls, n);
            && |kept| <= |times| && |kept| <= l.max && kept == times[|times| - |kept|..]
            && stale == |kept| - |Between(kept, c.now - l.window, c.now)|
            && lost == |Between(times[..|times| - |kept|], c.now - l.window, c.now)|
            && ((!IsAllowed(l, calls, n) <==> |InWindow(l, calls, n)| >= l.max) <==>
                if |kept| == l.max then stale <= lost else lost - stale < l.max - |kept|)
  {
    hide BucketsAt, AllowedTimes, Prune, Between;
    var c, times, kept := calls[n], AllowedTimes(l, calls, n, calls[n].key), Kept(l, calls, n);
    var e := KeptIsTail(l, calls, n);
    BetweenIsShort(kept, c.now - l.window, c.now);
    stale := |kept| - |Between(kept, c.now - l.window, c.now)|;
    lost := |Between(times[..e], c.now - l.window, c.now)|;
    BetweenOfConcat(times[..e], kept, c.now - l.window, c.now);
    assert times[..e] + kept == times && e == |times| - |kept|;
  }

  // ----- filling a queue ----------------------------------------------------

  /** Calls on one key at the given times. */
  function CallsAt(key: string, times: seq<int>): (calls: seq<Call>)
    ensures |calls| == |times|
  {
    seq(|times|, i requires 0 <= i < |times| => Call(key, times[i]))
  }

  lemma NothingExpires(bucket: seq<int>, now: int, window: int)
    requires bucket != [] ==> now - bucket[0] <= window
    ensures Prune(bucket, now, window) == bucket
  {
  }

  lemma {:induction false} AllExpire(bucket: seq<int>, now: int, window: int)
    requires forall i | 0 <= i < |bucket| :: now - bucket[i] > window
    ensures Prune(bucket, now, window) == []
    decreases |bucket|
  {
    if bucket != [] {
      AllExpire(bucket[1..], now, window);
    }
  }

  /** What the first calls of a run leave. */
  ghost predicate Leaves(l: Limits, calls: seq<Call>, n: nat, key: string, bucket: seq<int>, times: seq<int>)
    requires n <= |calls|
  {
    Bucket(BucketsAt(l, calls, n), key) == bucket && AllowedTimes(l, calls, n, key) == times
  }

  lemma AllowedCall(l: Limits, calls: seq<Call>, n: nat, bucket: seq<int>, times: seq<int>, kept: seq<int>)
    requires n < |calls| && !IsUnlimited(l) && Leaves(l, calls, n, calls[n].key, bucket, times)
    requires Prune(bucket, calls[n].now, l.window) == kept && |kept| < l.max
    ensures IsAllowed(l, calls, n)
    ensures Leaves(l, calls, n + 1, calls[n].key, kept + [calls[n].now], times + [calls[n].now])
  {
    hide Prune;
  }

  /** Calls that all lie within a window of the first fill the queue, whatever their order. */
  lemma {:induction false} QueueFills(l: Limits, key: string, times: seq<int>, calls: seq<Call>, n: nat)
    requires !IsUnlimited(l) && n <= |times| <= |calls| && n <= l.max && calls[..|times|] == CallsAt(key, times)
    requires forall i | 0 <= i < |times| :: times[i] - times[0] <= l.window
    ensures Leaves(l, calls, n, key, times[..n], times[..n])
    decreases n
  {
    hide Prune, Step;
    if n > 0 {
      QueueFills(l, key, times, calls, n - 1);
      assert calls[n - 1] == calls[..|times|][n - 1] == Call(key, times[n - 1]);
      NothingExpires(times[..n - 1], times[n - 1], l.window);
      AllowedCall(l, calls, n - 1, times[..n - 1], times[..n - 1], times[..n - 1]);
      assert times[..n - 1] + [times[n - 1]] == times[..n];
    }
  }

  // ----- the two ways to be wrong -------------------------------------------

  /** Too strict, a family of runs: fill the queue with any times within a window of the first, in any order, and call
    * again not more than a window after the first. The call is refused; and when one of the times lies outside its
    * window, because it is later or has expired behind the first, fewer than the maximum lie inside. */
  lemma LateCallsRefuseTooMuch(l: Limits, key: string, times: seq<int>, now: int)
    requires !IsUnlimited(l) && |times| == l.max && now - times[0] <= l.window
    requires forall i | 0 <= i < |times| :: times[i] - times[0] <= l.window
    ensures var calls := CallsAt(key, times + [now]);
            && !IsAllowed(l, calls, l.max)
            && InWindow(l, calls, l.max) == Between(times, now - l.window, now)
            && (|InWindow(l, calls, l.max)| < l.max <==>
                exists i | 0 <= i < |times| :: !(now - l.window <= times[i] <= now))
  {
    hide BucketsAt, AllowedTimes, Prune, Between;
    var calls := CallsAt(key, times + [now]);
    assert calls[..l.max] == CallsAt(key, times) && calls[l.max] == Call(key, now);
    QueueFills(l, key, times, calls, l.max);
    assert times[..l.max] == times;
    NothingExpires(times, now, l.window);
    BetweenMisses(times, now - l.window, now);
  }

  predicate Refuses(l: Limits, calls: seq<Call>) {
    exists n | 0 <= n < |calls| :: !IsAllowed(l, calls, n)
  }

  /** Some run meets a refusal if and only if maximum and window are positive. */
  lemma RefusesExactly(l: Limits)
    ensures (exists calls :: Refuses(l, calls)) <==> l.max > 0 && l.window > 0
  {
    if !IsUnlimited(l) {
      var times := seq(l.max, i => 0);
      LateCallsRefuseTooMuch(l, "", times, 0);
      assert Refuses(l, CallsAt("", times + [0]));
    }
  }

  lemma BetweenMisses(times: seq<int>, lo: int, hi: int)
    ensures |Between(times, lo, hi)| < |times| <==> exists i | 0 <= i < |times| :: !(lo <= times[i] <= hi)
  {
    hide Between;
    BetweenIsShort(times, lo, hi);
    if i :| 0 <= i < |times| && !(lo <= times[i] <= hi) {
      BetweenOfConcat(times[..i], times[i..], lo, hi);
      BetweenOfConcat([times[i]], times[i + 1..], lo, hi);
      assert times[..i] + times[i..] == times && [times[i]] + times[i + 1..] == times[i..];
      BetweenOfNone([times[i]], lo, hi);
      BetweenIsShort(times[..i], lo, hi);
      BetweenIsShort(times[i + 1..], lo, hi);
    } else {
      BetweenOfAll(times, lo, hi);
    }
  }

  /** Too lax, a family of runs: fill the queue with any times, let a call from after their window empty it, and call
    * again at a time whose window holds them all. The call is allowed, and the window holds one more than the maximum. */
  lemma LateCallsAllowTooMuch(l: Limits, key: string, times: seq<int>, far: int, now: int)
    requires !IsUnlimited(l) && |times| == l.max && l.max >= 2
    requires forall i | 0 <= i < |times| :: now - l.window <= times[i] <= now && far - times[i] > l.window
    ensures var calls := CallsAt(key, times + [far, now]);
            && IsAllowed(l, calls, l.max + 1)
            && |Between(AllowedTimes(l, calls, l.max + 2, key), now - l.window, now)| > l.max
  {
    hide BucketsAt, AllowedTimes, Prune, Between, IsAllowed;
    var all := times + [far, now];
    var calls := CallsAt(key, all);
    assert calls[..l.max] == CallsAt(key, times);
    assert calls[l.max] == Call(key, far) && calls[l.max + 1] == Call(key, now);
    QueueFills(l, key, times, calls, l.max);
    assert times[..l.max] == times;
    AllExpire(times, far, l.window);
    assert Leaves(l, calls, l.max, key, times, times);
    AllowedCall(l, calls, l.max, times, times, []);
    assert [] + [far] == [far] && far - times[0] > l.window;
    NothingExpires([far], now, l.window);
    assert Leaves(l, calls, l.max + 1, key, [far], times + [far]);
    AllowedCall(l, calls, l.max + 1, [far], times + [far], [far]);
    OverfullWindow(times, far, now, l.window);
  }

  lemma OverfullWindow(times: seq<int>, far: int, now: int, window: int)
    requires window >= 0 && forall i | 0 <= i < |times| :: now - window <= times[i] <= now
    ensures |Between(times + [far] + [now], now - window, now)| > |times|
  {
    hide Between;
    BetweenOfAll(times, now - window, now);
    BetweenOfAll([now], now - window, now);
    BetweenOfConcat(times + [far], [now], now - window, now);
    BetweenOfConcat(times, [far], now - window, now);
  }

  /** The window that starts at `from` holds no more than the maximum after the run. */
  ghost predicate IsBounded(l: Limits, calls: seq<Call>, key: string, from: int) {
    |Between(AllowedTimes(l, calls, |calls|, key), from, from + l.window)| <= l.max
  }

  /** With a maximum of one, and only then, the bound on every window needs no order of times. */
  lemma BoundWithoutOrderExactly(l: Limits)
    requires !IsUnlimited(l)
    ensures (forall calls, key, from :: IsBounded(l, calls, key, from)) <==> l.max == 1
  {
    hide AllowedTimes, Between, IsAllowed;
    if l.max == 1 {
      forall calls, key, from ensures IsBounded(l, calls, key, from) {
        SingleQueue(l, calls, |calls|, key);
        AtMostOne(AllowedTimes(l, calls, |calls|, key), from, l.window);
      }
    } else {
      var times := seq(l.max, i => 0);
      LateCallsAllowTooMuch(l, "", times, l.window + 1, 0);
      var calls := CallsAt("", times + [l.window + 1, 0]);
      assert |calls| == l.max + 2 && -l.window + l.window == 0;
      assert !IsBounded(l, calls, "", -l.window);
    }
  }

  predicate FarApart(times: seq<int>, window: int) {
    forall i, j | 0 <= i < j < |times| :: times[j] - times[i] > window
  }

  lemma {:induction false} SingleQueue(l: Limits, calls: seq<Call>, n: nat, key: string)
    requires n <= |calls| && !IsUnlimited(l) && l.max == 1
    ensures var times := AllowedTimes(l, calls, n, key);
            FarApart(times, l.window) && Bucket(BucketsAt(l, calls, n), key) == LastOf(times)
    decreases n
  {
    hide Prune, FarApart;
    if n == 0 {
      assert FarApart([], l.window) by { NothingFarApart(l.window); }
    } else {
      SingleQueue(l, calls, n - 1, key);
      SinglePrune(AllowedTimes(l, calls, n - 1, key), calls[n - 1].now, l.window);
    }
  }

  function LastOf(times: seq<int>): seq<int> {
    if times == [] then [] else [times[|times| - 1]]
  }

  lemma NothingFarApart(window: int)
    ensures FarApart([], window)
  {
  }

  lemma SinglePrune(times: seq<int>, now: int, window: int)
    requires FarApart(times, window) && window > 0
    ensures var kept := Prune(LastOf(times), now, window);
            kept == LastOf(times) || (kept == [] && FarApart(times + [now], window))
    ensures times == [] ==> FarApart(times + [now], window)
  {
    assert times != [] ==> LastOf(times)[1..] == [];
  }

  lemma {:induction false} AtMostOne(times: seq<int>, from: int, window: int)
    requires FarApart(times, window)
    ensures |Between(times, from, from + window)| <= 1
    decreases |times|
  {
    if times != [] {
      AtMostOne(times[1..], from, window);
      if from <= times[0] <= from + window {
        BetweenOfNone(times[1..], from, from + window);
      }
    }
  }
}
