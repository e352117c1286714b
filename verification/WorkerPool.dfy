/** The browser's bounded worker pool, as steps of its runners in any order, and the instance seeding that uses it. */
module WorkerPool {
  import opened Text

  // ----- steps --------------------------------------------------------------

  /** A runner about to take an index, waiting for its worker call, or returned. */
  datatype Runner = Ready | Busy(index: nat) | Done

  /** `calls` lists the indices the worker was called with; `answers` holds what those calls resolved to. */
  datatype Pool<R> = Pool(size: nat, nextIndex: nat, runners: seq<Runner>, results: seq<Option<R>>, calls: seq<nat>,
                          answers: map<nat, R>)

  /** A runner takes the next index and calls the worker, or a pending call resolves. No call is rejected. */
  datatype Step<R> = Claim(runner: nat) | Resolve(runner: nat, value: R)

  /** The wanted number of runners, between one and the number of items; zero stands for a missing number. */
  function Limit(concurrency: int, size: nat): (limit: int)
    ensures 1 <= limit && (size > 0 ==> limit <= size) && (concurrency > 0 ==> limit <= concurrency)
    ensures limit == 1 || limit == size || limit == concurrency
  {
    var wanted := if concurrency == 0 then 1 else concurrency;
    var bounded := if wanted < size then wanted else size;
    if bounded > 1 then bounded else 1
  }

  function Start<R>(size: nat, concurrency: int): Pool<R> {
    Pool(size, 0, seq(Limit(concurrency, size), i => Ready), seq(size, i => None), [], map[])
  }

  predicate Enabled<R>(p: Pool<R>, s: Step<R>) {
    && s.runner < |p.runners|
    && if s.Claim? then p.runners[s.runner].Ready? else p.runners[s.runner].Busy?
  }

  function After<R>(p: Pool<R>, s: Step<R>): Pool<R>
    requires Enabled(p, s)
  {
    match s
    case Claim(r) =>
      var current := p.nextIndex;
      var taken := p.(nextIndex := current + 1);
      if current >= p.size then taken.(runners := p.runners[r := Done])
      else taken.(runners := p.runners[r := Busy(current)], calls := p.calls + [current])
    case Resolve(r, v) =>
      var i := p.runners[r].index;
      p.(runners := p.runners[r := Ready],
         results := if i < |p.results| then p.results[i := Some(v)] else p.results,
         answers := p.answers[i := v])
  }

  predicate IsRun<R>(p: Pool<R>, steps: seq<Step<R>>)
    decreases |steps|
  {
    steps != [] ==> Enabled(p, steps[0]) && IsRun(After(p, steps[0]), steps[1..])
  }

  function Final<R>(p: Pool<R>, steps: seq<Step<R>>): Pool<R>
    requires IsRun(p, steps)
    decreases |steps|
  {
    if steps == [] then p else Final(After(p, steps[0]), steps[1..])
  }

  predicate Finished<R>(p: Pool<R>) {
    forall r | 0 <= r < |p.runners| :: p.runners[r].Done?
  }

  // ----- what every step keeps ----------------------------------------------

  function Claimed<R>(p: Pool<R>): nat {
    if p.nextIndex < p.size then p.nextIndex else p.size
  }

  ghost predicate Holds<R>(p: Pool<R>, i: nat) {
    exists r :: 0 <= r < |p.runners| && p.runners[r] == Busy(i)
  }

  ghost predicate Invariant<R>(p: Pool<R>) {
    && |p.results| == p.size
    && p.calls == seq(Claimed(p), i => i)
    && (forall q, r | 0 <= q < r < |p.runners| :: p.runners[q].Busy? ==> p.runners[q] != p.runners[r])
    && (forall r | 0 <= r < |p.runners| :: p.runners[r].Busy? ==> p.runners[r].index < Claimed(p))
    && (forall r | 0 <= r < |p.runners| :: p.runners[r].Done? ==> p.nextIndex >= p.size)
    && (forall i | 0 <= i < p.size :: p.results[i].Some? ==> i in p.answers && p.results[i].value == p.answers[i])
    && (forall i | 0 <= i < Claimed(p) :: p.results[i].Some? <==> !Holds(p, i))
    && (forall i | Claimed(p) <= i < p.size :: p.results[i].None?)
  }

  lemma StartInvariant<R>(size: nat, concurrency: int)
    ensures Invariant<R>(Start(size, concurrency))
  {
  }

  lemma ClaimKeeps<R>(p: Pool<R>, s: Step<R>)
    requires Invariant(p) && s.Claim? && Enabled(p, s)
    ensures Invariant(After(p, s))
  {
    var q := After(p, s);
    forall i | 0 <= i < Claimed(q) ensures q.results[i].Some? <==> !Holds(q, i) {
      if i < Claimed(p) {
        assert Holds(p, i) ==> Holds(q, i) by {
          if Holds(p, i) {
            var r :| 0 <= r < |p.runners| && p.runners[r] == Busy(i);
            assert q.runners[r] == Busy(i);
          }
        }
      } else {
        assert q.runners[s.runner] == Busy(i);
      }
    }
  }

  lemma ResolveKeeps<R>(p: Pool<R>, s: Step<R>)
    requires Invariant(p) && s.Resolve? && Enabled(p, s)
    ensures Invariant(After(p, s))
  {
    var q := After(p, s);
    var j := p.runners[s.runner].index;
    assert Holds(p, j);
    forall i | 0 <= i < Claimed(q) ensures q.results[i].Some? <==> !Holds(q, i) {
      if i != j && Holds(p, i) {
        var r :| 0 <= r < |p.runners| && p.runners[r] == Busy(i);
        assert q.runners[r] == Busy(i);
      }
    }
  }

  lemma {:induction false} RunKeepsInvariant<R>(p: Pool<R>, steps: seq<Step<R>>)
    requires Invariant(p) && IsRun(p, steps)
    ensures Invariant(Final(p, steps))
    ensures |Final(p, steps).runners| == |p.runners| && Final(p, steps).size == p.size
    decreases |steps|
  {
    hide Invariant;
    if steps != [] {
      if steps[0].Claim? {
        ClaimKeeps(p, steps[0]);
      } else {
        ResolveKeeps(p, steps[0]);
      }
      RunKeepsInvariant(After(p, steps[0]), steps[1..]);
    }
  }

  // ----- the laws -----------------------------------------------------------

  /** At every moment of every interleaving: the indices claimed are 0, 1, 2 and so on, each once; at most the limit are
    * in flight, no two runners on one index; and a claimed index is in flight or has the result of its own call. */
  lemma ClaimsAreOrdered<R>(size: nat, concurrency: int, steps: seq<Step<R>>)
    requires IsRun(Start(size, concurrency), steps)
    ensures var p := Final(Start(size, concurrency), steps);
            && |p.calls| <= size && (forall i | 0 <= i < |p.calls| :: p.calls[i] == i)
            && |p.runners| == Limit(concurrency, size)
            && (forall q, r | 0 <= q < r < |p.runners| :: p.runners[q].Busy? ==> p.runners[q] != p.runners[r])
            && (forall i | 0 <= i < |p.calls| ::
                  Holds(p, i) || (i < |p.results| && i in p.answers && p.results[i] == Some(p.answers[i])))
  {
    StartInvariant<R>(size, concurrency);
    RunKeepsInvariant(Start(size, concurrency), steps);
  }

  /** When every runner has returned, each item was handed to the worker exactly once, and its result is in its place. */
  lemma FinishedHasAll<R>(size: nat, concurrency: int, steps: seq<Step<R>>)
    requires IsRun(Start(size, concurrency), steps) && Finished(Final(Start(size, concurrency), steps))
    ensures var p := Final(Start(size, concurrency), steps);
            && p.calls == seq(size, i => i)
            && |p.results| == size
            && forall i | 0 <= i < size :: i in p.answers && p.results[i] == Some(p.answers[i])
  {
    StartInvariant<R>(size, concurrency);
    RunKeepsInvariant(Start(size, concurrency), steps);
    var p := Final(Start(size, concurrency), steps);
    assert p.runners[0].Done?;
    forall i | 0 <= i < size ensures p.results[i].Some? {
      assert !Holds(p, i);
    }
  }

  /** No index waits while a runner is idle: as long as unclaimed items remain, no runner has returned. */
  lemma NoRunnerGivesUpEarly<R>(size: nat, concurrency: int, steps: seq<Step<R>>, r: nat)
    requires IsRun(Start(size, concurrency), steps) && r < |Final(Start(size, concurrency), steps).runners|
    requires |Final(Start(size, concurrency), steps).calls| < size
    ensures !Final(Start(size, concurrency), steps).runners[r].Done?
  {
    StartInvariant<R>(size, concurrency);
    RunKeepsInvariant(Start(size, concurrency), steps);
  }

  // ----- every run ends -----------------------------------------------------

  function Rank(r: Runner): nat {
    match r
    case Ready => 1
    case Busy(_) => 2
    case Done => 0
  }

  function RankAll(rs: seq<Runner>): nat {
    if rs == [] then 0 else Rank(rs[0]) + RankAll(rs[1..])
  }

  /** Steps still possible: two for each unclaimed item, and each runner's way to its return. */
  function Remaining<R>(p: Pool<R>): nat {
    2 * (p.size - Claimed(p)) + RankAll(p.runners)
  }

  lemma {:induction false} RankOfUpdate(rs: seq<Runner>, k: nat, r: Runner)
    requires k < |rs|
    ensures RankAll(rs[k := r]) == RankAll(rs) - Rank(rs[k]) + Rank(r)
    decreases |rs|
  {
    if k == 0 {
      assert rs[0 := r][1..] == rs[1..];
    } else {
      assert rs[k := r][1..] == rs[1..][k - 1 := r];
      RankOfUpdate(rs[1..], k - 1, r);
    }
  }

  lemma StepDecreases<R>(p: Pool<R>, s: Step<R>)
    requires Enabled(p, s)
    ensures Remaining(After(p, s)) < Remaining(p)
  {
    RankOfUpdate(p.runners, s.runner, After(p, s).runners[s.runner]);
  }

  /** Every interleaving ends: no run is longer than two steps an item and one a runner. */
  lemma {:induction false} RunsEnd<R>(p: Pool<R>, steps: seq<Step<R>>)
    requires IsRun(p, steps)
    ensures |steps| + Remaining(Final(p, steps)) <= Remaining(p)
    decreases |steps|
  {
    hide Remaining;
    if steps != [] {
      StepDecreases(p, steps[0]);
      RunsEnd(After(p, steps[0]), steps[1..]);
    }
  }

  /** A pool that cannot move has finished, so with no rejection the pool never hangs. */
  lemma StuckIsFinished<R>(p: Pool<R>, value: R)
    requires forall r :: !Enabled(p, Claim(r)) && !Enabled(p, Resolve(r, value))
    ensures Finished(p)
  {
    forall r | 0 <= r < |p.runners| ensures p.runners[r].Done? {
      assert !Enabled(p, Claim(r)) && !Enabled(p, Resolve(r, value));
    }
  }

  // ----- the pool as a program ----------------------------------------------

  class Runners<T(0), R(0)> {
    const items: seq<T>
    var nextIndex: nat
    var runners: seq<Runner>
    var results: seq<Option<R>>
    ghost var calls: seq<nat>
    ghost var answers: map<nat, R>

    ghost function Abs(): Pool<R>
      reads this
    {
      Pool(|items|, nextIndex, runners, results, calls, answers)
    }

    constructor (items: seq<T>, concurrency: int)
      ensures this.items == items && Abs() == Start(|items|, concurrency)
    {
      var wanted := if concurrency == 0 then 1 else concurrency;
      var bounded := if wanted < |items| then wanted else |items|;
      var limit := if bounded > 1 then bounded else 1;
      this.items, nextIndex := items, 0;
      runners, results := seq(limit, i => Ready), seq(|items|, i => None);
      calls, answers := [], map[];
    }

    method TakeNext(r: nat)
      requires Enabled(Abs(), Claim(r))
      modifies this
      ensures Abs() == After(old(Abs()), Claim(r))
    {
      var current := nextIndex;
      nextIndex := nextIndex + 1;
      if current >= |items| {
        runners := runners[r := Done];
        return;
      }
      runners := runners[r := Busy(current)];
      calls := calls + [current];
    }

    method Settle(r: nat, value: R)
      requires Enabled(Abs(), Resolve(r, value)) && Invariant(Abs())
      modifies this
      ensures Abs() == After(old(Abs()), Resolve(r, value))
    {
      var i := runners[r].index;
      results := results[i := Some(value)];
      runners := runners[r := Ready];
      answers := answers[i := value];
    }
  }

  /** The whole pool with a worker that is a function of item and index, the scheduler choosing any runner at any time:
    * the results are those of a plain sequential map. */
  method MapWithConcurrency<T(0), R(0)>(items: seq<T>, concurrency: int, worker: (T, nat) -> R) returns (results: seq<R>)
    ensures results == seq(|items|, i requires 0 <= i < |items| => worker(items[i], i))
  {
    hide Remaining;
    if items == [] {
      return [];
    }
    var pool := new Runners<T, R>(items, concurrency);
    StartInvariant<R>(|items|, concurrency);
    while exists r | 0 <= r < |pool.runners| :: !pool.runners[r].Done?
      invariant Invariant(pool.Abs()) && |pool.runners| > 0
      invariant forall i | i in pool.answers && 0 <= i < |items| :: pool.answers[i] == worker(items[i], i)
      invariant pool.items == items
      decreases Remaining(pool.Abs())
    {
      ghost var before := pool.Abs();
      var r :| 0 <= r < |pool.runners| && !pool.runners[r].Done?;
      if pool.runners[r].Ready? {
        ClaimKeeps(before, Claim(r));
        StepDecreases(before, Claim(r));
        pool.TakeNext(r);
      } else {
        var i := pool.runners[r].index;
        var value := worker(items[i], i);
        ResolveKeeps(before, Resolve(r, value));
        StepDecreases(before, Resolve(r, value));
        pool.Settle(r, value);
      }
    }
    assert pool.runners[0].Done?;
    AllResolved(pool.Abs());
    results := seq(|items|, i requires 0 <= i < |pool.results| && pool.results[i].Some? reads pool => pool.results[i].value);
  }

  lemma AllResolved<R>(p: Pool<R>)
    requires Invariant(p) && Finished(p) && |p.runners| > 0
    ensures |p.results| == p.size
    ensures forall i | 0 <= i < p.size :: p.results[i].Some? && i in p.answers && p.results[i].value == p.answers[i]
  {
    assert p.runners[0].Done?;
    forall i | 0 <= i < p.size ensures p.results[i].Some? {
      assert !Holds(p, i);
    }
  }
}
