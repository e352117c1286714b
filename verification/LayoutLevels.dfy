/** When the layout's rounds reach the longest paths: the exact condition, self-links included. */
module LayoutLevels {
  import opened Sorting
  import opened Layout

  // ----- self-links ---------------------------------------------------------

  predicate IsLoopAt(e: Edge, v: string) {
    e.source == v && e.target == v
  }

  /** How many self-links a row has. */
  function Loops(es: seq<Edge>, v: string): nat {
    if es == [] then 0 else Loops(es[..|es| - 1], v) + (if IsLoopAt(es[|es| - 1], v) then 1 else 0)
  }

  /** A path of `d` links leads from `u` to `v`. */
  ghost predicate Leads(es: seq<Edge>, u: string, v: string, d: int) {
    d >= 0 && exists p :: |p| == d + 1 && IsPath(es, p, v) && p[0] == u
  }

  /** A row with a self-link leads to `v`, so the paths to `v` have no longest. */
  ghost predicate Unbounded(es: seq<Edge>, v: string) {
    exists u, d :: Leads(es, u, v, d) && Loops(es, u) > 0
  }

  /** The level that `k` rounds can lend a row at the end of `d` links from a row with the given number of self-links:
    * every round but those for the links turns each self-link once. */
  function Climb(loops: nat, d: int, k: int): int {
    d + loops * (k - d)
  }

  /** Some self-linked row before `v` has enough self-links to lift it to the cap within `n` rounds. */
  ghost predicate CatchesUp(es: seq<Edge>, v: string, n: nat) {
    exists u, d | 0 <= d <= n :: Leads(es, u, v, d) && Loops(es, u) > 0 && Climb(Loops(es, u), d, n) >= MAX_LEVEL
  }

  // ----- counting -----------------------------------------------------------

  lemma {:induction false} LoopsOfConcat(a: seq<Edge>, b: seq<Edge>, v: string)
    ensures Loops(a + b, v) == Loops(a, v) + Loops(b, v)
    decreases |b|
  {
    if b == [] {
      assert a + b == a;
    } else {
      var init := b[..|b| - 1];
      LoopsOfConcat(a, init, v);
      assert (a + b)[..|a + b| - 1] == a + init;
    }
  }

  lemma {:induction false} LoopsArePositive(es: seq<Edge>, v: string)
    ensures Loops(es, v) > 0 <==> exists e | e in es :: IsLoopAt(e, v)
    decreases |es|
  {
    if es != [] {
      var n := |es| - 1;
      LoopsArePositive(es[..n], v);
      assert es == es[..n] + [es[n]];
    }
  }

  lemma {:induction false} LoopsIgnoreOrder(a: seq<Edge>, b: seq<Edge>, v: string)
    requires multiset(a) == multiset(b)
    ensures Loops(a, v) == Loops(b, v)
    decreases |a|
  {
    if a == [] {
      assert |multiset(b)| == 0;
      assert b == [];
    } else {
      var n := |a| - 1;
      assert a == a[..n] + [a[n]];
      MultisetEqualMembers(a, b, a[n]);
      var k :| 0 <= k < |b| && b[k] == a[n];
      var rest := b[..k] + b[k + 1..];
      LoopsWithout(b, k, v);
      assert multiset(a[..n]) == multiset(a) - multiset{a[n]};
      assert multiset(rest) == multiset(b) - multiset{b[k]};
      LoopsIgnoreOrder(a[..n], rest, v);
    }
  }

  lemma LoopsWithout(b: seq<Edge>, k: nat, v: string)
    requires k < |b|
    ensures multiset(b) == multiset(b[..k] + b[k + 1..]) + multiset{b[k]}
    ensures Loops(b, v) == Loops(b[..k] + b[k + 1..], v) + if IsLoopAt(b[k], v) then 1 else 0
  {
    hide IsLoopAt;
    var rest := b[k + 1..];
    assert b == b[..k + 1] + rest && b[..k + 1] == b[..k] + [b[k]];
    LoopsOfConcat(b[..k], rest, v);
    LoopsOfConcat(b[..k + 1], rest, v);
    assert b[..k + 1][..k] == b[..k];
  }

  /** Self-links lead forward, so the filter keeps them all. */
  lemma {:induction false} LoopsAreForward(ordered: seq<Node>, es: seq<Edge>, v: string)
    ensures Loops(Forward(ordered, es), v) == Loops(es, v)
    decreases |es|
  {
    hide OrderOf;
    if es != [] {
      var n := |es| - 1;
      LoopsAreForward(ordered, es[..n], v);
      assert Loops([es[n]], v) == if IsLoopAt(es[n], v) then 1 else 0 by {
        assert [es[n]][..0] == [];
      }
      LoopsOfConcat(Forward(ordered, es[..n]), if IsForward(ordered, es[n]) then [es[n]] else [], v);
    }
  }

  // ----- what any order of the edges reaches --------------------------------

  /** A round turns every self-link of a row once. */
  lemma {:induction false} RoundTurns(levels: Levels, es: seq<Edge>, v: string)
    requires Capped(levels)
    ensures Capped(Round(levels, es))
    ensures Level(Round(levels, es), v) >= Min(Level(levels, v) + Loops(es, v), MAX_LEVEL)
    decreases |es|
  {
    if es != [] {
      var n := |es| - 1;
      RoundTurns(levels, es[..n], v);
      RelaxLifts(Round(levels, es[..n]), es[n]);
    }
  }

  lemma RoundsAreCapped(ordered: seq<Node>, es: seq<Edge>, k: nat)
    ensures Capped(Rounds(Start(ordered), es, k))
    ensures forall v :: Level(Rounds(Start(ordered), es, k), v) >= 0
  {
    hide Attained;
    RoundsAreAttained(ordered, es, k);
    AttainedIsCapped(es, Rounds(Start(ordered), es, k));
  }

  lemma {:induction false} LoopsClimb(ordered: seq<Node>, es: seq<Edge>, v: string, k: nat)
    ensures Level(Rounds(Start(ordered), es, k), v) >= Min(Loops(es, v) * k, MAX_LEVEL)
    decreases k
  {
    hide Round, Loops, Start;
    RoundsAreCapped(ordered, es, k);
    if k > 0 {
      LoopsClimb(ordered, es, v, k - 1);
      RoundsAreCapped(ordered, es, k - 1);
      RoundTurns(Rounds(Start(ordered), es, k - 1), es, v);
      assert Loops(es, v) * k == Loops(es, v) * (k - 1) + Loops(es, v);
    }
  }

  lemma {:induction false} PathClimbs(ordered: seq<Node>, es: seq<Edge>, p: seq<string>, v: string, k: nat)
    requires IsPath(es, p, v)
    ensures Level(Rounds(Start(ordered), es, k + |p| - 1), v) >=
            Min(Level(Rounds(Start(ordered), es, k), p[0]) + |p| - 1, MAX_LEVEL)
    decreases |p|
  {
    hide Round, Start, Joins;
    RoundsAreCapped(ordered, es, k);
    if |p| > 1 {
      var u, j := p[|p| - 2], k + |p| - 2;
      PathClimbs(ordered, es, p[..|p| - 1], u, k);
      RoundsAreCapped(ordered, es, j);
      RoundLifts(Rounds(Start(ordered), es, j), es);
      var e := JoinedBy(es, u, v);
      assert Min(Level(Rounds(Start(ordered), es, j), u) + 1, MAX_LEVEL) <= Level(Rounds(Start(ordered), es, j + 1), v);
    }
  }

  lemma CatchingUpReaches(ordered: seq<Node>, es: seq<Edge>, v: string, n: nat)
    requires CatchesUp(es, v, n)
    ensures Level(Rounds(Start(ordered), es, n), v) == MAX_LEVEL
  {
    hide Rounds, Loops, Start;
    var u, d :| 0 <= d <= n && Leads(es, u, v, d) && Loops(es, u) > 0 && Climb(Loops(es, u), d, n) >= MAX_LEVEL;
    var p :| IsPath(es, p, v) && p[0] == u && |p| == d + 1;
    LoopsClimb(ordered, es, u, n - d);
    PathClimbs(ordered, es, p, v, n - d);
    RoundsAreCapped(ordered, es, n);
    assert n - d + |p| - 1 == n;
  }

  // ----- what the slowest order reaches -------------------------------------

  /** Later sources first, and from one source later targets first: links out of a row come before its self-links, and
    * those before the links into it. */
  predicate GoesFirst(ordered: seq<Node>, a: Edge, b: Edge) {
    || OrderOf(ordered, a.source) > OrderOf(ordered, b.source)
    || (OrderOf(ordered, a.source) == OrderOf(ordered, b.source) && OrderOf(ordered, a.target) > OrderOf(ordered, b.target))
  }

  function Slowest(ordered: seq<Node>, es: seq<Edge>): seq<Edge> {
    Sort((a: Edge, b: Edge) => GoesFirst(ordered, a, b), es)
  }

  predicate IsSlow(ordered: seq<Node>, f: seq<Edge>) {
    forall i, j | 0 <= i < j < |f| :: !GoesFirst(ordered, f[j], f[i])
  }

  lemma SlowestIsSlow(ordered: seq<Node>, es: seq<Edge>)
    ensures IsSlow(ordered, Slowest(ordered, es)) && multiset(Slowest(ordered, es)) == multiset(es)
  {
    hide OrderOf;
    var less := (a: Edge, b: Edge) => GoesFirst(ordered, a, b);
    assert IsStrictWeakOrder(less);
    SortIsSorted(less, es);
    SortMembers(less, es);
    var s := Slowest(ordered, es);
    forall i, j | 0 <= i < j < |s| ensures !GoesFirst(ordered, s[j], s[i]) {
      assert !less(s[j], s[i]);
    }
  }

  lemma {:induction false} ForwardKeepsSlow(ordered: seq<Node>, es: seq<Edge>)
    requires IsSlow(ordered, es)
    ensures IsSlow(ordered, Forward(ordered, es))
    decreases |es|
  {
    hide GoesFirst;
    if es != [] {
      var n := |es| - 1;
      ForwardKeepsSlow(ordered, es[..n]);
      var init := Forward(ordered, es[..n]);
      forall i | 0 <= i < |init| ensures !GoesFirst(ordered, es[n], init[i]) {
        assert init[i] in es[..n];
        var k :| 0 <= k < n && es[k] == init[i];
      }
    }
  }

  /** In slow order nothing but its own self-links precedes a row's self-links, and nothing at all leads into a row before
    * the links out of it. */
  lemma SlowSource(ordered: seq<Node>, f: seq<Edge>, m: nat, i: nat)
    requires IsSlow(ordered, f) && i < m < |f| && AreLocal(f, Ids(ordered)) && forall e | e in f :: IsForward(ordered, e)
    requires f[i].target == f[m].source
    ensures f[i].source == f[m].source && f[m].target == f[m].source
  {
    hide OrderOf;
    assert f[i] in f && f[m] in f && !GoesFirst(ordered, f[m], f[i]);
    OrdersAreDistinct(ordered, f[i].source, f[m].source);
    OrdersAreDistinct(ordered, f[m].target, f[m].source);
  }

  /** The level has a path that explains it: its links and the turns of its first row's self-links. */
  ghost predicate Explained(f: seq<Edge>, k: nat, v: string, level: int) {
    exists u, d | 0 <= d <= k :: Leads(f, u, v, d) && level <= Climb(Loops(f, u), d, k)
  }

  lemma ExplainedLater(f: seq<Edge>, k: nat, v: string, level: int, turns: nat)
    requires Explained(f, k, v, level) && turns <= Loops(f, v)
    ensures Explained(f, k + 1, v, level + turns)
  {
    hide Loops, IsPath;
    var u, d :| 0 <= d <= k && Leads(f, u, v, d) && level <= Climb(Loops(f, u), d, k);
    var m, n := Loops(f, u), Loops(f, v);
    assert m * (k + 1 - d) == m * (k - d) + m;
    if n <= m {
      assert level + turns <= Climb(m, d, k + 1);
    } else {
      StandsStill(f, v);
      assert m * (k - d) <= n * (k - d) by { ProductGrows(m, n, k - d); }
      assert n * (k + 1) == n * (k - d) + n * d + n;
      assert d <= n * d by { ProductGrows(1, n, d); }
      assert level + turns <= Climb(n, 0, k + 1);
    }
  }

  lemma StandsStill(f: seq<Edge>, v: string)
    ensures Leads(f, v, v, 0)
  {
    assert IsPath(f, [v], v);
  }

  lemma ProductGrows(a: int, b: int, c: int)
    requires a <= b && 0 <= c
    ensures a * c <= b * c
  {
  }

  lemma ExplainedStep(f: seq<Edge>, k: nat, e: Edge, level: int)
    requires e in f && Explained(f, k, e.source, level)
    ensures Explained(f, k + 1, e.target, level + 1)
  {
    hide Loops, Joins;
    var u, d :| 0 <= d <= k && Leads(f, u, e.source, d) && level <= Climb(Loops(f, u), d, k);
    var p :| IsPath(f, p, e.source) && p[0] == u && |p| == d + 1;
    var q := p + [e.target];
    EdgeJoins(f, e);
    forall i | 0 < i < |q| ensures Joins(f, q[i - 1], q[i]) {
      assert q[i - 1] == p[i - 1];
    }
    assert IsPath(f, q, e.target);
    assert Leads(f, u, e.target, d + 1);
    assert Climb(Loops(f, u), d + 1, k + 1) == Climb(Loops(f, u), d, k) + 1;
  }

  ghost predicate AllExplained(f: seq<Edge>, k: nat, levels: Levels) {
    forall v :: Explained(f, k, v, Level(levels, v))
  }

  predicate OnlyLoopsInto(es: seq<Edge>, v: string) {
    forall e | e in es && e.target == v :: e.source == v
  }

  /** Where only self-links have led so far, only they have lifted. */
  ghost predicate LoopsOnlyLift(before: Levels, after: Levels, done: seq<Edge>) {
    forall v | OnlyLoopsInto(done, v) :: Level(after, v) <= Level(before, v) + Loops(done, v)
  }

  lemma {:induction false} SlowPrefix(ordered: seq<Node>, f: seq<Edge>, k: nat, levels: Levels, m: nat)
    requires IsSlow(ordered, f) && m <= |f| && AreLocal(f, Ids(ordered)) && forall e | e in f :: IsForward(ordered, e)
    requires AllExplained(f, k, levels)
    ensures LoopsOnlyLift(levels, Round(levels, f[..m]), f[..m])
    ensures AllExplained(f, k + 1, Round(levels, f[..m]))
    decreases m
  {
    hide Explained, IsForward, IsSlow, AreLocal, Relax, Loops;
    if m == 0 {
      forall v ensures Explained(f, k + 1, v, Level(levels, v)) {
        assert Explained(f, k, v, Level(levels, v));
        ExplainedLater(f, k, v, Level(levels, v), 0);
      }
    } else {
      SlowPrefix(ordered, f, k, levels, m - 1);
      assert f[..m][..m - 1] == f[..m - 1];
      SlowEdge(ordered, f, k, levels, Round(levels, f[..m - 1]), m - 1);
    }
  }

  lemma SlowEdge(ordered: seq<Node>, f: seq<Edge>, k: nat, before: Levels, now: Levels, m: nat)
    requires IsSlow(ordered, f) && m < |f| && AreLocal(f, Ids(ordered)) && forall e | e in f :: IsForward(ordered, e)
    requires AllExplained(f, k, before) && AllExplained(f, k + 1, now) && LoopsOnlyLift(before, now, f[..m])
    ensures LoopsOnlyLift(before, Relax(now, f[m]), f[..m + 1])
    ensures AllExplained(f, k + 1, Relax(now, f[m]))
  {
    hide Explained, IsForward, IsSlow, AreLocal, Loops;
    var e := f[m];
    var after := Relax(now, e);
    SourceUntouched(ordered, f, before, now, m);
    PrefixLoops(f, m);
    assert f[..m + 1] == f[..m] + [e];
    assert Explained(f, k, e.source, Level(before, e.source));
    forall v | OnlyLoopsInto(f[..m + 1], v) ensures Level(after, v) <= Level(before, v) + Loops(f[..m + 1], v) {
      assert OnlyLoopsInto(f[..m], v);
    }
    forall v ensures Explained(f, k + 1, v, Level(after, v)) {
      assert Explained(f, k + 1, v, Level(now, v));
      if v == e.target && Level(after, v) != Level(now, v) {
        if e.source == e.target {
          ExplainedLater(f, k, v, Level(before, v), Loops(f[..m], v) + 1);
          Lower(f, k + 1, v, Level(before, v) + Loops(f[..m], v) + 1, Level(after, v));
        } else {
          ExplainedStep(f, k, e, Level(before, e.source));
          Lower(f, k + 1, v, Level(before, e.source) + 1, Level(after, v));
        }
      }
    }
  }

  lemma Lower(f: seq<Edge>, k: nat, v: string, level: int, lower: int)
    requires Explained(f, k, v, level) && lower <= level
    ensures Explained(f, k, v, lower)
  {
    hide Leads, Climb;
  }

  lemma PrefixLoops(f: seq<Edge>, m: nat)
    requires m < |f|
    ensures forall v :: Loops(f[..m + 1], v) == Loops(f[..m], v) + if IsLoopAt(f[m], v) then 1 else 0
    ensures forall v :: Loops(f[..m + 1], v) <= Loops(f, v)
  {
    assert f[..m + 1][..m] == f[..m];
    forall v ensures Loops(f[..m + 1], v) <= Loops(f, v) {
      LoopsOfConcat(f[..m + 1], f[m + 1..], v);
      assert f == f[..m + 1] + f[m + 1..];
    }
  }

  /** In slow order a link to another row finds its source at the level of before the round. */
  lemma SourceUntouched(ordered: seq<Node>, f: seq<Edge>, before: Levels, now: Levels, m: nat)
    requires IsSlow(ordered, f) && m < |f| && AreLocal(f, Ids(ordered)) && forall e | e in f :: IsForward(ordered, e)
    requires LoopsOnlyLift(before, now, f[..m])
    ensures var v := f[m].source;
            && OnlyLoopsInto(f[..m], v) && Level(now, v) <= Level(before, v) + Loops(f[..m], v)
            && (f[m].target != v ==> Loops(f[..m], v) == 0)
  {
    hide IsForward, IsSlow, AreLocal, Loops;
    var v := f[m].source;
    forall e | e in f[..m] && e.target == v ensures e.source == v && f[m].target == v {
      var i :| 0 <= i < m && f[i] == e;
      SlowSource(ordered, f, m, i);
    }
    LoopsArePositive(f[..m], v);
  }

  lemma {:induction false} SlowRounds(ordered: seq<Node>, f: seq<Edge>, k: nat)
    requires IsSlow(ordered, f) && AreLocal(f, Ids(ordered)) && forall e | e in f :: IsForward(ordered, e)
    ensures AllExplained(f, k, Rounds(Start(ordered), f, k))
    decreases k
  {
    hide IsForward, IsSlow, AreLocal, Round, Loops, IsPath;
    if k == 0 {
      forall v ensures Explained(f, 0, v, Level(Start(ordered), v)) {
        StandsStill(f, v);
        assert 0 <= Climb(Loops(f, v), 0, 0);
      }
    } else {
      SlowRounds(ordered, f, k - 1);
      SlowPrefix(ordered, f, k - 1, Rounds(Start(ordered), f, k - 1), |f|);
      assert f[..|f|] == f;
    }
  }

  // ----- the exact condition ------------------------------------------------

  /** For every order of the edges the row's level is the length of its longest path, at most eight. */
  ghost predicate AlwaysLongest(ordered: seq<Node>, es: seq<Edge>, v: string) {
    forall shuffled | multiset(shuffled) == multiset(es) ::
      IsCappedLongest(Forward(ordered, es), v, Level(FinalLevels(ordered, shuffled), v))
  }

  lemma SameForward(ordered: seq<Node>, a: seq<Edge>, b: seq<Edge>)
    requires multiset(a) == multiset(b)
    ensures forall e :: e in Forward(ordered, a) <==> e in Forward(ordered, b)
    ensures forall x, y :: Joins(Forward(ordered, a), x, y) <==> Joins(Forward(ordered, b), x, y)
    ensures forall v :: Loops(Forward(ordered, a), v) == Loops(Forward(ordered, b), v)
  {
    hide Joins, IsForward, Loops;
    forall e ensures e in Forward(ordered, a) <==> e in Forward(ordered, b) {
      MultisetEqualMembers(a, b, e);
    }
    forall x, y ensures Joins(Forward(ordered, a), x, y) <==> Joins(Forward(ordered, b), x, y) {
      SameJoins(Forward(ordered, a), Forward(ordered, b), x, y);
    }
    forall v ensures Loops(Forward(ordered, a), v) == Loops(Forward(ordered, b), v) {
      LoopsAreForward(ordered, a, v);
      LoopsAreForward(ordered, b, v);
      LoopsIgnoreOrder(a, b, v);
    }
  }

  lemma SamePaths(a: seq<Edge>, b: seq<Edge>)
    requires forall x, y :: Joins(a, x, y) <==> Joins(b, x, y)
    ensures forall p, v :: IsPath(a, p, v) <==> IsPath(b, p, v)
    ensures forall v, l :: IsCappedLongest(a, v, l) <==> IsCappedLongest(b, v, l)
    ensures forall u, v, d :: Leads(a, u, v, d) <==> Leads(b, u, v, d)
  {
    hide Joins;
    forall u, v, d ensures Leads(a, u, v, d) <==> Leads(b, u, v, d) {
      if p :| |p| == d + 1 && IsPath(a, p, v) && p[0] == u {
        assert IsPath(b, p, v);
      }
      if p :| |p| == d + 1 && IsPath(b, p, v) && p[0] == u {
        assert IsPath(a, p, v);
      }
    }
    forall v, l ensures HasPath(a, v, l) <==> HasPath(b, v, l) {
      if p :| IsPath(a, p, v) && |p| == l + 1 {
        assert IsPath(b, p, v);
      }
      if p :| IsPath(b, p, v) && |p| == l + 1 {
        assert IsPath(a, p, v);
      }
    }
  }

  /** A path that stands still shows a self-linked row before its end. */
  lemma StandstillIsLoop(f: seq<Edge>, p: seq<string>, v: string)
    requires IsPath(f, p, v) && !Moves(p)
    ensures Unbounded(f, v)
  {
    hide Joins, Loops;
    var i :| 0 < i < |p| && p[i - 1] == p[i];
    var e := JoinedBy(f, p[i - 1], p[i]);
    assert IsLoopAt(e, p[i]);
    LoopsArePositive(f, p[i]);
    assert IsPath(f, p[i..], v);
    assert Leads(f, p[i], v, |p| - i - 1);
  }

  /** Behind a self-linked row there are paths of every length. */
  lemma UnboundedHasLongPaths(f: seq<Edge>, v: string, n: nat) returns (q: seq<string>)
    requires Unbounded(f, v)
    ensures IsPath(f, q, v) && |q| > n
  {
    hide Joins, Loops;
    var u, d :| Leads(f, u, v, d) && Loops(f, u) > 0;
    var p :| |p| == d + 1 && IsPath(f, p, v) && p[0] == u;
    LoopsArePositive(f, u);
    var e :| e in f && IsLoopAt(e, u);
    EdgeJoins(f, e);
    q := seq(n, i => u) + p;
    forall i | 0 < i < |q| ensures Joins(f, q[i - 1], q[i]) {
      if i > n {
        assert q[i - 1] == p[i - 1 - n] && q[i] == p[i - n];
      }
    }
  }

  lemma EnoughRounds(ordered: seq<Node>, es: seq<Edge>, shuffled: seq<Edge>, v: string)
    requires v in Ids(ordered) && AreLocal(es, Ids(ordered)) && multiset(shuffled) == multiset(es)
    requires |ordered| >= MAX_LEVEL || !Unbounded(Forward(ordered, es), v) || CatchesUp(Forward(ordered, es), v, |ordered|)
    ensures IsCappedLongest(Forward(ordered, es), v, Level(FinalLevels(ordered, shuffled), v))
  {
    hide IsForward, Rounds, IsCappedLongest, Loops, IsPath, Joins, Moves, Unbounded, CatchesUp;
    var f, g := Forward(ordered, es), Forward(ordered, shuffled);
    SameForward(ordered, es, shuffled);
    SamePaths(f, g);
    forall e | e in shuffled ensures e in es {
      MultisetEqualMembers(es, shuffled, e);
    }
    if |ordered| >= MAX_LEVEL || !Unbounded(f, v) {
      if |ordered| < MAX_LEVEL {
        forall p | IsPath(g, p, v) ensures Moves(p) {
          if !Moves(p) {
            StandstillIsLoop(f, p, v);
          }
        }
      }
      LevelIsLongestPath(ordered, shuffled, v);
    } else {
      SameCatch(f, g, v, |ordered|);
      CatchingUpReaches(ordered, g, v, |ordered|);
      CappedIsLongest(ordered, g, v, |ordered|);
    }
  }

  lemma SameCatch(f: seq<Edge>, g: seq<Edge>, v: string, n: nat)
    requires CatchesUp(f, v, n) && forall u, x, d :: Leads(f, u, x, d) <==> Leads(g, u, x, d)
    requires forall u :: Loops(f, u) == Loops(g, u)
    ensures CatchesUp(g, v, n)
  {
    hide Leads, Loops, Climb;
  }

  lemma CappedIsLongest(ordered: seq<Node>, g: seq<Edge>, v: string, k: nat)
    requires Level(Rounds(Start(ordered), g, k), v) == MAX_LEVEL
    ensures IsCappedLongest(g, v, MAX_LEVEL)
  {
    hide Rounds, HasPath;
    RoundsAreAttained(ordered, g, k);
  }

  /** Otherwise the slowest order leaves the row below the cap, although its paths have no longest. */
  lemma TooFewRounds(ordered: seq<Node>, es: seq<Edge>, v: string)
    requires v in Ids(ordered) && AreLocal(es, Ids(ordered)) && |ordered| < MAX_LEVEL
    requires Unbounded(Forward(ordered, es), v) && !CatchesUp(Forward(ordered, es), v, |ordered|)
    ensures !IsCappedLongest(Forward(ordered, es), v, Level(FinalLevels(ordered, Slowest(ordered, es)), v))
  {
    hide IsForward, Rounds, Loops, IsPath, Joins, Unbounded, CatchesUp, Sort, GoesFirst;
    var slow := Slowest(ordered, es);
    var f, g := Forward(ordered, es), Forward(ordered, slow);
    SlowestIsSlow(ordered, es);
    SameForward(ordered, es, slow);
    SamePaths(f, g);
    forall e | e in g ensures e in es {
      MultisetEqualMembers(es, slow, e);
    }
    ForwardKeepsSlow(ordered, slow);
    SlowRounds(ordered, g, |ordered|);
    var level := Level(FinalLevels(ordered, slow), v);
    RoundsAreCapped(ordered, g, |ordered|);
    assert Explained(g, |ordered|, v, level);
    ExplainedIsLow(f, g, v, |ordered|, level);
    var q := UnboundedHasLongPaths(f, v, level + 1);
  }

  lemma ExplainedIsLow(f: seq<Edge>, g: seq<Edge>, v: string, n: nat, level: int)
    requires Explained(g, n, v, level) && !CatchesUp(f, v, n) && n < MAX_LEVEL
    requires (forall u, x, d :: Leads(f, u, x, d) <==> Leads(g, u, x, d)) && forall u :: Loops(f, u) == Loops(g, u)
    ensures level < MAX_LEVEL
  {
    hide Leads, Loops, Climb;
    var u, d :| 0 <= d <= n && Leads(g, u, v, d) && level <= Climb(Loops(g, u), d, n);
    assert Leads(f, u, v, d);
    NoTurns(d, n);
  }

  lemma NoTurns(d: int, n: int)
    ensures Climb(0, d, n) == d
  {
  }

  /** The exact condition, for every graph and row: the level is right in every order of the edges if and only if there
    * are eight rows, or no self-linked row leads to it, or one does with enough self-links for the rounds there are. */
  lemma LevelsAreLongestExactly(ordered: seq<Node>, es: seq<Edge>, v: string)
    requires v in Ids(ordered) && AreLocal(es, Ids(ordered))
    ensures AlwaysLongest(ordered, es, v) <==>
            || |ordered| >= MAX_LEVEL
            || !Unbounded(Forward(ordered, es), v)
            || CatchesUp(Forward(ordered, es), v, |ordered|)
  {
    hide FinalLevels, IsForward, IsCappedLongest, Unbounded, CatchesUp, Slowest, AreLocal;
    var f := Forward(ordered, es);
    if |ordered| >= MAX_LEVEL || !Unbounded(f, v) || CatchesUp(f, v, |ordered|) {
      forall shuffled | multiset(shuffled) == multiset(es)
        ensures IsCappedLongest(f, v, Level(FinalLevels(ordered, shuffled), v))
      {
        EnoughRounds(ordered, es, shuffled, v);
      }
    } else {
      TooFewRounds(ordered, es, v);
      SlowestIsSlow(ordered, es);
    }
  }

  predicate LoopsAreSingle(es: seq<Edge>, ids: set<string>) {
    forall v | v in ids :: Loops(es, v) <= 1
  }

  /** Where no row has two self-links, all levels are right in every order of the edges if and only if there is no
    * self-link at all or there are eight rows. */
  lemma SingleLoopsExactly(ordered: seq<Node>, es: seq<Edge>)
    requires AreLocal(es, Ids(ordered)) && LoopsAreSingle(es, Ids(ordered))
    ensures (forall v | v in Ids(ordered) :: AlwaysLongest(ordered, es, v)) <==>
            NoSelfLoops(es) || |ordered| >= MAX_LEVEL
  {
    hide AlwaysLongest, IsForward, Loops, IsPath;
    var f := Forward(ordered, es);
    if NoSelfLoops(es) || |ordered| >= MAX_LEVEL {
      forall v | v in Ids(ordered) ensures AlwaysLongest(ordered, es, v) {
        LevelsAreLongestExactly(ordered, es, v);
        if Unbounded(f, v) {
          var u, d :| Leads(f, u, v, d) && Loops(f, u) > 0;
          LoopsArePositive(f, u);
        }
      }
    } else {
      var e :| e in es && e.source == e.target;
      SingleLoopStops(ordered, es, e);
    }
  }

  lemma SingleLoopStops(ordered: seq<Node>, es: seq<Edge>, e: Edge)
    requires AreLocal(es, Ids(ordered)) && LoopsAreSingle(es, Ids(ordered)) && |ordered| < MAX_LEVEL
    requires e in es && e.source == e.target
    ensures !AlwaysLongest(ordered, es, e.source)
  {
    hide AlwaysLongest, OrderOf, Loops, IsPath;
    var f, v := Forward(ordered, es), e.source;
    assert IsLoopAt(e, v) && e in f;
    LoopsArePositive(f, v);
    StandsStill(f, v);
    assert Leads(f, v, v, 0);
    forall u, d | 0 <= d <= |ordered| && Loops(f, u) > 0 ensures Climb(Loops(f, u), d, |ordered|) < MAX_LEVEL {
      LoopsAreForward(ordered, es, u);
      LoopsArePositive(f, u);
      assert u in Ids(ordered);
      assert Loops(f, u) == 1 && Climb(1, d, |ordered|) == |ordered|;
    }
    LevelsAreLongestExactly(ordered, es, v);
  }
}
