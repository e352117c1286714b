/** The browser's layered layout: rows in order, then a bounded relaxation that assigns columns. */
module Layout {
  import opened Text
  import opened Sorting

  // ----- nodes and edges ----------------------------------------------------

  datatype Node = Node(id: string, order: int)

  datatype Edge = Edge(source: string, target: string, predicateName: string, kind: string, isLineage: bool,
                       isExternal: bool)

  /** `compareOrder` is negative. */
  predicate Precedes(a: Node, b: Node) {
    if a.order != b.order then a.order < b.order else StrLess(a.id, b.id)
  }

  function Ids(nodes: seq<Node>): set<string> {
    set n | n in nodes :: n.id
  }

  function IdOf(n: Node): string {
    n.id
  }

  predicate DistinctIds(nodes: seq<Node>) {
    DistinctKeys(IdOf, nodes)
  }

  lemma PrecedesIsStrictWeakOrder()
    ensures IsStrictWeakOrder(Precedes)
  {
    hide StrLess;
    forall x: Node, y: Node ensures Precedes(x, y) ==> !Precedes(y, x) {
      StrLessTrichotomy(x.id, y.id);
    }
    forall x: Node, y: Node, z: Node | Precedes(x, y) && !Precedes(z, y) ensures Precedes(x, z) {
      StrLessTrichotomy(y.id, z.id);
      if StrLess(x.id, y.id) && StrLess(y.id, z.id) {
        StrLessTransitive(x.id, y.id, z.id);
      }
    }
  }

  // ----- partition of the edges ---------------------------------------------

  datatype Partition = Partition(order: seq<Edge>, local: seq<Edge>, lineage: seq<Edge>, external: seq<Edge>)

  datatype Class = OrderEdge | LocalEdge | LineageEdge | ExternalEdge

  function ClassOf(e: Edge, ids: set<string>): Class {
    if e.kind == "checklistOrder" then OrderEdge
    else if e.isLineage then LineageEdge
    else if e.isExternal || e.source !in ids || e.target !in ids then ExternalEdge
    else LocalEdge
  }

  function OfClass(es: seq<Edge>, ids: set<string>, c: Class): seq<Edge> {
    if es == [] then []
    else
      var n := |es| - 1;
      OfClass(es[..n], ids, c) + (if ClassOf(es[n], ids) == c then [es[n]] else [])
  }

  method ClassifyGraphEdges(nodes: seq<Node>, es: seq<Edge>) returns (p: Partition)
    ensures p == Partition(OfClass(es, Ids(nodes), OrderEdge), OfClass(es, Ids(nodes), LocalEdge),
                           OfClass(es, Ids(nodes), LineageEdge), OfClass(es, Ids(nodes), ExternalEdge))
  {
    var ids := set n | n in nodes :: n.id;
    p := Partition([], [], [], []);
    for n := 0 to |es|
      invariant p == Partition(OfClass(es[..n], ids, OrderEdge), OfClass(es[..n], ids, LocalEdge),
                               OfClass(es[..n], ids, LineageEdge), OfClass(es[..n], ids, ExternalEdge))
    {
      var e := es[n];
      assert es[..n + 1][..n] == es[..n];
      if e.kind == "checklistOrder" {
        p := p.(order := p.order + [e]);
      } else if e.isLineage {
        p := p.(lineage := p.lineage + [e]);
      } else if e.isExternal || e.source !in ids || e.target !in ids {
        p := p.(external := p.external + [e]);
      } else {
        p := p.(local := p.local + [e]);
      }
    }
    assert es[..|es|] == es;
  }

  /** Every edge lands in exactly one part, as often as it was given. */
  lemma {:induction false} PartitionConserves(es: seq<Edge>, ids: set<string>, e: Edge)
    ensures multiset(OfClass(es, ids, ClassOf(e, ids)))[e] == multiset(es)[e]
    ensures forall c | c != ClassOf(e, ids) :: e !in OfClass(es, ids, c)
    decreases |es|
  {
    hide ClassOf;
    if es != [] {
      var n := |es| - 1;
      PartitionConserves(es[..n], ids, e);
      assert es == es[..n] + [es[n]];
    }
  }

  lemma {:induction false} OfClassMembers(es: seq<Edge>, ids: set<string>, c: Class)
    ensures forall e :: e in OfClass(es, ids, c) <==> e in es && ClassOf(e, ids) == c
    decreases |es|
  {
    if es != [] {
      var n := |es| - 1;
      OfClassMembers(es[..n], ids, c);
      assert es == es[..n] + [es[n]];
    }
  }

  // ----- levels -------------------------------------------------------------

  const MAX_LEVEL := 8
  const MAX_ROUNDS := 12

  type Levels = map<string, int>

  /** Display order, 1 for the first row; 0 for an id that is not a row. */
  function OrderOf(ordered: seq<Node>, id: string): (k: nat)
    ensures k <= |ordered|
  {
    if ordered == [] then 0
    else if ordered[|ordered| - 1].id == id then |ordered|
    else OrderOf(ordered[..|ordered| - 1], id)
  }

  predicate IsForward(ordered: seq<Node>, e: Edge) {
    OrderOf(ordered, e.source) <= OrderOf(ordered, e.target)
  }

  function Forward(ordered: seq<Node>, es: seq<Edge>): (r: seq<Edge>)
    ensures forall e :: e in r <==> e in es && IsForward(ordered, e)
  {
    if es == [] then []
    else
      var n := |es| - 1;
      assert es == es[..n] + [es[n]];
      Forward(ordered, es[..n]) + (if IsForward(ordered, es[n]) then [es[n]] else [])
  }

  function Level(levels: Levels, id: string): int {
    if id in levels then levels[id] else 0
  }

  function Min(a: int, b: int): int {
    if a < b then a else b
  }

  function Relax(levels: Levels, e: Edge): Levels {
    var next := Level(levels, e.source) + 1;
    if next > Level(levels, e.target) then levels[e.target := Min(next, MAX_LEVEL)] else levels
  }

  /** One pass over the edges, in their order, in place. */
  function Round(levels: Levels, es: seq<Edge>): Levels {
    if es == [] then levels else Relax(Round(levels, es[..|es| - 1]), es[|es| - 1])
  }

  function Rounds(levels: Levels, es: seq<Edge>, k: nat): Levels {
    if k == 0 then levels else Round(Rounds(levels, es, k - 1), es)
  }

  function Start(ordered: seq<Node>): Levels {
    map id | id in Ids(ordered) :: 0
  }

  function FinalLevels(ordered: seq<Node>, es: seq<Edge>): Levels {
    Rounds(Start(ordered), Forward(ordered, es), Min(|ordered|, MAX_ROUNDS))
  }

  // ----- paths --------------------------------------------------------------

  predicate Joins(es: seq<Edge>, a: string, b: string) {
    exists e | e in es :: e.source == a && e.target == b
  }

  predicate IsPath(es: seq<Edge>, p: seq<string>, v: string) {
    && p != [] && p[|p| - 1] == v
    && forall i | 0 < i < |p| :: Joins(es, p[i - 1], p[i])
  }

  ghost predicate HasPath(es: seq<Edge>, v: string, length: int) {
    exists p :: IsPath(es, p, v) && |p| == length + 1
  }

  /** `level` is the length of the longest path ending at `v`, or the cap if that is longer. */
  ghost predicate IsCappedLongest(es: seq<Edge>, v: string, level: int) {
    && 0 <= level <= MAX_LEVEL && HasPath(es, v, level)
    && (level < MAX_LEVEL ==> forall p :: IsPath(es, p, v) ==> |p| <= level + 1)
  }

  // ----- no level is too high -----------------------------------------------

  ghost predicate Attained(es: seq<Edge>, levels: Levels) {
    forall v :: 0 <= Level(levels, v) <= MAX_LEVEL && HasPath(es, v, Level(levels, v))
  }

  lemma StartIsAttained(es: seq<Edge>, ordered: seq<Node>)
    ensures Attained(es, Start(ordered))
  {
    forall v ensures HasPath(es, v, Level(Start(ordered), v)) {
      assert IsPath(es, [v], v);
    }
  }

  lemma RelaxKeepsAttained(es: seq<Edge>, levels: Levels, e: Edge)
    requires Attained(es, levels) && e in es
    ensures Attained(es, Relax(levels, e))
  {
    hide HasPath;
    var l := Level(levels, e.source);
    assert 0 <= l <= MAX_LEVEL && HasPath(es, e.source, l);
    PathExtends(es, e, l);
    forall v ensures 0 <= Level(Relax(levels, e), v) <= MAX_LEVEL && HasPath(es, v, Level(Relax(levels, e), v)) {
      assert 0 <= Level(levels, v) <= MAX_LEVEL && HasPath(es, v, Level(levels, v));
    }
  }

  lemma PathExtends(es: seq<Edge>, e: Edge, l: int)
    requires e in es && 0 <= l <= MAX_LEVEL && HasPath(es, e.source, l)
    ensures HasPath(es, e.target, Min(l + 1, MAX_LEVEL))
  {
    hide Joins;
    var p :| IsPath(es, p, e.source) && |p| == l + 1;
    EdgeJoins(es, e);
    var q := if l < MAX_LEVEL then p else p[1..];
    var r := q + [e.target];
    forall i | 0 < i < |r| ensures Joins(es, r[i - 1], r[i]) {
      if i < |q| {
        assert r[i - 1] == q[i - 1] && r[i] == q[i];
      }
    }
    assert IsPath(es, r, e.target);
  }

  lemma EdgeJoins(es: seq<Edge>, e: Edge)
    requires e in es
    ensures Joins(es, e.source, e.target)
  {
  }

  lemma {:induction false} RoundKeepsAttained(all: seq<Edge>, levels: Levels, es: seq<Edge>)
    requires Attained(all, levels) && forall e | e in es :: e in all
    ensures Attained(all, Round(levels, es))
    decreases |es|
  {
    hide Attained, Relax;
    if es != [] {
      var n := |es| - 1;
      assert es == es[..n] + [es[n]];
      RoundKeepsAttained(all, levels, es[..n]);
      RelaxKeepsAttained(all, Round(levels, es[..n]), es[n]);
    }
  }

  lemma {:induction false} RoundsAreAttained(ordered: seq<Node>, es: seq<Edge>, k: nat)
    ensures Attained(es, Rounds(Start(ordered), es, k))
    decreases k
  {
    hide Attained, Round;
    if k == 0 {
      StartIsAttained(es, ordered);
    } else {
      RoundsAreAttained(ordered, es, k - 1);
      RoundKeepsAttained(es, Rounds(Start(ordered), es, k - 1), es);
    }
  }

  // ----- no level stays too low ---------------------------------------------

  ghost predicate Capped(levels: Levels) {
    forall v :: Level(levels, v) <= MAX_LEVEL
  }

  /** A pass lowers nothing, and lifts every target above its source's level of before the pass. */
  lemma {:induction false} RoundLifts(levels: Levels, es: seq<Edge>)
    requires Capped(levels)
    ensures Capped(Round(levels, es))
    ensures forall v :: Level(levels, v) <= Level(Round(levels, es), v)
    ensures forall e | e in es :: Min(Level(levels, e.source) + 1, MAX_LEVEL) <= Level(Round(levels, es), e.target)
    decreases |es|
  {
    if es != [] {
      var n := |es| - 1;
      assert es == es[..n] + [es[n]];
      RoundLifts(levels, es[..n]);
      RelaxLifts(Round(levels, es[..n]), es[n]);
    }
  }

  lemma RelaxLifts(levels: Levels, e: Edge)
    requires Capped(levels)
    ensures Capped(Relax(levels, e))
    ensures forall v :: Level(levels, v) <= Level(Relax(levels, e), v)
    ensures Min(Level(levels, e.source) + 1, MAX_LEVEL) <= Level(Relax(levels, e), e.target)
  {
    var after := Relax(levels, e);
    assert Level(levels, e.target) <= MAX_LEVEL;
    forall v ensures Level(levels, v) <= Level(after, v) <= MAX_LEVEL {
      assert v != e.target ==> Level(after, v) == Level(levels, v);
      assert Level(levels, v) <= MAX_LEVEL;
    }
  }

  lemma {:induction false} RoundsReach(ordered: seq<Node>, es: seq<Edge>, k: nat, p: seq<string>, v: string)
    requires IsPath(es, p, v) && |p| <= k + 1
    ensures Capped(Rounds(Start(ordered), es, k))
    ensures Min(|p| - 1, MAX_LEVEL) <= Level(Rounds(Start(ordered), es, k), v)
    decreases k
  {
    hide Round, Start, Joins;
    RoundsAreAttained(ordered, es, k);
    AttainedIsCapped(es, Rounds(Start(ordered), es, k));
    if |p| > 1 {
      var u := p[|p| - 2];
      RoundsReach(ordered, es, k - 1, p[..|p| - 1], u);
      RoundLifts(Rounds(Start(ordered), es, k - 1), es);
      var e := JoinedBy(es, u, v);
      assert Min(Level(Rounds(Start(ordered), es, k - 1), u) + 1, MAX_LEVEL) <= Level(Rounds(Start(ordered), es, k), v);
    }
  }

  lemma JoinedBy(es: seq<Edge>, a: string, b: string) returns (e: Edge)
    requires Joins(es, a, b)
    ensures e in es && e.source == a && e.target == b
  {
    e :| e in es && e.source == a && e.target == b;
  }

  lemma AttainedIsCapped(es: seq<Edge>, levels: Levels)
    requires Attained(es, levels)
    ensures Capped(levels) && forall v :: Level(levels, v) >= 0
  {
  }

  // ----- forward paths are short --------------------------------------------

  /** Edges between rows, none from a row to itself. */
  predicate AreLocal(es: seq<Edge>, ids: set<string>) {
    forall e | e in es :: e.source in ids && e.target in ids
  }

  predicate NoSelfLoops(es: seq<Edge>) {
    forall e | e in es :: e.source != e.target
  }

  lemma {:induction false} OrdersAreDistinct(ordered: seq<Node>, a: string, b: string)
    requires a in Ids(ordered) && b in Ids(ordered) && OrderOf(ordered, a) == OrderOf(ordered, b)
    ensures a == b && OrderOf(ordered, a) > 0
    decreases |ordered|
  {
    var n := |ordered| - 1;
    assert ordered == ordered[..n] + [ordered[n]];
    if ordered[n].id != a && ordered[n].id != b {
      OrdersAreDistinct(ordered[..n], a, b);
    }
  }

  /** No row twice in a row. */
  predicate Moves(p: seq<string>) {
    forall i | 0 < i < |p| :: p[i - 1] != p[i]
  }

  /** Along a forward path without self-links the display order grows, so no path has more nodes than there are rows. */
  lemma {:induction false} ForwardPathsAreShort(ordered: seq<Node>, es: seq<Edge>, p: seq<string>, v: string)
    requires AreLocal(es, Ids(ordered)) && IsPath(Forward(ordered, es), p, v) && Moves(p) && v in Ids(ordered)
    ensures |p| <= OrderOf(ordered, v)
    decreases |p|
  {
    hide OrderOf, Forward;
    if |p| > 1 {
      var u := p[|p| - 2];
      var e := JoinedBy(Forward(ordered, es), u, v);
      ForwardPathsAreShort(ordered, es, p[..|p| - 1], u);
      if OrderOf(ordered, u) == OrderOf(ordered, v) {
        OrdersAreDistinct(ordered, u, v);
        assert false;
      }
    } else {
      OrdersAreDistinct(ordered, v, v);
    }
  }

  lemma PathsMove(es: seq<Edge>, f: seq<Edge>, p: seq<string>, v: string)
    requires NoSelfLoops(es) && (forall e | e in f :: e in es) && IsPath(f, p, v)
    ensures Moves(p)
  {
    forall i | 0 < i < |p| ensures p[i - 1] != p[i] {
      var e := JoinedBy(f, p[i - 1], p[i]);
    }
  }

  // ----- the laws of the levels ---------------------------------------------

  /** The rounds follow every path that matters: no path to the row stands still, or there are eight rounds. */
  ghost predicate RoundsSuffice(ordered: seq<Node>, es: seq<Edge>, v: string) {
    |ordered| >= MAX_LEVEL || forall p :: IsPath(Forward(ordered, es), p, v) ==> Moves(p)
  }

  lemma LevelIsLongestPath(ordered: seq<Node>, es: seq<Edge>, v: string)
    requires v in Ids(ordered) && AreLocal(es, Ids(ordered)) && RoundsSuffice(ordered, es, v)
    ensures IsCappedLongest(Forward(ordered, es), v, Level(FinalLevels(ordered, es), v))
  {
    hide Rounds, Forward, OrderOf, IsPath, AreLocal, RoundsSuffice;
    var f, k := Forward(ordered, es), Min(|ordered|, MAX_ROUNDS);
    RoundsAreAttained(ordered, f, k);
    AttainedIsCapped(f, FinalLevels(ordered, es));
    var l := Level(FinalLevels(ordered, es), v);
    assert HasPath(f, v, l);
    if l < MAX_LEVEL {
      forall p | IsPath(f, p, v) ensures |p| <= l + 1 {
        if |p| <= k + 1 {
          RoundsReach(ordered, f, k, p, v);
        } else {
          var q := Shortened(f, p, v, MAX_LEVEL + 1, ordered, es);
          RoundsReach(ordered, f, k, q, v);
        }
      }
    }
  }

  /** A path longer than the rounds can follow only exists when there are at least eight rounds; its end suffices. */
  lemma Shortened(f: seq<Edge>, p: seq<string>, v: string, n: nat, ordered: seq<Node>, es: seq<Edge>)
    returns (q: seq<string>)
    requires f == Forward(ordered, es) && v in Ids(ordered) && AreLocal(es, Ids(ordered))
    requires RoundsSuffice(ordered, es, v)
    requires IsPath(f, p, v) && |p| > Min(|ordered|, MAX_ROUNDS) + 1 && n == MAX_LEVEL + 1
    ensures IsPath(f, q, v) && |q| == n && n <= Min(|ordered|, MAX_ROUNDS) + 1
  {
    hide OrderOf, Forward, Joins;
    if |ordered| < MAX_LEVEL {
      ForwardPathsAreShort(ordered, es, p, v);
    }
    q := p[|p| - n..];
  }

  /** Whatever the order of the edges, each row's level is the length of the longest forward path ending there, at most
    * eight, when there are eight rows or no self-links. `LayoutLevels` says exactly when it is. */
  lemma LevelsAreLongestPaths(ordered: seq<Node>, es: seq<Edge>, v: string)
    requires v in Ids(ordered) && AreLocal(es, Ids(ordered)) && (NoSelfLoops(es) || |ordered| >= MAX_LEVEL)
    ensures IsCappedLongest(Forward(ordered, es), v, Level(FinalLevels(ordered, es), v))
  {
    hide IsPath, FinalLevels, IsForward, IsCappedLongest, Moves, AreLocal, NoSelfLoops;
    if |ordered| < MAX_LEVEL {
      forall p | IsPath(Forward(ordered, es), p, v) ensures Moves(p) {
        PathsMove(es, Forward(ordered, es), p, v);
      }
    }
    LevelIsLongestPath(ordered, es, v);
  }

  // ----- early exit ---------------------------------------------------------

  lemma {:induction false} StableRounds(levels: Levels, es: seq<Edge>, k: nat, m: nat)
    requires k <= m && Round(Rounds(levels, es, k), es) == Rounds(levels, es, k)
    ensures Rounds(levels, es, m) == Rounds(levels, es, k)
    decreases m
  {
    hide Round;
    if k < m {
      StableRounds(levels, es, k, m - 1);
    }
  }

  lemma {:induction false} LevelKeys(ordered: seq<Node>, es: seq<Edge>, k: nat)
    requires AreLocal(es, Ids(ordered))
    ensures Rounds(Start(ordered), es, k).Keys == Ids(ordered)
    decreases k
  {
    hide Round;
    if k > 0 {
      LevelKeys(ordered, es, k - 1);
      RoundKeys(Rounds(Start(ordered), es, k - 1), es);
    }
  }

  lemma {:induction false} RoundKeys(levels: Levels, es: seq<Edge>)
    requires forall e | e in es :: e.target in levels
    ensures Round(levels, es).Keys == levels.Keys
    decreases |es|
  {
    if es != [] {
      var n := |es| - 1;
      assert es == es[..n] + [es[n]];
      RoundKeys(levels, es[..n]);
    }
  }

  // ----- positions ----------------------------------------------------------

  datatype Point = Point(x: int, y: int)

  function Place(level: int, index: nat): Point {
    Point(54 + level * 260, 64 + index * 76)
  }

  /** The rows of one level, in display order. */
  function Column(ordered: seq<Node>, levels: Levels, level: int): (r: seq<Node>)
    ensures forall n :: n in r <==> n in ordered && Level(levels, n.id) == level
  {
    if ordered == [] then []
    else
      var k := |ordered| - 1;
      assert ordered == ordered[..k] + [ordered[k]];
      Column(ordered[..k], levels, level) + (if Level(levels, ordered[k].id) == level then [ordered[k]] else [])
  }

  function PlaceColumn(positions: map<string, Point>, members: seq<Node>, level: int): map<string, Point> {
    if members == [] then positions
    else
      var k := |members| - 1;
      PlaceColumn(positions, members[..k], level)[members[k].id := Place(level, k)]
  }

  /** The positions of the levels below `top`. */
  function PlaceBelow(ordered: seq<Node>, levels: Levels, top: nat): map<string, Point> {
    if top == 0 then map[]
    else PlaceColumn(PlaceBelow(ordered, levels, top - 1), Sort(Precedes, Column(ordered, levels, top - 1)), top - 1)
  }

  function Positions(ordered: seq<Node>, levels: Levels): map<string, Point> {
    PlaceBelow(ordered, levels, MAX_LEVEL + 1)
  }

  method LayoutNodes(nodes: seq<Node>, es: seq<Edge>)
    returns (ordered: seq<Node>, positions: map<string, Point>, columnCount: int)
    requires AreLocal(es, Ids(nodes))
    ensures ordered == Sort(Precedes, nodes)
    ensures positions == Positions(ordered, FinalLevels(ordered, es))
    ensures columnCount == if ordered == [] then 1 else |set n | n in ordered :: Level(FinalLevels(ordered, es), n.id)|
  {
    hide OrderOf, Precedes, Sort;
    ordered := Sort(Precedes, nodes);
    SortKeepsIds(nodes);
    var ids := set n | n in ordered :: n.id;
    var levels: Levels := map id | id in ids :: 0;
    var forward := Forward(ordered, es);
    var limit := if |ordered| < MAX_ROUNDS then |ordered| else MAX_ROUNDS;
    var round, changed := 0, true;
    while round < limit && changed
      invariant round <= limit && levels == Rounds(Start(ordered), forward, round)
      invariant !changed ==> Round(levels, forward) == levels
    {
      ghost var before := levels;
      levels, changed := RunRound(levels, forward);
      round := round + 1;
    }
    if !changed {
      StableRounds(Start(ordered), forward, round, limit);
    }
    LevelKeys(ordered, forward, limit);
    RoundsAreAttained(ordered, forward, limit);
    positions, columnCount := PlaceColumns(ordered, levels, forward);
  }

  lemma SortKeepsIds(nodes: seq<Node>)
    ensures Ids(Sort(Precedes, nodes)) == Ids(nodes) && |Sort(Precedes, nodes)| == |nodes|
    ensures forall n :: n in Sort(Precedes, nodes) <==> n in nodes
  {
    hide Precedes, Sort;
    SortMembers(Precedes, nodes);
    forall n ensures n in Sort(Precedes, nodes) <==> n in nodes {
      MultisetEqualMembers(Sort(Precedes, nodes), nodes, n);
    }
  }

  method RunRound(start: Levels, forward: seq<Edge>) returns (levels: Levels, changed: bool)
    ensures levels == Round(start, forward)
    ensures !changed ==> levels == start
  {
    levels, changed := start, false;
    for n := 0 to |forward|
      invariant levels == Round(start, forward[..n]) && (!changed ==> levels == start)
    {
      var e := forward[n];
      assert forward[..n + 1][..n] == forward[..n];
      var next := Level(levels, e.source) + 1;
      if next > Level(levels, e.target) {
        levels := levels[e.target := Min(next, MAX_LEVEL)];
        changed := true;
      }
    }
    assert forward[..|forward|] == forward;
  }

  function ColumnAt(columns: map<int, seq<Node>>, level: int): seq<Node> {
    if level in columns then columns[level] else []
  }

  method BuildColumns(ordered: seq<Node>, levels: Levels) returns (columns: map<int, seq<Node>>)
    ensures forall l :: ColumnAt(columns, l) == Column(ordered, levels, l)
    ensures forall l | l in columns :: columns[l] != []
  {
    hide Column, Level;
    columns := map[];
    ColumnsOfNone(ordered[..0], levels);
    for k := 0 to |ordered|
      invariant forall l :: ColumnAt(columns, l) == Column(ordered[..k], levels, l)
      invariant forall l | l in columns :: columns[l] != []
    {
      ghost var before := columns;
      assert ordered[..k + 1][..k] == ordered[..k];
      var level := Level(levels, ordered[k].id);
      if level !in columns {
        columns := columns[level := []];
      }
      columns := columns[level := columns[level] + [ordered[k]]];
      ColumnsGrow(ordered[..k + 1], levels, before, columns);
    }
    assert ordered[..|ordered|] == ordered;
  }

  lemma ColumnsOfNone(none: seq<Node>, levels: Levels)
    requires none == []
    ensures forall l :: ColumnAt(map[], l) == Column(none, levels, l)
  {
  }

  lemma ColumnsGrow(ordered: seq<Node>, levels: Levels, before: map<int, seq<Node>>, after: map<int, seq<Node>>)
    requires ordered != [] && forall l :: ColumnAt(before, l) == Column(ordered[..|ordered| - 1], levels, l)
    requires var n := ordered[|ordered| - 1];
             after == before[Level(levels, n.id) := ColumnAt(before, Level(levels, n.id)) + [n]]
    ensures forall l :: ColumnAt(after, l) == Column(ordered, levels, l)
  {
    var n := ordered[|ordered| - 1];
    forall l ensures ColumnAt(after, l) == Column(ordered, levels, l) {
      assert ColumnAt(before, l) == Column(ordered[..|ordered| - 1], levels, l);
      assert l != Level(levels, n.id) ==> Column(ordered, levels, l) == ColumnAt(before, l) + [];
    }
  }

  method PlaceColumns(ordered: seq<Node>, levels: Levels, ghost forward: seq<Edge>)
    returns (positions: map<string, Point>, columnCount: int)
    requires Attained(forward, levels)
    ensures positions == Positions(ordered, levels)
    ensures columnCount == if ordered == [] then 1 else |set n | n in ordered :: Level(levels, n.id)|
  {
    hide Attained, Precedes, Sort, Column, PlaceColumn;
    AttainedIsCapped(forward, levels);
    var columns := BuildColumns(ordered, levels);
    ColumnsAreLevels(ordered, levels, columns);
    columnCount := if |columns| > 1 then |columns| else 1;
    positions := map[];
    for level := 0 to MAX_LEVEL + 1
      invariant positions == PlaceBelow(ordered, levels, level)
    {
      assert ColumnAt(columns, level) == Column(ordered, levels, level);
      if level in columns {
        positions := SetColumn(positions, Sort(Precedes, columns[level]), level);
      } else {
        EmptyColumn(positions, level);
      }
    }
  }

  lemma EmptyColumn(positions: map<string, Point>, level: int)
    ensures PlaceColumn(positions, Sort(Precedes, []), level) == positions
  {
  }

  lemma ColumnsAreLevels(ordered: seq<Node>, levels: Levels, columns: map<int, seq<Node>>)
    requires forall l :: ColumnAt(columns, l) == Column(ordered, levels, l)
    requires forall l | l in columns :: columns[l] != []
    ensures columns.Keys == set n | n in ordered :: Level(levels, n.id)
    ensures |columns| == |columns.Keys| && (|columns| == 0 <==> ordered == [])
  {
    hide Level, Column;
    forall l | l in columns ensures exists n :: n in ordered && Level(levels, n.id) == l {
      assert columns[l][0] in ColumnAt(columns, l);
    }
    forall n | n in ordered ensures Level(levels, n.id) in columns {
      assert n in Column(ordered, levels, Level(levels, n.id));
    }
    if ordered != [] {
      assert Level(levels, ordered[0].id) in columns;
    }
  }

  method SetColumn(start: map<string, Point>, members: seq<Node>, level: int) returns (positions: map<string, Point>)
    ensures positions == PlaceColumn(start, members, level)
  {
    positions := start;
    for k := 0 to |members|
      invariant positions == PlaceColumn(start, members[..k], level)
    {
      assert members[..k + 1][..k] == members[..k];
      positions := positions[members[k].id := Place(level, k)];
    }
    assert members[..|members|] == members;
  }

  // ----- the laws of the positions ------------------------------------------

  lemma SortedSnoc(s: seq<Node>, n: Node)
    requires Sorted(Precedes, s) && forall i | 0 <= i < |s| :: !Precedes(n, s[i])
    ensures Sorted(Precedes, s + [n])
  {
    hide Precedes;
  }

  lemma DistinctSnoc(s: seq<Node>, n: Node)
    ensures DistinctIds(s + [n]) <==> DistinctIds(s) && n.id !in Ids(s)
  {
    var t := s + [n];
    assert forall i | 0 <= i < |s| :: t[i] == s[i];
    assert t[|s|] == n;
    if DistinctIds(t) {
      assert forall i, j | 0 <= i < j < |s| :: IdOf(t[i]) != IdOf(t[j]);
      assert forall i | 0 <= i < |s| :: IdOf(t[i]) != IdOf(t[|s|]);
    }
  }

  lemma SortedInit(s: seq<Node>, n: Node)
    requires Sorted(Precedes, s + [n])
    ensures Sorted(Precedes, s) && forall m | m in s :: !Precedes(n, m)
  {
    hide Precedes;
    var t := s + [n];
    forall i | 0 <= i < |s| ensures !Precedes(n, s[i]) {
      assert !Precedes(t[|s|], t[i]);
    }
    forall i, j | 0 <= i < j < |s| ensures !Precedes(s[j], s[i]) {
      assert !Precedes(t[j], t[i]);
    }
  }

  /** A column of sorted, distinct rows is sorted and distinct, so sorting it again changes nothing. */
  lemma {:induction false} ColumnKeeps(ordered: seq<Node>, levels: Levels, level: int)
    requires Sorted(Precedes, ordered) && DistinctIds(ordered)
    ensures Sorted(Precedes, Column(ordered, levels, level)) && DistinctIds(Column(ordered, levels, level))
    decreases |ordered|
  {
    hide Precedes, Level, Sorted, DistinctIds;
    if ordered == [] {
      NoNodes();
    } else {
      var k := |ordered| - 1;
      var c := Column(ordered[..k], levels, level);
      assert ordered == ordered[..k] + [ordered[k]];
      SortedInit(ordered[..k], ordered[k]);
      DistinctSnoc(ordered[..k], ordered[k]);
      ColumnKeeps(ordered[..k], levels, level);
      assert forall i | 0 <= i < |c| :: !Precedes(ordered[k], c[i]) by {
        assert forall n | n in c :: !Precedes(ordered[k], n);
      }
      if Level(levels, ordered[k].id) == level {
        SortedSnoc(c, ordered[k]);
        DistinctSnoc(c, ordered[k]);
      } else {
        assert c + [] == c;
      }
    }
  }

  lemma NoNodes()
    ensures Sorted(Precedes, []) && DistinctIds([])
  {
  }

  ghost predicate PlacedAt(positions: map<string, Point>, members: seq<Node>, level: int) {
    forall k | 0 <= k < |members| :: members[k].id in positions && positions[members[k].id] == Place(level, k)
  }

  lemma {:induction false} PlaceColumnPlaces(positions: map<string, Point>, members: seq<Node>, level: int)
    requires DistinctIds(members)
    ensures PlacedAt(PlaceColumn(positions, members, level), members, level)
    decreases |members|
  {
    hide Place, DistinctIds;
    if members != [] {
      var k := |members| - 1;
      assert members == members[..k] + [members[k]];
      DistinctSnoc(members[..k], members[k]);
      PlaceColumnPlaces(positions, members[..k], level);
      forall i | 0 <= i < k ensures members[i].id in Ids(members[..k]) {
        assert members[..k][i] == members[i];
      }
    }
  }

  lemma {:induction false} PlaceColumnKeeps(positions: map<string, Point>, members: seq<Node>, level: int, id: string)
    requires id in positions && id !in Ids(members)
    ensures id in PlaceColumn(positions, members, level) && PlaceColumn(positions, members, level)[id] == positions[id]
    decreases |members|
  {
    hide Place;
    if members != [] {
      var k := |members| - 1;
      assert members == members[..k] + [members[k]];
      PlaceColumnKeeps(positions, members[..k], level, id);
    }
  }

  lemma {:induction false} PlaceBelowPlaces(ordered: seq<Node>, levels: Levels, top: nat, level: int)
    requires Sorted(Precedes, ordered) && DistinctIds(ordered) && 0 <= level < top
    ensures PlacedAt(PlaceBelow(ordered, levels, top), Column(ordered, levels, level), level)
    decreases top
  {
    hide Sorted, Precedes, PlaceColumn, Level, Sort, Column;
    var c := Column(ordered, levels, top - 1);
    ColumnKeeps(ordered, levels, top - 1);
    SortOfSorted(Precedes, c);
    var below := PlaceBelow(ordered, levels, top - 1);
    if level == top - 1 {
      PlaceColumnPlaces(below, c, level);
    } else {
      PlaceBelowPlaces(ordered, levels, top - 1, level);
      ColumnsAreDisjoint(ordered, levels, level, top - 1);
      var members := Column(ordered, levels, level);
      forall k | 0 <= k < |members|
        ensures members[k].id in PlaceColumn(below, c, top - 1)
        ensures PlaceColumn(below, c, top - 1)[members[k].id] == Place(level, k)
      {
        assert members[k].id in Ids(members);
        PlaceColumnKeeps(below, c, top - 1, members[k].id);
      }
    }
  }

  lemma ColumnsAreDisjoint(ordered: seq<Node>, levels: Levels, a: int, b: int)
    requires a != b
    ensures Ids(Column(ordered, levels, a)) !! Ids(Column(ordered, levels, b))
  {
  }

  /** Rows with different ids get different positions. */
  lemma PositionsAreDistinct(nodes: seq<Node>, es: seq<Edge>, a: string, b: string)
    requires DistinctIds(nodes) && a in Ids(nodes) && b in Ids(nodes) && a != b
    ensures var ordered := Sort(Precedes, nodes);
            var p := Positions(ordered, FinalLevels(ordered, es));
            a in p && b in p && p[a] != p[b]
  {
    hide Precedes, Sort, FinalLevels, PlaceBelow, Column;
    var ordered := Sort(Precedes, nodes);
    SortKeepsIds(nodes);
    var k := PositionOf(nodes, es, a);
    var l := PositionOf(nodes, es, b);
  }

  /** A row stands in the column of its level, at its place among the rows of that level in display order. */
  lemma PositionOf(nodes: seq<Node>, es: seq<Edge>, id: string) returns (k: nat)
    requires DistinctIds(nodes) && id in Ids(nodes)
    ensures var ordered := Sort(Precedes, nodes);
            var levels := FinalLevels(ordered, es);
            var c := Column(ordered, levels, Level(levels, id));
            && k < |c| && c[k].id == id
            && id in Positions(ordered, levels) && Positions(ordered, levels)[id] == Place(Level(levels, id), k)
  {
    hide Precedes, Sort, PlaceBelow, Column, Sorted, Forward, Rounds, Place;
    var ordered := Sort(Precedes, nodes);
    var levels := FinalLevels(ordered, es);
    PrecedesIsStrictWeakOrder();
    SortIsSorted(Precedes, nodes);
    SortKeepsDistinct(Precedes, IdOf, nodes);
    SortKeepsIds(nodes);
    RoundsAreAttained(ordered, Forward(ordered, es), Min(|ordered|, MAX_ROUNDS));
    AttainedIsCapped(Forward(ordered, es), levels);
    var n :| n in nodes && n.id == id;
    var c := Column(ordered, levels, Level(levels, id));
    assert n in ordered && n in c;
    k :| 0 <= k < |c| && c[k] == n;
    PlaceBelowPlaces(ordered, levels, MAX_LEVEL + 1, Level(levels, id));
  }

  /** Every edge to a later row leads strictly to the right, unless its source is already in the last column. */
  lemma EdgesLeadRight(nodes: seq<Node>, es: seq<Edge>, e: Edge)
    requires DistinctIds(nodes) && AreLocal(es, Ids(nodes)) && (NoSelfLoops(es) || |nodes| >= MAX_LEVEL)
    requires e in es && IsForward(Sort(Precedes, nodes), e)
    ensures var ordered := Sort(Precedes, nodes);
            var p := Positions(ordered, FinalLevels(ordered, es));
            && e.source in p && e.target in p
            && (p[e.source].x < p[e.target].x || p[e.source].x == Place(MAX_LEVEL, 0).x)
  {
    hide Precedes, Sort, PlaceBelow, FinalLevels, DistinctIds, Column, IsForward, AreLocal, NoSelfLoops, HasPath;
    var ordered := Sort(Precedes, nodes);
    var levels := FinalLevels(ordered, es);
    SortKeepsIds(nodes);
    LocalEnds(es, e, Ids(nodes));
    var k := PositionOf(nodes, es, e.source);
    var l := PositionOf(nodes, es, e.target);
    LevelsAreLongestPaths(ordered, es, e.source);
    LevelsAreLongestPaths(ordered, es, e.target);
    var from, to := Level(levels, e.source), Level(levels, e.target);
    if from < MAX_LEVEL && to < MAX_LEVEL {
      PathExtends(Forward(ordered, es), e, from);
      LongestBounds(Forward(ordered, es), e.target, to, from + 1);
    }
  }

  lemma LocalEnds(es: seq<Edge>, e: Edge, ids: set<string>)
    requires AreLocal(es, ids) && e in es
    ensures e.source in ids && e.target in ids
  {
  }

  lemma LongestBounds(es: seq<Edge>, v: string, level: int, length: int)
    requires IsCappedLongest(es, v, level) && level < MAX_LEVEL && HasPath(es, v, length)
    ensures length <= level
  {
  }

  // ----- determinism --------------------------------------------------------

  lemma CappedLongestIsUnique(a: seq<Edge>, b: seq<Edge>, v: string, k: int, l: int)
    requires IsCappedLongest(a, v, k) && IsCappedLongest(b, v, l) && forall e :: e in a <==> e in b
    ensures k == l
  {
    hide Joins;
    forall x, y ensures Joins(a, x, y) <==> Joins(b, x, y) {
      SameJoins(a, b, x, y);
    }
    var p :| IsPath(a, p, v) && |p| == k + 1;
    var q :| IsPath(b, q, v) && |q| == l + 1;
    assert IsPath(b, p, v) && IsPath(a, q, v);
  }

  lemma SameJoins(a: seq<Edge>, b: seq<Edge>, x: string, y: string)
    requires forall e :: e in a <==> e in b
    ensures Joins(a, x, y) <==> Joins(b, x, y)
  {
  }

  lemma DistinctSeparates(nodes: seq<Node>)
    requires DistinctIds(nodes)
    ensures Separates(Precedes, nodes)
  {
    hide StrLess;
    forall i, j | 0 <= i < |nodes| && 0 <= j < |nodes| && i != j
      ensures Precedes(nodes[i], nodes[j]) || Precedes(nodes[j], nodes[i])
    {
      StrLessTrichotomy(nodes[i].id, nodes[j].id);
      assert i < j ==> IdOf(nodes[i]) != IdOf(nodes[j]);
      assert j < i ==> IdOf(nodes[j]) != IdOf(nodes[i]);
    }
  }

  /** The layout depends on neither the order of the rows nor the order of the edges. */
  lemma LayoutIgnoresOrder(nodes: seq<Node>, es: seq<Edge>, shuffledNodes: seq<Node>, shuffledEdges: seq<Edge>)
    requires multiset(nodes) == multiset(shuffledNodes) && multiset(es) == multiset(shuffledEdges)
    requires DistinctIds(nodes) && AreLocal(es, Ids(nodes)) && (NoSelfLoops(es) || |nodes| >= MAX_LEVEL)
    ensures Sort(Precedes, nodes) == Sort(Precedes, shuffledNodes)
    ensures var ordered := Sort(Precedes, nodes);
            Positions(ordered, FinalLevels(ordered, es)) == Positions(ordered, FinalLevels(ordered, shuffledEdges))
  {
    hide Precedes, Sort, Positions, Forward, OrderOf;
    PrecedesIsStrictWeakOrder();
    DistinctSeparates(nodes);
    SortIgnoresOrder(Precedes, nodes, shuffledNodes);
    SortKeepsIds(nodes);
    var ordered := Sort(Precedes, nodes);
    forall e ensures e in es <==> e in shuffledEdges {
      MultisetEqualMembers(es, shuffledEdges, e);
    }
    LevelsIgnoreOrder(ordered, es, shuffledEdges);
  }

  lemma LevelsIgnoreOrder(ordered: seq<Node>, a: seq<Edge>, b: seq<Edge>)
    requires (forall e :: e in a <==> e in b) && AreLocal(a, Ids(ordered))
    requires NoSelfLoops(a) || |ordered| >= MAX_LEVEL
    ensures FinalLevels(ordered, a) == FinalLevels(ordered, b)
  {
    hide IsForward, Rounds, IsCappedLongest;
    var k := Min(|ordered|, MAX_ROUNDS);
    LevelKeys(ordered, Forward(ordered, a), k);
    LevelKeys(ordered, Forward(ordered, b), k);
    forall v | v in Ids(ordered) ensures FinalLevels(ordered, a)[v] == FinalLevels(ordered, b)[v] {
      LevelsAreLongestPaths(ordered, a, v);
      LevelsAreLongestPaths(ordered, b, v);
      CappedLongestIsUnique(Forward(ordered, a), Forward(ordered, b), v,
                            Level(FinalLevels(ordered, a), v), Level(FinalLevels(ordered, b), v));
    }
  }
}
