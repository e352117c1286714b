/** The full and drill-down projections of the browser: hubs, external targets, and which edges get drawn. */
module Projection {
  import opened Text
  import opened Sorting
  import opened Layout

  // ----- the operational edges ----------------------------------------------

  function Operational(es: seq<Edge>, ids: set<string>): seq<Edge> {
    OfClass(es, ids, LocalEdge) + OfClass(es, ids, LineageEdge) + OfClass(es, ids, ExternalEdge)
  }

  // ----- hubs ---------------------------------------------------------------

  datatype HubKind = LineageHub | ExternalHub | LocalHub

  /** The group of an edge: its kind, from its own flags, and its predicate. */
  datatype HubKey = HubKey(kind: HubKind, predicateName: string)

  datatype Hub = Hub(key: HubKey, edges: seq<Edge>)

  function KeyOf(e: Edge): HubKey {
    HubKey(if e.isLineage then LineageHub else if e.isExternal then ExternalHub else LocalHub,
           if e.predicateName == "" then "(unnamed predicate)" else e.predicateName)
  }

  function OfKey(es: seq<Edge>, key: HubKey): seq<Edge> {
    if es == [] then []
    else
      var n := |es| - 1;
      OfKey(es[..n], key) + (if KeyOf(es[n]) == key then [es[n]] else [])
  }

  /** The keys in order of first appearance. */
  function KeysOf(es: seq<Edge>): seq<HubKey> {
    if es == [] then []
    else
      var n := |es| - 1;
      var earlier := KeysOf(es[..n]);
      if KeyOf(es[n]) in earlier then earlier else earlier + [KeyOf(es[n])]
  }

  function HubsOf(es: seq<Edge>): seq<Hub> {
    var keys := KeysOf(es);
    seq(|keys|, i requires 0 <= i < |keys| => Hub(keys[i], OfKey(es, keys[i])))
  }

  method GroupByPredicate(es: seq<Edge>) returns (hubs: seq<Hub>)
    ensures hubs == HubsOf(es)
  {
    hide OfKey, KeyOf;
    var keys: seq<HubKey>, groups: map<HubKey, seq<Edge>> := [], map[];
    NoGroups();
    for n := 0 to |es|
      invariant keys == KeysOf(es[..n]) && forall k :: (k in keys <==> k in groups) && GroupAt(groups, k) == OfKey(es[..n], k)
    {
      var key := KeyOf(es[n]);
      GroupsGrow(es[..n], es[n], groups);
      assert es[..n + 1] == es[..n] + [es[n]] && es[..n + 1][..n] == es[..n];
      if key !in groups {
        keys := keys + [key];
        groups := groups[key := []];
      }
      groups := groups[key := groups[key] + [es[n]]];
    }
    assert es[..|es|] == es;
    hubs := seq(|keys|, i requires 0 <= i < |keys| && keys[i] in groups => Hub(keys[i], groups[keys[i]]));
    assert forall i | 0 <= i < |keys| :: GroupAt(groups, keys[i]) == OfKey(es, keys[i]);
  }

  function GroupAt(groups: map<HubKey, seq<Edge>>, k: HubKey): seq<Edge> {
    if k in groups then groups[k] else []
  }

  lemma NoGroups()
    ensures forall k :: GroupAt(map[], k) == [] == OfKey([], k)
  {
  }

  lemma GroupsGrow(es: seq<Edge>, e: Edge, groups: map<HubKey, seq<Edge>>)
    requires forall k :: GroupAt(groups, k) == OfKey(es, k)
    ensures forall k :: GroupAt(groups[KeyOf(e) := GroupAt(groups, KeyOf(e)) + [e]], k) == OfKey(es + [e], k)
  {
    assert (es + [e])[..|es|] == es;
    forall k ensures GroupAt(groups[KeyOf(e) := GroupAt(groups, KeyOf(e)) + [e]], k) == OfKey(es + [e], k) {
      assert GroupAt(groups, k) == OfKey(es, k);
    }
  }

  lemma {:induction false} KeysAreDistinct(es: seq<Edge>)
    ensures forall k :: k in KeysOf(es) <==> exists e | e in es :: KeyOf(e) == k
    ensures forall i, j | 0 <= i < j < |KeysOf(es)| :: KeysOf(es)[i] != KeysOf(es)[j]
    decreases |es|
  {
    hide KeyOf;
    if es != [] {
      var n := |es| - 1;
      KeysAreDistinct(es[..n]);
      assert es == es[..n] + [es[n]];
    }
  }

  lemma {:induction false} OfKeyCounts(es: seq<Edge>, key: HubKey, e: Edge)
    ensures multiset(OfKey(es, key))[e] == if KeyOf(e) == key then multiset(es)[e] else 0
    decreases |es|
  {
    hide KeyOf;
    if es != [] {
      var n := |es| - 1;
      OfKeyCounts(es[..n], key, e);
      assert es == es[..n] + [es[n]];
    }
  }

  /** Hubs have different keys; an edge is in the hub of its own key, as often as it was given, and in no other. */
  lemma HubsPartition(es: seq<Edge>, e: Edge)
    requires e in es
    ensures var hubs := HubsOf(es);
            && (forall i, j | 0 <= i < j < |hubs| :: hubs[i].key != hubs[j].key)
            && (exists i :: 0 <= i < |hubs| && hubs[i].key == KeyOf(e))
            && forall i | 0 <= i < |hubs| ::
                 multiset(hubs[i].edges)[e] == if hubs[i].key == KeyOf(e) then multiset(es)[e] else 0
  {
    hide KeyOf, OfKey, KeysOf;
    KeysAreDistinct(es);
    var keys := KeysOf(es);
    assert KeyOf(e) in keys;
    var k :| 0 <= k < |keys| && keys[k] == KeyOf(e);
    assert HubsOf(es)[k].key == KeyOf(e);
    forall i | 0 <= i < |keys| ensures multiset(HubsOf(es)[i].edges)[e] == if keys[i] == KeyOf(e) then multiset(es)[e] else 0 {
      OfKeyCounts(es, keys[i], e);
    }
  }

  // ----- external targets ---------------------------------------------------

  /** Targets of the external part that are no rows, each at its first edge. */
  function ExternalTargets(es: seq<Edge>, ids: set<string>): seq<string> {
    if es == [] then []
    else
      var n := |es| - 1;
      var earlier := ExternalTargets(es[..n], ids);
      if es[n].target in ids || es[n].target in earlier then earlier else earlier + [es[n].target]
  }

  method CollectTargets(es: seq<Edge>, ids: set<string>) returns (targets: seq<string>)
    ensures targets == ExternalTargets(es, ids)
  {
    targets := [];
    for n := 0 to |es|
      invariant targets == ExternalTargets(es[..n], ids)
    {
      assert es[..n + 1][..n] == es[..n];
      if es[n].target !in ids && es[n].target !in targets {
        targets := targets + [es[n].target];
      }
    }
    assert es[..|es|] == es;
  }

  lemma {:induction false} TargetsMembers(es: seq<Edge>, ids: set<string>, t: string)
    ensures t in ExternalTargets(es, ids) <==> t !in ids && exists e | e in es :: e.target == t
    decreases |es|
  {
    if es != [] {
      var n := |es| - 1;
      TargetsMembers(es[..n], ids, t);
      assert es == es[..n] + [es[n]];
    }
  }

  function PlaceExternals(targets: seq<string>, columnCount: int): map<string, Point> {
    if targets == [] then map[]
    else
      var n := |targets| - 1;
      PlaceExternals(targets[..n], columnCount)[targets[n] := Point(54 + columnCount * 260, 64 + n * 76)]
  }

  // ----- the full projection ------------------------------------------------

  datatype Full = Full(nodes: seq<Node>, edges: seq<Edge>, hubs: seq<Hub>, positions: map<string, Point>,
                       externalTargets: seq<string>, externalPositions: map<string, Point>)

  function ColumnCount(ordered: seq<Node>, levels: Levels): int {
    if ordered == [] then 1 else |set n | n in ordered :: Level(levels, n.id)|
  }

  /** `Local` edges only decide the layout. */
  function FullProjection(nodes: seq<Node>, es: seq<Edge>): Full {
    var ids := Ids(nodes);
    var ordered := Sort(Precedes, nodes);
    var levels := FinalLevels(ordered, OfClass(es, ids, LocalEdge));
    var positions := Positions(ordered, levels);
    var targets := ExternalTargets(OfClass(es, ids, ExternalEdge), positions.Keys);
    Full(ordered, Operational(es, ids), HubsOf(Operational(es, ids)), positions, targets,
         PlaceExternals(targets, ColumnCount(ordered, levels)))
  }

  method BuildFullConcentratedProjection(nodes: seq<Node>, es: seq<Edge>) returns (p: Full)
    ensures p == FullProjection(nodes, es)
  {
    hide OfClass, Sort, FinalLevels, HubsOf, PlaceBelow, ExternalTargets, PlaceExternals, Precedes;
    var part := ClassifyGraphEdges(nodes, es);
    var operational := part.local + part.lineage + part.external;
    SortKeepsIds(nodes);
    PrecedesIsStrictWeakOrder();
    SortIsSorted(Precedes, nodes);
    LocalPartIsLocal(es, Ids(nodes));
    var ordered, positions, columnCount := LayoutNodes(nodes, part.local);
    var hubs := GroupByPredicate(operational);
    var targets := CollectTargets(part.external, positions.Keys);
    p := Full(ordered, operational, hubs, positions, targets, PlaceExternals(targets, columnCount));
  }

  lemma LocalPartIsLocal(es: seq<Edge>, ids: set<string>)
    ensures AreLocal(OfClass(es, ids, LocalEdge), ids)
  {
    OfClassMembers(es, ids, LocalEdge);
  }

  // ----- what gets drawn ----------------------------------------------------

  /** The drawing skips an edge without a position for both ends or without a hub. */
  predicate IsDrawn(p: Full, e: Edge) {
    && e.source in p.positions
    && (e.target in p.positions || e.target in p.externalPositions)
    && exists i | 0 <= i < |p.hubs| :: p.hubs[i].key == KeyOf(e)
  }

  lemma {:induction false} PlaceExternalsKeys(targets: seq<string>, columnCount: int)
    ensures forall t :: t in PlaceExternals(targets, columnCount) <==> t in targets
    ensures forall t | t in targets :: PlaceExternals(targets, columnCount)[t].x == 54 + columnCount * 260
    decreases |targets|
  {
    if targets != [] {
      var n := |targets| - 1;
      PlaceExternalsKeys(targets[..n], columnCount);
      assert targets == targets[..n] + [targets[n]];
    }
  }

  lemma PositionKeys(nodes: seq<Node>, es: seq<Edge>)
    ensures var ordered := Sort(Precedes, nodes); Positions(ordered, FinalLevels(ordered, es)).Keys == Ids(nodes)
  {
    hide Precedes, Sort, FinalLevels, PlaceBelow, Forward, Rounds;
    var ordered := Sort(Precedes, nodes);
    var levels := FinalLevels(ordered, es);
    SortKeepsIds(nodes);
    FinalIsAttained(ordered, es);
    AttainedIsCapped(Forward(ordered, es), levels);
    PlaceBelowKeys(ordered, levels, MAX_LEVEL + 1);
    forall id | id in Ids(nodes) ensures id in set n | n in ordered && Level(levels, n.id) < MAX_LEVEL + 1 :: n.id {
      var n :| n in ordered && n.id == id;
      assert Level(levels, n.id) <= MAX_LEVEL;
    }
  }

  lemma FinalIsAttained(ordered: seq<Node>, es: seq<Edge>)
    ensures Attained(Forward(ordered, es), FinalLevels(ordered, es))
  {
    RoundsAreAttained(ordered, Forward(ordered, es), Min(|ordered|, MAX_ROUNDS));
  }

  lemma {:induction false} PlaceBelowKeys(ordered: seq<Node>, levels: Levels, top: nat)
    requires forall n | n in ordered :: Level(levels, n.id) >= 0
    ensures PlaceBelow(ordered, levels, top).Keys == set n | n in ordered && Level(levels, n.id) < top :: n.id
    decreases top
  {
    hide Precedes, Sort, PlaceColumn, Level, Column;
    if top > 0 {
      var c := Column(ordered, levels, top - 1);
      PlaceBelowKeys(ordered, levels, top - 1);
      SortKeepsIds(c);
      PlaceColumnKeys(PlaceBelow(ordered, levels, top - 1), Sort(Precedes, c), top - 1);
    }
  }

  lemma {:induction false} PlaceColumnKeys(positions: map<string, Point>, members: seq<Node>, level: int)
    ensures PlaceColumn(positions, members, level).Keys == positions.Keys + Ids(members)
    decreases |members|
  {
    hide Place;
    if members != [] {
      var k := |members| - 1;
      PlaceColumnKeys(positions, members[..k], level);
      assert members == members[..k] + [members[k]];
    }
  }

  /** An operational edge is drawn exactly when its source is a row and its target is a row or the target of some edge
    * of the external part. A lineage edge is never in that part, so one that leads to an absent row is drawn only when
    * another edge happens to lead there too. */
  lemma DrawnExactly(nodes: seq<Node>, es: seq<Edge>, e: Edge)
    requires e in Operational(es, Ids(nodes))
    ensures IsDrawn(FullProjection(nodes, es), e) <==>
            && e.source in Ids(nodes)
            && (e.target in Ids(nodes) ||
                exists x | x in es :: ClassOf(x, Ids(nodes)) == ExternalEdge && x.target == e.target)
  {
    hide Sort, FinalLevels, Positions, HubsOf, OfClass, Precedes, KeyOf, ExternalTargets, PlaceExternals, ClassOf;
    var ids := Ids(nodes);
    var p := FullProjection(nodes, es);
    PositionKeys(nodes, OfClass(es, ids, LocalEdge));
    HubsPartition(p.edges, e);
    TargetsMembers(OfClass(es, ids, ExternalEdge), ids, e.target);
    OfClassMembers(es, ids, ExternalEdge);
    PlaceExternalsKeys(p.externalTargets, ColumnCount(p.nodes, FinalLevels(p.nodes, OfClass(es, ids, LocalEdge))));
  }

  /** So every edge between rows and every external edge from a row is drawn. */
  lemma OrdinaryEdgesAreDrawn(nodes: seq<Node>, es: seq<Edge>, e: Edge)
    requires e in es && ClassOf(e, Ids(nodes)) in {LocalEdge, ExternalEdge} && e.source in Ids(nodes)
    ensures IsDrawn(FullProjection(nodes, es), e)
  {
    hide IsDrawn, FullProjection, OfClass;
    OfClassMembers(es, Ids(nodes), ClassOf(e, Ids(nodes)));
    DrawnExactly(nodes, es, e);
  }

  /** But an edge to a predecessor that is no longer a row is dropped when nothing else leads there. */
  lemma LegacyLineageIsDropped(nodes: seq<Node>, e: Edge)
    requires e.isLineage && e.kind != "checklistOrder" && e.target !in Ids(nodes)
    ensures e in Operational([e], Ids(nodes)) && !IsDrawn(FullProjection(nodes, [e]), e)
  {
    hide IsDrawn, FullProjection, OfClass;
    OfClassMembers([e], Ids(nodes), LineageEdge);
    DrawnExactly(nodes, [e], e);
  }

  // ----- external targets stand clear ---------------------------------------

  /** Below every occupied level the next lower one is occupied too. */
  lemma LevelBelow(ordered: seq<Node>, es: seq<Edge>, v: string)
    requires AreLocal(es, Ids(ordered)) && NoSelfLoops(es) && v in Ids(ordered) && Level(FinalLevels(ordered, es), v) > 0
    ensures exists u | u in Ids(ordered) ::
              Level(FinalLevels(ordered, es), u) == Level(FinalLevels(ordered, es), v) - 1
    decreases OrderOf(ordered, v)
  {
    hide FinalLevels, OrderOf, Forward, IsCappedLongest;
    var f, levels := Forward(ordered, es), FinalLevels(ordered, es);
    var l := Level(levels, v);
    LevelsAreLongestPaths(ordered, es, v);
    var e := LastStep(f, v, l);
    LocalEnds(es, e, Ids(ordered));
    var u := e.source;
    LevelsAreLongestPaths(ordered, es, u);
    StepLevels(f, e, l, Level(levels, u));
    if Level(levels, u) != l - 1 {
      OrdersGrow(ordered, es, e);
      LevelBelow(ordered, es, u);
    }
  }

  /** The last edge of a path of the level's length. */
  lemma LastStep(f: seq<Edge>, v: string, l: int) returns (e: Edge)
    requires IsCappedLongest(f, v, l) && l > 0
    ensures e in f && e.target == v && HasPath(f, e.source, l - 1)
  {
    hide Joins;
    var p :| IsPath(f, p, v) && |p| == l + 1;
    e := JoinedBy(f, p[l - 1], p[l]);
    var q := p[..l];
    assert IsPath(f, q, e.source);
  }

  lemma StepLevels(f: seq<Edge>, e: Edge, l: int, k: int)
    requires e in f && IsCappedLongest(f, e.target, l) && IsCappedLongest(f, e.source, k) && HasPath(f, e.source, l - 1)
    requires l > 0
    ensures k == l - 1 || (k == l == MAX_LEVEL)
  {
    hide HasPath, IsPath;
    if k < MAX_LEVEL {
      LongestBounds(f, e.source, k, l - 1);
    }
    if l < MAX_LEVEL {
      PathExtends(f, e, k);
      LongestBounds(f, e.target, l, Min(k + 1, MAX_LEVEL));
    }
  }

  lemma OrdersGrow(ordered: seq<Node>, es: seq<Edge>, e: Edge)
    requires e in Forward(ordered, es) && AreLocal(es, Ids(ordered)) && NoSelfLoops(es)
    ensures OrderOf(ordered, e.source) < OrderOf(ordered, e.target)
  {
    hide OrderOf;
    if OrderOf(ordered, e.source) == OrderOf(ordered, e.target) {
      OrdersAreDistinct(ordered, e.source, e.target);
    }
  }

  function LevelSet(ordered: seq<Node>, levels: Levels): set<int> {
    set n | n in ordered :: Level(levels, n.id)
  }

  lemma LevelsFill(ordered: seq<Node>, es: seq<Edge>, v: string)
    requires AreLocal(es, Ids(ordered)) && NoSelfLoops(es) && v in Ids(ordered)
    ensures var levels := FinalLevels(ordered, es);
            Level(levels, v) >= 0 && forall l | 0 <= l <= Level(levels, v) :: l in LevelSet(ordered, levels)
    decreases Level(FinalLevels(ordered, es), v) + 1
  {
    hide FinalLevels, OrderOf, Forward, IsCappedLongest, AreLocal, NoSelfLoops;
    var levels := FinalLevels(ordered, es);
    LevelsAreLongestPaths(ordered, es, v);
    LevelInRange(Forward(ordered, es), v, Level(levels, v));
    var n :| n in ordered && n.id == v;
    assert Level(levels, n.id) in LevelSet(ordered, levels);
    if Level(levels, v) > 0 {
      LevelBelow(ordered, es, v);
      var u :| u in Ids(ordered) && Level(levels, u) == Level(levels, v) - 1;
      LevelsFill(ordered, es, u);
    }
  }

  lemma LevelInRange(f: seq<Edge>, v: string, l: int)
    requires IsCappedLongest(f, v, l)
    ensures 0 <= l <= MAX_LEVEL
  {
  }

  lemma {:induction false} RangeIsSmaller(s: set<int>, n: nat)
    requires forall l | 0 <= l < n :: l in s
    ensures |s| >= n
    decreases n
  {
    if n > 0 {
      RangeIsSmaller(s - {n - 1}, n - 1);
    }
  }

  /** Without self-loops the columns of rows are contiguous, so external targets stand to the right of every row. */
  lemma ExternalsStandClear(nodes: seq<Node>, local: seq<Edge>, row: string, targets: seq<string>, target: string)
    requires DistinctIds(nodes) && row in Ids(nodes) && AreLocal(local, Ids(nodes)) && NoSelfLoops(local)
    requires target in targets
    ensures var ordered := Sort(Precedes, nodes);
            var levels := FinalLevels(ordered, local);
            var positions, externals := Positions(ordered, levels), PlaceExternals(targets, ColumnCount(ordered, levels));
            row in positions && target in externals && positions[row].x < externals[target].x
  {
    hide Sort, FinalLevels, Positions, Precedes, PlaceExternals, NoSelfLoops, AreLocal, DistinctIds, Column;
    var ordered := Sort(Precedes, nodes);
    var levels := FinalLevels(ordered, local);
    SortKeepsIds(nodes);
    LevelsFill(ordered, local, row);
    RangeIsSmaller(LevelSet(ordered, levels), Level(levels, row) + 1);
    assert LevelSet(ordered, levels) == set n | n in ordered :: Level(levels, n.id);
    PlaceExternalsKeys(targets, ColumnCount(ordered, levels));
    var k := PositionOf(nodes, local, row);
  }

  // ----- drill-down ---------------------------------------------------------

  datatype Selection = RowSelection(id: string) | PredicateSelection(predicateName: string) | EdgeSelection(edge: Edge) |
    NoSelection

  function Filtered(es: seq<Edge>, s: Selection): seq<Edge> {
    if es == [] then []
    else
      var n := |es| - 1;
      Filtered(es[..n], s) + (if IsSelected(es[n], s) then [es[n]] else [])
  }

  predicate IsSelected(e: Edge, s: Selection) {
    match s
    case RowSelection(id) => e.source == id || e.target == id
    case PredicateSelection(name) => e.predicateName == name
    case _ => false
  }

  function Selected(all: seq<Edge>, s: Selection): seq<Edge> {
    match s
    case EdgeSelection(e) => [e]
    case PredicateSelection(_) => Filtered(all, s)[..Min(80, |Filtered(all, s)|)]
    case _ => Filtered(all, s)
  }

  function EndsOf(es: seq<Edge>): set<string> {
    (set e | e in es :: e.source) + set e | e in es :: e.target
  }

  function KeptIds(es: seq<Edge>, s: Selection): set<string> {
    EndsOf(es) + if s.RowSelection? then {s.id} else {}
  }

  function KeptNodes(nodes: seq<Node>, ids: set<string>): (r: seq<Node>)
    ensures forall n :: n in r <==> n in nodes && n.id in ids
  {
    if nodes == [] then []
    else
      var k := |nodes| - 1;
      assert nodes == nodes[..k] + [nodes[k]];
      KeptNodes(nodes[..k], ids) + (if nodes[k].id in ids then [nodes[k]] else [])
  }

  /** The part of the graph a selection shows: its edges, and the rows they touch. */
  function Drilldown(nodes: seq<Node>, es: seq<Edge>, s: Selection): (seq<Node>, seq<Edge>) {
    var selected := Selected(Operational(es, Ids(nodes)), s);
    (KeptNodes(Sort(Precedes, nodes), KeptIds(selected, s)), selected)
  }

  method BuildDrilldownProjection(nodes: seq<Node>, es: seq<Edge>, s: Selection) returns (p: Full)
    ensures p == FullProjection(Drilldown(nodes, es, s).0, Drilldown(nodes, es, s).1)
  {
    hide OfClass, Sort, Filtered, FullProjection, KeptNodes, Precedes, KeptIds;
    var part := ClassifyGraphEdges(nodes, es);
    var all := part.local + part.lineage + part.external;
    var selected: seq<Edge> := [];
    NothingFiltered(all);
    if s.RowSelection? {
      selected := Filtered(all, s);
    } else if s.PredicateSelection? {
      selected := Filtered(all, s);
      selected := selected[..Min(80, |selected|)];
    } else if s.EdgeSelection? {
      selected := [s.edge];
    }
    var ids := CollectIds(selected, s);
    p := BuildFullConcentratedProjection(KeptNodes(Sort(Precedes, nodes), ids), selected);
  }

  method CollectIds(selected: seq<Edge>, s: Selection) returns (ids: set<string>)
    ensures ids == KeptIds(selected, s)
  {
    ids := if s.RowSelection? then {s.id} else {};
    for n := 0 to |selected|
      invariant ids == KeptIds(selected[..n], s)
    {
      assert selected[..n + 1] == selected[..n] + [selected[n]];
      ids := ids + {selected[n].source} + {selected[n].target};
    }
    assert selected[..|selected|] == selected;
  }

  lemma {:induction false} NothingFiltered(es: seq<Edge>)
    ensures Filtered(es, NoSelection) == []
    decreases |es|
  {
    if es != [] {
      NothingFiltered(es[..|es| - 1]);
    }
  }

  lemma {:induction false} FilteredMembers(es: seq<Edge>, s: Selection)
    ensures forall e :: e in Filtered(es, s) <==> e in es && IsSelected(e, s)
    decreases |es|
  {
    hide IsSelected;
    if es != [] {
      var n := |es| - 1;
      FilteredMembers(es[..n], s);
      assert es == es[..n] + [es[n]];
    }
  }

  /** Cutting the graph down changes no shown edge's class, so a drill-down shows local, lineage and external edges as the
    * full graph does; and a selected row stays. */
  lemma DrilldownKeepsClasses(nodes: seq<Node>, es: seq<Edge>, s: Selection, e: Edge)
    requires e in Drilldown(nodes, es, s).1
    ensures ClassOf(e, Ids(Drilldown(nodes, es, s).0)) == ClassOf(e, Ids(nodes))
    ensures s.RowSelection? && s.id in Ids(nodes) ==> s.id in Ids(Drilldown(nodes, es, s).0)
  {
    hide Sort, Precedes, Operational, Selected;
    var (kept, selected) := Drilldown(nodes, es, s);
    SortKeepsIds(nodes);
    forall id | id in KeptIds(selected, s) ensures id in Ids(kept) <==> id in Ids(nodes) {
      if id in Ids(nodes) {
        var n :| n in nodes && n.id == id;
        assert n in kept;
      }
    }
  }

  /** An operational edge joins the two, in either direction. */
  predicate AreNeighbours(nodes: seq<Node>, es: seq<Edge>, a: string, b: string) {
    exists e | e in Operational(es, Ids(nodes)) :: (e.source == a && e.target == b) || (e.source == b && e.target == a)
  }

  /** A row's drill-down shows exactly the edges of the graph at it that are not mere display order, and of the rows exactly
    * itself and its neighbours. */
  lemma RowDrilldownExactly(nodes: seq<Node>, es: seq<Edge>, id: string, e: Edge, n: Node)
    ensures e in Drilldown(nodes, es, RowSelection(id)).1 <==>
            e in es && ClassOf(e, Ids(nodes)) != OrderEdge && (e.source == id || e.target == id)
    ensures n in Drilldown(nodes, es, RowSelection(id)).0 <==>
            n in nodes && (n.id == id || AreNeighbours(nodes, es, n.id, id))
  {
    hide Sort, Precedes, Operational, Filtered, ClassOf;
    var all := Operational(es, Ids(nodes));
    FilteredMembers(all, RowSelection(id));
    OperationalMembers(es, Ids(nodes));
    SortKeepsIds(nodes);
    EndsAreNeighbours(nodes, es, id, Filtered(all, RowSelection(id)), n.id);
  }

  lemma EndsAreNeighbours(nodes: seq<Node>, es: seq<Edge>, id: string, shown: seq<Edge>, other: string)
    requires forall e :: e in shown <==> e in Operational(es, Ids(nodes)) && IsSelected(e, RowSelection(id))
    ensures other in KeptIds(shown, RowSelection(id)) <==> other == id || AreNeighbours(nodes, es, other, id)
  {
    hide Operational;
    if other in EndsOf(shown) && other != id {
      var e :| e in shown && (e.source == other || e.target == other);
      assert e in Operational(es, Ids(nodes));
    }
    if AreNeighbours(nodes, es, other, id) {
      var e :| e in Operational(es, Ids(nodes)) &&
               ((e.source == other && e.target == id) || (e.source == id && e.target == other));
      assert e in shown;
    }
  }

  lemma OperationalMembers(es: seq<Edge>, ids: set<string>)
    ensures forall e :: e in Operational(es, ids) <==> e in es && ClassOf(e, ids) != OrderEdge
  {
    hide ClassOf, OfClass;
    OfClassMembers(es, ids, LocalEdge);
    OfClassMembers(es, ids, LineageEdge);
    OfClassMembers(es, ids, ExternalEdge);
  }
}
