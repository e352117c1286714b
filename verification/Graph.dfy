/** The checklist graph: nodes and edges in a fixed order, with degree counts, and its DOT rendering. */
module Graph {
  import opened Text
  import opened Checklist
  import opened Sorting

  // ----- the graph ----------------------------------------------------------

  const ADDRESS_SUCCESSOR := "addressSuccessor"
  const ADDRESS_PREDECESSOR := "addressPredecessor"

  predicate IsLineagePredicate(p: string) {
    p == SLUG_SUCCESSOR || p == SLUG_PREDECESSOR || p == ADDRESS_SUCCESSOR || p == ADDRESS_PREDECESSOR
  }

  datatype Kind = OrderEdge | RelationshipEdge

  datatype Category = LocalTarget | LegacyTarget | UnknownTarget

  datatype GraphEdge = GraphEdge(source: string, target: string, predicateName: string, kind: Kind, isLineage: bool,
                                 isExternal: bool, category: Category)

  /** A row without its relationships, its derived labels and its degrees. */
  datatype Node = Node(row: Slug, specKind: string, shape: Shape, incoming: nat, outgoing: nat)

  datatype Shape = Metric | Terminal | Decision | Action

  datatype Graph = Graph(checklist: string, instanceId: string, nodes: seq<Node>, edges: seq<GraphEdge>, ignored: nat)

  const EMPTY_GRAPH := Graph("", "", [], [], 0)

  // ----- visual shape -------------------------------------------------------

  predicate Contains(s: string, part: string) {
    part <= s || (s != "" && Contains(s[1..], part))
  }

  predicate IsOperational(e: Edge) {
    !IsLineagePredicate(e.predicateName)
  }

  predicate IsStatusBranch(e: Edge) {
    var p := ToLower(e.predicateName);
    IsOperational(e) && Contains(p, "propagate") &&
    ("pass" <= p || "fail" <= p || "other" <= p || "na" <= p)
  }

  predicate IsNonPassBranch(e: Edge) {
    var p := ToLower(e.predicateName);
    IsStatusBranch(e) && ("fail" <= p || "other" <= p || "na" <= p)
  }

  predicate IsGateOrVerify(e: Edge) {
    IsOperational(e) && ("BoolVerify" <= e.predicateName || Contains(e.predicateName, "Gate"))
  }

  function Count(f: Edge -> bool, es: seq<Edge>): nat {
    if es == [] then 0 else (if f(es[0]) then 1 else 0) + Count(f, es[1..])
  }

  function DeriveVisualShape(s: Slug): Shape {
    var searchable := ToLower(s.section + " " + s.procedure + " " + s.action);
    if Contains(searchable, "metric") || Contains(searchable, "feedback") then Metric
    else if Count(IsOperational, s.relationships) == 0 then Terminal
    else if Count(IsNonPassBranch, s.relationships) > 0 || Count(IsGateOrVerify, s.relationships) > 0 ||
            Count(IsStatusBranch, s.relationships) > 1
    then Decision
    else Action
  }

  // ----- building -----------------------------------------------------------

  predicate RowBefore(a: Slug, b: Slug) {
    if a.addressOrder != b.addressOrder then a.addressOrder < b.addressOrder else StrLess(a.addressId, b.addressId)
  }

  datatype Intake = Intake(checklist: string, instanceId: string, rows: seq<Slug>, ignored: nat)

  /** The first row with a checklist name settles checklist and instance; rows that differ are ignored. */
  function TakeRow(t: Intake, s: Slug): Intake {
    var settled := if t.checklist == "" then t.(checklist := s.checklist, instanceId := s.instanceId) else t;
    if s.checklist != settled.checklist || s.instanceId != settled.instanceId
    then settled.(ignored := settled.ignored + 1)
    else settled.(rows := settled.rows + [s])
  }

  function TakeRows(slugs: seq<Slug>): Intake {
    if slugs == [] then Intake("", "", [], 0) else TakeRow(TakeRows(slugs[..|slugs| - 1]), slugs[|slugs| - 1])
  }

  function NodeOf(s: Slug, specKind: string -> string): Node {
    Node(s.(relationships := []), specKind(s.spec), DeriveVisualShape(s), 0, 0)
  }

  function NodesOf(rows: seq<Slug>, specKind: string -> string): (ns: seq<Node>)
    ensures |ns| == |rows|
  {
    seq(|rows|, i requires 0 <= i < |rows| => NodeOf(rows[i], specKind))
  }

  /** The first row with an address, or none. */
  function Find(rows: seq<Slug>, address: string): Option<nat> {
    if rows == [] then None
    else
      match Find(rows[..|rows| - 1], address)
      case Some(k) => Some(k)
      case None => if rows[|rows| - 1].addressId == address then Some(|rows| - 1) else None
  }

  function OrderEdges(rows: seq<Slug>): seq<GraphEdge> {
    if |rows| < 2 then []
    else
      var n := |rows| - 1;
      OrderEdges(rows[..n]) +
      [GraphEdge(rows[n - 1].addressId, rows[n].addressId, "checklistOrder", OrderEdge, false, false, LocalTarget)]
  }

  function RelationshipOf(rows: seq<Slug>, source: string, e: Edge): GraphEdge {
    var lineage, external := IsLineagePredicate(e.predicateName), Find(rows, e.target) == None;
    GraphEdge(source, e.target, e.predicateName, RelationshipEdge, lineage, external,
              if !external then LocalTarget else if lineage then LegacyTarget else UnknownTarget)
  }

  function RelationshipsOf(rows: seq<Slug>, source: string, es: seq<Edge>): (r: seq<GraphEdge>)
    ensures |r| == |es|
  {
    seq(|es|, i requires 0 <= i < |es| => RelationshipOf(rows, source, es[i]))
  }

  /** The relationship edges of the first rows, each row's sorted by predicate and target. */
  function RelationshipEdges(all: seq<Slug>, rows: seq<Slug>): seq<GraphEdge> {
    if rows == [] then []
    else
      var s := rows[|rows| - 1];
      RelationshipEdges(all, rows[..|rows| - 1]) + RelationshipsOf(all, s.addressId, Sort(EdgeBefore, s.relationships))
  }

  function Bump(k: Option<nat>, i: nat): nat {
    if k == Some(i) then 1 else 0
  }

  function OutDegree(rows: seq<Slug>, es: seq<GraphEdge>, i: nat): nat {
    if es == [] then 0
    else
      var e := es[|es| - 1];
      OutDegree(rows, es[..|es| - 1], i) + (if e.kind == RelationshipEdge then Bump(Find(rows, e.source), i) else 0)
  }

  function InDegree(rows: seq<Slug>, es: seq<GraphEdge>, i: nat): nat {
    if es == [] then 0
    else
      var e := es[|es| - 1];
      InDegree(rows, es[..|es| - 1], i) + (if e.kind == RelationshipEdge then Bump(Find(rows, e.target), i) else 0)
  }

  function Counted(rows: seq<Slug>, nodes: seq<Node>, es: seq<GraphEdge>): (r: seq<Node>)
    ensures |r| == |nodes|
  {
    seq(|nodes|, i requires 0 <= i < |nodes| =>
          nodes[i].(incoming := InDegree(rows, es, i), outgoing := OutDegree(rows, es, i)))
  }

  function EdgesOf(rows: seq<Slug>): seq<GraphEdge> {
    OrderEdges(rows) + RelationshipEdges(rows, rows)
  }

  function Built(slugs: seq<Slug>, specKind: string -> string): Graph {
    var t := TakeRows(slugs);
    var rows := Sort(RowBefore, t.rows);
    Graph(t.checklist, t.instanceId, Counted(rows, NodesOf(rows, specKind), EdgesOf(rows)), EdgesOf(rows), t.ignored)
  }

  method BuildChecklistGraph(slugs: seq<Slug>, specKind: string -> string) returns (graph: Graph)
    ensures graph == Built(slugs, specKind)
  {
    hide Sort, RowBefore, Find, DeriveVisualShape, RelationshipEdges, OrderEdges, Counted;
    graph := EMPTY_GRAPH;
    if slugs == [] {
      NoRows(specKind);
      return;
    }
    var accepted: seq<Slug> := [];
    for n := 0 to |slugs|
      invariant Intake(graph.checklist, graph.instanceId, accepted, graph.ignored) == TakeRows(slugs[..n])
      invariant graph.nodes == [] && graph.edges == []
    {
      var s := slugs[n];
      assert slugs[..n + 1][..n] == slugs[..n];
      if graph.checklist == "" {
        graph := graph.(checklist := s.checklist, instanceId := s.instanceId);
      }
      if s.checklist != graph.checklist || s.instanceId != graph.instanceId {
        graph := graph.(ignored := graph.ignored + 1);
      } else {
        accepted := accepted + [s];
      }
    }
    assert slugs[..|slugs|] == slugs;
    var rows := Sort(RowBefore, accepted);
    var index := IndexRows(rows);
    var edges := CollectEdges(rows, index);
    var nodes := CountDegrees(rows, index, NodesOf(rows, specKind), edges);
    graph := graph.(nodes := nodes, edges := edges);
  }

  lemma NoRows(specKind: string -> string)
    ensures Built([], specKind) == EMPTY_GRAPH
  {
    assert Sort(RowBefore, []) == [];
  }

  /** Row numbers by address; a repeated address keeps its first number. */
  ghost predicate IsIndex(index: map<string, nat>, rows: seq<Slug>) {
    forall a :: Find(rows, a) == if a in index then Some(index[a]) else None
  }

  function Lookup(index: map<string, nat>, address: string): Option<nat> {
    if address in index then Some(index[address]) else None
  }

  method IndexRows(rows: seq<Slug>) returns (index: map<string, nat>)
    ensures IsIndex(index, rows)
  {
    index := map[];
    for n := 0 to |rows|
      invariant IsIndex(index, rows[..n])
    {
      assert rows[..n + 1][..n] == rows[..n];
      if rows[n].addressId !in index {
        index := index[rows[n].addressId := n];
      }
    }
    assert rows[..|rows|] == rows;
  }

  method CollectEdges(rows: seq<Slug>, index: map<string, nat>) returns (edges: seq<GraphEdge>)
    requires IsIndex(index, rows)
    ensures edges == EdgesOf(rows)
  {
    hide Sort, EdgeBefore, IsIndex, Find, IsLineagePredicate;
    edges := [];
    if rows != [] {
      for n := 1 to |rows|
        invariant edges == OrderEdges(rows[..n])
      {
        assert rows[..n + 1][..n] == rows[..n];
        edges := edges + [GraphEdge(rows[n - 1].addressId, rows[n].addressId, "checklistOrder", OrderEdge, false, false,
                                    LocalTarget)];
      }
      assert rows[..|rows|] == rows;
    }
    for n := 0 to |rows|
      invariant edges == OrderEdges(rows) + RelationshipEdges(rows, rows[..n])
    {
      assert rows[..n + 1][..n] == rows[..n];
      var more := CollectRelationships(rows, index, rows[n].addressId, Sort(EdgeBefore, rows[n].relationships));
      edges := edges + more;
    }
    assert rows[..|rows|] == rows;
  }

  method CollectRelationships(ghost rows: seq<Slug>, index: map<string, nat>, source: string, es: seq<Edge>)
    returns (edges: seq<GraphEdge>)
    requires IsIndex(index, rows)
    ensures edges == RelationshipsOf(rows, source, es)
  {
    hide Find;
    edges := [];
    for n := 0 to |es|
      invariant edges == RelationshipsOf(rows, source, es[..n])
    {
      var e := es[n];
      var lineage, external := IsLineagePredicate(e.predicateName), e.target !in index;
      assert Find(rows, e.target) == None <==> external;
      edges := edges + [GraphEdge(source, e.target, e.predicateName, RelationshipEdge, lineage, external,
                                  if !external then LocalTarget else if lineage then LegacyTarget else UnknownTarget)];
    }
    assert es[..|es|] == es;
  }

  method CountDegrees(rows: seq<Slug>, index: map<string, nat>, start: seq<Node>, edges: seq<GraphEdge>)
    returns (nodes: seq<Node>)
    requires IsIndex(index, rows) && |start| == |rows|
    requires forall i | 0 <= i < |start| :: start[i].incoming == 0 == start[i].outgoing
    ensures nodes == Counted(rows, start, edges)
  {
    hide Find;
    nodes := start;
    for n := 0 to |edges|
      invariant nodes == Counted(rows, start, edges[..n])
    {
      var e := edges[n];
      assert edges[..n + 1][..n] == edges[..n];
      if e.kind == RelationshipEdge {
        assert Find(rows, e.source) == Lookup(index, e.source) && Find(rows, e.target) == Lookup(index, e.target);
        FindInRange(rows, e.source);
        FindInRange(rows, e.target);
        if e.source in index {
          var k := index[e.source];
          nodes := nodes[k := nodes[k].(outgoing := nodes[k].outgoing + 1)];
        }
        if e.target in index {
          var k := index[e.target];
          nodes := nodes[k := nodes[k].(incoming := nodes[k].incoming + 1)];
        }
      }
    }
    assert edges[..|edges|] == edges;
  }

  lemma {:induction false} FindInRange(rows: seq<Slug>, address: string)
    ensures Find(rows, address).Some? ==> Find(rows, address).value < |rows| &&
                                          rows[Find(rows, address).value].addressId == address
    ensures Find(rows, address).None? <==> forall i | 0 <= i < |rows| :: rows[i].addressId != address
    decreases |rows|
  {
    if rows != [] {
      FindInRange(rows[..|rows| - 1], address);
    }
  }
}
