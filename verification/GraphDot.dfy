/** The DOT rendering of a checklist graph: which node each arrow end names. */
module GraphDot {
  import opened Text
  import opened Checklist
  import opened Sorting
  import opened Graph
  import opened GraphLaws

  // ----- rendering ----------------------------------------------------------

  /** `n` followed by a node number, or `x` followed by the number of an external target. */
  datatype End = NodeEnd(index: nat) | ExternalEnd(index: nat)

  datatype Arrow = Arrow(source: nat, target: End, caption: string, isDotted: bool)

  datatype Drawing = Drawing(externals: seq<string>, arrows: seq<Arrow>)

  /** A lookup of an external target that was never numbered throws. */
  datatype DrawError = MissingExternal(address: string)

  function FindNode(nodes: seq<Node>, address: string): Option<nat> {
    if nodes == [] then None
    else
      match FindNode(nodes[..|nodes| - 1], address)
      case Some(k) => Some(k)
      case None => if nodes[|nodes| - 1].row.addressId == address then Some(|nodes| - 1) else None
  }

  function FindExternal(externals: seq<string>, address: string): Option<nat> {
    if externals == [] then None
    else if externals[|externals| - 1] == address then Some(|externals| - 1)
    else FindExternal(externals[..|externals| - 1], address)
  }

  /** The external targets, each at its first edge. */
  function Externals(es: seq<GraphEdge>): seq<string> {
    if es == [] then []
    else
      var e := es[|es| - 1];
      var earlier := Externals(es[..|es| - 1]);
      if e.isExternal && e.target !in earlier then earlier + [e.target] else earlier
  }

  function EndOf(nodes: seq<Node>, externals: seq<string>, address: string): Option<End> {
    match FindNode(nodes, address)
    case Some(k) => Some(NodeEnd(k))
    case None =>
      match FindExternal(externals, address)
      case Some(k) => Some(ExternalEnd(k))
      case None => None
  }

  function Arrows(nodes: seq<Node>, externals: seq<string>, es: seq<GraphEdge>): Result<seq<Arrow>, DrawError> {
    if es == [] then Ok([])
    else
      var e := es[|es| - 1];
      var earlier :- Arrows(nodes, externals, es[..|es| - 1]);
      match FindNode(nodes, e.source)
      case None => Ok(earlier)
      case Some(s) =>
        match EndOf(nodes, externals, e.target)
        case None => Err(MissingExternal(e.target))
        case Some(t) => Ok(earlier + [Arrow(s, t, e.predicateName, e.kind == OrderEdge)])
  }

  function Drawn(g: Graph): Result<Drawing, DrawError> {
    var externals := Externals(g.edges);
    var arrows :- Arrows(g.nodes, externals, g.edges);
    Ok(Drawing(externals, arrows))
  }

  method RenderChecklistGraphDot(g: Graph) returns (r: Result<Drawing, DrawError>)
    ensures r == Drawn(g)
  {
    hide FindNode, FindExternal, Externals, Arrows;
    var nodeIndex := NumberNodes(g.nodes);
    var externals, externalIndex := NumberExternals(g.edges);
    var arrows := DrawArrows(g, nodeIndex, externals, externalIndex);
    if arrows.Err? {
      return Err(arrows.error);
    }
    r := Ok(Drawing(externals, arrows.value));
  }

  method NumberNodes(nodes: seq<Node>) returns (index: map<string, nat>)
    ensures forall a :: Lookup(index, a) == FindNode(nodes, a)
  {
    index := map[];
    for n := 0 to |nodes|
      invariant forall a :: Lookup(index, a) == FindNode(nodes[..n], a)
    {
      assert nodes[..n + 1][..n] == nodes[..n];
      var address := nodes[n].row.addressId;
      assert Lookup(index, address) == FindNode(nodes[..n], address);
      if address !in index {
        index := index[address := n];
      }
    }
    assert nodes[..|nodes|] == nodes;
  }

  method NumberExternals(es: seq<GraphEdge>) returns (externals: seq<string>, index: map<string, nat>)
    ensures externals == Externals(es) && forall a :: Lookup(index, a) == FindExternal(externals, a)
  {
    externals, index := [], map[];
    for n := 0 to |es|
      invariant externals == Externals(es[..n]) && forall a :: Lookup(index, a) == FindExternal(externals, a)
    {
      assert es[..n + 1][..n] == es[..n];
      var target := es[n].target;
      FindExternalInRange(externals, target);
      assert Lookup(index, target) == FindExternal(externals, target);
      if es[n].isExternal && target !in index {
        index := index[target := |externals|];
        assert (externals + [target])[..|externals|] == externals;
        externals := externals + [target];
      }
    }
    assert es[..|es|] == es;
  }

  method DrawArrows(g: Graph, nodeIndex: map<string, nat>, externals: seq<string>, externalIndex: map<string, nat>)
    returns (r: Result<seq<Arrow>, DrawError>)
    requires forall a :: Lookup(nodeIndex, a) == FindNode(g.nodes, a)
    requires forall a :: Lookup(externalIndex, a) == FindExternal(externals, a)
    ensures r == Arrows(g.nodes, externals, g.edges)
  {
    hide FindNode, FindExternal;
    var arrows: seq<Arrow> := [];
    for n := 0 to |g.edges|
      invariant Arrows(g.nodes, externals, g.edges[..n]) == Ok(arrows)
    {
      var e := g.edges[n];
      assert g.edges[..n + 1][..n] == g.edges[..n];
      assert Lookup(nodeIndex, e.source) == FindNode(g.nodes, e.source);
      assert Lookup(nodeIndex, e.target) == FindNode(g.nodes, e.target);
      assert Lookup(externalIndex, e.target) == FindExternal(externals, e.target);
      if e.source in nodeIndex {
        var target: End;
        if e.target in nodeIndex {
          target := NodeEnd(nodeIndex[e.target]);
        } else if e.target in externalIndex {
          target := ExternalEnd(externalIndex[e.target]);
        } else {
          FailsEarly(g.nodes, externals, g.edges, n + 1);
          return Err(MissingExternal(e.target));
        }
        arrows := arrows + [Arrow(nodeIndex[e.source], target, e.predicateName, e.kind == OrderEdge)];
      }
    }
    assert g.edges[..|g.edges|] == g.edges;
    r := Ok(arrows);
  }

  lemma {:induction false} FailsEarly(nodes: seq<Node>, externals: seq<string>, es: seq<GraphEdge>, n: nat)
    requires n <= |es| && Arrows(nodes, externals, es[..n]).Err?
    ensures Arrows(nodes, externals, es) == Arrows(nodes, externals, es[..n])
    decreases |es|
  {
    hide EndOf, FindNode;
    if n == |es| {
      assert es[..n] == es;
    } else {
      var init := es[..|es| - 1];
      assert init[..n] == es[..n];
      FailsEarly(nodes, externals, init, n);
    }
  }

  // ----- lookups ------------------------------------------------------------

  lemma {:induction false} FindNodeInRange(nodes: seq<Node>, address: string)
    ensures var k := FindNode(nodes, address);
            k.Some? ==> k.value < |nodes| && nodes[k.value].row.addressId == address
    decreases |nodes|
  {
    if nodes != [] {
      FindNodeInRange(nodes[..|nodes| - 1], address);
    }
  }

  lemma {:induction false} FindExternalInRange(externals: seq<string>, address: string)
    ensures var k := FindExternal(externals, address);
            && (k.Some? <==> address in externals)
            && (k.Some? ==> k.value < |externals| && externals[k.value] == address)
    decreases |externals|
  {
    if externals != [] {
      var n := |externals| - 1;
      FindExternalInRange(externals[..n], address);
      assert externals == externals[..n] + [externals[n]];
    }
  }

  lemma {:induction false} ExternalsMembers(es: seq<GraphEdge>, address: string)
    ensures address in Externals(es) <==> exists e | e in es :: e.isExternal && e.target == address
    decreases |es|
  {
    if es != [] {
      var n := |es| - 1;
      ExternalsMembers(es[..n], address);
      assert es == es[..n] + [es[n]];
    }
  }

  // ----- the laws -----------------------------------------------------------

  /** An edge the renderer can draw, or skips because its source is no node. */
  predicate IsDrawable(g: Graph, e: GraphEdge) {
    || FindNode(g.nodes, e.source) == None
    || FindNode(g.nodes, e.target).Some?
    || e.target in Externals(g.edges)
  }

  lemma {:induction false} ArrowsExactly(g: Graph, es: seq<GraphEdge>)
    ensures Arrows(g.nodes, Externals(g.edges), es).Ok? <==> forall i | 0 <= i < |es| :: IsDrawable(g, es[i])
    decreases |es|
  {
    hide FindNode, FindExternal, Externals;
    if es != [] {
      var n := |es| - 1;
      ArrowsExactly(g, es[..n]);
      FindExternalInRange(Externals(g.edges), es[n].target);
      assert forall i | 0 <= i < n :: es[..n][i] == es[i];
      assert (forall i | 0 <= i < |es| :: IsDrawable(g, es[i])) <==>
             (forall i | 0 <= i < n :: IsDrawable(g, es[i])) && IsDrawable(g, es[n]);
    }
  }

  /** Rendering throws exactly when some edge from a node leads to a target that is no node and that no edge marked
    * external names. */
  lemma DrawsExactly(g: Graph)
    ensures Drawn(g).Ok? <==> forall i | 0 <= i < |g.edges| :: IsDrawable(g, g.edges[i])
  {
    hide Arrows, IsDrawable, Externals;
    ArrowsExactly(g, g.edges);
  }

  /** The arrow stands for the edge: its ends name the edge's two addresses. */
  predicate Depicts(g: Graph, d: Drawing, a: Arrow, e: GraphEdge) {
    && a.source < |g.nodes| && g.nodes[a.source].row.addressId == e.source
    && a.caption == e.predicateName && (a.isDotted <==> e.kind == OrderEdge)
    && match a.target
       case NodeEnd(k) => k < |g.nodes| && g.nodes[k].row.addressId == e.target
       case ExternalEnd(k) => k < |d.externals| && d.externals[k] == e.target && FindNode(g.nodes, e.target) == None
  }

  lemma {:induction false} ArrowsDepict(g: Graph, d: Drawing, es: seq<GraphEdge>)
    requires forall i | 0 <= i < |es| :: FindNode(g.nodes, es[i].source).Some?
    requires Arrows(g.nodes, d.externals, es).Ok?
    ensures var arrows := Arrows(g.nodes, d.externals, es).value;
            |arrows| == |es| && forall i | 0 <= i < |es| :: Depicts(g, d, arrows[i], es[i])
    decreases |es|
  {
    hide FindNode, FindExternal;
    if es != [] {
      var n := |es| - 1;
      var e := es[n];
      assert forall i | 0 <= i < n :: es[..n][i] == es[i];
      ArrowsDepict(g, d, es[..n]);
      FindNodeInRange(g.nodes, e.source);
      FindNodeInRange(g.nodes, e.target);
      FindExternalInRange(d.externals, e.target);
    }
  }

  /** The graph of any rows renders: no lookup fails, and there is one arrow for every edge, in order. */
  lemma BuiltGraphsRender(slugs: seq<Slug>, specKind: string -> string)
    ensures var g := Built(slugs, specKind);
            && Drawn(g).Ok?
            && var d := Drawn(g).value;
               |d.arrows| == |g.edges| && forall i | 0 <= i < |g.edges| :: Depicts(g, d, d.arrows[i], g.edges[i])
  {
    hide Sort, EdgesOf, Arrows, FindNode, Depicts, Find, Externals, DeriveVisualShape, OutDegree, InDegree;
    var rows := Sort(RowBefore, TakeRows(slugs).rows);
    var g := Built(slugs, specKind);
    EdgesAreOf(rows);
    forall a ensures FindNode(g.nodes, a) == Find(rows, a) {
      NodesAreRows(rows, g.nodes, a);
    }
    forall i | 0 <= i < |g.edges| ensures IsDrawable(g, g.edges[i]) {
      ExternalsMembers(g.edges, g.edges[i].target);
      assert g.edges[i] in g.edges;
    }
    DrawsExactly(g);
    ArrowsDepict(g, Drawn(g).value, g.edges);
  }

  lemma {:induction false} NodesAreRows(rows: seq<Slug>, nodes: seq<Node>, address: string)
    requires |rows| == |nodes| && forall i | 0 <= i < |rows| :: nodes[i].row.addressId == rows[i].addressId
    ensures FindNode(nodes, address) == Find(rows, address)
    decreases |rows|
  {
    if rows != [] {
      NodesAreRows(rows[..|rows| - 1], nodes[..|nodes| - 1], address);
    }
  }
}
