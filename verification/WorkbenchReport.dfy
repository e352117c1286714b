/** The finished workbench: its row findings and counts agree with the edges it lists. */
module WorkbenchReport {
  import opened Text
  import opened Checklist
  import opened Sorting
  import opened Graph
  import opened GraphLaws
  import opened Workbench
  import opened WorkbenchBuilder

  datatype Report = Report(nodes: seq<NodeId>, edges: seq<BenchEdge>, findings: seq<Finding>, summary: Summary)

  // ----- what the sets mean -------------------------------------------------

  predicate Touches(e: BenchEdge, a: string) {
    e.source == RowId(a) || e.target == RowId(a)
  }

  predicate IsOrphan(es: seq<BenchEdge>, a: string) {
    forall e | e in es :: !Touches(e, a)
  }

  /** An operational edge to itself, and otherwise at most lineage. */
  predicate IsSelfOnly(es: seq<BenchEdge>, a: string) {
    && (exists e | e in es :: IsOperationalSelf(e) && Touches(e, a))
    && (forall e | e in es && Touches(e, a) :: IsOperationalSelf(e) || (e.cls == Predicate && e.isLineage))
  }

  lemma {:induction false} SetsOfEdges(es: seq<BenchEdge>, a: string)
    ensures a in Touched(es) <==> exists e | e in es :: Touches(e, a)
    ensures a in Supported(es) <==> exists e | e in es :: Touches(e, a) && e.cls != Predicate
    ensures a in OtherTouched(es) <==> exists e | e in es :: Touches(e, a) && IsOperationalOther(e)
    ensures SelfList(es, a) != [] <==> exists e | e in es :: Touches(e, a) && IsOperationalSelf(e)
    decreases |es|
  {
    if es != [] {
      var n := |es| - 1;
      SetsOfEdges(es[..n], a);
      SplitLast(es, a);
    }
  }

  lemma SplitLast(es: seq<BenchEdge>, a: string)
    requires es != []
    ensures forall e :: e in es <==> e in es[..|es| - 1] || e == es[|es| - 1]
    ensures a in RowsAt(es[|es| - 1]) <==> Touches(es[|es| - 1], a)
  {
    assert es == es[..|es| - 1] + [es[|es| - 1]];
  }

  lemma OrphanExactly(es: seq<BenchEdge>, a: string)
    ensures a !in Touched(es) <==> IsOrphan(es, a)
  {
    SetsOfEdges(es, a);
  }

  lemma SelfOnlyExactly(es: seq<BenchEdge>, a: string)
    ensures SelfList(es, a) != [] && a !in OtherTouched(es) && a !in Supported(es) <==> IsSelfOnly(es, a)
  {
    hide Touched, Supported, OtherTouched, SelfList, Touches;
    SetsOfEdges(es, a);
    forall e ensures IsOperationalSelf(e) || (e.cls == Predicate && e.isLineage) <==>
                     !IsOperationalOther(e) && e.cls == Predicate
    {
    }
    if IsSelfOnly(es, a) {
      assert forall e | e in es && Touches(e, a) :: !IsOperationalOther(e) && e.cls == Predicate;
    }
  }

  // ----- findings about rows ------------------------------------------------

  function RowFindings(nodes: seq<Node>, marked: set<string>, c: Code): seq<Finding> {
    if nodes == [] then []
    else
      var n := |nodes| - 1;
      var a := nodes[n].row.addressId;
      RowFindings(nodes[..n], marked, c) + (if a in marked then [Finding(c, Some(RowId(a)))] else [])
  }

  lemma {:induction false} RowFindingsMembers(nodes: seq<Node>, marked: set<string>, c: Code, a: string)
    ensures Finding(c, Some(RowId(a))) in RowFindings(nodes, marked, c) <==> a in AddressSet(nodes) && a in marked
    ensures forall f | f in RowFindings(nodes, marked, c) :: f.code == c
    ensures CountCode(RowFindings(nodes, marked, c), c) == |RowFindings(nodes, marked, c)|
    decreases |nodes|
  {
    if nodes != [] {
      var n := |nodes| - 1;
      RowFindingsMembers(nodes[..n], marked, c, a);
      assert nodes == nodes[..n] + [nodes[n]];
      var earlier := RowFindings(nodes[..n], marked, c);
      if nodes[n].row.addressId in marked {
        CountSnoc(earlier, Finding(c, Some(RowId(nodes[n].row.addressId))), c);
      } else {
        assert earlier + [] == earlier;
      }
    }
  }

  lemma CountSnoc(fs: seq<Finding>, f: Finding, c: Code)
    ensures CountCode(fs + [f], c) == CountCode(fs, c) + if f.code == c then 1 else 0
  {
    assert (fs + [f])[..|fs|] == fs;
  }

  lemma {:induction false} CountAppend(fs: seq<Finding>, gs: seq<Finding>, c: Code)
    ensures CountCode(fs + gs, c) == CountCode(fs, c) + CountCode(gs, c)
    decreases |gs|
  {
    if gs == [] {
      assert fs + gs == fs;
    } else {
      var n := |gs| - 1;
      CountAppend(fs, gs[..n], c);
      assert fs + gs == fs + gs[..n] + [gs[n]] && gs == gs[..n] + [gs[n]];
      CountSnoc(fs + gs[..n], gs[n], c);
    }
  }

  lemma {:induction false} CountNone(fs: seq<Finding>, c: Code)
    requires forall f | f in fs :: f.code != c
    ensures CountCode(fs, c) == 0
    decreases |fs|
  {
    if fs != [] {
      var n := |fs| - 1;
      assert fs == fs[..n] + [fs[n]];
      CountNone(fs[..n], c);
    }
  }

  method FindRows(nodes: seq<Node>, marked: set<string>, c: Code) returns (found: seq<Finding>)
    ensures found == RowFindings(nodes, marked, c)
  {
    found := [];
    for n := 0 to |nodes|
      invariant found == RowFindings(nodes[..n], marked, c)
    {
      assert nodes[..n + 1][..n] == nodes[..n];
      var a := nodes[n].row.addressId;
      if a in marked {
        found := found + [Finding(c, Some(RowId(a)))];
      }
    }
    assert nodes[..|nodes|] == nodes;
  }

  // ----- the whole workbench ------------------------------------------------

  /** Every relationship of the graph starts at one of its nodes. */
  predicate SourcesAreNodes(g: Graph) {
    forall i | 0 <= i < |g.edges| && g.edges[i].kind == RelationshipEdge :: g.edges[i].source in AddressSet(g.nodes)
  }

  ghost predicate IsContext(c: Context, g: Graph, parsed: Option<seq<TemplateRel>>) {
    && (forall s :: IsRowsOf(c.bySlug, g.nodes, s))
    && (forall s :: At(c.aliases, s) == if parsed.Some? then AliasesOf(parsed.value, s) else [])
  }

  /** Every edge joins two listed nodes, each listed once. */
  predicate IsClosed(r: Report) {
    && (forall i | 0 <= i < |r.edges| :: r.edges[i].source in r.nodes && r.edges[i].target in r.nodes)
    && (forall i, j | 0 <= i < j < |r.nodes| :: r.nodes[i] != r.nodes[j])
  }

  /** A row is reported exactly when the listed edges make it one to report. */
  predicate FindingsAgree(r: Report, g: Graph) {
    forall a | a in AddressSet(g.nodes) ::
      && (Finding(OrphanRow, Some(RowId(a))) in r.findings <==> IsOrphan(r.edges, a))
      && (Finding(SelfOnly, Some(RowId(a))) in r.findings <==> IsSelfOnly(r.edges, a))
  }

  predicate SummaryAgrees(r: Report, g: Graph) {
    r.summary == Summary(|g.nodes|, CountPredicates(r.edges), CountBindings(r.edges), CountDatasets(r.nodes),
                         CountEvidence(r.nodes), CountCode(r.findings, OrphanRow), CountCode(r.findings, SelfOnly))
  }

  method BuildRelationshipWorkbench(g: Graph, parsed: Option<seq<TemplateRel>>, d: Declarations)
    returns (r: Report, ghost c: Context)
    requires SourcesAreNodes(g)
    ensures IsContext(c, g, parsed)
    ensures r.edges == PredicateEdges(g.edges, AddressSet(g.nodes)) + DeclaredEdges(c, d)
    ensures IsClosed(r) && FindingsAgree(r, g) && SummaryAgrees(r, g)
  {
    hide Agrees, AddressSet, DeclaredEdges, IsClosed, FindingsAgree, SummaryAgrees;
    var builder := new Builder();
    builder.AddRows(g.nodes);
    builder.AddRelationships(g.edges);
    builder.LoadAliases(parsed);
    c := builder.Ctx();
    builder.AddDeclarations(d, |g.nodes|);
    var b := builder.bench;
    var orphans := FindRows(g.nodes, builder.rows - b.connected, OrphanRow);
    var selfOnly := FindRows(g.nodes, b.selfPredicates.Keys - b.nonSelf - b.support, SelfOnly);
    r := Report(b.nodes, b.edges, b.findings + orphans + selfOnly,
                Summary(|g.nodes|, b.predicateCount, b.bindingCount, b.datasetCount, b.evidenceCount, |orphans|, |selfOnly|));
    ReportAgrees(g, b, r);
  }

  /** The sets of a builder in agreement decide the findings rightly. */
  lemma ReportAgrees(g: Graph, b: Bench, r: Report)
    requires Agrees(b, {}) && NoRowFindings(b.findings) && r.nodes == b.nodes && r.edges == b.edges
    requires r.findings == b.findings + RowFindings(g.nodes, AddressSet(g.nodes) - b.connected, OrphanRow) +
                           RowFindings(g.nodes, b.selfPredicates.Keys - b.nonSelf - b.support, SelfOnly)
    requires r.summary == Summary(|g.nodes|, b.predicateCount, b.bindingCount, b.datasetCount, b.evidenceCount,
                                  |RowFindings(g.nodes, AddressSet(g.nodes) - b.connected, OrphanRow)|,
                                  |RowFindings(g.nodes, b.selfPredicates.Keys - b.nonSelf - b.support, SelfOnly)|)
    ensures IsClosed(r) && FindingsAgree(r, g) && SummaryAgrees(r, g)
  {
    hide AddressSet, RowFindings, Touched, Supported, OtherTouched, SelfList, IsOrphan, IsSelfOnly, CountCode,
         CountPredicates, CountBindings, CountDatasets, CountEvidence;
    var orphans := RowFindings(g.nodes, AddressSet(g.nodes) - b.connected, OrphanRow);
    var selfOnly := RowFindings(g.nodes, b.selfPredicates.Keys - b.nonSelf - b.support, SelfOnly);
    forall a | a in AddressSet(g.nodes)
      ensures Finding(OrphanRow, Some(RowId(a))) in r.findings <==> IsOrphan(r.edges, a)
      ensures Finding(SelfOnly, Some(RowId(a))) in r.findings <==> IsSelfOnly(r.edges, a)
    {
      RowFindingsMembers(g.nodes, AddressSet(g.nodes) - b.connected, OrphanRow, a);
      RowFindingsMembers(g.nodes, b.selfPredicates.Keys - b.nonSelf - b.support, SelfOnly, a);
      OrphanExactly(b.edges, a);
      SelfOnlyExactly(b.edges, a);
      assert SelfOf(b.selfPredicates, a) == SelfList(b.edges, a);
      OnlyAmong(b.findings, orphans, selfOnly, a);
    }
    RowFindingsMembers(g.nodes, AddressSet(g.nodes) - b.connected, OrphanRow, "");
    RowFindingsMembers(g.nodes, b.selfPredicates.Keys - b.nonSelf - b.support, SelfOnly, "");
    CodesAddUp(b.findings, orphans, selfOnly);
  }

  lemma OnlyAmong(fs: seq<Finding>, orphans: seq<Finding>, selfOnly: seq<Finding>, a: string)
    requires NoRowFindings(fs) && (forall f | f in orphans :: f.code == OrphanRow)
    requires forall f | f in selfOnly :: f.code == SelfOnly
    ensures var all := fs + orphans + selfOnly;
            && (Finding(OrphanRow, Some(RowId(a))) in all <==> Finding(OrphanRow, Some(RowId(a))) in orphans)
            && (Finding(SelfOnly, Some(RowId(a))) in all <==> Finding(SelfOnly, Some(RowId(a))) in selfOnly)
  {
  }

  lemma CodesAddUp(fs: seq<Finding>, orphans: seq<Finding>, selfOnly: seq<Finding>)
    requires NoRowFindings(fs) && (forall f | f in orphans :: f.code == OrphanRow)
    requires forall f | f in selfOnly :: f.code == SelfOnly
    ensures CountCode(fs + orphans + selfOnly, OrphanRow) == CountCode(orphans, OrphanRow)
    ensures CountCode(fs + orphans + selfOnly, SelfOnly) == CountCode(selfOnly, SelfOnly)
  {
    CountAppend(fs + orphans, selfOnly, OrphanRow);
    CountAppend(fs, orphans, OrphanRow);
    CountAppend(fs + orphans, selfOnly, SelfOnly);
    CountAppend(fs, orphans, SelfOnly);
    CountNone(fs, OrphanRow);
    CountNone(fs, SelfOnly);
    CountNone(orphans, SelfOnly);
    CountNone(selfOnly, OrphanRow);
  }

  // ----- graphs and drawings ------------------------------------------------

  /** Graphs built from rows meet the builder's demand. */
  lemma BuiltSourcesAreNodes(slugs: seq<Slug>, specKind: string -> string)
    ensures SourcesAreNodes(Built(slugs, specKind))
  {
    hide Sort, EdgesOf, Find, OutDegree, InDegree, DeriveVisualShape, TakeRows;
    var rows := Sort(RowBefore, TakeRows(slugs).rows);
    var g := Built(slugs, specKind);
    EdgesAreOf(rows);
    forall i | 0 <= i < |g.edges| ensures g.edges[i].source in AddressSet(g.nodes) {
      FindInRange(rows, g.edges[i].source);
      var k := Find(rows, g.edges[i].source).value;
      assert g.nodes[k].row.addressId == rows[k].addressId && g.nodes[k] in g.nodes;
    }
  }

  /** The edges the workbench drawing keeps: those with both ends among the nodes. */
  function DrawnEdges(nodes: seq<NodeId>, es: seq<BenchEdge>): seq<BenchEdge> {
    if es == [] then []
    else
      var e := es[|es| - 1];
      DrawnEdges(nodes, es[..|es| - 1]) + (if JoinsNodes(nodes, e) then [e] else [])
  }

  predicate JoinsNodes(nodes: seq<NodeId>, e: BenchEdge) {
    e.source in nodes && e.target in nodes
  }

  predicate AllJoinNodes(nodes: seq<NodeId>, es: seq<BenchEdge>) {
    forall i | 0 <= i < |es| :: JoinsNodes(nodes, es[i])
  }

  /** The drawing of a closed report drops no edge, and of any other it does. */
  lemma {:induction false} DrawsAllExactly(nodes: seq<NodeId>, es: seq<BenchEdge>)
    ensures |DrawnEdges(nodes, es)| <= |es|
    ensures DrawnEdges(nodes, es) == es <==> AllJoinNodes(nodes, es)
    decreases |es|
  {
    hide JoinsNodes, DrawnEdges, AllJoinNodes;
    if es == [] {
      NothingDrawn(nodes);
    } else {
      DrawsAllExactly(nodes, es[..|es| - 1]);
      DrawnStep(nodes, es);
      JoinStep(nodes, es);
      SnocIsSame(DrawnEdges(nodes, es[..|es| - 1]), es);
    }
  }

  lemma NothingDrawn(nodes: seq<NodeId>)
    ensures DrawnEdges(nodes, []) == [] && AllJoinNodes(nodes, [])
  {
  }

  lemma DrawnStep(nodes: seq<NodeId>, es: seq<BenchEdge>)
    requires es != []
    ensures var init, last := DrawnEdges(nodes, es[..|es| - 1]), es[|es| - 1];
            DrawnEdges(nodes, es) == if JoinsNodes(nodes, last) then init + [last] else init
  {
    hide JoinsNodes;
  }

  lemma JoinStep(nodes: seq<NodeId>, es: seq<BenchEdge>)
    requires es != []
    ensures AllJoinNodes(nodes, es) <==> AllJoinNodes(nodes, es[..|es| - 1]) && JoinsNodes(nodes, es[|es| - 1])
  {
    hide JoinsNodes;
  }

  lemma SnocIsSame(init: seq<BenchEdge>, es: seq<BenchEdge>)
    requires es != []
    ensures init + [es[|es| - 1]] == es <==> init == es[..|es| - 1]
  {
    var e := es[|es| - 1];
    assert es == es[..|es| - 1] + [e];
    if init + [e] == es {
      assert (init + [e])[..|init|] == init;
    }
  }
}
