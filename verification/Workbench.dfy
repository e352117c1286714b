/** The relationship workbench: bookkeeping sets kept beside the emitted edges, and the findings drawn from them. */
module Workbench {
  import opened Text
  import opened Checklist
  import opened Graph
  import Csv

  // ----- what is emitted ----------------------------------------------------

  /** Node ids; in the output each constructor has its own textual prefix. */
  datatype NodeId =
    | RowId(address: string)
    | ExternalId(address: string)
    | AliasId(slug: string)
    | TerminalId(slug: string)
    | MutationId(number: nat)
    | EvidenceId(number: nat)
    | DatasetId(number: nat)
    | ColumnId(number: nat, column: nat)
    | UnresolvedId(slug: string, field: string)

  datatype EdgeClass = Predicate | LegacyAlias | DeclaredTerminal | DirectWrite | EvidenceCapture | LookupKey |
    ContainsColumn | ColumnBinding

  /** `isLineage` is set on predicate edges only. */
  datatype BenchEdge = BenchEdge(source: NodeId, target: NodeId, cls: EdgeClass, caption: string, isLineage: bool)

  datatype Code =
    | AliasParseFailed | PackageMissing | DeclarationsInvalid | SchemaUnsupported
    | TerminalRowsInvalid | TerminalRowInvalid | TerminalRowUnknown
    | MutationSourcesInvalid | MutationTargetMissing
    | EvidenceSourcesInvalid | EvidenceTargetMissing
    | DatasetsInvalid | DatasetInvalid | DatasetPathInvalid | DatasetMissing | DatasetEmpty
    | LookupKeyInvalid | ConstantColumn | RepeatedLiteral | ColumnBindingTargetMissing | HighFanOut
    | OrphanRow | SelfOnly

  datatype Finding = Finding(code: Code, node: Option<NodeId>)

  // ----- what is declared ---------------------------------------------------

  /** A JSON list that may be no list, with items that may be no objects. */
  datatype Items<T> = NotAList | Items(items: seq<Option<T>>)

  datatype Terminal = Terminal(slug: string, stakeholder: string, reason: string)

  datatype Source = Source(slug: string, name: string, field: string)

  datatype LookupSpec = LookupSpec(slug: string, field: string, column: string)

  /** `table` is the file's content, `None` when it cannot be read; `lookup` is `None` when it is no object, and has
    * empty fields when it is missing. */
  datatype Dataset = Dataset(isSafePath: bool, table: Option<Csv.Table>, lookup: Option<LookupSpec>,
                             isHeaderDerived: bool)

  datatype Declarations =
    | NoPackage
    | Malformed
    | Declared(hasSchema: bool, terminals: Items<Terminal>, mutations: Items<Source>, evidence: Items<Source>,
               datasets: Items<Dataset>)

  // ----- the state ----------------------------------------------------------

  datatype Bench = Bench(
    nodes: seq<NodeId>,
    ids: set<NodeId>,
    edges: seq<BenchEdge>,
    findings: seq<Finding>,
    connected: set<string>,
    selfPredicates: map<string, seq<string>>,
    nonSelf: set<string>,
    support: set<string>,
    predicateCount: nat,
    bindingCount: nat,
    datasetCount: nat,
    evidenceCount: nat)

  const EMPTY_BENCH := Bench([], {}, [], [], {}, map[], {}, {}, 0, 0, 0, 0)

  datatype Summary = Summary(rows: nat, predicateEdges: nat, bindingEdges: nat, datasets: nat, evidenceSources: nat,
                             orphanRows: nat, selfOnlyRows: nat)

  // ----- what the edges say -------------------------------------------------

  function RowOf(id: NodeId): set<string> {
    if id.RowId? then {id.address} else {}
  }

  /** The rows an edge touches. */
  function RowsAt(e: BenchEdge): set<string> {
    RowOf(e.source) + RowOf(e.target)
  }

  predicate IsOperationalSelf(e: BenchEdge) {
    e.cls == Predicate && !e.isLineage && e.source == e.target && e.source.RowId?
  }

  predicate IsOperationalOther(e: BenchEdge) {
    e.cls == Predicate && !e.isLineage && !IsOperationalSelf(e)
  }

  function Touched(es: seq<BenchEdge>): set<string> {
    if es == [] then {} else Touched(es[..|es| - 1]) + RowsAt(es[|es| - 1])
  }

  function Supported(es: seq<BenchEdge>): set<string> {
    if es == [] then {}
    else Supported(es[..|es| - 1]) + (if es[|es| - 1].cls != Predicate then RowsAt(es[|es| - 1]) else {})
  }

  function OtherTouched(es: seq<BenchEdge>): set<string> {
    if es == [] then {}
    else OtherTouched(es[..|es| - 1]) + (if IsOperationalOther(es[|es| - 1]) then RowsAt(es[|es| - 1]) else {})
  }

  function SelfList(es: seq<BenchEdge>, a: string): seq<string> {
    if es == [] then []
    else
      var e := es[|es| - 1];
      SelfList(es[..|es| - 1], a) + (if IsOperationalSelf(e) && e.source == RowId(a) then [e.caption] else [])
  }

  predicate IsBinding(e: BenchEdge) {
    e.cls == LookupKey || (e.cls == ColumnBinding && e.target.RowId?)
  }

  function CountPredicates(es: seq<BenchEdge>): nat {
    if es == [] then 0 else CountPredicates(es[..|es| - 1]) + (if es[|es| - 1].cls == Predicate then 1 else 0)
  }

  function CountBindings(es: seq<BenchEdge>): nat {
    if es == [] then 0 else CountBindings(es[..|es| - 1]) + (if IsBinding(es[|es| - 1]) then 1 else 0)
  }

  function CountDatasets(ns: seq<NodeId>): nat {
    if ns == [] then 0 else CountDatasets(ns[..|ns| - 1]) + (if ns[|ns| - 1].DatasetId? then 1 else 0)
  }

  function CountEvidence(ns: seq<NodeId>): nat {
    if ns == [] then 0 else CountEvidence(ns[..|ns| - 1]) + (if ns[|ns| - 1].EvidenceId? then 1 else 0)
  }

  function CountCode(fs: seq<Finding>, c: Code): nat {
    if fs == [] then 0 else CountCode(fs[..|fs| - 1], c) + (if fs[|fs| - 1].code == c then 1 else 0)
  }

  // ----- agreement ----------------------------------------------------------

  function SelfOf(m: map<string, seq<string>>, a: string): seq<string> {
    if a in m then m[a] else []
  }

  ghost predicate NodesAgree(b: Bench) {
    && (forall id :: id in b.nodes <==> id in b.ids)
    && (forall i, j | 0 <= i < j < |b.nodes| :: b.nodes[i] != b.nodes[j])
    && b.datasetCount == CountDatasets(b.nodes)
    && b.evidenceCount == CountEvidence(b.nodes)
  }

  ghost predicate EdgesAreDeclared(b: Bench) {
    forall i | 0 <= i < |b.edges| :: b.edges[i].source in b.ids && b.edges[i].target in b.ids
  }

  /** The bookkeeping sets are what the edges say, but for rows whose entry is still pending. */
  ghost predicate EdgesAgree(b: Bench, pending: set<string>) {
    && b.connected <= Touched(b.edges) <= b.connected + pending
    && b.support <= Supported(b.edges) <= b.support + pending
    && b.nonSelf == OtherTouched(b.edges)
    && (forall a :: SelfOf(b.selfPredicates, a) == SelfList(b.edges, a))
    && (forall a | a in b.selfPredicates :: b.selfPredicates[a] != [])
    && b.predicateCount == CountPredicates(b.edges)
    && b.bindingCount == CountBindings(b.edges)
  }

  ghost predicate Agrees(b: Bench, pending: set<string>) {
    NodesAgree(b) && EdgesAreDeclared(b) && EdgesAgree(b, pending)
  }

  /** No node is taken back. */
  predicate Grows(before: Bench, after: Bench) {
    before.ids <= after.ids
  }

  // ----- single additions ---------------------------------------------------

  function WithNode(b: Bench, id: NodeId): Bench {
    if id in b.ids then b else b.(ids := b.ids + {id}, nodes := b.nodes + [id])
  }

  function WithEdge(b: Bench, e: BenchEdge): Bench {
    b.(edges := b.edges + [e])
  }

  function WithFinding(b: Bench, c: Code, node: Option<NodeId>): Bench {
    b.(findings := b.findings + [Finding(c, node)])
  }

  lemma NodeAdds(b: Bench, id: NodeId)
    requires NodesAgree(b) && id !in b.ids
    ensures NodesAgree(b.(ids := b.ids + {id}, nodes := b.nodes + [id],
                          datasetCount := b.datasetCount + (if id.DatasetId? then 1 else 0),
                          evidenceCount := b.evidenceCount + (if id.EvidenceId? then 1 else 0)))
  {
    assert (b.nodes + [id])[..|b.nodes|] == b.nodes;
    assert forall i | 0 <= i < |b.nodes| :: b.nodes[i] in b.ids;
  }

  lemma NodeKeepsAgreement(b: Bench, id: NodeId, pending: set<string>)
    requires Agrees(b, pending) && !id.DatasetId? && !id.EvidenceId?
    ensures Agrees(WithNode(b, id), pending) && id in WithNode(b, id).ids && Grows(b, WithNode(b, id))
  {
    hide EdgesAgree, NodesAgree;
    var after := WithNode(b, id);
    if id !in b.ids {
      NodeAdds(b, id);
      SameEdgesAgree(b, after, pending);
    }
  }

  lemma SameEdgesAgree(b: Bench, c: Bench, pending: set<string>)
    requires EdgesAgree(b, pending) && c == b.(nodes := c.nodes, ids := c.ids, findings := c.findings,
                                                datasetCount := c.datasetCount, evidenceCount := c.evidenceCount)
    ensures EdgesAgree(c, pending)
  {
  }

  lemma SameNodesAgree(b: Bench, c: Bench)
    requires NodesAgree(b) && c.nodes == b.nodes && c.ids == b.ids
    requires c.datasetCount == b.datasetCount && c.evidenceCount == b.evidenceCount
    ensures NodesAgree(c)
  {
  }

  /** A counted node that is new. */
  lemma CountedNodeKeepsAgreement(b: Bench, id: NodeId)
    requires Agrees(b, {}) && id !in b.ids && (id.DatasetId? || id.EvidenceId?)
    ensures var after := WithNode(b, id).(datasetCount := b.datasetCount + (if id.DatasetId? then 1 else 0),
                                           evidenceCount := b.evidenceCount + (if id.EvidenceId? then 1 else 0));
            Agrees(after, {}) && Grows(b, after)
  {
    hide EdgesAgree, NodesAgree;
    NodeAdds(b, id);
    var after := WithNode(b, id).(datasetCount := b.datasetCount + (if id.DatasetId? then 1 else 0),
                                  evidenceCount := b.evidenceCount + (if id.EvidenceId? then 1 else 0));
    SameEdgesAgree(b, after, {});
  }

  lemma FindingKeepsAgreement(b: Bench, c: Code, node: Option<NodeId>, pending: set<string>)
    requires Agrees(b, pending)
    ensures Agrees(WithFinding(b, c, node), pending) && Grows(b, WithFinding(b, c, node))
  {
    hide EdgesAgree;
    SameEdgesAgree(b, WithFinding(b, c, node), pending);
  }

  /** An edge that is no predicate: its rows become pending. */
  lemma EdgeKeepsAgreement(b: Bench, e: BenchEdge, pending: set<string>)
    requires Agrees(b, pending) && e.source in b.ids && e.target in b.ids && e.cls != Predicate
    ensures var after := WithEdge(b, e).(bindingCount := b.bindingCount + (if IsBinding(e) then 1 else 0));
            Agrees(after, pending + RowsAt(e)) && Grows(b, after)
  {
    hide Touched, Supported, OtherTouched, SelfList, CountPredicates, CountBindings, NodesAgree, IsBinding;
    EdgeAdds(b.edges, e);
    var after := WithEdge(b, e).(bindingCount := b.bindingCount + (if IsBinding(e) then 1 else 0));
    SameNodesAgree(b, after);
    forall a ensures SelfOf(after.selfPredicates, a) == SelfList(after.edges, a) {
      assert SelfOf(b.selfPredicates, a) == SelfList(b.edges, a);
      SelfListAdds(b.edges, e, a);
    }
  }

  lemma EdgeAdds(es: seq<BenchEdge>, e: BenchEdge)
    ensures Touched(es + [e]) == Touched(es) + RowsAt(e)
    ensures Supported(es + [e]) == Supported(es) + (if e.cls != Predicate then RowsAt(e) else {})
    ensures OtherTouched(es + [e]) == OtherTouched(es) + (if IsOperationalOther(e) then RowsAt(e) else {})
    ensures CountPredicates(es + [e]) == CountPredicates(es) + (if e.cls == Predicate then 1 else 0)
    ensures CountBindings(es + [e]) == CountBindings(es) + (if IsBinding(e) then 1 else 0)
  {
    assert (es + [e])[..|es|] == es;
  }

  lemma SelfListAdds(es: seq<BenchEdge>, e: BenchEdge, a: string)
    ensures SelfList(es + [e], a) ==
            SelfList(es, a) + (if IsOperationalSelf(e) && e.source == RowId(a) then [e.caption] else [])
  {
    assert (es + [e])[..|es|] == es;
  }

  /** Entering pending rows in the sets. */
  lemma EnteringKeepsAgreement(b: Bench, rows: set<string>, pending: set<string>)
    requires Agrees(b, pending) && rows <= Supported(b.edges)
    ensures var after := b.(connected := b.connected + rows, support := b.support + rows);
            Agrees(after, pending - rows)
  {
    hide Touched, OtherTouched, SelfList, CountPredicates, CountBindings, CountDatasets, CountEvidence, Supported;
    SupportedIsTouched(b.edges);
  }

  lemma {:induction false} SupportedIsTouched(es: seq<BenchEdge>)
    ensures Supported(es) <= Touched(es)
    decreases |es|
  {
    if es != [] {
      SupportedIsTouched(es[..|es| - 1]);
    }
  }

  // ----- predicate edges ----------------------------------------------------

  /** The edge a relationship of the graph becomes. */
  function PredicateEdge(e: GraphEdge, isLocal: bool): BenchEdge {
    BenchEdge(RowId(e.source), if isLocal then RowId(e.target) else ExternalId(e.target), Predicate, e.predicateName,
              e.isLineage)
  }

  /** One relationship: its edge and its entries in the sets. */
  function WithRelationship(b: Bench, e: GraphEdge, isLocal: bool): Bench {
    var edge := PredicateEdge(e, isLocal);
    var c := WithEdge(b, edge).(connected := b.connected + RowsAt(edge), predicateCount := b.predicateCount + 1);
    if !e.isLineage && isLocal && e.source == e.target
    then c.(selfPredicates := b.selfPredicates[e.source := SelfOf(b.selfPredicates, e.source) + [e.predicateName]])
    else if !e.isLineage then c.(nonSelf := b.nonSelf + RowsAt(edge))
    else c
  }

  lemma RelationshipKeepsAgreement(b: Bench, e: GraphEdge, isLocal: bool)
    requires Agrees(b, {}) && PredicateEdge(e, isLocal).source in b.ids && PredicateEdge(e, isLocal).target in b.ids
    ensures Agrees(WithRelationship(b, e, isLocal), {})
  {
    hide Touched, Supported, OtherTouched, SelfList, CountPredicates, CountBindings, NodesAgree;
    SameNodesAgree(b, WithRelationship(b, e, isLocal));
    var edge := PredicateEdge(e, isLocal);
    EdgeAdds(b.edges, edge);
    var after := WithRelationship(b, e, isLocal);
    forall a ensures SelfOf(after.selfPredicates, a) == SelfList(after.edges, a) {
      assert SelfOf(b.selfPredicates, a) == SelfList(b.edges, a);
      SelfListAdds(b.edges, edge, a);
    }
  }
}
