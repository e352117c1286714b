/** The workbench builder: rows, relationships, aliases, declarations and datasets, then the row findings. */
module WorkbenchBuilder {
  import opened Text
  import opened Checklist
  import opened Graph
  import opened Workbench
  import Csv

  // ----- which rows a slug stands for ---------------------------------------

  /** The rows of each slug, and the current slugs of each legacy one. */
  datatype Context = Context(bySlug: map<string, seq<string>>, aliases: map<string, seq<string>>)

  function At(m: map<string, seq<string>>, k: string): seq<string> {
    if k in m then m[k] else []
  }

  function Gather(c: Context, slugs: seq<string>): seq<string> {
    if slugs == [] then [] else Gather(c, slugs[..|slugs| - 1]) + At(c.bySlug, slugs[|slugs| - 1])
  }

  /** The rows of the slug itself, or else those of the slugs it is an alias of. */
  function Resolved(c: Context, slug: string): seq<string> {
    if slug in c.bySlug then c.bySlug[slug] else Gather(c, At(c.aliases, slug))
  }

  /** The slug, when it was resolved through the aliases. */
  function AliasUsed(c: Context, slug: string): string {
    if slug !in c.bySlug && slug in c.aliases then slug else ""
  }

  // ----- edges of the declarations ------------------------------------------

  function LinkEdge(a: string, id: NodeId, cls: EdgeClass, isFromRow: bool, caption: string): BenchEdge {
    if isFromRow then BenchEdge(RowId(a), id, cls, caption, false) else BenchEdge(id, RowId(a), cls, caption, false)
  }

  function LinkEdges(rows: seq<string>, id: NodeId, cls: EdgeClass, isFromRow: bool, caption: string): seq<BenchEdge> {
    seq(|rows|, i requires 0 <= i < |rows| => LinkEdge(rows[i], id, cls, isFromRow, caption))
  }

  function AliasEdges(alias: string, rows: seq<string>): seq<BenchEdge> {
    if alias == "" then [] else LinkEdges(rows, AliasId(alias), LegacyAlias, false, "maps to current row")
  }

  /** The links between the rows of a slug and a declared node, after those of the alias used. */
  function Links(c: Context, slug: string, id: NodeId, cls: EdgeClass, isFromRow: bool, caption: string): seq<BenchEdge> {
    AliasEdges(AliasUsed(c, slug), Resolved(c, slug)) + LinkEdges(Resolved(c, slug), id, cls, isFromRow, caption)
  }

  predicate IsTerminal(c: Context, o: Option<Terminal>) {
    && o.Some? && o.value.slug != "" && o.value.stakeholder != "" && o.value.reason != ""
    && Resolved(c, o.value.slug) != []
  }

  function OneTerminalEdges(c: Context, o: Option<Terminal>): seq<BenchEdge> {
    if IsTerminal(c, o)
    then Links(c, o.value.slug, TerminalId(o.value.slug), DeclaredTerminal, true, "terminal outcome")
    else []
  }

  function TerminalEdges(c: Context, items: seq<Option<Terminal>>): seq<BenchEdge> {
    if items == [] then []
    else TerminalEdges(c, items[..|items| - 1]) + OneTerminalEdges(c, items[|items| - 1])
  }

  function OneTerminalFindings(c: Context, o: Option<Terminal>): seq<Finding> {
    if o == None then [Finding(TerminalRowInvalid, None)]
    else if !IsTerminal(c, o) then [Finding(TerminalRowUnknown, None)]
    else []
  }

  function TerminalFindings(c: Context, items: seq<Option<Terminal>>): seq<Finding> {
    if items == [] then []
    else TerminalFindings(c, items[..|items| - 1]) + OneTerminalFindings(c, items[|items| - 1])
  }

  predicate IsSource(c: Context, o: Option<Source>) {
    o.Some? && o.value.slug != "" && Resolved(c, o.value.slug) != []
  }

  function CountSources(c: Context, items: seq<Option<Source>>): nat {
    if items == [] then 0
    else CountSources(c, items[..|items| - 1]) + (if IsSource(c, items[|items| - 1]) then 1 else 0)
  }

  function SourceId(isMutation: bool, number: nat): NodeId {
    if isMutation then MutationId(number) else EvidenceId(number)
  }

  function OneSourceEdges(c: Context, o: Option<Source>, isMutation: bool, number: nat): seq<BenchEdge> {
    if IsSource(c, o)
    then Links(c, o.value.slug, SourceId(isMutation, number), if isMutation then DirectWrite else EvidenceCapture, false,
               o.value.field)
    else []
  }

  function OneSourceFindings(c: Context, o: Option<Source>, isMutation: bool): seq<Finding> {
    if o.Some? && !IsSource(c, o)
    then [Finding(if isMutation then MutationTargetMissing else EvidenceTargetMissing, None)] else []
  }

  function SourceFindings(c: Context, items: seq<Option<Source>>, isMutation: bool): seq<Finding> {
    if items == [] then []
    else SourceFindings(c, items[..|items| - 1], isMutation) + OneSourceFindings(c, items[|items| - 1], isMutation)
  }

  /** Accepted sources are numbered in order. */
  function SourceEdges(c: Context, items: seq<Option<Source>>, isMutation: bool): seq<BenchEdge> {
    if items == [] then []
    else
      var init, o := items[..|items| - 1], items[|items| - 1];
      SourceEdges(c, init, isMutation) + OneSourceEdges(c, o, isMutation, CountSources(c, init))
  }

  // ----- edges of the datasets ----------------------------------------------

  predicate IsAlnum(ch: char) {
    '0' <= ch <= '9' || 'A' <= ch <= 'Z' || 'a' <= ch <= 'z'
  }

  /** `<slug>-<field>` with an optional label in parentheses behind it. */
  function HeaderBinding(header: string): Option<(string, string)> {
    if IndexOf(header, '-') != 16 || |header| <= 17 then None
    else
      var rest := header[17..];
      var field := rest[..IndexOf(rest, '(')];
      if (exists i | 0 <= i < 16 :: !IsAlnum(header[i])) || field !in {"result", "status", "comment"} then None
      else Some((header[..16], field))
  }

  predicate IsLookup(c: Context, l: LookupSpec) {
    l.slug != "" && l.field != "" && l.column != "" && Resolved(c, l.slug) != []
  }

  function LookupEdges(c: Context, k: nat, lookup: Option<LookupSpec>): seq<BenchEdge> {
    if lookup.Some? && IsLookup(c, lookup.value)
    then Links(c, lookup.value.slug, DatasetId(k), LookupKey, true, lookup.value.field + " selects " + lookup.value.column)
    else []
  }

  function BindingEdges(c: Context, id: NodeId, binding: Option<(string, string)>): seq<BenchEdge> {
    if binding == None then []
    else
      var (slug, field) := binding.value;
      if Resolved(c, slug) == [] then [BenchEdge(id, UnresolvedId(slug, field), ColumnBinding, field, false)]
      else Links(c, slug, id, ColumnBinding, false, field)
  }

  function ColumnEdges(c: Context, k: nat, j: nat, header: string, isHeaderDerived: bool): seq<BenchEdge> {
    [BenchEdge(DatasetId(k), ColumnId(k, j), ContainsColumn, "column", false)] +
    BindingEdges(c, ColumnId(k, j), if isHeaderDerived then HeaderBinding(header) else None)
  }

  function ColumnsEdges(c: Context, k: nat, headers: seq<string>, isHeaderDerived: bool): seq<BenchEdge> {
    if headers == [] then []
    else
      var j := |headers| - 1;
      ColumnsEdges(c, k, headers[..j], isHeaderDerived) + ColumnEdges(c, k, j, headers[j], isHeaderDerived)
  }

  predicate IsReadable(d: Dataset) {
    d.isSafePath && d.table.Some? && d.table.value != [] && d.table.value[0] != []
  }

  function DatasetEdges(c: Context, items: seq<Option<Dataset>>): seq<BenchEdge> {
    if items == [] then []
    else
      var k := |items| - 1;
      DatasetEdges(c, items[..k]) + OneDatasetEdges(c, k, items[k])
  }

  function OneDatasetEdges(c: Context, k: nat, o: Option<Dataset>): seq<BenchEdge> {
    if o == None || !IsReadable(o.value) then []
    else LookupEdges(c, k, o.value.lookup) + ColumnsEdges(c, k, o.value.table.value[0], o.value.isHeaderDerived)
  }

  function TerminalPart(c: Context, t: Items<Terminal>): seq<BenchEdge> {
    if t.Items? then TerminalEdges(c, t.items) else []
  }

  function SourcePart(c: Context, s: Items<Source>, isMutation: bool): seq<BenchEdge> {
    if s.Items? then SourceEdges(c, s.items, isMutation) else []
  }

  function DatasetPart(c: Context, d: Items<Dataset>): seq<BenchEdge> {
    if d.Items? then DatasetEdges(c, d.items) else []
  }

  /** All edges the declarations add. */
  function DeclaredEdges(c: Context, d: Declarations): seq<BenchEdge> {
    if !d.Declared? then []
    else TerminalPart(c, d.terminals) + SourcePart(c, d.mutations, true) + SourcePart(c, d.evidence, false) +
         DatasetPart(c, d.datasets)
  }

  // ----- rows and aliases ---------------------------------------------------

  function AddressSet(nodes: seq<Node>): set<string> {
    set n | n in nodes :: n.row.addressId
  }

  function RowsOf(nodes: seq<Node>, slug: string): seq<string> {
    if nodes == [] then []
    else
      var n := |nodes| - 1;
      RowsOf(nodes[..n], slug) + (if nodes[n].row.slugId == slug then [nodes[n].row.addressId] else [])
  }

  /** The map lists the rows of a slug in order, and only slugs that have some. */
  predicate IsRowsOf(bySlug: map<string, seq<string>>, nodes: seq<Node>, slug: string) {
    At(bySlug, slug) == RowsOf(nodes, slug) && (slug in bySlug <==> RowsOf(nodes, slug) != [])
  }

  lemma NoRowsYet()
    ensures AddressSet([]) == {} && forall s :: IsRowsOf(map[], [], s)
  {
  }

  lemma RowsGrow(nodes: seq<Node>, n: Node, before: map<string, seq<string>>, after: map<string, seq<string>>)
    requires forall s :: IsRowsOf(before, nodes, s)
    requires after == before[n.row.slugId := At(before, n.row.slugId) + [n.row.addressId]]
    ensures AddressSet(nodes + [n]) == AddressSet(nodes) + {n.row.addressId}
    ensures forall s :: IsRowsOf(after, nodes + [n], s)
  {
    assert (nodes + [n])[..|nodes|] == nodes;
    forall s ensures IsRowsOf(after, nodes + [n], s) {
      assert IsRowsOf(before, nodes, s);
    }
  }

  function PredicateEdges(es: seq<GraphEdge>, rows: set<string>): seq<BenchEdge> {
    if es == [] then []
    else
      var e := es[|es| - 1];
      PredicateEdges(es[..|es| - 1], rows) +
      (if e.kind == RelationshipEdge then [PredicateEdge(e, e.target in rows)] else [])
  }

  /** The current slugs a legacy slug stands for, from the lineage relationships of checklist.md. */
  function AliasesOf(rels: seq<TemplateRel>, slug: string): seq<string> {
    if rels == [] then []
    else
      var r := rels[|rels| - 1];
      AliasesOf(rels[..|rels| - 1], slug) +
      (if r.predicateName == SLUG_PREDECESSOR && r.target == slug then [r.subject]
       else if r.predicateName == SLUG_SUCCESSOR && r.subject == slug then [r.target]
       else [])
  }

  lemma NoAliases()
    ensures forall s :: At(map[], s) == [] == AliasesOf([], s)
  {
  }

  function WithAlias(aliases: map<string, seq<string>>, r: TemplateRel): map<string, seq<string>> {
    if r.predicateName == SLUG_PREDECESSOR then aliases[r.target := At(aliases, r.target) + [r.subject]]
    else if r.predicateName == SLUG_SUCCESSOR then aliases[r.subject := At(aliases, r.subject) + [r.target]]
    else aliases
  }

  lemma AliasesGrow(rels: seq<TemplateRel>, r: TemplateRel, aliases: map<string, seq<string>>)
    requires forall s :: At(aliases, s) == AliasesOf(rels, s)
    ensures forall s :: At(WithAlias(aliases, r), s) == AliasesOf(rels + [r], s)
  {
    assert (rels + [r])[..|rels|] == rels;
    forall s ensures At(WithAlias(aliases, r), s) == AliasesOf(rels + [r], s) {
      assert At(aliases, s) == AliasesOf(rels, s);
    }
  }

  // ----- columns of a dataset -----------------------------------------------

  function CellAt(row: seq<string>, j: nat): string {
    if j < |row| then row[j] else ""
  }

  /** The non-empty cells of a column below the header. */
  function ColumnCells(table: Csv.Table, j: nat): seq<string> {
    if |table| <= 1 then []
    else
      var n := |table| - 1;
      ColumnCells(table[..n], j) + (if CellAt(table[n], j) != "" then [CellAt(table[n], j)] else [])
  }

  function ValueFindings(table: Csv.Table, j: nat, id: NodeId): seq<Finding> {
    var records, cells := |table| - 1, ColumnCells(table, j);
    (if records > 0 && |cells| == records && |SetOf(cells)| == 1 then [Finding(ConstantColumn, Some(id))] else []) +
    (if 1 < |cells| < records && |SetOf(cells)| == 1 then [Finding(RepeatedLiteral, Some(id))] else [])
  }

  function BindingFindings(c: Context, id: NodeId, binding: Option<(string, string)>): seq<Finding> {
    if binding.Some? && Resolved(c, binding.value.0) == [] then [Finding(ColumnBindingTargetMissing, Some(id))] else []
  }

  predicate IsBound(c: Context, binding: Option<(string, string)>) {
    binding.Some? && Resolved(c, binding.value.0) != []
  }

  function CountBound(c: Context, headers: seq<string>, isHeaderDerived: bool): nat {
    if headers == [] then 0
    else
      var j := |headers| - 1;
      CountBound(c, headers[..j], isHeaderDerived) +
      (if isHeaderDerived && IsBound(c, HeaderBinding(headers[j])) then 1 else 0)
  }

  function ColumnFindings(c: Context, k: nat, j: nat, table: Csv.Table, isHeaderDerived: bool): seq<Finding>
    requires table != [] && j < |table[0]|
  {
    ValueFindings(table, j, ColumnId(k, j)) +
    BindingFindings(c, ColumnId(k, j), if isHeaderDerived then HeaderBinding(table[0][j]) else None)
  }

  function ColumnsFindings(c: Context, k: nat, n: nat, table: Csv.Table, isHeaderDerived: bool): seq<Finding>
    requires table != [] && n <= |table[0]|
  {
    if n == 0 then []
    else ColumnsFindings(c, k, n - 1, table, isHeaderDerived) + ColumnFindings(c, k, n - 1, table, isHeaderDerived)
  }

  function TableFindings(c: Context, k: nat, d: Dataset): seq<Finding>
    requires IsReadable(d)
  {
    var table := d.table.value;
    (if d.lookup.Some? && !IsLookup(c, d.lookup.value) then [Finding(LookupKeyInvalid, Some(DatasetId(k)))] else []) +
    ColumnsFindings(c, k, |table[0]|, table, d.isHeaderDerived)
  }

  predicate IsResolved(c: Context, d: Dataset) {
    d.lookup.Some? && IsLookup(c, d.lookup.value)
  }

  function ReadableFindings(c: Context, k: nat, d: Dataset, rowCount: nat, boundRows: nat): seq<Finding>
    requires IsReadable(d)
  {
    TableFindings(c, k, d) +
    (if IsHighFanOut(IsResolved(c, d), CountBound(c, d.table.value[0], d.isHeaderDerived), boundRows, rowCount)
     then [Finding(HighFanOut, Some(DatasetId(k)))] else [])
  }

  function DatasetFindings(c: Context, k: nat, o: Option<Dataset>, rowCount: nat, boundRows: nat): seq<Finding> {
    if o == None then [Finding(DatasetInvalid, None)]
    else if !o.value.isSafePath then [Finding(DatasetPathInvalid, None)]
    else if o.value.table == None then [Finding(DatasetMissing, None)]
    else if !IsReadable(o.value) then [Finding(DatasetEmpty, None)]
    else ReadableFindings(c, k, o.value, rowCount, boundRows)
  }

  /** The rows bound to columns of one dataset. */
  function BoundRows(es: seq<BenchEdge>, k: nat): set<string> {
    set e | e in es && e.cls == ColumnBinding && e.source.ColumnId? && e.source.number == k && e.target.RowId? ::
      e.target.address
  }

  /** A resolved lookup, three bound columns, and at least a quarter of the rows bound. */
  predicate IsHighFanOut(isResolved: bool, boundColumns: nat, boundRows: nat, rowCount: nat) {
    isResolved && boundColumns >= 3 && rowCount > 0 && 4 * boundRows >= rowCount
  }

  predicate NoRowFindings(fs: seq<Finding>) {
    forall i | 0 <= i < |fs| :: fs[i].code != OrphanRow && fs[i].code != SelfOnly
  }

  // ----- the builder --------------------------------------------------------

  function SetOf(rows: seq<string>): set<string> {
    set a | a in rows
  }

  class Builder {
    var bench: Bench
    var rows: set<string>
    var bySlug: map<string, seq<string>>
    var aliases: map<string, seq<string>>

    ghost function Ctx(): Context
      reads this
    {
      Context(bySlug, aliases)
    }

    /** Rows are declared nodes, and slugs stand for rows. */
    ghost predicate Grounded()
      reads this
    {
      && (forall a | a in rows :: RowId(a) in bench.ids)
      && (forall s | s in bySlug :: forall i | 0 <= i < |bySlug[s]| :: bySlug[s][i] in rows)
      && NoRowFindings(bench.findings)
    }

    ghost predicate Valid()
      reads this
    {
      Grounded() && Agrees(bench, {})
    }

    constructor ()
      ensures Valid() && bench == EMPTY_BENCH && rows == {} && bySlug == map[] && aliases == map[]
    {
      bench, rows, bySlug, aliases := EMPTY_BENCH, {}, map[], map[];
    }

    method AddRows(nodes: seq<Node>)
      requires bench == EMPTY_BENCH && rows == {} && bySlug == map[]
      modifies this`bench, this`rows, this`bySlug
      ensures Valid() && bench == EMPTY_BENCH.(nodes := bench.nodes, ids := bench.ids)
      ensures rows == AddressSet(nodes) && forall s :: IsRowsOf(bySlug, nodes, s)
      ensures forall i | i in bench.ids :: i.RowId?
    {
      hide Agrees, AddressSet, IsRowsOf;
      EmptyAgrees();
      NoRowsYet();
      for n := 0 to |nodes|
        invariant Valid() && bench == EMPTY_BENCH.(nodes := bench.nodes, ids := bench.ids)
        invariant rows == AddressSet(nodes[..n]) && forall s :: IsRowsOf(bySlug, nodes[..n], s)
        invariant forall i | i in bench.ids :: i.RowId?
      {
        var row := nodes[n].row;
        ghost var before := bySlug;
        NodeKeepsAgreement(bench, RowId(row.addressId), {});
        bench := WithNode(bench, RowId(row.addressId));
        rows := rows + {row.addressId};
        bySlug := bySlug[row.slugId := (if row.slugId in bySlug then bySlug[row.slugId] else []) + [row.addressId]];
        RowsGrow(nodes[..n], nodes[n], before, bySlug);
        assert nodes[..n + 1] == nodes[..n] + [nodes[n]];
      }
      assert nodes[..|nodes|] == nodes;
    }

    method AddRelationships(es: seq<GraphEdge>)
      requires Valid() && forall i | 0 <= i < |es| && es[i].kind == RelationshipEdge :: es[i].source in rows
      modifies this`bench
      ensures Valid() && bench.edges == old(bench.edges) + PredicateEdges(es, rows)
      ensures bench.findings == old(bench.findings) && bench.evidenceCount == old(bench.evidenceCount)
      ensures bench.datasetCount == old(bench.datasetCount)
      ensures forall i | i in bench.ids :: i in old(bench.ids) || i.ExternalId?
    {
      hide Agrees;
      for n := 0 to |es|
        invariant Valid() && bench.edges == old(bench.edges) + PredicateEdges(es[..n], rows)
        invariant bench.findings == old(bench.findings) && bench.evidenceCount == old(bench.evidenceCount)
        invariant bench.datasetCount == old(bench.datasetCount)
        invariant forall i | i in bench.ids :: i in old(bench.ids) || i.ExternalId?
      {
        assert es[..n + 1][..n] == es[..n];
        if es[n].kind == RelationshipEdge {
          AddRelationship(es[n]);
        }
      }
      assert es[..|es|] == es;
    }

    /** The order of the entries is the original's; the sets end up as one relationship demands. */
    method AddRelationship(e: GraphEdge)
      requires Valid() && e.source in rows
      modifies this`bench
      ensures Valid() && bench.edges == old(bench.edges) + [PredicateEdge(e, e.target in rows)]
      ensures bench.findings == old(bench.findings) && bench.evidenceCount == old(bench.evidenceCount)
      ensures bench.datasetCount == old(bench.datasetCount)
      ensures forall i | i in bench.ids :: i in old(bench.ids) || i.ExternalId?
    {
      hide Agrees;
      var isLocal := e.target in rows;
      var target := RowId(e.target);
      if !isLocal {
        target := ExternalId(e.target);
        NodeKeepsAgreement(bench, target, {});
        bench := WithNode(bench, target);
      }
      ghost var before := bench;
      if isLocal {
        bench := bench.(connected := bench.connected + {e.target});
      }
      bench := WithEdge(bench, BenchEdge(RowId(e.source), target, Predicate, e.predicateName, e.isLineage));
      bench := bench.(connected := bench.connected + {e.source});
      if !e.isLineage && isLocal && e.source == e.target {
        bench := bench.(selfPredicates := bench.selfPredicates[e.source :=
          (if e.source in bench.selfPredicates then bench.selfPredicates[e.source] else []) + [e.predicateName]]);
      } else if !e.isLineage {
        bench := bench.(nonSelf := bench.nonSelf + {e.source});
        if isLocal {
          bench := bench.(nonSelf := bench.nonSelf + {e.target});
        }
      }
      bench := bench.(predicateCount := bench.predicateCount + 1);
      RelationshipKeepsAgreement(before, e, isLocal);
      assert bench == WithRelationship(before, e, isLocal) by {
        assert bench.connected == before.connected + RowsAt(PredicateEdge(e, isLocal));
        assert bench.nonSelf == WithRelationship(before, e, isLocal).nonSelf;
      }
    }

    /** `None` when checklist.md does not parse; a missing file gives no relationships. */
    method LoadAliases(parsed: Option<seq<TemplateRel>>)
      requires Valid() && aliases == map[]
      modifies this`aliases, this`bench
      ensures Valid() && Grows(old(bench), bench)
      ensures bench == old(bench).(findings := bench.findings)
      ensures forall s :: At(aliases, s) == if parsed.Some? then AliasesOf(parsed.value, s) else []
    {
      hide Agrees, AliasesOf;
      if parsed == None {
        AddFinding(AliasParseFailed, None);
      } else {
        aliases := IndexAliases(parsed.value);
      }
    }

    static method IndexAliases(rels: seq<TemplateRel>) returns (aliases: map<string, seq<string>>)
      ensures forall s :: At(aliases, s) == AliasesOf(rels, s)
    {
      hide At, AliasesOf;
      aliases := map[];
      NoAliases();
      for n := 0 to |rels|
        invariant forall s :: At(aliases, s) == AliasesOf(rels[..n], s)
      {
        var r := rels[n];
        AliasesGrow(rels[..n], r, aliases);
        assert rels[..n + 1] == rels[..n] + [r];
        if r.predicateName == SLUG_PREDECESSOR {
          aliases := aliases[r.target := At(aliases, r.target) + [r.subject]];
        } else if r.predicateName == SLUG_SUCCESSOR {
          aliases := aliases[r.subject := At(aliases, r.subject) + [r.target]];
        }
      }
      assert rels[..|rels|] == rels;
    }

    method Resolve(slug: string) returns (matching: seq<string>, alias: string)
      requires Grounded()
      ensures matching == Resolved(Ctx(), slug) && alias == AliasUsed(Ctx(), slug)
      ensures forall a | a in matching :: a in rows
    {
      if slug in bySlug {
        return bySlug[slug], "";
      }
      if slug !in aliases {
        return [], "";
      }
      alias, matching := slug, [];
      var slugs := aliases[slug];
      for n := 0 to |slugs|
        invariant matching == Gather(Ctx(), slugs[..n]) && forall a | a in matching :: a in rows
      {
        assert slugs[..n + 1][..n] == slugs[..n];
        if slugs[n] in bySlug {
          matching := matching + bySlug[slugs[n]];
        }
      }
      assert slugs[..|slugs|] == slugs;
    }

    /** The alias node and its edges; the rows stay pending until the caller links them. */
    method RenderLegacyAlias(alias: string, matching: seq<string>)
      requires Valid() && forall a | a in matching :: a in rows
      modifies this`bench
      ensures Grounded() && Grows(old(bench), bench)
      ensures Agrees(bench, SetOf(matching))
      ensures bench.edges == old(bench.edges) + AliasEdges(alias, matching) && bench.findings == old(bench.findings)
      ensures bench.ids == old(bench.ids) + (if alias == "" then {} else {AliasId(alias)})
      ensures bench.evidenceCount == old(bench.evidenceCount)
    {
      hide Agrees;
      PendingMayGrow(bench, {}, SetOf(matching));
      if alias == "" {
        return;
      }
      NodeKeepsAgreement(bench, AliasId(alias), SetOf(matching));
      bench := WithNode(bench, AliasId(alias));
      ghost var start := bench;
      for n := 0 to |matching|
        invariant Grounded() && Agrees(bench, SetOf(matching)) && Grows(start, bench)
        invariant bench == start.(edges := bench.edges)
        invariant bench.edges == start.edges +
                                 LinkEdges(matching[..n], AliasId(alias), LegacyAlias, false, "maps to current row")
      {
        var e := BenchEdge(AliasId(alias), RowId(matching[n]), LegacyAlias, "maps to current row", false);
        assert matching[n] in matching;
        EdgeKeepsAgreement(bench, e, SetOf(matching));
        assert SetOf(matching) + RowsAt(e) == SetOf(matching);
        bench := WithEdge(bench, e);
      }
      assert matching[..|matching|] == matching;
    }

    /** One link, its entries in the sets, and the count of bindings. */
    method LinkRow(a: string, id: NodeId, cls: EdgeClass, isFromRow: bool, caption: string, ghost pending: set<string>)
      requires Grounded() && Agrees(bench, pending) && id in bench.ids && !id.RowId? && cls != Predicate && a in rows
      requires cls == ColumnBinding ==> !isFromRow
      modifies this`bench
      ensures Grounded() && Agrees(bench, pending - {a}) && Grows(old(bench), bench)
      ensures bench.edges == old(bench.edges) + [LinkEdge(a, id, cls, isFromRow, caption)]
      ensures bench.findings == old(bench.findings) && bench.ids == old(bench.ids)
      ensures bench.evidenceCount == old(bench.evidenceCount)
    {
      hide Agrees, Supported, Touched;
      var e := LinkEdge(a, id, cls, isFromRow, caption);
      EdgeKeepsAgreement(bench, e, pending);
      LastIsSupported(bench.edges, e);
      bench := WithEdge(bench, e);
      if cls == LookupKey || cls == ColumnBinding {
        bench := bench.(bindingCount := bench.bindingCount + 1);
      }
      assert RowsAt(e) == {a};
      EnteringKeepsAgreement(bench, {a}, pending + {a});
      bench := bench.(connected := bench.connected + {a}, support := bench.support + {a});
      assert pending + {a} - {a} == pending - {a};
    }

    /** Links each row with a declared node and enters it in the sets. */
    method LinkRows(matching: seq<string>, id: NodeId, cls: EdgeClass, isFromRow: bool, caption: string)
      requires Grounded() && Agrees(bench, SetOf(matching)) && id in bench.ids && !id.RowId? && cls != Predicate
      requires cls == ColumnBinding ==> !isFromRow
      requires forall a | a in matching :: a in rows
      modifies this`bench
      ensures Valid() && Grows(old(bench), bench)
      ensures bench.edges == old(bench.edges) + LinkEdges(matching, id, cls, isFromRow, caption)
      ensures bench.findings == old(bench.findings) && bench.ids == old(bench.ids)
      ensures bench.evidenceCount == old(bench.evidenceCount)
    {
      hide Agrees, LinkEdge;
      ghost var pending := SetOf(matching);
      for n := 0 to |matching|
        invariant Grounded() && pending <= SetOf(matching) && Agrees(bench, pending) && Grows(old(bench), bench)
        invariant forall a | a in pending :: a in matching[n..]
        invariant bench.edges == old(bench.edges) + LinkEdges(matching[..n], id, cls, isFromRow, caption)
        invariant bench.findings == old(bench.findings) && bench.ids == old(bench.ids)
        invariant bench.evidenceCount == old(bench.evidenceCount)
      {
        var a := matching[n];
        assert a in matching && matching[n..] == [a] + matching[n + 1..];
        LinkRow(a, id, cls, isFromRow, caption, pending);
        LinkEdgesSnoc(matching, n, id, cls, isFromRow, caption);
        pending := pending - {a};
      }
      assert matching[..|matching|] == matching && matching[|matching|..] == [];
      assert pending == {};
    }

    /** The alias used, then the links: what every accepted declaration does with its rows. */
    method LinkSlug(slug: string, matching: seq<string>, alias: string, id: NodeId, cls: EdgeClass, isFromRow: bool,
                    caption: string)
      requires Valid() && id in bench.ids && !id.RowId? && cls != Predicate && (cls == ColumnBinding ==> !isFromRow)
      requires matching == Resolved(Ctx(), slug) && alias == AliasUsed(Ctx(), slug)
      requires forall a | a in matching :: a in rows
      modifies this`bench
      ensures Valid() && Grows(old(bench), bench)
      ensures bench.edges == old(bench.edges) + Links(Ctx(), slug, id, cls, isFromRow, caption)
      ensures bench.findings == old(bench.findings)
      ensures forall i | i in bench.ids :: i in old(bench.ids) || i.AliasId?
      ensures bench.evidenceCount == old(bench.evidenceCount)
    {
      hide Agrees, Resolved, AliasUsed;
      RenderLegacyAlias(alias, matching);
      LinkRows(matching, id, cls, isFromRow, caption);
      assert old(bench.edges) + AliasEdges(alias, matching) + LinkEdges(matching, id, cls, isFromRow, caption) ==
             old(bench.edges) + (AliasEdges(alias, matching) + LinkEdges(matching, id, cls, isFromRow, caption));
    }

    method AddNode(id: NodeId)
      requires Valid() && !id.DatasetId? && !id.EvidenceId?
      modifies this`bench
      ensures Valid() && Grows(old(bench), bench) && bench.ids == old(bench.ids) + {id}
      ensures bench == old(bench).(nodes := bench.nodes, ids := bench.ids)
    {
      hide Agrees;
      NodeKeepsAgreement(bench, id, {});
      bench := WithNode(bench, id);
    }

    method AddFinding(code: Code, node: Option<NodeId>)
      requires Valid() && code != OrphanRow && code != SelfOnly
      modifies this`bench
      ensures Valid() && Grows(old(bench), bench)
      ensures bench == old(bench).(findings := old(bench.findings) + [Finding(code, node)])
    {
      hide Agrees;
      FindingKeepsAgreement(bench, code, node, {});
      bench := WithFinding(bench, code, node);
    }

    method AddTerminal(o: Option<Terminal>)
      requires Valid()
      modifies this`bench
      ensures Valid() && Grows(old(bench), bench)
      ensures bench.edges == old(bench.edges) + OneTerminalEdges(Ctx(), o)
      ensures bench.findings == old(bench.findings) + OneTerminalFindings(Ctx(), o)
      ensures forall i | i in bench.ids :: i in old(bench.ids) || i.AliasId? || i.TerminalId?
      ensures bench.evidenceCount == old(bench.evidenceCount)
    {
      hide Agrees, Links, Resolved, AliasUsed;
      if o == None {
        AddFinding(TerminalRowInvalid, None);
        return;
      }
      var t := o.value;
      var matching, alias := Resolve(t.slug);
      if t.slug == "" || t.stakeholder == "" || t.reason == "" || matching == [] {
        AddFinding(TerminalRowUnknown, None);
        return;
      }
      AddNode(TerminalId(t.slug));
      LinkSlug(t.slug, matching, alias, TerminalId(t.slug), DeclaredTerminal, true, "terminal outcome");
    }

    method AddTerminals(items: seq<Option<Terminal>>)
      requires Valid()
      modifies this`bench
      ensures Valid() && Grows(old(bench), bench)
      ensures bench.edges == old(bench.edges) + TerminalEdges(Ctx(), items)
      ensures bench.findings == old(bench.findings) + TerminalFindings(Ctx(), items)
      ensures forall i | i in bench.ids :: i in old(bench.ids) || i.AliasId? || i.TerminalId?
      ensures bench.evidenceCount == old(bench.evidenceCount)
    {
      hide Agrees, OneTerminalEdges, OneTerminalFindings, Grounded;
      for n := 0 to |items|
        invariant Valid() && Grows(old(bench), bench)
        invariant bench.edges == old(bench.edges) + TerminalEdges(Ctx(), items[..n])
        invariant bench.findings == old(bench.findings) + TerminalFindings(Ctx(), items[..n])
        invariant forall i | i in bench.ids :: i in old(bench.ids) || i.AliasId? || i.TerminalId?
        invariant bench.evidenceCount == old(bench.evidenceCount)
      {
        assert items[..n + 1][..n] == items[..n];
        AddTerminal(items[n]);
      }
      assert items[..|items|] == items;
    }

    /** A mutation or evidence source; its number is new for evidence, which is counted. */
    method AddSource(o: Option<Source>, isMutation: bool, index: nat) returns (accepted: bool)
      requires Valid() && (isMutation || EvidenceId(index) !in bench.ids)
      modifies this`bench
      ensures Valid() && Grows(old(bench), bench) && accepted == IsSource(Ctx(), o)
      ensures bench.edges == old(bench.edges) + OneSourceEdges(Ctx(), o, isMutation, index)
      ensures bench.findings == old(bench.findings) + OneSourceFindings(Ctx(), o, isMutation)
      ensures forall i | i in bench.ids :: i in old(bench.ids) || i.AliasId? || (accepted && i == SourceId(isMutation, index))
      ensures bench.evidenceCount == old(bench.evidenceCount) + if accepted && !isMutation then 1 else 0
    {
      hide Agrees, Links, Resolved, AliasUsed;
      if o == None {
        return false;
      }
      var m := o.value;
      var matching, alias := Resolve(m.slug);
      if m.slug == "" || matching == [] {
        AddFinding(if isMutation then MutationTargetMissing else EvidenceTargetMissing, None);
        return false;
      }
      if isMutation {
        AddNode(MutationId(index));
        LinkSlug(m.slug, matching, alias, MutationId(index), DirectWrite, false, m.field);
      } else {
        CountedNodeKeepsAgreement(bench, EvidenceId(index));
        bench := WithNode(bench, EvidenceId(index)).(evidenceCount := bench.evidenceCount + 1);
        LinkSlug(m.slug, matching, alias, EvidenceId(index), EvidenceCapture, false, m.field);
      }
      return true;
    }

    method AddSources(items: seq<Option<Source>>, isMutation: bool)
      requires Valid() && (isMutation || forall i | i in bench.ids :: !i.EvidenceId?)
      modifies this`bench
      ensures Valid() && Grows(old(bench), bench)
      ensures bench.edges == old(bench.edges) + SourceEdges(Ctx(), items, isMutation)
      ensures bench.findings == old(bench.findings) + SourceFindings(Ctx(), items, isMutation)
      ensures bench.evidenceCount == old(bench.evidenceCount) + if isMutation then 0 else CountSources(Ctx(), items)
      ensures forall i | i in bench.ids ::
                i in old(bench.ids) || i.AliasId? || (if isMutation then i.MutationId? else i.EvidenceId?)
    {
      hide Agrees, OneSourceEdges, OneSourceFindings, IsSource, Grounded;
      var index := 0;
      for n := 0 to |items|
        invariant Valid() && Grows(old(bench), bench) && index == CountSources(Ctx(), items[..n])
        invariant isMutation || forall i | i in bench.ids && i.EvidenceId? :: i.number < index
        invariant bench.edges == old(bench.edges) + SourceEdges(Ctx(), items[..n], isMutation)
        invariant bench.findings == old(bench.findings) + SourceFindings(Ctx(), items[..n], isMutation)
        invariant bench.evidenceCount == old(bench.evidenceCount) + if isMutation then 0 else index
        invariant forall i | i in bench.ids ::
                    i in old(bench.ids) || i.AliasId? || (if isMutation then i.MutationId? else i.EvidenceId?)
      {
        assert items[..n + 1][..n] == items[..n];
        var accepted := AddSource(items[n], isMutation, index);
        if accepted {
          index := index + 1;
        }
      }
      assert items[..|items|] == items;
    }

    method AddLookup(k: nat, lookup: Option<LookupSpec>) returns (isResolved: bool)
      requires Valid() && DatasetId(k) in bench.ids
      modifies this`bench
      ensures Valid() && Grows(old(bench), bench)
      ensures bench.edges == old(bench.edges) + LookupEdges(Ctx(), k, lookup)
      ensures isResolved == (lookup.Some? && IsLookup(Ctx(), lookup.value))
      ensures bench.findings == old(bench.findings) +
              if lookup.Some? && !isResolved then [Finding(LookupKeyInvalid, Some(DatasetId(k)))] else []
      ensures forall i | i in bench.ids :: i in old(bench.ids) || i.AliasId?
      ensures bench.evidenceCount == old(bench.evidenceCount)
    {
      hide Agrees, Links, Resolved, AliasUsed;
      if lookup == None {
        return false;
      }
      var l := lookup.value;
      var matching, alias := Resolve(l.slug);
      if l.slug == "" || l.field == "" || l.column == "" || matching == [] {
        AddFinding(LookupKeyInvalid, Some(DatasetId(k)));
        return false;
      }
      LinkSlug(l.slug, matching, alias, DatasetId(k), LookupKey, true, l.field + " selects " + l.column);
      return true;
    }

    /** An edge between two declared nodes that are no rows. */
    method AddPlainEdge(e: BenchEdge)
      requires Valid() && e.source in bench.ids && e.target in bench.ids && !e.source.RowId? && !e.target.RowId?
      requires e.cls == ContainsColumn || e.cls == ColumnBinding
      modifies this`bench
      ensures Valid() && Grows(old(bench), bench) && bench == WithEdge(old(bench), e)
    {
      hide Agrees;
      EdgeKeepsAgreement(bench, e, {});
      assert {} + RowsAt(e) == {};
      bench := WithEdge(bench, e);
    }

    static method CollectCells(table: Csv.Table, j: nat) returns (cells: seq<string>)
      ensures cells == ColumnCells(table, j)
    {
      cells := [];
      if table == [] {
        return;
      }
      for n := 1 to |table|
        invariant cells == ColumnCells(table[..n], j)
      {
        assert table[..n + 1][..n] == table[..n];
        var value := if j < |table[n]| then table[n][j] else "";
        if value != "" {
          cells := cells + [value];
        }
      }
      assert table[..|table|] == table;
    }

    method AddBinding(id: NodeId, binding: Option<(string, string)>) returns (isBound: bool)
      requires Valid() && id in bench.ids && id.ColumnId?
      modifies this`bench
      ensures Valid() && Grows(old(bench), bench) && isBound == IsBound(Ctx(), binding)
      ensures bench.edges == old(bench.edges) + BindingEdges(Ctx(), id, binding)
      ensures bench.findings == old(bench.findings) + BindingFindings(Ctx(), id, binding)
      ensures forall i | i in bench.ids :: i in old(bench.ids) || i.AliasId? || i.UnresolvedId?
      ensures bench.evidenceCount == old(bench.evidenceCount)
    {
      hide Agrees, Links, Resolved, AliasUsed;
      if binding == None {
        return false;
      }
      var (slug, field) := binding.value;
      var matching, alias := Resolve(slug);
      if matching == [] {
        AddNode(UnresolvedId(slug, field));
        AddPlainEdge(BenchEdge(id, UnresolvedId(slug, field), ColumnBinding, field, false));
        AddFinding(ColumnBindingTargetMissing, Some(id));
        return false;
      }
      LinkSlug(slug, matching, alias, id, ColumnBinding, false, field);
      return true;
    }

    method AddValueFindings(table: Csv.Table, j: nat, id: NodeId)
      requires Valid()
      modifies this`bench
      ensures Valid() && Grows(old(bench), bench)
      ensures bench == old(bench).(findings := old(bench.findings) + ValueFindings(table, j, id))
    {
      hide Agrees, ColumnCells;
      var cells := CollectCells(table, j);
      var records, distinct := |table| - 1, set a | a in cells;
      assert distinct == SetOf(cells);
      if records > 0 && |cells| == records && |distinct| == 1 {
        AddFinding(ConstantColumn, Some(id));
      }
      if |cells| > 1 && |cells| < records && |distinct| == 1 {
        AddFinding(RepeatedLiteral, Some(id));
      }
    }

    method AddColumn(k: nat, j: nat, table: Csv.Table, isHeaderDerived: bool) returns (isBound: bool)
      requires Valid() && DatasetId(k) in bench.ids && table != [] && j < |table[0]|
      modifies this`bench
      ensures Valid() && Grows(old(bench), bench)
      ensures isBound == (isHeaderDerived && IsBound(Ctx(), HeaderBinding(table[0][j])))
      ensures bench.edges == old(bench.edges) + ColumnEdges(Ctx(), k, j, table[0][j], isHeaderDerived)
      ensures bench.findings == old(bench.findings) + ColumnFindings(Ctx(), k, j, table, isHeaderDerived)
      ensures forall i | i in bench.ids :: i in old(bench.ids) || i.AliasId? || i.UnresolvedId? || i.ColumnId?
      ensures bench.evidenceCount == old(bench.evidenceCount)
    {
      hide Agrees, HeaderBinding, BindingEdges, BindingFindings, IsBound, ValueFindings, Grounded;
      var id := ColumnId(k, j);
      AddNode(id);
      AddPlainEdge(BenchEdge(DatasetId(k), id, ContainsColumn, "column", false));
      AddValueFindings(table, j, id);
      isBound := AddBinding(id, if isHeaderDerived then HeaderBinding(table[0][j]) else None);
      NothingBound(Ctx());
    }

    method AddColumns(k: nat, table: Csv.Table, isHeaderDerived: bool) returns (bound: nat)
      requires Valid() && DatasetId(k) in bench.ids && table != []
      modifies this`bench
      ensures Valid() && Grows(old(bench), bench) && bound == CountBound(Ctx(), table[0], isHeaderDerived)
      ensures bench.edges == old(bench.edges) + ColumnsEdges(Ctx(), k, table[0], isHeaderDerived)
      ensures bench.findings == old(bench.findings) + ColumnsFindings(Ctx(), k, |table[0]|, table, isHeaderDerived)
      ensures forall i | i in bench.ids :: i in old(bench.ids) || i.AliasId? || i.UnresolvedId? || i.ColumnId?
      ensures bench.evidenceCount == old(bench.evidenceCount)
    {
      hide Agrees, ColumnEdges, HeaderBinding, IsBound, ColumnFindings, Grounded;
      bound := 0;
      var headers := table[0];
      for j := 0 to |headers|
        invariant Valid() && Grows(old(bench), bench) && bound == CountBound(Ctx(), headers[..j], isHeaderDerived)
        invariant bench.edges == old(bench.edges) + ColumnsEdges(Ctx(), k, headers[..j], isHeaderDerived)
        invariant bench.findings == old(bench.findings) + ColumnsFindings(Ctx(), k, j, table, isHeaderDerived)
        invariant forall i | i in bench.ids :: i in old(bench.ids) || i.AliasId? || i.UnresolvedId? || i.ColumnId?
        invariant bench.evidenceCount == old(bench.evidenceCount)
      {
        assert headers[..j + 1][..j] == headers[..j];
        var isBound := AddColumn(k, j, table, isHeaderDerived);
        if isBound {
          bound := bound + 1;
        }
      }
      assert headers[..|headers|] == headers;
    }

    method AddDataset(k: nat, o: Option<Dataset>, rowCount: nat)
      requires Valid() && DatasetId(k) !in bench.ids
      modifies this`bench
      ensures Valid() && Grows(old(bench), bench)
      ensures bench.edges == old(bench.edges) + OneDatasetEdges(Ctx(), k, o)
      ensures bench.findings == old(bench.findings) +
                                DatasetFindings(Ctx(), k, o, rowCount, |BoundRows(bench.edges, k)|)
      ensures forall i | i in bench.ids ::
                i in old(bench.ids) || i.AliasId? || i.UnresolvedId? || i.ColumnId? || i == DatasetId(k)
      ensures bench.evidenceCount == old(bench.evidenceCount)
    {
      hide Agrees, ReadableFindings, Grounded;
      if o == None {
        AddFinding(DatasetInvalid, None);
      } else if !o.value.isSafePath {
        AddFinding(DatasetPathInvalid, None);
      } else if o.value.table == None {
        AddFinding(DatasetMissing, None);
      } else if o.value.table.value == [] || o.value.table.value[0] == [] {
        AddFinding(DatasetEmpty, None);
      } else {
        AddReadable(k, o.value, rowCount);
      }
    }

    method AddTable(k: nat, d: Dataset) returns (isResolved: bool, bound: nat)
      requires Valid() && DatasetId(k) !in bench.ids && IsReadable(d)
      modifies this`bench
      ensures Valid() && Grows(old(bench), bench)
      ensures isResolved == IsResolved(Ctx(), d) && bound == CountBound(Ctx(), d.table.value[0], d.isHeaderDerived)
      ensures bench.edges == old(bench.edges) + OneDatasetEdges(Ctx(), k, Some(d))
      ensures bench.findings == old(bench.findings) + TableFindings(Ctx(), k, d)
      ensures forall i | i in bench.ids ::
                i in old(bench.ids) || i.AliasId? || i.UnresolvedId? || i.ColumnId? || i == DatasetId(k)
      ensures bench.evidenceCount == old(bench.evidenceCount)
    {
      hide Agrees, LookupEdges, ColumnsEdges, ColumnsFindings, IsLookup, CountBound, Grounded;
      AddDatasetNode(k);
      isResolved := AddLookup(k, d.lookup);
      bound := AddColumns(k, d.table.value, d.isHeaderDerived);
    }

    method AddReadable(k: nat, d: Dataset, rowCount: nat)
      requires Valid() && DatasetId(k) !in bench.ids && IsReadable(d)
      modifies this`bench
      ensures Valid() && Grows(old(bench), bench)
      ensures bench.edges == old(bench.edges) + OneDatasetEdges(Ctx(), k, Some(d))
      ensures bench.findings == old(bench.findings) + ReadableFindings(Ctx(), k, d, rowCount, |BoundRows(bench.edges, k)|)
      ensures forall i | i in bench.ids ::
                i in old(bench.ids) || i.AliasId? || i.UnresolvedId? || i.ColumnId? || i == DatasetId(k)
      ensures bench.evidenceCount == old(bench.evidenceCount)
    {
      hide Agrees, OneDatasetEdges, TableFindings, IsResolved, CountBound, Grounded;
      var isResolved, bound := AddTable(k, d);
      var boundRows := set e | e in bench.edges && e.cls == ColumnBinding && e.source.ColumnId? && e.source.number == k &&
                               e.target.RowId? :: e.target.address;
      assert boundRows == BoundRows(bench.edges, k);
      if isResolved && bound >= 3 && rowCount > 0 && 4 * |boundRows| >= rowCount {
        AddFinding(HighFanOut, Some(DatasetId(k)));
      }
    }

    method AddDatasetNode(k: nat)
      requires Valid() && DatasetId(k) !in bench.ids
      modifies this`bench
      ensures Valid() && Grows(old(bench), bench) && bench.ids == old(bench.ids) + {DatasetId(k)}
      ensures bench == old(bench).(nodes := bench.nodes, ids := bench.ids, datasetCount := bench.datasetCount)
    {
      hide Agrees;
      CountedNodeKeepsAgreement(bench, DatasetId(k));
      bench := WithNode(bench, DatasetId(k)).(datasetCount := bench.datasetCount + 1);
    }

    method AddDatasets(items: seq<Option<Dataset>>, rowCount: nat)
      requires Valid() && forall i | i in bench.ids :: !i.DatasetId?
      modifies this`bench
      ensures Valid() && Grows(old(bench), bench)
      ensures bench.edges == old(bench.edges) + DatasetEdges(Ctx(), items)
      ensures bench.evidenceCount == old(bench.evidenceCount)
    {
      hide Agrees, OneDatasetEdges, DatasetFindings, Grounded;
      for k := 0 to |items|
        invariant Valid() && Grows(old(bench), bench)
        invariant bench.edges == old(bench.edges) + DatasetEdges(Ctx(), items[..k])
        invariant forall i | i in bench.ids && i.DatasetId? :: i.number < k
        invariant bench.evidenceCount == old(bench.evidenceCount)
      {
        assert items[..k + 1][..k] == items[..k];
        AddDataset(k, items[k], rowCount);
      }
      assert items[..|items|] == items;
    }

    method AddTerminalPart(t: Items<Terminal>)
      requires Valid()
      modifies this`bench
      ensures Valid() && bench.edges == old(bench.edges) + TerminalPart(Ctx(), t)
      ensures forall i | i in bench.ids :: i in old(bench.ids) || i.AliasId? || i.TerminalId?
    {
      hide Agrees, Grounded, TerminalEdges;
      if t.NotAList? {
        AddFinding(TerminalRowsInvalid, None);
      } else {
        AddTerminals(t.items);
      }
    }

    method AddSourcePart(s: Items<Source>, isMutation: bool)
      requires Valid() && (isMutation || forall i | i in bench.ids :: !i.EvidenceId?)
      modifies this`bench
      ensures Valid() && bench.edges == old(bench.edges) + SourcePart(Ctx(), s, isMutation)
      ensures forall i | i in bench.ids ::
                i in old(bench.ids) || i.AliasId? || (if isMutation then i.MutationId? else i.EvidenceId?)
    {
      hide Agrees, Grounded, SourceEdges;
      if s.NotAList? {
        AddFinding(if isMutation then MutationSourcesInvalid else EvidenceSourcesInvalid, None);
      } else {
        AddSources(s.items, isMutation);
      }
    }

    method AddDatasetPart(d: Items<Dataset>, rowCount: nat)
      requires Valid() && forall i | i in bench.ids :: !i.DatasetId?
      modifies this`bench
      ensures Valid() && bench.edges == old(bench.edges) + DatasetPart(Ctx(), d)
    {
      hide Agrees, Grounded, DatasetEdges;
      if d.NotAList? {
        AddFinding(DatasetsInvalid, None);
      } else {
        AddDatasets(d.items, rowCount);
      }
    }

    method AddDeclarations(d: Declarations, rowCount: nat)
      requires Valid() && forall i | i in bench.ids :: !i.EvidenceId? && !i.DatasetId?
      modifies this`bench
      ensures Valid()
      ensures bench.edges == old(bench.edges) + DeclaredEdges(Ctx(), d)
    {
      hide Agrees, Grounded, TerminalPart, SourcePart, DatasetPart;
      if d.NoPackage? {
        AddFinding(PackageMissing, None);
        return;
      }
      if d.Malformed? {
        AddFinding(DeclarationsInvalid, None);
        return;
      }
      if !d.hasSchema {
        AddFinding(SchemaUnsupported, None);
      }
      AddTerminalPart(d.terminals);
      AddSourcePart(d.mutations, true);
      AddSourcePart(d.evidence, false);
      AddDatasetPart(d.datasets, rowCount);
      FourParts(old(bench.edges), TerminalPart(Ctx(), d.terminals), SourcePart(Ctx(), d.mutations, true),
                SourcePart(Ctx(), d.evidence, false), DatasetPart(Ctx(), d.datasets));
    }
  }

  lemma FourParts(start: seq<BenchEdge>, a: seq<BenchEdge>, b: seq<BenchEdge>, c: seq<BenchEdge>, d: seq<BenchEdge>)
    ensures start + a + b + c + d == start + (a + b + c + d)
  {
  }

  lemma NothingBound(c: Context)
    ensures !IsBound(c, None)
  {
  }

  lemma EmptyAgrees()
    ensures Agrees(EMPTY_BENCH, {})
  {
  }

  lemma LinkEdgesSnoc(matching: seq<string>, n: nat, id: NodeId, cls: EdgeClass, isFromRow: bool, caption: string)
    requires n < |matching|
    ensures LinkEdges(matching[..n + 1], id, cls, isFromRow, caption) ==
            LinkEdges(matching[..n], id, cls, isFromRow, caption) + [LinkEdge(matching[n], id, cls, isFromRow, caption)]
  {
  }

  lemma PendingMayGrow(b: Bench, small: set<string>, large: set<string>)
    requires Agrees(b, small) && small <= large
    ensures Agrees(b, large)
  {
    hide Touched, Supported, OtherTouched, SelfList, CountPredicates, CountBindings, NodesAgree;
  }

  lemma LastIsSupported(es: seq<BenchEdge>, e: BenchEdge)
    requires e.cls != Predicate
    ensures RowsAt(e) <= Supported(es + [e])
  {
    EdgeAdds(es, e);
  }
}
