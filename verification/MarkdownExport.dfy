/** The exporter: rows in order, each printed as a heading, five bullets, instructions and relationships. */
module MarkdownExport {
  import opened Text
  import opened Checklist

  // ----- edges: std::sort, then std::unique and erase ---------------------

  predicate StrictlySorted(es: seq<Edge>) {
    forall i, j | 0 <= i < j < |es| :: EdgeBefore(es[i], es[j])
  }

  function EdgeSet(es: seq<Edge>): set<Edge> {
    set e | e in es
  }

  function InsertEdge(e: Edge, es: seq<Edge>): seq<Edge> {
    if es == [] || EdgeBefore(e, es[0]) then [e] + es
    else if e == es[0] then es
    else [es[0]] + InsertEdge(e, es[1..])
  }

  function SortUnique(es: seq<Edge>): seq<Edge> {
    if es == [] then [] else InsertEdge(es[0], SortUnique(es[1..]))
  }

  lemma PrependSmallest(e: Edge, es: seq<Edge>)
    requires StrictlySorted(es)
    requires es == [] || EdgeBefore(e, es[0])
    ensures StrictlySorted([e] + es)
  {
    forall j | 0 <= j < |es| ensures EdgeBefore(e, es[j]) {
      EdgeBeforeIsTotal(e, es[0], es[j]);
    }
  }

  lemma {:induction false} InsertEdgeIsSorted(e: Edge, es: seq<Edge>)
    requires StrictlySorted(es)
    ensures StrictlySorted(InsertEdge(e, es))
    ensures EdgeSet(InsertEdge(e, es)) == {e} + EdgeSet(es)
    ensures InsertEdge(e, es)[0] == e || (es != [] && InsertEdge(e, es)[0] == es[0])
  {
    if es == [] || EdgeBefore(e, es[0]) {
      PrependSmallest(e, es);
    } else if e != es[0] {
      var rest := es[1..];
      assert es == [es[0]] + rest;
      InsertEdgeIsSorted(e, rest);
      EdgeBeforeIsTotal(e, es[0], e);
      PrependSmallest(es[0], InsertEdge(e, rest));
      EdgeSetCons(es[0], InsertEdge(e, rest));
      EdgeSetCons(es[0], rest);
    }
  }

  lemma EdgeSetCons(e: Edge, es: seq<Edge>)
    ensures EdgeSet([e] + es) == {e} + EdgeSet(es)
  {
  }

  lemma EdgeSetEmpty(es: seq<Edge>)
    ensures EdgeSet(es) == {} <==> es == []
  {
    if es != [] {
      assert es[0] in EdgeSet(es);
    }
  }

  /** Exactly the edges given, each once, in increasing order. */
  lemma {:induction false} SortUniqueIsSorted(es: seq<Edge>)
    ensures StrictlySorted(SortUnique(es))
    ensures EdgeSet(SortUnique(es)) == EdgeSet(es)
  {
    if es != [] {
      SortUniqueIsSorted(es[1..]);
      InsertEdgeIsSorted(es[0], SortUnique(es[1..]));
      assert es == [es[0]] + es[1..];
    }
  }

  /** A strictly sorted list is determined by its elements. */
  lemma {:induction false} StrictlySortedIsUnique(a: seq<Edge>, b: seq<Edge>)
    requires StrictlySorted(a) && StrictlySorted(b) && EdgeSet(a) == EdgeSet(b)
    ensures a == b
  {
    hide EdgeBefore;
    if a == [] || b == [] {
      EdgeSetEmpty(a);
      EdgeSetEmpty(b);
    } else {
      assert a[0] in EdgeSet(b) && b[0] in EdgeSet(a);
      var i :| 0 <= i < |a| && a[i] == b[0];
      var j :| 0 <= j < |b| && b[j] == a[0];
      EdgeBeforeIsTotal(a[0], b[0], a[0]);
      assert a[0] == b[0];
      var ra, rb := a[1..], b[1..];
      forall x | x in EdgeSet(ra) ensures x in EdgeSet(rb) {
        var k :| 0 <= k < |ra| && ra[k] == x;
        assert EdgeBefore(a[0], a[k + 1]);
        EdgeBeforeIsTotal(x, x, x);
        assert x in EdgeSet(a);
      }
      forall x | x in EdgeSet(rb) ensures x in EdgeSet(ra) {
        var k :| 0 <= k < |rb| && rb[k] == x;
        assert EdgeBefore(b[0], b[k + 1]);
        EdgeBeforeIsTotal(x, x, x);
        assert x in EdgeSet(b);
      }
      StrictlySortedIsUnique(ra, rb);
      assert a == [a[0]] + ra && b == [b[0]] + rb;
    }
  }

  // ----- lines -----------------------------------------------------------

  /** A row as printed: its fields, its instruction lines, the identity line and the edges below it. */
  datatype DocRow = DocRow(slug: Slug, lines: seq<string>, source: string, edges: seq<Edge>)

  function StatusText(s: Status): string {
    if s == Unknown then "" else StatusToString(s)
  }

  function EdgeText(e: Edge): string {
    e.predicateName + " " + e.target
  }

  function EdgeLines(es: seq<Edge>): seq<string> {
    seq(|es|, i requires 0 <= i < |es| => "- " + EdgeText(es[i]))
  }

  function HeadLines(s: Slug): seq<string> {
    [ "### Procedure: " + s.procedure,
      "- Action: " + s.action,
      "- Spec: " + s.spec,
      "- Result: " + s.result,
      "- Status: " + StatusText(s.status),
      "- Comment: " + s.comment,
      "",
      "#### Instructions" ]
  }

  function RowLines(r: DocRow): seq<string> {
    HeadLines(r.slug) + (r.lines + ["", "#### Relationships", "- " + r.source]) + (EdgeLines(r.edges) + ["", ""])
  }

  function SectionLines(section: string, current: string): seq<string> {
    if section != current then ["## Section: " + section, ""] else []
  }

  /** A row with the section heading before it and, between rows, the rule after it. */
  function RowBlock(r: DocRow, current: string, more: bool): seq<string> {
    SectionLines(r.slug.section, current) + RowLines(r) + if more then ["---", ""] else []
  }

  function BodyLines(rows: seq<DocRow>, current: string): seq<string> {
    if rows == [] then []
    else RowBlock(rows[0], current, |rows| > 1) + BodyLines(rows[1..], rows[0].slug.section)
  }

  function DocLines(name: string, rows: seq<DocRow>): seq<string> {
    ["# Checklist: " + name, ""] + BodyLines(rows, "")
  }

  // ----- what is printed for a stored row ---------------------------------

  datatype Mode = TemplateMode | AddressMode

  function EdgesOf(rels: seq<TemplateRel>, slugId: string): seq<Edge> {
    if rels == [] then []
    else
      (if rels[0].subject == slugId then [Edge(rels[0].predicateName, rels[0].target)] else []) +
      EdgesOf(rels[1..], slugId)
  }

  function ToDocRow(mode: Mode, rels: seq<TemplateRel>, s: Slug): DocRow {
    var lines := SplitOn(s.instructions, '\n');
    match mode
    case TemplateMode => DocRow(s, lines, s.slugId, SortUnique(EdgesOf(rels, s.slugId)))
    case AddressMode =>
      DocRow(s, lines, if s.addressId != "" then s.addressId else s.slugId, SortUnique(s.relationships))
  }

  function ToDocRows(mode: Mode, rels: seq<TemplateRel>, slugs: seq<Slug>): (rows: seq<DocRow>)
    ensures |rows| == |slugs|
  {
    seq(|slugs|, i requires 0 <= i < |slugs| => ToDocRow(mode, rels, slugs[i]))
  }

  /** Any list `std::sort` may leave behind: a permutation in which no element precedes an earlier one. */
  ghost predicate IsSortOf(ordered: seq<Slug>, slugs: seq<Slug>) {
    multiset(ordered) == multiset(slugs) && InOrder(ordered)
  }

  function ExportText(mode: Mode, name: string, ordered: seq<Slug>, rels: seq<TemplateRel>): string {
    Unlines(DocLines(name, ToDocRows(mode, rels, ordered)))
  }

  // ----- the exporter's loops ---------------------------------------------

  method SortSlugs(slugs: seq<Slug>) returns (ordered: seq<Slug>)
    ensures IsSortOf(ordered, slugs)
  {
    ordered := [];
    for n := 0 to |slugs|
      invariant IsSortOf(ordered, slugs[..n])
    {
      ordered := InsertSlug(ordered, slugs[n]);
      assert slugs[..n + 1] == slugs[..n] + [slugs[n]];
    }
    assert slugs[..|slugs|] == slugs;
  }

  ghost predicate InOrder(s: seq<Slug>) {
    forall i, j | 0 <= i < j < |s| :: !Before(s[j], s[i])
  }

  method InsertSlug(sorted: seq<Slug>, x: Slug) returns (r: seq<Slug>)
    requires InOrder(sorted)
    ensures InOrder(r) && multiset(r) == multiset(sorted) + multiset{x}
  {
    hide Before, InOrder;
    var k := |sorted|;
    while k > 0 && Before(x, sorted[k - 1])
      invariant 0 <= k <= |sorted|
      invariant forall j | k <= j < |sorted| :: Before(x, sorted[j])
    {
      k := k - 1;
    }
    SortedAfterInsert(sorted, k, x);
    assert sorted == sorted[..k] + sorted[k..];
    r := sorted[..k] + [x] + sorted[k..];
  }

  lemma SortedAfterInsert(was: seq<Slug>, k: nat, x: Slug)
    requires k <= |was|
    requires InOrder(was)
    requires forall j | k <= j < |was| :: Before(x, was[j])
    requires k > 0 ==> !Before(x, was[k - 1])
    ensures InOrder(was[..k] + [x] + was[k..])
  {
    hide Before;
    var r := was[..k] + [x] + was[k..];
    forall i, j | 0 <= i < j < |r| ensures !Before(r[j], r[i]) {
      if i == k {
        BeforeIsStrictWeakOrder(x, was[j - 1], x);
      } else if j == k {
        if i < k - 1 {
          BeforeIsStrictWeakOrder(x, was[k - 1], was[i]);
        }
      }
    }
  }

  method ExportChecklistMarkdown(name: string, slugs: seq<Slug>, rels: seq<TemplateRel>, mode: Mode)
    returns (text: Option<string>)
    ensures text == None <==> slugs == []
    ensures slugs != [] ==> exists ordered ::
      IsSortOf(ordered, slugs) && text == Some(ExportText(mode, name, ordered, rels))
  {
    if slugs == [] {
      return None;
    }
    var ordered := SortSlugs(slugs);
    var out := WriteRows(name, ordered, rels, mode);
    text := Some(out);
  }

  lemma {:induction false} UnlinesConcat(a: seq<string>, b: seq<string>)
    ensures Unlines(a + b) == Unlines(a) + Unlines(b)
  {
    if a == [] {
      assert a + b == b;
    } else {
      UnlinesConcat(a[1..], b);
      assert (a + b)[1..] == a[1..] + b;
    }
  }

  /** The text still to be written once rows `n..` are left. */
  lemma BodyLinesStep(rows: seq<DocRow>, n: nat, current: string, out: string)
    requires n < |rows|
    ensures out + Unlines(BodyLines(rows[n..], current)) ==
            (out + Unlines(RowBlock(rows[n], current, n + 1 < |rows|)))
            + Unlines(BodyLines(rows[n + 1..], rows[n].slug.section))
  {
    assert rows[n..][1..] == rows[n + 1..];
    UnlinesConcat(RowBlock(rows[n], current, n + 1 < |rows|), BodyLines(rows[n + 1..], rows[n].slug.section));
  }

  method WriteRows(name: string, ordered: seq<Slug>, rels: seq<TemplateRel>, mode: Mode) returns (out: string)
    ensures out == ExportText(mode, name, ordered, rels)
  {
    hide BodyLines, ToDocRows;
    ghost var rows := ToDocRows(mode, rels, ordered);
    var title := EmitAll("", ["# Checklist: " + name, ""]);
    UnlinesConcat(["# Checklist: " + name, ""], BodyLines(rows, ""));
    out := WriteBody(title, ordered, rels, mode);
  }

  method WriteBody(title: string, ordered: seq<Slug>, rels: seq<TemplateRel>, mode: Mode) returns (out: string)
    ensures out == title + Unlines(BodyLines(ToDocRows(mode, rels, ordered), ""))
  {
    ghost var rows := ToDocRows(mode, rels, ordered);
    ghost var whole := title + Unlines(BodyLines(rows, ""));
    out := title;
    var current := "";
    assert rows[0..] == rows;
    for n := 0 to |ordered|
      invariant out + Unlines(BodyLines(rows[n..], current)) == whole
    {
      BodyLinesStep(rows, n, current, out);
      out := EmitAll(out, RowBlock(ToDocRow(mode, rels, ordered[n]), current, n + 1 < |ordered|));
      current := ordered[n].section;
    }
    assert rows[|ordered|..] == [];
  }

  /** Writing lines one after the other to the output stream. */
  method EmitAll(out: string, lines: seq<string>) returns (text: string)
    ensures text == out + Unlines(lines)
  {
    text := out;
    assert lines[0..] == lines;
    for n := 0 to |lines|
      invariant text + Unlines(lines[n..]) == out + Unlines(lines)
    {
      assert lines[n..][1..] == lines[n + 1..];
      assert text + (lines[n] + "\n" + Unlines(lines[n + 1..])) == (text + lines[n] + "\n") + Unlines(lines[n + 1..]);
      text := text + lines[n] + "\n";
    }
  }
}
