/** The laws of export and import: round trip, its exact condition, and re-import after an edit. */
module MarkdownRoundTrip {
  import opened Text
  import opened Checklist
  import opened MarkdownParser
  import opened MarkdownLinks
  import opened MarkdownExport
  import opened MarkdownSteps
  import opened MarkdownRow
  import opened MarkdownDocument
  import opened MarkdownOutput
  import opened MarkdownText

  // ----- edges read back ---------------------------------------------------

  /** An edge of a template: a predicate token and a row identifier. */
  predicate IsTemplateEdge(e: Edge) {
    IsPredicateToken(e.predicateName) && IsBase32Id(e.target, 16)
  }

  /** An edge of an instance: a predicate token and a 32-digit address. */
  predicate IsAddressEdge(e: Edge) {
    IsPredicateToken(e.predicateName) && IsBase32Id(e.target, 32)
  }

  function TemplateRels(subject: string, es: seq<Edge>): seq<TemplateRel> {
    seq(|es|, i requires 0 <= i < |es| => TemplateRel(subject, es[i].predicateName, es[i].target))
  }

  function AddressRels(subject: string, es: seq<Edge>): seq<AddressRel> {
    seq(|es|, i requires 0 <= i < |es| => AddressRel(subject, es[i].predicateName, es[i].target))
  }

  lemma TokenIsPlain(p: string)
    requires IsPredicateToken(p)
    ensures IsTrimmed(p) && p != "" && ' ' !in p && '\n' !in p
  {
  }

  lemma IdIsFieldText(id: string, n: nat)
    requires IsBase32Id(id, n) && n > 0
    ensures IsFieldText(id) && id != "" && Trim(id) == id
  {
    IdsArePlain(id, n);
    TrimIsIdentity(id);
  }

  lemma ShortIdIsNoAddress(id: string)
    requires IsBase32Id(id, 16)
    ensures SplitAddressId(id) == None && ParseTarget(id) == SlugTarget(id)
    ensures ParseSource(id) == SlugSource && LegacySlugId(id) == Some(id)
  {
    IdIsFieldText(id, 16);
  }

  lemma LongIdIsAddress(id: string)
    requires IsBase32Id(id, 32)
    ensures ParseTarget(id) == AddressTarget(AddressParts(id[..16], id[16..])) && id[..16] + id[16..] == id
    ensures ParseSource(id) == AddressSource(id, id[16..]) && LegacySlugId(id) == Some(id[..16])
  {
    IdIsFieldText(id, 32);
  }

  /** The line of a printed edge splits into its two words. */
  lemma EdgeTextSplits(e: Edge)
    requires IsPredicateToken(e.predicateName)
    ensures var l := EdgeText(e);
            var k := IndexOf(l, ' ');
            k == |e.predicateName| < |l| && l[..k] == e.predicateName && l[k + 1..] == e.target
  {
    TokenIsPlain(e.predicateName);
    IndexOfPrefix(e.predicateName, ' ', e.target);
  }

  lemma TemplateEdgeLine(slugs: seq<Slug>, subject: string, e: Edge)
    requires IsTemplateEdge(e)
    ensures LineLinks(slugs, subject, SlugSource, EdgeText(e)) == Links(TemplateRels(subject, [e]), [])
  {
    hide IsPredicateToken, EdgeText, IsBase32Id, Trim, SplitAddressId;
    EdgeTextSplits(e);
    TokenIsPlain(e.predicateName);
    TrimIsIdentity(e.predicateName);
    IdIsFieldText(e.target, 16);
    ShortIdIsNoAddress(e.target);
  }

  lemma AddressEdgeLine(slugs: seq<Slug>, subject: string, source: string, e: Edge)
    requires IsAddressEdge(e) && IsBase32Id(source, 32)
    ensures LineLinks(slugs, subject, AddressSource(source, source[16..]), EdgeText(e))
            == Links([], AddressRels(source, [e]))
  {
    hide IsPredicateToken, EdgeText, Trim, SplitAddressId;
    EdgeTextSplits(e);
    TokenIsPlain(e.predicateName);
    TrimIsIdentity(e.predicateName);
    IdIsFieldText(e.target, 32);
    LongIdIsAddress(e.target);
  }

  lemma {:induction false} TemplateEdgeLines(slugs: seq<Slug>, subject: string, es: seq<Edge>)
    requires forall i | 0 <= i < |es| :: IsTemplateEdge(es[i])
    ensures LinesLinks(slugs, subject, SlugSource, EdgeTexts(es)) == Links(TemplateRels(subject, es), [])
    decreases |es|
  {
    hide IsTemplateEdge, LineLinks, EdgeText;
    if es != [] {
      TemplateEdgeLine(slugs, subject, es[0]);
      TemplateEdgeLines(slugs, subject, es[1..]);
      assert EdgeTexts(es)[1..] == EdgeTexts(es[1..]);
      assert TemplateRels(subject, [es[0]]) + TemplateRels(subject, es[1..]) == TemplateRels(subject, es);
    }
  }

  lemma {:induction false} AddressEdgeLines(slugs: seq<Slug>, subject: string, source: string, es: seq<Edge>)
    requires IsBase32Id(source, 32) && forall i | 0 <= i < |es| :: IsAddressEdge(es[i])
    ensures LinesLinks(slugs, subject, AddressSource(source, source[16..]), EdgeTexts(es))
            == Links([], AddressRels(source, es))
    decreases |es|
  {
    hide IsAddressEdge, LineLinks, EdgeText;
    if es != [] {
      AddressEdgeLine(slugs, subject, source, es[0]);
      AddressEdgeLines(slugs, subject, source, es[1..]);
      assert EdgeTexts(es)[1..] == EdgeTexts(es[1..]);
      assert AddressRels(source, [es[0]]) + AddressRels(source, es[1..]) == AddressRels(source, es);
    }
  }

  // ----- blocks read back --------------------------------------------------

  /** What a block should yield: the lineage pair exactly when the printed identity is not the computed one,
      then one relationship for each edge, in order. */
  function LineageRels(printed: string, computed: string): seq<TemplateRel> {
    if printed == computed then []
    else [TemplateRel(printed, SLUG_SUCCESSOR, computed), TemplateRel(computed, SLUG_PREDECESSOR, printed)]
  }

  predicate IsTemplateDocRow(r: DocRow) {
    && IsRowText(r.slug) && NoBoundary(r.lines) && OnOneLine(r.lines)
    && IsBase32Id(r.source, 16)
    && forall i | 0 <= i < |r.edges| :: IsTemplateEdge(r.edges[i])
  }

  predicate IsAddressDocRow(r: DocRow) {
    && IsRowText(r.slug) && NoBoundary(r.lines) && OnOneLine(r.lines)
    && IsBase32Id(r.source, 32)
    && forall i | 0 <= i < |r.edges| :: IsAddressEdge(r.edges[i])
  }

  function TemplateOutcome(slugs: seq<Slug>, rows: seq<DocRow>): seq<TemplateRel>
    requires |slugs| == |rows|
  {
    if rows == [] then []
    else LineageRels(rows[0].source, slugs[0].slugId) + TemplateRels(slugs[0].slugId, rows[0].edges) +
         TemplateOutcome(slugs[1..], rows[1..])
  }

  /** For address blocks the relationships belong to the printed address; a changed row still gets its lineage. */
  function AddressLineage(slugs: seq<Slug>, rows: seq<DocRow>): seq<TemplateRel>
    requires |slugs| == |rows|
    requires forall r | r in rows :: |r.source| == 32
  {
    if rows == [] then []
    else LineageRels(rows[0].source[..16], slugs[0].slugId) + AddressLineage(slugs[1..], rows[1..])
  }

  function AddressOutcome(rows: seq<DocRow>): seq<AddressRel> {
    if rows == [] then [] else AddressRels(rows[0].source, rows[0].edges) + AddressOutcome(rows[1..])
  }

  lemma TemplateBlock(slugs: seq<Slug>, subject: string, r: DocRow)
    requires IsTemplateDocRow(r)
    ensures SectionLinks(slugs, RelSection(subject, r.source, true, EdgeTexts(r.edges)))
            == Links(LineageRels(r.source, subject) + TemplateRels(subject, r.edges), [])
  {
    hide IsRowText, IsTemplateEdge, TemplateRels, EdgeTexts, LinesLinks, ParseSource, LegacySlugId;
    ShortIdIsNoAddress(r.source);
    TemplateEdgeLines(slugs, subject, r.edges);
  }

  lemma AddressBlock(slugs: seq<Slug>, subject: string, r: DocRow)
    requires IsAddressDocRow(r)
    ensures SectionLinks(slugs, RelSection(subject, r.source, true, EdgeTexts(r.edges)))
            == Links(LineageRels(r.source[..16], subject), AddressRels(r.source, r.edges))
  {
    hide IsRowText, IsAddressEdge, AddressRels, EdgeTexts, LinesLinks, ParseSource, LegacySlugId;
    LongIdIsAddress(r.source);
    AddressEdgeLines(slugs, subject, r.source, r.edges);
  }

  lemma {:induction false} TemplateBlocks(hash: Hash, name: string, all: seq<Slug>, rows: seq<DocRow>)
    requires forall i | 0 <= i < |rows| :: IsTemplateDocRow(rows[i])
    ensures AllLinks(all, Blocks(hash, name, rows)) == Links(TemplateOutcome(ReparsedAll(hash, name, rows), rows), [])
    decreases |rows|
  {
    hide IsTemplateDocRow, Reparsed, SectionLinks, LineageRels, TemplateRels;
    if rows != [] {
      TemplateBlock(all, Reparsed(hash, name, rows[0]).slugId, rows[0]);
      TemplateBlocks(hash, name, all, rows[1..]);
      assert Blocks(hash, name, rows)[1..] == Blocks(hash, name, rows[1..]);
      assert ReparsedAll(hash, name, rows)[1..] == ReparsedAll(hash, name, rows[1..]);
    }
  }

  lemma {:induction false} AddressBlocks(hash: Hash, name: string, all: seq<Slug>, rows: seq<DocRow>)
    requires forall i | 0 <= i < |rows| :: IsAddressDocRow(rows[i])
    requires forall r | r in rows :: |r.source| == 32
    ensures AllLinks(all, Blocks(hash, name, rows))
            == Links(AddressLineage(ReparsedAll(hash, name, rows), rows), AddressOutcome(rows))
    decreases |rows|
  {
    hide IsAddressDocRow, Reparsed, SectionLinks, LineageRels, AddressRels;
    if rows != [] {
      AddressBlock(all, Reparsed(hash, name, rows[0]).slugId, rows[0]);
      AddressBlocks(hash, name, all, rows[1..]);
      assert Blocks(hash, name, rows)[1..] == Blocks(hash, name, rows[1..]);
      assert ReparsedAll(hash, name, rows)[1..] == ReparsedAll(hash, name, rows[1..]);
    }
  }

  // ----- any printed document ----------------------------------------------

  lemma TemplateRowPrints(r: DocRow)
    requires IsTemplateDocRow(r)
    ensures IsDocRow(r) && IsTemplateDocRow(StripRow(r))
  {
    hide IsRowText, IsBoundary, Trim, IsPredicateToken, StripCr;
    IdIsFieldText(r.source, 16);
    forall e | e in r.edges ensures IsEdgeText(e) {
      var i :| 0 <= i < |r.edges| && e == r.edges[i];
      assert IsTemplateEdge(r.edges[i]);
      IdIsFieldText(e.target, 16);
    }
    StripRowIsPrintable(r);
    StripRowOnOneLine(r);
  }

  lemma AddressRowPrints(r: DocRow)
    requires IsAddressDocRow(r)
    ensures IsDocRow(r) && IsAddressDocRow(StripRow(r))
  {
    hide IsRowText, IsBoundary, Trim, IsPredicateToken, StripCr;
    IdIsFieldText(r.source, 32);
    forall e | e in r.edges ensures IsEdgeText(e) {
      var i :| 0 <= i < |r.edges| && e == r.edges[i];
      assert IsAddressEdge(r.edges[i]);
      IdIsFieldText(e.target, 32);
    }
    StripRowIsPrintable(r);
    StripRowOnOneLine(r);
  }

  lemma StripRowOnOneLine(r: DocRow)
    requires OnOneLine(r.lines)
    ensures OnOneLine(StripRow(r).lines)
  {
    hide StripCr;
    forall l | l in StripRow(r).lines ensures '\n' !in l {
      var i :| 0 <= i < |r.lines| && l == StripCr(r.lines[i]);
      StripCrIsPart(r.lines[i]);
      assert r.lines[i] in r.lines;
    }
  }

  lemma ParseDocument(hash: Hash, expected: string, name: string, rows: seq<DocRow>)
    requires IsFieldText(name) && name != "" && (expected == "" || expected == name)
    requires rows != [] && AreDocRows(rows) && AllPrintable(StripRows(rows))
    ensures var slugs := ReparsedAll(hash, name, StripRows(rows));
            var links := AllLinks(slugs, Blocks(hash, name, StripRows(rows)));
            ParseText(hash, expected, Unlines(DocLines(name, rows)))
            == Ok(Parsed(name, slugs, links.template, links.address))
  {
    hide DocLines, Run, Finish, AllLinks, ReparsedAll, Blocks, InputLines, InitialState, IsTrimmed, IsPrintable,
         IsDocRow, StripRow;
    DocumentText(name, rows);
    var section := ParsePrinted(hash, expected, name, StripRows(rows));
  }

  /** Re-import after an edit. `rows` is an exported document in which any content may have been changed while the
      identity lines were left alone: parsing yields the edited rows, re-attaches every edge to the row's computed
      id, and records one successor/predecessor pair for each row whose id changed and none for the others. */
  lemma EditAndReimport(hash: Hash, expected: string, name: string, rows: seq<DocRow>)
    requires IsFieldText(name) && name != "" && (expected == "" || expected == name)
    requires rows != [] && forall i | 0 <= i < |rows| :: IsTemplateDocRow(rows[i])
    ensures var slugs := ReparsedAll(hash, name, StripRows(rows));
            ParseText(hash, expected, Unlines(DocLines(name, rows)))
            == Ok(Parsed(name, slugs, TemplateOutcome(slugs, rows), []))
  {
    hide IsTemplateDocRow, DocLines, ParseText, ReparsedAll, Blocks, AllLinks, IsTrimmed, StripRow, IsDocRow, IsPrintable;
    forall i | 0 <= i < |rows| ensures IsDocRow(rows[i]) && IsTemplateDocRow(StripRow(rows[i])) {
      TemplateRowPrints(rows[i]);
    }
    forall i | 0 <= i < |rows| ensures IsPrintable(StripRows(rows)[i]) {
      StripRowIsPrintable(rows[i]);
    }
    ParseDocument(hash, expected, name, rows);
    var slugs := ReparsedAll(hash, name, StripRows(rows));
    TemplateBlocks(hash, name, slugs, StripRows(rows));
    OutcomeOfStripped(slugs, rows);
  }

  lemma {:induction false} OutcomeOfStripped(slugs: seq<Slug>, rows: seq<DocRow>)
    requires |slugs| == |rows|
    ensures TemplateOutcome(slugs, StripRows(rows)) == TemplateOutcome(slugs, rows)
    decreases |rows|
  {
    hide LineageRels, TemplateRels;
    if rows != [] {
      OutcomeOfStripped(slugs[1..], rows[1..]);
      assert StripRows(rows)[1..] == StripRows(rows[1..]);
    }
  }

  /** The address form: relationships stay with the printed address. */
  lemma EditAndReimportAddresses(hash: Hash, expected: string, name: string, rows: seq<DocRow>)
    requires IsFieldText(name) && name != "" && (expected == "" || expected == name)
    requires rows != [] && forall i | 0 <= i < |rows| :: IsAddressDocRow(rows[i])
    ensures (forall r | r in rows :: |r.source| == 32) &&
            var slugs := ReparsedAll(hash, name, StripRows(rows));
            ParseText(hash, expected, Unlines(DocLines(name, rows)))
            == Ok(Parsed(name, slugs, AddressLineage(slugs, rows), AddressOutcome(rows)))
  {
    hide DocLines, ParseText, ReparsedAll, Blocks, AllLinks, IsTrimmed, StripRow, IsDocRow, IsPrintable, IsAddressDocRow;
    forall i | 0 <= i < |rows|
      ensures IsDocRow(rows[i]) && IsAddressDocRow(StripRow(rows[i])) && |rows[i].source| == 32
    {
      AddressRowPrints(rows[i]);
      AddressSource32(rows[i]);
    }
    forall i | 0 <= i < |rows|
      ensures IsPrintable(StripRows(rows)[i]) && |StripRows(rows)[i].source| == 32
    {
      StripRowIsPrintable(rows[i]);
      AddressSource32(StripRow(rows[i]));
    }
    ParseDocument(hash, expected, name, rows);
    var slugs := ReparsedAll(hash, name, StripRows(rows));
    AddressBlocks(hash, name, slugs, StripRows(rows));
    AddressOutcomeOfStripped(slugs, rows);
  }

  lemma AddressSource32(r: DocRow)
    requires IsAddressDocRow(r)
    ensures |r.source| == 32
  {
  }

  lemma {:induction false} AddressOutcomeOfStripped(slugs: seq<Slug>, rows: seq<DocRow>)
    requires |slugs| == |rows|
    requires (forall r | r in rows :: |r.source| == 32) && (forall r | r in StripRows(rows) :: |r.source| == 32)
    ensures AddressLineage(slugs, StripRows(rows)) == AddressLineage(slugs, rows)
    ensures AddressOutcome(StripRows(rows)) == AddressOutcome(rows)
    decreases |rows|
  {
    hide LineageRels, AddressRels;
    if rows != [] {
      assert StripRows(rows)[1..] == StripRows(rows[1..]);
      AddressOutcomeOfStripped(slugs[1..], rows[1..]);
    }
  }
}
