/** Import, number, export: what a second round changes (nothing), and which files survive the first. */
module ImportExport {
  import opened Text
  import opened Checklist
  import opened MarkdownParser
  import opened MarkdownLinks
  import opened MarkdownExport
  import opened MarkdownSteps
  import opened MarkdownRow
  import opened MarkdownDocument
  import opened MarkdownOutput
  import opened MarkdownText
  import opened MarkdownRoundTrip
  import opened MarkdownLaws
  import opened ImportOrder
  import opened NormalForm
  import opened Grouping

  // ----- every parsed relationship can be printed ----------------------------

  predicate ArePrintable(rels: seq<TemplateRel>) {
    forall i | 0 <= i < |rels| :: IsTemplateEdge(Edge(rels[i].predicateName, rels[i].target))
  }

  predicate HaveIds(slugs: seq<Slug>) {
    forall i | 0 <= i < |slugs| :: IsBase32Id(slugs[i].slugId, 16)
  }

  lemma ConcatPrintable(a: seq<TemplateRel>, b: seq<TemplateRel>)
    requires ArePrintable(a) && ArePrintable(b)
    ensures ArePrintable(a + b)
  {
    hide IsTemplateEdge;
  }

  lemma LineagePrintable(former: string, current: string)
    requires IsBase32Id(former, 16) && IsBase32Id(current, 16)
    ensures ArePrintable(LineagePair(former, current).template)
  {
  }

  lemma SplitAddressIsId(s: string)
    ensures SplitAddressId(s).Some? ==> IsBase32Id(SplitAddressId(s).value.slugId, 16)
  {
  }

  lemma LegacyPrintable(s: string, subject: string)
    requires IsBase32Id(subject, 16)
    ensures ArePrintable(LegacyLinks(s, subject).template)
  {
    hide IsBase32Id, SplitAddressId, ArePrintable;
    SplitAddressIsId(Trim(s));
    NonePrintable();
    match LegacySlugId(s)
    case Some(former) => LineagePrintable(former, subject);
    case None =>
  }

  lemma NonePrintable()
    ensures ArePrintable([])
  {
  }

  lemma {:induction false} RowsAtAreIds(slugs: seq<Slug>, section: string, procedure: string)
    requires HaveIds(slugs)
    ensures forall id | id in RowsAt(slugs, section, procedure) :: IsBase32Id(id, 16)
    decreases |slugs|
  {
    hide IsBase32Id;
    if slugs != [] {
      RowsAtAreIds(slugs[1..], section, procedure);
    }
  }

  lemma TargetsPrintable(subject: string, p: string, targets: seq<string>)
    requires IsPredicateToken(p) && forall id | id in targets :: IsBase32Id(id, 16)
    ensures ArePrintable(TemplateLinks(subject, p, targets).template)
  {
    hide IsBase32Id, IsPredicateToken;
    assert forall i | 0 <= i < |targets| :: targets[i] in targets;
  }

  lemma ParsedTargetIsId(s: string)
    ensures ParseTarget(s).SlugTarget? ==> IsBase32Id(ParseTarget(s).slugId, 16)
    ensures ParseTarget(s).AddressTarget? ==> IsBase32Id(ParseTarget(s).parts.slugId, 16)
  {
    hide SplitAddressId, IsBase32Id, SplitTupleFields, Trim;
    SplitAddressIsId(Trim(s));
  }

  lemma EdgePrintable(slugs: seq<Slug>, subject: string, source: Source, p: string, target: string)
    requires source != InvalidSource && HaveIds(slugs) && IsPredicateToken(p)
    ensures ArePrintable(EdgeLinks(slugs, subject, source, p, ParseTarget(target)).template)
  {
    hide ParseTarget, IsBase32Id, IsPredicateToken, ArePrintable, RowsAt, HaveIds, TemplateLinks;
    ParsedTargetIsId(target);
    NonePrintable();
    if source.SlugSource? {
      match ParseTarget(target)
      case SlugTarget(id) => TargetsPrintable(subject, p, [id]);
      case AddressTarget(parts) => TargetsPrintable(subject, p, [parts.slugId]);
      case TupleTarget(s, pr) => RowsAtAreIds(slugs, s, pr); TargetsPrintable(subject, p, RowsAt(slugs, s, pr));
      case InvalidTarget =>
    }
  }

  lemma LinePrintable(slugs: seq<Slug>, subject: string, source: Source, line: string)
    requires source != InvalidSource && HaveIds(slugs) && IsBase32Id(subject, 16)
    ensures ArePrintable(LineLinks(slugs, subject, source, line).template)
  {
    hide IsBase32Id, IsPredicateToken, ArePrintable, EdgeLinks, ParseTarget, LegacyLinks, HaveIds, Trim;
    var space := IndexOf(line, ' ');
    NonePrintable();
    if space == |line| {
      LegacyPrintable(line, subject);
    } else {
      var p := Trim(line[..space]);
      if IsPredicateToken(p) {
        EdgePrintable(slugs, subject, source, p, Trim(line[space + 1..]));
      }
    }
  }

  lemma {:induction false} LinesPrintable(slugs: seq<Slug>, subject: string, source: Source, lines: seq<string>)
    requires source != InvalidSource && HaveIds(slugs) && IsBase32Id(subject, 16)
    ensures ArePrintable(LinesLinks(slugs, subject, source, lines).template)
    decreases |lines|
  {
    hide IsBase32Id, ArePrintable, LineLinks, HaveIds;
    NonePrintable();
    if lines != [] {
      LinePrintable(slugs, subject, source, lines[0]);
      LinesPrintable(slugs, subject, source, lines[1..]);
      ConcatPrintable(LineLinks(slugs, subject, source, lines[0]).template,
                      LinesLinks(slugs, subject, source, lines[1..]).template);
    }
  }

  lemma SectionPrintable(slugs: seq<Slug>, sec: RelSection)
    requires HaveIds(slugs) && IsBase32Id(sec.subject, 16)
    ensures ArePrintable(SectionLinks(slugs, sec).template)
  {
    hide IsBase32Id, ArePrintable, LinesLinks, HaveIds, LegacyLinks, ParseSource;
    if !sec.sourcePresent {
      LinesPrintable(slugs, sec.subject, SlugSource, sec.lines);
    } else {
      var source := ParseSource(sec.source);
      var kept := if source == InvalidSource && sec.source != "" then [sec.source] + sec.lines else sec.lines;
      var speaker := if source == InvalidSource then SlugSource else source;
      LegacyPrintable(sec.source, sec.subject);
      LinesPrintable(slugs, sec.subject, speaker, kept);
      ConcatPrintable(LegacyLinks(sec.source, sec.subject).template,
                      LinesLinks(slugs, sec.subject, speaker, kept).template);
    }
  }

  lemma {:induction false} AllPrintableLinks(slugs: seq<Slug>, sections: seq<RelSection>)
    requires HaveIds(slugs) && forall sec | sec in sections :: IsBase32Id(sec.subject, 16)
    ensures ArePrintable(AllLinks(slugs, sections).template)
    decreases |sections|
  {
    hide IsBase32Id, ArePrintable, SectionLinks, HaveIds;
    NonePrintable();
    if sections != [] {
      SectionPrintable(slugs, sections[0]);
      AllPrintableLinks(slugs, sections[1..]);
      ConcatPrintable(SectionLinks(slugs, sections[0]).template, AllLinks(slugs, sections[1..]).template);
    }
  }

  lemma EmittedHaveIds(hash: Hash, checklist: string, slugs: seq<Slug>)
    requires forall s | s in slugs :: IsEmitted(hash, checklist, s)
    ensures HaveIds(slugs) && Cores(slugs) == slugs && forall s | s in slugs :: s.section != ""
  {
    hide IsBase32Id, IsInstructions, IsFieldText;
    forall i | 0 <= i < |slugs| ensures IsBase32Id(slugs[i].slugId, 16) && Core(slugs[i]) == slugs[i] {
      assert slugs[i] in slugs;
    }
  }

  /** Whatever the input, the relationships a parse returns have predicate tokens and row ids, so an export can
      print them. */
  lemma ParsedRelationshipsPrint(hash: Hash, expected: string, content: string)
    requires ParseText(hash, expected, content).Ok?
    ensures ArePrintable(ParseText(hash, expected, content).value.template)
  {
    hide InputLines, IsEmitted, IsFieldText, AllLinks, GoodBuilder, Flush, Run, IsBase32Id, ArePrintable, HaveIds;
    InitialIsGood(hash, expected);
    InputLinesAreLines(content);
    var st := Run(hash, InputLines(content), InitialState(expected)).value;
    RunKeeps(hash, InputLines(content), InitialState(expected));
    FlushKeeps(hash, st);
    var f := Flush(hash, st).value;
    EmittedHaveIds(hash, f.checklist, f.slugs);
    AllPrintableLinks(f.slugs, f.relSections);
  }

  // ----- an export shows only the core of its rows ---------------------------

  lemma {:induction false} BodyOfCores(rows: seq<DocRow>, cores: seq<DocRow>, current: string)
    requires |rows| == |cores| && forall i | 0 <= i < |rows| :: cores[i] == rows[i].(slug := Core(rows[i].slug))
    ensures BodyLines(rows, current) == BodyLines(cores, current)
    decreases |rows|
  {
    hide EdgeLines, StatusText;
    if rows != [] {
      assert HeadLines(rows[0].slug) == HeadLines(cores[0].slug);
      BodyOfCores(rows[1..], cores[1..], rows[0].slug.section);
    }
  }

  /** Two lists with the same core print the same text, if their relationships agree on the printed rows. */
  lemma ExportOfCores(name: string, a: seq<Slug>, b: seq<Slug>, relsA: seq<TemplateRel>, relsB: seq<TemplateRel>)
    requires Cores(a) == Cores(b)
    requires forall s | s in a :: SortUnique(EdgesOf(relsA, s.slugId)) == SortUnique(EdgesOf(relsB, s.slugId))
    ensures ExportText(TemplateMode, name, a, relsA) == ExportText(TemplateMode, name, b, relsB)
  {
    hide BodyLines, Unlines, SortUnique, EdgesOf, SplitOn;
    var ra, rb := ToDocRows(TemplateMode, relsA, a), ToDocRows(TemplateMode, relsB, b);
    var cores := seq(|a|, i requires 0 <= i < |a| => ra[i].(slug := Core(ra[i].slug)));
    forall i | 0 <= i < |a| ensures cores[i] == rb[i].(slug := Core(rb[i].slug)) {
      assert a[i] in a;
      assert Cores(a)[i] == Cores(b)[i];
    }
    BodyOfCores(ra, cores, "");
    BodyOfCores(rb, cores, "");
  }

  lemma PrintedEdgesAgree(slugs: seq<Slug>, rels: seq<TemplateRel>, id: string)
    requires Exports(slugs, id)
    ensures SortUnique(EdgesOf(PrintedRels(slugs, rels), id)) == SortUnique(EdgesOf(rels, id))
  {
    hide SortUnique, EdgesOf, PrintedRels, StrictlySorted;
    var a, b := SortUnique(EdgesOf(PrintedRels(slugs, rels), id)), SortUnique(EdgesOf(rels, id));
    forall e ensures e in a <==> e in b {
      PrintedEdgeMembers(PrintedRels(slugs, rels), id, e);
      PrintedEdgeMembers(rels, id, e);
      PrintedRelMembers(slugs, rels, TemplateRel(id, e.predicateName, e.target));
    }
    SortUniqueIsSorted(EdgesOf(PrintedRels(slugs, rels), id));
    SortUniqueIsSorted(EdgesOf(rels, id));
    assert EdgeSet(a) == EdgeSet(b);
    StrictlySortedIsUnique(a, b);
  }

  // ----- the laws ------------------------------------------------------------

  predicate AllStable(slugs: seq<Slug>) {
    forall s | s in slugs :: AreStable(s.instructions)
  }

  lemma GroupedMembers(slugs: seq<Slug>)
    ensures forall s :: s in Grouped(slugs) <==> s in slugs
  {
    FirstsAreDistinct(slugs);
    GatherIsPermutation(slugs, Firsts(slugs));
    assert forall s :: s in Grouped(slugs) <==> s in multiset(Grouped(slugs));
    assert forall s :: s in slugs <==> s in multiset(slugs);
  }

  /** The export order of imported rows, as cores. */
  lemma ImportedOrder(hash: Hash, checklist: string, slugs: seq<Slug>, ordered: seq<Slug>)
    requires forall s | s in slugs :: IsEmitted(hash, checklist, s)
    requires WithinCapacity(slugs) && IsSortOf(ordered, Assigned(slugs))
    ensures Cores(ordered) == Grouped(slugs)
    ensures forall s | s in ordered :: Core(s) in slugs
  {
    hide WithinCapacity, Assigned, IsEmitted, Grouped, Cores, Core, InOrder;
    SortedImportIsGrouped(slugs, ordered);
    CoresOfGrouped(slugs);
    GroupedMembers(slugs);
    EmittedHaveIds(hash, checklist, Grouped(slugs));
    CoresMembers(ordered);
  }

  lemma CoreKeepsText(s: Slug)
    ensures Core(s).instructions == s.instructions && Core(s).slugId == s.slugId && Core(s).section == s.section
  {
  }

  lemma PrintableForAll(slugs: seq<Slug>, rels: seq<TemplateRel>)
    requires ArePrintable(rels)
    ensures PrintableRels(slugs, rels)
  {
    hide IsTemplateEdge, Exports;
    forall r | r in rels ensures IsTemplateEdge(Edge(r.predicateName, r.target)) {
      var i :| 0 <= i < |rels| && rels[i] == r;
      assert IsTemplateEdge(Edge(rels[i].predicateName, rels[i].target));
    }
  }

  /** Which imported files an export preserves: re-importing the export of an import gives the same rows, grouped
      by section, if and only if no row's instructions end in a dash rule or have a line ending in a carriage
      return. */
  lemma ReimportExactly(hash: Hash, content: string, ordered: seq<Slug>)
    requires ParseText(hash, "", content).Ok?
    requires var p := ParseText(hash, "", content).value;
             WithinCapacity(p.slugs) && IsSortOf(ordered, Assigned(p.slugs))
    ensures var p := ParseText(hash, "", content).value;
            var r := ParseText(hash, "", ExportText(TemplateMode, p.checklist, ordered, p.template));
            r.Ok? && r.value.slugs == Grouped(p.slugs) <==> AllStable(p.slugs)
  {
    hide ParseText, WithinCapacity, Assigned, IsEmitted, Grouped, Cores, Core, AreStable, ExportText, IsFieldText,
         ArePrintable, PrintableRels, InOrder;
    var p := ParseText(hash, "", content).value;
    ParserOutput(hash, "", content);
    ImportedOrder(hash, p.checklist, p.slugs, ordered);
    ParsedRelationshipsPrint(hash, "", content);
    PrintableForAll(ordered, p.template);
    NonEmptyOrder(p.slugs, ordered);
    RoundTripExactly(hash, "", p.checklist, ordered, p.template);
    StableCores(hash, p.checklist, p.slugs, ordered);
  }

  lemma NonEmptyOrder(slugs: seq<Slug>, ordered: seq<Slug>)
    requires slugs != [] && IsSortOf(ordered, Assigned(slugs))
    ensures ordered != []
  {
    hide OrderAt, InOrder;
    assert |multiset(ordered)| == |ordered| && |multiset(Assigned(slugs))| == |slugs|;
  }

  lemma StableCores(hash: Hash, checklist: string, slugs: seq<Slug>, ordered: seq<Slug>)
    requires forall s | s in slugs :: IsEmitted(hash, checklist, s)
    requires Cores(ordered) == Grouped(slugs) && forall s | s in ordered :: Core(s) in slugs
    ensures (forall s | s in ordered :: IsWellFormed(hash, checklist, s)) <==> AllStable(slugs)
  {
    hide IsEmitted, Grouped, AreStable, Core;
    if AllStable(slugs) {
      forall s | s in ordered ensures IsWellFormed(hash, checklist, s) {
        CoreKeepsText(s);
      }
    }
    if forall s | s in ordered :: IsWellFormed(hash, checklist, s) {
      GroupedMembers(slugs);
      forall s | s in slugs ensures AreStable(s.instructions) {
        var i :| 0 <= i < |Grouped(slugs)| && Grouped(slugs)[i] == s;
        assert Cores(ordered)[i] == s;
        CoreKeepsText(ordered[i]);
        assert ordered[i] in ordered;
      }
    }
  }

  /** Normal form. Once a stable file has been imported and exported, importing and exporting again changes nothing,
      whatever the sort does; each section heading is printed once, in order of first appearance; and rows whose
      sections were contiguous keep their order. */
  lemma ImportExportIsNormal(hash: Hash, content: string, ordered: seq<Slug>, again: seq<Slug>)
    requires ParseText(hash, "", content).Ok?
    requires var p := ParseText(hash, "", content).value;
             WithinCapacity(p.slugs) && AllStable(p.slugs) && IsSortOf(ordered, Assigned(p.slugs)) &&
             IsSortOf(again, Assigned(Grouped(p.slugs)))
    ensures var p := ParseText(hash, "", content).value;
            var text := ExportText(TemplateMode, p.checklist, ordered, p.template);
            var rels := PrintedRels(ordered, p.template);
            && ParseText(hash, "", text) == Ok(Parsed(p.checklist, Grouped(p.slugs), rels, []))
            && ExportText(TemplateMode, p.checklist, again, rels) == text
            && Headings(ordered, "") == Firsts(p.slugs) && Distinct(Firsts(p.slugs))
            && (Contiguous(p.slugs) ==> Cores(ordered) == p.slugs)
  {
    hide ParseText, WithinCapacity, Assigned, IsEmitted, Grouped, Cores, Core, AreStable, ExportText, IsFieldText,
         ArePrintable, PrintableRels, PrintedRels, Headings, Contiguous, Firsts, InOrder;
    var p := ParseText(hash, "", content).value;
    ParserOutput(hash, "", content);
    ImportedOrder(hash, p.checklist, p.slugs, ordered);
    ParsedRelationshipsPrint(hash, "", content);
    PrintableForAll(ordered, p.template);
    NonEmptyOrder(p.slugs, ordered);
    StableCores(hash, p.checklist, p.slugs, ordered);
    RoundTrip(hash, "", p.checklist, ordered, p.template);
    SecondExport(hash, p.checklist, p.slugs, ordered, again, p.template);
    HeadingsOfImport(hash, p.checklist, p.slugs, ordered);
    if Contiguous(p.slugs) {
      ContiguousIsGrouped(p.slugs);
    }
  }

  lemma CapacityOfGrouped(slugs: seq<Slug>)
    requires WithinCapacity(slugs)
    ensures WithinCapacity(Grouped(slugs))
  {
    hide InSection, Firsts, Gather;
    GroupedTwice(slugs);
  }

  lemma SecondExport(hash: Hash, checklist: string, slugs: seq<Slug>, ordered: seq<Slug>, again: seq<Slug>,
                     rels: seq<TemplateRel>)
    requires forall s | s in slugs :: IsEmitted(hash, checklist, s)
    requires WithinCapacity(slugs) && Cores(ordered) == Grouped(slugs)
    requires IsSortOf(again, Assigned(Grouped(slugs)))
    ensures ExportText(TemplateMode, checklist, again, PrintedRels(ordered, rels))
            == ExportText(TemplateMode, checklist, ordered, rels)
  {
    hide WithinCapacity, Assigned, IsEmitted, Grouped, Core, ExportText, PrintedRels, SortUnique, EdgesOf, InOrder;
    GroupedMembers(slugs);
    CapacityOfGrouped(slugs);
    ImportedOrder(hash, checklist, Grouped(slugs), again);
    GroupedTwice(slugs);
    forall s | s in again
      ensures SortUnique(EdgesOf(PrintedRels(ordered, rels), s.slugId)) == SortUnique(EdgesOf(rels, s.slugId))
    {
      var i :| 0 <= i < |again| && again[i] == s;
      assert Cores(again)[i] == Cores(ordered)[i];
      CoreKeepsText(s);
      CoreKeepsText(ordered[i]);
      assert ordered[i] in ordered;
      PrintedEdgesAgree(ordered, rels, s.slugId);
    }
    ExportOfCores(checklist, again, ordered, PrintedRels(ordered, rels), rels);
  }

  lemma {:induction false} HeadingsOfCores(a: seq<Slug>, b: seq<Slug>, current: string)
    requires Cores(a) == Cores(b)
    ensures Headings(a, current) == Headings(b, current)
    decreases |a|
  {
    hide Core;
    assert |a| == |Cores(a)| && |b| == |Cores(b)|;
    if a != [] {
      assert Cores(a)[0] == Cores(b)[0];
      CoreKeepsText(a[0]);
      CoreKeepsText(b[0]);
      assert Cores(a[1..]) == Cores(a)[1..] && Cores(b[1..]) == Cores(b)[1..];
      HeadingsOfCores(a[1..], b[1..], a[0].section);
    }
  }

  lemma {:induction false} NoEmptyFirst(slugs: seq<Slug>)
    requires forall s | s in slugs :: s.section != ""
    ensures "" !in Firsts(slugs)
    decreases |slugs|
  {
    if slugs != [] {
      assert slugs[|slugs| - 1] in slugs;
      NoEmptyFirst(slugs[..|slugs| - 1]);
    }
  }

  lemma HeadingsOfImport(hash: Hash, checklist: string, slugs: seq<Slug>, ordered: seq<Slug>)
    requires forall s | s in slugs :: IsEmitted(hash, checklist, s)
    requires Cores(ordered) == Grouped(slugs)
    ensures Headings(ordered, "") == Firsts(slugs) && Distinct(Firsts(slugs))
  {
    hide IsEmitted, Grouped, Headings, Firsts, Cores;
    GroupedMembers(slugs);
    EmittedHaveIds(hash, checklist, slugs);
    EmittedHaveIds(hash, checklist, Grouped(slugs));
    HeadingsOfCores(ordered, Grouped(slugs), "");
    NoEmptyFirst(slugs);
    HeadingsOnce(slugs);
  }

  // ----- a file that does not survive -----------------------------------------

  /** One row whose instructions are a single rule of dashes at the end of the file. */
  function RuleAtEnd(name: string, s: Slug): seq<string> {
    ["# Checklist: " + name, ""] + (["## Section: " + s.section, ""] + (HeadLines(s) + ["---"]))
  }

  lemma FinalRuleIsKept(hash: Hash, st: State)
    requires InBlock(st) && !st.inRelationships
    ensures Run(hash, ["---"], st) == Ok(Appended(st, "---"))
  {
    hide Step, OnHeading, OnBullet;
    TrimIsIdentity("---");
    ClassifyDash("---");
    assert ["---"][1..] == [];
    ClassifyDash("---");
    assert !IsBoundary("");
    StepKeep(hash, "---", [], st);
  }

  lemma RuleTextIsUnstable()
    ensures JoinWith(DropTrailingEmpty(["---"]), '\n') == "---" && !AreStable("---")
  {
    TrimIsIdentity("---");
    assert SplitOn("---", '\n') == ["---"];
  }

  lemma RuleAtEndRuns(hash: Hash, name: string, s: Slug)
    requires IsFieldText(name) && name != "" && IsRowText(s)
    ensures Run(hash, RuleAtEnd(name, s), InitialState("")) ==
            Ok(Closed(hash, name, [], s.section).(builder := HeadBuilder(s).(instructionLines := ["---"]),
                                                  inInstructions := true))
  {
    hide Run, Step, HeadLines, IsTrimmed, Between, Flush;
    var l2 := HeadLines(s) + ["---"];
    var l1 := ["## Section: " + s.section, ""] + l2;
    RunTitle(hash, "", name, l1);
    RunSectionHeading(hash, name, [], "", s.section, l2, Closed(hash, name, [], ""));
    var f := Closed(hash, name, [], s.section);
    ClosedFlushes(hash, name, s.section);
    RunHead(hash, s, ["---"], f, f);
    FinalRuleIsKept(hash, f.(builder := HeadBuilder(s), inInstructions := true));
    assert [] + ["---"] == ["---"];
  }

  lemma ClosedFlushes(hash: Hash, name: string, section: string)
    ensures Flush(hash, Closed(hash, name, [], section)) == Ok(Closed(hash, name, [], section))
  {
  }

  lemma RuleAtEndCloses(hash: Hash, name: string, s: Slug, st: State)
    requires IsRowText(s)
    requires st == Closed(hash, name, [], s.section).(builder := HeadBuilder(s).(instructionLines := ["---"]),
                                                      inInstructions := true)
    ensures var f := Finish(hash, st);
            f.Ok? && |f.value.slugs| == 1 && f.value.slugs[0].instructions == "---"
  {
    hide ParseStatus, StatusToString, ComputeSlugId, AreStable;
    StatusRoundTrip(s.status);
    StatusPrints(s.status);
    RuleTextIsUnstable();
  }

  lemma RuleAtEndLines(name: string, s: Slug)
    requires IsFieldText(name) && IsRowText(s)
    ensures InputLines(Unlines(RuleAtEnd(name, s))) == RuleAtEnd(name, s)
  {
    hide IsPlain, HeadLines, Unlines, Lines, StripCrs, IsFieldText, OnOneLine, ArePlain, StripBom;
    var rest := ["## Section: " + s.section, ""] + (HeadLines(s) + ["---"]);
    TitleIsPlain(name);
    SectionHeadingIsPlain(s.section);
    HeadLinesArePlain(s);
    RuleIsPlain();
    PlainConcat(HeadLines(s), ["---"]);
    PlainConcat(["## Section: " + s.section, ""], HeadLines(s) + ["---"]);
    PlainConcat(["# Checklist: " + name, ""], rest);
    PlainIsOnOneLine(RuleAtEnd(name, s));
    OnOneLineMeansLines(RuleAtEnd(name, s));
    StripPlain(RuleAtEnd(name, s));
    NoBom(name, rest);
  }

  lemma PlainConcat(a: seq<string>, b: seq<string>)
    requires ArePlain(a) && ArePlain(b)
    ensures ArePlain(a + b)
  {
    hide IsPlain;
  }

  lemma RuleIsPlain()
    ensures ArePlain(["---"])
  {
  }

  lemma SectionHeadingIsPlain(section: string)
    requires IsFieldText(section)
    ensures ArePlain(["## Section: " + section, ""])
  {
    hide IsPlain, IsFieldText;
    FixedLinesArePlain();
    PlainPrefixed("## Section: ", section);
  }

  /** The stability condition is not idle: every well-shaped row can be put into a file that parses and whose
      export does not parse back to the same rows. */
  lemma TrailingRuleIsLost(hash: Hash, name: string, s: Slug)
    requires IsFieldText(name) && name != "" && IsRowText(s)
    ensures var r := ParseText(hash, "", Unlines(RuleAtEnd(name, s)));
            r.Ok? && |r.value.slugs| == 1 && r.value.slugs[0].instructions == "---" && !AllStable(r.value.slugs)
  {
    hide RuleAtEnd, Run, Finish, Closed, HeadBuilder, InputLines, AllLinks, IsFieldText, IsRowText, Unlines,
         InitialState, AreStable;
    RuleAtEndLines(name, s);
    RuleAtEndRuns(hash, name, s);
    RuleAtEndCloses(hash, name, s, Run(hash, RuleAtEnd(name, s), InitialState("")).value);
    RuleTextIsUnstable();
    var slugs := ParseText(hash, "", Unlines(RuleAtEnd(name, s))).value.slugs;
    assert slugs[0] in slugs;
  }
}
