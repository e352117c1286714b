/** Export followed by import, for stored rows. */
module MarkdownLaws {
  import opened Text
  import opened Checklist
  import opened MarkdownParser
  import opened MarkdownLinks
  import opened MarkdownExport
  import opened MarkdownSteps
  import opened MarkdownRow
  import opened MarkdownDocument
  import opened MarkdownOutput
  import opened MarkdownText
  import opened MarkdownRoundTrip

  /** A stored row without what Markdown does not carry. */
  function Core(s: Slug): Slug {
    s.(instanceId := "", addressId := "", addressOrder := 0, relationships := [])
  }

  function Cores(slugs: seq<Slug>): (cores: seq<Slug>)
    ensures |cores| == |slugs|
  {
    seq(|slugs|, i requires 0 <= i < |slugs| => Core(slugs[i]))
  }

  /** The rows that survive: shaped like parser output, and with stable instructions. */
  predicate IsWellFormed(hash: Hash, name: string, s: Slug) {
    IsEmitted(hash, name, Core(s)) && AreStable(s.instructions)
  }

  predicate Exports(slugs: seq<Slug>, slugId: string) {
    exists s | s in slugs :: s.slugId == slugId
  }

  /** Every relationship of an exported row has a predicate token and a row id as target. */
  predicate PrintableRels(slugs: seq<Slug>, rels: seq<TemplateRel>) {
    forall r | r in rels && Exports(slugs, r.subject) :: IsTemplateEdge(Edge(r.predicateName, r.target))
  }

  /** The relationships an export prints: row by row, sorted, without repetition. */
  function PrintedRels(slugs: seq<Slug>, rels: seq<TemplateRel>): seq<TemplateRel> {
    if slugs == [] then []
    else TemplateRels(slugs[0].slugId, SortUnique(EdgesOf(rels, slugs[0].slugId))) + PrintedRels(slugs[1..], rels)
  }

  // ----- edges -------------------------------------------------------------

  lemma {:induction false} EdgesOfMembers(rels: seq<TemplateRel>, id: string, e: Edge)
    ensures e in EdgesOf(rels, id) <==> TemplateRel(id, e.predicateName, e.target) in rels
  {
    if rels != [] {
      EdgesOfMembers(rels[1..], id, e);
      var r := rels[0];
      assert rels == [r] + rels[1..];
      assert (r.subject == id && e == Edge(r.predicateName, r.target)) <==> r == TemplateRel(id, e.predicateName, e.target);
    }
  }

  lemma PrintedEdgeMembers(rels: seq<TemplateRel>, id: string, e: Edge)
    ensures e in SortUnique(EdgesOf(rels, id)) <==> TemplateRel(id, e.predicateName, e.target) in rels
  {
    var es := EdgesOf(rels, id);
    SortUniqueIsSorted(es);
    EdgesOfMembers(rels, id, e);
    assert e in EdgeSet(SortUnique(es)) <==> e in EdgeSet(es);
  }

  lemma TemplateRelMembers(id: string, es: seq<Edge>, r: TemplateRel)
    ensures r in TemplateRels(id, es) <==> r.subject == id && Edge(r.predicateName, r.target) in es
  {
    if r.subject == id && Edge(r.predicateName, r.target) in es {
      var i :| 0 <= i < |es| && es[i] == Edge(r.predicateName, r.target);
      assert TemplateRels(id, es)[i] == r;
    }
  }

  /** What is printed is what is stored for the exported rows. */
  lemma {:induction false} PrintedRelMembers(slugs: seq<Slug>, rels: seq<TemplateRel>, r: TemplateRel)
    ensures r in PrintedRels(slugs, rels) <==> r in rels && Exports(slugs, r.subject)
  {
    hide SortUnique, EdgesOf, TemplateRels;
    if slugs != [] {
      var id := slugs[0].slugId;
      var es := SortUnique(EdgesOf(rels, id));
      PrintedRelMembers(slugs[1..], rels, r);
      TemplateRelMembers(id, es, r);
      PrintedEdgeMembers(rels, id, Edge(r.predicateName, r.target));
      assert slugs == [slugs[0]] + slugs[1..];
      assert Exports(slugs, r.subject) <==> id == r.subject || Exports(slugs[1..], r.subject);
    }
  }

  predicate DistinctIds(slugs: seq<Slug>) {
    forall i, j | 0 <= i < j < |slugs| :: slugs[i].slugId != slugs[j].slugId
  }

  predicate NoRepeats<T(==)>(s: seq<T>) {
    forall i, j | 0 <= i < j < |s| :: s[i] != s[j]
  }

  lemma RowRelsOnce(id: string, es: seq<Edge>)
    requires StrictlySorted(es)
    ensures NoRepeats(TemplateRels(id, es))
  {
    hide EdgeBefore;
    var ts := TemplateRels(id, es);
    forall i, j | 0 <= i < j < |ts| ensures ts[i] != ts[j] {
      EdgeBeforeIsTotal(es[i], es[j], es[i]);
      assert EdgeBefore(es[i], es[j]);
    }
  }

  /** Rows with different ids print no relationship twice. */
  lemma {:induction false} PrintedOnce(slugs: seq<Slug>, rels: seq<TemplateRel>)
    requires DistinctIds(slugs)
    ensures NoRepeats(PrintedRels(slugs, rels))
  {
    hide SortUnique, EdgesOf, TemplateRels, StrictlySorted;
    if slugs != [] {
      var id := slugs[0].slugId;
      var es := SortUnique(EdgesOf(rels, id));
      SortUniqueIsSorted(EdgesOf(rels, id));
      RowRelsOnce(id, es);
      PrintedOnce(slugs[1..], rels);
      var first, rest := TemplateRels(id, es), PrintedRels(slugs[1..], rels);
      forall i, j | 0 <= i < |first| && 0 <= j < |rest| ensures first[i] != rest[j] {
        TemplateRelMembers(id, es, first[i]);
        PrintedRelMembers(slugs[1..], rels, rest[j]);
      }
    }
  }

  // ----- rows --------------------------------------------------------------

  lemma InstructionLinesFit(s: string)
    requires IsInstructions(s)
    ensures NoBoundary(SplitOn(s, '\n')) && OnOneLine(SplitOn(s, '\n'))
  {
    hide SplitOn, IsBoundary, Trim;
    var ls := SplitOn(s, '\n');
    forall i | 0 <= i < |ls| ensures !IsBoundary(Trim(ls[i])) {
      assert IsInstructionLine(ls[i]);
    }
  }

  lemma ExportedRow(hash: Hash, name: string, rels: seq<TemplateRel>, slugs: seq<Slug>, s: Slug)
    requires s in slugs && IsEmitted(hash, name, Core(s)) && PrintableRels(slugs, rels)
    ensures IsTemplateDocRow(ToDocRow(TemplateMode, rels, s))
  {
    hide IsFieldText, SortUnique, EdgesOf, NoBoundary, OnOneLine, IsInstructions, SplitOn, IsTemplateEdge;
    InstructionLinesFit(s.instructions);
    var es := SortUnique(EdgesOf(rels, s.slugId));
    forall i | 0 <= i < |es| ensures IsTemplateEdge(es[i]) {
      PrintedEdgeMembers(rels, s.slugId, es[i]);
      assert Exports(slugs, s.slugId);
    }
  }

  lemma ReparsedRow(hash: Hash, name: string, s: Slug, r: DocRow)
    requires IsEmitted(hash, name, Core(s)) && r.slug == s && r.lines == SplitOn(s.instructions, '\n')
    ensures Reparsed(hash, name, StripRow(r)) == Core(s) <==> AreStable(s.instructions)
  {
    hide Stored, AreStable, IsRowText, IsInstructions, ComputeSlugId;
    StoredExactly(s.instructions);
  }

  lemma {:induction false} TemplateOutcomeOfExport(slugs: seq<Slug>, cores: seq<Slug>, rels: seq<TemplateRel>)
    requires cores == Cores(slugs)
    ensures TemplateOutcome(cores, ToDocRows(TemplateMode, rels, slugs)) == PrintedRels(slugs, rels)
    decreases |slugs|
  {
    hide SortUnique, EdgesOf, TemplateRels;
    if slugs != [] {
      var rows := ToDocRows(TemplateMode, rels, slugs);
      assert rows[1..] == ToDocRows(TemplateMode, rels, slugs[1..]);
      assert cores[1..] == Cores(slugs[1..]);
      TemplateOutcomeOfExport(slugs[1..], cores[1..], rels);
    }
  }

  lemma ReparsedRows(hash: Hash, name: string, mode: Mode, slugs: seq<Slug>, rels: seq<TemplateRel>)
    requires forall s | s in slugs :: IsEmitted(hash, name, Core(s))
    ensures ReparsedAll(hash, name, StripRows(ToDocRows(mode, rels, slugs))) == Cores(slugs)
            <==> forall s | s in slugs :: AreStable(s.instructions)
  {
    hide Reparsed, StripRow, AreStable, IsEmitted, Core;
    var rows := ToDocRows(mode, rels, slugs);
    var back := ReparsedAll(hash, name, StripRows(rows));
    forall i | 0 <= i < |slugs| ensures back[i] == Cores(slugs)[i] <==> AreStable(slugs[i].instructions) {
      assert slugs[i] in slugs;
      ReparsedRow(hash, name, slugs[i], rows[i]);
    }
    if forall s | s in slugs :: AreStable(s.instructions) {
      assert forall i | 0 <= i < |slugs| :: slugs[i] in slugs;
      assert back == Cores(slugs);
    }
    if back == Cores(slugs) {
      forall s | s in slugs ensures AreStable(s.instructions) {
        var i :| 0 <= i < |slugs| && slugs[i] == s;
        assert back[i] == Cores(slugs)[i];
      }
    }
  }

  // ----- the laws ----------------------------------------------------------

  /** Export, then import: the same rows in the same order, and exactly the printed relationships. */
  lemma RoundTrip(hash: Hash, expected: string, name: string, ordered: seq<Slug>, rels: seq<TemplateRel>)
    requires IsFieldText(name) && name != "" && (expected == "" || expected == name)
    requires ordered != [] && forall s | s in ordered :: IsWellFormed(hash, name, s)
    requires PrintableRels(ordered, rels)
    ensures ParseText(hash, expected, ExportText(TemplateMode, name, ordered, rels))
            == Ok(Parsed(name, Cores(ordered), PrintedRels(ordered, rels), []))
  {
    hide IsEmitted, ToDocRow, IsTemplateDocRow, PrintableRels, ParseText, DocLines, Unlines, Core, AreStable,
         IsFieldText, ReparsedAll, StripRows, PrintedRels;
    var rows := ToDocRows(TemplateMode, rels, ordered);
    forall i | 0 <= i < |rows| ensures IsTemplateDocRow(rows[i]) {
      assert ordered[i] in ordered;
      ExportedRow(hash, name, rels, ordered, ordered[i]);
    }
    EditAndReimport(hash, expected, name, rows);
    ReparsedRows(hash, name, TemplateMode, ordered, rels);
    TemplateOutcomeOfExport(ordered, Cores(ordered), rels);
  }

  /** The first line fixes the checklist name, whatever the rows contain. */
  lemma TitleFixesName(hash: Hash, expected: string, name: string, rows: seq<DocRow>)
    requires IsFieldText(name) && name != "" && (expected == "" || expected == name)
    requires ParseText(hash, expected, Unlines(DocLines(name, rows))).Ok?
    ensures ParseText(hash, expected, Unlines(DocLines(name, rows))).value.checklist == name
  {
    hide BodyLines, IsFieldText, Run, Step, GoodState, IsTrimmed, IsEmitted, AllLinks;
    var title := "# Checklist: " + name;
    var body := BodyLines(rows, "");
    var rest := Lines(Unlines([""] + body));
    assert ["# Checklist: " + name, ""] + body == [title] + ([""] + body);
    FirstLine(title, [""] + body, name);
    assert InputLines(Unlines(DocLines(name, rows))) == [title] + StripCrs(rest) by {
      NoBom(name, body);
    }
    var st := InitialState(expected);
    var named := NamedState(name);
    StepTitle(hash, expected, name, StripCrs(rest));
    RunCons(hash, title, StripCrs(rest), st, named);
    NamedIsGood(hash, name);
    StripCrsOnOneLine(rest);
    RunKeeps(hash, StripCrs(rest), named);
    FinishKeepsName(hash, Run(hash, StripCrs(rest), named).value);
  }

  function NamedState(name: string): State {
    InitialState(name).(checklistSeen := true)
  }

  lemma StepTitle(hash: Hash, expected: string, name: string, rest: seq<string>)
    requires IsFieldText(name) && name != "" && (expected == "" || expected == name)
    ensures Step(hash, "# Checklist: " + name, rest, InitialState(expected)) == Ok(NamedState(name))
  {
    hide IsRule, NextNonEmpty, IsBoundary, Trim;
    ClassifyChecklist(name);
  }

  lemma NamedIsGood(hash: Hash, name: string)
    requires IsFieldText(name) && name != ""
    ensures GoodState(hash, NamedState(name)) && NamedState(name).checklist != ""
  {
    InitialIsGood(hash, name);
  }

  lemma FinishKeepsName(hash: Hash, st: State)
    ensures Finish(hash, st).Ok? ==> Finish(hash, st).value.checklist == st.checklist
  {
    hide FinalizeSlug;
  }

  lemma StripCrsOnOneLine(ls: seq<string>)
    requires forall l | l in ls :: '\n' !in l
    ensures forall l | l in StripCrs(ls) :: '\n' !in l
  {
    hide StripCr;
    forall l | l in StripCrs(ls) ensures '\n' !in l {
      var i :| 0 <= i < |ls| && l == StripCr(ls[i]);
      StripCrIsPart(ls[i]);
      assert ls[i] in ls;
    }
  }

  lemma FirstLine(title: string, more: seq<string>, name: string)
    requires title == "# Checklist: " + name && IsFieldText(name)
    ensures StripCrs(Lines(Unlines([title] + more))) == [title] + StripCrs(Lines(Unlines(more)))
  {
    hide StripCrs, IsFieldText, Unlines, Lines, IsPlain;
    PlainPrefixed("# Checklist: ", name);
    PlainMeans(title);
    UnlinesCons(title, more);
    LinesCons(title, Unlines(more));
    StripCrsConcat([title], Lines(Unlines(more)));
    StripPlain([title]);
  }

  lemma PlainMeans(l: string)
    requires IsPlain(l)
    ensures '\n' !in l
  {
  }

  lemma UnlinesCons(l: string, more: seq<string>)
    ensures Unlines([l] + more) == l + ['\n'] + Unlines(more)
  {
    assert ([l] + more)[1..] == more;
  }

  lemma LinesCons(l: string, rest: string)
    requires '\n' !in l
    ensures Lines(l + ['\n'] + rest) == [l] + Lines(rest)
  {
    var s := l + ['\n'] + rest;
    IndexOfPrefix(l, '\n', rest);
    assert s[..|l|] == l && s[|l| + 1..] == rest;
  }

  /** The exact condition of the round trip: an exported list comes back as it was if and only if every row is
      well formed, whatever the rows contain. */
  lemma RoundTripExactly(hash: Hash, expected: string, name: string, ordered: seq<Slug>, rels: seq<TemplateRel>)
    requires IsFieldText(name) && name != "" && (expected == "" || expected == name)
    requires ordered != [] && PrintableRels(ordered, rels)
    ensures var r := ParseText(hash, expected, ExportText(TemplateMode, name, ordered, rels));
            r.Ok? && r.value.slugs == Cores(ordered) <==> forall s | s in ordered :: IsWellFormed(hash, name, s)
  {
    hide IsEmitted, ToDocRow, IsTemplateDocRow, PrintableRels, ParseText, DocLines, Unlines, Core, AreStable,
         IsFieldText, ReparsedAll, StripRows, PrintedRels, Cores;
    var text := ExportText(TemplateMode, name, ordered, rels);
    var rows := ToDocRows(TemplateMode, rels, ordered);
    var r := ParseText(hash, expected, text);
    if forall s | s in ordered :: IsWellFormed(hash, name, s) {
      RoundTrip(hash, expected, name, ordered, rels);
    }
    if r.Ok? && r.value.slugs == Cores(ordered) {
      ParserOutput(hash, expected, text);
      TitleFixesName(hash, expected, name, rows);
      CoresMembers(ordered);
      forall i | 0 <= i < |rows| ensures IsTemplateDocRow(rows[i]) {
        assert ordered[i] in ordered;
        ExportedRow(hash, name, rels, ordered, ordered[i]);
      }
      EditAndReimport(hash, expected, name, rows);
      ReparsedRows(hash, name, TemplateMode, ordered, rels);
    }
  }

  lemma CoresMembers(slugs: seq<Slug>)
    ensures forall s | s in slugs :: Core(s) in Cores(slugs)
  {
    hide Core;
    forall s | s in slugs ensures Core(s) in Cores(slugs) {
      var i :| 0 <= i < |slugs| && slugs[i] == s;
      assert Cores(slugs)[i] == Core(s);
    }
  }

  // ----- address mode ------------------------------------------------------

  /** A row with a 32-digit address, and addresses as targets. */
  predicate HasAddress(s: Slug) {
    IsBase32Id(s.addressId, 32) && forall i | 0 <= i < |s.relationships| :: IsAddressEdge(s.relationships[i])
  }

  /** The address is built on the row's own id. */
  predicate IsAddressed(s: Slug) {
    HasAddress(s) && s.addressId[..16] == s.slugId
  }

  function PrintedAddressRels(slugs: seq<Slug>): seq<AddressRel> {
    if slugs == [] then []
    else AddressRels(slugs[0].addressId, SortUnique(slugs[0].relationships)) + PrintedAddressRels(slugs[1..])
  }

  lemma AddressExportedRow(hash: Hash, name: string, rels: seq<TemplateRel>, s: Slug)
    requires IsEmitted(hash, name, Core(s)) && HasAddress(s)
    ensures IsAddressDocRow(ToDocRow(AddressMode, rels, s))
  {
    hide IsFieldText, SortUnique, NoBoundary, OnOneLine, IsInstructions, SplitOn, IsAddressEdge;
    InstructionLinesFit(s.instructions);
    var es := SortUnique(s.relationships);
    SortUniqueIsSorted(s.relationships);
    forall i | 0 <= i < |es| ensures IsAddressEdge(es[i]) {
      assert es[i] in EdgeSet(es);
      assert es[i] in s.relationships;
    }
  }

  /** Printed addresses keep their relationships, and declare no lineage if and only if each is built on its row's id. */
  lemma {:induction false} AddressOutcomeOfExport(slugs: seq<Slug>, rels: seq<TemplateRel>)
    requires forall i | 0 <= i < |slugs| :: HasAddress(slugs[i])
    requires forall r | r in ToDocRows(AddressMode, rels, slugs) :: |r.source| == 32
    ensures AddressLineage(Cores(slugs), ToDocRows(AddressMode, rels, slugs)) == [] <==>
            forall i | 0 <= i < |slugs| :: IsAddressed(slugs[i])
    ensures AddressOutcome(ToDocRows(AddressMode, rels, slugs)) == PrintedAddressRels(slugs)
    decreases |slugs|
  {
    hide SortUnique, AddressRels, IsAddressEdge;
    if slugs != [] {
      var rows := ToDocRows(AddressMode, rels, slugs);
      assert rows[1..] == ToDocRows(AddressMode, rels, slugs[1..]);
      assert Cores(slugs)[1..] == Cores(slugs[1..]);
      AddressOutcomeOfExport(slugs[1..], rels);
      assert rows[0].source == slugs[0].addressId;
      assert forall i | 0 < i < |slugs| :: slugs[i] == slugs[1..][i - 1];
    }
  }

  /** What reading an address export gives, as long as its rows are shaped like parser output. */
  lemma AddressReimport(hash: Hash, expected: string, name: string, ordered: seq<Slug>, rels: seq<TemplateRel>)
    requires IsFieldText(name) && name != "" && (expected == "" || expected == name)
    requires ordered != [] && forall s | s in ordered :: IsEmitted(hash, name, Core(s)) && HasAddress(s)
    ensures var r := ParseText(hash, expected, ExportText(AddressMode, name, ordered, rels));
            && r.Ok? && r.value.checklist == name && r.value.address == PrintedAddressRels(ordered)
            && (r.value.slugs == Cores(ordered) <==> forall s | s in ordered :: AreStable(s.instructions))
            && (r.value.slugs == Cores(ordered) ==>
                  (r.value.template == [] <==> forall s | s in ordered :: IsAddressed(s)))
  {
    hide IsEmitted, ToDocRow, IsAddressDocRow, ParseText, DocLines, Unlines, Core, AreStable, IsAddressed, HasAddress,
         IsFieldText, ReparsedAll, StripRows, PrintedAddressRels, AddressLineage, AddressOutcome;
    var rows := ToDocRows(AddressMode, rels, ordered);
    forall i | 0 <= i < |rows| ensures IsAddressDocRow(rows[i]) {
      assert ordered[i] in ordered;
      AddressExportedRow(hash, name, rels, ordered[i]);
    }
    EditAndReimportAddresses(hash, expected, name, rows);
    ReparsedRows(hash, name, AddressMode, ordered, rels);
    assert forall i | 0 <= i < |ordered| :: ordered[i] in ordered;
    AddressOutcomeOfExport(ordered, rels);
  }

  /** The address-mode round trip. */
  lemma AddressRoundTrip(hash: Hash, expected: string, name: string, ordered: seq<Slug>, rels: seq<TemplateRel>)
    requires IsFieldText(name) && name != "" && (expected == "" || expected == name)
    requires ordered != [] && forall s | s in ordered :: IsWellFormed(hash, name, s) && IsAddressed(s)
    ensures ParseText(hash, expected, ExportText(AddressMode, name, ordered, rels))
            == Ok(Parsed(name, Cores(ordered), [], PrintedAddressRels(ordered)))
  {
    hide IsEmitted, ParseText, ExportText, Core, AreStable, HasAddress, IsFieldText, PrintedAddressRels, Cores;
    AddressReimport(hash, expected, name, ordered, rels);
  }

  /** Its exact condition: the rows come back as they were if and only if all are well formed, and nothing but rows and
    * printed relationships comes back if and only if moreover each address is built on its row's id. */
  lemma AddressRoundTripExactly(hash: Hash, expected: string, name: string, ordered: seq<Slug>, rels: seq<TemplateRel>)
    requires IsFieldText(name) && name != "" && (expected == "" || expected == name)
    requires ordered != [] && forall s | s in ordered :: HasAddress(s)
    ensures var r := ParseText(hash, expected, ExportText(AddressMode, name, ordered, rels));
            && (r.Ok? && r.value.slugs == Cores(ordered) <==> forall s | s in ordered :: IsWellFormed(hash, name, s))
            && (r == Ok(Parsed(name, Cores(ordered), [], PrintedAddressRels(ordered))) <==>
                forall s | s in ordered :: IsWellFormed(hash, name, s) && IsAddressed(s))
  {
    hide IsEmitted, ParseText, ExportText, Core, AreStable, HasAddress, IsAddressed, IsFieldText, PrintedAddressRels, Cores;
    var text := ExportText(AddressMode, name, ordered, rels);
    var r := ParseText(hash, expected, text);
    if r.Ok? && r.value.slugs == Cores(ordered) {
      ParserOutput(hash, expected, text);
      ExportFixesName(hash, expected, name, AddressMode, ordered, rels);
      CoresMembers(ordered);
    }
    if forall s | s in ordered :: IsEmitted(hash, name, Core(s)) {
      AddressReimport(hash, expected, name, ordered, rels);
    }
  }

  lemma ExportFixesName(hash: Hash, expected: string, name: string, mode: Mode, ordered: seq<Slug>, rels: seq<TemplateRel>)
    requires IsFieldText(name) && name != "" && (expected == "" || expected == name)
    requires ParseText(hash, expected, ExportText(mode, name, ordered, rels)).Ok?
    ensures ParseText(hash, expected, ExportText(mode, name, ordered, rels)).value.checklist == name
  {
    hide IsFieldText, ParseText, DocLines, Unlines;
    TitleFixesName(hash, expected, name, ToDocRows(mode, rels, ordered));
  }
}
