/** From document lines to text and back: newlines, carriage returns, and what they do to instructions. */
module MarkdownText {
  import opened Text
  import opened Checklist
  import opened MarkdownParser
  import opened MarkdownLinks
  import opened MarkdownExport
  import opened MarkdownSteps
  import opened MarkdownRow
  import opened MarkdownDocument
  import opened MarkdownOutput

  // ----- carriage returns --------------------------------------------------

  lemma StripCrsConcat(a: seq<string>, b: seq<string>)
    ensures StripCrs(a + b) == StripCrs(a) + StripCrs(b)
  {
    hide StripCr;
  }

  lemma TrimStripCr(l: string)
    ensures Trim(StripCr(l)) == Trim(l)
  {
    if l != "" && l[|l| - 1] == '\r' {
      TrimLeftInit(l);
      var t := TrimLeft(l);
      if t != "" {
        TrimRightStep(t);
      }
    }
  }

  /** Dropping a final whitespace character commutes with trimming on the left. */
  lemma {:induction false} TrimLeftInit(l: string)
    requires l != "" && IsSpace(l[|l| - 1])
    ensures var t := TrimLeft(l);
            (t == "" ==> TrimLeft(l[..|l| - 1]) == "") &&
            (t != "" ==> t[|t| - 1] == l[|l| - 1] && TrimLeft(l[..|l| - 1]) == t[..|t| - 1])
  {
    if IsSpace(l[0]) && |l| > 1 {
      TrimLeftInit(l[1..]);
      assert l[..|l| - 1][1..] == l[1..][..|l| - 2];
    }
  }

  /** A line the text layer hands through unchanged. */
  predicate IsPlain(l: string) {
    '\n' !in l && StripCr(l) == l
  }

  predicate ArePlain(ls: seq<string>) {
    forall i | 0 <= i < |ls| :: IsPlain(ls[i])
  }

  lemma PlainPrefixed(p: string, v: string)
    requires p != "" && p[|p| - 1] != '\r' && '\n' !in p && IsFieldText(v)
    ensures IsPlain(p + v)
  {
    if v != "" {
      assert (p + v)[|p + v| - 1] == v[|v| - 1];
    } else {
      assert p + v == p;
    }
  }

  lemma HeadLinesArePlain(s: Slug)
    requires IsRowText(s)
    ensures ArePlain(HeadLines(s))
  {
    hide IsFieldText, IsPlain, StatusText;
    PlainPrefixed("### Procedure: ", s.procedure);
    PlainPrefixed("- Action: ", s.action);
    PlainPrefixed("- Spec: ", s.spec);
    PlainPrefixed("- Result: ", s.result);
    StatusTextIsFieldText(s.status);
    PlainPrefixed("- Status: ", StatusText(s.status));
    PlainPrefixed("- Comment: ", s.comment);
    FixedLinesArePlain();
  }

  lemma StatusTextIsFieldText(s: Status)
    ensures IsFieldText(StatusText(s))
  {
  }

  lemma FixedLinesArePlain()
    ensures IsPlain("") && IsPlain("#### Instructions") && IsPlain(RELATIONSHIPS) && IsPlain("---")
  {
  }

  lemma EdgeLinesArePlain(es: seq<Edge>)
    requires forall e | e in es :: IsEdgeText(e)
    ensures ArePlain(EdgeLines(es))
  {
    hide IsPlain, EdgeText, IsEdgeText, IsTrimmed;
    forall i | 0 <= i < |es| ensures IsPlain(EdgeLines(es)[i]) {
      EdgeTextIsTrimmed(es[i]);
      PlainPrefixed("- ", EdgeText(es[i]));
    }
  }

  lemma StripPlain(ls: seq<string>)
    requires ArePlain(ls)
    ensures StripCrs(ls) == ls
  {
    hide StripCr;
  }

  // ----- a document as text ------------------------------------------------

  predicate OnOneLine(ls: seq<string>) {
    forall l | l in ls :: '\n' !in l
  }

  lemma PlainIsOnOneLine(ls: seq<string>)
    requires ArePlain(ls)
    ensures OnOneLine(ls)
  {
    hide StripCr;
  }

  function StripRow(r: DocRow): DocRow {
    r.(lines := StripCrs(r.lines))
  }

  function StripRows(rows: seq<DocRow>): (stripped: seq<DocRow>)
    ensures |stripped| == |rows|
  {
    seq(|rows|, i requires 0 <= i < |rows| => StripRow(rows[i]))
  }

  /** Printable, with instruction lines that are lines. */
  predicate IsDocRow(r: DocRow) {
    IsPrintable(r) && OnOneLine(r.lines)
  }

  predicate AreDocRows(rows: seq<DocRow>) {
    forall i | 0 <= i < |rows| :: IsDocRow(rows[i])
  }

  lemma OnOneLineConcat(a: seq<string>, b: seq<string>)
    ensures OnOneLine(a + b) <==> OnOneLine(a) && OnOneLine(b)
  {
    assert forall l | l in a :: l in a + b;
    assert forall l | l in b :: l in a + b;
  }

  lemma RowTail(r: DocRow)
    requires IsPrintable(r)
    ensures ArePlain(["", RELATIONSHIPS, "- " + r.source] + (EdgeLines(r.edges) + ["", ""]))
  {
    hide IsPlain, IsFieldText, EdgeLines, IsEdgeText, IsRowText, NoBoundary;
    FixedLinesArePlain();
    PlainPrefixed("- ", r.source);
    EdgeLinesArePlain(r.edges);
  }

  lemma RowLinesText(r: DocRow)
    requires IsDocRow(r)
    ensures OnOneLine(RowLines(r)) && StripCrs(RowLines(r)) == RowLines(StripRow(r))
  {
    hide HeadLines, EdgeLines, IsRowText, IsPlain, OnOneLine, StripCrs, IsFieldText, NoBoundary, ArePlain;
    var head, tail := HeadLines(r.slug), ["", RELATIONSHIPS, "- " + r.source] + (EdgeLines(r.edges) + ["", ""]);
    HeadLinesArePlain(r.slug);
    RowTail(r);
    assert RowLines(r) == head + (r.lines + tail);
    assert RowLines(StripRow(r)) == head + (StripCrs(r.lines) + tail);
    PlainIsOnOneLine(head);
    PlainIsOnOneLine(tail);
    OnOneLineConcat(r.lines, tail);
    OnOneLineConcat(head, r.lines + tail);
    StripCrsConcat(r.lines, tail);
    StripCrsConcat(head, r.lines + tail);
    StripPlain(head);
    StripPlain(tail);
  }

  lemma SectionLinesText(section: string, current: string)
    requires IsFieldText(section)
    ensures ArePlain(SectionLines(section, current))
  {
    hide IsPlain, IsFieldText;
    FixedLinesArePlain();
    PlainPrefixed("## Section: ", section);
  }

  lemma RowBlockText(r: DocRow, current: string, more: bool)
    requires IsDocRow(r)
    ensures OnOneLine(RowBlock(r, current, more))
    ensures StripCrs(RowBlock(r, current, more)) == RowBlock(StripRow(r), current, more)
  {
    hide RowLines, SectionLines, OnOneLine, StripCrs, IsPlain, IsFieldText, NoBoundary, IsEdgeText;
    var a, b, c := SectionLines(r.slug.section, current), RowLines(r), if more then ["---", ""] else [];
    SectionLinesText(r.slug.section, current);
    FixedLinesArePlain();
    assert ArePlain(c);
    RowLinesText(r);
    PlainIsOnOneLine(a);
    PlainIsOnOneLine(c);
    OnOneLineConcat(a, b);
    OnOneLineConcat(a + b, c);
    StripCrsConcat(a, b);
    StripCrsConcat(a + b, c);
    StripPlain(a);
    StripPlain(c);
  }

  lemma {:induction false} BodyText(rows: seq<DocRow>, current: string)
    requires AreDocRows(rows)
    ensures OnOneLine(BodyLines(rows, current))
    ensures StripCrs(BodyLines(rows, current)) == BodyLines(StripRows(rows), current)
    decreases |rows|
  {
    hide RowBlock, OnOneLine, StripCrs, IsDocRow;
    if rows == [] {
      NothingToStrip();
    } else {
      var block, rest := RowBlock(rows[0], current, |rows| > 1), BodyLines(rows[1..], rows[0].slug.section);
      RowBlockText(rows[0], current, |rows| > 1);
      BodyText(rows[1..], rows[0].slug.section);
      OnOneLineConcat(block, rest);
      StripCrsConcat(block, rest);
      assert StripRows(rows)[1..] == StripRows(rows[1..]);
    }
  }

  lemma NothingToStrip()
    ensures OnOneLine([]) && StripCrs([]) == []
  {
  }

  lemma NoBom(name: string, rest: seq<string>)
    ensures var text := Unlines(["# Checklist: " + name, ""] + rest); StripBom(text) == text
  {
    var ls := ["# Checklist: " + name, ""] + rest;
    assert ls[0] == "# Checklist: " + name;
    assert Unlines(ls)[0] == '#';
  }

  /** Reading the text of a document gives back its lines, up to carriage returns in instructions. */
  lemma DocumentText(name: string, rows: seq<DocRow>)
    requires IsFieldText(name) && AreDocRows(rows)
    ensures InputLines(Unlines(DocLines(name, rows))) == DocLines(name, StripRows(rows))
  {
    hide BodyLines, OnOneLine, StripCrs, IsFieldText, Lines, Unlines, StripBom, IsDocRow;
    var title := ["# Checklist: " + name, ""];
    var body := BodyLines(rows, "");
    TitleIsPlain(name);
    BodyText(rows, "");
    PlainIsOnOneLine(title);
    OnOneLineConcat(title, body);
    StripCrsConcat(title, body);
    StripPlain(title);
    NoBom(name, body);
    OnOneLineMeansLines(title + body);
  }

  lemma TitleIsPlain(name: string)
    requires IsFieldText(name)
    ensures ArePlain(["# Checklist: " + name, ""])
  {
    hide IsPlain, IsFieldText;
    PlainPrefixed("# Checklist: ", name);
    FixedLinesArePlain();
  }

  lemma OnOneLineMeansLines(ls: seq<string>)
    requires OnOneLine(ls)
    ensures Lines(Unlines(ls)) == ls
  {
    LinesOfUnlines(ls);
  }

  lemma StripRowIsPrintable(r: DocRow)
    requires IsDocRow(r)
    ensures IsPrintable(StripRow(r))
  {
    hide IsRowText, IsFieldText, IsEdgeText, IsBoundary, Trim, StripCr;
    forall i | 0 <= i < |r.lines| ensures !IsBoundary(Trim(StripRow(r).lines[i])) {
      TrimStripCr(r.lines[i]);
    }
  }

  // ----- which instructions survive ----------------------------------------

  /** No line ends in a carriage return, and the last line is not a rule of dashes. */
  predicate AreStable(s: string) {
    var ls := SplitOn(s, '\n');
    && (forall i | 0 <= i < |ls| :: StripCr(ls[i]) == ls[i])
    && !IsRule(Trim(ls[|ls| - 1]))
  }

  function NormLine(l: string): string {
    if Trim(l) == "" then "" else l
  }

  function NormLines(ls: seq<string>): (r: seq<string>)
    ensures |r| == |ls|
  {
    seq(|ls|, i requires 0 <= i < |ls| => NormLine(ls[i]))
  }

  lemma NotAllBlank(ls: seq<string>)
    requires ls != [] && Trim(ls[|ls| - 1]) != ""
    ensures !AllBlank(ls + [""])
  {
    assert (ls + [""])[|ls| - 1] == ls[|ls| - 1];
  }

  lemma KeptCons(l: string, more: seq<string>)
    requires !AllBlank(more + [""])
    ensures Kept([l] + more + [""]) == [NormLine(l)] + Kept(more + [""])
  {
    hide IsRule, Trim, AllBlank;
    assert ([l] + more + [""])[1..] == more + [""];
  }

  lemma KeptSingle(l: string)
    requires Trim(l) != ""
    ensures Kept([l] + [""]) == if IsRule(Trim(l)) then [] else [l, ""]
  {
    hide IsRule, Trim;
    assert ([l] + [""])[1..] == [""];
    KeptOfBlank();
  }

  lemma NormCons(l: string, more: seq<string>)
    ensures NormLines([l] + more) == [NormLine(l)] + NormLines(more)
  {
    hide NormLine;
  }

  lemma {:induction false} KeptLines(ls: seq<string>)
    requires ls != [] && Trim(ls[|ls| - 1]) != ""
    ensures Kept(ls + [""]) == if IsRule(Trim(ls[|ls| - 1])) then NormLines(ls[..|ls| - 1]) else NormLines(ls) + [""]
  {
    hide IsRule, Trim, AllBlank, Kept, NormLines;
    var l, more := ls[0], ls[1..];
    assert ls == [l] + more;
    if more == [] {
      KeptSingle(l);
      NormSingle(l);
      assert ls == [l] && ls[..0] == [];
    } else {
      var last := |more| - 1;
      NotAllBlank(more);
      KeptLines(more);
      KeptCons(l, more);
      NormCons(l, more);
      NormCons(l, more[..last]);
      assert ls[..|ls| - 1] == [l] + more[..last];
      assert more[last] == ls[|ls| - 1];
    }
  }

  lemma NormSingle(l: string)
    requires Trim(l) != ""
    ensures NormLines([l]) == [l] && NormLines([]) == []
  {
    hide Trim;
  }

  lemma KeptOfBlank()
    ensures Kept([""]) == [""] && AllBlank([""])
  {
    TrimIsIdentity("");
    assert [""][1..] == [];
  }

  lemma KeptOfTwoBlanks()
    ensures Kept(["", ""]) == ["", ""]
  {
    TrimIsIdentity("");
    KeptOfBlank();
    assert ["", ""][1..] == [""];
  }

  lemma DropFinalEmpty(ls: seq<string>)
    requires ls == [] || ls[|ls| - 1] != ""
    ensures DropTrailingEmpty(ls + [""]) == ls && DropTrailingEmpty(ls) == ls
  {
    assert (ls + [""])[..|ls|] == ls;
  }

  /** The lines of an emitted instructions text, after carriage returns are gone. */
  lemma StrippedLines(s: string)
    requires IsInstructions(s) && s != ""
    ensures var ls := SplitOn(s, '\n');
            var stripped := StripCrs(ls);
            && Trim(stripped[|ls| - 1]) == Trim(ls[|ls| - 1]) != ""
            && NormLines(stripped) == stripped
            && forall l | l in stripped :: '\n' !in l
  {
    hide IsBoundary, SplitOn, Trim, StripCr;
    var ls := SplitOn(s, '\n');
    assert IsInstructionLine(ls[|ls| - 1]);
    forall i | 0 <= i < |ls|
      ensures Trim(StripCr(ls[i])) == Trim(ls[i])
      ensures NormLine(StripCr(ls[i])) == StripCr(ls[i])
      ensures '\n' !in StripCr(ls[i])
    {
      TrimStripCr(ls[i]);
      assert IsInstructionLine(ls[i]);
      StripCrIsPart(ls[i]);
    }
  }

  lemma StripCrIsPart(l: string)
    ensures StripCr(l) <= l && StripCr("") == ""
  {
  }

  lemma EmptyIsStable()
    ensures AreStable("") && Stored(StripCrs(SplitOn("", '\n'))) == ""
  {
    SplitEmpty();
    assert StripCrs([""]) == [""];
    assert [""] + [""] == ["", ""];
    KeptOfTwoBlanks();
    assert ["", ""][..1] == [""] && [""][..0] == [];
    TrimIsIdentity("");
  }

  lemma JoinIsInjective(a: seq<string>, b: seq<string>)
    requires a != [] && b != []
    requires (forall l | l in a :: '\n' !in l) && (forall l | l in b :: '\n' !in l)
    requires JoinWith(a, '\n') == JoinWith(b, '\n')
    ensures a == b
  {
    SplitOfJoin(a, '\n');
    SplitOfJoin(b, '\n');
  }

  /** Instructions come back unchanged exactly when they are stable. */
  lemma StoredExactly(s: string)
    requires IsInstructions(s)
    ensures Stored(StripCrs(SplitOn(s, '\n'))) == s <==> AreStable(s)
  {
    hide IsRule, Trim, StripCr, IsInstructions, Kept, SplitOn, StripCrs, NormLine, JoinWith;
    if s == "" {
      EmptyIsStable();
    } else {
      var ls := SplitOn(s, '\n');
      var stripped := StripCrs(ls);
      StrippedLines(s);
      KeptLines(stripped);
      JoinOfSplit(s, '\n');
      var last := stripped[|ls| - 1];
      NonBlankIsNotEmpty(last);
      if !IsRule(Trim(last)) {
        DropFinalEmpty(stripped);
        SameLines(s, stripped);
      } else {
        RuleIsLost(s, stripped);
      }
    }
  }

  lemma NonBlankIsNotEmpty(l: string)
    ensures Trim(l) != "" ==> l != ""
  {
  }

  lemma SameLines(s: string, stripped: seq<string>)
    requires stripped == StripCrs(SplitOn(s, '\n')) && forall l | l in stripped :: '\n' !in l
    ensures JoinWith(stripped, '\n') == s <==> forall i | 0 <= i < |stripped| :: StripCr(SplitOn(s, '\n')[i]) == SplitOn(s, '\n')[i]
  {
    hide StripCr, SplitOn, JoinWith;
    var ls := SplitOn(s, '\n');
    JoinOfSplit(s, '\n');
    if JoinWith(stripped, '\n') == s {
      JoinIsInjective(stripped, ls);
    }
    if forall i | 0 <= i < |stripped| :: StripCr(ls[i]) == ls[i] {
      assert stripped == ls;
    }
  }

  lemma RuleIsLost(s: string, stripped: seq<string>)
    requires s != "" && stripped == StripCrs(SplitOn(s, '\n')) && NormLines(stripped) == stripped
    requires forall l | l in stripped :: '\n' !in l
    ensures JoinWith(DropTrailingEmpty(NormLines(stripped[..|stripped| - 1])), '\n') != s
  {
    hide StripCr, SplitOn, JoinWith, NormLine;
    var n := |stripped|;
    var init := stripped[..n - 1];
    assert NormLines(init) == init by {
      assert forall i | 0 <= i < n - 1 :: NormLines(init)[i] == NormLines(stripped)[i];
    }
    DropTrailingEmptyKeeps(init);
    var d := DropTrailingEmpty(init);
    JoinEmpty();
    if d != [] {
      if JoinWith(d, '\n') == s {
        SplitOfJoin(d, '\n');
      }
    }
  }
}
