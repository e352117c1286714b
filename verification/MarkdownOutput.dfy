/** What every row the parser emits looks like, whatever the input was. */
module MarkdownOutput {
  import opened Text
  import opened Checklist
  import opened MarkdownParser
  import opened MarkdownLinks
  import opened MarkdownSteps
  import opened MarkdownRow

  /** An instruction line: on one line, no heading, and empty when it is blank. */
  predicate IsInstructionLine(l: string) {
    '\n' !in l && !IsBoundary(Trim(l)) && (Trim(l) == "" ==> l == "")
  }

  predicate AreInstructionLines(ls: seq<string>) {
    forall i | 0 <= i < |ls| :: IsInstructionLine(ls[i])
  }

  predicate IsInstructions(s: string) {
    var ls := SplitOn(s, '\n');
    AreInstructionLines(ls) && (s == "" || ls[|ls| - 1] != "")
  }

  /** A row as the parser emits it. */
  predicate IsEmitted(hash: Hash, checklist: string, s: Slug) {
    && IsRowText(s)
    && IsInstructions(s.instructions)
    && s == Slug(ComputeSlugId(hash, checklist, s.section, s.procedure, s.action, s.spec, s.instructions), "", "", 0,
                 checklist, s.section, s.procedure, s.action, s.spec, s.result, s.status, s.comment,
                 s.instructions, [])
  }

  predicate GoodBuilder(b: Builder) {
    && IsFieldText(b.section) && IsFieldText(b.procedure) && IsFieldText(b.action) && IsFieldText(b.spec)
    && IsFieldText(b.result) && IsFieldText(b.comment)
    && (b.bullets >= 1 ==> b.action != "")
    && (b.bullets >= 2 ==> b.spec != "")
    && AreInstructionLines(b.instructionLines)
  }

  predicate GoodState(hash: Hash, st: State) {
    && (forall s | s in st.slugs :: IsEmitted(hash, st.checklist, s))
    && (forall sec | sec in st.relSections :: IsBase32Id(sec.subject, 16))
    && IsFieldText(st.section)
    && GoodBuilder(st.builder)
    && (st.checklistSeen ==> st.checklist != "" && IsFieldText(st.checklist))
    && (st.slugs != [] || st.builder.procedure != "" ==> st.checklistSeen)
  }

  // ----- closing a row -----------------------------------------------------

  lemma {:induction false} DropTrailingEmptyKeeps(ls: seq<string>)
    ensures var d := DropTrailingEmpty(ls);
            d <= ls && (d == [] || d[|d| - 1] != "") && (AreInstructionLines(ls) ==> AreInstructionLines(d))
  {
    hide IsInstructionLine;
    if ls != [] && ls[|ls| - 1] == "" {
      DropTrailingEmptyKeeps(ls[..|ls| - 1]);
    }
  }

  lemma SplitEmpty()
    ensures SplitOn("", '\n') == [""]
  {
  }

  lemma JoinEmpty()
    ensures JoinWith([], '\n') == ""
  {
  }

  lemma PlainLines(ls: seq<string>)
    requires AreInstructionLines(ls)
    ensures forall l | l in ls :: '\n' !in l
  {
    hide IsBoundary, Trim;
  }

  lemma JoinedIsInstructions(ls: seq<string>)
    requires AreInstructionLines(ls) && (ls == [] || ls[|ls| - 1] != "")
    ensures IsInstructions(JoinWith(ls, '\n'))
  {
    hide IsInstructionLine, SplitOn, JoinWith;
    PlainLines(ls);
    if ls == [] {
      SplitEmpty();
      assert JoinWith(ls, '\n') == "" by { JoinEmpty(); }
      BlankIsInstructionLine();
    } else {
      SplitOfJoin(ls, '\n');
    }
  }

  lemma FlushKeeps(hash: Hash, st: State)
    requires GoodState(hash, st)
    ensures var f := Flush(hash, st);
            f.Ok? ==> GoodState(hash, f.value) && f.value.checklistSeen == st.checklistSeen &&
                      f.value.checklist == st.checklist && f.value.builder.procedure == "" &&
                      f.value.inFrontMatter == st.inFrontMatter
  {
    hide IsInstructions, AreInstructionLines, IsTrimmed, ComputeSlugId, ParseStatus, DropTrailingEmpty, JoinWith;
    var b := st.builder;
    if b.procedure != "" && FinalizeSlug(hash, st.checklist, b).Ok? {
      var kept := DropTrailingEmpty(b.instructionLines);
      DropTrailingEmptyKeeps(b.instructionLines);
      JoinedIsInstructions(kept);
      NoInstructionLines();
    }
  }

  lemma NoInstructionLines()
    ensures AreInstructionLines([]) && GoodBuilder(EMPTY_BUILDER)
  {
  }

  // ----- one line ----------------------------------------------------------

  lemma TrimmedTail(t: string, k: nat)
    requires '\n' !in t && k <= |t|
    ensures IsFieldText(Trim(t[k..]))
  {
    TrimIsPart(t[k..], '\n');
  }

  lemma HeadingNameIsFieldText(t: string)
    requires '\n' !in t && Classify(t) != NoHeading
    ensures IsFieldText(Classify(t).name)
  {
    hide Trim, IsFieldText;
    if "# Checklist:" <= t { TrimmedTail(t, 12); }
    else if "# " <= t { TrimmedTail(t, 2); }
    else if "## Section:" <= t { TrimmedTail(t, 11); }
    else if "## " <= t { TrimmedTail(t, 3); }
    else if "### Procedure:" <= t { TrimmedTail(t, 14); }
    else if "### " <= t { TrimmedTail(t, 4); }
    else { TrimmedTail(t, 5); }
  }

  lemma HeadingKeeps(hash: Hash, h: Heading, st: State)
    requires GoodState(hash, st) && h != NoHeading && IsFieldText(h.name)
    ensures var r := OnHeading(hash, h, st);
            r.Ok? ==> GoodState(hash, r.value) && (st.checklist != "" ==> r.value.checklist == st.checklist)
  {
    hide IsEmitted, Flush, IsFieldText;
    FlushKeeps(hash, st);
    NoInstructionLines();
  }

  lemma BulletValueIsFieldText(t: string)
    requires '\n' !in t && ParseBullet(t).Some?
    ensures IsFieldText(ParseBullet(t).value.value)
  {
    hide StripEmphasis, Trim;
    TrimLeftIsSuffix(t[1..]);
    var rest := TrimLeft(t[1..]);
    assert '\n' !in rest;
    TrimmedTail(rest, IndexOf(rest, ':') + 1);
  }

  lemma BulletKeeps(hash: Hash, t: string, st: State)
    requires GoodState(hash, st) && '\n' !in t
    ensures var r := OnBullet(t, st);
            r.Ok? ==> GoodState(hash, r.value) && r.value.checklist == st.checklist
  {
    hide ParseBullet, IsEmitted, AreInstructionLines, IsTrimmed;
    if ParseBullet(t).Some? {
      BulletValueIsFieldText(t);
    }
  }

  lemma RelationshipFieldsKeep(hash: Hash, st: State, seen: bool, source: string, lines: seq<string>)
    requires GoodState(hash, st)
    ensures GoodState(hash, st.(builder := st.builder.(sourceSeen := seen, sourceLine := source,
                                                       relationshipLines := lines)))
  {
    hide IsEmitted, IsFieldText, AreInstructionLines;
  }

  lemma RelationshipKeeps(hash: Hash, t: string, st: State)
    requires GoodState(hash, st)
    ensures GoodState(hash, OnRelationshipLine(t, st)) && OnRelationshipLine(t, st).checklist == st.checklist
  {
    hide GoodState, Trim;
    var b := OnRelationshipLine(t, st).builder;
    RelationshipFieldsKeep(hash, st, b.sourceSeen, b.sourceLine, b.relationshipLines);
  }

  lemma ContentKeeps(hash: Hash, t: string, st: State)
    requires GoodState(hash, st) && '\n' !in t
    ensures var r := OnContent(hash, t, st);
            r.Ok? ==> GoodState(hash, r.value) && (st.checklist != "" ==> r.value.checklist == st.checklist)
  {
    hide Classify, OnHeading, OnBullet, GoodState, IsFieldText, OnRelationshipLine;
    if Classify(t) != NoHeading {
      HeadingNameIsFieldText(t);
      HeadingKeeps(hash, Classify(t), st);
    } else if st.inRelationships {
      RelationshipKeeps(hash, t, st);
    } else {
      BulletKeeps(hash, t, st);
    }
  }

  lemma InstructionLineAppended(ls: seq<string>, l: string)
    requires AreInstructionLines(ls) && IsInstructionLine(l)
    ensures AreInstructionLines(ls + [l])
  {
    hide IsInstructionLine;
  }

  /** The bookkeeping flags do not matter to the invariant. */
  lemma FlagsKeep(hash: Hash, st: State, inFrontMatter: bool, inInstructions: bool, inRelationships: bool,
                  frontName: string, frontItem: bool)
    requires GoodState(hash, st)
    ensures GoodState(hash, st.(inFrontMatter := inFrontMatter, inInstructions := inInstructions,
                                inRelationships := inRelationships, frontMatterName := frontName,
                                frontMatterIsItem := frontItem))
  {
    hide IsEmitted, GoodBuilder, IsFieldText;
  }

  lemma AppendKeeps(hash: Hash, st: State, l: string)
    requires GoodState(hash, st) && IsInstructionLine(l)
    ensures GoodState(hash, Appended(st, l))
  {
    hide IsEmitted, IsFieldText, AreInstructionLines, IsInstructionLine;
    InstructionLineAppended(st.builder.instructionLines, l);
  }

  lemma StepKeeps(hash: Hash, raw: string, rest: seq<string>, st: State)
    requires GoodState(hash, st) && '\n' !in raw
    ensures var r := Step(hash, raw, rest, st);
            r.Ok? ==> GoodState(hash, r.value) && (st.checklist != "" ==> r.value.checklist == st.checklist)
  {
    hide OnContent, IsRule, NextNonEmpty, IsBoundary, GoodState, Trim, FrontMatterKey, IndexOf, LeaveInstructions;
    var t := Trim(raw);
    TrimIsPart(raw, '\n');
    if !st.checklistSeen && st.builder.procedure == "" && t == "---" {
      FlagsKeep(hash, st, !st.inFrontMatter, st.inInstructions, st.inRelationships, st.frontMatterName, st.frontMatterIsItem);
    } else if st.inFrontMatter {
      var f := OnFrontMatterLine(t, st);
      FlagsKeep(hash, st, f.inFrontMatter, f.inInstructions, f.inRelationships, f.frontMatterName, f.frontMatterIsItem);
    } else if t == "" {
      BlankIsInstructionLine();
      AppendKeeps(hash, st, "");
    } else if IsRule(t) && (st.inRelationships || !st.inInstructions) {
    } else if IsRule(t) && IsBoundary(NextNonEmpty(rest)) {
      FlagsKeep(hash, st, st.inFrontMatter, false, st.inRelationships, st.frontMatterName, st.frontMatterIsItem);
    } else if st.inInstructions && !IsBoundary(t) {
      AppendKeeps(hash, st, raw);
    } else {
      LeaveKeeps(hash, t, st);
      ContentKeeps(hash, t, if st.inInstructions then LeaveInstructions(t, st) else st);
    }
  }

  lemma LeaveKeeps(hash: Hash, t: string, st: State)
    requires GoodState(hash, st)
    ensures GoodState(hash, LeaveInstructions(t, st)) && LeaveInstructions(t, st).checklist == st.checklist
  {
    hide IsEmitted, GoodBuilder, IsFieldText;
  }

  lemma BlankIsInstructionLine()
    ensures IsInstructionLine("")
  {
    TrimIsIdentity("");
  }

  lemma {:induction false} RunKeeps(hash: Hash, lines: seq<string>, st: State)
    requires GoodState(hash, st) && forall l | l in lines :: '\n' !in l
    ensures var r := Run(hash, lines, st);
            r.Ok? ==> GoodState(hash, r.value) && (st.checklist != "" ==> r.value.checklist == st.checklist)
    decreases |lines|
  {
    hide GoodState, Step;
    if lines != [] {
      StepKeeps(hash, lines[0], lines[1..], st);
      var next := Step(hash, lines[0], lines[1..], st);
      if next.Ok? {
        RunKeeps(hash, lines[1..], next.value);
      }
    }
  }

  lemma InitialIsGood(hash: Hash, expected: string)
    ensures GoodState(hash, InitialState(expected))
  {
  }

  lemma InputLinesAreLines(content: string)
    ensures forall l | l in InputLines(content) :: '\n' !in l
  {
    var ls := Lines(StripBom(content));
    forall l | l in InputLines(content) ensures '\n' !in l {
      var i :| 0 <= i < |ls| && l == StripCr(ls[i]);
      assert ls[i] in ls;
      assert l <= ls[i];
    }
  }

  /** Every row of every successful parse is well shaped: trimmed one-line fields, the required ones non-empty,
      instructions without headings or padding, and the identifier computed from the content. */
  lemma ParserOutput(hash: Hash, expected: string, content: string)
    requires ParseText(hash, expected, content).Ok?
    ensures var p := ParseText(hash, expected, content).value;
            && p.slugs != [] && p.checklist != "" && IsFieldText(p.checklist)
            && (expected != "" ==> p.checklist == expected)
            && forall s | s in p.slugs :: IsEmitted(hash, p.checklist, s)
  {
    hide InputLines, IsEmitted, IsFieldText, AllLinks, GoodBuilder, Flush, Run;
    InitialIsGood(hash, expected);
    InputLinesAreLines(content);
    RunKeeps(hash, InputLines(content), InitialState(expected));
    FlushKeeps(hash, Run(hash, InputLines(content), InitialState(expected)).value);
  }
}
