/** Reading back one printed row. */
module MarkdownRow {
  import opened Text
  import opened Checklist
  import opened MarkdownParser
  import opened MarkdownLinks
  import opened MarkdownExport
  import opened MarkdownSteps

  predicate AllBlank(ls: seq<string>) {
    forall i | 0 <= i < |ls| :: Trim(ls[i]) == ""
  }

  predicate NoBoundary(ls: seq<string>) {
    forall i | 0 <= i < |ls| :: !IsBoundary(Trim(ls[i]))
  }

  /** The instruction lines that survive when a heading follows: blank lines become empty, and a rule with
      nothing but blanks behind it closes the block. */
  function Kept(ls: seq<string>): seq<string> {
    if ls == [] then []
    else if Trim(ls[0]) == "" then [""] + Kept(ls[1..])
    else if IsRule(Trim(ls[0])) && AllBlank(ls[1..]) then []
    else [ls[0]] + Kept(ls[1..])
  }

  /** The state after an instructions block and the relationships heading below it. */
  function Related(st: State, kept: seq<string>): State {
    st.(inRelationships := true, inInstructions := false,
        builder := st.builder.(instructionLines := st.builder.instructionLines + kept, relationshipsSeen := true,
                               sourceSeen := false, sourceLine := "", relationshipLines := []))
  }

  predicate InBlock(st: State) {
    st.checklistSeen && !st.inFrontMatter && st.inInstructions && st.builder.procedure != "" &&
    st.builder.instructionsSeen
  }

  const RELATIONSHIPS := "#### Relationships"

  lemma {:induction false} NextAfterBlanks(ls: seq<string>, rest: seq<string>)
    requires NoBoundary(ls)
    ensures IsBoundary(NextNonEmpty(ls + [RELATIONSHIPS] + rest)) <==> AllBlank(ls)
  {
    var all := ls + [RELATIONSHIPS] + rest;
    if ls == [] {
      ClassifyRelationships();
      assert all[0] == RELATIONSHIPS;
    } else {
      assert all[0] == ls[0] && all[1..] == ls[1..] + [RELATIONSHIPS] + rest;
      if Trim(ls[0]) == "" {
        NextAfterBlanks(ls[1..], rest);
      }
    }
  }

  lemma {:induction false} RunBlanks(hash: Hash, ls: seq<string>, rest: seq<string>, st: State)
    requires Ready(st) && AllBlank(ls)
    ensures Run(hash, ls + rest, st) == Run(hash, rest, st)
  {
    if ls == [] {
      assert ls + rest == rest;
    } else {
      assert ls + rest == [ls[0]] + (ls[1..] + rest);
      RunCons(hash, ls[0], ls[1..] + rest, st, st);
      RunBlanks(hash, ls[1..], rest, st);
    }
  }

  lemma StepRelationshipsHeading(hash: Hash, rest: seq<string>, st: State)
    requires st.checklistSeen && !st.inFrontMatter && st.builder.procedure != "" && st.builder.instructionsSeen
    ensures Step(hash, RELATIONSHIPS, rest, st) == Ok(Related(st, []))
  {
    hide Flush, IsRule, IsBoundary, Step, Trim;
    ClassifyRelationships();
    assert st.builder.instructionLines + [] == st.builder.instructionLines;
    HeadingIsContent(hash, RELATIONSHIPS, rest, st);
  }

  lemma HeadingIsContent(hash: Hash, t: string, rest: seq<string>, st: State)
    requires st.checklistSeen && !st.inFrontMatter
    requires Trim(t) == t && t != "" && !IsRule(t) && IsBoundary(t) && Classify(t) != NoHeading
    ensures Step(hash, t, rest, st)
            == OnHeading(hash, Classify(t), if st.inInstructions then LeaveInstructions(t, st) else st)
  {
    hide Classify, OnHeading, LeaveInstructions, IsBoundary, IsRule, Trim;
  }

  /** One instruction line that is kept as it stands. */
  lemma StepKeep(hash: Hash, l: string, rest: seq<string>, st: State)
    requires InBlock(st)
    requires Trim(l) != "" && !IsBoundary(Trim(l))
    requires !(IsRule(Trim(l)) && IsBoundary(NextNonEmpty(rest))) && !(IsRule(Trim(l)) && st.inRelationships)
    ensures Step(hash, l, rest, st)
            == Ok(st.(builder := st.builder.(instructionLines := st.builder.instructionLines + [l])))
  {
  }

  lemma StepBlankInstruction(hash: Hash, l: string, rest: seq<string>, st: State)
    requires InBlock(st) && Trim(l) == ""
    ensures Step(hash, l, rest, st)
            == Ok(st.(builder := st.builder.(instructionLines := st.builder.instructionLines + [""])))
  {
  }

  lemma StepClosingRule(hash: Hash, l: string, rest: seq<string>, st: State)
    requires InBlock(st) && !st.inRelationships
    requires IsRule(Trim(l)) && IsBoundary(NextNonEmpty(rest))
    ensures Step(hash, l, rest, st) == Ok(st.(inInstructions := false))
  {
  }

  function Appended(st: State, l: string): State {
    st.(builder := st.builder.(instructionLines := st.builder.instructionLines + [l]))
  }

  lemma RunKeptLine(hash: Hash, l: string, ls: seq<string>, rest: seq<string>, st: State)
    requires InBlock(st) && !st.inRelationships && NoBoundary([l] + ls)
    requires Trim(l) == "" || !IsRule(Trim(l)) || !AllBlank(ls)
    ensures var below := ls + [RELATIONSHIPS] + rest;
            Run(hash, [l] + below, st) == Run(hash, below, Appended(st, if Trim(l) == "" then "" else l))
  {
    hide Run, Step, NextNonEmpty, IsRule, IsBoundary, AllBlank, InBlock;
    var below := ls + [RELATIONSHIPS] + rest;
    assert ([l] + ls)[0] == l && ([l] + ls)[1..] == ls;
    assert !IsBoundary(Trim(l));
    assert NoBoundary(ls);
    NextAfterBlanks(ls, rest);
    if Trim(l) == "" {
      StepBlankInstruction(hash, l, below, st);
      RunCons(hash, l, below, st, Appended(st, ""));
    } else {
      StepKeep(hash, l, below, st);
      RunCons(hash, l, below, st, Appended(st, l));
    }
  }

  lemma RunClosingRule(hash: Hash, l: string, ls: seq<string>, rest: seq<string>, st: State)
    requires InBlock(st) && !st.inRelationships && NoBoundary(ls)
    requires IsRule(Trim(l)) && AllBlank(ls)
    ensures Run(hash, [l] + (ls + [RELATIONSHIPS] + rest), st) == Run(hash, rest, Related(st, []))
  {
    hide Run, Step, NextNonEmpty, IsRule, NoBoundary, AllBlank;
    var below := ls + [RELATIONSHIPS] + rest;
    var out := st.(inInstructions := false);
    NextAfterBlanks(ls, rest);
    StepClosingRule(hash, l, below, st);
    RunCons(hash, l, below, st, out);
    assert below == ls + ([RELATIONSHIPS] + rest);
    RunBlanks(hash, ls, [RELATIONSHIPS] + rest, out);
    StepRelationshipsHeading(hash, rest, out);
    RunCons(hash, RELATIONSHIPS, rest, out, Related(out, []));
  }

  lemma RelatedAppended(st: State, l: string, kept: seq<string>)
    ensures Related(Appended(st, l), kept) == Related(st, [l] + kept)
  {
    var lines := st.builder.instructionLines;
    assert (lines + [l]) + kept == lines + ([l] + kept);
  }

  lemma {:induction false} RunInstructions(hash: Hash, ls: seq<string>, rest: seq<string>, st: State)
    requires InBlock(st) && !st.inRelationships && NoBoundary(ls)
    ensures Run(hash, ls + [RELATIONSHIPS] + rest, st) == Run(hash, rest, Related(st, Kept(ls)))
  {
    hide Run, Step, IsRule, IsBoundary, AllBlank, Related;
    if ls == [] {
      StepRelationshipsHeading(hash, rest, st);
      RunCons(hash, RELATIONSHIPS, rest, st, Related(st, []));
      assert ls + [RELATIONSHIPS] + rest == [RELATIONSHIPS] + rest;
    } else {
      var l, more := ls[0], ls[1..];
      assert ls == [l] + more;
      assert ls + [RELATIONSHIPS] + rest == [l] + (more + [RELATIONSHIPS] + rest);
      assert NoBoundary(more);
      if Trim(l) != "" && IsRule(Trim(l)) && AllBlank(more) {
        RunClosingRule(hash, l, more, rest, st);
      } else {
        var kept := if Trim(l) == "" then "" else l;
        var next := Appended(st, kept);
        RunKeptLine(hash, l, more, rest, st);
        RunInstructions(hash, more, rest, next);
        RelatedAppended(st, kept, Kept(more));
      }
    }
  }

  // ----- heading and bullets -----------------------------------------------

  predicate IsRowText(s: Slug) {
    && IsFieldText(s.section) && s.section != ""
    && IsFieldText(s.procedure) && s.procedure != ""
    && IsFieldText(s.action) && s.action != ""
    && IsFieldText(s.spec) && s.spec != ""
    && IsFieldText(s.result)
    && IsFieldText(s.comment)
  }

  /** The builder once heading, bullets and the instructions heading are read. */
  function HeadBuilder(s: Slug): Builder {
    Builder(s.section, s.procedure, s.action, s.spec, s.result, StatusText(s.status), s.comment,
            [], false, false, "", [], true, 5)
  }

  lemma StatusTextIsTrimmed(s: Status)
    ensures IsTrimmed(StatusText(s)) && '\n' !in StatusText(s) && '\r' !in StatusText(s)
  {
  }

  lemma RunBullets(hash: Hash, s: Slug, rest: seq<string>, st: State)
    requires Ready(st) && !st.inRelationships && IsRowText(s)
    requires st.builder == EMPTY_BUILDER.(section := s.section, procedure := s.procedure)
    ensures Run(hash, HeadLines(s)[1..6] + rest, st)
            == Run(hash, rest, st.(builder := HeadBuilder(s).(instructionsSeen := false)))
  {
    hide Step, Run, StatusText, IsTrimmed, HeadLines;
    var b2 := st.builder.(action := s.action, spec := s.spec, bullets := 2);
    var l3 := ["- Result: " + s.result] + (["- Status: " + StatusText(s.status)] + (["- Comment: " + s.comment] + rest));
    var l2 := ["- Spec: " + s.spec] + l3;
    BulletLines(s, rest);
    RunOneBullet(hash, "- Action: " + s.action, s.action, l2, st);
    RunOneBullet(hash, "- Spec: " + s.spec, s.spec, l3, st.(builder := Filled(st.builder, s.action)));
    RunLastBullets(hash, s, rest, st.(builder := b2));
  }

  lemma RunLastBullets(hash: Hash, s: Slug, rest: seq<string>, st: State)
    requires Ready(st) && !st.inRelationships && IsRowText(s)
    requires st.builder == EMPTY_BUILDER.(section := s.section, procedure := s.procedure, action := s.action,
                                          spec := s.spec, bullets := 2)
    ensures Run(hash, ["- Result: " + s.result] + (["- Status: " + StatusText(s.status)] +
                      (["- Comment: " + s.comment] + rest)), st)
            == Run(hash, rest, st.(builder := HeadBuilder(s).(instructionsSeen := false)))
  {
    hide Step, Run, StatusText, IsTrimmed;
    StatusTextIsTrimmed(s.status);
    var b3 := Filled(st.builder, s.result);
    var b4 := Filled(b3, StatusText(s.status));
    var l5 := ["- Comment: " + s.comment] + rest;
    var l4 := ["- Status: " + StatusText(s.status)] + l5;
    RunOneBullet(hash, "- Result: " + s.result, s.result, l4, st);
    RunOneBullet(hash, "- Status: " + StatusText(s.status), StatusText(s.status), l5, st.(builder := b3));
    RunOneBullet(hash, "- Comment: " + s.comment, s.comment, rest, st.(builder := b4));
  }

  lemma BulletLines(s: Slug, rest: seq<string>)
    ensures HeadLines(s)[1..6] + rest ==
            ["- Action: " + s.action] + (["- Spec: " + s.spec] + (["- Result: " + s.result] +
            (["- Status: " + StatusText(s.status)] + (["- Comment: " + s.comment] + rest))))
  {
    hide StatusText;
  }

  lemma RunOneBullet(hash: Hash, raw: string, v: string, rest: seq<string>, st: State)
    requires Ready(st) && !st.inRelationships
    requires st.builder.procedure != "" && st.builder.bullets < 5
    requires IsTrimmed(v) && (st.builder.bullets <= 1 ==> v != "")
    requires raw == "- " + FieldName(st.builder.bullets) + ": " + v
    ensures Run(hash, [raw] + rest, st) == Run(hash, rest, st.(builder := Filled(st.builder, v)))
  {
    hide Run, Step, Filled;
    StepBullet(hash, v, rest, st);
    RunCons(hash, raw, rest, st, st.(builder := Filled(st.builder, v)));
  }

  lemma RunProcedureHeading(hash: Hash, name: string, rest: seq<string>, st: State, f: State)
    requires Ready(st) && IsTrimmed(name) && name != ""
    requires Flush(hash, st) == Ok(f) && f.section != ""
    ensures Run(hash, ["### Procedure: " + name] + rest, st)
            == Run(hash, rest, f.(builder := EMPTY_BUILDER.(section := f.section, procedure := name)))
  {
    hide Run, Step, Flush, IsRule;
    var t := "### Procedure: " + name;
    ClassifyProcedure(name);
    StepHeading(hash, t, rest, st);
    RunCons(hash, t, rest, st, f.(builder := EMPTY_BUILDER.(section := f.section, procedure := name)));
  }

  lemma RunInstructionsHeading(hash: Hash, rest: seq<string>, st: State)
    requires Ready(st) && st.builder.procedure != "" && st.builder.bullets == 5 && !st.inRelationships
    ensures Run(hash, ["#### Instructions"] + rest, st)
            == Run(hash, rest, st.(inInstructions := true, builder := st.builder.(instructionsSeen := true)))
  {
    hide Run, Step, Flush, IsRule, Trim, IsBoundary;
    ClassifyInstructions();
    StepHeading(hash, "#### Instructions", rest, st);
    RunCons(hash, "#### Instructions", rest, st,
            st.(inInstructions := true, builder := st.builder.(instructionsSeen := true)));
  }

  lemma RunBlank(hash: Hash, rest: seq<string>, st: State)
    requires Ready(st)
    ensures Run(hash, [""] + rest, st) == Run(hash, rest, st)
  {
    hide Run, Step;
    StepBlank(hash, rest, st);
    RunCons(hash, "", rest, st, st);
  }

  /** Heading line to instructions heading; the previous row, if any, is flushed on the way. */
  lemma RunHead(hash: Hash, s: Slug, rest: seq<string>, st: State, f: State)
    requires Ready(st) && Ready(f) && IsRowText(s)
    requires Flush(hash, st) == Ok(f) && !f.inRelationships && f.section == s.section
    ensures Run(hash, HeadLines(s) + rest, st) == Run(hash, rest, f.(builder := HeadBuilder(s), inInstructions := true))
  {
    hide Run, Flush, IsTrimmed, StatusText;
    var started := f.(builder := EMPTY_BUILDER.(section := s.section, procedure := s.procedure));
    var filled := f.(builder := HeadBuilder(s).(instructionsSeen := false));
    var l3 := ["#### Instructions"] + rest;
    var l2 := [""] + l3;
    var l1 := HeadLines(s)[1..6] + l2;
    assert HeadLines(s) + rest == ["### Procedure: " + s.procedure] + l1;
    RunProcedureHeading(hash, s.procedure, l1, st, f);
    RunBullets(hash, s, l2, started);
    RunBlank(hash, l3, filled);
    RunInstructionsHeading(hash, rest, filled);
  }

  // ----- relationships -----------------------------------------------------

  /** Edges print as one word, a blank, and a trimmed target. */
  predicate IsEdgeText(e: Edge) {
    && IsPredicateToken(e.predicateName)
    && IsFieldText(e.target) && e.target != ""
  }

  lemma EdgeTextIsTrimmed(e: Edge)
    requires IsEdgeText(e)
    ensures IsTrimmed(EdgeText(e)) && EdgeText(e) != "" && '\n' !in EdgeText(e)
  {
    assert EdgeText(e)[0] == e.predicateName[0];
  }

  function EdgeTexts(es: seq<Edge>): seq<string> {
    seq(|es|, i requires 0 <= i < |es| => EdgeText(es[i]))
  }

  lemma {:induction false} RunEdges(hash: Hash, es: seq<Edge>, rest: seq<string>, st: State)
    requires Ready(st) && st.inRelationships && st.builder.sourceSeen
    requires forall e | e in es :: IsEdgeText(e)
    ensures Run(hash, EdgeLines(es) + rest, st)
            == Run(hash, rest, st.(builder := st.builder.(relationshipLines :=
                 st.builder.relationshipLines + EdgeTexts(es))))
  {
    hide Step, Run, EdgeText, IsEdgeText;
    var b := st.builder;
    if es == [] {
      assert EdgeLines(es) + rest == rest;
      assert b.relationshipLines + EdgeTexts(es) == b.relationshipLines;
    } else {
      var v := EdgeText(es[0]);
      EdgeTextIsTrimmed(es[0]);
      var below := EdgeLines(es[1..]) + rest;
      assert EdgeLines(es) + rest == ["- " + v] + below;
      var next := st.(builder := b.(relationshipLines := b.relationshipLines + [v]));
      StepRelationship(hash, v, below, st);
      RunCons(hash, "- " + v, below, st, next);
      RunEdges(hash, es[1..], rest, next);
      assert (b.relationshipLines + [v]) + EdgeTexts(es[1..]) == b.relationshipLines + EdgeTexts(es);
    }
  }

  // ----- the whole row -----------------------------------------------------

  predicate IsPrintable(r: DocRow) {
    && IsRowText(r.slug)
    && NoBoundary(r.lines)
    && IsFieldText(r.source) && r.source != ""
    && forall e | e in r.edges :: IsEdgeText(e)
  }

  function RowBuilder(r: DocRow): Builder {
    HeadBuilder(r.slug).(instructionLines := Kept(r.lines + [""]), relationshipsSeen := true, sourceSeen := true,
                         sourceLine := r.source, relationshipLines := EdgeTexts(r.edges))
  }

  lemma NoBoundarySnoc(ls: seq<string>)
    requires NoBoundary(ls)
    ensures NoBoundary(ls + [""]) && AllBlank(["", ""])
  {
    TrimIsIdentity("");
  }

  lemma RunRow(hash: Hash, r: DocRow, rest: seq<string>, st: State, f: State)
    requires Ready(st) && IsPrintable(r)
    requires Flush(hash, st) == Ok(f) && Ready(f) && !f.inRelationships && f.section == r.slug.section
    ensures Run(hash, RowLines(r) + rest, st)
            == Run(hash, rest, f.(builder := RowBuilder(r), inRelationships := true))
  {
    hide Step, Run, Flush, HeadLines, EdgeLines, EdgeTexts, StatusText, IsBoundary, Trim, IsEdgeText;
    var head := f.(builder := HeadBuilder(r.slug), inInstructions := true);
    var ls := r.lines + [""];
    var l4 := ["", ""] + rest;
    var l3 := EdgeLines(r.edges) + l4;
    var l2 := ["- " + r.source] + l3;
    var l1 := ls + [RELATIONSHIPS] + l2;
    assert RowLines(r) + rest == HeadLines(r.slug) + l1;
    RunHead(hash, r.slug, l1, st, f);
    NoBoundarySnoc(r.lines);
    RunInstructions(hash, ls, l2, head);
    var related := Related(head, Kept(ls));
    var sourced := related.(builder := related.builder.(sourceSeen := true, sourceLine := r.source));
    StepRelationship(hash, r.source, l3, related);
    RunCons(hash, "- " + r.source, l3, related, sourced);
    RunEdges(hash, r.edges, l4, sourced);
    assert sourced.builder.relationshipLines + EdgeTexts(r.edges) == EdgeTexts(r.edges);
    assert [] + Kept(ls) == Kept(ls);
    RunBlanks(hash, ["", ""], rest, f.(builder := RowBuilder(r), inRelationships := true));
  }
}
