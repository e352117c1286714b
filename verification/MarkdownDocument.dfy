/** Reading back a whole printed document: every row, with its computed id and normalised instructions. */
module MarkdownDocument {
  import opened Text
  import opened Checklist
  import opened MarkdownParser
  import opened MarkdownLinks
  import opened MarkdownExport
  import opened MarkdownSteps
  import opened MarkdownRow

  // ----- what a printed row becomes ----------------------------------------

  /** The instructions the parser stores for printed instruction lines. */
  function Stored(lines: seq<string>): string {
    JoinWith(DropTrailingEmpty(Kept(lines + [""])), '\n')
  }

  function Reparsed(hash: Hash, name: string, r: DocRow): Slug {
    var s, instructions := r.slug, Stored(r.lines);
    Slug(ComputeSlugId(hash, name, s.section, s.procedure, s.action, s.spec, instructions), "", "", 0,
         name, s.section, s.procedure, s.action, s.spec, s.result, s.status, s.comment, instructions, [])
  }

  function ReparsedAll(hash: Hash, name: string, rows: seq<DocRow>): (slugs: seq<Slug>)
    ensures |slugs| == |rows|
  {
    seq(|rows|, i requires 0 <= i < |rows| => Reparsed(hash, name, rows[i]))
  }

  function Block(hash: Hash, name: string, r: DocRow): RelSection {
    RelSection(Reparsed(hash, name, r).slugId, r.source, true, EdgeTexts(r.edges))
  }

  function Blocks(hash: Hash, name: string, rows: seq<DocRow>): (blocks: seq<RelSection>)
    ensures |blocks| == |rows|
  {
    seq(|rows|, i requires 0 <= i < |rows| => Block(hash, name, rows[i]))
  }

  predicate AllPrintable(rows: seq<DocRow>) {
    forall i | 0 <= i < |rows| :: IsPrintable(rows[i])
  }

  // ----- the parser between rows -------------------------------------------

  /** The state with `rows` closed and `section` current. */
  function Closed(hash: Hash, name: string, rows: seq<DocRow>, section: string): State {
    State(name, ReparsedAll(hash, name, rows), Blocks(hash, name, rows), section,
          EMPTY_BUILDER.(section := section), true, false, "", false, false, false)
  }

  lemma FinalizeRow(hash: Hash, name: string, r: DocRow)
    requires IsRowText(r.slug)
    ensures FinalizeSlug(hash, name, RowBuilder(r)) == Ok(Reparsed(hash, name, r))
  {
    hide Kept, ComputeSlugId, EdgeTexts, IsFieldText, ParseStatus, StatusToString;
    StatusRoundTrip(r.slug.status);
    StatusPrints(r.slug.status);
  }

  lemma StatusPrints(s: Status)
    ensures StatusToString(s) != ""
  {
  }

  lemma FlushRow(hash: Hash, name: string, rows: seq<DocRow>, r: DocRow, section: string)
    requires IsRowText(r.slug)
    ensures Flush(hash, Closed(hash, name, rows, section).(builder := RowBuilder(r), inRelationships := true))
            == Ok(Closed(hash, name, rows + [r], section))
  {
    hide FinalizeSlug, Kept, Reparsed, EdgeTexts, IsFieldText;
    FinalizeRow(hash, name, r);
    assert ReparsedAll(hash, name, rows) + [Reparsed(hash, name, r)] == ReparsedAll(hash, name, rows + [r]);
    assert Blocks(hash, name, rows) + [Block(hash, name, r)] == Blocks(hash, name, rows + [r]);
  }

  /** A state from which flushing yields the closed prefix. */
  predicate Between(hash: Hash, name: string, rows: seq<DocRow>, section: string, st: State) {
    Ready(st) && Flush(hash, st) == Ok(Closed(hash, name, rows, section))
  }

  lemma RunSectionHeading(hash: Hash, name: string, done: seq<DocRow>, current: string, section: string,
                          rest: seq<string>, st: State)
    requires Between(hash, name, done, current, st) && IsTrimmed(section) && section != ""
    ensures Run(hash, ["## Section: " + section, ""] + rest, st) == Run(hash, rest, Closed(hash, name, done, section))
    ensures Between(hash, name, done, section, Closed(hash, name, done, section))
  {
    hide Run, Step, IsRule, ReparsedAll, Blocks;
    var t := "## Section: " + section;
    var next := Closed(hash, name, done, section);
    ClassifySection(section);
    assert [t, ""] + rest == [t] + ([""] + rest);
    StepHeading(hash, t, [""] + rest, st);
    RunCons(hash, t, [""] + rest, st, next);
    RunBlank(hash, rest, next);
  }

  lemma RunSection(hash: Hash, name: string, done: seq<DocRow>, current: string, section: string,
                   rest: seq<string>, st: State) returns (next: State)
    requires Between(hash, name, done, current, st) && IsTrimmed(section) && section != ""
    ensures Run(hash, SectionLines(section, current) + rest, st) == Run(hash, rest, next)
    ensures Between(hash, name, done, section, next)
  {
    hide Run, Between, Closed, IsTrimmed;
    if section != current {
      RunSectionHeading(hash, name, done, current, section, rest, st);
      next := Closed(hash, name, done, section);
    } else {
      assert SectionLines(section, current) + rest == rest;
      next := st;
    }
  }

  lemma RunRowBetween(hash: Hash, name: string, done: seq<DocRow>, r: DocRow, rest: seq<string>, st: State)
    returns (next: State)
    requires Between(hash, name, done, r.slug.section, st) && IsPrintable(r)
    ensures Run(hash, RowLines(r) + rest, st) == Run(hash, rest, next)
    ensures Between(hash, name, done + [r], r.slug.section, next) && next.inRelationships
  {
    hide Run, RowLines, Flush, IsRowText, ReparsedAll, Blocks, RowBuilder;
    var f := Closed(hash, name, done, r.slug.section);
    next := f.(builder := RowBuilder(r), inRelationships := true);
    RunRow(hash, r, rest, st, f);
    FlushRow(hash, name, done, r, r.slug.section);
  }

  lemma RunSeparator(hash: Hash, more: bool, rest: seq<string>, st: State)
    requires Ready(st) && st.inRelationships
    ensures Run(hash, (if more then ["---", ""] else []) + rest, st) == Run(hash, rest, st)
  {
    hide Run, Step;
    if more {
      assert ["---", ""] + rest == ["---"] + ([""] + rest);
      StepRule(hash, [""] + rest, st);
      RunCons(hash, "---", [""] + rest, st, st);
      RunBlank(hash, rest, st);
    } else {
      assert [] + rest == rest;
    }
  }

  lemma RunBlock(hash: Hash, name: string, done: seq<DocRow>, current: string, r: DocRow, more: bool,
                 rest: seq<string>, st: State) returns (next: State)
    requires Between(hash, name, done, current, st) && IsPrintable(r)
    ensures Run(hash, RowBlock(r, current, more) + rest, st) == Run(hash, rest, next)
    ensures Between(hash, name, done + [r], r.slug.section, next)
  {
    hide Run, RowLines, Flush, Closed, SectionLines;
    var separator := if more then ["---", ""] else [];
    var l2 := separator + rest;
    var l1 := RowLines(r) + l2;
    assert RowBlock(r, current, more) + rest == SectionLines(r.slug.section, current) + l1;
    var s1 := RunSection(hash, name, done, current, r.slug.section, l1, st);
    next := RunRowBetween(hash, name, done, r, l2, s1);
    RunSeparator(hash, more, rest, next);
  }

  lemma {:induction false} RunBody(hash: Hash, name: string, done: seq<DocRow>, current: string,
                                   rows: seq<DocRow>, st: State) returns (last: State, section: string)
    requires Between(hash, name, done, current, st) && AllPrintable(rows)
    ensures Run(hash, BodyLines(rows, current), st) == Ok(last)
    ensures Between(hash, name, done + rows, section, last)
    decreases |rows|
  {
    hide Step, Between, RowBlock, IsPrintable;
    if rows == [] {
      assert done + rows == done;
      last, section := st, current;
    } else {
      var r := rows[0];
      var next := RunBlock(hash, name, done, current, r, |rows| > 1, BodyLines(rows[1..], r.slug.section), st);
      last, section := RunBody(hash, name, done + [r], r.slug.section, rows[1..], next);
      assert done + [r] + rows[1..] == done + rows;
    }
  }

  /** The document's first two lines. */
  lemma RunTitle(hash: Hash, expected: string, name: string, rest: seq<string>)
    requires IsTrimmed(name) && name != "" && (expected == "" || expected == name)
    ensures Run(hash, ["# Checklist: " + name, ""] + rest, InitialState(expected))
            == Run(hash, rest, Closed(hash, name, [], ""))
    ensures Between(hash, name, [], "", Closed(hash, name, [], ""))
  {
    hide Run, IsRule;
    var t := "# Checklist: " + name;
    ClassifyChecklist(name);
    assert [t, ""] + rest == [t] + ([""] + rest);
    var st := InitialState(expected);
    var next := Closed(hash, name, [], "");
    assert Step(hash, t, [""] + rest, st) == OnHeading(hash, Classify(t), st);
    RunCons(hash, t, [""] + rest, st, next);
    RunBlank(hash, rest, next);
  }

  /** The parser on the printed document, up to and including the checks after its loop. */
  lemma ParsePrinted(hash: Hash, expected: string, name: string, rows: seq<DocRow>) returns (section: string)
    requires IsTrimmed(name) && name != "" && (expected == "" || expected == name)
    requires rows != [] && AllPrintable(rows)
    ensures var run := Run(hash, DocLines(name, rows), InitialState(expected));
            run.Ok? && Finish(hash, run.value) == Ok(Closed(hash, name, rows, section))
  {
    hide Run, BodyLines, IsPrintable, ReparsedAll, Blocks, InitialState;
    RunTitle(hash, expected, name, BodyLines(rows, ""));
    var last: State;
    last, section := RunBody(hash, name, [], "", rows, Closed(hash, name, [], ""));
    assert [] + rows == rows;
  }
}
