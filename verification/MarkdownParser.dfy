/** The line-driven checklist parser, first as a transition function, then as the loop that runs it. */
module MarkdownParser {
  import opened Text
  import opened Checklist

  // ----- line shapes -----------------------------------------------------

  /** What the heading tests, tried in this order, make of a trimmed line. */
  datatype Heading =
    | ChecklistHeading(name: string)
    | TitleHeading(name: string)
    | SectionHeading(name: string)
    | ProcedureHeading(name: string)
    | SubHeading(name: string)
    | NoHeading

  function Classify(t: string): Heading {
    if "# Checklist:" <= t then ChecklistHeading(Trim(t[12..]))
    else if "# " <= t then TitleHeading(Trim(t[2..]))
    else if "## Section:" <= t then SectionHeading(Trim(t[11..]))
    else if "## " <= t then SectionHeading(Trim(t[3..]))
    else if "### Procedure:" <= t then ProcedureHeading(Trim(t[14..]))
    else if "### " <= t then ProcedureHeading(Trim(t[4..]))
    else if "#### " <= t then SubHeading(Trim(t[5..]))
    else NoHeading
  }

  /** A line that ends an instructions block. */
  predicate IsBoundary(t: string) {
    "# " <= t || "## " <= t || "### " <= t || "#### " <= t
  }

  predicate IsRule(t: string) {
    |t| >= 3 && forall i | 0 <= i < |t| :: t[i] == '-'
  }

  function NextNonEmpty(lines: seq<string>): string {
    if lines == [] then ""
    else if Trim(lines[0]) != "" then Trim(lines[0])
    else NextNonEmpty(lines[1..])
  }

  function StripEmphasis(s: string): string {
    if |s| >= 4 && ((s[..2] == "**" && s[|s| - 2..] == "**") || (s[..2] == "__" && s[|s| - 2..] == "__"))
    then s[2..|s| - 2]
    else s
  }

  datatype Field = Field(name: string, value: string)

  function ParseBullet(t: string): Option<Field> {
    if t == "" || t[0] != '-' then None else
      var rest := TrimLeft(t[1..]);
      var colon := IndexOf(rest, ':');
      if colon == |rest| then None else
        var name := Trim(StripEmphasis(Trim(rest[..colon])));
        if name == "" then None else Some(Field(name, Trim(rest[colon + 1..])))
  }

  function FrontMatterKey(key: string): string {
    var k := Trim(key);
    if k != "" && k[0] == '-' then Trim(k[1..]) else k
  }

  // ----- parser state ----------------------------------------------------

  datatype Builder = Builder(
    section: string, procedure: string, action: string, spec: string, result: string, statusText: string,
    comment: string, instructionLines: seq<string>, relationshipsSeen: bool, sourceSeen: bool,
    sourceLine: string, relationshipLines: seq<string>, instructionsSeen: bool, bullets: nat)

  const EMPTY_BUILDER := Builder("", "", "", "", "", "", "", [], false, false, "", [], false, 0)

  datatype RelSection = RelSection(subject: string, source: string, sourcePresent: bool, lines: seq<string>)

  datatype State = State(
    checklist: string, slugs: seq<Slug>, relSections: seq<RelSection>, section: string, builder: Builder,
    checklistSeen: bool, inFrontMatter: bool, frontMatterName: string, frontMatterIsItem: bool,
    inInstructions: bool, inRelationships: bool)

  function InitialState(name: string): State {
    State(name, [], [], "", EMPTY_BUILDER, false, false, "", false, false, false)
  }

  /** One constructor for every message the original throws. */
  datatype ParseError =
    | SectionRequired | BulletsIncomplete | InstructionsMissing | BadStatus
    | ChecklistUnnamed | ChecklistMismatch | ChecklistRepeated
    | SectionTooEarly | SectionUnnamed | ProcedureTooEarly | ProcedureWithoutSection | ProcedureUnnamed
    | SubsectionTooEarly | InstructionsTooEarly | RelationshipsTooEarly | UnknownSubsection
    | BulletTooEarly | BulletUnexpected | BulletExpected | ActionEmpty | SpecEmpty | UnrecognizedLine
    | FrontMatterOpen | ChecklistMissing | FrontMatterMismatch | NothingParsed

  // ----- closing a row ---------------------------------------------------

  function DropTrailingEmpty(lines: seq<string>): seq<string> {
    if lines != [] && lines[|lines| - 1] == "" then DropTrailingEmpty(lines[..|lines| - 1]) else lines
  }

  function FinalizeSlug(hash: Hash, checklist: string, b: Builder): Result<Slug, ParseError> {
    if b.section == "" then Err(SectionRequired)
    else if b.bullets != 5 then Err(BulletsIncomplete)
    else if !b.instructionsSeen then Err(InstructionsMissing)
    else
      var instructions := JoinWith(DropTrailingEmpty(b.instructionLines), '\n');
      var status := ParseStatus(b.statusText);
      if b.statusText != "" && status == Unknown then Err(BadStatus)
      else
        Ok(Slug(ComputeSlugId(hash, checklist, b.section, b.procedure, b.action, b.spec, instructions),
                "", "", 0, checklist, b.section, b.procedure, b.action, b.spec, b.result,
                if b.statusText == "" then Unknown else status, b.comment, instructions, []))
  }

  function Flush(hash: Hash, st: State): Result<State, ParseError> {
    if st.builder.procedure == "" then Ok(st) else
      var slug :- FinalizeSlug(hash, st.checklist, st.builder);
      var b := st.builder;
      var sections := if b.relationshipsSeen
                      then st.relSections + [RelSection(slug.slugId, b.sourceLine, b.sourceSeen, b.relationshipLines)]
                      else st.relSections;
      Ok(st.(slugs := st.slugs + [slug], relSections := sections,
             builder := EMPTY_BUILDER.(section := st.section),
             inInstructions := false, inRelationships := false))
  }

  // ----- one line --------------------------------------------------------

  function NameChecklist(st: State, name: string): Result<State, ParseError> {
    if name == "" then Err(ChecklistUnnamed)
    else if st.checklist != "" && st.checklist != name then Err(ChecklistMismatch)
    else Ok(st.(checklist := name, checklistSeen := true, section := "", builder := EMPTY_BUILDER))
  }

  function OnHeading(hash: Hash, h: Heading, st: State): Result<State, ParseError>
    requires h != NoHeading
  {
    match h
    case ChecklistHeading(name) =>
      var f :- Flush(hash, st);
      NameChecklist(f, name)
    case TitleHeading(name) =>
      var f :- Flush(hash, st);
      if name == "" then Err(ChecklistUnnamed)
      else if f.checklistSeen then Err(ChecklistRepeated)
      else NameChecklist(f, name)
    case SectionHeading(name) =>
      if !st.checklistSeen then Err(SectionTooEarly) else
        var f :- Flush(hash, st);
        if name == "" then Err(SectionUnnamed)
        else Ok(f.(section := name, builder := f.builder.(section := name)))
    case ProcedureHeading(name) =>
      if !st.checklistSeen then Err(ProcedureTooEarly) else
        var f :- Flush(hash, st);
        if f.section == "" then Err(ProcedureWithoutSection)
        else if name == "" then Err(ProcedureUnnamed)
        else Ok(f.(builder := EMPTY_BUILDER.(section := f.section, procedure := name)))
    case SubHeading(name) =>
      if st.builder.procedure == "" then Err(SubsectionTooEarly)
      else if name == "Instructions" then
        if st.builder.bullets != 5 then Err(InstructionsTooEarly)
        else Ok(st.(inInstructions := true, inRelationships := false,
                    builder := st.builder.(instructionsSeen := true)))
      else if name == "Relationships" then
        if !st.builder.instructionsSeen then Err(RelationshipsTooEarly)
        else Ok(st.(inRelationships := true, inInstructions := false,
                    builder := st.builder.(relationshipsSeen := true, sourceSeen := false, sourceLine := "",
                                           relationshipLines := [])))
      else Err(UnknownSubsection)
  }

  function OnRelationshipLine(t: string, st: State): State {
    if "##### " <= t || !("-" <= t) then st else
      var text := Trim(t[1..]);
      var b := st.builder;
      if text == "" then st
      else if !b.sourceSeen then st.(builder := b.(sourceSeen := true, sourceLine := text))
      else st.(builder := b.(relationshipLines := b.relationshipLines + [text]))
  }

  function FieldName(k: nat): string
    requires k < 5
  {
    match k case 0 => "Action" case 1 => "Spec" case 2 => "Result" case 3 => "Status" case _ => "Comment"
  }

  function OnBullet(t: string, st: State): Result<State, ParseError> {
    var b := st.builder;
    if b.procedure == "" then Err(BulletTooEarly)
    else if b.bullets >= 5 then Err(BulletUnexpected)
    else match ParseBullet(t)
      case None => Err(BulletExpected)
      case Some(Field(name, value)) =>
        if name != FieldName(b.bullets) then Err(BulletExpected)
        else if b.bullets == 0 && value == "" then Err(ActionEmpty)
        else if b.bullets == 1 && value == "" then Err(SpecEmpty)
        else
          var filled := match b.bullets
            case 0 => b.(action := value)
            case 1 => b.(spec := value)
            case 2 => b.(result := value)
            case 3 => b.(statusText := value)
            case _ => b.(comment := value);
          Ok(st.(builder := filled.(bullets := b.bullets + 1)))
  }

  function OnFrontMatterLine(t: string, st: State): State {
    if t == "---" then st.(inFrontMatter := false) else
      var colon := IndexOf(t, ':');
      if colon < |t| && FrontMatterKey(t[..colon]) == "Checklist"
      then st.(frontMatterName := Trim(t[colon + 1..]), frontMatterIsItem := t[0] == '-')
      else st
  }

  /** Everything after the blank-line, rule and instructions tests. */
  function OnContent(hash: Hash, t: string, st: State): Result<State, ParseError> {
    if Classify(t) != NoHeading then OnHeading(hash, Classify(t), st)
    else if st.inRelationships then Ok(OnRelationshipLine(t, st))
    else if "-" <= t then OnBullet(t, st)
    else Err(UnrecognizedLine)
  }

  /** A heading leaves the instructions block. */
  function LeaveInstructions(t: string, st: State): State {
    st.(inInstructions := false,
        inRelationships := if "#### " <= t then Trim(t[5..]) == "Relationships" else st.inRelationships)
  }

  /** The effect of one line; `rest` is what the rule test looks ahead into. */
  function Step(hash: Hash, raw: string, rest: seq<string>, st: State): Result<State, ParseError> {
    var t := Trim(raw);
    if !st.checklistSeen && st.builder.procedure == "" && t == "---" then
      Ok(st.(inFrontMatter := !st.inFrontMatter))
    else if st.inFrontMatter then
      Ok(OnFrontMatterLine(t, st))
    else if t == "" then
      Ok(if st.inInstructions
         then st.(builder := st.builder.(instructionLines := st.builder.instructionLines + [""]))
         else st)
    else if IsRule(t) && (st.inRelationships || !st.inInstructions) then
      Ok(st)
    else if IsRule(t) && IsBoundary(NextNonEmpty(rest)) then
      Ok(st.(inInstructions := false))
    else if st.inInstructions && !IsBoundary(t) then
      Ok(st.(builder := st.builder.(instructionLines := st.builder.instructionLines + [raw])))
    else
      OnContent(hash, t, if st.inInstructions then LeaveInstructions(t, st) else st)
  }

  function Run(hash: Hash, lines: seq<string>, st: State): Result<State, ParseError> {
    if lines == [] then Ok(st) else
      var next :- Step(hash, lines[0], lines[1..], st);
      Run(hash, lines[1..], next)
  }

  /** The checks after the loop. */
  function Finish(hash: Hash, st: State): Result<State, ParseError> {
    if st.inFrontMatter then Err(FrontMatterOpen) else
      var f :- Flush(hash, st);
      if !f.checklistSeen then Err(ChecklistMissing)
      else if f.frontMatterName != "" && f.checklist != f.frontMatterName && !f.frontMatterIsItem
      then Err(FrontMatterMismatch)
      else if f.slugs == [] then Err(NothingParsed)
      else Ok(f)
  }
}
