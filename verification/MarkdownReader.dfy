/** The parser as it runs: mutable state updated line by line, then the relationship pass. */
module MarkdownReader {
  import opened Text
  import opened Checklist
  import opened MarkdownParser
  import opened MarkdownLinks

  class Reader {
    const hash: Hash
    var checklist: string
    var slugs: seq<Slug>
    var relSections: seq<RelSection>
    var currentSection: string
    var builder: Builder
    var checklistSeen: bool
    var inFrontMatter: bool
    var frontMatterName: string
    var frontMatterIsItem: bool
    var inInstructions: bool
    var inRelationships: bool

    ghost function Abs(): State
      reads this
    {
      State(checklist, slugs, relSections, currentSection, builder, checklistSeen, inFrontMatter, frontMatterName,
            frontMatterIsItem, inInstructions, inRelationships)
    }

    constructor (hash: Hash, name: string)
      ensures this.hash == hash && Abs() == InitialState(name)
    {
      this.hash := hash;
      checklist, slugs, relSections, currentSection := name, [], [], "";
      builder := EMPTY_BUILDER;
      checklistSeen, inFrontMatter, frontMatterName, frontMatterIsItem := false, false, "", false;
      inInstructions, inRelationships := false, false;
    }

    /** Closes the row being built, if there is one. */
    method FlushRow() returns (error: Option<ParseError>)
      modifies this
      ensures error == None ==> Flush(hash, old(Abs())) == Ok(Abs())
      ensures error.Some? ==> Flush(hash, old(Abs())) == Err(error.value)
    {
      hide FinalizeSlug;
      if builder.procedure == "" {
        return None;
      }
      var slug := CloseSlug(hash, checklist, builder);
      if slug.Err? {
        return Some(slug.error);
      }
      if builder.relationshipsSeen {
        var sec := RelSection(slug.value.slugId, builder.sourceLine, builder.sourceSeen, builder.relationshipLines);
        relSections := relSections + [sec];
      }
      slugs := slugs + [slug.value];
      builder := EMPTY_BUILDER.(section := currentSection);
      inInstructions := false;
      inRelationships := false;
      return None;
    }

    /** A checklist heading, in either spelling. */
    method ReadName(name: string, title: bool) returns (error: Option<ParseError>)
      modifies this
      ensures var r := OnHeading(hash, if title then TitleHeading(name) else ChecklistHeading(name), old(Abs()));
              if error == None then r == Ok(Abs()) else r == Err(error.value)
    {
      hide Flush;
      error := FlushRow();
      if error.Some? {
        return;
      }
      if name == "" {
        return Some(ChecklistUnnamed);
      }
      if title && checklistSeen {
        return Some(ChecklistRepeated);
      }
      if checklist == "" {
        checklist := name;
      } else if checklist != name {
        return Some(ChecklistMismatch);
      }
      checklistSeen := true;
      currentSection := "";
      builder := EMPTY_BUILDER;
    }

    method ReadSection(name: string) returns (error: Option<ParseError>)
      modifies this
      ensures var r := OnHeading(hash, SectionHeading(name), old(Abs()));
              if error == None then r == Ok(Abs()) else r == Err(error.value)
    {
      hide Flush;
      if !checklistSeen {
        return Some(SectionTooEarly);
      }
      error := FlushRow();
      if error.Some? {
        return;
      }
      if name == "" {
        return Some(SectionUnnamed);
      }
      currentSection := name;
      builder := builder.(section := name);
    }

    method ReadProcedure(name: string) returns (error: Option<ParseError>)
      modifies this
      ensures var r := OnHeading(hash, ProcedureHeading(name), old(Abs()));
              if error == None then r == Ok(Abs()) else r == Err(error.value)
    {
      hide Flush;
      if !checklistSeen {
        return Some(ProcedureTooEarly);
      }
      error := FlushRow();
      if error.Some? {
        return;
      }
      builder := EMPTY_BUILDER.(section := currentSection, procedure := name);
      if builder.section == "" {
        return Some(ProcedureWithoutSection);
      }
      if name == "" {
        return Some(ProcedureUnnamed);
      }
    }

    method ReadSubsection(name: string) returns (error: Option<ParseError>)
      modifies this
      ensures var r := OnHeading(hash, SubHeading(name), old(Abs()));
              if error == None then r == Ok(Abs()) else r == Err(error.value)
    {
      if builder.procedure == "" {
        return Some(SubsectionTooEarly);
      }
      if name == "Instructions" {
        if builder.bullets != 5 {
          return Some(InstructionsTooEarly);
        }
        inInstructions := true;
        inRelationships := false;
        builder := builder.(instructionsSeen := true);
      } else if name == "Relationships" {
        if !builder.instructionsSeen {
          return Some(RelationshipsTooEarly);
        }
        inRelationships := true;
        inInstructions := false;
        builder := builder.(relationshipsSeen := true, sourceSeen := false, sourceLine := "", relationshipLines := []);
      } else {
        return Some(UnknownSubsection);
      }
      return None;
    }

    method ReadBullet(t: string) returns (error: Option<ParseError>)
      modifies this
      ensures var r := OnBullet(t, old(Abs()));
              if error == None then r == Ok(Abs()) else r == Err(error.value)
    {
      hide ParseBullet;
      if builder.procedure == "" {
        return Some(BulletTooEarly);
      }
      if builder.bullets >= 5 {
        return Some(BulletUnexpected);
      }
      var field := ParseBullet(t);
      if field == None || field.value.name != FieldName(builder.bullets) {
        return Some(BulletExpected);
      }
      var value := field.value.value;
      match builder.bullets {
        case 0 =>
          if value == "" { return Some(ActionEmpty); }
          builder := builder.(action := value);
        case 1 =>
          if value == "" { return Some(SpecEmpty); }
          builder := builder.(spec := value);
        case 2 => builder := builder.(result := value);
        case 3 => builder := builder.(statusText := value);
        case _ => builder := builder.(comment := value);
      }
      builder := builder.(bullets := builder.bullets + 1);
      return None;
    }

    /** Everything after the blank-line, rule and instructions tests. */
    method ReadContent(t: string) returns (error: Option<ParseError>)
      modifies this
      ensures var r := OnContent(hash, t, old(Abs()));
              if error == None then r == Ok(Abs()) else r == Err(error.value)
    {
      hide OnHeading, OnBullet, Classify;
      match Classify(t) {
        case ChecklistHeading(name) => error := ReadName(name, false);
        case TitleHeading(name) => error := ReadName(name, true);
        case SectionHeading(name) => error := ReadSection(name);
        case ProcedureHeading(name) => error := ReadProcedure(name);
        case SubHeading(name) => error := ReadSubsection(name);
        case NoHeading =>
          if inRelationships {
            ReadRelationship(t);
            error := None;
          } else if "-" <= t {
            error := ReadBullet(t);
          } else {
            error := Some(UnrecognizedLine);
          }
      }
    }

    method ReadRelationship(t: string)
      modifies this
      ensures Abs() == OnRelationshipLine(t, old(Abs()))
    {
      if "##### " <= t || !("-" <= t) {
        return;
      }
      var text := Trim(t[1..]);
      if text == "" {
        return;
      }
      if !builder.sourceSeen {
        builder := builder.(sourceSeen := true, sourceLine := text);
        return;
      }
      builder := builder.(relationshipLines := builder.relationshipLines + [text]);
    }

    /** One turn of the line loop. */
    method ReadLine(lines: seq<string>, n: nat) returns (error: Option<ParseError>)
      requires n < |lines|
      modifies this
      ensures var r := Step(hash, lines[n], lines[n + 1..], old(Abs()));
              if error == None then r == Ok(Abs()) else r == Err(error.value)
    {
      hide OnContent, IsBoundary, IsRule, NextNonEmpty, OnFrontMatterLine, Trim, LeaveInstructions;
      var t := TrimByIndex(lines[n]);
      if !checklistSeen && builder.procedure == "" && t == "---" {
        inFrontMatter := !inFrontMatter;
        return None;
      }
      if inFrontMatter {
        ReadFrontMatter(t);
        return None;
      }
      if t == "" {
        if inInstructions {
          builder := builder.(instructionLines := builder.instructionLines + [""]);
        }
        return None;
      }
      if IsRule(t) {
        if inRelationships || !inInstructions {
          return None;
        }
        var next := NextNonEmptyLine(lines, n + 1);
        if IsBoundary(next) {
          inInstructions := false;
          return None;
        }
      }
      if inInstructions {
        if !IsBoundary(t) {
          builder := builder.(instructionLines := builder.instructionLines + [lines[n]]);
          return None;
        }
        LeaveBlock(t);
      }
      error := ReadContent(t);
    }

    method LeaveBlock(t: string)
      modifies this
      ensures Abs() == LeaveInstructions(t, old(Abs()))
    {
      inInstructions := false;
      if "#### " <= t {
        inRelationships := Trim(t[5..]) == "Relationships";
      }
    }

    method ReadFrontMatter(t: string)
      modifies this
      ensures Abs() == OnFrontMatterLine(t, old(Abs()))
    {
      hide Trim, FrontMatterKey, IndexOf;
      if t == "---" {
        inFrontMatter := false;
        return;
      }
      var colon := IndexOf(t, ':');
      if colon < |t| && FrontMatterKey(t[..colon]) == "Checklist" {
        frontMatterName := Trim(t[colon + 1..]);
        frontMatterIsItem := t[0] == '-';
      }
    }
  }

  /** The first non-blank line at or after `start`, trimmed. */
  method NextNonEmptyLine(lines: seq<string>, start: nat) returns (next: string)
    requires start <= |lines|
    ensures next == NextNonEmpty(lines[start..])
  {
    for n := start to |lines|
      invariant NextNonEmpty(lines[n..]) == NextNonEmpty(lines[start..])
    {
      var candidate := Trim(lines[n]);
      if candidate != "" {
        return candidate;
      }
      assert lines[n..][1..] == lines[n + 1..];
    }
    next := "";
  }

  method CloseSlug(hash: Hash, checklist: string, b: Builder) returns (r: Result<Slug, ParseError>)
    ensures r == FinalizeSlug(hash, checklist, b)
  {
    if b.section == "" {
      return Err(SectionRequired);
    }
    if b.bullets != 5 {
      return Err(BulletsIncomplete);
    }
    if !b.instructionsSeen {
      return Err(InstructionsMissing);
    }
    var lines := b.instructionLines;
    while lines != [] && lines[|lines| - 1] == ""
      invariant DropTrailingEmpty(lines) == DropTrailingEmpty(b.instructionLines)
    {
      lines := lines[..|lines| - 1];
    }
    var instructions := JoinWith(lines, '\n');
    var status := Unknown;
    if b.statusText != "" {
      status := ParseStatus(b.statusText);
      if status == Unknown {
        return Err(BadStatus);
      }
    }
    var id := ComputeSlugId(hash, checklist, b.section, b.procedure, b.action, b.spec, instructions);
    r := Ok(Slug(id, "", "", 0, checklist, b.section, b.procedure, b.action, b.spec, b.result, status, b.comment,
                 instructions, []));
  }

  lemma LinesStep(s: string)
    requires s != ""
    ensures var k := IndexOf(s, '\n'); Lines(s) == [s[..k]] + Lines(if k < |s| then s[k + 1..] else "")
  {
    assert s[..|s|] == s;
  }

  lemma StripCrsCons(l: string, ls: seq<string>)
    ensures StripCrs([l] + ls) == [StripCr(l)] + StripCrs(ls)
  {
    hide StripCr;
  }

  lemma NextLine(s: string)
    requires s != ""
    ensures var k := IndexOf(s, '\n');
            InputTail(s) == [StripCr(s[..k])] + InputTail(if k < |s| then s[k + 1..] else "")
  {
    hide StripCr, StripCrs, Lines, IndexOf;
    var k := IndexOf(s, '\n');
    LinesStep(s);
    StripCrsCons(s[..k], Lines(if k < |s| then s[k + 1..] else ""));
  }

  ghost function InputTail(s: string): seq<string> {
    StripCrs(Lines(s))
  }

  /** The `getline` loop with its carriage-return fix. */
  method ReadLines(content: string) returns (lines: seq<string>)
    ensures lines == InputLines(content)
  {
    hide InputTail, StripCr;
    var rest := StripBom(content);
    ghost var whole := InputTail(rest);
    lines := [];
    while rest != ""
      invariant lines + InputTail(rest) == whole
      decreases |rest|
    {
      var k := IndexOf(rest, '\n');
      NextLine(rest);
      lines := lines + [StripCr(rest[..k])];
      rest := if k < |rest| then rest[k + 1..] else "";
    }
    EmptyTail(content, whole);
  }

  lemma EmptyTail(content: string, whole: seq<string>)
    requires whole == InputTail(StripBom(content))
    ensures InputTail("") == [] && whole == InputLines(content)
  {
  }

  /** The parser. */
  method ParseChecklistMarkdown(hash: Hash, name: string, content: string) returns (r: Result<Parsed, ParseError>)
    ensures r == ParseText(hash, name, content)
  {
    hide Step, Finish, Complete, InitialState;
    var lines := ReadLines(content);
    var reader := new Reader(hash, name);
    assert lines[0..] == lines;
    for n := 0 to |lines|
      invariant reader.hash == hash
      invariant Run(hash, lines[n..], reader.Abs()) == Run(hash, lines, InitialState(name))
    {
      var error := reader.ReadLine(lines, n);
      assert lines[n..][0] == lines[n] && lines[n..][1..] == lines[n + 1..];
      if error.Some? {
        return Err(error.value);
      }
    }
    r := FinishReading(reader);
  }

  method FinishReading(reader: Reader) returns (r: Result<Parsed, ParseError>)
    modifies reader
    ensures r == match Finish(reader.hash, old(reader.Abs())) { case Ok(f) => Ok(Complete(f)) case Err(e) => Err(e) }
  {
    hide Flush;
    if reader.inFrontMatter {
      return Err(FrontMatterOpen);
    }
    var error := reader.FlushRow();
    if error.Some? {
      return Err(error.value);
    }
    if !reader.checklistSeen {
      return Err(ChecklistMissing);
    }
    if reader.frontMatterName != "" && reader.checklist != reader.frontMatterName && !reader.frontMatterIsItem {
      return Err(FrontMatterMismatch);
    }
    if reader.slugs == [] {
      return Err(NothingParsed);
    }
    var links := ResolveRelationships(reader.slugs, reader.relSections);
    r := Ok(Parsed(reader.checklist, reader.slugs, links.template, links.address));
  }

  /** The second pass: both result lists grow block by block. */
  method ResolveRelationships(slugs: seq<Slug>, sections: seq<RelSection>) returns (links: Links)
    ensures links == AllLinks(slugs, sections)
  {
    hide SectionLinks;
    links := NO_LINKS;
    assert sections[0..] == sections;
    for n := 0 to |sections|
      invariant links.Plus(AllLinks(slugs, sections[n..])) == AllLinks(slugs, sections)
    {
      assert sections[n..][1..] == sections[n + 1..];
      PlusIsAssociative(links, SectionLinks(slugs, sections[n]), AllLinks(slugs, sections[n + 1..]));
      links := links.Plus(SectionLinks(slugs, sections[n]));
    }
    assert links.Plus(NO_LINKS) == links;
  }

  lemma PlusIsAssociative(a: Links, b: Links, c: Links)
    ensures a.Plus(b).Plus(c) == a.Plus(b.Plus(c))
  {
    assert a.template + b.template + c.template == a.template + (b.template + c.template);
    assert a.address + b.address + c.address == a.address + (b.address + c.address);
  }
}
