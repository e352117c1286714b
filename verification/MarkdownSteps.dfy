/** What the parser does with each kind of line the exporter writes. */
module MarkdownSteps {
  import opened Text
  import opened Checklist
  import opened MarkdownParser
  import opened MarkdownLinks
  import opened MarkdownExport

  /** Past the checklist heading, outside front matter and instructions. */
  predicate Ready(st: State) {
    st.checklistSeen && !st.inFrontMatter && !st.inInstructions
  }

  /** Text that fits on one line and has no outer whitespace. */
  predicate IsFieldText(s: string) {
    IsTrimmed(s) && '\n' !in s
  }

  // ----- trimming a printed line -------------------------------------------

  lemma TrimPrefixed(p: string, v: string)
    requires p != "" && !IsSpace(p[0])
    requires IsTrimmed(v) && v != ""
    ensures Trim(p + v) == p + v
  {
    TrimIsIdentity(p + v);
  }

  lemma TrimTrailingBlank(p: string)
    requires p != "" && IsTrimmed(p)
    ensures Trim(p + " ") == p
  {
    assert (p + " ")[..|p|] == p;
    TrimRightStep(p + " ");
    TrimRightStop(p);
  }

  lemma TrimBlankThen(v: string)
    requires IsTrimmed(v)
    ensures Trim(" " + v) == v
  {
    TrimSkipsBlank(' ', v);
    TrimIsIdentity(v);
  }

  lemma NotPrefix(p: string, t: string, i: nat)
    requires i < |p| && i < |t| && p[i] != t[i]
    ensures !(p <= t)
  {
  }

  /** A line that opens with `n` hash signs and a blank matches no heading of another level. */
  lemma HeadingLevel(t: string, n: nat)
    requires 1 <= n <= 4 && |t| > n
    requires (forall i | 0 <= i < n :: t[i] == '#') && t[n] == ' '
    ensures n != 1 ==> !("# Checklist:" <= t) && !("# " <= t)
    ensures n != 2 ==> !("## Section:" <= t) && !("## " <= t)
    ensures n != 3 ==> !("### Procedure:" <= t) && !("### " <= t)
    ensures n != 4 ==> !("#### " <= t)
    ensures !IsRule(t) && t != "" && t != "---"
  {
    assert t[0] == '#';
    if n != 1 { NotPrefix("# Checklist:", t, 1); NotPrefix("# ", t, 1); }
    if n == 1 { NotPrefix("## Section:", t, 1); NotPrefix("## ", t, 1); }
    if n > 2 { NotPrefix("## Section:", t, 2); NotPrefix("## ", t, 2); }
    if n != 3 {
      var k := if n > 3 then 3 else n;
      NotPrefix("### Procedure:", t, k); NotPrefix("### ", t, k);
    }
    if n != 4 { NotPrefix("#### ", t, n); }
  }

  lemma DropPrefix(p: string, v: string)
    ensures p <= p + v && (p + v)[|p|..] == v
  {
  }

  lemma ClassifySection(name: string)
    requires IsTrimmed(name) && name != ""
    ensures var t := "## Section: " + name;
            Trim(t) == t && Classify(t) == SectionHeading(name) && !IsRule(t) && t != "" && t != "---"
  {
    var t := "## Section: " + name;
    assert t == "## Section:" + (" " + name);
    TrimPrefixed("## Section: ", name);
    HeadingLevel(t, 2);
    DropPrefix("## Section:", " " + name);
    TrimBlankThen(name);
  }

  lemma ClassifyProcedure(name: string)
    requires IsTrimmed(name) && name != ""
    ensures var t := "### Procedure: " + name;
            Trim(t) == t && Classify(t) == ProcedureHeading(name) && !IsRule(t) && t != "" && t != "---"
  {
    var t := "### Procedure: " + name;
    assert t == "### Procedure:" + (" " + name);
    TrimPrefixed("### Procedure: ", name);
    HeadingLevel(t, 3);
    DropPrefix("### Procedure:", " " + name);
    TrimBlankThen(name);
  }

  lemma ClassifyChecklist(name: string)
    requires IsTrimmed(name) && name != ""
    ensures var t := "# Checklist: " + name;
            Trim(t) == t && Classify(t) == ChecklistHeading(name) && !IsRule(t) && t != "" && t != "---"
  {
    var t := "# Checklist: " + name;
    assert t == "# Checklist:" + (" " + name);
    TrimPrefixed("# Checklist: ", name);
    HeadingLevel(t, 1);
    DropPrefix("# Checklist:", " " + name);
    TrimBlankThen(name);
  }

  lemma ClassifySub(name: string)
    requires IsTrimmed(name) && name != ""
    ensures var t := "#### " + name;
            Trim(t) == t && Classify(t) == SubHeading(name) && IsBoundary(t) && !IsRule(t) && t != "" && t != "---"
  {
    var t := "#### " + name;
    TrimPrefixed("#### ", name);
    HeadingLevel(t, 4);
    DropPrefix("#### ", name);
    TrimIsIdentity(name);
  }

  lemma ClassifyInstructions()
    ensures var t := "#### Instructions";
            Trim(t) == t && Classify(t) == SubHeading("Instructions") && !IsRule(t) && IsBoundary(t)
  {
    assert "#### " + "Instructions" == "#### Instructions";
    ClassifySub("Instructions");
  }

  lemma ClassifyRelationships()
    ensures var t := "#### Relationships";
            Trim(t) == t && Classify(t) == SubHeading("Relationships") && !IsRule(t) && IsBoundary(t)
  {
    assert "#### " + "Relationships" == "#### Relationships";
    ClassifySub("Relationships");
  }

  lemma ClassifyDash(t: string)
    requires t != "" && t[0] == '-'
    ensures Classify(t) == NoHeading && !IsBoundary(t) && !("##### " <= t) && "-" <= t
  {
    NotPrefix("##### ", t, 0);
    NotPrefix("#### ", t, 0);
    NotPrefix("### ", t, 0);
    NotPrefix("## ", t, 0);
    NotPrefix("# ", t, 0);
    NotPrefix("# Checklist:", t, 0);
    NotPrefix("## Section:", t, 0);
    NotPrefix("### Procedure:", t, 0);
  }

  // ----- one line each -----------------------------------------------------

  lemma StepBlank(hash: Hash, rest: seq<string>, st: State)
    requires Ready(st)
    ensures Step(hash, "", rest, st) == Ok(st)
  {
    TrimIsIdentity("");
  }

  lemma StepHeading(hash: Hash, t: string, rest: seq<string>, st: State)
    requires Ready(st)
    requires Trim(t) == t && Classify(t) != NoHeading && !IsRule(t) && t != ""
    ensures Step(hash, t, rest, st) == OnHeading(hash, Classify(t), st)
  {
  }

  lemma StepRule(hash: Hash, rest: seq<string>, st: State)
    requires Ready(st) && st.inRelationships
    ensures Step(hash, "---", rest, st) == Ok(st)
  {
    TrimIsIdentity("---");
  }

  /** The text after the dash of a printed bullet. */
  function BulletText(k: string, v: string): string {
    k + [':'] + if v == "" then "" else " " + v
  }

  lemma TrimBullet(k: string, v: string)
    requires k != "" && IsTrimmed(v)
    ensures Trim("- " + k + ": " + v) == "- " + BulletText(k, v)
  {
    var head := "- " + k + ":";
    if v == "" {
      assert "- " + k + ": " + v == head + " ";
      TrimTrailingBlank(head);
      assert head == "- " + BulletText(k, v);
    } else {
      assert "- " + k + ": " + v == (head + " ") + v;
      TrimPrefixed(head + " ", v);
      assert (head + " ") + v == "- " + BulletText(k, v);
    }
  }

  lemma StripEmphasisIsIdentity(k: string)
    requires k != "" && k[0] != '*' && k[0] != '_'
    ensures StripEmphasis(k) == k
  {
    assert |k| >= 4 ==> k[..2][0] == k[0];
  }

  /** A printed bullet is read back as its field name and value. */
  lemma BulletParses(k: string, v: string)
    requires k != "" && IsTrimmed(k) && ':' !in k && k[0] != '*' && k[0] != '_'
    requires IsTrimmed(v)
    ensures ParseBullet("- " + BulletText(k, v)) == Some(Field(k, v))
  {
    hide StripEmphasis, Trim, IndexOf;
    var rest := BulletText(k, v);
    var tail := if v == "" then "" else " " + v;
    var t := "- " + rest;
    assert t[1..] == [' '] + rest;
    TrimLeftOfBlankThen(rest);
    IndexOfPrefix(k, ':', tail);
    assert rest[..|k|] == k;
    assert rest[|k| + 1..] == tail;
    TrimIsIdentity(k);
    StripEmphasisIsIdentity(k);
    if v == "" { TrimIsIdentity(""); } else { TrimBlankThen(v); }
  }

  lemma TrimLeftOfBlankThen(s: string)
    requires s != "" && !IsSpace(s[0])
    ensures TrimLeft([' '] + s) == s
  {
    assert ([' '] + s)[1..] == s;
  }

  lemma FieldNameIsPlain(k: nat)
    requires k < 5
    ensures var n := FieldName(k); n != "" && IsTrimmed(n) && ':' !in n && n[0] != '*' && n[0] != '_'
  {
  }

  function Filled(b: Builder, v: string): Builder
    requires b.bullets < 5
  {
    (match b.bullets
     case 0 => b.(action := v)
     case 1 => b.(spec := v)
     case 2 => b.(result := v)
     case 3 => b.(statusText := v)
     case _ => b.(comment := v)).(bullets := b.bullets + 1)
  }

  lemma StepBullet(hash: Hash, v: string, rest: seq<string>, st: State)
    requires Ready(st) && !st.inRelationships
    requires st.builder.procedure != "" && st.builder.bullets < 5
    requires IsTrimmed(v) && (st.builder.bullets <= 1 ==> v != "")
    ensures Step(hash, "- " + FieldName(st.builder.bullets) + ": " + v, rest, st)
            == Ok(st.(builder := Filled(st.builder, v)))
  {
    var k := FieldName(st.builder.bullets);
    FieldNameIsPlain(st.builder.bullets);
    TrimBullet(k, v);
    BulletParses(k, v);
    var t := "- " + BulletText(k, v);
    assert t[0] == '-' && t[1] == ' ';
    BulletFills(t, v, st);
    StepOnBullet(hash, "- " + k + ": " + v, rest, st);
  }

  lemma BulletFills(t: string, v: string, st: State)
    requires st.builder.procedure != "" && st.builder.bullets < 5
    requires st.builder.bullets <= 1 ==> v != ""
    requires ParseBullet(t) == Some(Field(FieldName(st.builder.bullets), v))
    ensures OnBullet(t, st) == Ok(st.(builder := Filled(st.builder, v)))
  {
    hide ParseBullet;
  }

  lemma StepOnBullet(hash: Hash, raw: string, rest: seq<string>, st: State)
    requires Ready(st) && !st.inRelationships
    requires var t := Trim(raw); |t| > 1 && t[0] == '-' && t[1] == ' '
    ensures Step(hash, raw, rest, st) == OnBullet(Trim(raw), st)
  {
    ClassifyDash(Trim(raw));
  }

  lemma StepRelationship(hash: Hash, v: string, rest: seq<string>, st: State)
    requires Ready(st) && st.inRelationships
    requires IsTrimmed(v) && v != ""
    ensures var b := st.builder;
            Step(hash, "- " + v, rest, st) == Ok(st.(builder :=
              if !b.sourceSeen then b.(sourceSeen := true, sourceLine := v)
              else b.(relationshipLines := b.relationshipLines + [v])))
  {
    var t := "- " + v;
    TrimPrefixed("- ", v);
    ClassifyDash(t);
    assert t[1..] == " " + v;
    assert t[1] == ' ';
    assert !IsRule(t);
    TrimBlankThen(v);
  }

  // ----- running over a list of lines --------------------------------------

  lemma RunCons(hash: Hash, l: string, rest: seq<string>, st: State, next: State)
    requires Step(hash, l, rest, st) == Ok(next)
    ensures Run(hash, [l] + rest, st) == Run(hash, rest, next)
  {
    assert ([l] + rest)[1..] == rest;
  }
}
