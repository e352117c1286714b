/** The second pass of the parser: relationship blocks become template and address relationships. */
module MarkdownLinks {
  import opened Text
  import opened Checklist
  import opened MarkdownParser

  datatype Links = Links(template: seq<TemplateRel>, address: seq<AddressRel>) {
    function Plus(more: Links): Links {
      Links(template + more.template, address + more.address)
    }
  }

  const NO_LINKS := Links([], [])

  predicate IsAlpha(c: char) {
    'A' <= c <= 'Z' || 'a' <= c <= 'z'
  }

  predicate IsPredicateToken(s: string) {
    && 0 < |s| <= 128
    && IsAlpha(s[0])
    && forall i | 0 <= i < |s| :: IsAlpha(s[i]) || '0' <= s[i] <= '9' || s[i] == '_'
  }

  datatype AddressParts = AddressParts(slugId: string, instanceId: string)

  /** 32 base-32 digits, or two identifiers joined by `||`. */
  function SplitAddressId(s: string): Option<AddressParts> {
    if IsBase32Id(s, 32) then Some(AddressParts(s[..16], s[16..]))
    else if |s| == 34 && s[16..18] == "||" && IsBase32Id(s[..16], 16) && IsBase32Id(s[18..], 16)
    then Some(AddressParts(s[..16], s[18..]))
    else None
  }

  /** Top-level commas separate, parentheses nest. */
  function SplitTupleFields(inner: string, current: string, depth: nat): seq<string> {
    if inner == "" then [Trim(current)]
    else if inner[0] == '(' then SplitTupleFields(inner[1..], current + [inner[0]], depth + 1)
    else if inner[0] == ')' && depth > 0 then SplitTupleFields(inner[1..], current + [inner[0]], depth - 1)
    else if inner[0] == ',' && depth == 0 then [Trim(current)] + SplitTupleFields(inner[1..], "", 0)
    else SplitTupleFields(inner[1..], current + [inner[0]], depth)
  }

  datatype Target = InvalidTarget | SlugTarget(slugId: string) | AddressTarget(parts: AddressParts)
                  | TupleTarget(section: string, procedure: string)

  function ParseTuple(t: string): Target {
    if |t| < 2 || t[0] != '(' || t[|t| - 1] != ')' then InvalidTarget else
      var inner := Trim(t[1..|t| - 1]);
      if inner == "" then InvalidTarget else
        var fields := SplitTupleFields(inner, "", 0);
        if |fields| == 2 && fields[0] != "" && fields[1] != "" then TupleTarget(fields[0], fields[1])
        else InvalidTarget
  }

  function ParseTarget(s: string): Target {
    var t := Trim(s);
    match SplitAddressId(t)
    case Some(parts) => AddressTarget(parts)
    case None => if IsBase32Id(t, 16) then SlugTarget(t) else ParseTuple(t)
  }

  /** Who a relationships block speaks for. */
  datatype Source = SlugSource | AddressSource(addressId: string, instanceId: string) | InvalidSource

  function ParseSource(s: string): Source {
    var t := Trim(s);
    match SplitAddressId(t)
    case Some(parts) => AddressSource(parts.slugId + parts.instanceId, parts.instanceId)
    case None => if IsBase32Id(t, 16) then SlugSource else InvalidSource
  }

  function LegacySlugId(s: string): Option<string> {
    var t := Trim(s);
    match SplitAddressId(t)
    case Some(parts) => Some(parts.slugId)
    case None => if IsBase32Id(t, 16) then Some(t) else None
  }

  /** An identity other than the computed one is recorded as its predecessor, in both directions. */
  function LineagePair(former: string, current: string): Links {
    Links([TemplateRel(former, SLUG_SUCCESSOR, current), TemplateRel(current, SLUG_PREDECESSOR, former)], [])
  }

  function LegacyLinks(s: string, subject: string): Links {
    match LegacySlugId(s)
    case Some(former) => if former != subject then LineagePair(former, subject) else NO_LINKS
    case None => NO_LINKS
  }

  /** All rows whose section and procedure form the given key, in file order. */
  function RowsAt(slugs: seq<Slug>, section: string, procedure: string): seq<string> {
    if slugs == [] then []
    else
      (if slugs[0].section + "\n" + slugs[0].procedure == section + "\n" + procedure
       then [slugs[0].slugId] else []) +
      RowsAt(slugs[1..], section, procedure)
  }

  function TemplateLinks(subject: string, p: string, targets: seq<string>): Links {
    Links(seq(|targets|, i requires 0 <= i < |targets| => TemplateRel(subject, p, targets[i])), [])
  }

  function AddressLinks(subject: string, p: string, targets: seq<string>): Links {
    Links([], seq(|targets|, i requires 0 <= i < |targets| => AddressRel(subject, p, targets[i])))
  }

  function Composed(slugIds: seq<string>, instanceId: string): seq<string> {
    seq(|slugIds|, i requires 0 <= i < |slugIds| => ComposeAddressId(slugIds[i], instanceId))
  }

  function EdgeLinks(slugs: seq<Slug>, subject: string, source: Source, p: string, target: Target): Links
    requires source != InvalidSource
  {
    match source
    case SlugSource =>
      (match target
       case SlugTarget(id) => TemplateLinks(subject, p, [id])
       case AddressTarget(parts) => TemplateLinks(subject, p, [parts.slugId])
       case TupleTarget(s, pr) => TemplateLinks(subject, p, RowsAt(slugs, s, pr))
       case InvalidTarget => NO_LINKS)
    case AddressSource(addressId, instanceId) =>
      (match target
       case SlugTarget(id) => AddressLinks(addressId, p, [ComposeAddressId(id, instanceId)])
       case AddressTarget(parts) => AddressLinks(addressId, p, [parts.slugId + parts.instanceId])
       case TupleTarget(s, pr) => AddressLinks(addressId, p, Composed(RowsAt(slugs, s, pr), instanceId))
       case InvalidTarget => NO_LINKS)
  }

  function LineLinks(slugs: seq<Slug>, subject: string, source: Source, line: string): Links
    requires source != InvalidSource
  {
    var space := IndexOf(line, ' ');
    if space == |line| then LegacyLinks(line, subject) else
      var p, target := Trim(line[..space]), Trim(line[space + 1..]);
      if p == "" || target == "" || !IsPredicateToken(p) then NO_LINKS
      else EdgeLinks(slugs, subject, source, p, ParseTarget(target))
  }

  function LinesLinks(slugs: seq<Slug>, subject: string, source: Source, lines: seq<string>): Links
    requires source != InvalidSource
  {
    if lines == [] then NO_LINKS
    else LineLinks(slugs, subject, source, lines[0]).Plus(LinesLinks(slugs, subject, source, lines[1..]))
  }

  /** A block without a usable source line speaks for the computed id; a bad source line is kept as an edge line. */
  function SectionLinks(slugs: seq<Slug>, sec: RelSection): Links {
    if !sec.sourcePresent then LinesLinks(slugs, sec.subject, SlugSource, sec.lines) else
      var source := ParseSource(sec.source);
      var kept := if source == InvalidSource && sec.source != "" then [sec.source] + sec.lines else sec.lines;
      LegacyLinks(sec.source, sec.subject).Plus(
        LinesLinks(slugs, sec.subject, if source == InvalidSource then SlugSource else source, kept))
  }

  function AllLinks(slugs: seq<Slug>, sections: seq<RelSection>): Links {
    if sections == [] then NO_LINKS
    else SectionLinks(slugs, sections[0]).Plus(AllLinks(slugs, sections[1..]))
  }

  // ----- the whole parser ------------------------------------------------

  datatype Parsed = Parsed(checklist: string, slugs: seq<Slug>, template: seq<TemplateRel>, address: seq<AddressRel>)

  function StripBom(s: string): string {
    if |s| >= 3 && s[0] as int == 0xEF && s[1] as int == 0xBB && s[2] as int == 0xBF then s[3..] else s
  }

  function StripCr(l: string): string {
    if l != "" && l[|l| - 1] == '\r' then l[..|l| - 1] else l
  }

  function StripCrs(ls: seq<string>): (r: seq<string>)
    ensures |r| == |ls|
  {
    seq(|ls|, i requires 0 <= i < |ls| => StripCr(ls[i]))
  }

  function InputLines(content: string): seq<string> {
    StripCrs(Lines(StripBom(content)))
  }

  function Complete(f: State): Parsed {
    var links := AllLinks(f.slugs, f.relSections);
    Parsed(f.checklist, f.slugs, links.template, links.address)
  }

  function ParseText(hash: Hash, name: string, content: string): Result<Parsed, ParseError> {
    var st :- Run(hash, InputLines(content), InitialState(name));
    var f :- Finish(hash, st);
    Ok(Complete(f))
  }
}
