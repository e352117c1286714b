/** Rows, relationships and identifiers shared by the parser, the exporter and the importers. */
module Checklist {
  import opened Text

  datatype Status = Unknown | Pass | Fail | NA | Other

  datatype Edge = Edge(predicateName: string, target: string)

  datatype TemplateRel = TemplateRel(subject: string, predicateName: string, target: string)

  datatype AddressRel = AddressRel(subject: string, predicateName: string, target: string)

  /** The fields of a stored row that the modelled code reads. */
  datatype Slug = Slug(
    slugId: string,
    instanceId: string,
    addressId: string,
    addressOrder: int,
    checklist: string,
    section: string,
    procedure: string,
    action: string,
    spec: string,
    result: string,
    status: Status,
    comment: string,
    instructions: string,
    relationships: seq<Edge>)

  const SLUG_SUCCESSOR := "slugSuccessor"
  const SLUG_PREDECESSOR := "slugPredecessor"

  // ----- status ----------------------------------------------------------

  function ParseStatus(value: string): Status {
    var lowered := ToLower(value);
    if lowered == "pass" then Pass
    else if lowered == "fail" then Fail
    else if lowered == "na" || lowered == "n/a" then NA
    else if lowered == "other" then Other
    else Unknown
  }

  function StatusToString(s: Status): string {
    match s
    case Pass => "Pass"
    case Fail => "Fail"
    case NA => "NA"
    case Other => "Other"
    case Unknown => "Unknown"
  }

  /** Printing and parsing a status agree on every status. */
  lemma StatusRoundTrip(s: Status)
    ensures ParseStatus(StatusToString(s)) == s
  {
    var t := ToLower(StatusToString(s));
    match s
    case Pass => assert t == "pass";
    case Fail => assert t == "fail";
    case NA => assert t == "na";
    case Other => assert t == "other";
    case Unknown => assert t == "unknown";
  }

  // ----- identifiers -----------------------------------------------------

  /** Crockford's alphabet, without I, L, O and U. */
  predicate IsBase32Char(c: char) {
    || '0' <= c <= '9' || 'A' <= c <= 'H' || c == 'J' || c == 'K' || c == 'M' || c == 'N'
    || 'P' <= c <= 'T' || 'V' <= c <= 'Z'
  }

  predicate IsBase32Id(s: string, length: nat) {
    |s| == length && forall i | 0 <= i < |s| :: IsBase32Char(s[i])
  }

  /** The 80 hash bits as ten bytes. */
  type Digest = d: seq<nat> | |d| == 10 && forall i | 0 <= i < 10 :: d[i] < 256
    witness [0, 0, 0, 0, 0, 0, 0, 0, 0, 0]

  /** The hash itself is a parameter of the model. */
  type Hash = string -> Digest

  function Base32Digit(k: nat): (c: char)
    requires k < 32
    ensures IsBase32Char(c)
  {
    var shift := if k < 10 then 48 else if k < 18 then 55 else if k < 20 then 56 else if k < 22 then 57
                 else if k < 27 then 58 else 59;
    (k + shift) as char
  }

  /** Eight base-32 digits from five bytes, most significant first. */
  function EncodeGroup(b: seq<nat>): (s: string)
    requires |b| == 5 && forall i | 0 <= i < 5 :: b[i] < 256
    ensures IsBase32Id(s, 8)
  {
    [ Base32Digit(b[0] / 8),
      Base32Digit(b[0] % 8 * 4 + b[1] / 64),
      Base32Digit(b[1] / 2 % 32),
      Base32Digit(b[1] % 2 * 16 + b[2] / 16),
      Base32Digit(b[2] % 16 * 2 + b[3] / 128),
      Base32Digit(b[3] / 4 % 32),
      Base32Digit(b[3] % 4 * 8 + b[4] / 32),
      Base32Digit(b[4] % 32) ]
  }

  function EncodeBase32(d: Digest): (s: string)
    ensures IsBase32Id(s, 16)
  {
    EncodeGroup(d[..5]) + EncodeGroup(d[5..])
  }

  function CollapseWhitespace(s: string): string {
    if s == "" then ""
    else if !IsSpace(s[0]) then [s[0]] + CollapseWhitespace(s[1..])
    else if |s| > 1 && IsSpace(s[1]) then CollapseWhitespace(s[1..])
    else " " + CollapseWhitespace(s[1..])
  }

  function CanonicalizeForHash(s: string): string {
    ToLower(CollapseWhitespace(Trim(s)))
  }

  function ComputeSlugId(hash: Hash, checklist: string, section: string, procedure: string, action: string,
                         spec: string, instructions: string): (id: string)
    ensures IsBase32Id(id, 16)
  {
    EncodeBase32(hash(
      CanonicalizeForHash(checklist) + "\n" + CanonicalizeForHash(section) + "\n" +
      CanonicalizeForHash(procedure) + "\n" + CanonicalizeForHash(action) + "\n" +
      CanonicalizeForHash(spec) + "\n" + CanonicalizeForHash(instructions)))
  }

  function ComposeAddressId(slugId: string, instanceId: string): string {
    slugId + instanceId
  }

  /** Identifiers carry no whitespace, colon, bar or parenthesis, so they survive trimming and splitting. */
  lemma IdsArePlain(s: string, n: nat)
    requires IsBase32Id(s, n)
    ensures IsTrimmed(s) && ' ' !in s && '\n' !in s && '\r' !in s && '|' !in s && '(' !in s && ')' !in s && ':' !in s
  {
  }

  // ----- export order ----------------------------------------------------

  /** The comparator the exporter hands to `std::sort`. */
  predicate Before(a: Slug, b: Slug) {
    var aOrdered, bOrdered := a.addressOrder > 0, b.addressOrder > 0;
    if aOrdered != bOrdered then aOrdered
    else if aOrdered && bOrdered && a.addressOrder != b.addressOrder then a.addressOrder < b.addressOrder
    else if a.section != b.section then StrLess(a.section, b.section)
    else if a.procedure != b.procedure then StrLess(a.procedure, b.procedure)
    else StrLess(a.action, b.action)
  }

  predicate EdgeBefore(a: Edge, b: Edge) {
    if a.predicateName != b.predicateName then StrLess(a.predicateName, b.predicateName)
    else StrLess(a.target, b.target)
  }

  /** `Before` is a strict weak order, as `std::sort` demands: asymmetric, and "not before" is transitive. */
  lemma BeforeIsStrictWeakOrder(a: Slug, b: Slug, c: Slug)
    ensures !(Before(a, b) && Before(b, a))
    ensures !Before(a, b) && !Before(b, c) ==> !Before(a, c)
  {
    StrLessTotal(a.section, b.section, c.section);
    StrLessTotal(a.procedure, b.procedure, c.procedure);
    StrLessTotal(a.action, b.action, c.action);
  }

  lemma StrLessTotal(a: string, b: string, c: string)
    ensures !(StrLess(a, b) && StrLess(b, a))
    ensures !(StrLess(b, c) && StrLess(c, b))
    ensures !(StrLess(a, c) && StrLess(c, a))
    ensures !StrLess(a, a)
    ensures StrLess(a, b) || a == b || StrLess(b, a)
    ensures StrLess(b, c) || b == c || StrLess(c, b)
    ensures StrLess(a, c) || a == c || StrLess(c, a)
    ensures StrLess(a, b) && StrLess(b, c) ==> StrLess(a, c)
    ensures StrLess(c, b) && StrLess(b, a) ==> StrLess(c, a)
  {
    StrLessTrichotomy(a, b);
    StrLessTrichotomy(b, c);
    StrLessTrichotomy(a, c);
    StrLessTrichotomy(a, a);
    if StrLess(a, b) && StrLess(b, c) { StrLessTransitive(a, b, c); }
    if StrLess(c, b) && StrLess(b, a) { StrLessTransitive(c, b, a); }
  }

  /** `EdgeBefore` is a strict total order. */
  lemma EdgeBeforeIsTotal(a: Edge, b: Edge, c: Edge)
    ensures !EdgeBefore(a, a)
    ensures EdgeBefore(a, b) || a == b || EdgeBefore(b, a)
    ensures !(EdgeBefore(a, b) && EdgeBefore(b, a))
    ensures EdgeBefore(a, b) && EdgeBefore(b, c) ==> EdgeBefore(a, c)
  {
    StrLessTotal(a.predicateName, b.predicateName, c.predicateName);
    StrLessTotal(a.target, b.target, c.target);
  }
}
