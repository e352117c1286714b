/** The UTF-8 decoder and encoder (RFC 3629, sections 3 and 4), and the scan for characters LaTeX cannot set. */
module Utf8 {

  type Bytes = seq<bv8>

  // ----- encoding -----------------------------------------------------------

  /** A Unicode scalar value: no surrogate, nothing above 0x10FFFF. */
  predicate IsScalar(c: bv32) {
    c < 0xD800 || 0xDFFF < c <= 0x10FFFF
  }

  function Trail(c: bv32): bv8 {
    0x80 | ((c & 0x3F) as bv8)
  }

  function EncodeUtf8(c: bv32): (r: Bytes)
    ensures 1 <= |r| <= 4
  {
    if c <= 0x7F then [c as bv8]
    else if c <= 0x7FF then [0xC0 | (((c >> 6) & 0x1F) as bv8), Trail(c)]
    else if c <= 0xFFFF then [0xE0 | (((c >> 12) & 0x0F) as bv8), Trail(c >> 6), Trail(c)]
    else Encode4(c)
  }

  function Encode4(c: bv32): Bytes {
    [0xF0 | (((c >> 18) & 0x07) as bv8), Trail(c >> 12), Trail(c >> 6), Trail(c)]
  }

  // ----- decoding -----------------------------------------------------------

  /** A character and the bytes it took, or one byte skipped. */
  datatype Decoded = Good(code: bv32, length: nat) | Bad

  predicate IsTrail(b: bv8) {
    b & 0xC0 == 0x80
  }

  function Join2(a: bv8, b: bv8): bv32 {
    (((a & 0x1F) as bv32) << 6) | ((b & 0x3F) as bv32)
  }

  function Join3(a: bv8, b: bv8, c: bv8): bv32 {
    (((a & 0x0F) as bv32) << 12) | (((b & 0x3F) as bv32) << 6) | ((c & 0x3F) as bv32)
  }

  function Join4(a: bv8, b: bv8, c: bv8, d: bv8): bv32 {
    (((a & 0x07) as bv32) << 18) | (((b & 0x3F) as bv32) << 12) | (((c & 0x3F) as bv32) << 6) | ((d & 0x3F) as bv32)
  }

  function Decode2(s: Bytes): Decoded
    requires s != []
  {
    if |s| < 2 || !IsTrail(s[1]) then Bad
    else
      var c := Join2(s[0], s[1]);
      if c < 0x80 then Bad else Good(c, 2)
  }

  function Decode3(s: Bytes): Decoded
    requires s != []
  {
    if |s| < 3 || !IsTrail(s[1]) || !IsTrail(s[2]) then Bad
    else
      var c := Join3(s[0], s[1], s[2]);
      if c < 0x800 || 0xD800 <= c <= 0xDFFF then Bad else Good(c, 3)
  }

  function Decode4(s: Bytes): Decoded
    requires s != []
  {
    if |s| < 4 || !IsTrail(s[1]) || !IsTrail(s[2]) || !IsTrail(s[3]) then Bad
    else
      var c := Join4(s[0], s[1], s[2], s[3]);
      if c < 0x10000 || c > 0x10FFFF then Bad else Good(c, 4)
  }

  /** The first character of a non-empty input. */
  function Decode(s: Bytes): (r: Decoded)
    requires s != []
    ensures r.Good? ==> 1 <= r.length <= |s|
  {
    if s[0] < 0x80 then Good(s[0] as bv32, 1)
    else if s[0] < 0xC2 then Bad
    else if s[0] & 0xE0 == 0xC0 then Decode2(s)
    else if s[0] & 0xF0 == 0xE0 then Decode3(s)
    else if s[0] & 0xF8 == 0xF0 then Decode4(s)
    else Bad
  }

  function Taken(d: Decoded): nat {
    if d.Good? then d.length else 1
  }

  /** The decoder as it runs, moving an index. It fails without moving only at the end of the input. */
  method DecodeUtf8(input: Bytes, start: int) returns (ok: bool, index: int, code: bv32)
    requires 0 <= start <= |input|
    ensures start == |input| ==> !ok && index == start
    ensures start < |input| ==> (
      var d := Decode(input[start..]);
      ok == d.Good? && index == start + Taken(d) <= |input| && (ok ==> code == d.code))
  {
    ok, index, code := false, start, 0;
    if index >= |input| {
      return;
    }
    var lead := input[index];
    if lead < 0x80 {
      return true, index + 1, lead as bv32;
    }
    if lead < 0xC2 {
      return false, index + 1, 0;
    }
    var remaining := |input| - index;
    if lead & 0xE0 == 0xC0 {
      if remaining < 2 || input[index + 1] & 0xC0 != 0x80 {
        return false, index + 1, 0;
      }
      code := (((lead & 0x1F) as bv32) << 6) | ((input[index + 1] & 0x3F) as bv32);
      if code < 0x80 {
        return false, index + 1, code;
      }
      return true, index + 2, code;
    }
    if lead & 0xF0 == 0xE0 {
      if remaining < 3 || input[index + 1] & 0xC0 != 0x80 || input[index + 2] & 0xC0 != 0x80 {
        return false, index + 1, 0;
      }
      code := (((lead & 0x0F) as bv32) << 12) | (((input[index + 1] & 0x3F) as bv32) << 6) |
              ((input[index + 2] & 0x3F) as bv32);
      if code < 0x800 || (code >= 0xD800 && code <= 0xDFFF) {
        return false, index + 1, code;
      }
      return true, index + 3, code;
    }
    if lead & 0xF8 == 0xF0 {
      if remaining < 4 || input[index + 1] & 0xC0 != 0x80 || input[index + 2] & 0xC0 != 0x80 ||
         input[index + 3] & 0xC0 != 0x80 {
        return false, index + 1, 0;
      }
      code := (((lead & 0x07) as bv32) << 18) | (((input[index + 1] & 0x3F) as bv32) << 12) |
              (((input[index + 2] & 0x3F) as bv32) << 6) | ((input[index + 3] & 0x3F) as bv32);
      if code < 0x10000 || code > 0x10FFFF {
        return false, index + 1, code;
      }
      return true, index + 4, code;
    }
    index := index + 1;
  }

  // ----- bits ---------------------------------------------------------------

  lemma SplitJoin2(a: bv8, b: bv8)
    requires a & 0xE0 == 0xC0 && IsTrail(b)
    ensures var c := Join2(a, b); c <= 0x7FF && 0xC0 | (((c >> 6) & 0x1F) as bv8) == a && Trail(c) == b
  {
  }

  lemma SplitJoin3(a: bv8, b: bv8, c: bv8)
    requires a & 0xF0 == 0xE0 && IsTrail(b) && IsTrail(c)
    ensures var d := Join3(a, b, c);
            d <= 0xFFFF && 0xE0 | (((d >> 12) & 0x0F) as bv8) == a && Trail(d >> 6) == b && Trail(d) == c
  {
  }

  lemma SplitJoin4(a: bv8, b: bv8, c: bv8, d: bv8)
    requires a & 0xF8 == 0xF0 && IsTrail(b) && IsTrail(c) && IsTrail(d)
    ensures Encode4(Join4(a, b, c, d)) == [a, b, c, d]
  {
  }

  lemma JoinSplit2(c: bv32)
    requires 0x80 <= c <= 0x7FF
    ensures var a := 0xC0 | (((c >> 6) & 0x1F) as bv8);
            a >= 0xC2 && a & 0xE0 == 0xC0 && IsTrail(Trail(c)) && Join2(a, Trail(c)) == c
  {
  }

  lemma JoinSplit3(c: bv32)
    requires 0x800 <= c <= 0xFFFF
    ensures var a := 0xE0 | (((c >> 12) & 0x0F) as bv8);
            && a >= 0xC2 && a & 0xE0 != 0xC0 && a & 0xF0 == 0xE0 && IsTrail(Trail(c >> 6)) && IsTrail(Trail(c))
            && Join3(a, Trail(c >> 6), Trail(c)) == c
  {
  }

  lemma JoinSplit4(c: bv32)
    requires 0x10000 <= c <= 0x10FFFF
    ensures var a := 0xF0 | (((c >> 18) & 0x07) as bv8);
            && a >= 0xC2 && a & 0xE0 != 0xC0 && a & 0xF0 != 0xE0 && a & 0xF8 == 0xF0
            && IsTrail(Trail(c >> 12)) && IsTrail(Trail(c >> 6)) && IsTrail(Trail(c))
            && Join4(a, Trail(c >> 12), Trail(c >> 6), Trail(c)) == c
  {
  }

  // ----- one character ------------------------------------------------------

  lemma DecodeOfEncode(c: bv32, s: Bytes)
    requires IsScalar(c) && EncodeUtf8(c) <= s
    ensures Decode(s) == Good(c, |EncodeUtf8(c)|)
  {
    hide Trail, IsTrail, Join2, Join3, Join4;
    assert forall i | 0 <= i < |EncodeUtf8(c)| :: s[i] == EncodeUtf8(c)[i];
    if 0x80 <= c <= 0x7FF {
      JoinSplit2(c);
    } else if 0x800 <= c <= 0xFFFF {
      JoinSplit3(c);
    } else if 0x10000 <= c {
      JoinSplit4(c);
    }
  }

  lemma EncodeOfDecode2(s: Bytes)
    requires s != [] && s[0] & 0xE0 == 0xC0 && Decode2(s).Good?
    ensures var d := Decode2(s); IsScalar(d.code) && EncodeUtf8(d.code) == s[..d.length]
  {
    hide Trail, IsTrail, Join2;
    SplitJoin2(s[0], s[1]);
  }

  lemma EncodeOfDecode3(s: Bytes)
    requires s != [] && s[0] & 0xF0 == 0xE0 && Decode3(s).Good?
    ensures var d := Decode3(s); IsScalar(d.code) && EncodeUtf8(d.code) == s[..d.length]
  {
    hide Trail, IsTrail, Join3;
    SplitJoin3(s[0], s[1], s[2]);
  }

  lemma EncodeOfDecode4(s: Bytes)
    requires s != [] && s[0] & 0xF8 == 0xF0 && Decode4(s).Good?
    ensures var d := Decode4(s); IsScalar(d.code) && EncodeUtf8(d.code) == s[..d.length]
  {
    hide IsTrail, Join4, EncodeUtf8, IsScalar, Encode4;
    SplitJoin4(s[0], s[1], s[2], s[3]);
    FourBytes(Join4(s[0], s[1], s[2], s[3]));
    assert s[..4] == [s[0], s[1], s[2], s[3]];
  }

  lemma FourBytes(c: bv32)
    requires 0x10000 <= c <= 0x10FFFF
    ensures IsScalar(c)
    ensures EncodeUtf8(c) == Encode4(c)
  {
    hide Encode4;
  }

  lemma EncodeOfDecode(s: Bytes)
    requires s != [] && Decode(s).Good?
    ensures var d := Decode(s); IsScalar(d.code) && EncodeUtf8(d.code) == s[..d.length]
  {
    hide Decode2, Decode3, Decode4;
    if s[0] < 0x80 {
      OneByte(s);
    } else {
      hide EncodeUtf8, IsScalar;
      if s[0] & 0xE0 == 0xC0 {
        EncodeOfDecode2(s);
      } else if s[0] & 0xF0 == 0xE0 {
        EncodeOfDecode3(s);
      } else if s[0] & 0xF8 == 0xF0 {
        EncodeOfDecode4(s);
      }
    }
  }

  lemma OneByte(s: Bytes)
    requires s != [] && s[0] < 0x80
    ensures IsScalar(s[0] as bv32) && EncodeUtf8(s[0] as bv32) == s[..1]
  {
    assert (s[0] as bv32) <= 0x7F && ((s[0] as bv32) as bv8) == s[0];
  }

  /** The decoder accepts a character exactly when the input starts with the encoding of a scalar value: no overlong
    * form, no surrogate, nothing above 0x10FFFF. */
  lemma DecodesExactly(s: Bytes, c: bv32, n: nat)
    requires s != []
    ensures Decode(s) == Good(c, n) <==> IsScalar(c) && EncodeUtf8(c) <= s && n == |EncodeUtf8(c)|
  {
    hide Decode, EncodeUtf8;
    if Decode(s) == Good(c, n) {
      EncodeOfDecode(s);
    }
    if IsScalar(c) && EncodeUtf8(c) <= s {
      DecodeOfEncode(c, s);
    }
  }

  // ----- whole inputs -------------------------------------------------------

  /** A decoded character. */
  datatype Code = Code(value: bv32)

  const REPLACEMENT := Code(0xFFFD)

  function CodeOf(d: Decoded): Code {
    if d.Good? then Code(d.code) else REPLACEMENT
  }

  /** The characters of an input, with a replacement character for each byte skipped. */
  function Codes(s: Bytes): seq<Code>
    decreases |s|
  {
    if s == [] then []
    else
      var d := Decode(s);
      [CodeOf(d)] + Codes(s[Taken(d)..])
  }

  predicate IsWellFormed(s: Bytes)
    decreases |s|
  {
    s != [] ==> Decode(s).Good? && IsWellFormed(s[Decode(s).length..])
  }

  function Encoded(cs: seq<Code>): Bytes {
    if cs == [] then [] else EncodeUtf8(cs[0].value) + Encoded(cs[1..])
  }

  predicate AreScalars(cs: seq<Code>) {
    forall i | 0 <= i < |cs| :: IsScalar(cs[i].value)
  }

  /** Decoding undoes encoding. */
  lemma {:induction false} CodesOfEncoded(cs: seq<Code>)
    requires AreScalars(cs)
    ensures Codes(Encoded(cs)) == cs && IsWellFormed(Encoded(cs))
    decreases |cs|
  {
    hide Decode, EncodeUtf8, IsScalar;
    if cs != [] {
      var s := Encoded(cs);
      DecodeOfEncode(cs[0].value, s);
      assert s[|EncodeUtf8(cs[0].value)|..] == Encoded(cs[1..]);
      CodesOfEncoded(cs[1..]);
    }
  }

  /** Encoding undoes decoding on every input the decoder accepts throughout, so those are exactly the encodings. */
  lemma {:induction false} EncodedOfCodes(s: Bytes)
    requires IsWellFormed(s)
    ensures AreScalars(Codes(s)) && Encoded(Codes(s)) == s
    decreases |s|
  {
    hide Decode, EncodeUtf8, IsScalar;
    if s != [] {
      var d := Decode(s);
      var rest := s[d.length..];
      EncodeOfDecode(s);
      EncodedOfCodes(rest);
      assert Codes(s) == [Code(d.code)] + Codes(rest);
      EncodedCons(Code(d.code), Codes(rest));
      assert s == s[..d.length] + rest;
    }
  }

  lemma EncodedCons(c: Code, cs: seq<Code>)
    ensures Encoded([c] + cs) == EncodeUtf8(c.value) + Encoded(cs)
    ensures IsScalar(c.value) && AreScalars(cs) ==> AreScalars([c] + cs)
  {
    assert ([c] + cs)[1..] == cs;
  }

  // ----- the scan -----------------------------------------------------------

  predicate IsLatexSupported(c: Code) {
    || c.value < 0x80 || 0xC0 <= c.value <= 0xFF
    || c.value in {0xA0, 0xA1, 0xB0, 0xB1, 0xB2, 0xB3, 0xB5, 0xB7, 0xBC, 0xBD, 0xBE, 0xBF, 0x3BC, 0x2013, 0x2014, 0x2018,
             0x2019, 0x201C, 0x201D, 0x2022, 0x2026, 0x2122, 0x2264, 0x2265}
  }

  datatype Warning = Warning(line: nat, column: nat, count: nat)

  type Seen = map<Code, Warning>

  function CountOf(seen: Seen, c: Code): nat {
    if c in seen then seen[c].count else 0
  }

  /** How often an unsupported character occurs in the lines. */
  function Occurrences(lines: seq<Bytes>, c: Code): nat {
    if lines == [] then 0
    else Occurrences(lines[..|lines| - 1], c) + multiset(Codes(lines[|lines| - 1]))[c]
  }

  /** The warning names a place where the character stands, lines and columns counted from one, and no earlier place
    * has it. */
  predicate IsFirst(lines: seq<Bytes>, w: Warning, c: Code) {
    && 1 <= w.line <= |lines| && 1 <= w.column <= |Codes(lines[w.line - 1])|
    && Codes(lines[w.line - 1])[w.column - 1] == c
    && c !in Codes(lines[w.line - 1])[..w.column - 1]
    && forall i | 0 <= i < w.line - 1 :: c !in Codes(lines[i])
  }

  /** One position of a line. */
  function Note(seen: Seen, c: Code, line: nat, column: nat): Seen {
    if IsLatexSupported(c) then seen
    else if c in seen then seen[c := seen[c].(count := seen[c].count + 1)]
    else seen[c := Warning(line, column, 1)]
  }

  function NoteAll(seen: Seen, cs: seq<Code>, line: nat): Seen {
    if cs == [] then seen
    else Note(NoteAll(seen, cs[..|cs| - 1], line), cs[|cs| - 1], line, |cs|)
  }

  lemma {:induction false} CodesCut(s: Bytes, k: nat)
    requires k < |s|
    ensures var d := Decode(s[k..]);
            && k + Taken(d) <= |s|
            && Codes(s[k..]) == [CodeOf(d)] + Codes(s[k + Taken(d)..])
  {
    hide Decode;
    var d := Decode(s[k..]);
    assert s[k..][Taken(d)..] == s[k + Taken(d)..];
  }

  /** The decoding loop over one line: it always moves on and stops exactly at the line's end. */
  method ScanLine(start: Seen, line: Bytes, number: nat) returns (seen: Seen)
    ensures seen == NoteAll(start, Codes(line), number)
  {
    hide Decode, Note, Codes, NoteAll;
    seen := start;
    NoCodes(start, number);
    var index, column := 0, 1;
    ghost var done: seq<Code> := [];
    assert line[0..] == line;
    while index < |line|
      invariant index <= |line| && column == |done| + 1
      invariant done + Codes(line[index..]) == Codes(line)
      invariant seen == NoteAll(start, done, number)
      decreases |line| - index
    {
      CodesCut(line, index);
      var ok, next, value := DecodeUtf8(line, index);
      var code := if ok then Code(value) else REPLACEMENT;
      seen := Note(seen, code, number, column);
      NoteAllSnoc(start, done, code, number);
      assert done + ([code] + Codes(line[next..])) == done + [code] + Codes(line[next..]);
      done := done + [code];
      index, column := next, column + 1;
    }
    assert line[index..] == [] && done + [] == done;
  }

  lemma NoCodes(seen: Seen, line: nat)
    ensures Codes([]) == [] && NoteAll(seen, [], line) == seen
  {
  }

  lemma NoteAllSnoc(seen: Seen, cs: seq<Code>, c: Code, line: nat)
    ensures NoteAll(seen, cs + [c], line) == Note(NoteAll(seen, cs, line), c, line, |cs| + 1)
  {
    assert (cs + [c])[..|cs|] == cs;
  }

  method ScanUnsupportedLatexUnicode(lines: seq<Bytes>) returns (seen: Seen)
    ensures forall c :: CountOf(seen, c) == if IsLatexSupported(c) then 0 else Occurrences(lines, c)
    ensures forall c | c in seen :: seen[c].count > 0 && IsFirst(lines, seen[c], c)
  {
    hide Codes, IsLatexSupported, IsFirst, NoteAll, Occurrences, CountOf;
    seen := map[];
    NothingSeen(lines[..0]);
    for n := 0 to |lines|
      invariant forall c :: CountOf(seen, c) == if IsLatexSupported(c) then 0 else Occurrences(lines[..n], c)
      invariant forall c | c in seen :: seen[c].count > 0 && IsFirst(lines[..n], seen[c], c)
    {
      ghost var before := seen;
      seen := ScanLine(seen, lines[n], n + 1);
      LineNoted(lines[..n], before, lines[n], seen);
      assert lines[..n] + [lines[n]] == lines[..n + 1];
    }
    assert lines[..|lines|] == lines;
  }

  lemma NothingSeen(none: seq<Bytes>)
    requires none == []
    ensures forall c :: CountOf(map[], c) == 0 == Occurrences(none, c)
  {
  }

  /** What one line adds to the warnings. */
  lemma LineNoted(lines: seq<Bytes>, before: Seen, line: Bytes, after: Seen)
    requires forall c :: CountOf(before, c) == if IsLatexSupported(c) then 0 else Occurrences(lines, c)
    requires forall c | c in before :: before[c].count > 0 && IsFirst(lines, before[c], c)
    requires after == NoteAll(before, Codes(line), |lines| + 1)
    ensures forall c :: CountOf(after, c) == if IsLatexSupported(c) then 0 else Occurrences(lines + [line], c)
    ensures forall c | c in after :: after[c].count > 0 && IsFirst(lines + [line], after[c], c)
  {
    hide Codes, IsLatexSupported, IsFirst, NoteAll, CountOf;
    var cs := Codes(line);
    forall c
      ensures CountOf(after, c) == if IsLatexSupported(c) then 0 else Occurrences(lines + [line], c)
    {
      Tally(before, cs, |lines| + 1, c);
      assert (lines + [line])[..|lines|] == lines;
    }
    CountsArePositive(before, cs, |lines| + 1);
    forall c | c in after ensures IsFirst(lines + [line], after[c], c) {
      PlacesNoted(before, cs, |lines| + 1, c);
      Tally(before, cs, |lines| + 1, c);
      NewIsUnsupported(before, after, c);
      FirstNoted(lines, before, line, after, c);
    }
  }

  lemma NewIsUnsupported(before: Seen, after: Seen, c: Code)
    requires c in after && after[c].count > 0 && (IsLatexSupported(c) ==> CountOf(after, c) == CountOf(before, c))
    ensures c !in before ==> !IsLatexSupported(c)
  {
    hide IsLatexSupported;
  }

  lemma FirstNoted(lines: seq<Bytes>, before: Seen, line: Bytes, after: Seen, c: Code)
    requires CountOf(before, c) == if IsLatexSupported(c) then 0 else Occurrences(lines, c)
    requires c in before ==> IsFirst(lines, before[c], c)
    requires c in after && IsNoted(before, after, Codes(line), |lines| + 1, c)
    requires c !in before ==> !IsLatexSupported(c)
    ensures IsFirst(lines + [line], after[c], c)
  {
    hide Codes, IsLatexSupported, Occurrences, IsFirst;
    if c in before {
      FirstLasts(lines, line, before[c], after[c], c);
    } else {
      forall i | 0 <= i < |lines| ensures c !in Codes(lines[i]) {
        NoneMeansAbsent(lines, c, i);
      }
      FirstInLastLine(lines, line, after[c], c);
    }
  }

  lemma FirstLasts(lines: seq<Bytes>, line: Bytes, v: Warning, w: Warning, c: Code)
    requires IsFirst(lines, v, c) && w.line == v.line && w.column == v.column
    ensures IsFirst(lines + [line], w, c)
  {
    hide Codes;
    var all := lines + [line];
    assert forall i | 0 <= i < |lines| :: all[i] == lines[i];
  }

  lemma FirstInLastLine(lines: seq<Bytes>, line: Bytes, w: Warning, c: Code)
    requires forall i | 0 <= i < |lines| :: c !in Codes(lines[i])
    requires w.line == |lines| + 1 && 1 <= w.column <= |Codes(line)| && Codes(line)[w.column - 1] == c
    requires c !in Codes(line)[..w.column - 1]
    ensures IsFirst(lines + [line], w, c)
  {
    hide Codes;
    var all := lines + [line];
    assert forall i | 0 <= i < |lines| :: all[i] == lines[i];
    assert all[|lines|] == line;
  }

  lemma {:induction false} NoneMeansAbsent(lines: seq<Bytes>, c: Code, i: nat)
    requires i < |lines| && Occurrences(lines, c) == 0
    ensures c !in Codes(lines[i])
    decreases |lines|
  {
    hide Codes;
    if i < |lines| - 1 {
      NoneMeansAbsent(lines[..|lines| - 1], c, i);
    } else {
      var cs := Codes(lines[i]);
      assert c !in multiset(cs);
    }
  }

  lemma NoteCounts(seen: Seen, x: Code, line: nat, column: nat, c: Code)
    ensures CountOf(Note(seen, x, line, column), c) ==
            CountOf(seen, c) + (if x == c && !IsLatexSupported(c) then 1 else 0)
  {
    hide IsLatexSupported;
  }

  /** A line adds a character's occurrences to its count. */
  lemma {:induction false} Tally(before: Seen, cs: seq<Code>, line: nat, c: Code)
    ensures CountOf(NoteAll(before, cs, line), c) ==
            CountOf(before, c) + (if IsLatexSupported(c) then 0 else multiset(cs)[c])
    decreases |cs|
  {
    hide IsLatexSupported, Note, CountOf;
    if cs != [] {
      var n := |cs| - 1;
      Tally(before, cs[..n], line, c);
      assert cs == cs[..n] + [cs[n]];
      NoteCounts(NoteAll(before, cs[..n], line), cs[n], line, |cs|, c);
    }
  }

  /** A warning keeps its place; a new one points to the first occurrence in the line. */
  predicate IsNoted(before: Seen, after: Seen, cs: seq<Code>, line: nat, c: Code) {
    if c in before then c in after && after[c].line == before[c].line && after[c].column == before[c].column
    else if c in after then (
      && after[c].line == line && 1 <= after[c].column <= |cs| && cs[after[c].column - 1] == c
      && c !in cs[..after[c].column - 1])
    else c !in cs || IsLatexSupported(c)
  }

  lemma NoteIsNoted(before: Seen, mid: Seen, cs: seq<Code>, x: Code, line: nat, c: Code)
    requires IsNoted(before, mid, cs, line, c)
    ensures IsNoted(before, Note(mid, x, line, |cs| + 1), cs + [x], line, c)
  {
    hide IsLatexSupported;
    var after := Note(mid, x, line, |cs| + 1);
    var all := cs + [x];
    if c !in before && c in after {
      var k := after[c].column - 1;
      assert c in mid ==> k < |cs| && all[..k] == cs[..k] && all[k] == cs[k];
      assert c !in mid ==> k == |cs| && all[..k] == cs && all[k] == c;
    }
  }

  lemma {:induction false} PlacesNoted(before: Seen, cs: seq<Code>, line: nat, c: Code)
    ensures IsNoted(before, NoteAll(before, cs, line), cs, line, c)
    decreases |cs|
  {
    hide IsLatexSupported, Note, IsNoted;
    if cs == [] {
      NothingNoted(before, line, c);
    } else {
      var n := |cs| - 1;
      PlacesNoted(before, cs[..n], line, c);
      NoteIsNoted(before, NoteAll(before, cs[..n], line), cs[..n], cs[n], line, c);
      assert cs == cs[..n] + [cs[n]];
    }
  }

  lemma NothingNoted(before: Seen, line: nat, c: Code)
    ensures IsNoted(before, before, [], line, c)
  {
  }

  lemma {:induction false} CountsArePositive(before: Seen, cs: seq<Code>, line: nat)
    requires forall c | c in before :: before[c].count > 0
    ensures forall c | c in NoteAll(before, cs, line) :: NoteAll(before, cs, line)[c].count > 0
    decreases |cs|
  {
    hide IsLatexSupported;
    if cs != [] {
      CountsArePositive(before, cs[..|cs| - 1], line);
    }
  }
}
