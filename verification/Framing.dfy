/** Content-Length framing of the MCP bridge, on byte strings; the JSON inside a body is not looked at. */
module Framing {
  import opened Text

  // ----- decimal numbers ----------------------------------------------------

  predicate IsDigit(c: char) {
    '0' <= c <= '9'
  }

  function Digit(n: nat): char
    requires n < 10
  {
    '0' + n as char
  }

  function ToDecimal(n: nat): (s: string)
    ensures s != "" && forall i | 0 <= i < |s| :: IsDigit(s[i])
  {
    if n < 10 then [Digit(n)] else ToDecimal(n / 10) + [Digit(n % 10)]
  }

  /** The longest prefix of digits. */
  function Digits(s: string): string {
    if s != "" && IsDigit(s[0]) then [s[0]] + Digits(s[1..]) else ""
  }

  function ValueOf(digits: string): nat {
    if digits == "" then 0
    else 10 * ValueOf(digits[..|digits| - 1]) + Number(digits[|digits| - 1])
  }

  function Number(c: char): nat {
    if IsDigit(c) then (c - '0') as nat else 0
  }

  lemma {:induction false} ValueOfDecimal(n: nat)
    ensures ValueOf(ToDecimal(n)) == n
    decreases n
  {
    if n < 10 {
      assert [Digit(n)][..0] == "";
    } else {
      ValueOfDecimal(n / 10);
      assert ToDecimal(n)[..|ToDecimal(n)| - 1] == ToDecimal(n / 10);
    }
  }

  lemma {:induction false} DigitsOfDigits(s: string)
    requires forall i | 0 <= i < |s| :: IsDigit(s[i])
    ensures Digits(s) == s
    decreases |s|
  {
    if s != "" {
      DigitsOfDigits(s[1..]);
    }
  }

  datatype LengthError = NoDigits | OutOfRange

  /** `std::stoul`: blanks, a sign, digits, and nothing said about what follows. `max` is the largest unsigned long. */
  function Stoul(value: string, max: nat): Result<nat, LengthError> {
    var t := TrimLeft(value);
    var signed := t != "" && (t[0] == '-' || t[0] == '+');
    var digits := Digits(if signed then t[1..] else t);
    if digits == "" then Err(NoDigits)
    else if ValueOf(digits) > max then Err(OutOfRange)
    else if t[0] == '-' then Ok((max + 1 - ValueOf(digits)) % (max + 1))
    else Ok(ValueOf(digits))
  }

  lemma StoulOfDecimal(n: nat, max: nat)
    ensures Stoul(ToDecimal(n), max) == if n <= max then Ok(n) else Err(OutOfRange)
  {
    var s := ToDecimal(n);
    assert IsDigit(s[0]);
    DigitsOfDigits(s);
    ValueOfDecimal(n);
  }

  // ----- header lines -------------------------------------------------------

  function DropCr(line: string): string {
    if line != "" && line[|line| - 1] == '\r' then line[..|line| - 1] else line
  }

  function WithoutSpaces(s: string): string {
    if s == "" then "" else (if IsSpace(s[0]) then "" else [s[0]]) + WithoutSpaces(s[1..])
  }

  function KeyOf(line: string): string {
    ToLower(WithoutSpaces(line[..IndexOf(line, ':')]))
  }

  function ValuePart(line: string): string
    requires ':' in line
  {
    DropCr(TrimLeft(line[IndexOf(line, ':') + 1..]))
  }

  /** The length in force after one header line; lines without a colon and other keys change nothing. */
  function HeaderLength(line: string, length: nat, max: nat): Result<nat, LengthError> {
    if ':' in line && KeyOf(line) == "content-length" then Stoul(ValuePart(line), max) else Ok(length)
  }

  function FirstLine(s: string): string {
    s[..IndexOf(s, '\n')]
  }

  function AfterLine(s: string): (r: string)
    requires s != ""
    ensures |r| < |s|
  {
    if IndexOf(s, '\n') == |s| then "" else s[IndexOf(s, '\n') + 1..]
  }

  /** Reads header lines up to a blank one or the end of the input: the length, and what is left. */
  function Headers(s: string, length: nat, max: nat): (r: Result<(nat, string), LengthError>)
    ensures r.Ok? ==> |r.value.1| <= |s|
    decreases |s|
  {
    if s == "" then Ok((length, ""))
    else
      var line := DropCr(FirstLine(s));
      if line == "" then Ok((length, AfterLine(s)))
      else
        match HeaderLength(line, length, max)
        case Err(e) => Err(e)
        case Ok(next) => Headers(AfterLine(s), next, max)
  }

  /** A message body, or none: no length, or too few bytes (all of them are then gone). */
  datatype Frame = Body(bytes: string) | Nothing

  function TakeBody(length: nat, rest: string): (r: (Frame, string))
    ensures |r.1| <= |rest| && (r.0.Body? ==> |r.1| < |rest|)
  {
    if length == 0 then (Nothing, rest)
    else if |rest| < length then (Nothing, "")
    else (Body(rest[..length]), rest[length..])
  }

  /** One call of the reader on the pending input: its answer and the input left; an error is an exception. */
  function Receive(s: string, max: nat): (r: Result<(Frame, string), LengthError>)
    ensures r.Ok? && r.value.0.Body? ==> |r.value.1| < |s|
  {
    match Headers(s, 0, max)
    case Err(e) => Err(e)
    case Ok(p) => Ok(TakeBody(p.0, p.1))
  }

  function Framed(body: string): string {
    "Content-Length: " + ToDecimal(|body|) + "\r\n\r\n" + body
  }

  // ----- the streams --------------------------------------------------------

  class InputStream {
    var pending: string

    constructor (bytes: string)
      ensures pending == bytes
    {
      pending := bytes;
    }

    /** `std::getline`: false at the end of the input. */
    method GetLine() returns (ok: bool, line: string)
      modifies this
      ensures old(pending) == "" ==> !ok && pending == ""
      ensures old(pending) != "" ==> ok && line == FirstLine(old(pending)) && pending == AfterLine(old(pending))
    {
      if pending == "" {
        return false, "";
      }
      var k := IndexOf(pending, '\n');
      ok, line := true, pending[..k];
      pending := if k == |pending| then "" else pending[k + 1..];
    }

    method Read(n: nat) returns (bytes: string)
      modifies this
      ensures |bytes| <= n && bytes + pending == old(pending) && (|bytes| < n ==> pending == "")
    {
      var k := if n <= |pending| then n else |pending|;
      bytes, pending := pending[..k], pending[k..];
    }

    /** The header loop. */
    method ReadHeaders(max: nat) returns (r: Result<nat, LengthError>)
      modifies this
      ensures match Headers(old(pending), 0, max)
              case Ok(p) => r == Ok(p.0) && pending == p.1
              case Err(e) => r == Err(e)
    {
      hide HeaderLength, DropCr, FirstLine, AfterLine;
      var length: nat := 0;
      ghost var before := pending;
      var ok, line := GetLine();
      while ok
        invariant ok ==> before != "" && line == FirstLine(before) && pending == AfterLine(before)
        invariant !ok ==> before == "" == pending
        invariant Headers(before, length, max) == Headers(old(pending), 0, max)
        decreases |before|, ok
      {
        line := DropCr(line);
        if line == "" {
          break;
        }
        var next := ReadHeader(line, length, max);
        if next.Err? {
          return next;
        }
        length := next.value;
        before := pending;
        ok, line := GetLine();
      }
      r := Ok(length);
    }

    static method ReadHeader(line: string, length: nat, max: nat) returns (r: Result<nat, LengthError>)
      ensures r == HeaderLength(line, length, max)
    {
      var colon := IndexOf(line, ':');
      if colon == |line| {
        return Ok(length);
      }
      var key := ToLower(WithoutSpaces(line[..colon]));
      var value := TrimLeft(line[colon + 1..]);
      if value != "" && value[|value| - 1] == '\r' {
        value := value[..|value| - 1];
      }
      r := Ok(length);
      if key == "content-length" {
        r := Stoul(value, max);
      }
    }

    method ReadMessage(max: nat) returns (r: Result<Frame, LengthError>)
      modifies this
      ensures match Receive(old(pending), max)
              case Ok(p) => r == Ok(p.0) && pending == p.1
              case Err(e) => r == Err(e)
    {
      hide Headers;
      var length := ReadHeaders(max);
      if length.Err? {
        return Err(length.error);
      }
      if length.value == 0 {
        return Ok(Nothing);
      }
      var rest := pending;
      var body := Read(length.value);
      if |body| != length.value {
        return Ok(Nothing);
      }
      assert rest[..length.value] == body && rest[length.value..] == pending;
      r := Ok(Body(body));
    }
  }

  class OutputStream {
    var written: string

    constructor ()
      ensures written == ""
    {
      written := "";
    }

    method WriteMessage(serialized: string)
      modifies this
      ensures written == old(written) + Framed(serialized)
    {
      written := written + "Content-Length: ";
      written := written + ToDecimal(|serialized|);
      written := written + "\r\n\r\n";
      written := written + serialized;
    }
  }

  // ----- one message --------------------------------------------------------

  lemma {:induction false} WithoutSpacesKeeps(s: string)
    requires forall i | 0 <= i < |s| :: !IsSpace(s[i])
    ensures WithoutSpaces(s) == s
    decreases |s|
  {
    if s != "" {
      WithoutSpacesKeeps(s[1..]);
    }
  }

  const KEY := "Content-Length"

  lemma KeyText()
    ensures |KEY| == 14 && ':' !in KEY && WithoutSpaces(KEY) == KEY && ToLower(KEY) == "content-length"
  {
    hide WithoutSpaces;
    assert forall i | 0 <= i < |KEY| :: !IsSpace(KEY[i]);
    WithoutSpacesKeeps(KEY);
    assert forall i | 0 <= i < |KEY| :: LowerChar(KEY[i]) == "content-length"[i];
  }

  lemma KeyOfHeader(value: string)
    ensures var line := KEY + [':'] + value; ':' in line && IndexOf(line, ':') == 14 && KeyOf(line) == "content-length"
  {
    hide WithoutSpaces, ToLower, IndexOf, KEY;
    var line := KEY + [':'] + value;
    KeyText();
    IndexOfPrefix(KEY, ':', value);
    assert line[..14] == KEY && line[14] == ':';
  }

  lemma KeySpelled()
    ensures "Content-Length: " == KEY + ": " && |KEY| == 14
  {
  }

  lemma TrimLeftBlank(d: string)
    requires d != "" && !IsSpace(d[0]) && d[|d| - 1] != '\r'
    ensures DropCr(TrimLeft(" " + d)) == d
  {
    assert (" " + d)[1..] == d;
  }

  lemma HeaderOfLength(n: nat, max: nat)
    ensures HeaderLength("Content-Length: " + ToDecimal(n), 0, max) ==
            if n <= max then Ok(n) else Err(OutOfRange)
  {
    hide KeyOf, Stoul, IndexOf, ToDecimal, KEY;
    var d := ToDecimal(n);
    var line := KEY + [':'] + (" " + d);
    KeySpelled();
    assert "Content-Length: " + d == line;
    KeyOfHeader(" " + d);
    assert line[15..] == " " + d;
    assert IsDigit(d[0]) && IsDigit(d[|d| - 1]);
    TrimLeftBlank(d);
    StoulOfDecimal(n, max);
  }

  lemma LineCut(line: string, rest: string)
    requires '\n' !in line
    ensures var s := line + "\r\n" + rest;
            s != "" && DropCr(FirstLine(s)) == line && AfterLine(s) == rest
  {
    var s := line + "\r\n" + rest;
    assert s == (line + ['\r']) + ['\n'] + rest;
    IndexOfPrefix(line + ['\r'], '\n', rest);
    assert s[..|line| + 1] == line + ['\r'];
  }

  lemma HeadersOfFramed(body: string, rest: string, max: nat)
    ensures Headers(Framed(body) + rest, 0, max) ==
            if |body| <= max then Ok((|body|, body + rest)) else Err(OutOfRange)
  {
    hide HeaderLength, FirstLine, AfterLine, DropCr, ToDecimal;
    var line := "Content-Length: " + ToDecimal(|body|);
    var tail := "" + "\r\n" + (body + rest);
    assert Framed(body) + rest == line + "\r\n" + tail;
    assert '\n' !in line;
    HeaderOfLength(|body|, max);
    LineCut(line, tail);
    LineCut("", body + rest);
    assert Headers(tail, |body|, max) == Ok((|body|, body + rest));
  }

  /** A written message is read back, and nothing after it is touched, exactly when its length is neither zero nor
    * beyond the largest unsigned long. */
  lemma ReceivesExactly(body: string, rest: string, max: nat)
    ensures Receive(Framed(body) + rest, max) == Ok((Body(body), rest)) <==> 0 < |body| <= max
  {
    hide Headers, Framed;
    HeadersOfFramed(body, rest, max);
    if 0 < |body| <= max {
      assert (body + rest)[..|body|] == body && (body + rest)[|body|..] == rest;
    }
  }

  // ----- a conversation -----------------------------------------------------

  function Stream(bodies: seq<string>): string {
    if bodies == [] then "" else Framed(bodies[0]) + Stream(bodies[1..])
  }

  /** Reads until no message comes, as the bridge's loop does: the bodies, and the input left. */
  function ReceiveAll(s: string, max: nat): (seq<string>, string)
    decreases |s|
  {
    match Receive(s, max)
    case Err(_) => ([], s)
    case Ok((Nothing, rest)) => ([], rest)
    case Ok((Body(b), rest)) =>
      var more := ReceiveAll(rest, max);
      ([b] + more.0, more.1)
  }

  /** Reading the stream of any list of non-empty bodies gives them back in order and uses up the stream. */
  lemma {:induction false} StreamRoundTrip(bodies: seq<string>, max: nat)
    requires forall i | 0 <= i < |bodies| :: 0 < |bodies[i]| <= max
    ensures ReceiveAll(Stream(bodies), max) == (bodies, "")
    decreases |bodies|
  {
    hide Receive, Framed;
    if bodies == [] {
      NothingToReceive(max);
    } else {
      ReceivesExactly(bodies[0], Stream(bodies[1..]), max);
      StreamRoundTrip(bodies[1..], max);
      assert bodies == [bodies[0]] + bodies[1..];
    }
  }

  lemma NothingToReceive(max: nat)
    ensures Receive("", max) == Ok((Nothing, ""))
  {
  }
}
