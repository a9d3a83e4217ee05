/** http/HttpContext.cc: the resumable request parser, and its use in HttpServer::onMessage. */
module HttpParser {
  import opened CMath
  import opened DecimalText
  import opened Text
  import opened NetBuffer
  import opened HttpMessage
  import opened Wrappers

  datatype Phase = ExpectRequestLine | ExpectHeaders | ExpectBody | GotAll

  // What a pass of the parser's loop starts from. `bodyLength` is the local variable of parseRequest.
  datatype Config = Config(phase: Phase, request: Request, buf: string, bodyLength: int)

  datatype Outcome = Next(config: Config) | Done(ok: bool, config: Config) | Threw(config: Config)

  datatype LineResult = LineResult(ok: bool, request: Request)

  // The request line: the request keeps what was set before an error was found.
  function RequestLine(r: Request, line: string): LineResult {
    var space := Find(line, ' ');
    if space == |line| then LineResult(false, r)
    else
      var m := MethodOf(line[..space]);
      var r1 := r.(verb := m);
      if m == Invalid then LineResult(false, r1)
      else
        var rest := line[space + 1..];
        var space2 := Find(rest, ' ');
        if space2 == |rest| then LineResult(false, r1)
        else
          var question := Find(rest[..space2], '?');
          var r2 := if question != space2 then r1.(path := rest[..question], query := rest[question..space2])
                    else r1.(path := rest[..space2]);
          ProcessVersion(r2, rest[space2 + 1..])
  }

  function ProcessVersion(r: Request, text: string): LineResult {
    if |text| == 8 && text[..7] == "HTTP/1." && text[7] == '1' then LineResult(true, r.(version := Http11))
    else if |text| == 8 && text[..7] == "HTTP/1." && text[7] == '0' then LineResult(true, r.(version := Http10))
    else LineResult(false, r)
  }

  function DigitPrefix(s: string): (n: nat)
    ensures n <= |s|
    ensures AllDigits(s[..n])
  {
    if s != "" && IsDigit(s[0]) then 1 + DigitPrefix(s[1..]) else 0
  }

  // std::stoi, which throws when there is no number or it is out of range.
  function Stoi(text: string): Option<int> {
    var s := TrimLeft(text);
    if s != "" && (s[0] == '-' || s[0] == '+') then Number(s[1..], s[0] == '-') else Number(s, false)
  }

  function Number(digits: string, negative: bool): Option<int> {
    var n := DigitPrefix(digits);
    var value: int := DigitsValue(digits[..n]);
    var result := if negative then -value else value;
    if n == 0 || !IsInt32(result) then None else Some(result)
  }

  lemma {:induction false} DigitPrefixAll(s: string)
    requires AllDigits(s)
    ensures DigitPrefix(s) == |s|
  {
    if s != "" { DigitPrefixAll(s[1..]); }
  }

  lemma NumberOfDigits(n: nat, negative: bool)
    requires IsInt32(if negative then 0 - n else n)
    ensures Number(Digits(n), negative) == Some(if negative then 0 - n else n)
  {
    var digits := Digits(n);
    DigitsRoundTrip(n);
    DigitPrefixAll(digits);
    hide DigitPrefix, DigitsValue, Digits;
    assert digits[..|digits|] == digits;
  }

  /** stoi reads back the decimal text of every int. */
  lemma StoiOfDecimal(x: int)
    requires IsInt32(x)
    ensures Stoi(Decimal(x)) == Some(x)
  {
    var negative := x < 0;
    var n := if negative then -x else x;
    NumberOfDigits(n, negative);
    hide Number, Digits;
    assert IsDigit(Digits(n)[0]);
    assert Decimal(x) == if negative then "-" + Digits(n) else Digits(n);
    assert negative ==> Decimal(x)[1..] == Digits(n);
  }

  lemma {:induction false} DigitPrefixIs(digits: string, tail: string)
    requires AllDigits(digits) && (tail == "" || !IsDigit(tail[0]))
    ensures DigitPrefix(digits + tail) == |digits|
  {
    if digits == "" {
      assert digits + tail == tail;
    } else {
      assert (digits + tail)[1..] == digits[1..] + tail;
      DigitPrefixIs(digits[1..], tail);
    }
  }

  // A text as stoi takes it apart: white space, a sign if there is one, the digits, and what is not read.
  predicate IsNumeral(before: string, sign: string, digits: string, tail: string) {
    && AllWhite(before) && (sign == "" || sign == "+" || sign == "-")
    && AllDigits(digits) && (tail == "" || !IsDigit(tail[0]))
    && (sign == "" && digits == "" && tail != "" ==> !IsWhite(tail[0]) && tail[0] != '+' && tail[0] != '-')
  }

  /** Every text comes apart in that way. */
  lemma {:induction false} EveryTextIsNumeral(text: string)
    returns (before: string, sign: string, digits: string, tail: string)
    ensures IsNumeral(before, sign, digits, tail) && text == before + (sign + (digits + tail))
  {
    hide DigitPrefix, IsDigit;
    before, sign, digits, tail := "", "", "", text;
    if text != "" {
      if IsWhite(text[0]) {
        before, sign, digits, tail := EveryTextIsNumeral(text[1..]);
        before := [text[0]] + before;
        assert text == before + (sign + (digits + tail));
      } else {
        var number := text;
        if text[0] == '+' || text[0] == '-' { sign, number := text[..1], text[1..]; }
        var n := DigitPrefix(number);
        digits, tail := number[..n], number[n..];
        DigitPrefixStops(number);
        assert digits + tail == number && sign + number == text;
      }
    }
  }

  lemma {:induction false} DigitPrefixStops(s: string)
    ensures var n := DigitPrefix(s); n < |s| ==> !IsDigit(s[n])
  {
    if s != "" { DigitPrefixStops(s[1..]); }
  }

  lemma NumberReads(digits: string, tail: string, negative: bool)
    requires AllDigits(digits) && (tail == "" || !IsDigit(tail[0]))
    ensures var n := if negative then 0 - DigitsValue(digits) else DigitsValue(digits);
            Number(digits + tail, negative)
                == if digits != "" && -0x8000_0000 <= n < 0x8000_0000 then Some(n) else None
  {
    hide DigitPrefix, DigitsValue, AllDigits, IsDigit;
    DigitPrefixIs(digits, tail);
    SameString((digits + tail)[..|digits|], digits);
  }

  lemma StoiOfSigned(before: string, sign: string, number: string)
    requires AllWhite(before) && (sign == "" || sign == "+" || sign == "-")
    requires sign == "" && number != "" ==> !IsWhite(number[0]) && number[0] != '+' && number[0] != '-'
    ensures Stoi(before + (sign + number)) == Number(number, sign == "-")
  {
    TrimLeftWhite(before, sign + number);
    hide Number;
    assert TrimLeft(sign + number) == sign + number;
    if sign == "" {
      assert sign + number == number;
    } else {
      assert (sign + number)[1..] == number;
    }
  }

  /** What stoi makes of any text: the number if there are digits and it fits an int, and an exception otherwise. */
  lemma StoiReads(before: string, sign: string, digits: string, tail: string)
    requires IsNumeral(before, sign, digits, tail)
    ensures var n := if sign == "-" then 0 - DigitsValue(digits) else DigitsValue(digits);
            Stoi(before + (sign + (digits + tail)))
                == if digits != "" && -0x8000_0000 <= n < 0x8000_0000 then Some(n) else None
  {
    hide Number, Stoi, DigitsValue;
    StoiOfSigned(before, sign, digits + tail);
    NumberReads(digits, tail, sign == "-");
  }

  // static_cast<size_t>
  function ToSize(x: int): (n: int)
    requires IsInt32(x)
    ensures n >= 0
  {
    if x < 0 then x + 0x1_0000_0000_0000_0000 else x
  }

  // One pass of the loop.
  function Iterate(c: Config, receiveTime: int): Outcome
    requires c.phase != GotAll && IsInt32(c.bodyLength)
  {
    match c.phase
    case ExpectRequestLine =>
      var crlf := FindCRLF(c.buf);
      if crlf < 0 then Done(true, c)
      else
        var line := RequestLine(c.request, c.buf[..crlf]);
        if line.ok then
          Next(c.(phase := ExpectHeaders, request := line.request.(receiveTime := receiveTime),
                  buf := c.buf[crlf + 2..]))
        else Done(false, c.(request := line.request))
    case ExpectHeaders =>
      var crlf := FindCRLF(c.buf);
      if crlf < 0 then Done(true, c)
      else
        var line, rest := c.buf[..crlf], c.buf[crlf + 2..];
        var colon := Find(line, ':');
        if colon != crlf then Next(c.(request := WithHeader(c.request, line, colon), buf := rest))
        else EndOfHeaders(c, rest)
    case ExpectBody =>
      var n := ToSize(c.bodyLength);
      if |c.buf| >= n then Done(true, c.(request := c.request.(body := c.buf[..n]), phase := GotAll))
      else Done(true, c)
  }

  lemma HeaderPassOf(c: Config, receiveTime: int)
    requires c.phase == ExpectHeaders && IsInt32(c.bodyLength)
    ensures var o, crlf := Iterate(c, receiveTime), FindCRLF(c.buf);
            if crlf < 0 then o == Done(true, c)
            else
              && crlf + 2 <= |c.buf|
              && var line, rest := c.buf[..crlf], c.buf[crlf + 2..];
                 var colon := Find(line, ':');
                 if colon != crlf then o == Next(c.(request := WithHeader(c.request, line, colon), buf := rest))
                 else o == EndOfHeaders(c, rest)
  {
  }

  // A header line without a colon ends the headers.
  function EndOfHeaders(c: Config, rest: string): Outcome {
    var contentLength := HeaderOf(c.request, "Content-Length");
    if contentLength == "" then Done(true, c.(phase := GotAll, buf := rest))
    else
      match Stoi(contentLength)
      case None => Threw(c)
      case Some(n) => Next(c.(phase := ExpectBody, buf := rest, bodyLength := n))
  }

  function PhasesLeft(phase: Phase): nat {
    match phase
    case ExpectRequestLine => 3
    case ExpectHeaders => 2
    case ExpectBody => 1
    case GotAll => 0
  }

  // The whole of parseRequest. The readable bytes, and in the body the phases left, bound the passes.
  function Parse(c: Config, receiveTime: int): (o: Outcome)
    requires c.phase != GotAll && IsInt32(c.bodyLength)
    ensures !o.Next? && IsInt32(o.config.bodyLength)
    ensures o.Threw? ==> o.config.phase == ExpectHeaders
    ensures o.Done? && !o.ok ==> o.config.phase == ExpectRequestLine
    decreases |c.buf|, PhasesLeft(c.phase)
  {
    match Iterate(c, receiveTime)
    case Next(c1) => Parse(c1, receiveTime)
    case done => done
  }

  lemma ParseUnfolds(c: Config, receiveTime: int)
    requires c.phase != GotAll && IsInt32(c.bodyLength)
    ensures var o := Iterate(c, receiveTime);
            if o.Next? then
              && o.config.phase != GotAll && IsInt32(o.config.bodyLength)
              && (|o.config.buf| < |c.buf|
                  || (o.config.buf == c.buf && PhasesLeft(o.config.phase) < PhasesLeft(c.phase)))
              && Parse(c, receiveTime) == Parse(o.config, receiveTime)
            else Parse(c, receiveTime) == o
  {
  }

  // A parser that has not met an error may be called again.
  predicate Fresh(phase: Phase, r: Request) {
    phase != GotAll && (phase == ExpectRequestLine ==> r.verb == Invalid)
  }

  /** The headers go on after a line if and only if it has a colon: any line without one ends them, not only an empty
      one. */
  lemma ColonlessLineEndsHeaders(c: Config, receiveTime: int)
    requires c.phase == ExpectHeaders && IsInt32(c.bodyLength) && FindCRLF(c.buf) >= 0
    ensures var o := Iterate(c, receiveTime);
            o.Next? && o.config.phase == ExpectHeaders <==> ':' in c.buf[..FindCRLF(c.buf)]
  {
  }

  // The method token of the line that is refused, if it has one.
  function MethodToken(line: string): string {
    var space := Find(line, ' ');
    if space == |line| then "" else line[..space]
  }

  /** After a refused request the line stays in the buffer and the method may stay set, and then the assertion in
      setMethod fails on the next call: this is so exactly when the line began with a known method. */
  lemma RefusedRequestKeepsMethod(c: Config, receiveTime: int)
    requires Fresh(c.phase, c.request) && IsInt32(c.bodyLength)
    requires Parse(c, receiveTime).Done? && !Parse(c, receiveTime).ok
    ensures c.phase == ExpectRequestLine && FindCRLF(c.buf) >= 0
    ensures Parse(c, receiveTime).config == c.(request := Parse(c, receiveTime).config.request)
    ensures !Fresh(ExpectRequestLine, Parse(c, receiveTime).config.request)
       <==> MethodOf(MethodToken(c.buf[..FindCRLF(c.buf)])) != Invalid
  {
    hide Parse, Find;
    ParseUnfolds(c, receiveTime);
    var o := Iterate(c, receiveTime);
    if o.Next? { OnlyRequestLineIsRefused(o.config, receiveTime); }
  }

  predicate IsMethodName(name: string) {
    name == "GET" || name == "POST" || name == "HEAD" || name == "PUT" || name == "DELETE"
  }

  lemma MethodNamesAreKnown(name: string)
    ensures IsMethodName(name) <==> MethodOf(name) != Invalid
    ensures IsMethodName(name) ==> ' ' !in name
  {
  }

  function VersionOf(minor: char): string {
    "HTTP/1." + [minor]
  }

  // A line made of a method, a target and a version, with single spaces between them.
  predicate IsRequestLine(line: string, name: string, target: string, minor: char) {
    && IsMethodName(name) && ' ' !in target && (minor == '0' || minor == '1')
    && line == name + " " + (target + " " + VersionOf(minor))
  }

  lemma FindFirst(a: string, c: char, b: string)
    requires c !in a
    ensures var s := a + ([c] + b); Find(s, c) == |a| < |s| && s[..|a|] == a && s[|a| + 1..] == b
  {
    FindIs(a + ([c] + b), c, |a|);
  }

  lemma SplitAtFirst(s: string, c: char) returns (a: string, b: string)
    requires Find(s, c) < |s|
    ensures c !in a && s == a + ([c] + b) && a == s[..Find(s, c)] && b == s[Find(s, c) + 1..]
  {
    hide Find;
    var i := Find(s, c);
    a, b := s[..i], s[i + 1..];
    assert s == a + ([s[i]] + b);
  }

  lemma LineAssociates(name: string, target: string, version: string)
    ensures name + " " + (target + " " + version) == name + ([' '] + (target + ([' '] + version)))
  {
    var rest := target + ([' '] + version);
    assert target + " " + version == rest;
    assert name + " " + rest == name + ([' '] + rest);
  }

  lemma VersionIs(r: Request, minor: char)
    requires minor == '0' || minor == '1'
    ensures ProcessVersion(r, VersionOf(minor))
         == LineResult(true, r.(version := if minor == '1' then Http11 else Http10))
  {
    assert VersionOf(minor)[..7] == "HTTP/1.";
  }

  // The request after a method and a target, which is divided before its first question mark.
  function WithTarget(r: Request, name: string, target: string): Request {
    var mark := Find(target, '?');
    r.(verb := MethodOf(name), path := target[..mark], query := if mark < |target| then target[mark..] else r.query)
  }

  lemma TargetParts(target: string, rest: string, mark: nat)
    requires mark <= |target| <= |rest| && rest[..|target|] == target
    ensures rest[..mark] == target[..mark] && rest[mark..|target|] == target[mark..]
  {
  }

  lemma RequestLineOf(r: Request, name: string, target: string, version: string)
    requires ' ' !in name && ' ' !in target && MethodOf(name) != Invalid
    ensures RequestLine(r, name + ([' '] + (target + ([' '] + version))))
         == ProcessVersion(WithTarget(r, name, target), version)
  {
    hide Find, MethodOf, ProcessVersion;
    var rest := target + ([' '] + version);
    FindFirst(name, ' ', rest);
    FindFirst(target, ' ', version);
    TargetParts(target, rest, Find(target, '?'));
    assert MethodOf((name + ([' '] + rest))[..|name|]) != Invalid;
  }

  /** What such a line sets: the path is the target up to its first question mark, and the query the rest. */
  lemma RequestLineSets(r: Request, line: string, name: string, target: string, minor: char)
    requires IsRequestLine(line, name, target, minor)
    ensures var o := RequestLine(r, line);
            && o.ok && o.request == r.(verb := o.request.verb, version := o.request.version,
                                       path := o.request.path, query := o.request.query)
            && o.request.verb == MethodOf(name) && o.request.version == (if minor == '1' then Http11 else Http10)
            && '?' !in o.request.path
            && (if '?' in target
                then o.request.path + o.request.query == target && o.request.query[..1] == "?"
                else o.request.path == target && o.request.query == r.query)
  {
    hide MethodOf, ProcessVersion, RequestLine, Find, VersionOf, IsMethodName;
    MethodNamesAreKnown(name);
    var version := VersionOf(minor);
    LineAssociates(name, target, version);
    RequestLineOf(r, name, target, version);
    VersionIs(WithTarget(r, name, target), minor);
  }

  lemma VersionOfAccepted(r: Request, text: string) returns (minor: char)
    requires ProcessVersion(r, text).ok
    ensures (minor == '0' || minor == '1') && text == VersionOf(minor)
  {
    minor := text[7];
    assert text == text[..7] + [minor];
  }

  lemma AcceptedHasParts(r: Request, line: string)
    requires RequestLine(r, line).ok
    ensures var space := Find(line, ' ');
            && space < |line| && MethodOf(line[..space]) != Invalid
            && Find(line[space + 1..], ' ') < |line[space + 1..]|
  {
    hide Find, MethodOf, ProcessVersion;
  }

  // Where an accepted line divides.
  lemma AcceptedLineParts(r: Request, line: string) returns (name: string, target: string, minor: char)
    requires RequestLine(r, line).ok
    ensures IsRequestLine(line, name, target, minor)
  {
    hide Find, MethodOf, ProcessVersion, RequestLine, VersionOf, IsMethodName;
    AcceptedHasParts(r, line);
    var rest, version;
    name, rest := SplitAtFirst(line, ' ');
    target, version := SplitAtFirst(rest, ' ');
    RequestLineOf(r, name, target, version);
    minor := VersionOfAccepted(WithTarget(r, name, target), version);
    MethodNamesAreKnown(name);
    LineAssociates(name, target, version);
  }

  /** A request is refused exactly when its first line is complete and is none of those. */
  lemma RefusedExactlyWhen(c: Config, receiveTime: int)
    requires c.phase != GotAll && IsInt32(c.bodyLength)
    ensures var o := Parse(c, receiveTime);
            o.Done? && !o.ok <==> c.phase == ExpectRequestLine && FindCRLF(c.buf) >= 0
                                  && (forall name, target, minor ::
                                        !IsRequestLine(c.buf[..FindCRLF(c.buf)], name, target, minor))
  {
    hide Parse, RequestLine, IsRequestLine, FindCRLF;
    ParseUnfolds(c, receiveTime);
    var o := Iterate(c, receiveTime);
    if o.Next? { OnlyRequestLineIsRefused(o.config, receiveTime); }
    if c.phase == ExpectRequestLine && FindCRLF(c.buf) >= 0 {
      var line := c.buf[..FindCRLF(c.buf)];
      if RequestLine(c.request, line).ok {
        var name, target, minor := AcceptedLineParts(c.request, line);
      }
      forall name, target, minor | IsRequestLine(line, name, target, minor)
        ensures RequestLine(c.request, line).ok
      {
        RequestLineSets(c.request, line, name, target, minor);
      }
    }
  }

  const REFUSED := Config(ExpectRequestLine, EMPTY_REQUEST, "GET x\r\n", 0)

  /** A request line without a version, for one. */
  lemma RefusedRequestWithMethod(receiveTime: int)
    ensures var o := Parse(REFUSED, receiveTime); o.Done? && !o.ok && !Fresh(ExpectRequestLine, o.config.request)
  {
    var line := "GET x";
    FindCRLFIs(REFUSED.buf, 5);
    assert REFUSED.buf[..5] == line;
    FindIs(line, ' ', 3);
    assert line[..3] == "GET" && line[4..] == "x";
    FindIs("x", ' ', 1);
    hide Find, FindCRLF;
    ParseUnfolds(REFUSED, receiveTime);
  }

  lemma {:induction false} OnlyRequestLineIsRefused(c: Config, receiveTime: int)
    requires c.phase != GotAll && c.phase != ExpectRequestLine && IsInt32(c.bodyLength)
    ensures var o := Parse(c, receiveTime); o.Done? ==> o.ok
    decreases |c.buf|, PhasesLeft(c.phase)
  {
    hide Parse;
    ParseUnfolds(c, receiveTime);
    var o := Iterate(c, receiveTime);
    if o.Next? { OnlyRequestLineIsRefused(o.config, receiveTime); }
  }

  class HttpContext {
    var state: Phase
    const request: HttpRequest

    ghost function Abs(buf: Buffer, bodyLength: int): Config
      requires buf.Valid()
      reads this, request, buf, buf.buffer
    {
      Config(state, request.Value(), buf.Contents(), bodyLength)
    }

    constructor ()
      ensures fresh(request) && state == ExpectRequestLine && request.Value() == EMPTY_REQUEST
    {
      state := ExpectRequestLine;
      request := new HttpRequest();
    }

    method ProcessRequestLine(line: string) returns (succeed: bool)
      requires request.verb == Invalid
      modifies request
      ensures LineResult(succeed, request.Value()) == RequestLine(old(request.Value()), line)
    {
      hide Find, MethodOf;
      succeed := false;
      var space := Find(line, ' ');
      if space != |line| {
        var known := request.SetMethod(line[..space]);
        if known {
          var rest := line[space + 1..];
          space := Find(rest, ' ');
          if space != |rest| {
            var question := Find(rest[..space], '?');
            if question != space {
              request.path := rest[..question];
              request.query := rest[question..space];
            } else {
              request.path := rest[..space];
            }
            var text := rest[space + 1..];
            succeed := |text| == 8 && text[..7] == "HTTP/1.";
            if succeed {
              if text[7] == '1' {
                request.version := Http11;
              } else if text[7] == '0' {
                request.version := Http10;
              } else {
                succeed := false;
              }
            }
          }
        }
      }
    }

    // The three branches of parseRequest's loop, each one pass. `hasMore` is the loop's own flag.

    method RequestLinePass(buf: Buffer, receiveTime: int, ghost body: int) returns (ok: bool, hasMore: bool)
      requires buf.Valid() && state == ExpectRequestLine && request.verb == Invalid && IsInt32(body)
      modifies this, request, buf
      ensures buf.Valid() && buf.buffer == old(buf.buffer)
      ensures Iterate(old(Abs(buf, body)), receiveTime)
           == if hasMore then Next(Abs(buf, body)) else Done(ok, Abs(buf, body))
      ensures hasMore ==> ok && state == ExpectHeaders
      ensures !hasMore ==> state == ExpectRequestLine && (ok ==> request.verb == Invalid)
    {
      hide RequestLine, Find, FindCRLF;
      ok, hasMore := true, true;
      var crlf := buf.FindFirstCRLF();
      if crlf >= 0 {
        var line := buf.Peek(crlf);
        ok := ProcessRequestLine(line);
        if ok {
          request.receiveTime := receiveTime;
          buf.Retrieve(crlf + 2);
          state := ExpectHeaders;
        } else {
          hasMore := false;
        }
      } else {
        hasMore := false;
      }
    }

    method HeaderPass(buf: Buffer, receiveTime: int, body: int) returns (hasMore: bool, bodyLength: int, threw: bool)
      requires buf.Valid() && state == ExpectHeaders && IsInt32(body)
      modifies this, request, buf
      ensures buf.Valid() && buf.buffer == old(buf.buffer)
      ensures Iterate(old(Abs(buf, body)), receiveTime)
           == if threw then Threw(Abs(buf, body))
              else if hasMore then Next(Abs(buf, bodyLength))
              else Done(true, Abs(buf, bodyLength))
      ensures state != ExpectRequestLine && (hasMore ==> state != GotAll) && (threw ==> state == ExpectHeaders)
    {
      hide Iterate, Stoi, Find, FindCRLF, WithHeader, HeaderOf;
      HeaderPassOf(Abs(buf, body), receiveTime);
      hasMore, bodyLength, threw := true, body, false;
      var crlf := buf.FindFirstCRLF();
      if crlf >= 0 {
        var line := buf.Peek(crlf);
        var colon := Find(line, ':');
        if colon != crlf {
          request.AddHeader(line, colon);
        } else {
          hasMore, bodyLength, threw := EndHeaders(body);
          if threw {
            return;
          }
        }
        buf.Retrieve(crlf + 2);
      } else {
        hasMore := false;
      }
    }

    // The branch for a line without a colon.
    method EndHeaders(body: int) returns (hasMore: bool, bodyLength: int, threw: bool)
      requires state == ExpectHeaders
      modifies this`state
      ensures var length := HeaderOf(request.Value(), "Content-Length");
              var n := Stoi(length);
              && threw == (length != "" && n == None) && hasMore == (length != "" && n.Some?)
              && bodyLength == (if hasMore then n.value else body)
              && state == (if threw then ExpectHeaders else if hasMore then ExpectBody else GotAll)
    {
      hide Stoi, HeaderOf;
      hasMore, bodyLength, threw := true, body, false;
      var contentLength := request.GetHeader("Content-Length");
      if |contentLength| == 0 {
        state := GotAll;
        hasMore := false;
      } else {
        match Stoi(contentLength)
        case None =>
          hasMore, threw := false, true;
        case Some(n) =>
          bodyLength := n;
          state := ExpectBody;
      }
    }

    method BodyPass(buf: Buffer, ghost receiveTime: int, body: int)
      requires buf.Valid() && state == ExpectBody && IsInt32(body)
      modifies this, request
      ensures Iterate(old(Abs(buf, body)), receiveTime) == Done(true, Abs(buf, body))
      ensures state == ExpectBody || state == GotAll
    {
      if buf.ReadableBytes() >= ToSize(body) {
        request.body := buf.Peek(ToSize(body));
        state := GotAll;
      }
    }

    // `bodyLength` is whatever the uninitialised local variable holds on entry.
    method ParseRequest(buf: Buffer, receiveTime: int, bodyLength: int) returns (ok: bool, threw: bool)
      requires buf.Valid() && Fresh(state, request.Value()) && IsInt32(bodyLength)
      modifies this, request, buf
      ensures buf.Valid() && buf.buffer == old(buf.buffer)
      ensures var o := Parse(old(Abs(buf, bodyLength)), receiveTime);
              && o.config == Abs(buf, o.config.bodyLength)
              && (if o.Done? then !threw && ok == o.ok else threw)
      ensures ok || threw ==> state == GotAll || Fresh(state, request.Value())
    {
      hide Parse, Iterate;
      ok, threw := true, false;
      var hasMore := true;
      var body := bodyLength;
      ghost var outcome := Parse(old(Abs(buf, bodyLength)), receiveTime);
      while hasMore
        invariant buf.Valid() && buf.buffer == old(buf.buffer) && IsInt32(body)
        invariant hasMore ==> ok && Fresh(state, request.Value()) && Parse(Abs(buf, body), receiveTime) == outcome
        invariant !hasMore ==> outcome == Done(ok, Abs(buf, body))
        invariant ok ==> state == GotAll || Fresh(state, request.Value())
        decreases hasMore, buf.ReadableBytes(), PhasesLeft(state)
      {
        ParseUnfolds(Abs(buf, body), receiveTime);
        if state == ExpectRequestLine {
          ok, hasMore := RequestLinePass(buf, receiveTime, body);
        } else if state == ExpectHeaders {
          hasMore, body, threw := HeaderPass(buf, receiveTime, body);
          if threw {
            return;
          }
        } else {
          BodyPass(buf, receiveTime, body);
          hasMore := false;
        }
      }
    }

    method Reset()
      modifies this, request
      ensures state == ExpectRequestLine && request.Value() == EMPTY_REQUEST
    {
      state := ExpectRequestLine;
      var dummy := new HttpRequest();
      request.Swap(dummy);
    }

    // HttpServer::onMessage: the parser is never entered again in GotAll. Returns the request that was handled.
    method OnMessage(buf: Buffer, receiveTime: int, bodyLength: int)
      returns (handled: Option<Request>, badRequest: bool, threw: bool)
      requires buf.Valid() && Fresh(state, request.Value()) && IsInt32(bodyLength)
      modifies this, request, buf
      ensures buf.Valid() && state != GotAll
      ensures !badRequest ==> Fresh(state, request.Value())
      ensures var o := Parse(old(Abs(buf, bodyLength)), receiveTime);
              && buf.Contents() == o.config.buf && threw == o.Threw? && badRequest == (o.Done? && !o.ok)
              && handled == (if o.Done? && o.config.phase == GotAll then Some(o.config.request) else None)
      ensures handled == None ==> Abs(buf, 0) == Parse(old(Abs(buf, bodyLength)), receiveTime).config.(bodyLength := 0)
      ensures handled != None ==> state == ExpectRequestLine && request.Value() == EMPTY_REQUEST
    {
      handled, badRequest := None, false;
      var ok;
      ok, threw := ParseRequest(buf, receiveTime, bodyLength);
      if threw {
        return;
      }
      if !ok {
        badRequest := true;
      }
      if state == GotAll {
        var r := request.Copy();
        handled := Some(r);
        Reset();
      }
    }
  }
}
