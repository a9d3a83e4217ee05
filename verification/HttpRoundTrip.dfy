/** Rendering a request by sections 3.1.1 and 3.2 of RFC 7230 and parsing it again. */
module HttpRoundTrip {
  import opened CMath
  import opened DecimalText
  import opened Text
  import opened HttpMessage
  import opened HttpParser
  import opened HttpSplit
  import opened Wrappers

  // One header field, with the white space around its value.
  datatype Field = Field(name: string, before: string, value: string, after: string)

  datatype Message = Message(verb: Method, path: string, query: string, version: Version, fields: seq<Field>)

  const CRLF := "\r\n"

  predicate Free(s: string, c: char) {
    forall i :: 0 <= i < |s| ==> s[i] != c
  }

  predicate ValidField(f: Field) {
    && Free(f.name, ':') && Free(f.name, '\r')
    && AllWhite(f.before) && Free(f.before, '\r') && AllWhite(f.after) && Free(f.after, '\r')
    && IsTrimmed(f.value) && Free(f.value, '\r')
  }

  predicate ValidTarget(m: Message) {
    && Free(m.path, ' ') && Free(m.path, '?') && Free(m.path, '\r')
    && Free(m.query, ' ') && Free(m.query, '\r') && (m.query == "" || m.query[0] == '?')
  }

  predicate ValidMessage(m: Message) {
    && m.verb != Invalid && m.version != Unknown && ValidTarget(m)
    && forall i :: 0 <= i < |m.fields| ==> ValidField(m.fields[i])
  }

  function VersionString(v: Version): string
    requires v != Unknown
  {
    if v == Http11 then "HTTP/1.1" else "HTTP/1.0"
  }

  function RenderLine(m: Message): string
    requires m.version != Unknown
  {
    MethodString(m.verb) + " " + (m.path + m.query + " " + VersionString(m.version))
  }

  function RenderField(f: Field): string {
    f.name + ":" + (f.before + f.value + f.after)
  }

  function RenderFields(fields: seq<Field>): string {
    if fields == [] then CRLF else RenderField(fields[0]) + CRLF + RenderFields(fields[1..])
  }

  function Render(m: Message): string
    requires m.version != Unknown
  {
    RenderLine(m) + CRLF + RenderFields(m.fields)
  }

  // The headers after these fields: the last field of a name wins.
  function WithFields(headers: map<string, string>, fields: seq<Field>): map<string, string>
    decreases |fields|
  {
    if fields == [] then headers else WithFields(headers[fields[0].name := fields[0].value], fields[1..])
  }

  // The request a message stands for.
  function RequestOf(m: Message, receiveTime: int): Request {
    Request(m.verb, m.version, m.path, m.query, receiveTime, WithFields(map[], m.fields), "")
  }

  lemma {:induction false} FindIn(a: string, c: char, b: string)
    requires Free(a, c)
    ensures Find(a + [c] + b, c) == |a|
    ensures Find(a, c) == |a|
    ensures (a + [c] + b)[..|a|] == a && (a + [c] + b)[|a| + 1..] == b
  {
    FindIs(a + [c] + b, c, |a|);
    FindIs(a, c, |a|);
  }

  // The first CR LF after the line is the one that ends it.
  predicate IsLine(line: string) {
    FindCRLF(line + CRLF) == |line|
  }

  lemma FreeIsLine(line: string)
    requires Free(line, '\r')
    ensures IsLine(line)
  {
    FindCRLFIs(line + CRLF, |line|);
  }

  lemma FirstLineEnds(line: string, rest: string)
    requires IsLine(line)
    ensures FindCRLF(line + CRLF + rest) == |line|
    ensures (line + CRLF + rest)[..|line|] == line && (line + CRLF + rest)[|line| + 2..] == rest
  {
    FindCRLFExtends(line + CRLF, rest);
  }

  lemma FieldLine(r: Request, f: Field)
    requires ValidField(f)
    ensures Free(RenderField(f), '\r') && Find(RenderField(f), ':') == |f.name| < |RenderField(f)|
    ensures WithHeader(r, RenderField(f), |f.name|) == r.(headers := r.headers[f.name := f.value])
  {
    FindIn(f.name, ':', f.before + f.value + f.after);
    TrimTakesOuterWhite(f.before, f.value, f.after);
    assert RenderField(f) == f.name + [':'] + (f.before + f.value + f.after);
  }

  // What parseRequest does at a line without a colon, with the bytes that follow it.
  function AfterLine(c: Config, rest: string): Outcome
    requires IsInt32(c.bodyLength)
  {
    match EndOfHeaders(c, rest)
    case Next(c) => if c.phase == ExpectBody && IsInt32(c.bodyLength) then Iterate(c, 0) else Next(c)
    case done => done
  }

  function AfterHeaders(r: Request, rest: string, bodyLength: int): Outcome
    requires IsInt32(bodyLength)
  {
    AfterLine(Config(ExpectHeaders, r, CRLF + rest, bodyLength), rest)
  }

  lemma ParseColonlessLine(c: Config, line: string, rest: string, receiveTime: int)
    requires c.phase == ExpectHeaders && IsInt32(c.bodyLength)
    requires IsLine(line) && ':' !in line && c.buf == line + CRLF + rest
    ensures Parse(c, receiveTime) == AfterLine(c, rest)
  {
    FirstLineEnds(line, rest);
    FindIs(line, ':', |line|);
    hide Parse, Find, FindCRLF, Stoi, HeaderOf;
    ParseUnfolds(c, receiveTime);
    var o := Iterate(c, receiveTime);
    if o.Next? { ParseUnfolds(o.config, receiveTime); }
  }

  lemma ParseEmptyLine(r: Request, rest: string, bodyLength: int, receiveTime: int)
    requires IsInt32(bodyLength)
    ensures Parse(Config(ExpectHeaders, r, CRLF + rest, bodyLength), receiveTime) == AfterHeaders(r, rest, bodyLength)
  {
    FreeIsLine("");
    assert "" + CRLF + rest == CRLF + rest;
    hide Parse, AfterLine;
    ParseColonlessLine(Config(ExpectHeaders, r, CRLF + rest, bodyLength), "", rest, receiveTime);
  }

  function Lines(lines: seq<string>): string {
    if lines == [] then "" else lines[0] + CRLF + Lines(lines[1..])
  }

  // The headers set by lines with colons, in order.
  function WithLines(r: Request, lines: seq<string>): Request
    requires forall i :: 0 <= i < |lines| ==> ':' in lines[i]
    decreases |lines|
  {
    if lines == [] then r else WithLines(WithHeader(r, lines[0], Find(lines[0], ':')), lines[1..])
  }

  lemma ParseLineWithColon(c: Config, line: string, tail: string, receiveTime: int)
    requires c.phase == ExpectHeaders && IsInt32(c.bodyLength)
    requires IsLine(line) && ':' in line && c.buf == line + CRLF + tail
    ensures Find(line, ':') < |line|
    ensures Parse(c, receiveTime)
        == Parse(c.(request := WithHeader(c.request, line, Find(line, ':')), buf := tail), receiveTime)
  {
    FirstLineEnds(line, tail);
    hide Parse, Find, FindCRLF, WithHeader;
    ParseUnfolds(c, receiveTime);
  }

  /** The headers are the lines up to the first one without a colon, which ends them whatever it holds. */
  lemma {:induction false} HeadersEndAtColonlessLine(c: Config, lines: seq<string>, last: string, rest: string,
          receiveTime: int)
    requires c.phase == ExpectHeaders && IsInt32(c.bodyLength)
    requires forall i :: 0 <= i < |lines| ==> IsLine(lines[i]) && ':' in lines[i]
    requires IsLine(last) && ':' !in last && c.buf == Lines(lines) + (last + CRLF + rest)
    ensures Parse(c, receiveTime)
         == AfterLine(c.(request := WithLines(c.request, lines), buf := last + CRLF + rest), rest)
    decreases |lines|
  {
    hide Parse, AfterLine, WithHeader, IsLine, Find;
    if lines == [] {
      assert c.buf == last + CRLF + rest;
      ParseColonlessLine(c, last, rest, receiveTime);
    } else {
      var tail := Lines(lines[1..]) + (last + CRLF + rest);
      assert c.buf == lines[0] + CRLF + tail;
      ParseLineWithColon(c, lines[0], tail, receiveTime);
      var c1 := c.(request := WithHeader(c.request, lines[0], Find(lines[0], ':')), buf := tail);
      HeadersEndAtColonlessLine(c1, lines[1..], last, rest, receiveTime);
    }
  }

  lemma ParseOneField(r: Request, f: Field, tail: string, bodyLength: int, receiveTime: int)
    requires IsInt32(bodyLength) && ValidField(f)
    ensures Parse(Config(ExpectHeaders, r, RenderField(f) + CRLF + tail, bodyLength), receiveTime)
         == Parse(Config(ExpectHeaders, r.(headers := r.headers[f.name := f.value]), tail, bodyLength), receiveTime)
  {
    hide Parse, FindCRLF, Find, Stoi, HeaderOf;
    var c := Config(ExpectHeaders, r, RenderField(f) + CRLF + tail, bodyLength);
    ParseUnfolds(c, receiveTime);
    FieldLine(r, f);
    FreeIsLine(RenderField(f));
    FirstLineEnds(RenderField(f), tail);
  }

  lemma {:induction false} ParseFields(r: Request, fields: seq<Field>, rest: string, bodyLength: int, receiveTime: int)
    requires IsInt32(bodyLength) && forall i :: 0 <= i < |fields| ==> ValidField(fields[i])
    ensures Parse(Config(ExpectHeaders, r, RenderFields(fields) + rest, bodyLength), receiveTime)
         == AfterHeaders(r.(headers := WithFields(r.headers, fields)), rest, bodyLength)
    decreases |fields|
  {
    hide Parse, AfterHeaders;
    if fields == [] {
      ParseEmptyLine(r, rest, bodyLength, receiveTime);
      assert r.(headers := WithFields(r.headers, fields)) == r;
    } else {
      var f, tail := fields[0], RenderFields(fields[1..]) + rest;
      assert RenderFields(fields) + rest == RenderField(f) + CRLF + tail;
      ParseOneField(r, f, tail, bodyLength, receiveTime);
      ParseFields(r.(headers := r.headers[f.name := f.value]), fields[1..], rest, bodyLength, receiveTime);
    }
  }

  lemma LineIsFree(m: Message)
    requires ValidMessage(m)
    ensures Free(RenderLine(m), '\r')
  {
    var name, version := MethodString(m.verb), VersionString(m.version);
    assert Free(name, '\r') && Free(version, '\r') && Free(" ", '\r');
    hide MethodString, VersionString, Free;
    FreeOfBoth(m.path, m.query, '\r');
    FreeOfBoth(m.path + m.query, " ", '\r');
    FreeOfBoth(m.path + m.query + " ", version, '\r');
    FreeOfBoth(name, " ", '\r');
    FreeOfBoth(name + " ", m.path + m.query + " " + version, '\r');
  }

  lemma FreeOfBoth(s: string, t: string, c: char)
    requires Free(s, c) && Free(t, c)
    ensures Free(s + t, c)
  {
  }

  lemma VersionParses(r: Request, v: Version)
    requires v != Unknown
    ensures ProcessVersion(r, VersionString(v)) == LineResult(true, r.(version := v))
  {
  }

  lemma SplitTarget(m: Message)
    requires ValidTarget(m)
    ensures Find(m.path + m.query, '?') == |m.path|
    ensures (m.path + m.query)[..|m.path|] == m.path && (m.path + m.query)[|m.path|..] == m.query
    ensures Free(m.path + m.query, ' ')
  {
  }

  lemma ParseTarget(r: Request, m: Message)
    requires ValidMessage(m) && r.query == ""
    ensures RequestLine(r, RenderLine(m))
        == LineResult(true, r.(verb := m.verb, path := m.path, query := m.query, version := m.version))
  {
    hide Find, MethodOf, MethodString, ProcessVersion, VersionString;
    var name, version, target := MethodString(m.verb), VersionString(m.version), m.path + m.query;
    var rest := target + [' '] + version;
    MethodNames(m.verb, name);
    NameIsFree(m.verb);
    FindIn(name, ' ', rest);
    assert RenderLine(m) == name + [' '] + rest;
    SplitTarget(m);
    FindIn(target, ' ', version);
    assert rest[..|m.path|] == m.path && rest[|m.path|..|target|] == m.query;
    assert m.query == "" ==> target == m.path;
    assert Find(rest, ' ') == |target| && rest[..|target|] == target && rest[|target| + 1..] == version;
    assert MethodOf(name) == m.verb;
    VersionParses(r.(verb := m.verb, path := m.path, query := m.query), m.version);
  }

  lemma NameIsFree(verb: Method)
    ensures Free(MethodString(verb), ' ')
  {
  }

  // The request after its first line.
  function LineOf(m: Message, receiveTime: int): Request {
    EMPTY_REQUEST.(verb := m.verb, path := m.path, query := m.query, version := m.version, receiveTime := receiveTime)
  }

  lemma ParseRenderedLine(m: Message, tail: string, bodyLength: int, receiveTime: int)
    requires ValidMessage(m) && IsInt32(bodyLength)
    ensures Parse(Config(ExpectRequestLine, EMPTY_REQUEST, RenderLine(m) + CRLF + tail, bodyLength), receiveTime)
         == Parse(Config(ExpectHeaders, LineOf(m, receiveTime), tail, bodyLength), receiveTime)
  {
    hide Parse, FindCRLF, RequestLine, RenderLine, ValidTarget, ValidField, IsLine, Free;
    ParseUnfolds(Config(ExpectRequestLine, EMPTY_REQUEST, RenderLine(m) + CRLF + tail, bodyLength), receiveTime);
    ParseTarget(EMPTY_REQUEST, m);
    LineIsFree(m);
    FreeIsLine(RenderLine(m));
    FirstLineEnds(RenderLine(m), tail);
  }

  /** A rendered request parses back to its method, path, query, version and headers. */
  lemma ParseRendered(m: Message, rest: string, bodyLength: int, receiveTime: int)
    requires ValidMessage(m) && IsInt32(bodyLength)
    ensures Parse(Config(ExpectRequestLine, EMPTY_REQUEST, Render(m) + rest, bodyLength), receiveTime)
         == AfterHeaders(RequestOf(m, receiveTime), rest, bodyLength)
  {
    hide Parse, RenderLine, RenderFields, AfterHeaders, WithFields, ValidTarget, ValidField;
    assert Render(m) + rest == RenderLine(m) + CRLF + (RenderFields(m.fields) + rest);
    ParseRenderedLine(m, RenderFields(m.fields) + rest, bodyLength, receiveTime);
    ParseFields(LineOf(m, receiveTime), m.fields, rest, bodyLength, receiveTime);
  }

  /** Without a Content-Length the parse is complete and leaves exactly the bytes that follow. */
  lemma RequestRoundTrip(m: Message, rest: string, bodyLength: int, receiveTime: int)
    requires ValidMessage(m) && IsInt32(bodyLength)
    requires HeaderOf(RequestOf(m, receiveTime), "Content-Length") == ""
    ensures Parse(Config(ExpectRequestLine, EMPTY_REQUEST, Render(m) + rest, bodyLength), receiveTime)
         == Done(true, Config(GotAll, RequestOf(m, receiveTime), rest, bodyLength))
  {
    ParseRendered(m, rest, bodyLength, receiveTime);
  }

  /** With a Content-Length of n the body is the next n bytes, but the buffer keeps them. */
  lemma BodyIsNotRetrieved(m: Message, body: string, rest: string, bodyLength: int, receiveTime: int)
    requires ValidMessage(m) && IsInt32(bodyLength) && IsInt32(|body|)
    requires HeaderOf(RequestOf(m, receiveTime), "Content-Length") != ""
    requires Stoi(HeaderOf(RequestOf(m, receiveTime), "Content-Length")) == Some(|body|)
    ensures Parse(Config(ExpectRequestLine, EMPTY_REQUEST, Render(m) + (body + rest), bodyLength), receiveTime)
         == Done(true, Config(GotAll, RequestOf(m, receiveTime).(body := body), body + rest, |body|))
  {
    ParseRendered(m, body + rest, bodyLength, receiveTime);
  }

  /** What a Content-Length decides: a text that is no int is an exception; otherwise so many of the bytes at hand,
      which stay in the buffer, are the body, and if there are fewer the parser waits for them. A negative length
      counts as 2^64 more. */
  lemma ContentLengthDecides(m: Message, rest: string, bodyLength: int, receiveTime: int)
    requires ValidMessage(m) && IsInt32(bodyLength)
    requires HeaderOf(RequestOf(m, receiveTime), "Content-Length") != ""
    ensures var o := Parse(Config(ExpectRequestLine, EMPTY_REQUEST, Render(m) + rest, bodyLength), receiveTime);
            var r := RequestOf(m, receiveTime);
            match Stoi(HeaderOf(r, "Content-Length"))
            case None => o == Threw(Config(ExpectHeaders, r, CRLF + rest, bodyLength))
            case Some(n) =>
              var size := if n < 0 then n + 0x1_0000_0000_0000_0000 else n;
              && 0 <= size
              && o == Done(true, if size <= |rest| then Config(GotAll, r.(body := rest[..size]), rest, n)
                                 else Config(ExpectBody, r, rest, n))
  {
    hide Parse, Render, Stoi, HeaderOf, RequestOf, ValidMessage;
    ParseRendered(m, rest, bodyLength, receiveTime);
  }

  const START := Config(ExpectRequestLine, EMPTY_REQUEST, "", 0)

  /** However a rendered request without a Content-Length arrives, in any number of calls, it parses back. */
  lemma ChunkedRoundTrip(m: Message, rest: string, calls: seq<Call>)
    requires ValidMessage(m) && calls != [] && Bytes(calls) == Render(m) + rest
    requires HeaderOf(RequestOf(m, TimeOfLine("", calls)), "Content-Length") == ""
    ensures var o := Feed(START, calls);
            o == Done(true, Config(GotAll, RequestOf(m, TimeOfLine("", calls)), rest, o.config.bodyLength))
  {
    hide Parse, Feed, Render, RequestOf;
    assert Extend(START, Bytes(calls)) == Config(ExpectRequestLine, EMPTY_REQUEST, Render(m) + rest, 0);
    RequestRoundTrip(m, rest, 0, TimeOfLine("", calls));
    NoContentLengthNoPause(START, calls);
    ChunkingIsIrrelevant(START, calls);
  }

  // The calls give the request, with its body, and leave the body and what follows it.
  ghost predicate TakesBody(m: Message, body: string, rest: string, calls: seq<Call>)
    requires calls != []
  {
    var o := Feed(START, calls);
    var r := RequestOf(m, TimeOfLine("", calls)).(body := body);
    o == Done(true, Config(GotAll, r, body + rest, o.config.bodyLength))
  }

  predicate HasBody(m: Message, body: string) {
    var length := HeaderOf(RequestOf(m, 0), "Content-Length");
    ValidMessage(m) && IsInt32(|body|) && length != "" && Stoi(length) == Some(|body|)
  }

  lemma WholeTakesBody(m: Message, body: string, rest: string, calls: seq<Call>)
    requires HasBody(m, body) && calls != [] && Bytes(calls) == Render(m) + (body + rest)
    ensures Whole(START, calls)
         == Done(true, Config(GotAll, RequestOf(m, TimeOfLine("", calls)).(body := body), body + rest, |body|))
    ensures Stoi(ContentLength(Whole(START, calls))) == Some(|body|)
  {
    hide Parse, Render, TimeOfLine, Stoi;
    assert Extend(START, Bytes(calls)) == Config(ExpectRequestLine, EMPTY_REQUEST, Render(m) + (body + rest), 0);
    BodyIsNotRetrieved(m, body, rest, 0, TimeOfLine("", calls));
  }

  /** With a Content-Length the same holds if no call but the last ends in the body. */
  lemma ChunkedBodyRoundTrip(m: Message, body: string, rest: string, calls: seq<Call>)
    requires HasBody(m, body) && calls != [] && Bytes(calls) == Render(m) + (body + rest)
    requires NoDivisionInBody(calls, |body + rest|, |body|)
    ensures TakesBody(m, body, rest, calls)
  {
    hide Parse, Feed, Render, RequestOf, Stoi, NoDivisionInBody, Whole, TimeOfLine, HeaderOf;
    WholeTakesBody(m, body, rest, calls);
    NoDivisionNoPause(START, calls, |body|);
    ChunkingIsIrrelevant(START, calls);
  }

  // The same bytes at the same times, with other values in the uninitialised variables.
  predicate SameArrivals(calls: seq<Call>, calls': seq<Call>) {
    |calls| == |calls'|
    && forall i :: 0 <= i < |calls| ==> calls[i].bytes == calls'[i].bytes && calls[i].time == calls'[i].time
  }

  lemma {:induction false} SameArrivalsSameBytes(calls: seq<Call>, calls': seq<Call>)
    requires SameArrivals(calls, calls')
    ensures Bytes(calls) == Bytes(calls')
    decreases |calls|
  {
    if calls != [] { SameArrivalsSameBytes(calls[1..], calls'[1..]); }
  }

  lemma SameArrivalsSameDivisions(calls: seq<Call>, calls': seq<Call>, left: nat, n: nat)
    requires SameArrivals(calls, calls') && NoDivisionInBody(calls, left, n)
    ensures NoDivisionInBody(calls', left, n)
  {
    forall k | 0 < k < |calls'| ensures !EndsInBody(|Bytes(calls'[k..])|, left, n) {
      SameArrivalsSameBytes(calls[k..], calls'[k..]);
    }
  }

  function Zeroed(calls: seq<Call>): seq<Call> {
    seq(|calls|, i requires 0 <= i < |calls| => calls[i].(variable := 0))
  }

  /** Whatever the uninitialised variables hold, the body is taken: this is so if and only if no call but the last ends
      in the body. */
  lemma ChunkedBodyRoundTripExactly(m: Message, body: string, rest: string, calls: seq<Call>)
    requires HasBody(m, body) && calls != [] && Bytes(calls) == Render(m) + (body + rest)
    ensures (forall calls' :: SameArrivals(calls, calls') ==> TakesBody(m, body, rest, calls'))
       <==> NoDivisionInBody(calls, |body + rest|, |body|)
  {
    hide Parse, Feed, Render, RequestOf, Stoi, NoDivisionInBody, Whole, TimeOfLine, HeaderOf, TakesBody, HasBody;
    if NoDivisionInBody(calls, |body + rest|, |body|) {
      forall calls' | SameArrivals(calls, calls') ensures TakesBody(m, body, rest, calls') {
        SameArrivalsSameBytes(calls, calls');
        SameArrivalsSameDivisions(calls, calls', |body + rest|, |body|);
        ChunkedBodyRoundTrip(m, body, rest, calls');
      }
    } else {
      var zeroed := Zeroed(calls);
      assert SameArrivals(calls, zeroed) && SameArrivals(zeroed, calls);
      SameArrivalsSameBytes(calls, zeroed);
      if NoDivisionInBody(zeroed, |body + rest|, |body|) {
        SameArrivalsSameDivisions(zeroed, calls, |body + rest|, |body|);
      }
      ZeroedTakesNothing(m, body, rest, zeroed);
    }
  }

  lemma ZeroedTakesNothing(m: Message, body: string, rest: string, calls: seq<Call>)
    requires HasBody(m, body) && calls != [] && Bytes(calls) == Render(m) + (body + rest)
    requires forall i :: 0 <= i < |calls| ==> calls[i].variable == 0
    requires !NoDivisionInBody(calls, |body + rest|, |body|)
    ensures !TakesBody(m, body, rest, calls)
  {
    assert body != "";
    hide Parse, Feed, Render, RequestOf, Stoi, NoDivisionInBody, Whole, TimeOfLine, HeaderOf;
    WholeTakesBody(m, body, rest, calls);
    DivisionFails(START, calls, |body|);
  }

  lemma SameLength(m: Message, receiveTime: int)
    ensures HeaderOf(RequestOf(m, receiveTime), "Content-Length") == HeaderOf(RequestOf(m, 0), "Content-Length")
  {
  }

  /** A body that arrives in two calls is taken if and only if the second call's variable happens to hold its length. */
  lemma BodyInTwoCalls(m: Message, a: string, b: string, rest: string, first: Call, second: Call)
    requires HasBody(m, a + b) && b != ""
    requires first.bytes == Render(m) + a && second.bytes == b + rest
    ensures var o := Feed(START, [first, second]);
            o.config.phase == GotAll && o.config.request.body == a + b <==> second.variable == |a + b|
  {
    SameLength(m, first.time);
    hide Parse, Render, Stoi, HeaderOf;
    var r := RequestOf(m, first.time);
    ParseRendered(m, a, first.variable, first.time);
    assert a + (b + rest) == a + b + rest;
    assert Start(START, first) == Config(ExpectRequestLine, EMPTY_REQUEST, Render(m) + a, first.variable);
    var paused := Config(ExpectBody, r, a, |a + b|);
    assert Parse(Start(START, first), first.time) == Done(true, paused);
    assert [first, second][1..] == [second];
    SecondCall(paused, second, a + b, rest);
  }

  lemma SecondCall(c: Config, call: Call, body: string, rest: string)
    requires c.phase == ExpectBody && IsInt32(|body|) && c.bodyLength == |body|
    requires c.buf + call.bytes == body + rest
    ensures var o := Feed(c, [call]);
            (o.config.phase == GotAll && o.config.request.body == body) <==> call.variable == |body|
  {
    ParseUnfolds(Start(c, call), call.time);
    hide Parse;
    assert [call][1..] == [];
    var o := Parse(Start(c, call), call.time);
    assert Feed(c, [call]) == if Paused(o) then Feed(o.config, []) else Resume(o, "", call.time);
    var s := body + rest;
    assert s[..|body|] == body;
    assert |s| >= ToSize(call.variable) ==> |s[..ToSize(call.variable)]| == ToSize(call.variable);
  }

  const SAMPLE := Message(Get, "/", "", Http11, [Field("Content-Length", " ", "3", "")])

  lemma SampleIsValid()
    ensures ValidMessage(SAMPLE)
  {
  }

  lemma SampleHasBody()
    ensures HasBody(SAMPLE, "abc")
  {
    hide Stoi, ValidMessage;
    SampleIsValid();
    assert Decimal(3) == "3";
    StoiOfDecimal(3);
    var r := RequestOf(SAMPLE, 0);
    assert SAMPLE.fields[1..] == [];
    assert r.headers == map["Content-Length" := "3"];
  }

  /** In such a run the second call takes "ab" for the body "abc". */
  lemma BodyInTwoCallsDiffers()
    ensures var calls := [Call(Render(SAMPLE) + "a", 0, 1), Call("bc", 2, 2)]; !TakesBody(SAMPLE, "abc", "", calls)
  {
    SampleHasBody();
    hide HasBody;
    assert "a" + "bc" == "abc" && "bc" + "" == "bc";
    BodyInTwoCalls(SAMPLE, "a", "bc", "", Call(Render(SAMPLE) + "a", 0, 1), Call("bc", 2, 2));
  }

  /** And a request of which all the bytes arrive at once leaves its body behind. */
  lemma SampleBodyStays(receiveTime: int)
    ensures Parse(Config(ExpectRequestLine, EMPTY_REQUEST, Render(SAMPLE) + "abc", 0), receiveTime).config.buf == "abc"
  {
    SampleHasBody();
    SameLength(SAMPLE, receiveTime);
    hide HasBody, Parse, Render, RequestOf, HeaderOf, Stoi, ValidMessage;
    BodyOfSample();
    assert "abc" + "" == "abc";
    BodyIsNotRetrieved(SAMPLE, "abc", "", 0, receiveTime);
  }

  lemma BodyOfSample()
    requires HasBody(SAMPLE, "abc")
    ensures ValidMessage(SAMPLE) && HeaderOf(RequestOf(SAMPLE, 0), "Content-Length") != ""
    ensures Stoi(HeaderOf(RequestOf(SAMPLE, 0), "Content-Length")) == Some(3)
  {
    hide Parse, Stoi, ValidMessage, HeaderOf, RequestOf;
  }

  const LATE_FIELD := "Host: x\r\n\r\n"

  /** A header line behind one without a colon is not read as a header. */
  lemma LateFieldIsLeft(receiveTime: int)
    ensures var bytes := RenderLine(SAMPLE) + CRLF + ("no colon" + CRLF + LATE_FIELD);
            var o := Parse(Config(ExpectRequestLine, EMPTY_REQUEST, bytes, 0), receiveTime);
            o == Done(true, Config(GotAll, LineOf(SAMPLE, receiveTime), LATE_FIELD, 0))
  {
    hide Parse, RenderLine, IsLine, Stoi, ValidMessage, Find, FindCRLF;
    SampleIsValid();
    var last := "no colon";
    FreeIsLine(last);
    ParseRenderedLine(SAMPLE, last + CRLF + LATE_FIELD, 0, receiveTime);
    var c := Config(ExpectHeaders, LineOf(SAMPLE, receiveTime), last + CRLF + LATE_FIELD, 0);
    assert Lines([]) + c.buf == c.buf;
    HeadersEndAtColonlessLine(c, [], last, LATE_FIELD, receiveTime);
  }
}
