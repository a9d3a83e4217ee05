/** http/FastCgi.cc: records and name-value pairs of the FastCGI Specification 1.0. */
module FastCgi {
  import opened NetworkOrder
  import opened NetBuffer
  import opened Wrappers

  const HEADER_LEN := 8
  const END_REQUEST_BODY_LEN := 8
  const PARAMS_BUFF_LEN := 1024
  const VERSION_1 := 1
  const BEGIN_REQUEST := 1
  const END_REQUEST := 3
  const PARAMS := 4
  const STDOUT := 6
  const STDERR := 7

  datatype Pair = Pair(name: string, value: string)

  // A record of section 3.3.
  datatype Record = Record(kind: nat, id: nat, content: string, padding: string)

  datatype Message = Message(id: nat, text: string)

  function Byte(c: char): (b: nat)
    ensures b < 256
  {
    c as int % 256
  }

  function MakeHeader(kind: int, requestId: int, contentLength: int, paddingLength: int): (s: string)
    ensures |s| == HEADER_LEN
  {
    [Octet(VERSION_1), Octet(kind), Octet(requestId / 256), Octet(requestId),
     Octet(contentLength / 256), Octet(contentLength), Octet(paddingLength), Octet(0)]
  }

  function MakeBeginRequestBody(role: int, keepConnection: bool): (s: string)
    ensures |s| == 8
  {
    [Octet(role / 256), Octet(role), Octet(if keepConnection then 1 else 0),
     Octet(0), Octet(0), Octet(0), Octet(0), Octet(0)]
  }

  // A length of section 3.4: one byte, or four with the top bit set.
  function LengthBytes(n: nat): string {
    if n < 128 then [Octet(n)] else [Octet(n / 0x100_0000 + 128), Octet(n / 0x1_0000), Octet(n / 0x100), Octet(n)]
  }

  function NameValue(p: Pair): string {
    LengthBytes(|p.name|) + LengthBytes(|p.value|) + p.name + p.value
  }

  function NameValues(pairs: seq<Pair>): string {
    if pairs == [] then "" else NameValue(pairs[0]) + NameValues(pairs[1..])
  }

  // Reading a length, and what follows it, by section 3.4.
  function ReadLength(s: string): (r: Option<(nat, string)>)
    ensures r.Some? ==> |r.value.1| < |s|
  {
    if s == "" then None
    else if Byte(s[0]) < 128 then Some((Byte(s[0]), s[1..]))
    else if |s| < 4 then None
    else Some(((Byte(s[0]) - 128) * 0x100_0000 + Byte(s[1]) * 0x1_0000 + Byte(s[2]) * 0x100 + Byte(s[3]), s[4..]))
  }

  function ReadPair(s: string): (r: Option<(Pair, string)>)
    ensures r.Some? ==> |r.value.1| < |s|
  {
    match ReadLength(s)
    case None => None
    case Some((n, s1)) =>
      match ReadLength(s1)
      case None => None
      case Some((m, s2)) =>
        if |s2| < n + m then None else Some((Pair(s2[..n], s2[n..n + m]), s2[n + m..]))
  }

  function ReadPairs(s: string): Option<seq<Pair>> {
    if s == "" then Some([])
    else
      match ReadPair(s)
      case None => None
      case Some((p, rest)) =>
        match ReadPairs(rest)
        case None => None
        case Some(ps) => Some([p] + ps)
  }

  predicate FitsLengths(p: Pair) {
    |p.name| < 0x8000_0000 && |p.value| < 0x8000_0000
  }

  lemma FourBytes(n: nat)
    requires n < 0x8000_0000
    ensures n / 0x100_0000 < 128
    ensures n == n / 0x100_0000 * 0x100_0000 + n / 0x1_0000 % 256 * 0x1_0000 + n / 0x100 % 256 * 0x100 + n % 256
  {
    assert n / 0x100 == n / 0x1_0000 * 256 + n / 0x100 % 256;
    assert n / 0x1_0000 == n / 0x100_0000 * 256 + n / 0x1_0000 % 256;
  }

  lemma ByteOfOctet(x: int)
    ensures Byte(Octet(x)) == x % 256
  {
  }

  lemma LengthRoundTrip(n: nat, rest: string)
    requires n < 0x8000_0000
    ensures ReadLength(LengthBytes(n) + rest) == Some((n, rest))
  {
    hide Byte, Octet;
    var s := LengthBytes(n) + rest;
    ByteOfOctet(n);
    if n < 128 {
      assert s[1..] == rest;
    } else {
      assert s[4..] == rest;
      FourBytes(n);
      ByteOfOctet(n / 0x100_0000 + 128);
      ByteOfOctet(n / 0x1_0000);
      ByteOfOctet(n / 0x100);
    }
  }

  lemma PairRoundTrip(p: Pair, rest: string)
    requires FitsLengths(p)
    ensures ReadPair(NameValue(p) + rest) == Some((p, rest))
  {
    hide ReadLength, LengthBytes;
    var s2 := p.name + p.value + rest;
    assert NameValue(p) + rest == LengthBytes(|p.name|) + (LengthBytes(|p.value|) + s2);
    LengthRoundTrip(|p.name|, LengthBytes(|p.value|) + s2);
    LengthRoundTrip(|p.value|, s2);
    assert s2[..|p.name|] == p.name;
    assert s2[|p.name|..|p.name| + |p.value|] == p.value;
    assert s2[|p.name| + |p.value|..] == rest;
  }

  /** A reader that follows section 3.4 recovers every list of name-value pairs, in both length forms. */
  lemma {:induction false} PairsRoundTrip(pairs: seq<Pair>)
    requires forall i :: 0 <= i < |pairs| ==> FitsLengths(pairs[i])
    ensures ReadPairs(NameValues(pairs)) == Some(pairs)
  {
    hide ReadPair, NameValue;
    if pairs != [] {
      PairRoundTrip(pairs[0], NameValues(pairs[1..]));
      PairsRoundTrip(pairs[1..]);
      assert pairs == [pairs[0]] + pairs[1..];
    }
  }

  function EncodeRecord(r: Record): string {
    MakeHeader(r.kind, r.id, |r.content|, |r.padding|) + r.content + r.padding
  }

  function EncodeRecords(records: seq<Record>): string {
    if records == [] then "" else EncodeRecord(records[0]) + EncodeRecords(records[1..])
  }

  // Reading a record of version 1, and what follows it, by section 3.3.
  function ReadRecord(s: string): Option<(Record, string)> {
    if |s| < 8 || Byte(s[0]) != 1 then None
    else
      var n, padding := Byte(s[4]) * 256 + Byte(s[5]), Byte(s[6]);
      var rest := s[8..];
      if |rest| < n + padding then None
      else Some((Record(Byte(s[1]), Byte(s[2]) * 256 + Byte(s[3]), rest[..n], rest[n..n + padding]),
          rest[n + padding..]))
  }

  predicate FitsRecord(r: Record) {
    r.kind < 256 && r.id < 0x1_0000 && |r.content| < 0x1_0000 && |r.padding| < 256
  }

  lemma HeaderFields(kind: nat, id: nat, n: nat, padding: nat)
    requires kind < 256 && id < 0x1_0000 && n < 0x1_0000 && padding < 256
    ensures var h := MakeHeader(kind, id, n, padding);
            && Byte(h[0]) == VERSION_1 && Byte(h[1]) == kind && Byte(h[2]) * 256 + Byte(h[3]) == id
            && Byte(h[4]) * 256 + Byte(h[5]) == n && Byte(h[6]) == padding
  {
  }

  lemma RecordParts(r: Record, rest: string)
    ensures var s := EncodeRecord(r) + rest; var h := MakeHeader(r.kind, r.id, |r.content|, |r.padding|);
            && s[..HEADER_LEN] == h && (forall i :: 0 <= i < HEADER_LEN ==> s[i] == h[i])
            && s[HEADER_LEN..] == r.content + (r.padding + rest)
  {
  }

  lemma ContentParts(content: string, padding: string, rest: string)
    ensures var s := content + (padding + rest);
            && s[..|content|] == content && s[|content|..] == padding + rest
            && s[|content|..|content| + |padding|] == padding && s[|content| + |padding|..] == rest
            && s[|content|..][|padding|..] == rest
  {
  }

  /** A reader that follows section 3.3 recovers a record from its header and bodies. */
  lemma RecordRoundTrip(r: Record, rest: string)
    requires FitsRecord(r)
    ensures ReadRecord(EncodeRecord(r) + rest) == Some((r, rest))
  {
    hide Byte, MakeHeader;
    RecordParts(r, rest);
    HeaderFields(r.kind, r.id, |r.content|, |r.padding|);
    ContentParts(r.content, r.padding, rest);
  }

  lemma OverwrittenTwice(a: string, at: nat, s: string, t: string)
    requires at + |s| + |t| <= |a|
    ensures Overwritten(Overwritten(a, at, s), at + |s|, t) == Overwritten(a, at, s + t)
  {
  }

  method MakeNameValueBody(name: string, nameLen: nat, value: string, valueLen: nat, body: array<char>, at: nat)
    returns (bodyLen: nat)
    requires nameLen == |name| && valueLen == |value|
    requires at + |NameValue(Pair(name, value))| <= body.Length
    modifies body
    ensures bodyLen == |NameValue(Pair(name, value))|
    ensures body[..] == Overwritten(old(body[..]), at, NameValue(Pair(name, value)))
  {
    hide LengthBytes, Overwritten;
    ghost var before, l, m := body[..], LengthBytes(nameLen), LengthBytes(valueLen);
    var p := at;
    p := WriteLength(nameLen, body, p);
    p := WriteLength(valueLen, body, p);
    OverwrittenTwice(before, at, l, m);
    p := WriteBytes(name, body, p);
    OverwrittenTwice(before, at, l + m, name);
    p := WriteBytes(value, body, p);
    OverwrittenTwice(before, at, l + m + name, value);
    bodyLen := p - at;
  }

  method WriteLength(n: nat, body: array<char>, at: nat) returns (next: nat)
    requires at + |LengthBytes(n)| <= body.Length
    modifies body
    ensures next == at + |LengthBytes(n)|
    ensures body[..] == Overwritten(old(body[..]), at, LengthBytes(n))
  {
    hide Octet;
    next := at;
    if n < 128 {
      body[next] := Octet(n);
      next := next + 1;
    } else {
      body[next] := Octet(n / 0x100_0000 + 128);
      body[next + 1] := Octet(n / 0x1_0000);
      body[next + 2] := Octet(n / 0x100);
      body[next + 3] := Octet(n);
      next := next + 4;
    }
  }

  method WriteBytes(s: string, body: array<char>, at: nat) returns (next: nat)
    requires at + |s| <= body.Length
    modifies body
    ensures next == at + |s|
    ensures body[..] == Overwritten(old(body[..]), at, s)
  {
    next := at;
    for i := 0 to |s|
      invariant next == at + i
      invariant body[..] == old(body[..at]) + s[..i] + old(body[next..])
    {
      body[next] := s[i];
      next := next + 1;
    }
  }

  // The loop of Params over its lists.
  method FillBody(names: seq<string>, values: seq<string>, bodyBuff: array<char>) returns (bodyLen: nat)
    requires |names| == |values| && |NameValues(Zip(names, values))| <= bodyBuff.Length
    modifies bodyBuff
    ensures bodyLen == |NameValues(Zip(names, values))| && bodyBuff[..bodyLen] == NameValues(Zip(names, values))
  {
    hide NameValue;
    ghost var pairs := Zip(names, values);
    bodyLen := 0;
    for i := 0 to |names|
      invariant bodyLen <= bodyBuff.Length && bodyBuff[..bodyLen] == NameValues(pairs[..i])
      invariant NameValues(pairs) == NameValues(pairs[..i]) + NameValues(pairs[i..])
    {
      NameValuesStep(pairs, i);
      var len := MakeNameValueBody(names[i], |names[i]|, values[i], |values[i]|, bodyBuff, bodyLen);
      bodyLen := bodyLen + len;
      assert bodyBuff[..][..bodyLen] == NameValues(pairs[..i]) + NameValue(pairs[i]);
    }
    assert pairs[..|names|] == pairs && NameValues(pairs[|names|..]) == "";
  }

  // The PARAMS record for a list of pairs whose encoding fits the buffer on the stack.
  method Params(buffer: Buffer, requestId: int, names: seq<string>, values: seq<string>)
    requires buffer.Valid() && |names| == |values|
    requires |NameValues(Zip(names, values))| <= PARAMS_BUFF_LEN
    modifies buffer, buffer.buffer
    ensures buffer.Valid() && (buffer.buffer == old(buffer.buffer) || fresh(buffer.buffer))
    ensures var body := NameValues(Zip(names, values));
            buffer.Contents() == old(buffer.Contents()) + MakeHeader(PARAMS, requestId, |body|, 0) + body
  {
    hide NameValues, MakeHeader;
    var bodyBuff := new char[PARAMS_BUFF_LEN];
    var bodyLen := FillBody(names, values, bodyBuff);
    buffer.Append(MakeHeader(PARAMS, requestId, bodyLen, 0));
    buffer.Append(bodyBuff[..bodyLen]);
  }

  function Zip(names: seq<string>, values: seq<string>): (pairs: seq<Pair>)
    requires |names| == |values|
    ensures |pairs| == |names| && forall i :: 0 <= i < |names| ==> pairs[i] == Pair(names[i], values[i])
  {
    seq(|names|, i requires 0 <= i < |names| => Pair(names[i], values[i]))
  }

  lemma {:induction false} NameValuesAppend(a: seq<Pair>, b: seq<Pair>)
    ensures NameValues(a + b) == NameValues(a) + NameValues(b)
  {
    hide NameValue;
    if a == [] {
      assert a + b == b;
    } else {
      assert (a + b)[1..] == a[1..] + b;
      NameValuesAppend(a[1..], b);
    }
  }

  lemma NameValuesStep(pairs: seq<Pair>, i: nat)
    requires i < |pairs|
    ensures NameValues(pairs[..i + 1]) == NameValues(pairs[..i]) + NameValue(pairs[i])
    ensures NameValues(pairs[i..]) == NameValue(pairs[i]) + NameValues(pairs[i + 1..])
  {
    hide NameValue;
    assert pairs[..i + 1] == pairs[..i] + [pairs[i]];
    NameValuesAppend(pairs[..i], [pairs[i]]);
    assert NameValues([pairs[i]]) == NameValue(pairs[i]) + "";
    assert pairs[i..][1..] == pairs[i + 1..];
  }

  lemma ParamsReadBack(pairs: seq<Pair>)
    requires |NameValues(pairs)| <= PARAMS_BUFF_LEN
    ensures ReadPairs(NameValues(pairs)) == Some(pairs)
  {
    forall i | 0 <= i < |pairs| ensures FitsLengths(pairs[i]) {
      PairFits(pairs, i);
    }
    PairsRoundTrip(pairs);
  }

  /** The record that Params appends is read back as the same pairs and request, by sections 3.3 and 3.4. */
  lemma ParamsRecordRoundTrip(requestId: nat, pairs: seq<Pair>, rest: string)
    requires requestId < 0x1_0000 && |NameValues(pairs)| <= PARAMS_BUFF_LEN
    ensures var body := NameValues(pairs);
            && ReadRecord(MakeHeader(PARAMS, requestId, |body|, 0) + body + rest)
                == Some((Record(PARAMS, requestId, body, ""), rest))
            && ReadPairs(body) == Some(pairs)
  {
    var body := NameValues(pairs);
    var r := Record(PARAMS, requestId, body, "");
    assert EncodeRecord(r) == MakeHeader(PARAMS, requestId, |body|, 0) + body;
    RecordRoundTrip(r, rest);
    ParamsReadBack(pairs);
  }

  const RESPONDER := 1

  method StartRequestRecord(buffer: Buffer, requestId: int)
    requires buffer.Valid()
    modifies buffer, buffer.buffer
    ensures buffer.Valid() && (buffer.buffer == old(buffer.buffer) || fresh(buffer.buffer))
    ensures buffer.Contents() == old(buffer.Contents()) + MakeHeader(BEGIN_REQUEST, requestId, 8, 0)
        + MakeBeginRequestBody(RESPONDER, true)
  {
    buffer.Append(MakeHeader(BEGIN_REQUEST, requestId, 8, 0));
    buffer.Append(MakeBeginRequestBody(RESPONDER, true));
  }

  // Ends the parameters with an empty PARAMS record.
  method EndRequestRecord(buffer: Buffer, requestId: int)
    requires buffer.Valid()
    modifies buffer, buffer.buffer
    ensures buffer.Valid() && (buffer.buffer == old(buffer.buffer) || fresh(buffer.buffer))
    ensures buffer.Contents() == old(buffer.Contents()) + MakeHeader(PARAMS, requestId, 0, 0)
  {
    buffer.Append(MakeHeader(PARAMS, requestId, 0, 0));
  }

  // The role and the flag FCGI_KEEP_CONN of a BEGIN_REQUEST, read by section 5.1.
  function ReadBeginRequestBody(body: string): Option<(nat, bool)> {
    if |body| != 8 then None else Some((Byte(body[0]) * 256 + Byte(body[1]), Byte(body[2]) % 2 == 1))
  }

  /** A reader that follows section 5.1 recovers the role and whether the connection is kept. */
  lemma BeginRequestRoundTrip(role: nat, keepConnection: bool)
    requires role < 0x1_0000
    ensures ReadBeginRequestBody(MakeBeginRequestBody(role, keepConnection)) == Some((role, keepConnection))
  {
  }

  // A request by sections 3.3, 3.4, 5.1 and 5.2: BEGIN_REQUEST (1) for a responder (1) on a connection that is kept,
  // the pairs in one PARAMS (4), and an empty PARAMS.
  predicate IsRequest(s: string, id: nat, pairs: seq<Pair>) {
    match ReadRecords(s)
    case None => false
    case Some(rs) =>
      && |rs| == 3 && (forall r | r in rs :: r.id == id)
      && rs[0].kind == 1 && ReadBeginRequestBody(rs[0].content) == Some((1, true))
      && rs[1].kind == 4 && ReadPairs(rs[1].content) == Some(pairs)
      && rs[2].kind == 4 && rs[2].content == ""
  }

  // The records that HttpServer::server_cgi sends for one request.
  function RequestRecords(id: nat, pairs: seq<Pair>): seq<Record> {
    [Record(BEGIN_REQUEST, id, MakeBeginRequestBody(RESPONDER, true), ""),
     Record(PARAMS, id, NameValues(pairs), ""),
     Record(PARAMS, id, "", "")]
  }

  lemma RequestReadsBack(id: nat, pairs: seq<Pair>)
    requires id < 0x1_0000 && |NameValues(pairs)| <= PARAMS_BUFF_LEN
    ensures IsRequest(EncodeRecords(RequestRecords(id, pairs)), id, pairs)
  {
    hide EncodeRecords, ReadRecords, ReadPairs, NameValues, MakeBeginRequestBody, ReadBeginRequestBody;
    var rs := RequestRecords(id, pairs);
    RecordsRoundTrip(rs);
    BeginRequestRoundTrip(RESPONDER, true);
    ParamsReadBack(pairs);
  }

  lemma HeaderIdWraps(kind: int, requestId: int, n: int, padding: int)
    ensures MakeHeader(kind, requestId, n, padding) == MakeHeader(kind, requestId % 0x1_0000, n, padding)
  {
    var q, r := requestId / 0x1_0000, requestId % 0x1_0000;
    assert requestId == 256 * (256 * q) + r;
    assert requestId / 256 == 256 * q + r / 256;
  }

  /** What is sent reads back as the request with those pairs, whose id is the low 16 bits of the one given. */
  method SendRequest(buffer: Buffer, requestId: int, names: seq<string>, values: seq<string>)
    requires buffer.Valid() && |names| == |values| && |NameValues(Zip(names, values))| <= PARAMS_BUFF_LEN
    modifies buffer, buffer.buffer
    ensures buffer.Valid() && (buffer.buffer == old(buffer.buffer) || fresh(buffer.buffer))
    ensures old(buffer.Contents()) <= buffer.Contents()
    ensures IsRequest(buffer.Contents()[|old(buffer.Contents())|..], requestId % 0x1_0000, Zip(names, values))
  {
    hide MakeHeader, MakeBeginRequestBody, Zip, NameValues, EncodeRecord, EncodeRecords, IsRequest;
    ghost var before, id := buffer.Contents(), requestId % 0x1_0000;
    ghost var rs := RequestRecords(id, Zip(names, values));
    StartRequestRecord(buffer, requestId);
    RecordAppended(before, rs[0], requestId);
    Params(buffer, requestId, names, values);
    RecordAppended(before + EncodeRecord(rs[0]), rs[1], requestId);
    EndRequestRecord(buffer, requestId);
    RecordAppended(before + EncodeRecord(rs[0]) + EncodeRecord(rs[1]), rs[2], requestId);
    ThreeRecords(rs);
    Regroup(before, EncodeRecord(rs[0]), EncodeRecord(rs[1]), EncodeRecord(rs[2]));
    RequestReadsBack(id, Zip(names, values));
  }

  lemma RecordAppended(before: string, r: Record, requestId: int)
    requires r.padding == "" && r.id == requestId % 0x1_0000
    ensures before + MakeHeader(r.kind, requestId, |r.content|, 0) + r.content == before + EncodeRecord(r)
    ensures r.content == "" ==> before + MakeHeader(r.kind, requestId, 0, 0) == before + EncodeRecord(r)
  {
    hide MakeHeader;
    HeaderIdWraps(r.kind, requestId, |r.content|, 0);
    Associate(before, MakeHeader(r.kind, requestId, |r.content|, 0), r.content);
    Unpadded(r);
  }

  lemma Associate(a: string, b: string, c: string)
    ensures a + b + c == a + (b + c)
  {
  }

  lemma Regroup(before: string, a: string, b: string, c: string)
    ensures before + a + b + c == before + (a + b + c)
    ensures before <= before + a + b + c && (before + a + b + c)[|before|..] == a + b + c
  {
  }

  lemma Unpadded(r: Record)
    requires r.padding == ""
    ensures EncodeRecord(r) == MakeHeader(r.kind, r.id, |r.content|, 0) + r.content
  {
  }

  lemma ThreeRecords(rs: seq<Record>)
    requires |rs| == 3
    ensures EncodeRecords(rs) == EncodeRecord(rs[0]) + EncodeRecord(rs[1]) + EncodeRecord(rs[2])
  {
    hide EncodeRecord;
    var tail := rs[2..];
    assert rs[1..][1..] == tail && tail[1..] == [];
    assert EncodeRecords(tail) == EncodeRecord(rs[2]) + "";
    assert EncodeRecords(rs[1..]) == EncodeRecord(rs[1]) + EncodeRecords(tail);
  }

  function ReadRecords(s: string): Option<seq<Record>>
    decreases |s|
  {
    if s == "" then Some([])
    else
      match ReadRecord(s)
      case None => None
      case Some((r, rest)) =>
        match ReadRecords(rest)
        case None => None
        case Some(rs) => Some([r] + rs)
  }

  lemma NotEmpty(r: Record, rest: string)
    ensures EncodeRecord(r) + rest != ""
  {
  }

  /** Any sequence of records reads back by section 3.3; with ParamsRecordRoundTrip, a sent request reads back whole. */
  lemma {:induction false} RecordsRoundTrip(rs: seq<Record>)
    requires forall i :: 0 <= i < |rs| ==> FitsRecord(rs[i])
    ensures ReadRecords(EncodeRecords(rs)) == Some(rs)
  {
    hide ReadRecord, EncodeRecord;
    if rs != [] {
      RecordRoundTrip(rs[0], EncodeRecords(rs[1..]));
      NotEmpty(rs[0], EncodeRecords(rs[1..]));
      RecordsRoundTrip(rs[1..]);
      assert rs == [rs[0]] + rs[1..];
    }
  }

  lemma PairFits(pairs: seq<Pair>, i: nat)
    requires i < |pairs|
    ensures |pairs[i].name| + |pairs[i].value| <= |NameValues(pairs)|
  {
    assert pairs == pairs[..i] + pairs[i..];
    NameValuesAppend(pairs[..i], pairs[i..]);
    NameValuesStep(pairs, i);
  }

  /** The request id read from a header is the one put in exactly when it fits 16 bits. */
  lemma RequestIdRoundTrip(kind: int, requestId: int, n: int, padding: int)
    ensures RequestId(MakeHeader(kind, requestId, n, padding)) == requestId <==> 0 <= requestId < 0x1_0000
  {
  }

  // getRequestId
  function RequestId(s: string): nat
    requires |s| >= HEADER_LEN
  {
    Byte(s[2]) * 256 + Byte(s[3])
  }

  // ParseFromPhp: the text and the bytes left, or None where retrieve's assertion fails.
  function ParseStep(s: string): (r: Option<(string, string)>)
    requires |s| >= HEADER_LEN
    ensures r.Some? ==> |r.value.1| < |s|
  {
    var kind, n, padding, rest := Byte(s[1]), Byte(s[4]) * 256 + Byte(s[5]), Byte(s[6]), s[HEADER_LEN..];
    if kind == STDOUT || kind == STDERR then
      if |rest| < n || |rest[n..]| < padding then None
      else Some((if kind == STDOUT then rest[..n] else "", rest[n..][padding..]))
    else if kind == END_REQUEST then
      if |rest| < END_REQUEST_BODY_LEN then None else Some(("", rest[END_REQUEST_BODY_LEN..]))
    else Some(("", rest))
  }

  // The content and padding of an output record.
  method RetrieveBody(buffer: Buffer, contentLen: nat, paddingLength: nat)
    requires buffer.Valid() && contentLen + paddingLength <= buffer.ReadableBytes()
    modifies buffer
    ensures buffer.Valid() && buffer.buffer == old(buffer.buffer)
    ensures buffer.Contents() == old(buffer.Contents())[contentLen..][paddingLength..]
  {
    buffer.Retrieve(contentLen);
    if paddingLength > 0 {
      buffer.Retrieve(paddingLength);
    }
  }

  method ParseFromPhp(buffer: Buffer) returns (content: string)
    requires buffer.Valid() && buffer.ReadableBytes() >= HEADER_LEN && ParseStep(buffer.Contents()).Some?
    modifies buffer
    ensures buffer.Valid() && buffer.buffer == old(buffer.buffer)
    ensures ParseStep(old(buffer.Contents())) == Some((content, buffer.Contents()))
  {
    hide Byte;
    content := "";
    ghost var s := buffer.Contents();
    var header := buffer.Peek(HEADER_LEN);
    assert header[1] == s[1] && header[4] == s[4] && header[5] == s[5] && header[6] == s[6];
    buffer.Retrieve(HEADER_LEN);
    if Byte(header[1]) == STDOUT {
      var contentLen := Byte(header[4]) * 256 + Byte(header[5]);
      content := buffer.Peek(contentLen);
      RetrieveBody(buffer, contentLen, Byte(header[6]));
    } else if Byte(header[1]) == STDERR {
      var contentLen := Byte(header[4]) * 256 + Byte(header[5]);
      RetrieveBody(buffer, contentLen, Byte(header[6]));
    } else if Byte(header[1]) == END_REQUEST {
      buffer.Retrieve(END_REQUEST_BODY_LEN);
    }
  }

  // The loop of HttpServer::onCGIMessage: one message a record, and the bytes left.
  function Demux(s: string): Option<(seq<Message>, string)> {
    if |s| < HEADER_LEN then Some(([], s))
    else
      match ParseStep(s)
      case None => None
      case Some((text, rest)) =>
        match Demux(rest)
        case None => None
        case Some((messages, left)) => Some(([Message(RequestId(s), text)] + messages, left))
  }

  // A demultiplexed list with messages in front.
  function After(messages: seq<Message>, o: Option<(seq<Message>, string)>): Option<(seq<Message>, string)> {
    match o
    case None => None
    case Some((ms, left)) => Some((messages + ms, left))
  }

  lemma AfterNone(o: Option<(seq<Message>, string)>)
    ensures After([], o) == o
  {
    match o
    case None =>
    case Some((ms, left)) => assert [] + ms == ms;
  }

  lemma AfterOne(messages: seq<Message>, s: string)
    requires |s| >= HEADER_LEN && ParseStep(s).Some?
    ensures var (text, rest) := ParseStep(s).value;
            After(messages, Demux(s)) == After(messages + [Message(RequestId(s), text)], Demux(rest))
  {
    hide ParseStep, RequestId;
    var (text, rest) := ParseStep(s).value;
    match Demux(rest)
    case None =>
    case Some((ms, left)) =>
      var m := Message(RequestId(s), text);
      assert messages + ([m] + ms) == messages + [m] + ms;
  }

  method OnCGIMessage(buf: Buffer) returns (messages: seq<Message>)
    requires buf.Valid() && Demux(buf.Contents()).Some?
    modifies buf
    ensures buf.Valid() && buf.ReadableBytes() < HEADER_LEN
    ensures Demux(old(buf.Contents())) == Some((messages, buf.Contents()))
  {
    hide ParseStep;
    messages := [];
    AfterNone(Demux(buf.Contents()));
    while buf.ReadableBytes() >= HEADER_LEN
      invariant buf.Valid() && buf.buffer == old(buf.buffer) && Demux(buf.Contents()).Some?
      invariant After(messages, Demux(buf.Contents())) == Demux(old(buf.Contents()))
      decreases buf.ReadableBytes()
    {
      AfterOne(messages, buf.Contents());
      var header := buf.Peek(HEADER_LEN);
      var requestId := RequestId(header);
      var text := ParseFromPhp(buf);
      messages := messages + [Message(requestId, text)];
    }
    assert messages + [] == messages;
  }

  // A record that php-fpm sends: output (STDOUT 6, STDERR 7) with any padding, or an END_REQUEST (3) with its 8-byte
  // body alone.
  predicate IsReply(r: Record) {
    FitsRecord(r) && (r.kind == 6 || r.kind == 7 || (r.kind == 3 && |r.content| == 8 && r.padding == ""))
  }

  function MessageOf(r: Record): Message {
    Message(r.id, if r.kind == 6 then r.content else "")
  }

  function MessagesOf(records: seq<Record>): seq<Message> {
    if records == [] then [] else [MessageOf(records[0])] + MessagesOf(records[1..])
  }

  lemma ReplyStep(r: Record, rest: string)
    requires IsReply(r)
    ensures |EncodeRecord(r)| >= HEADER_LEN
    ensures ParseStep(EncodeRecord(r) + rest) == Some((MessageOf(r).text, rest))
    ensures RequestId(EncodeRecord(r) + rest) == r.id
  {
    hide Byte, MakeHeader;
    RecordParts(r, rest);
    HeaderFields(r.kind, r.id, |r.content|, |r.padding|);
    ContentParts(r.content, r.padding, rest);
  }

  lemma DemuxReply(r: Record, rest: string)
    requires IsReply(r)
    ensures Demux(EncodeRecord(r) + rest) == (
              match Demux(rest)
              case None => None
              case Some((messages, left)) => Some(([MessageOf(r)] + messages, left)))
  {
    hide ParseStep, EncodeRecord, RequestId;
    ReplyStep(r, rest);
    RecordParts(r, rest);
  }

  /** The demultiplexing loop yields the request id and output of every complete record, in order, and leaves exactly
      what follows them. */
  lemma {:induction false} DemuxRoundTrip(records: seq<Record>, tail: string)
    requires forall i :: 0 <= i < |records| ==> IsReply(records[i])
    requires |tail| < HEADER_LEN
    ensures Demux(EncodeRecords(records) + tail) == Some((MessagesOf(records), tail))
  {
    hide ParseStep, EncodeRecord, RequestId;
    if records == [] {
      assert EncodeRecords(records) + tail == tail;
    } else {
      var r, rest := records[0], EncodeRecords(records[1..]) + tail;
      assert EncodeRecords(records) + tail == EncodeRecord(r) + rest;
      ReplyStep(r, rest);
      DemuxRoundTrip(records[1..], tail);
      RecordParts(r, rest);
    }
  }

  /** A record of which at least the header has arrived is taken exactly when all of it has. */
  lemma PartialRecord(r: Record, n: nat)
    requires IsReply(r) && HEADER_LEN <= n <= |EncodeRecord(r)|
    ensures ParseStep(EncodeRecord(r)[..n]).Some? <==> n == |EncodeRecord(r)|
  {
    hide Byte, MakeHeader;
    var s, part := EncodeRecord(r) + "", EncodeRecord(r)[..n];
    RecordParts(r, "");
    HeaderFields(r.kind, r.id, |r.content|, |r.padding|);
    assert forall i :: 0 <= i < HEADER_LEN ==> part[i] == s[i];
  }

  // What the loop makes of the last record of a stream, of which n bytes have arrived.
  function DemuxOfPart(messages: seq<Message>, r: Record, n: nat): Option<(seq<Message>, string)>
    requires n <= |EncodeRecord(r)|
  {
    if n < HEADER_LEN then Some((messages, EncodeRecord(r)[..n]))
    else if n == |EncodeRecord(r)| then Some((messages + [MessageOf(r)], ""))
    else None
  }

  lemma PartAlone(r: Record, n: nat)
    requires IsReply(r) && n <= |EncodeRecord(r)|
    ensures Demux(EncodeRecord(r)[..n]) == DemuxOfPart([], r, n)
  {
    var part := EncodeRecord(r)[..n];
    hide ParseStep, EncodeRecord, RequestId;
    if n >= HEADER_LEN {
      PartialRecord(r, n);
      if n == |EncodeRecord(r)| {
        ReplyStep(r, "");
        assert part == EncodeRecord(r) + "" && part != "";
        var m, none := MessageOf(r), [];
        assert Demux("") == Some((none, ""));
        assert [m] + none == none + [m];
      }
    }
  }

  /** The loop on a stream of which the last record has arrived only in part: it ends well if and only if less than that
      record's header has arrived, or all of it; then what is left is the part, or nothing. */
  lemma {:induction false} PartialStream(records: seq<Record>, r: Record, n: nat)
    requires IsReply(r) && n <= |EncodeRecord(r)| && forall i :: 0 <= i < |records| ==> IsReply(records[i])
    ensures Demux(EncodeRecords(records) + EncodeRecord(r)[..n]) == DemuxOfPart(MessagesOf(records), r, n)
  {
    hide ParseStep, EncodeRecord, RequestId, IsReply, Demux;
    var part := EncodeRecord(r)[..n];
    if records == [] {
      assert EncodeRecords(records) + part == part;
      PartAlone(r, n);
    } else {
      var first, rest := records[0], EncodeRecords(records[1..]) + part;
      assert EncodeRecords(records) + part == EncodeRecord(first) + rest;
      DemuxReply(first, rest);
      PartialStream(records[1..], r, n);
      assert [MessageOf(first)] + (MessagesOf(records[1..]) + [MessageOf(r)]) == MessagesOf(records) + [MessageOf(r)];
    }
  }

  // An output record of one byte whose content has not arrived.
  const SPLIT_RECORD := Record(STDOUT, 1, "x", "")

  /** On such a record the assertion in retrieve fails. */
  lemma SplitRecordFails()
    ensures IsReply(SPLIT_RECORD) && Demux(EncodeRecord(SPLIT_RECORD)[..HEADER_LEN]) == None
  {
    PartialStream([], SPLIT_RECORD, HEADER_LEN);
    assert EncodeRecords([]) + EncodeRecord(SPLIT_RECORD)[..HEADER_LEN] == EncodeRecord(SPLIT_RECORD)[..HEADER_LEN];
  }

  /** An END_REQUEST takes 8 bytes whatever its header says: it is consumed exactly, with nothing of what follows, if
      and only if its body and padding together have 8 bytes. */
  lemma EndRequestLeftover(r: Record, rest: string)
    requires FitsRecord(r) && r.kind == END_REQUEST
    ensures var after := r.content + (r.padding + rest);
            ParseStep(EncodeRecord(r) + rest) == (
              if |after| < END_REQUEST_BODY_LEN then None else Some(("", after[END_REQUEST_BODY_LEN..])))
    ensures ParseStep(EncodeRecord(r) + rest) == Some(("", rest)) <==> |r.content| + |r.padding| == END_REQUEST_BODY_LEN
  {
    hide Byte, MakeHeader;
    RecordParts(r, rest);
    HeaderFields(r.kind, r.id, |r.content|, |r.padding|);
    var after := r.content + (r.padding + rest);
    if |r.content| + |r.padding| == END_REQUEST_BODY_LEN {
      assert after[END_REQUEST_BODY_LEN..] == rest;
    }
  }

  // An END_REQUEST with padding, of which the last byte is left in front of the next record.
  const PADDED_END := Record(END_REQUEST, 1, "12345678", "p")

  lemma PaddedEndIsLeftOver()
    ensures ParseStep(EncodeRecord(PADDED_END)) == Some(("", "p"))
  {
    EndRequestLeftover(PADDED_END, "");
    assert EncodeRecord(PADDED_END) + "" == EncodeRecord(PADDED_END);
    assert (PADDED_END.content + (PADDED_END.padding + ""))[END_REQUEST_BODY_LEN..] == "p";
  }

  /** A record of any other kind loses only its header, so it is consumed exactly if and only if it has nothing else. */
  lemma OtherKindLeftover(r: Record, rest: string)
    requires FitsRecord(r) && r.kind != STDOUT && r.kind != STDERR && r.kind != END_REQUEST
    ensures ParseStep(EncodeRecord(r) + rest) == Some(("", r.content + (r.padding + rest)))
    ensures ParseStep(EncodeRecord(r) + rest) == Some(("", rest)) <==> r.content == "" && r.padding == ""
  {
    hide Byte, MakeHeader;
    RecordParts(r, rest);
    HeaderFields(r.kind, r.id, |r.content|, |r.padding|);
    if r.content == "" && r.padding == "" { assert r.content + (r.padding + rest) == rest; }
  }
}
