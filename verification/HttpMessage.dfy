/** http/HttpRequest.h: a request and the setters the parser fills it with. */
module HttpMessage {

  datatype Method = Invalid | Get | Post | Head | Put | Delete
  datatype Version = Unknown | Http10 | Http11

  datatype Request = Request(verb: Method, version: Version, path: string, query: string,
                             receiveTime: int, headers: map<string, string>, body: string)

  const EMPTY_REQUEST := Request(Invalid, Unknown, "", "", 0, map[], "")

  function MethodOf(name: string): Method {
    if name == "GET" then Get
    else if name == "POST" then Post
    else if name == "HEAD" then Head
    else if name == "PUT" then Put
    else if name == "DELETE" then Delete
    else Invalid
  }

  function MethodString(verb: Method): string {
    match verb
    case Get => "GET"
    case Post => "POST"
    case Head => "HEAD"
    case Put => "PUT"
    case Delete => "DELETE"
    case Invalid => "UNKNOWN"
  }

  /** methodString inverts the names that setMethod accepts. */
  lemma MethodNames(verb: Method, name: string)
    ensures MethodOf(MethodString(verb)) == verb
    ensures MethodOf(name) != Invalid ==> MethodString(MethodOf(name)) == name
  {
  }

  /** Each of the five methods has the name RFC 7231 gives it, and no other name is one. */
  lemma MethodsByName(name: string)
    ensures MethodOf(name) == Get <==> name == "GET"
    ensures MethodOf(name) == Post <==> name == "POST"
    ensures MethodOf(name) == Head <==> name == "HEAD"
    ensures MethodOf(name) == Put <==> name == "PUT"
    ensures MethodOf(name) == Delete <==> name == "DELETE"
  {
    assert "GET"[0] != "POST"[0] && "GET"[0] != "HEAD"[0] && "GET"[0] != "PUT"[0] && "GET"[0] != "DELETE"[0];
    assert "POST"[1] != "PUT"[1] && "POST"[0] != "HEAD"[0] && "POST"[0] != "DELETE"[0];
    assert "HEAD"[0] != "PUT"[0] && "HEAD"[0] != "DELETE"[0] && "PUT"[0] != "DELETE"[0];
  }

  // isspace in the C locale.
  predicate IsSpace(c: char) {
    c == ' ' || '\t' <= c <= '\r'
  }

  function TrimLeft(s: string): string {
    if s != "" && IsSpace(s[0]) then TrimLeft(s[1..]) else s
  }

  function TrimRight(s: string): string {
    if s != "" && IsSpace(s[|s| - 1]) then TrimRight(s[..|s| - 1]) else s
  }

  function Trim(s: string): string {
    TrimRight(TrimLeft(s))
  }

  // The white space of the C locale: space, tab, newline, vertical tab, form feed and carriage return.
  predicate IsWhite(c: char) {
    c == ' ' || c == '\t' || c == '\n' || c as int == 11 || c as int == 12 || c == '\r'
  }

  predicate AllWhite(s: string) {
    forall i :: 0 <= i < |s| ==> IsWhite(s[i])
  }

  // Nothing to trim.
  predicate IsTrimmed(s: string) {
    s == "" || (!IsWhite(s[0]) && !IsWhite(s[|s| - 1]))
  }

  lemma {:induction false} TrimLeftWhite(a: string, s: string)
    requires AllWhite(a)
    ensures TrimLeft(a + s) == TrimLeft(s)
  {
    if a == "" {
      assert a + s == s;
    } else {
      assert (a + s)[1..] == a[1..] + s;
      TrimLeftWhite(a[1..], s);
    }
  }

  lemma {:induction false} TrimRightWhite(s: string, a: string)
    requires AllWhite(a)
    ensures TrimRight(s + a) == TrimRight(s)
  {
    if a == "" {
      assert s + a == s;
    } else {
      assert (s + a)[..|s + a| - 1] == s + a[..|a| - 1];
      TrimRightWhite(s, a[..|a| - 1]);
    }
  }

  /** White space before and after a text that neither begins nor ends with any is all that is trimmed; what stands
      inside it stays. */
  lemma TrimTakesOuterWhite(before: string, s: string, after: string)
    requires AllWhite(before) && IsTrimmed(s) && AllWhite(after)
    ensures Trim(before + s + after) == s
  {
    assert before + s + after == before + (s + after);
    TrimLeftWhite(before, s + after);
    if s == "" {
      assert s + after == after + "" && after == "" + after;
      TrimLeftWhite(after, "");
    } else {
      assert TrimLeft(s + after) == s + after;
      TrimRightWhite(s, after);
    }
  }

  /** Every text is such a text with white space around it, and trimming finds it. */
  lemma {:induction false} TrimFindsCore(s: string) returns (before: string, core: string, after: string)
    ensures AllWhite(before) && IsTrimmed(core) && AllWhite(after)
    ensures s == before + core + after && Trim(s) == core
  {
    hide Trim;
    if s == "" {
      before, core, after := "", "", "";
    } else if IsWhite(s[0]) {
      before, core, after := TrimFindsCore(s[1..]);
      before := [s[0]] + before;
      assert s == before + core + after;
    } else if IsWhite(s[|s| - 1]) {
      before, core, after := TrimFindsCore(s[..|s| - 1]);
      after := after + [s[|s| - 1]];
      assert s == before + core + after;
    } else {
      before, core, after := "", s, "";
    }
    TrimTakesOuterWhite(before, core, after);
  }

  // The header set by a line with its first colon at the given place.
  function WithHeader(r: Request, line: string, colon: nat): Request
    requires colon < |line|
  {
    r.(headers := r.headers[line[..colon] := Trim(line[colon + 1..])])
  }

  function HeaderOf(r: Request, field: string): string {
    if field in r.headers then r.headers[field] else ""
  }

  class HttpRequest {
    var verb: Method
    var version: Version
    var path: string
    var query: string
    var receiveTime: int
    var headers: map<string, string>
    var body: string

    ghost function Value(): Request
      reads this
    {
      Request(verb, version, path, query, receiveTime, headers, body)
    }

    constructor ()
      ensures Value() == EMPTY_REQUEST
    {
      verb, version, path, query := Invalid, Unknown, "", "";
      receiveTime, headers, body := 0, map[], "";
    }

    // The source asserts that no method has been set before.
    method SetMethod(name: string) returns (known: bool)
      requires verb == Invalid
      modifies this`verb
      ensures verb == MethodOf(name) && known == (verb != Invalid)
    {
      if name == "GET" {
        verb := Get;
      } else if name == "POST" {
        verb := Post;
      } else if name == "HEAD" {
        verb := Head;
      } else if name == "PUT" {
        verb := Put;
      } else if name == "DELETE" {
        verb := Delete;
      } else {
        verb := Invalid;
      }
      known := verb != Invalid;
    }

    method AddHeader(line: string, colon: nat)
      requires colon < |line|
      modifies this`headers
      ensures Value() == WithHeader(old(Value()), line, colon)
    {
      var field := line[..colon];
      var start := colon + 1;
      while start < |line| && IsSpace(line[start])
        invariant colon < start <= |line|
        invariant TrimLeft(line[colon + 1..]) == TrimLeft(line[start..])
      {
        start := start + 1;
      }
      var value := line[start..];
      while value != "" && IsSpace(value[|value| - 1])
        invariant TrimRight(line[start..]) == TrimRight(value)
        decreases |value|
      {
        value := value[..|value| - 1];
      }
      headers := headers[field := value];
    }

    method GetHeader(field: string) returns (result: string)
      ensures result == HeaderOf(Value(), field)
    {
      result := "";
      if field in headers {
        result := headers[field];
      }
    }

    method Copy() returns (r: Request)
      ensures r == Value()
    {
      r := Request(verb, version, path, query, receiveTime, headers, body);
    }

    method Swap(that: HttpRequest)
      modifies this, that
      ensures Value() == old(that.Value()) && that.Value() == old(Value())
    {
      verb, that.verb := that.verb, verb;
      version, that.version := that.version, version;
      path, that.path := that.path, path;
      query, that.query := that.query, query;
      receiveTime, that.receiveTime := that.receiveTime, receiveTime;
      headers, that.headers := that.headers, headers;
      body, that.body := that.body, body;
    }
  }
}
