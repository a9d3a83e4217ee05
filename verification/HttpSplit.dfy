/** Parsing a request that arrives in pieces. */
module HttpSplit {
  import opened CMath
  import opened Text
  import opened HttpMessage
  import opened HttpParser
  import opened Wrappers

  function Extend(c: Config, more: string): Config {
    c.(buf := c.buf + more)
  }

  predicate Ready(c: Config) {
    c.phase != GotAll && IsInt32(c.bodyLength)
  }

  // The parse stopped for lack of input.
  predicate Paused(o: Outcome) {
    o.Done? && o.ok && o.config.phase != GotAll
  }

  // What an outcome becomes when more bytes arrive: a paused parse goes on, any other one leaves them alone.
  function Resume(o: Outcome, more: string, receiveTime: int): Outcome
    requires !o.Next? && IsInt32(o.config.bodyLength)
  {
    if Paused(o) then Parse(Extend(o.config, more), receiveTime)
    else
      match o
      case Done(ok, c) => Done(ok, Extend(c, more))
      case Threw(c) => Threw(Extend(c, more))
  }

  lemma DropExtends(s: string, more: string, n: nat)
    requires n <= |s|
    ensures (s + more)[n..] == s[n..] + more && (s + more)[..n] == s[..n]
  {
  }

  // A pass that does not pause does the same with more bytes behind.
  lemma IterateExtends(c: Config, more: string, receiveTime: int)
    requires Ready(c)
    ensures var o := Iterate(c, receiveTime); var o' := Iterate(Extend(c, more), receiveTime);
            match o
            case Next(c1) => o' == Next(Extend(c1, more))
            case Threw(c1) => o' == Threw(Extend(c1, more))
            case Done(ok, c1) => if Paused(o) then c1 == c else o' == Done(ok, Extend(c1, more))
  {
    hide RequestLine, Find, Stoi, WithHeader, HeaderOf;
    if c.phase == ExpectBody {
      var n := ToSize(c.bodyLength);
      if |c.buf| >= n { DropExtends(c.buf, more, n); }
    } else {
      var crlf := FindCRLF(c.buf);
      if crlf >= 0 {
        FindCRLFExtends(c.buf, more);
        DropExtends(c.buf, more, crlf);
        DropExtends(c.buf, more, crlf + 2);
      }
    }
  }

  /** Parsing a then more is parsing a ++ more; an error or an exception on a is one on a ++ more. */
  lemma {:induction false} ParseExtends(c: Config, more: string, receiveTime: int)
    requires Ready(c)
    ensures Parse(Extend(c, more), receiveTime) == Resume(Parse(c, receiveTime), more, receiveTime)
    decreases |c.buf|, PhasesLeft(c.phase)
  {
    hide Iterate, Parse;
    ParseUnfolds(c, receiveTime);
    ParseUnfolds(Extend(c, more), receiveTime);
    IterateExtends(c, more, receiveTime);
    var o := Iterate(c, receiveTime);
    if o.Next? { ParseExtends(o.config, more, receiveTime); }
  }

  // The receive time matters only to a parse that starts at the request line.
  lemma {:induction false} TimeIsOfTheRequestLine(c: Config, t1: int, t2: int)
    requires Ready(c) && c.phase != ExpectRequestLine
    ensures Parse(c, t1) == Parse(c, t2)
    decreases |c.buf|, PhasesLeft(c.phase)
  {
    hide Parse;
    ParseUnfolds(c, t1);
    ParseUnfolds(c, t2);
    var o := Iterate(c, t1);
    assert o == Iterate(c, t2);
    if o.Next? { TimeIsOfTheRequestLine(o.config, t1, t2); }
  }

  lemma NoLineYet(c: Config, receiveTime: int)
    requires Ready(c) && c.phase == ExpectRequestLine && FindCRLF(c.buf) < 0
    ensures Parse(c, receiveTime) == Done(true, c)
  {
  }

  lemma PausedAtRequestLine(c: Config, receiveTime: int)
    requires Ready(c) && Paused(Parse(c, receiveTime)) && Parse(c, receiveTime).config.phase == ExpectRequestLine
    ensures Parse(c, receiveTime).config == c && FindCRLF(c.buf) < 0
  {
    ParseUnfolds(c, receiveTime);
    var o := Iterate(c, receiveTime);
    if o.Next? { NeverBackToRequestLine(o.config, receiveTime); }
  }

  lemma {:induction false} NeverBackToRequestLine(c: Config, receiveTime: int)
    requires Ready(c) && c.phase != ExpectRequestLine
    ensures Parse(c, receiveTime).config.phase != ExpectRequestLine
    decreases |c.buf|, PhasesLeft(c.phase)
  {
    hide Parse;
    ParseUnfolds(c, receiveTime);
    var o := Iterate(c, receiveTime);
    if o.Next? { NeverBackToRequestLine(o.config, receiveTime); }
  }

  // The local variable is assigned before the body phase reads it.
  lemma {:induction false} VariableUnused(c: Config, u: int, v: int, receiveTime: int)
    requires Ready(c) && c.phase != ExpectBody && IsInt32(u) && IsInt32(v)
    ensures SameButVariable(Parse(c.(bodyLength := u), receiveTime), Parse(c.(bodyLength := v), receiveTime))
    decreases |c.buf|, PhasesLeft(c.phase)
  {
    hide Parse;
    ParseUnfolds(c.(bodyLength := u), receiveTime);
    ParseUnfolds(c.(bodyLength := v), receiveTime);
    var o, o' := Iterate(c.(bodyLength := u), receiveTime), Iterate(c.(bodyLength := v), receiveTime);
    assert SameButVariable(o, o');
    if o.Next? && o.config.phase != ExpectBody {
      VariableUnused(o.config, u, v, receiveTime);
    }
  }

  // Equal outcomes, except for a variable that is not the length of an expected body.
  predicate SameButVariable(o: Outcome, o': Outcome) {
    o == o' || (o.config.phase != ExpectBody && o' == match o
      case Next(c) => Next(c.(bodyLength := o'.config.bodyLength))
      case Done(ok, c) => Done(ok, c.(bodyLength := o'.config.bodyLength))
      case Threw(c) => Threw(c.(bodyLength := o'.config.bodyLength)))
  }

  /** Split independence: a call at t1 that pauses outside of a body, and a later call at t2 with more bytes and any
      value in its own uninitialised variable, give the state, the request and the leftover bytes of one call,
          made at the time
      when the request line was complete. */
  lemma SplitIndependence(c: Config, more: string, t1: int, t2: int, u: int)
    requires Ready(c) && Paused(Parse(c, t1)) && Parse(c, t1).config.phase != ExpectBody && IsInt32(u)
    ensures var first := Parse(c, t1).config;
            SameButVariable(Parse(Extend(first, more).(bodyLength := u), t2),
                            Parse(Extend(c, more), if first.phase == ExpectRequestLine then t2 else t1))
  {
    hide Parse, Iterate;
    var first := Parse(c, t1).config;
    ParseExtends(c, more, t1);
    VariableUnused(Extend(first, more), u, first.bodyLength, t2);
    assert Extend(first, more).(bodyLength := first.bodyLength) == Extend(first, more);
    if first.phase == ExpectRequestLine {
      PausedAtRequestLine(c, t1);
    } else {
      TimeIsOfTheRequestLine(Extend(first, more), t1, t2);
    }
  }

  function Result(o: Outcome): (Phase, string, string)
    requires !o.Next?
  {
    (o.config.phase, o.config.request.body, o.config.buf)
  }

  /** A call that resumes inside a body depends on the uninitialised variable: it does what a single call would have
      done exactly when the variable holds the length again, or both the variable and the length exceed the bytes at
      hand. */
  lemma ResumeInBody(c: Config, u: int, receiveTime: int)
    requires c.phase == ExpectBody && IsInt32(c.bodyLength) && IsInt32(u)
    ensures Result(Parse(c.(bodyLength := u), receiveTime)) == Result(Parse(c, receiveTime))
            <==> (u == c.bodyLength || (ToSize(u) > |c.buf| && ToSize(c.bodyLength) > |c.buf|))
  {
  }

  /** So after a call that pauses inside a body, one that follows gives what one call gives exactly under that
      condition. */
  lemma SplitInBody(c: Config, more: string, t1: int, t2: int, u: int)
    requires Ready(c) && Paused(Parse(c, t1)) && Parse(c, t1).config.phase == ExpectBody && IsInt32(u)
    ensures var first := Parse(c, t1).config;
            var n := |first.buf| + |more|;
            Result(Parse(Extend(first, more).(bodyLength := u), t2)) == Result(Parse(Extend(c, more), t1))
            <==> (u == first.bodyLength || (ToSize(u) > n && ToSize(first.bodyLength) > n))
  {
    hide Parse, Iterate, ToSize;
    var first := Parse(c, t1).config;
    ParseExtends(c, more, t1);
    ResumeInBody(Extend(first, more), u, t1);
    TimeIsOfTheRequestLine(Extend(first, more).(bodyLength := u), t1, t2);
  }

  // A call of parseRequest: the bytes that have arrived for it, what its uninitialised variable holds, and its time.
  datatype Call = Call(bytes: string, variable: Int32, time: int)

  function Bytes(calls: seq<Call>): string {
    if calls == [] then "" else calls[0].bytes + Bytes(calls[1..])
  }

  // What the buffer and the parser are at the start of the next call.
  function Start(c: Config, call: Call): Config {
    Extend(c, call.bytes).(bodyLength := call.variable)
  }

  // The outcome of the calls up to the first one that does not pause. Bytes that follow are only appended.
  function Feed(c: Config, calls: seq<Call>): (o: Outcome)
    requires Ready(c)
    ensures !o.Next? && IsInt32(o.config.bodyLength)
    decreases |calls|
  {
    if calls == [] then Done(true, c)
    else
      var o := Parse(Start(c, calls[0]), calls[0].time);
      if Paused(o) then Feed(o.config, calls[1..]) else Resume(o, Bytes(calls[1..]), calls[0].time)
  }

  // The time of the call that completes the first line, or of the last one.
  function TimeOfLine(buf: string, calls: seq<Call>): int
    requires calls != []
    decreases |calls|
  {
    if |calls| == 1 || FindCRLF(buf + calls[0].bytes) >= 0 then calls[0].time
    else TimeOfLine(buf + calls[0].bytes, calls[1..])
  }

  // One call with all the bytes, at that time.
  function Whole(c: Config, calls: seq<Call>): Outcome
    requires Ready(c) && calls != []
  {
    Parse(Extend(c, Bytes(calls)), TimeOfLine(c.buf, calls))
  }

  // No call but the last stops inside a body.
  predicate NoPauseInBody(c: Config, calls: seq<Call>)
    requires Ready(c)
    decreases |calls|
  {
    |calls| <= 1 ||
    var o := Parse(Start(c, calls[0]), calls[0].time);
    Paused(o) ==> o.config.phase != ExpectBody && NoPauseInBody(o.config, calls[1..])
  }

  // The first call may be made at the time when the line is complete, unless it pauses before.
  lemma FirstCallTime(c: Config, calls: seq<Call>, more: string)
    requires Ready(c) && calls != []
    requires var o := Parse(Start(c, calls[0]), calls[0].time); !(Paused(o) && o.config.phase == ExpectRequestLine)
    ensures var c0 := Extend(Start(c, calls[0]), more); Parse(c0, TimeOfLine(c.buf, calls)) == Parse(c0, calls[0].time)
  {
    hide Parse;
    var c0 := Start(c, calls[0]);
    if c.phase == ExpectRequestLine {
      if FindCRLF(c0.buf) < 0 { NoLineYet(c0, calls[0].time); }
    } else {
      TimeIsOfTheRequestLine(Extend(c0, more), TimeOfLine(c.buf, calls), calls[0].time);
    }
  }

  lemma OneCall(c: Config, calls: seq<Call>)
    requires Ready(c) && c.phase != ExpectBody && |calls| > 0
    ensures var c0 := Extend(Start(c, calls[0]), Bytes(calls[1..]));
            SameButVariable(Parse(c0, TimeOfLine(c.buf, calls)), Whole(c, calls))
  {
    hide Parse, Iterate, TimeOfLine, SameButVariable;
    var c0, t := Extend(c, Bytes(calls)), TimeOfLine(c.buf, calls);
    VariableUnused(c0, calls[0].variable, c.bodyLength, t);
    assert c0.(bodyLength := c.bodyLength) == c0;
    AppendTwice(c, calls[0].bytes, Bytes(calls[1..]));
    assert c0.(bodyLength := calls[0].variable) == Extend(Start(c, calls[0]), Bytes(calls[1..]));
  }

  lemma AppendTwice(c: Config, a: string, b: string)
    ensures Extend(Extend(c, a), b) == Extend(c, a + b)
  {
    assert c.buf + a + b == c.buf + (a + b);
  }

  // What a first call leaves to those that follow.
  lemma FirstCall(c: Config, calls: seq<Call>)
    requires Ready(c) && c.phase != ExpectBody && |calls| > 1
    ensures var o := Parse(Start(c, calls[0]), calls[0].time);
            if Paused(o) && o.config.phase != ExpectBody
            then SameButVariable(Whole(o.config, calls[1..]), Whole(c, calls))
            else SameButVariable(Resume(o, Bytes(calls[1..]), calls[0].time), Whole(c, calls))
  {
    hide Parse, Iterate;
    var c0, rest, t := Start(c, calls[0]), Bytes(calls[1..]), calls[0].time;
    var o := Parse(c0, t);
    OneCall(c, calls);
    ParseExtends(c0, rest, t);
    if Paused(o) && o.config.phase == ExpectRequestLine {
      PausedAtRequestLine(c0, t);
      assert TimeOfLine(c.buf, calls) == TimeOfLine(c0.buf, calls[1..]);
    } else {
      FirstCallTime(c, calls, rest);
      if Paused(o) && o.config.phase != ExpectBody {
        TimeIsOfTheRequestLine(Extend(o.config, rest), t, TimeOfLine(o.config.buf, calls[1..]));
      }
    }
  }

  lemma LastCall(c: Config, calls: seq<Call>)
    requires Ready(c) && c.phase != ExpectBody && |calls| == 1
    ensures SameButVariable(Feed(c, calls), Whole(c, calls))
  {
    hide Parse;
    var c0 := Start(c, calls[0]);
    OneCall(c, calls);
    assert Bytes(calls[1..]) == "" && Extend(c0, "") == c0;
    ParseExtends(c0, "", calls[0].time);
  }

  /** However the bytes of a request arrive, in any number of calls with their own variables and times, the outcome is
      that of parsing them at once at the time when the request line was complete,
          provided that no call but the last pauses
      inside a body. */
  lemma {:induction false} ChunkingIsIrrelevant(c: Config, calls: seq<Call>)
    requires Ready(c) && c.phase != ExpectBody && calls != [] && NoPauseInBody(c, calls)
    ensures SameButVariable(Feed(c, calls), Whole(c, calls))
    decreases |calls|
  {
    hide Parse, Whole;
    if |calls| == 1 {
      LastCall(c, calls);
    } else {
      FirstCall(c, calls);
      var o := Parse(Start(c, calls[0]), calls[0].time);
      if Paused(o) { ChunkingIsIrrelevant(o.config, calls[1..]); }
    }
  }

  function ContentLength(o: Outcome): string {
    HeaderOf(o.config.request, "Content-Length")
  }

  // In the body phase a call leaves everything but the body and the phase.
  lemma BodyIsTaken(c: Config, receiveTime: int)
    requires Ready(c) && c.phase == ExpectBody
    ensures var o := Parse(c, receiveTime);
            && o.config.buf == c.buf && o.config.bodyLength == c.bodyLength
            && o.config.request.headers == c.request.headers
            && ContentLength(o) == HeaderOf(c.request, "Content-Length")
  {
  }

  lemma {:induction false} BodyLengthIsContentLength(c: Config, receiveTime: int)
    requires Ready(c) && c.phase != ExpectBody && Parse(c, receiveTime).config.phase == ExpectBody
    ensures var o := Parse(c, receiveTime);
            ContentLength(o) != "" && Stoi(ContentLength(o)) == Some(o.config.bodyLength)
    decreases |c.buf|, PhasesLeft(c.phase)
  {
    hide Parse, RequestLine, Find, FindCRLF, Stoi, WithHeader, HeaderOf;
    ParseUnfolds(c, receiveTime);
    var o := Iterate(c, receiveTime);
    if o.Next? {
      if o.config.phase == ExpectBody {
        ParseUnfolds(o.config, receiveTime);
      } else {
        BodyLengthIsContentLength(o.config, receiveTime);
      }
    }
  }

  lemma {:induction false} PausedBodyIsShort(c: Config, receiveTime: int)
    requires Ready(c) && Paused(Parse(c, receiveTime)) && Parse(c, receiveTime).config.phase == ExpectBody
    ensures var c1 := Parse(c, receiveTime).config; |c1.buf| < ToSize(c1.bodyLength)
    decreases |c.buf|, PhasesLeft(c.phase)
  {
    hide Parse, RequestLine, Find, FindCRLF, Stoi, WithHeader, HeaderOf;
    ParseUnfolds(c, receiveTime);
    var o := Iterate(c, receiveTime);
    if o.Next? { PausedBodyIsShort(o.config, receiveTime); }
  }

  // A first call that pauses inside a body: what one call with all the bytes would have made of it.
  lemma FirstCallInBody(c: Config, calls: seq<Call>)
    requires Ready(c) && c.phase != ExpectBody && |calls| > 1
    requires var o := Parse(Start(c, calls[0]), calls[0].time); Paused(o) && o.config.phase == ExpectBody
    ensures var o, whole := Parse(Start(c, calls[0]), calls[0].time), Whole(c, calls);
            && whole.config.buf == o.config.buf + Bytes(calls[1..]) && |o.config.buf| < ToSize(o.config.bodyLength)
            && ContentLength(whole) != "" && Stoi(ContentLength(whole)) == Some(o.config.bodyLength)
  {
    hide Parse, Iterate, Whole, Stoi, ToSize, HeaderOf;
    var c0, rest, t := Start(c, calls[0]), Bytes(calls[1..]), calls[0].time;
    FirstCall(c, calls);
    PausedBodyIsShort(c0, t);
    BodyLengthIsContentLength(c0, t);
    BodyIsTaken(Extend(Parse(c0, t).config, rest), t);
    SameHeaders(Resume(Parse(c0, t), rest, t), Whole(c, calls));
  }

  lemma SameHeaders(o: Outcome, o': Outcome)
    requires SameButVariable(o, o')
    ensures ContentLength(o) == ContentLength(o') && o.config.buf == o'.config.buf && o.config.phase == o'.config.phase
  {
  }

  /** A request that ends up without a Content-Length never pauses inside a body. */
  lemma {:induction false} NoContentLengthNoPause(c: Config, calls: seq<Call>)
    requires Ready(c) && c.phase != ExpectBody && calls != [] && ContentLength(Whole(c, calls)) == ""
    ensures NoPauseInBody(c, calls)
    decreases |calls|
  {
    hide Parse, Whole, HeaderOf;
    if |calls| > 1 {
      FirstCall(c, calls);
      var o := Parse(Start(c, calls[0]), calls[0].time);
      if Paused(o) {
        if o.config.phase == ExpectBody {
          FirstCallInBody(c, calls);
        } else {
          SameHeaders(Whole(o.config, calls[1..]), Whole(c, calls));
          NoContentLengthNoPause(o.config, calls[1..]);
        }
      }
    }
  }

  // The last `left` bytes begin with a body of n bytes; a call that ends `after` bytes before the end leaves it
  // incomplete.
  predicate EndsInBody(after: nat, left: nat, n: nat) {
    after <= left < after + n
  }

  // No call but the last ends inside that body, or right before it.
  predicate NoDivisionInBody(calls: seq<Call>, left: nat, n: nat) {
    forall k :: 0 < k < |calls| ==> !EndsInBody(|Bytes(calls[k..])|, left, n)
  }

  lemma DivisionsOfRest(calls: seq<Call>, left: nat, n: nat)
    requires |calls| > 1
    ensures NoDivisionInBody(calls, left, n)
       <==> !EndsInBody(|Bytes(calls[1..])|, left, n) && NoDivisionInBody(calls[1..], left, n)
  {
    var rest := calls[1..];
    assert forall k :: 0 < k < |rest| ==> rest[k..] == calls[k + 1..];
    if !EndsInBody(|Bytes(rest)|, left, n) && NoDivisionInBody(rest, left, n) {
      forall k | 0 < k < |calls| ensures !EndsInBody(|Bytes(calls[k..])|, left, n) {
        if k > 1 { assert rest[k - 1..] == calls[k..]; }
      }
    }
  }

  /** A request with a Content-Length of n, of which no call but the last ends in the body, never pauses inside of it.
      */
  lemma {:induction false} NoDivisionNoPause(c: Config, calls: seq<Call>, n: int)
    requires Ready(c) && c.phase != ExpectBody && calls != [] && IsInt32(n)
    requires var o := Whole(c, calls);
             && Stoi(ContentLength(o)) == Some(n) && NoDivisionInBody(calls, |o.config.buf|, ToSize(n))
    ensures NoPauseInBody(c, calls)
    decreases |calls|
  {
    hide Parse, Whole, Stoi, ToSize, NoDivisionInBody, HeaderOf;
    if |calls| > 1 {
      var whole := Whole(c, calls);
      FirstCall(c, calls);
      DivisionsOfRest(calls, |whole.config.buf|, ToSize(n));
      var o := Parse(Start(c, calls[0]), calls[0].time);
      if Paused(o) {
        if o.config.phase == ExpectBody {
          FirstCallInBody(c, calls);
        } else {
          SameHeaders(Whole(o.config, calls[1..]), whole);
          NoDivisionNoPause(o.config, calls[1..], n);
        }
      }
    }
  }

  // The converse: a call that ends inside the body lets the one after it take what its variable says.

  lemma {:induction false} ParseShrinks(c: Config, receiveTime: int)
    requires Ready(c)
    ensures |Parse(c, receiveTime).config.buf| <= |c.buf|
    decreases |c.buf|, PhasesLeft(c.phase)
  {
    hide Parse, RequestLine, Find, FindCRLF, Stoi, WithHeader, HeaderOf;
    ParseUnfolds(c, receiveTime);
    var o := Iterate(c, receiveTime);
    if o.Next? { ParseShrinks(o.config, receiveTime); }
  }

  lemma {:induction false} PausedWithoutLine(c: Config, receiveTime: int)
    requires Ready(c) && Paused(Parse(c, receiveTime)) && Parse(c, receiveTime).config.phase != ExpectBody
    ensures FindCRLF(Parse(c, receiveTime).config.buf) < 0
    decreases |c.buf|, PhasesLeft(c.phase)
  {
    hide Parse, RequestLine, Find, FindCRLF, Stoi, WithHeader, HeaderOf;
    ParseUnfolds(c, receiveTime);
    var o := Iterate(c, receiveTime);
    if o.Next? { PausedWithoutLine(o.config, receiveTime); }
  }

  lemma LineCrosses(s: string, more: string)
    requires FindCRLF(s) < 0 <= FindCRLF(s + more)
    ensures FindCRLF(s + more) + 2 > |s|
  {
    var i := FindCRLF(s + more);
    assert i + 1 < |s| ==> IsCRLF(s, i);
  }

  // What is left when the first line to be taken ends among the bytes that follow.
  lemma LineTakesMore(c: Config, more: string, receiveTime: int)
    requires Ready(c) && c.phase != ExpectBody && FindCRLF(c.buf) < 0
    requires Parse(Extend(c, more), receiveTime).config.phase == GotAll
    ensures |Parse(Extend(c, more), receiveTime).config.buf| < |more|
  {
    hide Parse, RequestLine, Find, FindCRLF, Stoi, WithHeader, HeaderOf;
    var c' := Extend(c, more);
    ParseUnfolds(c', receiveTime);
    if FindCRLF(c'.buf) >= 0 { LineCrosses(c.buf, more); }
    var o := Iterate(c', receiveTime);
    if o.Next? { ParseShrinks(o.config, receiveTime); }
  }

  lemma NoNumber()
    ensures Stoi("") == None
  {
  }

  lemma {:induction false} TakenBodyIsThere(c: Config, n: int, receiveTime: int)
    requires Ready(c) && c.phase != ExpectBody && IsInt32(n)
    requires var o := Parse(c, receiveTime); o.config.phase == GotAll && Stoi(ContentLength(o)) == Some(n)
    ensures |Parse(c, receiveTime).config.buf| >= ToSize(n)
    decreases |c.buf|, PhasesLeft(c.phase)
  {
    NoNumber();
    hide Parse, RequestLine, Find, FindCRLF, Stoi, WithHeader, HeaderOf;
    ParseUnfolds(c, receiveTime);
    var o := Iterate(c, receiveTime);
    if o.Next? {
      if o.config.phase == ExpectBody {
        ParseUnfolds(o.config, receiveTime);
        BodyIsTaken(o.config, receiveTime);
      } else {
        TakenBodyIsThere(o.config, n, receiveTime);
      }
    }
  }

  lemma {:induction false} LaterIsShorter(calls: seq<Call>, k: nat)
    requires k <= |calls|
    ensures |Bytes(calls[k..])| <= |Bytes(calls)|
  {
    if k > 0 {
      LaterIsShorter(calls, k - 1);
      assert calls[k - 1..][1..] == calls[k..];
    } else {
      assert calls[k..] == calls;
    }
  }

  // A first call that takes the whole body leaves no division in it.
  lemma NoDivisionAfterBody(calls: seq<Call>, left: nat, n: nat)
    requires calls != [] && left >= |Bytes(calls[1..])| + n
    ensures NoDivisionInBody(calls, left, n)
  {
    forall k | 0 < k < |calls| ensures !EndsInBody(|Bytes(calls[k..])|, left, n) {
      assert calls[1..][k - 1..] == calls[k..];
      LaterIsShorter(calls[1..], k - 1);
    }
  }

  lemma ZeroTakesNothing(c: Config, calls: seq<Call>)
    requires Ready(c) && c.phase == ExpectBody && calls != [] && calls[0].variable == 0
    ensures Feed(c, calls).config.phase == GotAll && Feed(c, calls).config.request.body == ""
  {
    ParseUnfolds(Start(c, calls[0]), calls[0].time);
    hide Parse;
  }

  /** If a call other than the last ends in the body, and the uninitialised variables all hold 0, no body is taken. */
  lemma {:induction false} DivisionFails(c: Config, calls: seq<Call>, n: int)
    requires Ready(c) && c.phase != ExpectBody && calls != [] && IsInt32(n)
    requires forall i :: 0 <= i < |calls| ==> calls[i].variable == 0
    requires var o := Whole(c, calls);
             && o.config.phase == GotAll && Stoi(ContentLength(o)) == Some(n)
             && !NoDivisionInBody(calls, |o.config.buf|, ToSize(n))
    ensures Feed(c, calls).config.request.body == ""
    decreases |calls|
  {
    hide Parse, Stoi, ToSize, NoDivisionInBody, HeaderOf, TimeOfLine, Whole;
    var whole := Whole(c, calls);
    if |calls| == 1 {
      NoDivisionAlone(calls, |whole.config.buf|, ToSize(n));
    } else {
      var rest, t := calls[1..], calls[0].time;
      var o := Parse(Start(c, calls[0]), t);
      FirstCall(c, calls);
      DivisionsOfRest(calls, |whole.config.buf|, ToSize(n));
      if !Paused(o) {
        SameHeaders(Resume(o, Bytes(rest), t), whole);
        TakenBodyIsThere(Start(c, calls[0]), n, t);
        NoDivisionAfterBody(calls, |whole.config.buf|, ToSize(n));
      } else if o.config.phase == ExpectBody {
        ZeroTakesNothing(o.config, rest);
      } else {
        SameHeaders(Whole(o.config, rest), whole);
        PausedWithoutLine(Start(c, calls[0]), t);
        WholeTakesMore(o.config, rest);
        DivisionFails(o.config, rest, n);
      }
    }
  }

  lemma NoDivisionAlone(calls: seq<Call>, left: nat, n: nat)
    requires |calls| == 1
    ensures NoDivisionInBody(calls, left, n)
  {
  }

  lemma WholeTakesMore(c: Config, calls: seq<Call>)
    requires Ready(c) && c.phase != ExpectBody && FindCRLF(c.buf) < 0 && calls != []
    requires Whole(c, calls).config.phase == GotAll
    ensures |Whole(c, calls).config.buf| < |Bytes(calls)|
  {
    hide Parse, TimeOfLine;
    LineTakesMore(c, Bytes(calls), TimeOfLine(c.buf, calls));
  }
}
