/** net/TcpConnection.cc: the output side of a connection, as used in its loop thread up to the first handleClose. */
module TcpConnection {
  import opened NetBuffer

  datatype StateE = Connecting | Connected | Disconnecting | Disconnected

  // The outcome of write(2): n bytes taken, or an error that is EPIPE or ECONNRESET or some other one.
  datatype WriteResult = Wrote(n: nat) | Failed(fault: bool)

  // `wire`, `fins` and `completions` record what the kernel and the loop were handed; `accepted` and `kept`
  // are all bytes that send took, and those of them not given up on a fault.
  datatype Conn = Conn(state: StateE, output: string, writing: bool,
                       wire: string, fins: nat, completions: nat,
                       accepted: string, kept: string, shutdownAsked: bool)

  datatype Event =
    | Established
    | Send(data: string, result: WriteResult)
    | HandleWrite(result: WriteResult)
    | Shutdown
    | ForceClose

  const NEW_CONN := Conn(Connecting, "", false, "", 0, 0, "", "", false)

  predicate CanWrite(result: WriteResult, data: string) {
    result.Wrote? ==> result.n <= |data|
  }

  function ShutdownInLoop(c: Conn): Conn {
    if !c.writing then c.(fins := c.fins + 1) else c
  }

  function SendInLoop(c: Conn, data: string, result: WriteResult): Conn
    requires CanWrite(result, data)
  {
    var direct := !c.writing && c.output == "";
    var n := if direct && result.Wrote? then result.n else 0;
    var sent := c.(accepted := c.accepted + data, wire := c.wire + data[..n],
                   completions := c.completions + (if direct && result.Wrote? && n == |data| then 1 else 0));
    if direct && result == Failed(true) then sent
    else sent.(kept := c.kept + data, output := c.output + data[n..], writing := c.writing || n < |data|)
  }

  function Drain(c: Conn, n: nat): Conn
    requires n <= |c.output|
  {
    var written := c.(wire := c.wire + c.output[..n], output := c.output[n..]);
    if 0 == n || n < |c.output| then written
    else
      var drained := written.(writing := false, completions := c.completions + 1);
      if c.state == Disconnecting then ShutdownInLoop(drained) else drained
  }

  predicate Enabled(c: Conn, event: Event) {
    match event
    case Established => c.state == Connecting
    case Send(data, result) => CanWrite(result, data)
    case HandleWrite(result) => CanWrite(result, c.output)
    case _ => true
  }

  function Step(c: Conn, event: Event): Conn
    requires Enabled(c, event)
  {
    match event
    case Established => c.(state := Connected)
    case Send(data, result) => if c.state == Connected then SendInLoop(c, data, result) else c
    case HandleWrite(result) => if c.writing && result.Wrote? then Drain(c, result.n) else c
    case Shutdown =>
      if c.state == Connected then ShutdownInLoop(c.(state := Disconnecting, shutdownAsked := true)) else c
    case ForceClose =>
      if c.state == Connected || c.state == Disconnecting then c.(state := Disconnecting) else c
  }

  ghost predicate Inv(c: Conn) {
    && (c.writing <==> c.output != "")
    && c.wire + c.output == c.kept
    && |c.kept| <= |c.accepted|
    && (|c.kept| == |c.accepted| ==> c.kept == c.accepted)
    && c.fins <= 1
    && (c.fins == 1 ==> c.state == Disconnecting && c.output == "")
    && (c.shutdownAsked ==> c.state == Disconnecting && (c.output == "" ==> c.fins == 1))
    && (c.state == Disconnecting || c.state == Connecting || c.state == Connected)
  }

  ghost predicate IsRun(run: seq<Conn>, events: seq<Event>) {
    && |run| == |events| + 1 && run[0] == NEW_CONN
    && forall i :: 0 <= i < |events| ==> Enabled(run[i], events[i]) && run[i + 1] == Step(run[i], events[i])
  }

  lemma Steps(c: Conn, data: string, result: WriteResult)
    requires CanWrite(result, data)
    ensures Step(c, Send(data, result)) == if c.state == Connected then SendInLoop(c, data, result) else c
    ensures data == c.output ==>
              Step(c, HandleWrite(result)) == if c.writing && result.Wrote? then Drain(c, result.n) else c
  {
  }

  lemma SendKeepsInv(c: Conn, data: string, result: WriteResult)
    requires Inv(c) && CanWrite(result, data) && c.state == Connected
    ensures Inv(SendInLoop(c, data, result))
  {
  }

  lemma DrainKeepsInv(c: Conn, n: nat)
    requires Inv(c) && n <= |c.output| && c.writing
    ensures Inv(Drain(c, n))
  {
  }

  lemma StepKeepsInv(c: Conn, event: Event)
    requires Inv(c) && Enabled(c, event)
    ensures Inv(Step(c, event))
  {
    match event
    case Send(data, result) => if c.state == Connected { SendKeepsInv(c, data, result); }
    case HandleWrite(result) => if c.writing && result.Wrote? { DrainKeepsInv(c, result.n); }
    case _ =>
  }

  /** In every state of every run: the wire followed by the output buffer is `kept`, which WireIsWhatWasSent ties to the
      sends of the run; writing interest is on exactly when output waits; the write side is shut down at most once,
      only when drained, and after shutdown() exactly when drained. */
  lemma {:induction false} RunKeepsInv(run: seq<Conn>, events: seq<Event>, i: nat)
    requires IsRun(run, events) && i < |run|
    ensures Inv(run[i])
  {
    if i > 0 {
      RunKeepsInv(run, events, i - 1);
      StepKeepsInv(run[i - 1], events[i - 1]);
    }
  }

  predicate GivesUp(c: Conn, event: Event) {
    event.Send? && c.state == Connected && c.output == "" && event.result == Failed(true) && event.data != ""
  }

  lemma StepGivesUp(c: Conn, event: Event)
    requires Inv(c) && Enabled(c, event)
    ensures var c' := Step(c, event); var lost := |c.accepted| - |c.kept|;
            |c'.accepted| - |c'.kept| == lost + (if GivesUp(c, event) then |event.data| else 0)
  {
  }

  lemma {:induction false} LossIsGivenUp(run: seq<Conn>, events: seq<Event>, i: nat)
    requires IsRun(run, events) && i < |run|
    ensures |run[i].kept| < |run[i].accepted| <==> exists j :: 0 <= j < i && GivesUp(run[j], events[j])
  {
    RunKeepsInv(run, events, i);
    if i > 0 {
      hide Step;
      LossIsGivenUp(run, events, i - 1);
      RunKeepsInv(run, events, i - 1);
      StepGivesUp(run[i - 1], events[i - 1]);
    }
  }

  /** The wire followed by the output buffer is exactly what was accepted, unless some send met a fault. */
  lemma NothingLost(run: seq<Conn>, events: seq<Event>, i: nat)
    requires IsRun(run, events) && i < |run|
    ensures run[i].wire + run[i].output == run[i].accepted
       <==> forall j :: 0 <= j < i ==> !GivesUp(run[j], events[j])
  {
    RunKeepsInv(run, events, i);
    LossIsGivenUp(run, events, i);
  }

  predicate Takes(c: Conn, event: Event) {
    event.Send? && c.state == Connected
  }

  // The data of all sends that were taken, and of those of them that no fault gave up.
  ghost function Taken(run: seq<Conn>, events: seq<Event>, i: nat): string
    requires |run| == |events| + 1 && i <= |events|
  {
    if i == 0 then ""
    else
      var c, event := run[i - 1], events[i - 1];
      Taken(run, events, i - 1) + (if Takes(c, event) then event.data else "")
  }

  ghost function NotGivenUp(run: seq<Conn>, events: seq<Event>, i: nat): string
    requires |run| == |events| + 1 && i <= |events|
  {
    if i == 0 then ""
    else
      var c, event := run[i - 1], events[i - 1];
      NotGivenUp(run, events, i - 1) + (if Takes(c, event) && !GivesUp(c, event) then event.data else "")
  }

  lemma StepTakes(c: Conn, event: Event)
    requires Inv(c) && Enabled(c, event)
    ensures Step(c, event).accepted == c.accepted + (if Takes(c, event) then event.data else "")
    ensures Step(c, event).kept == c.kept + (if Takes(c, event) && !GivesUp(c, event) then event.data else "")
  {
    assert c.accepted + "" == c.accepted && c.kept + "" == c.kept;
  }

  /** The wire followed by the output buffer is the data of every send taken, in order, without those, and only those,
      that met a fault. */
  lemma {:induction false} WireIsWhatWasSent(run: seq<Conn>, events: seq<Event>, i: nat)
    requires IsRun(run, events) && i < |run|
    ensures run[i].wire + run[i].output == NotGivenUp(run, events, i)
    ensures run[i].accepted == Taken(run, events, i)
  {
    RunKeepsInv(run, events, i);
    KeptIsNotGivenUp(run, events, i);
  }

  lemma {:induction false} KeptIsNotGivenUp(run: seq<Conn>, events: seq<Event>, i: nat)
    requires IsRun(run, events) && i < |run|
    ensures run[i].kept == NotGivenUp(run, events, i) && run[i].accepted == Taken(run, events, i)
  {
    hide Step, Enabled, Inv, Takes, GivesUp;
    if i > 0 {
      KeptIsNotGivenUp(run, events, i - 1);
      RunKeepsInv(run, events, i - 1);
      StepTakes(run[i - 1], events[i - 1]);
    }
  }

  predicate Closes(event: Event) {
    event == Shutdown || event == ForceClose
  }

  lemma StepState(c: Conn, event: Event)
    requires Enabled(c, event)
    ensures Step(c, event).state == Connected <==> event == Established || (c.state == Connected && !Closes(event))
    ensures Step(c, event).state == Connecting <==> c.state == Connecting && event != Established
  {
  }

  // Established, and neither shut down nor closed since.
  ghost predicate Open(events: seq<Event>, i: nat)
    requires i <= |events|
  {
    exists e :: 0 <= e < i && events[e] == Established && forall k :: e < k < i ==> !Closes(events[k])
  }

  lemma OpenStep(events: seq<Event>, i: nat)
    requires 0 < i <= |events|
    ensures Open(events, i) <==> events[i - 1] == Established || (Open(events, i - 1) && !Closes(events[i - 1]))
  {
  }

  /** A connection takes sends exactly between its establishment and the first shutdown() or forceClose(). */
  lemma {:induction false} ConnectedExactlyWhenOpen(run: seq<Conn>, events: seq<Event>, i: nat)
    requires IsRun(run, events) && i < |run|
    ensures run[i].state == Connected <==> Open(events, i)
    ensures run[i].state == Connecting <==> forall k :: 0 <= k < i ==> events[k] != Established
  {
    if i > 0 {
      hide Step, Enabled, Open;
      ConnectedExactlyWhenOpen(run, events, i - 1);
      StepState(run[i - 1], events[i - 1]);
      OpenStep(events, i);
    }
  }

  lemma StepAsks(c: Conn, event: Event)
    requires Enabled(c, event)
    ensures Step(c, event).shutdownAsked <==> c.shutdownAsked || (event == Shutdown && c.state == Connected)
  {
  }

  lemma {:induction false} ShutdownIsAsked(run: seq<Conn>, events: seq<Event>, i: nat, j: nat)
    requires IsRun(run, events) && i < j < |run| && events[i] == Shutdown && run[i].state == Connected
    ensures run[j].shutdownAsked
  {
    hide Step, Enabled;
    if i + 1 < j { ShutdownIsAsked(run, events, i, j - 1); }
    StepAsks(run[j - 1], events[j - 1]);
  }

  /** A shutdown() of an open connection refuses every later send, and shuts the write side down once all is written. */
  lemma ShutdownTakesEffect(run: seq<Conn>, events: seq<Event>, i: nat, j: nat)
    requires IsRun(run, events) && i < j < |run| && events[i] == Shutdown && run[i].state == Connected
    ensures run[j].state == Disconnecting && (run[j].output == "" <==> run[j].fins == 1)
    ensures run[j].accepted == run[i].accepted
  {
    RunKeepsInv(run, events, j);
    ShutdownIsAsked(run, events, i, j);
    NothingAcceptedSince(run, events, i, j);
  }

  lemma {:induction false} NothingAcceptedSince(run: seq<Conn>, events: seq<Event>, i: nat, j: nat)
    requires IsRun(run, events) && i < j < |run| && events[i] == Shutdown && run[i].state == Connected
    ensures run[j].accepted == run[i].accepted
  {
    if i + 1 < j {
      hide Step, Enabled;
      NothingAcceptedSince(run, events, i, j - 1);
      ShutdownIsAsked(run, events, i, j - 1);
      RunKeepsInv(run, events, j - 1);
      StepTakes(run[j - 1], events[j - 1]);
    }
  }

  lemma StepAfterShutdown(c: Conn, event: Event)
    requires Inv(c) && c.fins > 0 && Enabled(c, event)
    ensures var c' := Step(c, event); c'.wire == c.wire && c'.fins == c.fins && c'.accepted == c.accepted
  {
  }

  /** No byte is written after the write side was shut down, and it is never shut down again. */
  lemma {:induction false} SilentAfterShutdown(run: seq<Conn>, events: seq<Event>, i: nat, j: nat)
    requires IsRun(run, events) && i <= j < |run| && run[i].fins > 0
    ensures run[j].wire == run[i].wire && run[j].fins == run[i].fins && run[j].accepted == run[i].accepted
  {
    hide Inv, Step;
    if i < j {
      SilentAfterShutdown(run, events, i, j - 1);
      RunKeepsInv(run, events, j - 1);
      StepAfterShutdown(run[j - 1], events[j - 1]);
    }
  }

  // An attempt to write that the kernel did not refuse: at once when nothing waits, or from what waits.
  predicate Attempts(c: Conn, event: Event) {
    match event
    case Send(_, result) => c.state == Connected && c.output == "" && result.Wrote?
    case HandleWrite(result) => c.output != "" && result.Wrote?
    case _ => false
  }

  /** The wire grows by exactly what the kernel took, and a write-complete callback is queued exactly when an attempt to
      write leaves nothing waiting. */
  lemma StepOnlyExtendsWire(c: Conn, event: Event)
    requires Inv(c) && Enabled(c, event)
    ensures c.wire <= Step(c, event).wire
    ensures |Step(c, event).wire| == |c.wire| + (if Attempts(c, event) then event.result.n else 0)
    ensures Step(c, event).completions
         == c.completions + (if Attempts(c, event) && Step(c, event).output == "" then 1 else 0)
  {
  }

  /** The write side is shut down exactly by a shutdown() that finds nothing waiting, or by the write that leaves
      nothing waiting on a connection that is disconnecting. */
  lemma StepShutsDown(c: Conn, event: Event)
    requires Inv(c) && Enabled(c, event)
    ensures Step(c, event).fins > c.fins
       <==> (event == Shutdown && c.state == Connected && c.output == "")
            || (event.HandleWrite? && c.state == Disconnecting && c.output != "" && Step(c, event).output == "")
  {
  }

  class TcpConnection {
    var state: StateE
    var outputBuffer: Buffer
    var writing: bool
    ghost var past: Conn

    // The fields of the connection with what it has done so far.
    ghost function Abs(): Conn
      requires outputBuffer.Valid()
      reads this, outputBuffer, outputBuffer.buffer
    {
      past.(state := state, output := outputBuffer.Contents(), writing := writing)
    }

    ghost predicate Valid()
      reads this, outputBuffer, outputBuffer.buffer
    {
      outputBuffer.Valid() && Inv(Abs())
    }

    constructor ()
      ensures Valid() && fresh(outputBuffer) && fresh(outputBuffer.buffer) && Abs() == NEW_CONN
    {
      state := Connecting;
      outputBuffer := new Buffer();
      writing := false;
      past := NEW_CONN;
    }

    method ConnectEstablished()
      requires Valid() && state == Connecting
      modifies this
      ensures Valid() && Abs() == Step(old(Abs()), Established)
    {
      state := Connected;
    }

    // The attempt to write at once, if nothing is waiting.
    method WriteDirectly(data: string, result: WriteResult) returns (nwrote: nat, faultError: bool)
      requires outputBuffer.Valid() && CanWrite(result, data)
      modifies this`past
      ensures var direct := !writing && outputBuffer.Contents() == "";
              && nwrote == (if direct && result.Wrote? then result.n else 0)
              && faultError == (direct && result == Failed(true))
              && past == old(past).(wire := old(past).wire + data[..nwrote],
                                    completions := old(past).completions
                                                   + (if direct && result.Wrote? && nwrote == |data| then 1 else 0))
    {
      nwrote, faultError := 0, false;
      assert past.wire + data[..0] == past.wire;
      if !writing && outputBuffer.ReadableBytes() == 0 {
        if result.Wrote? {
          nwrote := result.n;
          past := past.(wire := past.wire + data[..nwrote]);
          if |data| - nwrote == 0 {
            past := past.(completions := past.completions + 1);
          }
        } else if result.fault {
          faultError := true;
        }
      }
    }

    method SendInLoop(data: string, result: WriteResult)
      requires Valid() && state == Connected && CanWrite(result, data)
      modifies this, outputBuffer, outputBuffer.buffer
      ensures Valid() && outputBuffer == old(outputBuffer)
      ensures outputBuffer.buffer == old(outputBuffer.buffer) || fresh(outputBuffer.buffer)
      ensures Abs() == Step(old(Abs()), Event.Send(data, result))
    {
      hide Inv, Step;
      Steps(Abs(), data, result);
      SendKeepsInv(Abs(), data, result);
      ghost var output := outputBuffer.Contents();
      var nwrote, faultError := WriteDirectly(data, result);
      var remaining := |data| - nwrote;
      past := past.(accepted := past.accepted + data, kept := if faultError then past.kept else past.kept + data);
      if !faultError && remaining > 0 {
        outputBuffer.Append(data[nwrote..]);
        if !writing {
          writing := true;
        }
      } else {
        assert remaining == 0 ==> output + data[nwrote..] == output;
      }
    }

    method Send(data: string, result: WriteResult)
      requires Valid() && CanWrite(result, data)
      modifies this, outputBuffer, outputBuffer.buffer
      ensures Valid() && outputBuffer == old(outputBuffer)
      ensures outputBuffer.buffer == old(outputBuffer.buffer) || fresh(outputBuffer.buffer)
      ensures Abs() == Step(old(Abs()), Event.Send(data, result))
    {
      if state == Connected {
        SendInLoop(data, result);
      }
    }

    // Sends the content of another buffer, which is then empty.
    method SendBuffer(buf: Buffer, result: WriteResult)
      requires Valid() && buf.Valid() && CanWrite(result, buf.Contents())
      requires buf != outputBuffer && buf.buffer != outputBuffer.buffer
      modifies this, outputBuffer, outputBuffer.buffer, buf
      ensures Valid() && buf.Valid() && outputBuffer == old(outputBuffer)
      ensures Abs() == Step(old(Abs()), Event.Send(old(buf.Contents()), result))
      ensures buf.Contents() == if old(state) == Connected then "" else old(buf.Contents())
    {
      hide Inv, Step;
      if state == Connected {
        var data := buf.Peek(buf.ReadableBytes());
        assert data == buf.Contents();
        SendInLoop(data, result);
        buf.RetrieveAll();
      } else {
        Steps(Abs(), buf.Contents(), result);
      }
    }

    method ShutdownInLoop()
      requires outputBuffer.Valid()
      modifies this`past
      ensures Abs() == old(if writing then Abs() else Abs().(fins := Abs().fins + 1))
    {
      if !writing {
        past := past.(fins := past.fins + 1);
      }
    }

    method Shutdown()
      requires Valid()
      modifies this
      ensures Valid() && outputBuffer == old(outputBuffer)
      ensures Abs() == Step(old(Abs()), Event.Shutdown)
    {
      if state == Connected {
        state := Disconnecting;
        past := past.(shutdownAsked := true);
        ShutdownInLoop();
      }
    }

    method HandleWrite(result: WriteResult)
      requires Valid() && CanWrite(result, outputBuffer.Contents())
      modifies this, outputBuffer
      ensures Valid() && outputBuffer == old(outputBuffer) && outputBuffer.buffer == old(outputBuffer.buffer)
      ensures Abs() == Step(old(Abs()), Event.HandleWrite(result))
    {
      hide Inv, Step;
      Steps(Abs(), outputBuffer.Contents(), result);
      StepKeepsInv(Abs(), Event.HandleWrite(result));
      if writing {
        if result.Wrote? && result.n > 0 {
          past := past.(wire := past.wire + outputBuffer.Contents()[..result.n]);
          outputBuffer.Retrieve(result.n);
          if outputBuffer.ReadableBytes() == 0 {
            writing := false;
            past := past.(completions := past.completions + 1);
            if state == Disconnecting {
              ShutdownInLoop();
            }
          }
        }
      }
    }

    method ForceClose()
      requires Valid()
      modifies this
      ensures Valid() && outputBuffer == old(outputBuffer)
      ensures Abs() == Step(old(Abs()), Event.ForceClose)
    {
      if state == Connected || state == Disconnecting {
        state := Disconnecting;
      }
    }
  }
}
