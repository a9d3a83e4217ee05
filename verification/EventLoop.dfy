/** net/EventLoop.cc: functors queued by any thread, and the eventfd that wakes the loop from poll. */
module EventLoop {

  type Thread = nat

  // `early`: pushed by the loop's own thread before loop().
  datatype Functor = Functor(id: nat, early: bool)

  // Handling: between poll and doPendingFunctors; `readable` while the wakeup channel's callback has yet to run.
  // Running: in doPendingFunctors, after the swap.
  datatype Phase = Starting | Polling | Handling(readable: bool) | Running | Exited

  // `writers` are the other threads between their push, or quit, and their write to the eventfd; `loopWriting` says
  // that of the loop's own thread. `iterations` counts the swaps.
  datatype State = State(phase: Phase, pending: seq<Functor>, batch: seq<Functor>, counter: nat, quit: bool,
                         writers: set<Thread>, loopWriting: bool, iterations: nat,
                         pushed: seq<Functor>, executed: seq<Functor>)

  datatype Step =
    | OtherPush(thread: Thread, id: nat)
    | OtherQuit(thread: Thread)
    | OtherWrite(thread: Thread)
    | LoopPush(id: nat)
    | LoopQuit
    | LoopWrite
    | EnterLoop
    | PollReturns
    | HandleRead
    | Swap
    | RunNext
    | EndDrain

  const INIT := State(Starting, [], [], 0, false, {}, false, 0, [], [])

  predicate InLoopCode(s: State) {
    (s.phase == Starting || s.phase.Handling? || s.phase == Running) && !s.loopWriting
  }

  predicate Enabled(s: State, step: Step) {
    match step
    case OtherPush(t, _) => t !in s.writers
    case OtherQuit(t) => t !in s.writers
    case OtherWrite(t) => t in s.writers
    case LoopPush(_) => InLoopCode(s)
    case LoopQuit => InLoopCode(s)
    case LoopWrite => s.loopWriting
    case EnterLoop => s.phase == Starting
    case PollReturns => s.phase == Polling
    case HandleRead => s.phase == Handling(true)
    case Swap => s.phase == Handling(false)
    case RunNext => s.phase == Running && s.batch != [] && !s.loopWriting
    case EndDrain => s.phase == Running && s.batch == [] && !s.loopWriting
  }

  function Push(s: State, f: Functor): State {
    s.(pending := s.pending + [f], pushed := s.pushed + [f])
  }

  // poll is level triggered: the wakeup channel is among the active ones when the counter is positive. It may also
  // return for other events or the timeout. The loop's own thread wakes itself only while running functors.
  function Next(s: State, step: Step): State
    requires Enabled(s, step)
  {
    match step
    case OtherPush(t, id) => Push(s, Functor(id, false)).(writers := s.writers + {t})
    case OtherQuit(t) => s.(quit := true, writers := s.writers + {t})
    case OtherWrite(t) => s.(counter := s.counter + 1, writers := s.writers - {t})
    case LoopPush(id) => Push(s, Functor(id, s.phase == Starting)).(loopWriting := s.phase == Running)
    case LoopQuit => s.(quit := true)
    case LoopWrite => s.(counter := s.counter + 1, loopWriting := false)
    case EnterLoop => s.(phase := Polling, quit := false)
    case PollReturns => s.(phase := Handling(s.counter > 0))
    case HandleRead => s.(phase := Handling(false), counter := 0)
    case Swap => s.(phase := Running, batch := s.pending, pending := [], iterations := s.iterations + 1)
    case RunNext => s.(batch := s.batch[1..], executed := s.executed + [s.batch[0]])
    case EndDrain => s.(phase := if s.quit then Exited else Polling)
  }

  predicate Signalled(s: State) {
    s.counter > 0 || s.writers != {}
  }

  ghost predicate AllEarly(fs: seq<Functor>) {
    forall i :: 0 <= i < |fs| ==> fs[i].early
  }

  ghost predicate Inv(s: State) {
    && s.executed + s.batch + s.pending == s.pushed
    && (s.batch != [] ==> s.phase == Running)
    && (s.loopWriting ==> s.phase == Running)
    && (s.phase == Starting ==> s.iterations == 0)
    && (s.iterations > 0 ==> forall i :: 0 <= i < |s.pending| ==> !s.pending[i].early)
    && (s.phase == Starting || s.phase == Polling ==> AllEarly(s.pending) || Signalled(s))
    && (s.phase == Running ==> s.iterations > 0 && (s.pending == [] || Signalled(s) || s.loopWriting))
    && (s.phase == Polling && s.quit ==> Signalled(s))
  }

  ghost predicate IsRun(run: seq<State>, steps: seq<Step>) {
    && |run| == |steps| + 1 && run[0] == INIT
    && forall i :: 0 <= i < |steps| ==> Enabled(run[i], steps[i]) && run[i + 1] == Next(run[i], steps[i])
  }

  lemma OrderKept(s: State, step: Step)
    requires Inv(s) && Enabled(s, step)
    ensures var s' := Next(s, step); s'.executed + s'.batch + s'.pending == s'.pushed
  {
  }

  lemma StepKeepsInv(s: State, step: Step)
    requires Inv(s) && Enabled(s, step)
    ensures Inv(Next(s, step))
  {
    OrderKept(s, step);
    var s' := Next(s, step);
    if step.OtherPush? || step.OtherQuit? { assert step.thread in s'.writers; }
  }

  lemma {:induction false} RunKeepsInv(run: seq<State>, steps: seq<Step>, i: nat)
    requires IsRun(run, steps) && i < |run|
    ensures Inv(run[i])
  {
    if i > 0 {
      hide Inv, Enabled, Next;
      RunKeepsInv(run, steps, i - 1);
      StepKeepsInv(run[i - 1], steps[i - 1]);
    }
  }

  /** No wakeup is lost: when the loop is about to poll with functors pending, the eventfd is readable or another thread
      is about to write it, unless this is the first poll and all of them were queued by the loop's thread before
      loop(). */
  lemma NoLostWakeup(run: seq<State>, steps: seq<Step>, i: nat)
    requires IsRun(run, steps) && i < |run| && run[i].phase == Polling && run[i].pending != []
    ensures Signalled(run[i]) || (run[i].iterations == 0 && AllEarly(run[i].pending))
  {
    RunKeepsInv(run, steps, i);
    if run[i].iterations > 0 { assert !run[i].pending[0].early; }
  }

  predicate IsOther(step: Step) {
    step.OtherPush? || step.OtherQuit?
  }

  // Before the first poll returns nobody reads the eventfd, and only other threads write it.
  lemma {:induction false} SignalledByOthers(run: seq<State>, steps: seq<Step>, i: nat)
    requires IsRun(run, steps) && i < |run| && run[i].iterations == 0
        && (run[i].phase == Starting || run[i].phase == Polling)
    ensures Signalled(run[i]) <==> exists j :: 0 <= j < i && IsOther(steps[j])
    ensures !run[i].loopWriting && run[i].pending == run[i].pushed
  {
    if i > 0 {
      RunKeepsInv(run, steps, i - 1);
      BeforeFirstPoll(run[i - 1], steps[i - 1]);
      SignalledByOthers(run, steps, i - 1);
      if IsOther(steps[i - 1]) { assert steps[i - 1].thread in run[i].writers; }
    }
  }

  lemma BeforeFirstPoll(s: State, step: Step)
    requires Inv(s) && Enabled(s, step)
    requires Next(s, step).iterations == 0 && (Next(s, step).phase == Starting || Next(s, step).phase == Polling)
    ensures s.iterations == 0 && (s.phase == Starting || s.phase == Polling)
  {
  }

  /** Exactly when the loop does sleep beside pending functors: in its first poll, if no other thread has queued a
      functor or quit so far. */
  lemma SleepsExactlyWhen(run: seq<State>, steps: seq<Step>, i: nat)
    requires IsRun(run, steps) && i < |run| && run[i].phase == Polling && run[i].pending != []
    ensures !Signalled(run[i]) <==> run[i].iterations == 0 && forall j :: 0 <= j < i ==> !IsOther(steps[j])
  {
    NoLostWakeup(run, steps, i);
    if run[i].iterations == 0 { SignalledByOthers(run, steps, i); }
  }

  /** So a functor queued before loop() leaves the first poll without a wakeup exactly when the loop's own thread queued
      it and no other thread has queued one or quit. */
  lemma FirstPollSleepsExactlyWhen(run: seq<State>, steps: seq<Step>, i: nat)
    requires IsRun(run, steps) && i < |steps| && steps[i] == EnterLoop
    ensures run[i + 1].pending != [] && !Signalled(run[i + 1])
       <==> (exists j :: 0 <= j < i && steps[j].LoopPush?) && forall j :: 0 <= j < i ==> !IsOther(steps[j])
  {
    RunKeepsInv(run, steps, i);
    SignalledByOthers(run, steps, i);
    PushedBySteps(run, steps, i);
  }

  lemma {:induction false} PushedBySteps(run: seq<State>, steps: seq<Step>, i: nat)
    requires IsRun(run, steps) && i < |run|
    ensures run[i].pushed != [] <==> exists j :: 0 <= j < i && (steps[j].LoopPush? || steps[j].OtherPush?)
  {
    if i > 0 { PushedBySteps(run, steps, i - 1); }
  }

  /** The rule for callers: if the loop's thread queues nothing before loop(), no poll sleeps beside pending
      functors. */
  lemma NoEarlyPushNoSleep(run: seq<State>, steps: seq<Step>, i: nat)
    requires IsRun(run, steps) && i < |run| && run[i].phase == Polling && run[i].pending != []
    requires forall j :: 0 <= j < i && steps[j].LoopPush? ==> run[j].phase != Starting
    ensures Signalled(run[i])
  {
    NoLostWakeup(run, steps, i);
    RunKeepsInv(run, steps, i);
    NoneEarly(run, steps, i);
    assert run[i].pending[0] in run[i].executed + run[i].batch + run[i].pending;
  }

  lemma {:induction false} NoneEarly(run: seq<State>, steps: seq<Step>, i: nat)
    requires IsRun(run, steps) && i < |run|
    requires forall j :: 0 <= j < i && steps[j].LoopPush? ==> run[j].phase != Starting
    ensures forall f :: f in run[i].pushed ==> !f.early
  {
    if i > 0 { NoneEarly(run, steps, i - 1); }
  }

  /** A functor queued before loop() that leaves the first poll without a wakeup. */
  lemma EarlyFunctorWaits() returns (run: seq<State>, steps: seq<Step>)
    ensures IsRun(run, steps)
    ensures var last := run[|steps|]; last.phase == Polling && last.pending != [] && !Signalled(last)
  {
    steps := [LoopPush(7), EnterLoop];
    var s1 := Next(INIT, steps[0]);
    run := [INIT, s1, Next(s1, steps[1])];
  }

  /** A quit from another thread does not leave the loop asleep, unless it came before loop(), which forgets it. */
  lemma QuitWakesLoop(run: seq<State>, steps: seq<Step>, i: nat)
    requires IsRun(run, steps) && i < |run| && run[i].phase == Polling && run[i].quit
    ensures Signalled(run[i])
  {
    RunKeepsInv(run, steps, i);
  }

  predicate IsQuit(step: Step) {
    step == LoopQuit || step.OtherQuit?
  }

  predicate NotEntered(steps: seq<Step>, j: int, i: int)
    requires 0 <= j <= i <= |steps|
  {
    forall k :: j < k < i ==> steps[k] != EnterLoop
  }

  /** The quit flag is set exactly when there has been a quit since loop() was entered, or none has entered it yet. */
  lemma {:induction false} QuitIsSetExactlyWhen(run: seq<State>, steps: seq<Step>, i: nat)
    requires IsRun(run, steps) && i < |run|
    ensures run[i].quit <==> exists j :: 0 <= j < i && IsQuit(steps[j]) && NotEntered(steps, j, i)
  {
    if i > 0 {
      QuitIsSetExactlyWhen(run, steps, i - 1);
      assert NotEntered(steps, i - 1, i);
    }
  }

  lemma {:induction false} NeverStartingAgain(run: seq<State>, steps: seq<Step>, i: nat, j: nat)
    requires IsRun(run, steps) && i <= j < |run| && run[i].phase != Starting
    ensures run[j].phase != Starting
  {
    if i < j { NeverStartingAgain(run, steps, i, j - 1); }
  }

  /** A quit once loop() has been entered stays set, and the loop exits when its present turn ends. */
  lemma QuitEndsLoop(run: seq<State>, steps: seq<Step>, i: nat, j: nat)
    requires IsRun(run, steps) && i < j < |run| && IsQuit(steps[i]) && run[i].phase != Starting
    ensures run[j].quit && (j < |steps| && steps[j] == EndDrain ==> run[j + 1].phase == Exited)
  {
    forall k | i < k < j ensures steps[k] != EnterLoop {
      NeverStartingAgain(run, steps, i, k);
    }
    QuitIsSetExactlyWhen(run, steps, j);
  }

  lemma {:induction false} ExitedMeansQuit(run: seq<State>, steps: seq<Step>, i: nat)
    requires IsRun(run, steps) && i < |run|
    ensures run[i].phase == Exited ==> run[i].quit
  {
    if i > 0 { ExitedMeansQuit(run, steps, i - 1); }
  }

  lemma EnteredByStep(s: State, step: Step)
    requires Enabled(s, step) && s.phase == Starting && step != EnterLoop
    ensures Next(s, step).phase == Starting
  {
  }

  lemma {:induction false} StartingUntilEntered(run: seq<State>, steps: seq<Step>, j: nat, i: nat)
    requires IsRun(run, steps) && j <= i < |run| && run[j].phase == Starting
    requires forall k :: j <= k < i ==> steps[k] != EnterLoop
    ensures run[i].phase == Starting
  {
    hide Next, Enabled;
    if j < i {
      StartingUntilEntered(run, steps, j, i - 1);
      EnteredByStep(run[i - 1], steps[i - 1]);
    }
  }

  /** A turn ends the loop if and only if there has been a quit since loop() was entered. */
  lemma ExitsExactlyWhenQuit(run: seq<State>, steps: seq<Step>, i: nat)
    requires IsRun(run, steps) && i < |steps| && steps[i] == EndDrain
    ensures run[i + 1].phase == Exited <==> exists j :: 0 <= j < i && IsQuit(steps[j]) && run[j].phase != Starting
  {
    QuitIsSetExactlyWhen(run, steps, i);
    if run[i].quit {
      var j :| 0 <= j < i && IsQuit(steps[j]) && NotEntered(steps, j, i);
      if run[j].phase == Starting { StartingUntilEntered(run, steps, j, i); }
    }
    forall j | 0 <= j < i && IsQuit(steps[j]) && run[j].phase != Starting ensures run[i].quit {
      QuitEndsLoop(run, steps, j, i);
    }
  }

  /** loop() forgets every quit that came before it, so that only a later one ends it. */
  lemma EarlyQuitIsForgotten(run: seq<State>, steps: seq<Step>, i: nat, j: nat)
    requires IsRun(run, steps) && i < j < |run| && steps[i] == EnterLoop
    ensures run[j].quit <==> exists k :: i < k < j && IsQuit(steps[k])
  {
    QuitIsSetExactlyWhen(run, steps, j);
    forall k | i < k < j ensures steps[k] != EnterLoop {
      NeverStartingAgain(run, steps, i + 1, k);
    }
  }

  /** A quit before loop() that leaves it asleep in its first poll. */
  lemma ForgottenQuit() returns (run: seq<State>, steps: seq<Step>)
    ensures IsRun(run, steps) && steps == [LoopQuit, EnterLoop]
    ensures var last := run[|steps|]; last.phase == Polling && !last.quit && !Signalled(last)
  {
    steps := [LoopQuit, EnterLoop];
    var s1 := Next(INIT, steps[0]);
    run := [INIT, s1, Next(s1, steps[1])];
  }

  predicate IsWrite(step: Step) {
    step.OtherWrite? || step == LoopWrite
  }

  // How often the eventfd has been written since it was last read.
  function UnreadWrites(steps: seq<Step>, i: nat): nat
    requires i <= |steps|
  {
    if i == 0 || steps[i - 1] == HandleRead then 0
    else UnreadWrites(steps, i - 1) + if IsWrite(steps[i - 1]) then 1 else 0
  }

  /** The counter is the number of writes since the last handleRead, so poll reports the wakeup channel exactly when
      there has been one. */
  lemma {:induction false} CounterIsUnreadWrites(run: seq<State>, steps: seq<Step>, i: nat)
    requires IsRun(run, steps) && i < |run|
    ensures run[i].counter == UnreadWrites(steps, i)
    ensures i < |steps| && steps[i] == PollReturns ==> run[i + 1].phase == Handling(UnreadWrites(steps, i) > 0)
  {
    if i > 0 { CounterIsUnreadWrites(run, steps, i - 1); }
  }

  predicate NoneBetween(steps: seq<Step>, step: Step, j: int, i: int)
    requires 0 <= j <= i <= |steps|
  {
    forall k :: j < k < i ==> steps[k] != step
  }

  predicate OwesWrite(step: Step, t: Thread) {
    IsOther(step) && step.thread == t
  }

  /** Every push or quit of another thread owes one write to the eventfd, and so does a push of the loop's own thread
      while it runs functors; no other step does. */
  lemma {:induction false} WritersExactly(run: seq<State>, steps: seq<Step>, i: nat, t: Thread)
    requires IsRun(run, steps) && i < |run|
    ensures t in run[i].writers
       <==> exists j :: 0 <= j < i && OwesWrite(steps[j], t) && NoneBetween(steps, OtherWrite(t), j, i)
    ensures run[i].loopWriting
       <==> exists j :: 0 <= j < i && steps[j].LoopPush? && run[j].phase == Running
                        && NoneBetween(steps, LoopWrite, j, i)
  {
    if i > 0 {
      WritersExactly(run, steps, i - 1, t);
      assert NoneBetween(steps, OtherWrite(t), i - 1, i) && NoneBetween(steps, LoopWrite, i - 1, i);
      WritersNext(run[i - 1], steps[i - 1], t);
      hide Next, Enabled;
      LastLater(steps, OtherWrite(t), i);
      LastLater(steps, LoopWrite, i);
    }
  }

  lemma LastLater(steps: seq<Step>, step: Step, i: nat)
    requires 0 < i <= |steps|
    ensures forall j :: 0 <= j < i - 1 ==>
              (NoneBetween(steps, step, j, i) <==> NoneBetween(steps, step, j, i - 1) && steps[i - 1] != step)
  {
  }

  lemma WritersNext(s: State, step: Step, t: Thread)
    requires Enabled(s, step)
    ensures t in Next(s, step).writers <==> OwesWrite(step, t) || (t in s.writers && step != OtherWrite(t))
    ensures Next(s, step).loopWriting
       <==> (step.LoopPush? && s.phase == Running) || (s.loopWriting && step != LoopWrite)
  {
  }

  // The functor that a step of a run pushes, if it does.
  function PushedBy(s: State, step: Step): seq<Functor> {
    match step
    case OtherPush(_, id) => [Functor(id, false)]
    case LoopPush(id) => [Functor(id, s.phase == Starting)]
    case _ => []
  }

  ghost function Pushes(run: seq<State>, steps: seq<Step>, i: nat): seq<Functor>
    requires |run| == |steps| + 1 && i <= |steps|
  {
    if i == 0 then [] else Pushes(run, steps, i - 1) + PushedBy(run[i - 1], steps[i - 1])
  }

  lemma {:induction false} PushedIsPushes(run: seq<State>, steps: seq<Step>, i: nat)
    requires IsRun(run, steps) && i < |run|
    ensures run[i].pushed == Pushes(run, steps, i)
  {
    if i > 0 { PushedIsPushes(run, steps, i - 1); }
  }

  /** Functors run in the order of the push steps, each once: run, then swapped out, then pending. */
  lemma PushOrder(run: seq<State>, steps: seq<Step>, i: nat)
    requires IsRun(run, steps) && i < |run|
    ensures run[i].executed + run[i].batch + run[i].pending == Pushes(run, steps, i)
  {
    RunKeepsInv(run, steps, i);
    PushedIsPushes(run, steps, i);
  }

  lemma DrainStep(s: State, step: Step)
    requires Enabled(s, step) && s.phase == Running && step != EndDrain
    ensures Next(s, step).phase == Running && Next(s, step).executed + Next(s, step).batch == s.executed + s.batch
  {
  }

  lemma {:induction false} WithinDrain(run: seq<State>, steps: seq<Step>, i: nat, j: nat)
    requires IsRun(run, steps) && i < j < |run| && steps[i] == Swap
    requires forall k :: i < k < j ==> steps[k] != EndDrain
    ensures run[j].phase == Running && run[j].executed + run[j].batch == run[i].executed + run[i].pending
  {
    hide Enabled, Next;
    if i + 1 == j {
      SwapStep(run[i]);
    } else {
      WithinDrain(run, steps, i, j - 1);
      DrainStep(run[j - 1], steps[j - 1]);
    }
  }

  lemma SwapStep(s: State)
    requires Enabled(s, Swap)
    ensures Next(s, Swap).phase == Running && Next(s, Swap).executed + Next(s, Swap).batch == s.executed + s.pending
  {
  }

  /** A drain runs exactly the functors that were pending at its swap; what they queue waits for the next one. */
  lemma DrainRunsTheBatch(run: seq<State>, steps: seq<Step>, i: nat, j: nat)
    requires IsRun(run, steps) && i < j < |steps| && steps[i] == Swap && steps[j] == EndDrain
    requires forall k :: i < k < j ==> steps[k] != EndDrain
    ensures run[j].executed == run[i].executed + run[i].pending
  {
    WithinDrain(run, steps, i, j);
    assert run[j].batch == [] && run[j].executed + [] == run[j].executed;
  }

  lemma {:induction false} PushesOnlyGrow(run: seq<State>, steps: seq<Step>, i: nat, j: nat)
    requires IsRun(run, steps) && i <= j < |run|
    ensures run[i].pushed <= run[j].pushed
  {
    if i < j { PushesOnlyGrow(run, steps, i, j - 1); }
  }

  /** Whatever was pushed before a swap has been run when that drain ends. */
  lemma PushedIsRun(run: seq<State>, steps: seq<Step>, i: nat, j: nat, k: nat)
    requires IsRun(run, steps) && i <= j < k < |steps| && steps[j] == Swap && steps[k] == EndDrain
    requires forall l :: j < l < k ==> steps[l] != EndDrain
    ensures Pushes(run, steps, i) <= run[k].executed
  {
    DrainRunsTheBatch(run, steps, j, k);
    PushesOnlyGrow(run, steps, i, j);
    PushedIsPushes(run, steps, i);
    RunKeepsInv(run, steps, j);
    assert run[j].batch == [] && run[j].executed + [] == run[j].executed;
  }

  // One method for each stretch of code that other threads see as one step.
  class EventLoop {
    var looping: bool
    var quit: bool
    var callingPendingFunctors: bool
    var pendingFunctors: seq<Functor>
    var functors: seq<Functor> // the local variable of doPendingFunctors, without those already run
    var wakeupFd: nat // the counter of the eventfd
    ghost var loop: State

    ghost predicate Valid()
      reads this
    {
      && Inv(loop) && loop.pending == pendingFunctors && loop.batch == functors
      && loop.counter == wakeupFd && loop.quit == quit
      && callingPendingFunctors == (loop.phase == Running)
      && looping == (loop.phase != Starting && loop.phase != Exited)
    }

    constructor ()
      ensures Valid() && loop == INIT
    {
      looping, quit, callingPendingFunctors := false, false, false;
      pendingFunctors, functors, wakeupFd, loop := [], [], 0, INIT;
    }

    // queueInLoop up to the end of its critical section; the caller goes on to wakeup() if mustWake.
    method QueueInLoop(id: nat, ghost thread: Thread, isInLoopThread: bool) returns (mustWake: bool)
      requires Valid() && (if isInLoopThread then InLoopCode(loop) else thread !in loop.writers)
      modifies this
      ensures Valid() && loop == Next(old(loop), if isInLoopThread then LoopPush(id) else OtherPush(thread, id))
      ensures mustWake == (if isInLoopThread then loop.loopWriting else thread in loop.writers)
    {
      hide Inv;
      ghost var step := if isInLoopThread then LoopPush(id) else OtherPush(thread, id);
      StepKeepsInv(loop, step);
      pendingFunctors := pendingFunctors + [Functor(id, isInLoopThread && !looping)];
      mustWake := !isInLoopThread || callingPendingFunctors;
      loop := Next(loop, step);
    }

    method Wakeup(ghost thread: Thread, isInLoopThread: bool)
      requires Valid() && (if isInLoopThread then loop.loopWriting else thread in loop.writers)
      modifies this
      ensures Valid() && loop == Next(old(loop), if isInLoopThread then LoopWrite else OtherWrite(thread))
    {
      hide Inv;
      ghost var step := if isInLoopThread then LoopWrite else OtherWrite(thread);
      StepKeepsInv(loop, step);
      wakeupFd := wakeupFd + 1;
      loop := Next(loop, step);
    }

    method HandleRead()
      requires Valid() && loop.phase == Handling(true)
      modifies this
      ensures Valid() && loop == Next(old(loop), Step.HandleRead)
    {
      hide Inv;
      StepKeepsInv(loop, Step.HandleRead);
      wakeupFd := 0;
      loop := Next(loop, Step.HandleRead);
    }

    // The head of doPendingFunctors, with its critical section.
    method SwapFunctors()
      requires Valid() && loop.phase == Handling(false)
      modifies this
      ensures Valid() && loop == Next(old(loop), Swap)
    {
      StepKeepsInv(loop, Swap);
      functors := [];
      callingPendingFunctors := true;
      functors, pendingFunctors := pendingFunctors, functors;
      loop := Next(loop, Swap);
    }

    // One turn of the loop in doPendingFunctors.
    method RunFunctor() returns (f: Functor)
      requires Valid() && Enabled(loop, RunNext)
      modifies this
      ensures Valid() && loop == Next(old(loop), RunNext) && loop.executed == old(loop.executed) + [f]
    {
      hide Inv;
      StepKeepsInv(loop, RunNext);
      f := functors[0];
      functors := functors[1..];
      loop := Next(loop, RunNext);
    }

    // The end of doPendingFunctors and of a turn of loop().
    method FinishTurn()
      requires Valid() && Enabled(loop, EndDrain)
      modifies this
      ensures Valid() && loop == Next(old(loop), EndDrain)
    {
      hide Inv;
      StepKeepsInv(loop, EndDrain);
      callingPendingFunctors := false;
      if quit {
        looping := false;
      }
      loop := Next(loop, EndDrain);
    }

    method Start()
      requires Valid() && loop.phase == Starting
      modifies this
      ensures Valid() && loop == Next(old(loop), EnterLoop)
    {
      hide Inv;
      StepKeepsInv(loop, EnterLoop);
      looping := true;
      quit := false;
      loop := Next(loop, EnterLoop);
    }
  }
}
