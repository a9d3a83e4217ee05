/** base/ThreadPool.cc: a bounded or unbounded task queue shared by callers of run() and the workers of the pool.
    A step is one critical section: from taking the mutex to leaving it or to waiting. */
module ThreadPool {
  import opened Monitor
  import opened Wrappers

  type Thread = nat
  type Task = nat

  // A call of run() that is under way, with its task.
  datatype Call = Call(thread: Thread, task: Task)

  // `accepted` and `started` are all tasks queued and all tasks handed to workers.
  datatype State = State(queue: seq<Task>, maxQueueSize: nat, running: bool,
                         workers: Side<Thread>, callers: Side<Call>, accepted: seq<Task>, started: seq<Task>)

  datatype Step =
    | Run(call: Call, notified: Option<Thread>)
    | Take(thread: Thread, next: Option<Call>)
    | Stop
    | WakeWorker(thread: Thread)
    | WakeCaller(call: Call)

  // After start() with at least one thread.
  function Init(maxQueueSize: nat): State {
    State([], maxQueueSize, true, NoThreads(), NoThreads(), [], [])
  }

  predicate IsFull(s: State) {
    s.maxQueueSize > 0 && |s.queue| >= s.maxQueueSize
  }

  predicate Outside(s: State, t: Thread) {
    t !in s.workers.waiting + s.workers.woken && forall c :: c in s.callers.waiting + s.callers.woken ==> c.thread != t
  }

  predicate Enabled(s: State, step: Step) {
    match step
    case Run(c, notified) =>
      (Outside(s, c.thread) || c in s.callers.woken) && (IsFull(s) || Notifies(s.workers, notified))
    case Take(t, next) =>
      (Outside(s, t) || t in s.workers.woken) && (s.queue == [] || s.maxQueueSize == 0 || Notifies(s.callers, next))
    case Stop => true
    case WakeWorker(t) => t in s.workers.waiting
    case WakeCaller(c) => c in s.callers.waiting
  }

  function Next(s: State, step: Step): State {
    match step
    case Run(c, notified) =>
      if IsFull(s) then s.(callers := Park(s.callers, c))
      else s.(queue := s.queue + [c.task], accepted := s.accepted + [c.task],
              callers := Leave(s.callers, c), workers := Notify(s.workers, notified))
    case Take(t, next) =>
      if s.queue == [] then
        if s.running then s.(workers := Park(s.workers, t)) else s.(workers := Leave(s.workers, t))
      else
        s.(queue := s.queue[1..], started := s.started + [s.queue[0]], workers := Leave(s.workers, t),
           callers := if s.maxQueueSize > 0 then Notify(s.callers, next) else s.callers)
    case Stop => s.(running := false, workers := NotifyAll(s.workers))
    case WakeWorker(t) => s.(workers := Wake(s.workers, t))
    case WakeCaller(c) => s.(callers := Wake(s.callers, c))
  }

  // Enough threads have been woken for the tasks, and for the free places, that are there.
  ghost predicate Counts(s: State) {
    && Disjoint(s.workers) && Disjoint(s.callers)
    && (s.workers.waiting != {} ==> s.running && |s.queue| <= |s.workers.woken|)
    && (s.callers.waiting != {} ==> s.maxQueueSize > 0 && s.maxQueueSize - |s.queue| <= |s.callers.woken|)
  }

  ghost predicate Inv(s: State) {
    && Counts(s)
    && (s.maxQueueSize > 0 ==> |s.queue| <= s.maxQueueSize)
    && s.started + s.queue == s.accepted
  }

  ghost predicate IsRun(run: seq<State>, steps: seq<Step>) {
    && |run| == |steps| + 1 && run[0] == Init(run[0].maxQueueSize)
    && forall i :: 0 <= i < |steps| ==> Enabled(run[i], steps[i]) && run[i + 1] == Next(run[i], steps[i])
  }

  lemma RunCounts(s: State, c: Call, notified: Option<Thread>)
    requires Inv(s) && Enabled(s, Run(c, notified))
    ensures Counts(Next(s, Run(c, notified)))
  {
    if IsFull(s) {
      ParkCounts(s.callers, c);
    } else {
      LeaveCounts(s.callers, c);
      NotifyCounts(s.workers, notified);
    }
  }

  lemma TakeCounts(s: State, t: Thread, next: Option<Call>)
    requires Inv(s) && Enabled(s, Take(t, next))
    ensures Counts(Next(s, Take(t, next)))
  {
    if s.queue == [] && s.running {
      ParkCounts(s.workers, t);
    } else {
      LeaveCounts(s.workers, t);
      if s.queue != [] && s.maxQueueSize > 0 { NotifyCounts(s.callers, next); }
    }
  }

  lemma StepCounts(s: State, step: Step)
    requires Inv(s) && Enabled(s, step)
    ensures Counts(Next(s, step))
  {
    match step
    case Run(c, notified) => RunCounts(s, c, notified);
    case Take(t, next) => TakeCounts(s, t, next);
    case Stop =>
    case WakeWorker(t) => WakeCounts(s.workers, t);
    case WakeCaller(c) => WakeCounts(s.callers, c);
  }

  lemma StepKeepsInv(s: State, step: Step)
    requires Inv(s) && Enabled(s, step)
    ensures Inv(Next(s, step))
    ensures Next(s, step).maxQueueSize == s.maxQueueSize && (Next(s, step).running ==> s.running)
  {
    StepCounts(s, step);
    hide Park, Leave, Notify, NotifyAll, Wake, Disjoint, Notifies, Outside;
    if step.Take? && s.queue != [] {
      assert s.queue == [s.queue[0]] + s.queue[1..];
    }
  }

  // The task that a step of a run accepts, and the one it starts.
  function AcceptedBy(s: State, step: Step): seq<Task> {
    if step.Run? && !IsFull(s) then [step.call.task] else []
  }

  function StartedBy(s: State, step: Step): seq<Task> {
    if step.Take? && s.queue != [] then [s.queue[0]] else []
  }

  ghost function AcceptedSoFar(run: seq<State>, steps: seq<Step>, i: nat): seq<Task>
    requires |run| == |steps| + 1 && i <= |steps|
  {
    if i == 0 then [] else AcceptedSoFar(run, steps, i - 1) + AcceptedBy(run[i - 1], steps[i - 1])
  }

  ghost function StartedSoFar(run: seq<State>, steps: seq<Step>, i: nat): seq<Task>
    requires |run| == |steps| + 1 && i <= |steps|
  {
    if i == 0 then [] else StartedSoFar(run, steps, i - 1) + StartedBy(run[i - 1], steps[i - 1])
  }

  lemma StepMoves(s: State, step: Step)
    ensures Next(s, step).accepted == s.accepted + AcceptedBy(s, step)
    ensures Next(s, step).started == s.started + StartedBy(s, step)
  {
    hide Park, Leave, Notify, NotifyAll, Wake;
    assert s.accepted + [] == s.accepted && s.started + [] == s.started;
  }

  /** In every state of every run a waiting worker means a running pool and no more tasks than woken workers, a waiting
      caller a bounded queue and no more free places than woken callers; and the tasks started so far, followed by the
      queue, are the tasks accepted so far, in order. */
  lemma {:induction false} RunKeepsInv(run: seq<State>, steps: seq<Step>, i: nat)
    requires IsRun(run, steps) && i < |run|
    ensures Inv(run[i])
    ensures run[i].accepted == AcceptedSoFar(run, steps, i) && run[i].started == StartedSoFar(run, steps, i)
    ensures StartedSoFar(run, steps, i) + run[i].queue == AcceptedSoFar(run, steps, i)
  {
    hide Enabled, Next, Counts, AcceptedBy, StartedBy;
    if i > 0 {
      RunKeepsInv(run, steps, i - 1);
      StepMoves(run[i - 1], steps[i - 1]);
      StepKeepsInv(run[i - 1], steps[i - 1]);
    } else {
      InitHasInv(run[0].maxQueueSize);
    }
  }

  lemma InitHasInv(maxQueueSize: nat)
    ensures Inv(Init(maxQueueSize))
  {
  }

  // Whether a step leaves the worker waiting, and whether it notifies it, or it wakes spuriously.
  predicate LeavesWorker(s: State, step: Step, t: Thread) {
    step.Take? && step.thread == t && s.queue == [] && s.running
  }

  predicate RousesWorker(s: State, step: Step, t: Thread) {
    step == WakeWorker(t) || step == Stop || (step.Run? && !IsFull(s) && step.notified == Some(t))
  }

  predicate LeavesCaller(s: State, step: Step, c: Call) {
    step.Run? && step.call == c && IsFull(s)
  }

  predicate RousesCaller(s: State, step: Step, c: Call) {
    step == WakeCaller(c) || (step.Take? && s.queue != [] && s.maxQueueSize > 0 && step.next == Some(c))
  }

  lemma SidesAreDisjoint(s: State)
    requires Inv(s)
    ensures Disjoint(s.workers) && Disjoint(s.callers)
  {
  }

  lemma WorkersNext(s: State, step: Step, t: Thread)
    requires Inv(s) && Enabled(s, step)
    ensures var workers := Next(s, step).workers;
            && (t in workers.waiting
                <==> LeavesWorker(s, step, t) || (t in s.workers.waiting && !RousesWorker(s, step, t)))
            && (t in workers.woken <==> (t in s.workers.waiting && RousesWorker(s, step, t))
                                        || (t in s.workers.woken && !(step.Take? && step.thread == t)))
  {
    hide Inv;
    SidesAreDisjoint(s);
  }

  lemma CallersNext(s: State, step: Step, c: Call)
    requires Inv(s) && Enabled(s, step)
    ensures var callers := Next(s, step).callers;
            && (c in callers.waiting
                <==> LeavesCaller(s, step, c) || (c in s.callers.waiting && !RousesCaller(s, step, c)))
            && (c in callers.woken <==> (c in s.callers.waiting && RousesCaller(s, step, c))
                                        || (c in s.callers.woken && !(step.Run? && step.call == c)))
  {
    hide Inv;
    SidesAreDisjoint(s);
  }

  ghost predicate WorkerUnroused(run: seq<State>, steps: seq<Step>, t: Thread, j: int, i: int)
    requires |run| == |steps| + 1 && 0 <= j <= i <= |steps|
  {
    forall k :: j < k < i ==> !RousesWorker(run[k], steps[k], t)
  }

  ghost predicate CallerUnroused(run: seq<State>, steps: seq<Step>, c: Call, j: int, i: int)
    requires |run| == |steps| + 1 && 0 <= j <= i <= |steps|
  {
    forall k :: j < k < i ==> !RousesCaller(run[k], steps[k], c)
  }

  /** Who waits: workers that found no task while the pool ran, and callers that found no place, if they have not been
      notified since. */
  lemma {:induction false} WaitingExactly(run: seq<State>, steps: seq<Step>, i: nat, t: Thread, c: Call)
    requires IsRun(run, steps) && i < |run|
    ensures t in run[i].workers.waiting
       <==> exists j :: 0 <= j < i && LeavesWorker(run[j], steps[j], t) && WorkerUnroused(run, steps, t, j, i)
    ensures c in run[i].callers.waiting
       <==> exists j :: 0 <= j < i && LeavesCaller(run[j], steps[j], c) && CallerUnroused(run, steps, c, j, i)
  {
    hide Inv, Enabled, Next, LeavesWorker, LeavesCaller, RousesWorker, RousesCaller;
    if i > 0 {
      WaitingExactly(run, steps, i - 1, t, c);
      RunKeepsInv(run, steps, i - 1);
      WorkersNext(run[i - 1], steps[i - 1], t);
      CallersNext(run[i - 1], steps[i - 1], c);
      assert WorkerUnroused(run, steps, t, i - 1, i) && CallerUnroused(run, steps, c, i - 1, i);
      forall j | 0 <= j < i - 1
        ensures WorkerUnroused(run, steps, t, j, i)
           <==> WorkerUnroused(run, steps, t, j, i - 1) && !RousesWorker(run[i - 1], steps[i - 1], t)
        ensures CallerUnroused(run, steps, c, j, i)
           <==> CallerUnroused(run, steps, c, j, i - 1) && !RousesCaller(run[i - 1], steps[i - 1], c)
      {
      }
    }
  }

  /** Who has been woken and has yet to run: those who were roused while waiting and whose call has not gone on
      since. */
  lemma {:induction false} WokenExactly(run: seq<State>, steps: seq<Step>, i: nat, t: Thread, c: Call)
    requires IsRun(run, steps) && i < |run|
    ensures t in run[i].workers.woken
       <==> exists j :: 0 <= j < i && t in run[j].workers.waiting && RousesWorker(run[j], steps[j], t)
                        && forall k :: j < k < i ==> !(steps[k].Take? && steps[k].thread == t)
    ensures c in run[i].callers.woken
       <==> exists j :: 0 <= j < i && c in run[j].callers.waiting && RousesCaller(run[j], steps[j], c)
                        && forall k :: j < k < i ==> !(steps[k].Run? && steps[k].call == c)
  {
    hide Inv, Enabled, Next, LeavesWorker, LeavesCaller, RousesWorker, RousesCaller;
    if i > 0 {
      WokenExactly(run, steps, i - 1, t, c);
      RunKeepsInv(run, steps, i - 1);
      WorkersNext(run[i - 1], steps[i - 1], t);
      CallersNext(run[i - 1], steps[i - 1], c);
    }
  }

  /** The pool runs until stop(). */
  lemma {:induction false} RunningExactly(run: seq<State>, steps: seq<Step>, i: nat)
    requires IsRun(run, steps) && i < |run|
    ensures run[i].running <==> forall j :: 0 <= j < i ==> steps[j] != Stop
  {
    hide Enabled, Next;
    if i > 0 {
      RunningExactly(run, steps, i - 1);
      RunningNext(run[i - 1], steps[i - 1]);
    }
  }

  lemma RunningNext(s: State, step: Step)
    ensures Next(s, step).running <==> s.running && step != Stop
  {
    hide Park, Leave, Notify, NotifyAll, Wake;
  }

  lemma StoppedStays(s: State, step: Step)
    requires Inv(s) && Enabled(s, step) && (step == Stop || !s.running)
    ensures !Next(s, step).running && Next(s, step).workers.waiting == {}
  {
  }

  /** Once stop() has run, no worker waits for a task again. */
  lemma {:induction false} NoWorkerWaitsAfterStop(run: seq<State>, steps: seq<Step>, i: nat, j: nat)
    requires IsRun(run, steps) && i < j < |run| && steps[i] == Stop
    ensures !run[j].running && run[j].workers.waiting == {}
  {
    hide Inv, Enabled, Next;
    RunKeepsInv(run, steps, j - 1);
    if i < j - 1 { NoWorkerWaitsAfterStop(run, steps, i, j - 1); }
    StoppedStays(run[j - 1], steps[j - 1]);
  }

  /** With nobody woken, an idle worker means that every accepted task was started and no caller waits. */
  lemma AtRestAllIsStarted(run: seq<State>, steps: seq<Step>, i: nat)
    requires IsRun(run, steps) && i < |run| && run[i].workers.woken == {} && run[i].callers.woken == {}
    ensures run[i].workers.waiting != {} ==>
              StartedSoFar(run, steps, i) == AcceptedSoFar(run, steps, i) && run[i].callers.waiting == {}
    ensures run[i].callers.waiting != {} ==> IsFull(run[i]) && run[i].workers.waiting == {}
  {
    RunKeepsInv(run, steps, i);
    assert run[i].queue == [] ==> run[i].started + [] == run[i].accepted;
  }

  class ThreadPool {
    const maxQueueSize: nat
    const numThreads: nat
    var queue: seq<Task>
    var running: bool
    ghost var monitor: State

    ghost predicate Valid()
      reads this
    {
      monitor.queue == queue && monitor.maxQueueSize == maxQueueSize && monitor.running == running && Inv(monitor)
    }

    constructor Start(numThreads: nat, maxQueueSize: nat)
      ensures Valid() && this.numThreads == numThreads && monitor == Init(maxQueueSize)
    {
      this.numThreads, this.maxQueueSize := numThreads, maxQueueSize;
      queue, running := [], true;
      monitor := Init(maxQueueSize);
    }

    // Without threads the caller runs the task itself; otherwise one critical section, which may end waiting.
    method Run(ghost thread: Thread, task: Task, ghost notified: Option<Thread>)
      returns (inCaller: bool, finished: bool)
      requires Valid() && Enabled(monitor, Step.Run(Call(thread, task), notified))
      modifies this
      ensures Valid() && inCaller == (numThreads == 0)
      ensures inCaller ==> finished && monitor == old(monitor)
      ensures !inCaller ==> monitor == Next(old(monitor), Step.Run(Call(thread, task), notified))
      ensures !inCaller ==> finished == !IsFull(old(monitor))
    {
      hide Inv, Park, Leave, Notify;
      inCaller, finished := numThreads == 0, true;
      if !inCaller {
        ghost var step := Step.Run(Call(thread, task), notified);
        StepKeepsInv(monitor, step);
        if maxQueueSize > 0 && |queue| >= maxQueueSize {
          finished := false;
        } else {
          queue := queue + [task];
        }
        monitor := Next(monitor, step);
      }
    }

    // One critical section of take(): it waits, or returns a task, or after stop() possibly none.
    method Take(ghost thread: Thread, ghost next: Option<Call>) returns (waits: bool, task: Option<Task>)
      requires Valid() && Enabled(monitor, Step.Take(thread, next))
      modifies this
      ensures Valid() && monitor == Next(old(monitor), Step.Take(thread, next))
      ensures waits == (old(queue) == [] && running)
      ensures task == if old(queue) == [] then None else Some(old(queue)[0])
    {
      hide Inv, Park, Leave, Notify;
      ghost var step := Step.Take(thread, next);
      StepKeepsInv(monitor, step);
      waits, task := |queue| == 0 && running, None;
      if |queue| > 0 {
        task := Some(queue[0]);
        queue := queue[1..];
      }
      monitor := Next(monitor, step);
    }

    method Stop()
      requires Valid()
      modifies this
      ensures Valid() && monitor == Next(old(monitor), Step.Stop)
    {
      running := false;
      StepKeepsInv(monitor, Step.Stop);
      monitor := Next(monitor, Step.Stop);
    }
  }
}
