/** base/BoundedBlockingQueue.h: a monitor with two condition variables, for any number of threads.
    A step is one critical section: from taking the mutex to leaving it or to waiting. */
module BoundedBlockingQueue {
  import opened Monitor
  import opened Wrappers

  type Thread = nat

  // A call of put that is under way, with its argument.
  datatype Call<T> = Call(thread: Thread, x: T)

  // `put` and `taken` are all items that went in and came out.
  datatype State<T(==)> = State(queue: seq<T>, capacity: nat, takers: Side<Thread>, putters: Side<Call<T>>,
                                put: seq<T>, taken: seq<T>)

  datatype Step<T> =
    | Put(call: Call<T>, notified: Option<Thread>)
    | Take(thread: Thread, next: Option<Call<T>>)
    | WakeTaker(thread: Thread)
    | WakePutter(call: Call<T>)

  ghost function Init<T>(capacity: nat): State<T> {
    State([], capacity, NoThreads(), NoThreads(), [], [])
  }

  ghost predicate Outside<T>(s: State<T>, t: Thread) {
    t !in s.takers.waiting + s.takers.woken && forall c :: c in s.putters.waiting + s.putters.woken ==> c.thread != t
  }

  ghost predicate Full<T>(s: State<T>) {
    |s.queue| >= s.capacity
  }

  ghost predicate Enabled<T>(s: State<T>, step: Step<T>) {
    match step
    case Put(c, notified) => (Outside(s, c.thread) || c in s.putters.woken) && (Full(s) || Notifies(s.takers, notified))
    case Take(t, next) => (Outside(s, t) || t in s.takers.woken) && (s.queue == [] || Notifies(s.putters, next))
    case WakeTaker(t) => t in s.takers.waiting
    case WakePutter(c) => c in s.putters.waiting
  }

  ghost function Next<T>(s: State<T>, step: Step<T>): State<T> {
    match step
    case Put(c, notified) =>
      if Full(s) then s.(putters := Park(s.putters, c))
      else s.(queue := s.queue + [c.x], put := s.put + [c.x],
              putters := Leave(s.putters, c), takers := Notify(s.takers, notified))
    case Take(t, next) =>
      if s.queue == [] then s.(takers := Park(s.takers, t))
      else s.(queue := s.queue[1..], taken := s.taken + [s.queue[0]],
              takers := Leave(s.takers, t), putters := Notify(s.putters, next))
    case WakeTaker(t) => s.(takers := Wake(s.takers, t))
    case WakePutter(c) => s.(putters := Wake(s.putters, c))
  }

  // Enough threads have been woken for the items, and for the free places, that are there.
  ghost predicate Inv<T>(s: State<T>) {
    && |s.queue| <= s.capacity
    && Disjoint(s.takers) && Disjoint(s.putters)
    && (s.takers.waiting != {} ==> |s.queue| <= |s.takers.woken|)
    && (s.putters.waiting != {} ==> s.capacity - |s.queue| <= |s.putters.woken|)
    && s.taken + s.queue == s.put
  }

  ghost predicate IsRun<T>(run: seq<State<T>>, steps: seq<Step<T>>) {
    && |run| == |steps| + 1 && run[0] == Init(run[0].capacity)
    && forall i :: 0 <= i < |steps| ==> Enabled(run[i], steps[i]) && run[i + 1] == Next(run[i], steps[i])
  }

  lemma StepKeepsInv<T>(s: State<T>, step: Step<T>)
    requires Inv(s) && Enabled(s, step)
    ensures Inv(Next(s, step)) && Next(s, step).capacity == s.capacity
  {
    hide Park, Leave, Notify, Wake, Disjoint, Inside;
    match step
    case Put(c, notified) =>
      PutCounts(s, c, notified);
    case Take(t, next) =>
      TakeCounts(s, t, next);
      if s.queue != [] { assert s.queue == [s.queue[0]] + s.queue[1..]; }
    case WakeTaker(t) => WakeCounts(s.takers, t);
    case WakePutter(c) => WakeCounts(s.putters, c);
  }

  lemma PutCounts<T>(s: State<T>, c: Call<T>, notified: Option<Thread>)
    requires Inv(s) && Enabled(s, Put(c, notified))
    ensures var s' := Next(s, Put(c, notified));
            && Disjoint(s'.takers) && Disjoint(s'.putters)
            && (s'.takers.waiting != {} ==> |s'.queue| <= |s'.takers.woken|)
            && (s'.putters.waiting != {} ==> s.capacity - |s'.queue| <= |s'.putters.woken|)
  {
    if Full(s) {
      ParkCounts(s.putters, c);
    } else {
      LeaveCounts(s.putters, c);
      NotifyCounts(s.takers, notified);
    }
  }

  lemma TakeCounts<T>(s: State<T>, t: Thread, next: Option<Call<T>>)
    requires Inv(s) && Enabled(s, Take(t, next))
    ensures var s' := Next(s, Take(t, next));
            && Disjoint(s'.takers) && Disjoint(s'.putters)
            && (s'.takers.waiting != {} ==> |s'.queue| <= |s'.takers.woken|)
            && (s'.putters.waiting != {} ==> s.capacity - |s'.queue| <= |s'.putters.woken|)
  {
    if s.queue == [] {
      ParkCounts(s.takers, t);
    } else {
      LeaveCounts(s.takers, t);
      NotifyCounts(s.putters, next);
    }
  }

  // The item that a step of a run puts in, and the one it takes out.
  ghost function PutBy<T>(s: State<T>, step: Step<T>): seq<T> {
    if step.Put? && !Full(s) then [step.call.x] else []
  }

  ghost function TakenBy<T>(s: State<T>, step: Step<T>): seq<T> {
    if step.Take? && s.queue != [] then [s.queue[0]] else []
  }

  ghost function PutIn<T>(run: seq<State<T>>, steps: seq<Step<T>>, i: nat): seq<T>
    requires |run| == |steps| + 1 && i <= |steps|
  {
    if i == 0 then [] else PutIn(run, steps, i - 1) + PutBy(run[i - 1], steps[i - 1])
  }

  ghost function TakenOut<T>(run: seq<State<T>>, steps: seq<Step<T>>, i: nat): seq<T>
    requires |run| == |steps| + 1 && i <= |steps|
  {
    if i == 0 then [] else TakenOut(run, steps, i - 1) + TakenBy(run[i - 1], steps[i - 1])
  }

  lemma StepMoves<T>(s: State<T>, step: Step<T>)
    requires Enabled(s, step)
    ensures Next(s, step).put == s.put + PutBy(s, step) && Next(s, step).taken == s.taken + TakenBy(s, step)
  {
    hide Park, Leave, Notify, Wake;
    assert s.put + [] == s.put && s.taken + [] == s.taken;
  }

  /** In every state of every run: waiting takers mean no more items than woken takers, dually for putters, and
      the items taken out so far, followed by the queue, are the items put in so far, in order. */
  lemma {:induction false} RunKeepsInv<T>(run: seq<State<T>>, steps: seq<Step<T>>, i: nat)
    requires IsRun(run, steps) && i < |run|
    ensures Inv(run[i]) && run[i].capacity == run[0].capacity
    ensures run[i].put == PutIn(run, steps, i) && run[i].taken == TakenOut(run, steps, i)
    ensures TakenOut(run, steps, i) + run[i].queue == PutIn(run, steps, i)
  {
    hide Enabled, Next, Disjoint, PutBy, TakenBy;
    if i > 0 {
      RunKeepsInv(run, steps, i - 1);
      StepMoves(run[i - 1], steps[i - 1]);
      StepKeepsInv(run[i - 1], steps[i - 1]);
    } else {
      InitHasInv<T>(run[0].capacity);
    }
  }

  lemma InitHasInv<T>(capacity: nat)
    ensures Inv(Init<T>(capacity))
  {
  }

  // Whether a step leaves the taker waiting, and whether it notifies it, or it wakes spuriously.
  ghost predicate LeavesTaker<T>(s: State<T>, step: Step<T>, t: Thread) {
    step.Take? && step.thread == t && s.queue == []
  }

  ghost predicate RousesTaker<T>(s: State<T>, step: Step<T>, t: Thread) {
    step == WakeTaker(t) || (step.Put? && !Full(s) && step.notified == Some(t))
  }

  ghost predicate LeavesPutter<T>(s: State<T>, step: Step<T>, c: Call<T>) {
    step.Put? && step.call == c && Full(s)
  }

  ghost predicate RousesPutter<T>(s: State<T>, step: Step<T>, c: Call<T>) {
    step == WakePutter(c) || (step.Take? && s.queue != [] && step.next == Some(c))
  }

  lemma SidesAreDisjoint<T>(s: State<T>)
    requires Inv(s)
    ensures Disjoint(s.takers) && Disjoint(s.putters)
  {
  }

  lemma TakersNext<T>(s: State<T>, step: Step<T>, t: Thread)
    requires Inv(s) && Enabled(s, step)
    ensures var takers := Next(s, step).takers;
            && (t in takers.waiting <==> LeavesTaker(s, step, t) || (t in s.takers.waiting && !RousesTaker(s, step, t)))
            && (t in takers.woken <==> (t in s.takers.waiting && RousesTaker(s, step, t))
                                       || (t in s.takers.woken && !(step.Take? && step.thread == t)))
  {
    hide Inv;
    SidesAreDisjoint(s);
  }

  lemma PuttersNext<T>(s: State<T>, step: Step<T>, c: Call<T>)
    requires Inv(s) && Enabled(s, step)
    ensures var putters := Next(s, step).putters;
            && (c in putters.waiting
                <==> LeavesPutter(s, step, c) || (c in s.putters.waiting && !RousesPutter(s, step, c)))
            && (c in putters.woken <==> (c in s.putters.waiting && RousesPutter(s, step, c))
                                        || (c in s.putters.woken && !(step.Put? && step.call == c)))
  {
    hide Inv;
    SidesAreDisjoint(s);
  }

  ghost predicate TakerUnroused<T>(run: seq<State<T>>, steps: seq<Step<T>>, t: Thread, j: int, i: int)
    requires |run| == |steps| + 1 && 0 <= j <= i <= |steps|
  {
    forall k :: j < k < i ==> !RousesTaker(run[k], steps[k], t)
  }

  ghost predicate PutterUnroused<T>(run: seq<State<T>>, steps: seq<Step<T>>, c: Call<T>, j: int, i: int)
    requires |run| == |steps| + 1 && 0 <= j <= i <= |steps|
  {
    forall k :: j < k < i ==> !RousesPutter(run[k], steps[k], c)
  }

  /** Who waits: those whose call found no item, or no free place, and who have not been notified since. */
  lemma {:induction false} WaitingExactly<T>(run: seq<State<T>>, steps: seq<Step<T>>, i: nat, t: Thread, c: Call<T>)
    requires IsRun(run, steps) && i < |run|
    ensures t in run[i].takers.waiting
       <==> exists j :: 0 <= j < i && LeavesTaker(run[j], steps[j], t) && TakerUnroused(run, steps, t, j, i)
    ensures c in run[i].putters.waiting
       <==> exists j :: 0 <= j < i && LeavesPutter(run[j], steps[j], c) && PutterUnroused(run, steps, c, j, i)
  {
    hide Inv, Enabled, Next, LeavesTaker, LeavesPutter, RousesTaker, RousesPutter;
    if i > 0 {
      WaitingExactly(run, steps, i - 1, t, c);
      RunKeepsInv(run, steps, i - 1);
      TakersNext(run[i - 1], steps[i - 1], t);
      PuttersNext(run[i - 1], steps[i - 1], c);
      assert TakerUnroused(run, steps, t, i - 1, i) && PutterUnroused(run, steps, c, i - 1, i);
      forall j | 0 <= j < i - 1
        ensures TakerUnroused(run, steps, t, j, i)
           <==> TakerUnroused(run, steps, t, j, i - 1) && !RousesTaker(run[i - 1], steps[i - 1], t)
        ensures PutterUnroused(run, steps, c, j, i)
           <==> PutterUnroused(run, steps, c, j, i - 1) && !RousesPutter(run[i - 1], steps[i - 1], c)
      {
      }
    }
  }

  /** Who has been woken and has yet to run: those who were roused while waiting and whose call has not gone on
      since. */
  lemma {:induction false} WokenExactly<T>(run: seq<State<T>>, steps: seq<Step<T>>, i: nat, t: Thread, c: Call<T>)
    requires IsRun(run, steps) && i < |run|
    ensures t in run[i].takers.woken
       <==> exists j :: 0 <= j < i && t in run[j].takers.waiting && RousesTaker(run[j], steps[j], t)
                        && forall k :: j < k < i ==> !(steps[k].Take? && steps[k].thread == t)
    ensures c in run[i].putters.woken
       <==> exists j :: 0 <= j < i && c in run[j].putters.waiting && RousesPutter(run[j], steps[j], c)
                        && forall k :: j < k < i ==> !(steps[k].Put? && steps[k].call == c)
  {
    hide Inv, Enabled, Next, LeavesTaker, LeavesPutter, RousesTaker, RousesPutter;
    if i > 0 {
      WokenExactly(run, steps, i - 1, t, c);
      RunKeepsInv(run, steps, i - 1);
      TakersNext(run[i - 1], steps[i - 1], t);
      PuttersNext(run[i - 1], steps[i - 1], c);
    }
  }

  /** No wakeup is lost: a taker does not wait beside an item, nor a putter beside a free place, unless a thread that
      was woken for it is on its way. */
  lemma NoLostWakeup<T>(run: seq<State<T>>, steps: seq<Step<T>>, i: nat)
    requires IsRun(run, steps) && i < |run|
    ensures run[i].takers.waiting != {} && run[i].queue != [] ==> run[i].takers.woken != {}
    ensures run[i].putters.waiting != {} && |run[i].queue| < run[i].capacity ==> run[i].putters.woken != {}
  {
    RunKeepsInv(run, steps, i);
  }

  ghost predicate Stuck<T>(s: State<T>) {
    s.takers.waiting != {} && s.putters.waiting != {} && s.takers.woken == {} && s.putters.woken == {}
  }

  /** With capacity, takers and putters are never both blocked with nobody woken. */
  lemma NeverStuck<T>(run: seq<State<T>>, steps: seq<Step<T>>, i: nat)
    requires IsRun(run, steps) && i < |run| && run[0].capacity > 0
    ensures !Stuck(run[i])
  {
    RunKeepsInv(run, steps, i);
  }

  /** Without capacity nothing is ever put in or taken out. */
  lemma NothingPassesWithoutCapacity<T>(run: seq<State<T>>, steps: seq<Step<T>>, i: nat)
    requires IsRun(run, steps) && i < |run| && run[0].capacity == 0
    ensures PutIn(run, steps, i) == [] && TakenOut(run, steps, i) == []
  {
    RunKeepsInv(run, steps, i);
    NothingIn(run, steps, i);
  }

  lemma {:induction false} NothingIn<T>(run: seq<State<T>>, steps: seq<Step<T>>, i: nat)
    requires IsRun(run, steps) && i < |run| && run[0].capacity == 0
    ensures PutIn(run, steps, i) == []
  {
    if i > 0 {
      hide Enabled, Next, Inv;
      NothingIn(run, steps, i - 1);
      RunKeepsInv(run, steps, i - 1);
    }
  }

  /** So without capacity one taker and one putter block each other for good. */
  lemma StuckWithoutCapacity<T>(x: T) returns (run: seq<State<T>>, steps: seq<Step<T>>)
    ensures IsRun(run, steps) && run[0].capacity == 0 && Stuck(run[|steps|])
  {
    var s0: State<T> := Init(0);
    steps := [Take(0, None), Put(Call(1, x), None)];
    var s1 := Next(s0, steps[0]);
    run := [s0, s1, Next(s1, steps[1])];
    assert 0 in run[2].takers.waiting && Call(1, x) in run[2].putters.waiting;
  }

  // Sections of woken threads only: no arrivals and no spurious wakeups.
  ghost predicate OfWoken<T>(s: State<T>, step: Step<T>) {
    (step.Put? && step.call in s.putters.woken) || (step.Take? && step.thread in s.takers.woken)
  }

  ghost function Threads<T>(s: State<T>): nat {
    Inside(s.takers) + Inside(s.putters)
  }

  ghost function Woken<T>(s: State<T>): nat {
    |s.takers.woken| + |s.putters.woken|
  }

  /** Woken threads alone come to rest: each of their sections lets a thread out of the monitor, or leaves one fewer
      woken. */
  lemma WokenComeToRest<T>(s: State<T>, step: Step<T>)
    requires Inv(s) && Enabled(s, step) && OfWoken(s, step)
    ensures var s' := Next(s, step); Threads(s') < Threads(s) || (Threads(s') == Threads(s) && Woken(s') < Woken(s))
  {
    match step
    case Put(c, notified) =>
      if Full(s) {
        ParkCounts(s.putters, c);
      } else {
        LeaveCounts(s.putters, c);
        NotifyCounts(s.takers, notified);
      }
    case Take(t, next) =>
      if s.queue == [] {
        ParkCounts(s.takers, t);
      } else {
        LeaveCounts(s.takers, t);
        NotifyCounts(s.putters, next);
      }
  }

  /** A woken thread always has a section to run. */
  lemma WokenIsEnabled<T>(s: State<T>) returns (step: Step<T>)
    requires Woken(s) > 0
    ensures Enabled(s, step) && OfWoken(s, step)
  {
    var notified := if s.takers.waiting == {} then None else var t :| t in s.takers.waiting; Some(t);
    var next := if s.putters.waiting == {} then None else var c :| c in s.putters.waiting; Some(c);
    if s.putters.woken != {} {
      var c :| c in s.putters.woken;
      step := Put(c, notified);
    } else {
      assert s.takers.woken != {};
      var t :| t in s.takers.woken;
      step := Take(t, next);
    }
  }

  /** At rest a waiting taker means that every item ever put was taken and no putter waits; a waiting putter means
      that the queue is full and no taker waits. */
  lemma AtRestAllIsServed<T>(run: seq<State<T>>, steps: seq<Step<T>>, i: nat)
    requires IsRun(run, steps) && i < |run| && Woken(run[i]) == 0 && run[0].capacity > 0
    ensures run[i].takers.waiting != {} ==>
              TakenOut(run, steps, i) == PutIn(run, steps, i) && run[i].putters.waiting == {}
    ensures run[i].putters.waiting != {} ==> |run[i].queue| == run[i].capacity && run[i].takers.waiting == {}
  {
    RunKeepsInv(run, steps, i);
    assert run[i].queue == [] ==> run[i].taken + [] == run[i].put;
  }

  // The queue with its condition variables. One call is one critical section of put or take; a call that does not
  // finish has left its thread waiting, to call again once woken.
  class BoundedBlockingQueue<T> {
    const capacity: nat
    var queue: seq<T>
    ghost var monitor: State<T>

    ghost predicate Valid()
      reads this
    {
      monitor.queue == queue && monitor.capacity == capacity && Inv(monitor)
    }

    constructor (maxSize: nat)
      ensures Valid() && monitor == Init(maxSize)
    {
      capacity := maxSize;
      queue := [];
      monitor := Init(maxSize);
      new;
      InitHasInv<T>(maxSize);
    }

    method Put(ghost thread: Thread, x: T, ghost notified: Option<Thread>) returns (finished: bool)
      requires Valid() && Enabled(monitor, Step.Put(Call(thread, x), notified))
      modifies this
      ensures Valid() && monitor == Next(old(monitor), Step.Put(Call(thread, x), notified))
      ensures finished <==> |old(queue)| < capacity
    {
      hide Inv;
      ghost var step := Step.Put(Call(thread, x), notified);
      StepKeepsInv(monitor, step);
      if |queue| >= capacity {
        finished := false;
      } else {
        queue := queue + [x];
        finished := true;
      }
      monitor := Next(monitor, step);
    }

    method Take(ghost thread: Thread, ghost next: Option<Call<T>>) returns (front: Option<T>)
      requires Valid() && Enabled(monitor, Step.Take(thread, next))
      modifies this
      ensures Valid() && monitor == Next(old(monitor), Step.Take(thread, next))
      ensures front == if old(queue) == [] then None else Some(old(queue)[0])
    {
      hide Inv;
      ghost var step := Step.Take(thread, next);
      StepKeepsInv(monitor, step);
      if |queue| == 0 {
        front := None;
      } else {
        front := Some(queue[0]);
        queue := queue[1..];
      }
      monitor := Next(monitor, step);
    }
  }
}
