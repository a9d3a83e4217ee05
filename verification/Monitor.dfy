/** base/Condition.h: the threads at a condition variable. A woken thread has been notified, or woke spuriously, and
    has yet to take the mutex again. */
module Monitor {
  import opened Wrappers

  datatype Side<C> = Side(waiting: set<C>, woken: set<C>)

  function NoThreads<C>(): Side<C> {
    Side({}, {})
  }

  // A thread holds the mutex and waits.
  function Park<C>(side: Side<C>, c: C): Side<C> {
    Side(side.waiting + {c}, side.woken - {c})
  }

  // A thread holds the mutex and returns from its call.
  function Leave<C>(side: Side<C>, c: C): Side<C> {
    Side(side.waiting, side.woken - {c})
  }

  // notify() picks one of the waiting threads, if there are any.
  predicate Notifies<C>(side: Side<C>, chosen: Option<C>) {
    if chosen == None then side.waiting == {} else chosen.value in side.waiting
  }

  function Notify<C>(side: Side<C>, chosen: Option<C>): Side<C> {
    if chosen == None then side else Wake(side, chosen.value)
  }

  function Wake<C>(side: Side<C>, c: C): Side<C> {
    Side(side.waiting - {c}, side.woken + {c})
  }

  function NotifyAll<C>(side: Side<C>): Side<C> {
    Side({}, side.waiting + side.woken)
  }

  ghost predicate Disjoint<C>(side: Side<C>) {
    side.waiting !! side.woken
  }

  function Inside<C>(side: Side<C>): nat {
    |side.waiting| + |side.woken|
  }

  lemma ParkCounts<C>(side: Side<C>, c: C)
    requires Disjoint(side) && c !in side.waiting
    ensures Disjoint(Park(side, c))
    ensures |Park(side, c).woken| == |side.woken| - (if c in side.woken then 1 else 0)
    ensures Inside(Park(side, c)) == Inside(side) + (if c in side.woken then 0 else 1)
  {
  }

  lemma LeaveCounts<C>(side: Side<C>, c: C)
    requires Disjoint(side)
    ensures Disjoint(Leave(side, c))
    ensures |Leave(side, c).woken| == |side.woken| - (if c in side.woken then 1 else 0)
  {
  }

  lemma WakeCounts<C>(side: Side<C>, c: C)
    requires Disjoint(side) && c in side.waiting
    ensures Disjoint(Wake(side, c))
    ensures |Wake(side, c).woken| == |side.woken| + 1 && Inside(Wake(side, c)) == Inside(side)
  {
  }

  lemma NotifyCounts<C>(side: Side<C>, chosen: Option<C>)
    requires Disjoint(side) && Notifies(side, chosen)
    ensures Disjoint(Notify(side, chosen)) && Inside(Notify(side, chosen)) == Inside(side)
    ensures |Notify(side, chosen).woken| == |side.woken| + (if side.waiting == {} then 0 else 1)
    ensures side.waiting == {} ==> Notify(side, chosen) == side
  {
  }
}
