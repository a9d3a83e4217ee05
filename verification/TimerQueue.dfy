/** net/TimerQueue.cc and net/Timer.cc: timers in a set ordered by expiration, and the timerfd that fires for the first.
    Times are in microseconds. Callbacks may add and cancel while a batch of expired timers is running. */
module TimerQueue {

  // `address` orders timers that expire at the same time, as the pointer does.
  class Timer {
    const address: int
    const interval: int
    const repeat: bool := interval > 0
    var expiration: int

    constructor (address: int, when: int, interval: int)
      ensures this.address == address && this.interval == interval && expiration == when
    {
      this.address, this.interval, expiration := address, interval, when;
    }

    method Restart(now: int)
      modifies this
      ensures expiration == if repeat then now + interval else INVALID
    {
      if repeat {
        expiration := now + interval;
      } else {
        expiration := INVALID;
      }
    }
  }

  const INVALID := 0
  const MICROS_PER_SECOND := 1_000_000
  const MIN_DELAY := 100

  datatype Entry = Entry(when: int, timer: Timer)

  datatype Timespec = Timespec(sec: int, nsec: int)

  // Armed at time `at` to fire once, at `deadline`; it stays readable after that until it is read or armed anew.
  datatype Alarm = Disarmed | Armed(at: int, deadline: int)

  // `known` holds the expiration of every timer added so far. While `calling`, `batch` are the timers that had expired
  // at `now`, and the callbacks of the first `ran` of them have been called.
  datatype State = State(clock: int, timers: seq<Entry>, known: map<Timer, int>, calling: bool, canceling: set<Entry>,
                         batch: seq<Entry>, ran: nat, now: int, fd: Alarm)

  // `clock` is the time of a step's last reading of the clock. `locked`: the weak pointer could be locked.
  datatype Step =
    | Add(timer: Timer, when: int, clock: int)
    | Cancel(timer: Timer, locked: bool)
    | Begin(now: int, clock: int)
    | Run
    | End(clock: int)

  function Init(clock: int): State {
    State(clock, [], map[], false, {}, [], 0, clock, Disarmed)
  }

  function Max(a: int, b: int): int {
    if a < b then b else a
  }

  function Micros(ts: Timespec): int {
    ts.sec * MICROS_PER_SECOND + ts.nsec / 1000
  }

  function HowMuchTimeFromNow(when: int, now: int): (ts: Timespec)
    ensures 0 <= ts.nsec < 1_000_000_000
    ensures ts.sec * 1_000_000 + ts.nsec / 1000 == Max(when - now, 100) && ts.nsec % 1000 == 0
  {
    var microseconds := if when - now < MIN_DELAY then MIN_DELAY else when - now;
    Timespec(microseconds / MICROS_PER_SECOND, microseconds % MICROS_PER_SECOND * 1000)
  }

  function ResetTimerfd(when: int, now: int): (fd: Alarm)
    ensures fd == Armed(now, Max(when, now + MIN_DELAY))
  {
    Armed(now, now + Micros(HowMuchTimeFromNow(when, now)))
  }

  // The set

  predicate Less(a: Entry, b: Entry) {
    a.when < b.when || (a.when == b.when && a.timer.address < b.timer.address)
  }

  ghost predicate Sorted(es: seq<Entry>) {
    forall i, j :: 0 <= i < j < |es| ==> Less(es[i], es[j])
  }

  function Inserted(es: seq<Entry>, e: Entry): seq<Entry> {
    if es == [] || Less(e, es[0]) then [e] + es else [es[0]] + Inserted(es[1..], e)
  }

  function Erased(es: seq<Entry>, e: Entry): seq<Entry> {
    if es == [] then [] else if es[0] == e then es[1..] else [es[0]] + Erased(es[1..], e)
  }

  // How many entries at the front are due.
  function Due(es: seq<Entry>, now: int): (n: nat)
    ensures n <= |es|
  {
    if es == [] || es[0].when > now then 0 else 1 + Due(es[1..], now)
  }

  lemma {:induction false} InsertedContents(es: seq<Entry>, e: Entry, x: Entry)
    ensures x in Inserted(es, e) <==> x in es || x == e
  {
    if es != [] && !Less(e, es[0]) {
      InsertedContents(es[1..], e, x);
      assert es == [es[0]] + es[1..];
    }
  }

  lemma {:induction false} InsertedSorted(es: seq<Entry>, e: Entry)
    requires Sorted(es) && forall x :: x in es ==> Less(x, e) || Less(e, x)
    ensures Sorted(Inserted(es, e))
    ensures Inserted(es, e)[0] == if es == [] || Less(e, es[0]) then e else es[0]
  {
    if es != [] && !Less(e, es[0]) {
      InsertedSorted(es[1..], e);
      var rest := Inserted(es[1..], e);
      forall x | x in rest ensures Less(es[0], x) {
        InsertedContents(es[1..], e, x);
      }
    }
  }

  lemma {:induction false} ErasedContents(es: seq<Entry>, e: Entry, x: Entry)
    requires Sorted(es)
    ensures x in Erased(es, e) <==> x in es && x != e
  {
    if es != [] {
      assert es == [es[0]] + es[1..];
      ErasedContents(es[1..], e, x);
    }
  }

  lemma {:induction false} ErasedSorted(es: seq<Entry>, e: Entry)
    requires Sorted(es)
    ensures Sorted(Erased(es, e))
  {
    if es != [] && es[0] != e {
      ErasedSorted(es[1..], e);
      forall x | x in Erased(es[1..], e) ensures Less(es[0], x) {
        ErasedContents(es[1..], e, x);
      }
    }
  }

  lemma {:induction false} DueSplits(es: seq<Entry>, now: int)
    requires Sorted(es)
    ensures forall i :: 0 <= i < |es| ==> (i < Due(es, now) <==> es[i].when <= now)
  {
    if es != [] {
      DueSplits(es[1..], now);
      forall i | 0 <= i < |es| ensures i < Due(es, now) <==> es[i].when <= now {
        if i > 0 { assert es[i] == es[1..][i - 1]; }
      }
    }
  }

  // Steps

  predicate Alive(s: State, e: Entry) {
    e in s.timers || e in s.batch || e in s.canceling
  }

  ghost predicate AddressFree(es: seq<Entry>, timer: Timer) {
    forall e :: e in es ==> e.timer.address != timer.address
  }

  ghost predicate Enabled(s: State, step: Step) {
    match step
    case Add(t, _, clock) => s.clock <= clock && t !in s.known && AddressFree(s.timers, t) && AddressFree(s.batch, t)
    case Cancel(t, locked) => t in s.known && (Alive(s, Entry(s.known[t], t)) ==> locked)
    case Begin(now, clock) => !s.calling && s.clock <= now <= clock
    case Run => s.calling && s.ran < |s.batch|
    case End(clock) => s.calling && s.ran == |s.batch| && s.clock <= clock
  }

  predicate EarliestChanged(es: seq<Entry>, when: int) {
    es == [] || when < es[0].when
  }

  function AddTimer(s: State, t: Timer, when: int, clock: int): State {
    s.(clock := clock, timers := Inserted(s.timers, Entry(when, t)), known := s.known[t := when],
       fd := if EarliestChanged(s.timers, when) then ResetTimerfd(when, clock) else s.fd)
  }

  function CancelTimer(s: State, t: Timer, locked: bool): State
    requires t in s.known
  {
    var e := Entry(s.known[t], t);
    if !locked then s
    else if e in s.timers then s.(timers := Erased(s.timers, e))
    else if s.calling then s.(canceling := s.canceling + {e})
    else s
  }

  // The clock is read before the timerfd, which may have been armed anew since poll returned.
  function BeginBatch(s: State, now: int, clock: int): State {
    var n := Due(s.timers, now);
    s.(clock := clock, fd := if s.fd.Armed? && s.fd.deadline <= clock then Disarmed else s.fd,
       timers := s.timers[n..], batch := s.timers[..n], ran := 0, now := now, calling := true, canceling := {})
  }

  predicate Repeats(s: State, e: Entry) {
    e.timer.repeat && e !in s.canceling
  }

  function RestartOne(s: State, e: Entry): State {
    if Repeats(s, e) then
      var when := s.now + e.timer.interval;
      s.(known := s.known[e.timer := when], timers := Inserted(s.timers, Entry(when, e.timer)))
    else s
  }

  // The loop of reset after k turns.
  function Restarted(s: State, k: nat): (r: State)
    requires k <= |s.batch|
    ensures r == s.(known := r.known, timers := r.timers)
  {
    if k == 0 then s else RestartOne(Restarted(s, k - 1), s.batch[k - 1])
  }

  function Rearmed(es: seq<Entry>, fd: Alarm, clock: int): Alarm {
    if es != [] && es[0].when > INVALID then ResetTimerfd(es[0].when, clock) else fd
  }

  function EndBatch(s: State, clock: int): State {
    var r := Restarted(s, |s.batch|);
    r.(clock := clock, calling := false, batch := [], ran := 0, fd := Rearmed(r.timers, r.fd, clock))
  }

  ghost function Next(s: State, step: Step): State
    requires Enabled(s, step)
  {
    match step
    case Add(t, when, clock) => AddTimer(s, t, when, clock)
    case Cancel(t, locked) => CancelTimer(s, t, locked)
    case Begin(now, clock) => BeginBatch(s, now, clock)
    case Run => s.(ran := s.ran + 1)
    case End(clock) => EndBatch(s, clock)
  }

  // Invariants

  ghost predicate Keyed(es: seq<Entry>, known: map<Timer, int>) {
    forall e :: e in es ==> e.timer in known && known[e.timer] == e.when
  }

  ghost predicate OneAddress(es: seq<Entry>) {
    forall x, y :: x in es && y in es && x.timer.address == y.timer.address ==> x == y
  }

  ghost predicate Apart(es: seq<Entry>, fs: seq<Entry>) {
    forall x, y :: x in es && y in fs ==> x.timer.address != y.timer.address
  }

  // The entries of `timers` and of what is left of the batch.
  ghost predicate Entries(s: State, rest: seq<Entry>) {
    && Sorted(s.timers) && Sorted(rest)
    && Keyed(s.timers, s.known) && Keyed(rest, s.known)
    && OneAddress(s.timers) && OneAddress(rest) && Apart(s.timers, rest)
  }

  // The timerfd fires no later than at `when`, or 100 microseconds after it was armed.
  predicate Covers(fd: Alarm, when: int) {
    fd.Armed? && fd.deadline <= Max(when, fd.at + MIN_DELAY)
  }

  predicate Timely(s: State) {
    s.timers != [] && (!s.calling || s.timers[0].when <= INVALID) ==> Covers(s.fd, s.timers[0].when)
  }

  ghost predicate Clocked(s: State) {
    && 0 < s.now <= s.clock
    && (s.fd.Armed? ==> s.fd.at <= s.clock)
    && s.ran <= |s.batch| && (!s.calling ==> s.batch == [])
    && forall e :: e in s.batch ==> e.when <= s.now
  }

  ghost predicate Inv(s: State) {
    Entries(s, s.batch) && Clocked(s) && Timely(s)
  }

  ghost predicate IsRun(run: seq<State>, steps: seq<Step>) {
    && |run| == |steps| + 1 && run[0] == Init(run[0].clock) && run[0].clock > 0
    && forall i :: 0 <= i < |steps| ==> Enabled(run[i], steps[i]) && run[i + 1] == Next(run[i], steps[i])
  }

  // A timer whose address is free can be inserted.
  lemma InsertKeepsEntries(s: State, t: Timer, when: int, rest: seq<Entry>)
    requires Entries(s, rest) && AddressFree(s.timers, t) && AddressFree(rest, t)
    ensures Entries(s.(known := s.known[t := when], timers := Inserted(s.timers, Entry(when, t))), rest)
    ensures var es := Inserted(s.timers, Entry(when, t));
            es[0].when == if EarliestChanged(s.timers, when) then when else s.timers[0].when
  {
    var e := Entry(when, t);
    InsertedSorted(s.timers, e);
    forall x | x in Inserted(s.timers, e) ensures x in s.timers || x == e {
      InsertedContents(s.timers, e, x);
    }
    hide Inserted;
  }

  lemma AddKeepsInv(s: State, t: Timer, when: int, clock: int)
    requires Inv(s) && Enabled(s, Add(t, when, clock))
    ensures Inv(AddTimer(s, t, when, clock))
  {
    InsertKeepsEntries(s, t, when, s.batch);
    hide Inserted, Entries;
  }

  lemma EraseKeepsInv(s: State, e: Entry)
    requires Inv(s)
    ensures Inv(s.(timers := Erased(s.timers, e)))
  {
    ErasedSorted(s.timers, e);
    var es := Erased(s.timers, e);
    forall x | x in es ensures x in s.timers {
      ErasedContents(s.timers, e, x);
    }
    hide Erased;
    if es != [] { assert es[0] in s.timers; }
  }

  lemma SplitKeepsEntries(s: State, n: nat)
    requires Entries(s, []) && n <= |s.timers|
    ensures Entries(s.(timers := s.timers[n..]), s.timers[..n])
  {
  }

  lemma BeginKeepsInv(s: State, now: int, clock: int)
    requires Inv(s) && Enabled(s, Begin(now, clock))
    ensures Inv(BeginBatch(s, now, clock))
  {
    var n := Due(s.timers, now);
    assert forall e :: e in s.timers[..n] ==> e.when <= now by { DueSplits(s.timers, now); }
    assert s.timers[n..] != [] ==> s.timers[n..][0].when > now by { DueSplits(s.timers, now); }
    assert s.batch == [];
    SplitKeepsEntries(s, n);
    hide Due, Entries;
  }

  predicate CoveredIfPast(s: State) {
    s.timers != [] && s.timers[0].when <= INVALID ==> Covers(s.fd, s.timers[0].when)
  }

  lemma RestartOneKeepsEntries(s: State, e: Entry, rest: seq<Entry>)
    requires Entries(s, [e] + rest) && s.now > 0 && CoveredIfPast(s)
    ensures Entries(RestartOne(s, e), rest) && CoveredIfPast(RestartOne(s, e))
  {
    DropKeepsEntries(s, e, rest);
    if Repeats(s, e) { InsertKeepsEntries(s, e.timer, s.now + e.timer.interval, rest); }
    hide Entries, Inserted;
  }

  // What the loop of reset keeps.
  lemma {:induction false} RestartKeepsEntries(s: State, k: nat)
    requires Entries(s, s.batch) && k <= |s.batch| && s.now > 0 && CoveredIfPast(s)
    ensures Entries(Restarted(s, k), s.batch[k..]) && CoveredIfPast(Restarted(s, k))
  {
    hide Entries, CoveredIfPast, Restarted, RestartOne;
    if k > 0 {
      RestartKeepsEntries(s, k - 1);
      RestartedNext(s, k - 1);
      assert s.batch[k - 1..] == [s.batch[k - 1]] + s.batch[k..];
      RestartOneKeepsEntries(Restarted(s, k - 1), s.batch[k - 1], s.batch[k..]);
    } else {
      RestartedNone(s);
      assert s.batch[k..] == s.batch;
    }
  }

  lemma DropKeepsEntries(s: State, e: Entry, rest: seq<Entry>)
    requires Entries(s, [e] + rest)
    ensures Entries(s, rest) && AddressFree(s.timers, e.timer) && AddressFree(rest, e.timer)
  {
    var all := [e] + rest;
    assert e == all[0];
    forall i | 0 <= i < |rest| ensures rest[i] == all[i + 1] {}
    forall x | x in rest ensures x in all && x.timer.address != e.timer.address {
      var i :| 0 <= i < |rest| && rest[i] == x;
      assert Less(all[0], all[i + 1]);
    }
  }

  lemma EndKeepsInv(s: State, clock: int)
    requires Inv(s) && Enabled(s, End(clock))
    ensures Inv(EndBatch(s, clock))
  {
    RestartKeepsEntries(s, |s.batch|);
    hide Restarted;
  }

  lemma EndFacts(s: State, clock: int)
    requires Inv(s) && Enabled(s, End(clock))
    ensures Inv(EndBatch(s, clock)) && Keyed(s.batch, s.known)
    ensures var r := Restarted(s, |s.batch|);
            r.timers != [] ==> r.timers[0].timer in r.known && r.known[r.timers[0].timer] == r.timers[0].when
  {
    EndKeepsInv(s, clock);
    RestartKeepsEntries(s, |s.batch|);
    hide Restarted;
  }

  lemma StepKeepsInv(s: State, step: Step)
    requires Inv(s) && Enabled(s, step)
    ensures Inv(Next(s, step))
  {
    hide Inserted, Erased;
    match step
    case Add(t, when, clock) => AddKeepsInv(s, t, when, clock);
    case Cancel(t, locked) => EraseKeepsInv(s, Entry(s.known[t], t));
    case Begin(now, clock) => BeginKeepsInv(s, now, clock);
    case Run =>
    case End(clock) => EndKeepsInv(s, clock);
  }

  lemma {:induction false} RunKeepsInv(run: seq<State>, steps: seq<Step>, i: nat)
    requires IsRun(run, steps) && i < |run|
    ensures Inv(run[i])
  {
    if i > 0 {
      hide Inv, Enabled, Next;
      RunKeepsInv(run, steps, i - 1);
      StepKeepsInv(run[i - 1], steps[i - 1]);
    }
  }

  /** No timer occurs twice in the set and the running batch, and each is keyed by its expiration. */
  lemma EachTimerOnce(run: seq<State>, steps: seq<Step>, i: nat)
    requires IsRun(run, steps) && i < |run|
    ensures var all := run[i].timers + run[i].batch;
            && Keyed(all, run[i].known)
            && forall j, k :: 0 <= j < k < |all| ==> all[j].timer != all[k].timer
  {
    RunKeepsInv(run, steps, i);
    var es, fs := run[i].timers, run[i].batch;
    var all := es + fs;
    forall j, k | 0 <= j < k < |all| ensures all[j].timer != all[k].timer {
      if k < |es| {
        assert Less(es[j], es[k]);
      } else if j >= |es| {
        assert Less(fs[j - |es|], fs[k - |es|]);
      } else {
        assert es[j] in es && fs[k - |es|] in fs;
      }
    }
  }

  /** getExpired takes out exactly the timers due by now, in order of expiration. */
  lemma BatchIsWhatIsDue(run: seq<State>, steps: seq<Step>, i: nat)
    requires IsRun(run, steps) && i < |steps| && steps[i].Begin?
    ensures run[i + 1].batch + run[i + 1].timers == run[i].timers && Sorted(run[i].timers)
    ensures forall e :: e in run[i + 1].batch ==> e.when <= steps[i].now
    ensures forall e :: e in run[i + 1].timers ==> e.when > steps[i].now
  {
    RunKeepsInv(run, steps, i);
    DueSplits(run[i].timers, steps[i].now);
  }

  /** A callback runs no earlier than its timer expires. */
  lemma NoneRunsEarly(run: seq<State>, steps: seq<Step>, i: nat)
    requires IsRun(run, steps) && i < |steps| && steps[i] == Run
    ensures var e := run[i].batch[run[i].ran];
            e.timer in run[i].known && run[i].known[e.timer] == e.when <= run[i].now <= run[i].clock
  {
    RunKeepsInv(run, steps, i);
  }

  /** Outside of a running batch, the timerfd is armed for the first timer whenever there is one: it has fired, or will
      by that timer's expiration, or 100 microseconds after it was armed if that is later. */
  lemma AlarmIsSet(run: seq<State>, steps: seq<Step>, i: nat)
    requires IsRun(run, steps) && i < |run| && !run[i].calling && run[i].timers != []
    ensures run[i].fd.Armed? && run[i].fd.at <= run[i].clock
    ensures forall e :: e in run[i].timers ==> run[i].fd.deadline <= Max(e.when, run[i].fd.at + 100)
  {
    RunKeepsInv(run, steps, i);
    forall e | e in run[i].timers ensures run[i].timers[0].when <= e.when {
      var j :| 0 <= j < |run[i].timers| && run[i].timers[j] == e;
      if j > 0 { assert Less(run[i].timers[0], run[i].timers[j]); }
    }
  }

  lemma AlarmNext(s: State, step: Step)
    requires Inv(s) && Enabled(s, step)
    ensures var s' := Next(s, step);
            || s'.fd == s.fd || (step.Begin? && s'.fd == Disarmed)
            || ((step.Add? || step.End?) && s'.timers != []
                && s'.fd == Armed(s'.clock, Max(s'.timers[0].when, s'.clock + 100)))
    ensures step.Begin? ==> (Next(s, step).fd == Disarmed <==> s.fd == Disarmed || s.fd.deadline <= step.clock)
  {
    hide Inv, Restarted, Due, Inserted, Erased;
    if step.Add? {
      EarliestIsFirst(s.timers, Entry(step.when, step.timer));
    }
  }

  lemma EarliestIsFirst(es: seq<Entry>, e: Entry)
    ensures Inserted(es, e) != [] && (EarliestChanged(es, e.when) ==> Inserted(es, e)[0] == e)
  {
  }

  /** The timerfd is only ever armed for the first timer of the set, for its expiration or 100 microseconds from then;
      and a batch begins by reading an alarm that has fired, so that it does not fire again. */
  lemma AlarmIsForTheFirst(run: seq<State>, steps: seq<Step>, i: nat)
    requires IsRun(run, steps) && i < |steps|
    ensures run[i + 1].fd.Armed? && run[i + 1].fd != run[i].fd ==>
              && (steps[i].Add? || steps[i].End?) && run[i + 1].timers != []
              && run[i + 1].fd == Armed(run[i + 1].clock, Max(run[i + 1].timers[0].when, run[i + 1].clock + 100))
    ensures steps[i].Begin? ==>
              run[i + 1].fd == Disarmed || (run[i + 1].fd == run[i].fd && run[i + 1].fd.deadline > run[i + 1].clock)
    ensures run[i + 1].fd == Disarmed && run[i].fd.Armed? ==> steps[i].Begin? && run[i].fd.deadline <= steps[i].clock
  {
    hide Inv, Next, Enabled;
    RunKeepsInv(run, steps, i);
    AlarmNext(run[i], steps[i]);
    if steps[i].Begin? { BeginReadsClock(run[i], steps[i]); }
  }

  lemma BeginReadsClock(s: State, step: Step)
    requires Enabled(s, step) && step.Begin?
    ensures Next(s, step).clock == step.clock
  {
  }

  ghost predicate Out(s: State, t: Timer) {
    forall e :: e in s.timers ==> e.timer != t
  }

  ghost predicate Cancelled(s: State, t: Timer) {
    t in s.known && Out(s, t) && forall e :: e in s.batch && e.timer == t ==> e in s.canceling
  }

  lemma CancelCancels(s: State, t: Timer, locked: bool)
    requires Inv(s) && Enabled(s, Cancel(t, locked))
    ensures Cancelled(CancelTimer(s, t, locked), t)
  {
    var e := Entry(s.known[t], t);
    forall x | x in Erased(s.timers, e) ensures x in s.timers && x != e {
      ErasedContents(s.timers, e, x);
    }
    hide Erased;
  }

  // Whether the timer of the i-th entry of the batch is back in the set after k turns of reset.
  lemma {:induction false} RestartedTimers(s: State, k: nat, t: Timer)
    requires k <= |s.batch| && Out(s, t)
    requires forall i :: 0 <= i < k && s.batch[i].timer == t ==> !Repeats(s, s.batch[i])
    ensures Out(Restarted(s, k), t)
  {
    if k > 0 {
      RestartedTimers(s, k - 1, t);
      var r, e := Restarted(s, k - 1), s.batch[k - 1];
      var again := Entry(s.now + e.timer.interval, e.timer);
      forall x | x in Inserted(r.timers, again) ensures x in r.timers || x == again {
        InsertedContents(r.timers, again, x);
      }
      hide Inserted;
    }
  }

  lemma StaysCancelled(s: State, step: Step, t: Timer)
    requires Inv(s) && Enabled(s, step) && Cancelled(s, t)
    ensures Cancelled(Next(s, step), t)
  {
    match step
    case Add(u, when, _) =>
      forall x | x in Inserted(s.timers, Entry(when, u)) ensures x in s.timers || x.timer == u {
        InsertedContents(s.timers, Entry(when, u), x);
      }
    case Cancel(u, _) =>
      var e := Entry(s.known[u], u);
      forall x | x in Erased(s.timers, e) ensures x in s.timers {
        ErasedContents(s.timers, e, x);
      }
    case Begin(_, _) =>
    case Run =>
    case End(_) =>
      RestartedTimers(s, |s.batch|, t);
      RestartedKnows(s, |s.batch|, t);
  }

  lemma {:induction false} RestartedKnows(s: State, k: nat, t: Timer)
    requires k <= |s.batch| && t in s.known
    ensures t in Restarted(s, k).known
  {
    if k > 0 { RestartedKnows(s, k - 1, t); }
  }

  /** A timer that has been cancelled, even by a callback of its own batch, is never in the set again. */
  lemma {:induction false} CancelledStaysOut(run: seq<State>, steps: seq<Step>, i: nat, j: nat)
    requires IsRun(run, steps) && i < j < |run| && steps[i].Cancel?
    ensures Cancelled(run[j], steps[i].timer)
  {
    hide Inv, Next, Cancelled;
    RunKeepsInv(run, steps, j - 1);
    if i + 1 == j {
      hide Inv, Cancelled;
      CancelCancels(run[i], steps[i].timer, steps[i].locked);
      CancelStep(run[i], steps[i]);
    } else {
      hide Enabled;
      CancelledStaysOut(run, steps, i, j - 1);
      StaysCancelled(run[j - 1], steps[j - 1], steps[i].timer);
    }
  }

  lemma CancelStep(s: State, step: Step)
    requires Enabled(s, step) && step.Cancel?
    ensures Next(s, step) == CancelTimer(s, step.timer, step.locked)
  {
  }

  // The timers of entries of a batch differ.
  lemma BatchTimersDiffer(s: State, i: nat, j: nat)
    requires Entries(s, s.batch) && i < j < |s.batch|
    ensures s.batch[i].timer != s.batch[j].timer
  {
  }

  lemma {:induction false} RestartedAgain(s: State, k: nat, i: nat)
    requires i < k <= |s.batch| && Repeats(s, s.batch[i])
    ensures Entry(s.now + s.batch[i].timer.interval, s.batch[i].timer) in Restarted(s, k).timers
  {
    hide Inserted, Restarted;
    RestartedNext(s, k - 1);
    var r, e := Restarted(s, k - 1), s.batch[k - 1];
    if i + 1 < k { RestartedAgain(s, k - 1, i); }
    InsertedContents(r.timers, Entry(s.now + e.timer.interval, e.timer),
                     Entry(s.now + s.batch[i].timer.interval, s.batch[i].timer));
  }

  // The batch that step b began is still running before step i.
  ghost predicate InBatch(steps: seq<Step>, b: nat, i: nat)
    requires i <= |steps|
  {
    b < i && steps[b].Begin? && forall j :: b < j < i ==> !steps[j].End?
  }

  predicate IsCancel(step: Step, t: Timer) {
    step.Cancel? && step.timer == t
  }

  ghost predicate CancelledBetween(steps: seq<Step>, b: nat, i: nat, t: Timer)
    requires i <= |steps|
  {
    exists j :: b < j < i && IsCancel(steps[j], t)
  }

  /** Every batch that ends was begun, and is the one that was. */
  lemma {:induction false} BatchBegan(run: seq<State>, steps: seq<Step>, i: nat) returns (b: nat)
    requires IsRun(run, steps) && i < |run| && run[i].calling
    ensures InBatch(steps, b, i)
  {
    hide Inserted, Erased, Due, Restarted;
    if steps[i - 1].Begin? {
      b := i - 1;
    } else {
      b := BatchBegan(run, steps, i - 1);
    }
  }

  lemma {:induction false} BatchStays(run: seq<State>, steps: seq<Step>, b: nat, i: nat)
    requires IsRun(run, steps) && i < |run| && InBatch(steps, b, i)
    ensures run[i].calling && run[i].batch == run[b + 1].batch && run[i].now == steps[b].now
  {
    hide Inserted, Erased, Due, Restarted;
    if b + 1 < i { BatchStays(run, steps, b, i - 1); }
  }

  lemma BeginClears(s: State, step: Step)
    requires Enabled(s, step) && step.Begin?
    ensures Next(s, step).canceling == {}
  {
  }

  lemma StepCancels(s: State, step: Step, e: Entry)
    requires Inv(s) && Enabled(s, step) && s.calling && !step.End? && e in s.batch
    ensures e in Next(s, step).canceling <==> e in s.canceling || IsCancel(step, e.timer)
  {
    hide Inserted, Erased, Due, Sorted;
  }

  /** The set that reset looks in holds the timers of the batch that have been cancelled since it began. */
  lemma {:induction false} CancelingExactly(run: seq<State>, steps: seq<Step>, b: nat, i: nat, e: Entry)
    requires IsRun(run, steps) && i < |run| && InBatch(steps, b, i) && e in run[i].batch
    ensures e in run[i].canceling <==> CancelledBetween(steps, b, i, e.timer)
  {
    hide Inv, Next, Enabled;
    if b + 1 < i {
      BatchStays(run, steps, b, i);
      BatchStays(run, steps, b, i - 1);
      CancelingExactly(run, steps, b, i - 1, e);
      RunKeepsInv(run, steps, i - 1);
      StepCancels(run[i - 1], steps[i - 1], e);
    } else {
      BeginClears(run[b], steps[b]);
    }
  }

  lemma ResetRestarts(s: State, clock: int, k: nat)
    requires Inv(s) && Enabled(s, End(clock)) && k < |s.batch|
    ensures var e := s.batch[k];
            if Repeats(s, e) then Entry(s.now + e.timer.interval, e.timer) in EndBatch(s, clock).timers
            else Out(EndBatch(s, clock), e.timer)
  {
    var e := s.batch[k];
    if Repeats(s, e) {
      RestartedAgain(s, |s.batch|, k);
    } else {
      forall j | 0 <= j < |s.batch| && s.batch[j].timer == e.timer ensures j == k {
        if j < k { BatchTimersDiffer(s, j, k); } else if k < j { BatchTimersDiffer(s, k, j); }
      }
      RestartedTimers(s, |s.batch|, e.timer);
    }
  }

  /** When a batch ends, each of its timers is in the set again, an interval after the batch began, if and only if it
      repeats and has not been cancelled since. */
  lemma RepeatsAnIntervalLater(run: seq<State>, steps: seq<Step>, b: nat, i: nat, k: nat)
    requires IsRun(run, steps) && i < |steps| && InBatch(steps, b, i) && steps[i].End? && k < |run[i].batch|
    ensures var t := run[i].batch[k].timer;
            if t.interval > 0 && !CancelledBetween(steps, b, i, t)
            then Entry(steps[b].now + t.interval, t) in run[i + 1].timers
            else Out(run[i + 1], t)
  {
    RunKeepsInv(run, steps, i);
    BatchStays(run, steps, b, i);
    CancelingExactly(run, steps, b, i, run[i].batch[k]);
    ResetRestarts(run[i], steps[i].clock, k);
  }

  // No timer is lost

  // In the set, or in the batch with its callback still to be called.
  ghost predicate Waiting(s: State, t: Timer) {
    !Out(s, t) || exists k :: s.ran <= k < |s.batch| && s.batch[k].timer == t
  }

  ghost predicate Held(s: State, t: Timer) {
    !Out(s, t) || exists k :: 0 <= k < |s.batch| && s.batch[k].timer == t
  }

  predicate CallsBack(s: State, step: Step, t: Timer) {
    step == Run && s.ran < |s.batch| && s.batch[s.ran].timer == t
  }

  lemma {:induction false} RestartedKeeps(s: State, k: nat, e: Entry)
    requires k <= |s.batch| && e in s.timers
    ensures e in Restarted(s, k).timers
  {
    if k > 0 {
      RestartedKeeps(s, k - 1, e);
      var r, f := Restarted(s, k - 1), s.batch[k - 1];
      InsertedContents(r.timers, Entry(s.now + f.timer.interval, f.timer), e);
    }
  }

  // An entry of the set stays there, until it is cancelled or its timer expires.
  lemma StepKeepsEntry(s: State, step: Step, e: Entry)
    requires Inv(s) && Enabled(s, step) && e in s.timers && !IsCancel(step, e.timer)
    ensures e in Next(s, step).timers || (step.Begin? && e in Next(s, step).batch)
  {
    match step
    case Add(u, when, _) => InsertedContents(s.timers, Entry(when, u), e);
    case Cancel(u, _) => ErasedContents(s.timers, Entry(s.known[u], u), e);
    case Begin(now, _) => assert s.timers == s.timers[..Due(s.timers, now)] + s.timers[Due(s.timers, now)..];
    case Run =>
    case End(_) => RestartedKeeps(s, |s.batch|, e);
  }

  lemma StillWaits(s: State, step: Step, t: Timer)
    requires Inv(s) && Enabled(s, step) && Waiting(s, t) && !IsCancel(step, t)
    ensures Waiting(Next(s, step), t) || CallsBack(s, step, t)
  {
    hide Inserted, Erased, Due, Restarted;
    if !Out(s, t) {
      var e :| e in s.timers && e.timer == t;
      StepKeepsEntry(s, step, e);
    }
  }

  ghost predicate NotCanceling(s: State, t: Timer) {
    forall e :: e in s.canceling ==> e.timer != t
  }

  lemma StillHeld(s: State, step: Step, t: Timer)
    requires Inv(s) && Enabled(s, step) && Held(s, t) && NotCanceling(s, t) && t.repeat && !IsCancel(step, t)
    ensures Held(Next(s, step), t) && NotCanceling(Next(s, step), t)
  {
    hide Inserted, Erased, Due, Restarted;
    if !Out(s, t) {
      var e :| e in s.timers && e.timer == t;
      StepKeepsEntry(s, step, e);
    } else if step.End? {
      var k :| 0 <= k < |s.batch| && s.batch[k].timer == t;
      ResetRestarts(s, step.clock, k);
    }
  }

  lemma AddedIsHeld(s: State, step: Step)
    requires Inv(s) && Enabled(s, step) && step.Add?
    ensures !Out(Next(s, step), step.timer) && Next(s, step).canceling == s.canceling
  {
    InsertedContents(s.timers, Entry(step.when, step.timer), Entry(step.when, step.timer));
  }

  lemma StepKnows(s: State, step: Step)
    requires Inv(s) && Enabled(s, step)
    ensures forall t :: t in s.known ==> t in Next(s, step).known
    ensures (forall e :: e in s.canceling ==> e.timer in s.known)
        ==> forall e :: e in Next(s, step).canceling ==> e.timer in Next(s, step).known
  {
    hide Inserted, Erased, Due, Inv;
    if step.End? {
      forall t | t in s.known ensures t in Restarted(s, |s.batch|).known { RestartedKnows(s, |s.batch|, t); }
    }
    hide Restarted;
  }

  lemma {:induction false} CancelingAreKnown(run: seq<State>, steps: seq<Step>, i: nat)
    requires IsRun(run, steps) && i < |run|
    ensures forall e :: e in run[i].canceling ==> e.timer in run[i].known
  {
    hide Inv, Next, Enabled;
    if i > 0 {
      CancelingAreKnown(run, steps, i - 1);
      RunKeepsInv(run, steps, i - 1);
      StepKnows(run[i - 1], steps[i - 1]);
    }
  }

  /** A timer that has been added and not cancelled since is in the set or in the running batch until its callback has
      been called; and one that repeats for ever. */
  lemma {:induction false} NoTimerIsLost(run: seq<State>, steps: seq<Step>, a: nat, i: nat)
    requires IsRun(run, steps) && a < i < |run| && steps[a].Add? && !CancelledBetween(steps, a, i, steps[a].timer)
    ensures Waiting(run[i], steps[a].timer) || exists j :: a < j < i && CallsBack(run[j], steps[j], steps[a].timer)
    ensures steps[a].timer.repeat ==> Held(run[i], steps[a].timer) && NotCanceling(run[i], steps[a].timer)
  {
    hide Inv, Next, Out, NotCanceling;
    var t := steps[a].timer;
    RunKeepsInv(run, steps, i - 1);
    if a + 1 == i {
      AddedIsHeld(run[a], steps[a]);
      CancelingAreKnown(run, steps, a);
      NotCancelingNew(run[a], steps[a]);
    } else {
      hide Enabled, Waiting, Held, CallsBack;
      assert !IsCancel(steps[i - 1], t);
      NoTimerIsLost(run, steps, a, i - 1);
      if Waiting(run[i - 1], t) { StillWaits(run[i - 1], steps[i - 1], t); }
      if t.repeat { StillHeld(run[i - 1], steps[i - 1], t); }
    }
  }

  lemma NotCancelingNew(s: State, step: Step)
    requires Enabled(s, step) && step.Add? && forall e :: e in s.canceling ==> e.timer in s.known
    ensures NotCanceling(Next(s, step), step.timer)
  {
    hide Inserted;
  }

  /** A callback of a timer that has been cancelled is only called in a batch that had begun before. */
  lemma CalledAfterCancelOnlyInItsBatch(run: seq<State>, steps: seq<Step>, i: nat, b: nat, j: nat)
    requires IsRun(run, steps) && i < j < |steps| && steps[i].Cancel?
    requires CallsBack(run[j], steps[j], steps[i].timer) && InBatch(steps, b, j)
    ensures b < i
  {
    hide Next, Enabled, Inv;
    assert run[j].batch[run[j].ran] in run[j].batch;
    BatchStays(run, steps, b, j);
    BatchIsFromSet(run[b], steps[b]);
    if i < b { CancelledStaysOut(run, steps, i, b); }
  }

  lemma BatchIsFromSet(s: State, step: Step)
    requires Enabled(s, step) && step.Begin?
    ensures forall e :: e in Next(s, step).batch ==> e in s.timers
  {
  }

  lemma StaysCalled(s: State, step: Step, t: Timer)
    requires Inv(s) && Enabled(s, step) && !Waiting(s, t) && t in s.known && !t.repeat
    ensures !Waiting(Next(s, step), t) && t in Next(s, step).known
  {
    hide Inserted, Erased, Due, Inv, Restarted;
    match step
    case Add(u, when, _) =>
      forall x | x in Inserted(s.timers, Entry(when, u)) ensures x in s.timers || x.timer == u {
        InsertedContents(s.timers, Entry(when, u), x);
      }
    case Cancel(u, _) =>
      SetIsSorted(s);
      var e := Entry(s.known[u], u);
      forall x | x in Erased(s.timers, e) ensures x in s.timers {
        ErasedContents(s.timers, e, x);
      }
    case Begin(now, _) =>
      var n := Due(s.timers, now);
      assert forall x :: x in s.timers[..n] || x in s.timers[n..] ==> x in s.timers;
    case Run =>
    case End(_) =>
      RestartedTimers(s, |s.batch|, t);
      RestartedKnows(s, |s.batch|, t);
  }

  // Once its callback has been called, a timer is not waiting any more.
  lemma CalledIsNotWaiting(s: State, step: Step, t: Timer)
    requires Inv(s) && Enabled(s, step) && CallsBack(s, step, t)
    ensures !Waiting(Next(s, step), t) && t in Next(s, step).known
  {
    var e := s.batch[s.ran];
    assert e in s.batch;
    forall k | s.ran < k < |s.batch| ensures s.batch[k].timer != t {
      BatchTimersDiffer(s, s.ran, k);
    }
  }

  lemma {:induction false} NotWaitingAgain(run: seq<State>, steps: seq<Step>, j: nat, k: nat, t: Timer)
    requires IsRun(run, steps) && j < k < |run| && CallsBack(run[j], steps[j], t) && !t.repeat
    ensures !Waiting(run[k], t) && t in run[k].known
  {
    hide Inv, Next, Enabled, Waiting, CallsBack;
    RunKeepsInv(run, steps, k - 1);
    if j + 1 == k {
      CalledIsNotWaiting(run[j], steps[j], t);
    } else {
      NotWaitingAgain(run, steps, j, k - 1, t);
      StaysCalled(run[k - 1], steps[k - 1], t);
    }
  }

  /** The callback of a timer that does not repeat is called at most once. */
  lemma OneShotIsCalledOnce(run: seq<State>, steps: seq<Step>, j: nat, k: nat, t: Timer)
    requires IsRun(run, steps) && j < k < |steps| && CallsBack(run[j], steps[j], t) && !t.repeat
    ensures !CallsBack(run[k], steps[k], t)
  {
    NotWaitingAgain(run, steps, j, k, t);
  }

  lemma SetIsSorted(s: State)
    requires Inv(s)
    ensures Sorted(s.timers)
  {
  }

  lemma KeyedAt(es: seq<Entry>, known: map<Timer, int>, k: nat)
    requires Keyed(es, known) && k < |es|
    ensures es[k].timer in known
  {
    assert es[k] in es;
  }

  lemma RestartedNone(s: State)
    ensures Restarted(s, 0) == s
  {
  }

  lemma RestartedNext(s: State, k: nat)
    requires k < |s.batch|
    ensures Restarted(s, k + 1) == RestartOne(Restarted(s, k), s.batch[k])
  {
  }

  // Timers are heap objects; the set holds their entries. Each method is one step.
  class TimerQueue {
    var timers: seq<Entry>
    var cancelingTimers: set<Entry>
    var callingExpiredTimers: bool
    var timerfd: Alarm
    ghost var s: State

    ghost predicate Valid()
      reads this, s.known.Keys
    {
      && Inv(s) && timers == s.timers && cancelingTimers == s.canceling
      && callingExpiredTimers == s.calling && timerfd == s.fd
      && Expirations(s.known)
    }

    ghost predicate Expirations(known: map<Timer, int>)
      reads known.Keys
    {
      forall t :: t in known ==> t.expiration == known[t]
    }

    constructor (ghost clock: int)
      requires clock > 0
      ensures Valid() && s == Init(clock)
    {
      timers, cancelingTimers, callingExpiredTimers, timerfd, s := [], {}, false, Disarmed, Init(clock);
    }

    method Insert(timer: Timer) returns (earliestChanged: bool)
      modifies this`timers
      ensures timers == Inserted(old(timers), Entry(timer.expiration, timer))
      ensures earliestChanged == EarliestChanged(old(timers), timer.expiration)
    {
      earliestChanged := false;
      var when := timer.expiration;
      if |timers| == 0 || when < timers[0].when {
        earliestChanged := true;
      }
      timers := Inserted(timers, Entry(when, timer));
    }

    method AddTimerInLoop(timer: Timer, clock: int)
      requires Valid() && Enabled(s, Add(timer, timer.expiration, clock))
      modifies this
      ensures Valid() && s == Next(old(s), Add(timer, timer.expiration, clock))
    {
      hide Inv, Inserted;
      StepKeepsInv(s, Add(timer, timer.expiration, clock));
      var earliestChanged := Insert(timer);
      if earliestChanged {
        timerfd := ResetTimerfd(timer.expiration, clock);
      }
      s := AddTimer(s, timer, timer.expiration, clock);
    }

    method CancelInLoop(timer: Timer, locked: bool)
      requires Valid() && Enabled(s, Cancel(timer, locked))
      modifies this
      ensures Valid() && s == Next(old(s), Cancel(timer, locked))
    {
      hide Inv, Erased;
      StepKeepsInv(s, Cancel(timer, locked));
      if locked {
        var entry := Entry(timer.expiration, timer);
        if entry in timers {
          timers := Erased(timers, entry);
        } else if callingExpiredTimers {
          cancelingTimers := cancelingTimers + {entry};
        }
      }
      s := CancelTimer(s, timer, locked);
    }

    // The binary search of getExpired, for the first entry later than now.
    method LowerBound(now: int) returns (k: nat)
      requires Sorted(timers)
      ensures k == Due(timers, now)
    {
      DueSplits(timers, now);
      k := 0;
      var count := |timers|;
      while count > 0
        invariant 0 <= k <= k + count <= |timers|
        invariant k <= Due(timers, now) <= k + count
      {
        var half := count / 2;
        if timers[k + half].when <= now {
          k, count := k + half + 1, count - half - 1;
        } else {
          count := half;
        }
      }
    }

    method GetExpired(now: int) returns (expired: seq<Entry>)
      requires Sorted(timers)
      modifies this`timers
      ensures var n := Due(old(timers), now); expired == old(timers)[..n] && timers == old(timers)[n..]
    {
      var it := LowerBound(now);
      expired := timers[..it];
      timers := timers[it..];
    }

    // handleRead up to the callbacks: the clock is read, then the timerfd.
    method StartBatch(now: int, clock: int) returns (expired: seq<Entry>)
      requires Valid() && Enabled(s, Begin(now, clock))
      modifies this
      ensures Valid() && s == Next(old(s), Begin(now, clock)) && expired == s.batch
    {
      hide Inv, Due, Sorted;
      SetIsSorted(s);
      StepKeepsInv(s, Begin(now, clock));
      if timerfd.Armed? && timerfd.deadline <= clock {
        timerfd := Disarmed;
      }
      expired := GetExpired(now);
      callingExpiredTimers := true;
      cancelingTimers := {};
      s := BeginBatch(s, now, clock);
    }

    // One turn of the loop over the expired timers: the caller calls back.
    method RunNext(expired: seq<Entry>, i: nat) returns (timer: Timer)
      requires Valid() && Enabled(s, Run) && expired == s.batch && i == s.ran
      modifies this
      ensures Valid() && s == Next(old(s), Run) && timer == s.batch[old(s.ran)].timer
    {
      timer := expired[i].timer;
      s := Next(s, Run);
    }

    // The loop of reset.
    method RestartExpired(expired: seq<Entry>, now: int)
      requires timers == s.timers && cancelingTimers == s.canceling && Expirations(s.known)
      requires expired == s.batch && now == s.now && Keyed(expired, s.known)
      modifies this`timers, s.known.Keys
      ensures timers == Restarted(s, |expired|).timers
      ensures Restarted(s, |expired|).known.Keys == s.known.Keys && Expirations(Restarted(s, |expired|).known)
    {
      hide Inserted, Restarted, Keyed;
      RestartedNone(s);
      for k := 0 to |expired|
        invariant timers == Restarted(s, k).timers
        invariant Restarted(s, k).known.Keys == s.known.Keys && Expirations(Restarted(s, k).known)
      {
        KeyedAt(expired, s.known, k);
        RestartedNext(s, k);
        var timer := expired[k].timer;
        if timer.repeat && expired[k] !in cancelingTimers {
          timer.Restart(now);
          var _ := Insert(timer);
        }
      }
    }

    // handleRead after the callbacks, with reset.
    method FinishBatch(expired: seq<Entry>, now: int, clock: int)
      requires Valid() && Enabled(s, End(clock)) && expired == s.batch && now == s.now
      modifies this, s.known.Keys
      ensures Valid() && s == Next(old(s), End(clock))
    {
      hide Inv, Keyed, Restarted;
      EndFacts(s, clock);
      callingExpiredTimers := false;
      RestartExpired(expired, now);
      var nextExpire := INVALID;
      if |timers| > 0 {
        nextExpire := timers[0].timer.expiration;
      }
      if nextExpire > INVALID {
        timerfd := ResetTimerfd(nextExpire, clock);
      }
      s := EndBatch(s, clock);
    }
  }
}
