/** base/AsyncLogging.cc: producers fill buffers that a back-end thread swaps out and writes to the log file.
    A step is one critical section, or one piece of the back end's work outside of it. */
module AsyncLogging {
  import opened Wrappers

  // A FixedBuffer; its identity tells buffers with the same text apart.
  datatype Buffer = Buffer(id: nat, text: string)

  // What became of the text of a batch, in order, and the notices put into the file.
  datatype Segment = Kept(text: string) | Dropped(text: string) | Notice(text: string)

  // Where the back end is: at the head of its loop, in waitForSeconds, past the critical section, or having written
  // the first `written` buffers of its batch.
  datatype Phase = Head | Waiting | Swapped | Writing(written: nat)

  // `discarded` are the buffers of the present batch that are not written; `created` is the next identity; `failed`
  // is set when an assertion of the source fails or a null buffer is used.
  datatype State = State(size: nat, current: Buffer, next: Option<Buffer>, buffers: seq<Buffer>,
                         phase: Phase, new1: Option<Buffer>, new2: Option<Buffer>, toWrite: seq<Buffer>,
                         discarded: seq<Buffer>, created: nat, accepted: string, file: string, log: seq<Segment>,
                         failed: bool)

  datatype Step = Append(line: string) | Lock | Wake | Trim(notice: string) | WriteOne | Recycle

  const MAX_BATCH := 25

  function Init(size: nat): State {
    State(size, Buffer(0, ""), Some(Buffer(1, "")), [], Head, Some(Buffer(2, "")), Some(Buffer(3, "")), [], [],
          4, "", "", [], false)
  }

  predicate Enabled(s: State, step: Step) {
    !s.failed &&
    match step
    case Append(_) => true
    case Lock => s.phase == Head
    case Wake => s.phase == Waiting
    case Trim(_) => s.phase == Swapped
    case WriteOne => s.phase.Writing? && s.phase.written < |s.toWrite|
    case Recycle => s.phase.Writing? && s.phase.written == |s.toWrite|
  }

  // What FixedBuffer::append makes of a text: one that does not leave a free byte behind it is dropped whole.
  function FixedAppend(text: string, more: string, size: nat): (r: string)
    ensures |text| <= size ==> |r| <= size
  {
    if size - |text| > |more| then text + more else text
  }

  function Filled(b: Buffer, line: string, size: nat): Buffer {
    b.(text := FixedAppend(b.text, line, size))
  }

  function Accepted(line: string, size: nat): string {
    if |line| < size then line else ""
  }

  function AppendLine(s: State, line: string): State {
    var s1 := s.(accepted := s.accepted + Accepted(line, s.size));
    if s.size - |s.current.text| > |line| then s1.(current := Filled(s.current, line, s.size))
    else
      var s2 := s1.(buffers := s.buffers + [s.current]);
      match s.next
      case Some(b) => s2.(current := Filled(b, line, s.size), next := None)
      case None => s2.(current := Filled(Buffer(s.created, ""), line, s.size), created := s.created + 1)
  }

  function Fail(s: State): State {
    s.(failed := true)
  }

  predicate IsNew(b: Option<Buffer>) {
    b.Some? && b.value.text == ""
  }

  function LockAndSwap(s: State): State {
    if !IsNew(s.new1) || !IsNew(s.new2) || s.toWrite != [] then Fail(s)
    else if s.buffers == [] then s.(phase := Waiting)
    else SwapBuffers(s)
  }

  // The critical section after the wait, if there was one.
  function SwapBuffers(s: State): State {
    if s.new1 == None then Fail(s)
    else
      var s1 := s.(toWrite := s.buffers + [s.current], buffers := [],
                   current := s.new1.value, new1 := None, phase := Swapped);
      if s.next == None then s1.(next := s.new2, new2 := None) else s1
  }

  function TrimBatch(s: State, notice: string): State {
    if |s.toWrite| > MAX_BATCH then
      s.(file := s.file + notice, log := s.log + [Notice(notice)],
         toWrite := s.toWrite[..2], discarded := s.toWrite[2..], phase := Writing(0))
    else s.(phase := Writing(0))
  }

  function WriteBuffer(s: State): State
    requires Enabled(s, WriteOne)
  {
    var k := s.phase.written;
    s.(file := s.file + s.toWrite[k].text, log := s.log + [Kept(s.toWrite[k].text)], phase := Writing(k + 1))
  }

  function Emptied(b: Buffer): Buffer {
    b.(text := "")
  }

  // New buffers are taken back from the end of the batch, which has been cut to two.
  function RecycleBatch(s: State): State {
    var missing := (if s.new1 == None then 1 else 0) + (if s.new2 == None then 1 else 0);
    if |s.toWrite| < missing then Fail(s) else RecycleBuffers(s)
  }

  function RecycleBuffers(s: State): State
    requires |s.toWrite| >= (if s.new1 == None then 1 else 0) + (if s.new2 == None then 1 else 0)
  {
    var batch := if |s.toWrite| > 2 then s.toWrite[..2] else s.toWrite;
    var n := |batch|;
    var m := if s.new1 == None then n - 1 else n;
    s.(new1 := if s.new1 == None then Some(Emptied(batch[n - 1])) else s.new1,
       new2 := if s.new2 == None then Some(Emptied(batch[m - 1])) else s.new2,
       toWrite := [], discarded := [], phase := Head,
       log := if s.discarded == [] then s.log else s.log + [Dropped(Text(s.discarded))])
  }

  // The buffers are where the assertions of threadFunc expect them.
  ghost predicate Ready(s: State) {
    && !s.failed && s.size > 0
    && (s.next == None ==> s.buffers != [])
    && IsEmpty(s.next) && IsEmpty(s.new1) && IsEmpty(s.new2)
    && (s.phase == Head || s.phase == Waiting ==> s.new1.Some? && s.new2.Some? && s.toWrite == [])
    && (s.phase == Swapped || s.phase.Writing? ==> s.new1 == None && |s.toWrite| >= (if s.new2 == None then 2 else 1))
    && (s.phase.Writing? ==> s.phase.written <= |s.toWrite|)
    && (s.discarded != [] ==> s.phase.Writing? && |s.toWrite| == 2)
  }

  predicate IsEmpty(b: Option<Buffer>) {
    b.Some? ==> b.value.text == ""
  }

  function Text(bs: seq<Buffer>): string {
    if bs == [] then "" else bs[0].text + Text(bs[1..])
  }

  function Unwritten(s: State): seq<Buffer> {
    if s.phase.Writing? && s.phase.written <= |s.toWrite| then s.toWrite[s.phase.written..] else s.toWrite
  }

  // The text of all batches, whether kept or dropped.
  function Saved(log: seq<Segment>): string {
    if log == [] then "" else Saved(log[..|log| - 1]) + (if log[|log| - 1].Notice? then "" else log[|log| - 1].text)
  }

  // What of it the file holds, with the notices.
  function InFile(log: seq<Segment>): string {
    if log == [] then "" else InFile(log[..|log| - 1]) + (if log[|log| - 1].Dropped? then "" else log[|log| - 1].text)
  }

  // How many pointers own the buffer with this identity.
  function Owners(s: State, id: nat): nat {
    Is(s.current, id) + One(s.next, id) + One(s.new1, id) + One(s.new2, id) + Count(s.buffers, id)
        + Count(s.toWrite, id)
  }

  function Is(b: Buffer, id: nat): nat {
    if b.id == id then 1 else 0
  }

  function One(b: Option<Buffer>, id: nat): nat {
    if b == None then 0 else Is(b.value, id)
  }

  function Count(bs: seq<Buffer>, id: nat): nat {
    if bs == [] then 0 else Is(bs[0], id) + Count(bs[1..], id)
  }

  function Next(s: State, step: Step): State
    requires Enabled(s, step)
  {
    match step
    case Append(line) => AppendLine(s, line)
    case Lock => LockAndSwap(s)
    case Wake => SwapBuffers(s)
    case Trim(notice) => TrimBatch(s, notice)
    case WriteOne => WriteBuffer(s)
    case Recycle => RecycleBatch(s)
  }

  ghost predicate Conserved(s: State) {
    && Saved(s.log) + Text(Unwritten(s)) + Text(s.discarded) + Text(s.buffers) + s.current.text == s.accepted
    && s.file == InFile(s.log)
  }

  ghost predicate OneOwner(s: State) {
    forall id: nat :: Owners(s, id) <= (if id < s.created then 1 else 0)
  }

  ghost predicate Inv(s: State) {
    Ready(s) && OneOwner(s) && Conserved(s)
  }

  ghost predicate IsRun(run: seq<State>, steps: seq<Step>) {
    && |run| == |steps| + 1 && run[0] == Init(run[0].size) && run[0].size > 0
    && forall i :: 0 <= i < |steps| ==> Enabled(run[i], steps[i]) && run[i + 1] == Next(run[i], steps[i])
  }

  lemma StepKeepsReady(s: State, step: Step)
    requires Ready(s) && Enabled(s, step)
    ensures Ready(Next(s, step))
  {
  }

  // Ownership

  lemma {:induction false} CountAppend(a: seq<Buffer>, b: seq<Buffer>, id: nat)
    ensures Count(a + b, id) == Count(a, id) + Count(b, id)
  {
    if a == [] {
      assert a + b == b;
    } else {
      assert (a + b)[1..] == a[1..] + b;
      CountAppend(a[1..], b, id);
    }
  }

  lemma CountLast(bs: seq<Buffer>, b: Buffer, id: nat)
    ensures Count(bs + [b], id) == Count(bs, id) + Is(b, id)
  {
    CountAppend(bs, [b], id);
    assert [b][1..] == [];
  }

  lemma CountPrefix(bs: seq<Buffer>, n: nat, id: nat)
    requires n <= |bs|
    ensures Count(bs[..n], id) <= Count(bs, id)
  {
    CountAppend(bs[..n], bs[n..], id);
    assert bs == bs[..n] + bs[n..];
  }

  lemma AppendHandsOn(s: State, line: string, id: nat)
    ensures Owners(AppendLine(s, line), id) <= Owners(s, id)
        + (if id == s.created && AppendLine(s, line).created > id then 1 else 0)
    ensures AppendLine(s, line).created >= s.created
  {
    hide Count;
    CountLast(s.buffers, s.current, id);
  }

  lemma SwapHandsOn(s: State, id: nat)
    requires s.toWrite == []
    ensures Owners(SwapBuffers(s), id) <= Owners(s, id)
  {
    CountLast(s.buffers, s.current, id);
  }

  lemma TakenFromEnd(batch: seq<Buffer>, both: bool, id: nat)
    requires |batch| >= (if both then 2 else 1)
    ensures Is(batch[|batch| - 1], id) + (if both then Is(batch[|batch| - 2], id) else 0) <= Count(batch, id)
  {
  }

  lemma RecycleHandsOn(s: State, id: nat)
    requires Ready(s) && Enabled(s, Recycle)
    ensures Owners(RecycleBatch(s), id) <= Owners(s, id)
  {
    hide Count;
    var batch := if |s.toWrite| > 2 then s.toWrite[..2] else s.toWrite;
    if |s.toWrite| > 2 { CountPrefix(s.toWrite, 2, id); }
    TakenFromEnd(batch, s.new2 == None, id);
    EmptyCount(id);
  }

  lemma EmptyCount(id: nat)
    ensures Count([], id) == 0
  {
  }

  // A step hands buffers on or frees them, and creates at most one.
  lemma StepHandsOn(s: State, step: Step, id: nat)
    requires Ready(s) && Enabled(s, step)
    ensures var s' := Next(s, step);
            && s'.created >= s.created
            && Owners(s', id) <= Owners(s, id) + (if id == s.created && s'.created > id then 1 else 0)
  {
    match step
    case Append(line) => AppendHandsOn(s, line, id);
    case Lock => SwapHandsOn(s, id);
    case Wake => SwapHandsOn(s, id);
    case Trim(_) => if |s.toWrite| > MAX_BATCH { CountPrefix(s.toWrite, 2, id); }
    case WriteOne =>
    case Recycle => RecycleHandsOn(s, id);
  }

  lemma StepKeepsOwners(s: State, step: Step)
    requires Ready(s) && OneOwner(s) && Enabled(s, step)
    ensures OneOwner(Next(s, step))
  {
    hide Next, Owners, Ready, Enabled;
    var s' := Next(s, step);
    forall id: nat ensures Owners(s', id) <= (if id < s'.created then 1 else 0) {
      StepHandsOn(s, step, id);
    }
  }

  // Text

  lemma {:induction false} TextAppend(a: seq<Buffer>, b: seq<Buffer>)
    ensures Text(a + b) == Text(a) + Text(b)
  {
    if a == [] {
      assert a + b == b;
    } else {
      assert (a + b)[1..] == a[1..] + b;
      TextAppend(a[1..], b);
    }
  }

  lemma TextOne(b: Buffer)
    ensures Text([b]) == b.text
  {
  }

  lemma LogAppend(log: seq<Segment>, g: Segment)
    ensures Saved(log + [g]) == Saved(log) + (if g.Notice? then "" else g.text)
    ensures InFile(log + [g]) == InFile(log) + (if g.Dropped? then "" else g.text)
  {
  }

  lemma Regroup(front: string, queued: string, current: string, more: string)
    ensures front + queued + (current + more) == front + queued + current + more
    ensures front + (queued + current) + more == front + queued + current + more
  {
  }

  lemma AppendConserves(s: State, line: string)
    requires Ready(s) && Conserved(s)
    ensures Conserved(AppendLine(s, line))
  {
    hide Text, Saved, InFile;
    var more := Accepted(line, s.size);
    TextAppend(s.buffers, [s.current]);
    TextOne(s.current);
    assert "" + line == line;
    Regroup(Saved(s.log) + Text(Unwritten(s)) + Text(s.discarded), Text(s.buffers), s.current.text, more);
  }

  lemma SwapConserves(s: State)
    requires Ready(s) && Conserved(s) && (s.phase == Head || s.phase == Waiting)
    ensures Conserved(SwapBuffers(s))
  {
    hide Text, Saved, InFile;
    TextAppend(s.buffers, [s.current]);
    TextOne(s.current);
    NoText();
    SwapRegroups(Saved(s.log), Text(s.buffers), s.current.text);
  }

  lemma SwapRegroups(saved: string, queued: string, current: string)
    ensures saved + "" + "" + queued + current == saved + (queued + current) + "" + "" + ""
  {
  }

  lemma TrimConserves(s: State, notice: string)
    requires Ready(s) && Conserved(s) && Enabled(s, Trim(notice))
    ensures Conserved(TrimBatch(s, notice))
  {
    NoText();
    hide Text, Saved, InFile;
    LogAppend(s.log, Notice(notice));
    assert s.toWrite[0..] == s.toWrite;
    if |s.toWrite| > MAX_BATCH {
      var kept, rest := s.toWrite[..2], s.toWrite[2..];
      assert s.toWrite == kept + rest && kept[0..] == kept;
      TextAppend(kept, rest);
      TrimRegroups(Saved(s.log), Text(kept), Text(rest));
    }
  }

  lemma TrimRegroups(saved: string, kept: string, rest: string)
    ensures saved + (kept + rest) + "" == saved + kept + rest
    ensures saved + "" == saved
  {
  }

  lemma NoText()
    ensures Text([]) == ""
  {
  }

  lemma FirstText(bs: seq<Buffer>, k: nat)
    requires k < |bs|
    ensures Text(bs[k..]) == bs[k].text + Text(bs[k + 1..])
  {
  }

  lemma Associate(a: string, b: string, c: string)
    ensures a + (b + c) == a + b + c
  {
  }

  lemma WriteConserves(s: State)
    requires Ready(s) && Conserved(s) && Enabled(s, WriteOne)
    ensures Conserved(WriteBuffer(s))
  {
    var k := s.phase.written;
    var text, rest := s.toWrite[k].text, s.toWrite[k + 1..];
    LogAppend(s.log, Kept(text));
    FirstText(s.toWrite, k);
    hide Text, Saved, InFile;
    Associate(Saved(s.log), text, Text(rest));
  }

  lemma RecycleConserves(s: State)
    requires Ready(s) && Conserved(s) && Enabled(s, Recycle)
    ensures Conserved(RecycleBatch(s))
  {
    RecycleKeeps(s);
    hide Text, Saved, InFile, Ready, Enabled, RecycleBatch, Unwritten;
    LogAppend(s.log, Dropped(Text(s.discarded)));
    NoText();
    WithoutNothing(Saved(s.log), Text(s.discarded));
  }

  lemma RecycleKeeps(s: State)
    requires Ready(s) && Enabled(s, Recycle)
    ensures Unwritten(s) == [] && Unwritten(RecycleBatch(s)) == []
    ensures var r := RecycleBatch(s);
            && r == s.(new1 := r.new1, new2 := r.new2, toWrite := [], discarded := [], phase := Head, log := r.log)
            && r.log == if s.discarded == [] then s.log else s.log + [Dropped(Text(s.discarded))]
  {
    hide Text;
  }

  lemma WithoutNothing(a: string, b: string)
    ensures a + "" + b == a + b && a + b + "" + "" == a + b && a + "" + "" == a
  {
  }

  lemma StepConserves(s: State, step: Step)
    requires Ready(s) && Conserved(s) && Enabled(s, step)
    ensures Conserved(Next(s, step))
  {
    match step
    case Append(line) => AppendConserves(s, line);
    case Lock => SwapConserves(s);
    case Wake => SwapConserves(s);
    case Trim(notice) => TrimConserves(s, notice);
    case WriteOne => WriteConserves(s);
    case Recycle => RecycleConserves(s);
  }

  // The line that a step of a run hands to the front end, unless it does not fit a buffer.
  function AppendedBy(size: nat, step: Step): string {
    if step.Append? then Accepted(step.line, size) else ""
  }

  ghost function Appended(size: nat, steps: seq<Step>, i: nat): string
    requires i <= |steps|
  {
    if i == 0 then "" else Appended(size, steps, i - 1) + AppendedBy(size, steps[i - 1])
  }

  lemma StepAppends(s: State, step: Step)
    requires Enabled(s, step)
    ensures Next(s, step).accepted == s.accepted + AppendedBy(s.size, step) && Next(s, step).size == s.size
  {
    assert s.accepted + "" == s.accepted;
  }

  /** In every state of every run no assertion of threadFunc has failed, each buffer has one owner, and what was written
      or dropped, then in flight, queued and current is every accepted line of the append calls so far, in order. */
  lemma {:induction false} RunKeepsInv(run: seq<State>, steps: seq<Step>, i: nat)
    requires IsRun(run, steps) && i < |run|
    ensures Inv(run[i])
    ensures run[i].size == run[0].size && run[i].accepted == Appended(run[0].size, steps, i)
  {
    hide Next, Enabled, OneOwner, Conserved, Ready, AppendedBy;
    if i > 0 {
      RunKeepsInv(run, steps, i - 1);
      StepAppends(run[i - 1], steps[i - 1]);
      StepKeepsReady(run[i - 1], steps[i - 1]);
      StepKeepsOwners(run[i - 1], steps[i - 1]);
      StepConserves(run[i - 1], steps[i - 1]);
    } else {
      InitHasInv(run[0].size);
    }
  }

  lemma InitHasInv(size: nat)
    requires size > 0
    ensures Inv(Init(size))
  {
  }

  ghost predicate AllKept(log: seq<Segment>) {
    forall i :: 0 <= i < |log| ==> log[i].Kept?
  }

  lemma {:induction false} KeptIsInFile(log: seq<Segment>)
    requires AllKept(log)
    ensures InFile(log) == Saved(log)
  {
    if log != [] { KeptIsInFile(log[..|log| - 1]); }
  }

  // No batch so far had more than 25 buffers.
  ghost predicate SmallBatches(run: seq<State>, steps: seq<Step>, i: nat)
    requires |run| == |steps| + 1 && i <= |steps|
  {
    forall j :: 0 <= j < i && steps[j].Trim? ==> |run[j].toWrite| <= 25
  }

  lemma {:induction false} SmallBatchesAreKept(run: seq<State>, steps: seq<Step>, i: nat)
    requires IsRun(run, steps) && i < |run| && SmallBatches(run, steps, i)
    ensures AllKept(run[i].log) && run[i].discarded == []
  {
    if i > 0 { SmallBatchesAreKept(run, steps, i - 1); }
  }

  lemma {:induction false} LargeBatchIsNoted(run: seq<State>, steps: seq<Step>, i: nat, j: nat)
    requires IsRun(run, steps) && j < i < |run| && Large(run[j], steps[j])
    ensures !AllKept(run[i].log)
  {
    if j + 1 < i {
      LargeBatchIsNoted(run, steps, i - 1, j);
      LogOnlyGrows(run[i - 1], steps[i - 1]);
    } else {
      assert run[i].log[|run[j].log|].Notice?;
    }
  }

  lemma LogOnlyGrows(s: State, step: Step)
    requires Enabled(s, step)
    ensures s.log <= Next(s, step).log
  {
  }

  /** Everything written so far was kept if and only if no batch so far had more than 25 buffers. */
  lemma AllKeptExactlyWhenSmall(run: seq<State>, steps: seq<Step>, i: nat)
    requires IsRun(run, steps) && i < |run|
    ensures AllKept(run[i].log) && run[i].discarded == [] <==> SmallBatches(run, steps, i)
  {
    if SmallBatches(run, steps, i) {
      SmallBatchesAreKept(run, steps, i);
    } else {
      var j :| 0 <= j < i && steps[j].Trim? && |run[j].toWrite| > MAX_BATCH;
      LargeBatchIsNoted(run, steps, i, j);
    }
  }

  /** As long as no batch has more than 25 buffers, the file holds exactly the accepted lines, in order, up to those
      in flight, queued and current. */
  lemma NothingDropped(run: seq<State>, steps: seq<Step>, i: nat)
    requires IsRun(run, steps) && i < |run| && SmallBatches(run, steps, i)
    ensures run[i].file + Text(Unwritten(run[i])) + Text(run[i].buffers) + run[i].current.text
         == Appended(run[0].size, steps, i)
  {
    RunKeepsInv(run, steps, i);
    SmallBatchesAreKept(run, steps, i);
    KeptIsInFile(run[i].log);
    assert Saved(run[i].log) + Text(Unwritten(run[i])) + "" == Saved(run[i].log) + Text(Unwritten(run[i]));
  }

  // What overload costs

  predicate Large(s: State, step: Step) {
    step.Trim? && |s.toWrite| > 25
  }

  // The buffers from the third on of a batch that is too large, and the notice about it.
  function Lost(s: State, step: Step): string {
    if Large(s, step) then Text(s.toWrite[2..]) else ""
  }

  function Noted(s: State, step: Step): seq<string> {
    if Large(s, step) then [step.notice] else []
  }

  ghost function LostSoFar(run: seq<State>, steps: seq<Step>, i: nat): string
    requires |run| == |steps| + 1 && i <= |steps|
  {
    if i == 0 then "" else LostSoFar(run, steps, i - 1) + Lost(run[i - 1], steps[i - 1])
  }

  ghost function NotedSoFar(run: seq<State>, steps: seq<Step>, i: nat): seq<string>
    requires |run| == |steps| + 1 && i <= |steps|
  {
    if i == 0 then [] else NotedSoFar(run, steps, i - 1) + Noted(run[i - 1], steps[i - 1])
  }

  function DroppedIn(log: seq<Segment>): string {
    if log == [] then ""
    else
      var front, last := log[..|log| - 1], log[|log| - 1];
      DroppedIn(front) + (if last.Dropped? then last.text else "")
  }

  function NoticesIn(log: seq<Segment>): seq<string> {
    if log == [] then []
    else
      var front, last := log[..|log| - 1], log[|log| - 1];
      NoticesIn(front) + (if last.Notice? then [last.text] else [])
  }

  lemma LogEnds(log: seq<Segment>, g: Segment)
    ensures DroppedIn(log + [g]) == DroppedIn(log) + (if g.Dropped? then g.text else "")
    ensures NoticesIn(log + [g]) == NoticesIn(log) + (if g.Notice? then [g.text] else [])
  {
    assert (log + [g])[..|log|] == log;
  }

  lemma StepLoses(s: State, step: Step)
    requires Ready(s) && Enabled(s, step)
    ensures DroppedIn(Next(s, step).log) + Text(Next(s, step).discarded)
         == DroppedIn(s.log) + Text(s.discarded) + Lost(s, step)
    ensures NoticesIn(Next(s, step).log) == NoticesIn(s.log) + Noted(s, step)
  {
    NoText();
    hide Text, DroppedIn, NoticesIn;
    match step
    case Trim(notice) => LogEnds(s.log, Notice(notice));
    case WriteOne => LogEnds(s.log, Kept(s.toWrite[s.phase.written].text));
    case Recycle => LogEnds(s.log, Dropped(Text(s.discarded)));
    case _ =>
  }

  /** What has been dropped, or is about to be, is exactly the buffers from the third on of the batches of more than 25,
      in order; and the notices in the file are exactly those of these batches. */
  lemma {:induction false} OnlyLargeBatchesLose(run: seq<State>, steps: seq<Step>, i: nat)
    requires IsRun(run, steps) && i < |run|
    ensures DroppedIn(run[i].log) + Text(run[i].discarded) == LostSoFar(run, steps, i)
    ensures NoticesIn(run[i].log) == NotedSoFar(run, steps, i)
  {
    hide Next, Enabled, Ready, OneOwner, Conserved, Lost, Noted;
    if i > 0 {
      OnlyLargeBatchesLose(run, steps, i - 1);
      RunKeepsInv(run, steps, i - 1);
      StepLoses(run[i - 1], steps[i - 1]);
    }
  }

  // What has been written or dropped, or is in flight.
  ghost function InHand(s: State): string {
    Saved(s.log) + Text(Unwritten(s)) + Text(s.discarded)
  }

  // The end of the critical section, in which the back end takes all that has been accepted.
  predicate Swaps(s: State, step: Step) {
    step == Wake || (step == Lock && s.buffers != [])
  }

  lemma SwapTakesAll(s: State, step: Step)
    requires Inv(s) && Enabled(s, step) && Swaps(s, step)
    ensures InHand(Next(s, step)) == Next(s, step).accepted == s.accepted
    ensures s.accepted == InHand(s) + Text(Next(s, step).toWrite) && Next(s, step).toWrite == s.buffers + [s.current]
  {
    StepConserves(s, step);
    NoText();
    TextAppend(s.buffers, [s.current]);
    TextOne(s.current);
    hide Text, Saved, Unwritten;
    Associate(InHand(s), Text(s.buffers), s.current.text);
  }

  lemma SameSuffix(a: string, b: string, c: string)
    requires a + c == b + c
    ensures a == b
  {
    assert a == (a + c)[..|a|] && b == (b + c)[..|b|];
  }

  lemma OthersKeepInHand(s: State, step: Step)
    requires Inv(s) && Enabled(s, step) && !Swaps(s, step)
    ensures InHand(Next(s, step)) == InHand(s)
  {
    if !step.Append? {
      StepConserves(s, step);
      BackEndKeepsFront(s, step);
      hide Text, Saved, Unwritten, Next, Enabled;
      var s' := Next(s, step);
      Associate(InHand(s), Text(s.buffers), s.current.text);
      Associate(InHand(s'), Text(s.buffers), s.current.text);
      SameSuffix(InHand(s'), InHand(s), Text(s.buffers) + s.current.text);
    }
  }

  lemma BackEndKeepsFront(s: State, step: Step)
    requires Enabled(s, step) && !Swaps(s, step) && !step.Append?
    ensures var s' := Next(s, step);
            s'.buffers == s.buffers && s'.current == s.current && s'.accepted == s.accepted
  {
  }

  // The step before i at which the back end last swapped, and the first step if there was none.
  ghost predicate LastSwap(run: seq<State>, steps: seq<Step>, j: nat, i: nat)
    requires |run| == |steps| + 1 && i <= |steps|
  {
    && j <= i && (j == i ==> i == 0)
    && (j < i && !Swaps(run[j], steps[j]) ==> j == 0)
    && forall l :: j < l < i ==> !Swaps(run[l], steps[l])
  }

  lemma {:induction false} InHandSince(run: seq<State>, steps: seq<Step>, j: nat, k: nat)
    requires IsRun(run, steps) && k < |run| && LastSwap(run, steps, j, k)
    ensures InHand(run[k]) == Appended(run[0].size, steps, j)
  {
    if k == 0 {
      InitHasInv(run[0].size);
    } else {
      hide Inv, Next, Enabled, InHand, Swaps;
      RunKeepsInv(run, steps, j);
      RunKeepsInv(run, steps, k - 1);
      if j == k - 1 && Swaps(run[j], steps[j]) {
        SwapTakesAll(run[j], steps[j]);
      } else {
        InHandSince(run, steps, j, k - 1);
        OthersKeepInHand(run[k - 1], steps[k - 1]);
      }
    }
  }

  /** When the turn that began with a swap ends, everything appended before that swap has been written or dropped. */
  lemma TurnSavesWhatWasAppended(run: seq<State>, steps: seq<Step>, j: nat, k: nat)
    requires IsRun(run, steps) && j < k < |steps| && Swaps(run[j], steps[j]) && steps[k] == Recycle
    requires forall l :: j < l < k ==> steps[l] != Recycle
    ensures Saved(run[k + 1].log) == Appended(run[0].size, steps, j)
  {
    hide Inv, Next, Enabled, InHand, Swaps, Saved;
    RunKeepsInv(run, steps, k);
    RunKeepsInv(run, steps, k + 1);
    NoSwapInTurn(run, steps, j, k + 1);
    InHandSince(run, steps, j, k + 1);
    NothingInFlight(run[k + 1], run[k], steps[k]);
  }

  predicate InTurn(s: State) {
    s.phase == Swapped || s.phase.Writing?
  }

  lemma TurnGoesOn(s: State, step: Step)
    requires Inv(s) && Enabled(s, step)
    ensures Swaps(s, step) ==> InTurn(Next(s, step))
    ensures InTurn(s) ==> !Swaps(s, step) && (step != Recycle ==> InTurn(Next(s, step)))
  {
    hide OneOwner, Conserved, Filled, Accepted;
  }

  lemma {:induction false} NoSwapInTurn(run: seq<State>, steps: seq<Step>, j: nat, k: nat)
    requires IsRun(run, steps) && j < k < |run| && Swaps(run[j], steps[j])
    requires forall l :: j < l < k - 1 ==> steps[l] != Recycle
    ensures LastSwap(run, steps, j, k)
    ensures (k - 1 > j ==> steps[k - 1] != Recycle) ==> InTurn(run[k])
  {
    hide Inv, Next, Enabled, InTurn, Swaps;
    RunKeepsInv(run, steps, k - 1);
    TurnGoesOn(run[k - 1], steps[k - 1]);
    if j < k - 1 { NoSwapInTurn(run, steps, j, k - 1); }
  }

  lemma NothingInFlight(s': State, s: State, step: Step)
    requires Inv(s) && Enabled(s, step) && step == Recycle && s' == Next(s, step) && Inv(s')
    ensures InHand(s') == Saved(s'.log)
  {
    NoText();
  }

  // How full the buffers are

  // Any two neighbours hold a buffer's worth of text together.
  predicate Packed(bs: seq<Buffer>, size: nat) {
    forall i :: 0 <= i < |bs| - 1 ==> |bs[i].text| + |bs[i + 1].text| >= size
  }

  predicate Short(size: nat, step: Step) {
    step.Append? ==> |step.line| < size
  }

  lemma StepKeepsPacked(s: State, step: Step)
    requires Inv(s) && Enabled(s, step) && Short(s.size, step) && Packed(s.buffers + [s.current], s.size)
    ensures Packed(Next(s, step).buffers + [Next(s, step).current], s.size)
    ensures Swaps(s, step) ==> Packed(Next(s, step).toWrite, s.size)
  {
    hide Inv, Conserved, OneOwner, Ready;
    if Swaps(s, step) {
      SwapTakesAll(s, step);
      SwapLeavesNone(s, step);
    } else if step.Append? {
      AppendPacks(s, step.line);
    } else {
      BackEndKeepsFront(s, step);
    }
  }

  lemma SwapLeavesNone(s: State, step: Step)
    requires Inv(s) && Enabled(s, step) && Swaps(s, step)
    ensures Next(s, step).buffers == []
  {
  }

  lemma PackedGrows(front: seq<Buffer>, b: Buffer, b': Buffer, size: nat)
    requires Packed(front + [b], size) && |b'.text| >= |b.text|
    ensures Packed(front + [b'], size)
  {
    var bs := front + [b'];
    forall i | 0 <= i < |bs| - 1 ensures |bs[i].text| + |bs[i + 1].text| >= size {
      assert bs[i] == (front + [b])[i];
      assert i + 1 < |front| ==> bs[i + 1] == (front + [b])[i + 1];
      assert |(front + [b])[i].text| + |(front + [b])[i + 1].text| >= size;
    }
  }

  lemma PackedExtends(front: seq<Buffer>, b: Buffer, b': Buffer, size: nat)
    requires Packed(front + [b], size) && |b.text| + |b'.text| >= size
    ensures Packed(front + [b] + [b'], size)
  {
    var bs := front + [b] + [b'];
    forall i | 0 <= i < |bs| - 1 ensures |bs[i].text| + |bs[i + 1].text| >= size {
      if i + 1 < |front + [b]| {
        assert bs[i] == (front + [b])[i] && bs[i + 1] == (front + [b])[i + 1];
      }
    }
  }

  lemma AppendPacks(s: State, line: string)
    requires Inv(s) && |line| < s.size && Packed(s.buffers + [s.current], s.size)
    ensures Packed(AppendLine(s, line).buffers + [AppendLine(s, line).current], s.size)
  {
    hide Packed, Conserved, OneOwner;
    var s' := AppendLine(s, line);
    if s'.buffers == s.buffers {
      PackedGrows(s.buffers, s.current, s'.current, s.size);
    } else {
      PackedExtends(s.buffers, s.current, s'.current, s.size);
    }
  }

  lemma {:induction false} RunKeepsPacked(run: seq<State>, steps: seq<Step>, i: nat)
    requires IsRun(run, steps) && i < |run| && forall j :: 0 <= j < i ==> Short(run[0].size, steps[j])
    ensures Packed(run[i].buffers + [run[i].current], run[0].size)
  {
    hide Inv, Next, Enabled, Short;
    if i > 0 {
      RunKeepsPacked(run, steps, i - 1);
      RunKeepsInv(run, steps, i - 1);
      RunKeepsInv(run, steps, i);
      StepKeepsPacked(run[i - 1], steps[i - 1]);
    }
  }

  lemma FirstPair(bs: seq<Buffer>, size: nat)
    requires Packed(bs, size) && |bs| >= 2
    ensures Packed(bs[2..], size) && |Text(bs)| >= size + |Text(bs[2..])|
  {
    var rest := bs[2..];
    forall i | 0 <= i < |rest| - 1 ensures |rest[i].text| + |rest[i + 1].text| >= size {
      assert |bs[i + 2].text| + |bs[i + 2 + 1].text| >= size;
    }
    assert bs[1..][1..] == rest;
    assert |bs[0].text| + |bs[0 + 1].text| >= size;
  }

  lemma OneMore(n: nat, size: nat)
    ensures (n + 1) * size == n * size + size
  {
  }

  lemma {:induction false} PackedVolume(bs: seq<Buffer>, size: nat, pairs: nat)
    requires Packed(bs, size) && 2 * pairs <= |bs|
    ensures |Text(bs)| >= pairs * size
  {
    if pairs > 0 {
      FirstPair(bs, size);
      PackedVolume(bs[2..], size, pairs - 1);
      OneMore(pairs - 1, size);
    }
  }

  /** The buffers of a batch hold exactly what was appended between the last two swaps; and if the lines fit, a batch of
      n buffers takes at least n / 2 buffers' worth of text, so that one of more than 25 takes 13. */
  lemma BatchIsWhatWasAppended(run: seq<State>, steps: seq<Step>, i: nat, j: nat)
    requires IsRun(run, steps) && j < |steps| && Swaps(run[j], steps[j]) && LastSwap(run, steps, i, j)
    ensures Appended(run[0].size, steps, j) == Appended(run[0].size, steps, i) + Text(run[j + 1].toWrite)
    ensures (forall k :: 0 <= k < j ==> Short(run[0].size, steps[k]))
        ==> |Appended(run[0].size, steps, j)| - |Appended(run[0].size, steps, i)|
            >= |run[j + 1].toWrite| / 2 * run[0].size
  {
    hide Inv, Next, Enabled, Swaps, InHand, Short, Packed, LastSwap, Text;
    RunKeepsInv(run, steps, j);
    InHandSince(run, steps, i, j);
    SwapTakesAll(run[j], steps[j]);
    if forall k :: 0 <= k < j ==> Short(run[0].size, steps[k]) {
      RunKeepsPacked(run, steps, j);
      SwapIsShort(run[0].size, run[j], steps[j]);
      StepKeepsPacked(run[j], steps[j]);
      PackedVolume(run[j + 1].toWrite, run[0].size, |run[j + 1].toWrite| / 2);
    }
  }

  lemma SwapIsShort(size: nat, s: State, step: Step)
    requires Swaps(s, step)
    ensures Short(size, step)
  {
  }

  lemma BatchStays(s: State, step: Step)
    requires Inv(s) && Enabled(s, step) && s.phase == Swapped && !step.Trim?
    ensures Next(s, step).toWrite == s.toWrite && Next(s, step).phase == Swapped && !Swaps(s, step)
  {
  }

  lemma {:induction false} BatchUntilTrim(run: seq<State>, steps: seq<Step>, j: nat, k: nat)
    requires IsRun(run, steps) && j < k < |run| && Swaps(run[j], steps[j])
    requires forall l :: j < l < k ==> !steps[l].Trim?
    ensures run[k].toWrite == run[j + 1].toWrite && run[k].phase == Swapped
  {
    hide Inv, Next, Enabled, Swaps;
    RunKeepsInv(run, steps, k - 1);
    if j + 1 == k {
      SwapBegins(run[j], steps[j]);
    } else {
      BatchUntilTrim(run, steps, j, k - 1);
      BatchStays(run[k - 1], steps[k - 1]);
    }
  }

  lemma SwapBegins(s: State, step: Step)
    requires Inv(s) && Enabled(s, step) && Swaps(s, step)
    ensures Next(s, step).phase == Swapped
  {
    hide OneOwner, Conserved;
  }

  /** If the lines fit, text is only lost in a turn that took at least 13 buffers' worth of it since the swap before. */
  lemma LossNeedsVolume(run: seq<State>, steps: seq<Step>, i: nat, j: nat, k: nat)
    requires IsRun(run, steps) && j < k < |steps| && Swaps(run[j], steps[j]) && LastSwap(run, steps, i, j)
    requires steps[k].Trim? && forall l :: j < l < k ==> !steps[l].Trim?
    requires forall l :: 0 <= l < j ==> Short(run[0].size, steps[l])
    requires Lost(run[k], steps[k]) != ""
    ensures |Appended(run[0].size, steps, j)| - |Appended(run[0].size, steps, i)| >= 13 * run[0].size
  {
    BatchUntilTrim(run, steps, j, k);
    BatchIsWhatWasAppended(run, steps, i, j);
    hide Inv, Next, Enabled, Swaps, LastSwap, Short, Text, Appended, IsRun;
    assert |run[k].toWrite| > 25;
    AtLeast(|run[k].toWrite| / 2, 13, run[0].size);
  }

  lemma AtLeast(n: nat, m: nat, size: nat)
    requires n >= m
    ensures n * size >= m * size
  {
  }

  /** A new buffer is made only when there is no recycled one left. */
  lemma BuffersAreReused(s: State, line: string)
    requires Inv(s)
    ensures AppendLine(s, line).created > s.created <==> s.next == None && |s.current.text| + |line| >= s.size
  {
  }

  /** The back end waits exactly when it finds no buffer queued. */
  lemma WaitsExactlyWhenNoneQueued(run: seq<State>, steps: seq<Step>, i: nat)
    requires IsRun(run, steps) && i < |steps| && steps[i] == Lock
    ensures run[i + 1].phase == Waiting <==> run[i].buffers == []
  {
    hide Inv, Next, Enabled;
    RunKeepsInv(run, steps, i);
    LockWaits(run[i]);
  }

  lemma LockWaits(s: State)
    requires Inv(s) && Enabled(s, Lock)
    ensures Next(s, Lock).phase == Waiting <==> s.buffers == []
  {
    hide OneOwner, Conserved;
  }

  /** At the head of the back end's loop both recycled buffers are there and empty, and each has no other owner. */
  lemma HeadHasNewBuffers(run: seq<State>, steps: seq<Step>, i: nat)
    requires IsRun(run, steps) && i < |run| && run[i].phase == Head
    ensures IsNew(run[i].new1) && IsNew(run[i].new2) && run[i].toWrite == []
    ensures Owners(run[i], run[i].new1.value.id) == 1 && Owners(run[i], run[i].new2.value.id) == 1
  {
    RunKeepsInv(run, steps, i);
    var s := run[i];
    assert Owners(s, s.new1.value.id) <= 1 && Owners(s, s.new2.value.id) <= 1;
  }

  lemma NewBuffersWait(s: State)
    requires Inv(s) && (s.phase == Head || s.phase == Waiting)
    ensures IsNew(s.new1) && IsNew(s.new2) && s.toWrite == []
  {
  }

  lemma BatchSuffices(s: State)
    requires Inv(s) && Enabled(s, Recycle)
    ensures |s.toWrite| >= (if s.new1 == None then 1 else 0) + (if s.new2 == None then 1 else 0)
  {
  }

  // The fields of the source, with the locals of threadFunc. Each method is one step.
  class AsyncLogging {
    const size: nat
    var currentBuffer: Buffer
    var nextBuffer: Option<Buffer>
    var buffers: seq<Buffer>
    var newBuffer1: Option<Buffer>
    var newBuffer2: Option<Buffer>
    var buffersToWrite: seq<Buffer>
    var created: nat
    var output: string
    ghost var s: State

    ghost predicate Valid()
      reads this
    {
      && Inv(s) && s.size == size && s.current == currentBuffer && s.next == nextBuffer && s.buffers == buffers
      && s.new1 == newBuffer1 && s.new2 == newBuffer2 && s.toWrite == buffersToWrite
      && s.created == created && s.file == output
    }

    constructor (size: nat)
      requires size > 0
      ensures Valid() && s == Init(size)
    {
      this.size := size;
      currentBuffer, nextBuffer, buffers := Buffer(0, ""), Some(Buffer(1, "")), [];
      newBuffer1, newBuffer2, buffersToWrite := Some(Buffer(2, "")), Some(Buffer(3, "")), [];
      created, output, s := 4, "", Init(size);
      new;
      InitHasInv(size);
    }

    ghost method Advance(step: Step)
      requires Inv(s) && (!s.failed ==> Enabled(s, step))
      modifies this`s
      ensures Inv(s) && !old(s).failed && s == Next(old(s), step)
    {
      assert !s.failed;
      hide Next, Enabled, OneOwner, Conserved, Ready;
      StepKeepsReady(s, step);
      StepKeepsOwners(s, step);
      StepConserves(s, step);
      s := Next(s, step);
    }

    method Append(logline: string)
      requires Valid()
      modifies this
      ensures Valid() && s == Next(old(s), Step.Append(logline))
    {
      hide Inv;
      Advance(Step.Append(logline));
      if size - |currentBuffer.text| > |logline| {
        currentBuffer := Filled(currentBuffer, logline, size);
      } else {
        buffers := buffers + [currentBuffer];
        if nextBuffer.Some? {
          currentBuffer := nextBuffer.value;
          nextBuffer := None;
        } else {
          currentBuffer := Buffer(created, "");
          created := created + 1;
        }
        currentBuffer := Filled(currentBuffer, logline, size);
      }
    }

    // threadFunc up to the wait in its critical section, or to the end of it when there is nothing to wait for.
    method LockBuffers() returns (waits: bool)
      requires Valid() && s.phase == Head
      modifies this
      ensures Valid() && s == Next(old(s), Lock) && waits == (s.phase == Waiting)
    {
      hide Inv;
      NewBuffersWait(s);
      Advance(Lock);
      waits := |buffers| == 0;
      if !waits {
        TakeBuffers();
      }
    }

    method WakeUp()
      requires Valid() && s.phase == Waiting
      modifies this
      ensures Valid() && s == Next(old(s), Wake)
    {
      hide Inv;
      NewBuffersWait(s);
      Advance(Wake);
      TakeBuffers();
    }

    method TakeBuffers()
      requires newBuffer1.Some?
      modifies this`buffers, this`buffersToWrite, this`currentBuffer, this`newBuffer1, this`nextBuffer, this`newBuffer2
      ensures buffersToWrite == old(buffers) + [old(currentBuffer)] && currentBuffer == old(newBuffer1).value
      ensures buffers == [] && newBuffer1 == None
      ensures if old(nextBuffer) == None then nextBuffer == old(newBuffer2) && newBuffer2 == None
              else nextBuffer == old(nextBuffer) && newBuffer2 == old(newBuffer2)
    {
      buffers := buffers + [currentBuffer];
      currentBuffer := newBuffer1.value;
      newBuffer1 := None;
      buffersToWrite, buffers := buffers, [];
      if nextBuffer == None {
        nextBuffer := newBuffer2;
        newBuffer2 := None;
      }
    }

    method CheckBatch(notice: string)
      requires Valid() && s.phase == Swapped
      modifies this
      ensures Valid() && s == Next(old(s), Trim(notice))
    {
      hide Inv;
      Advance(Trim(notice));
      if |buffersToWrite| > MAX_BATCH {
        output := output + notice;
        buffersToWrite := buffersToWrite[..2];
      }
    }

    // One turn of the loop that writes the batch.
    method WriteNext(i: nat)
      requires Valid() && s.phase == Writing(i) && i < |buffersToWrite|
      modifies this
      ensures Valid() && s == Next(old(s), WriteOne)
    {
      hide Inv;
      Advance(WriteOne);
      output := output + buffersToWrite[i].text;
    }

    method RecycleBuffers()
      requires Valid() && Enabled(s, Recycle)
      modifies this
      ensures Valid() && s == Next(old(s), Recycle)
    {
      hide Inv;
      BatchSuffices(s);
      Advance(Recycle);
      if |buffersToWrite| > 2 {
        buffersToWrite := buffersToWrite[..2];
      }
      if newBuffer1 == None {
        newBuffer1 := Some(Emptied(buffersToWrite[|buffersToWrite| - 1]));
        buffersToWrite := buffersToWrite[..|buffersToWrite| - 1];
      }
      if newBuffer2 == None {
        newBuffer2 := Some(Emptied(buffersToWrite[|buffersToWrite| - 1]));
        buffersToWrite := buffersToWrite[..|buffersToWrite| - 1];
      }
      buffersToWrite := [];
    }
  }
}
