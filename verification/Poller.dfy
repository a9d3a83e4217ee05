/** net/Poller.cc with net/Channel.h: a dense array of slots for poll(2), a map from descriptors to channels, and the
    index of its slot in each channel. A slot whose descriptor is replaced by -fd - 1 is ignored by poll. */
module Poller {
  import opened Wrappers

  // POLLIN | POLLPRI and POLLOUT, the events a channel can ask for.
  type Events = e: int | 0 <= e < 8

  const NONE_EVENT: Events := 0

  datatype PollFd = PollFd(fd: int, events: Events, revents: nat)

  function Negated(fd: int): int {
    -fd - 1
  }

  // The descriptor of a slot, ignored or not.
  function FdOf(slot: PollFd): nat {
    if slot.fd < 0 then Negated(slot.fd) else slot.fd
  }

  // updateChannel on an existing slot.
  function Updated(slot: PollFd, fd: nat, events: Events): PollFd {
    PollFd(if events == NONE_EVENT then Negated(fd) else slot.fd, events, 0)
  }

  function UpdatedAll(slot: PollFd, fd: nat, updates: seq<Events>): PollFd {
    if updates == [] then slot
    else Updated(UpdatedAll(slot, fd, updates[..|updates| - 1]), fd, updates[|updates| - 1])
  }

  /** Enabling events again does not bring an ignored slot back: after any updates poll looks at a slot if and only if
      it did before and none of them disabled all events. */
  lemma {:induction false} IgnoredForGood(slot: PollFd, fd: nat, updates: seq<Events>)
    ensures UpdatedAll(slot, fd, updates).fd >= 0 <==> slot.fd >= 0 && NONE_EVENT !in updates
  {
    if updates != [] {
      var last := |updates| - 1;
      IgnoredForGood(slot, fd, updates[..last]);
      assert updates == updates[..last] + [updates[last]];
    }
  }

  function SwapDelete<T>(s: seq<T>, i: nat): seq<T>
    requires i < |s|
  {
    s[i := s[|s| - 1]][..|s| - 1]
  }

  // The slots with events, in order.
  function ReadySlots(slots: seq<PollFd>): (r: seq<nat>)
    ensures forall k :: 0 <= k < |r| ==> r[k] < |slots|
  {
    if slots == [] then []
    else
      var last := |slots| - 1;
      ReadySlots(slots[..last]) + (if slots[last].revents > 0 then [last] else [])
  }

  /** In order, each once, and all of them. */
  lemma {:induction false} ReadySlotsAreReady(slots: seq<PollFd>)
    ensures var r := ReadySlots(slots);
            && (forall j, k :: 0 <= j < k < |r| ==> r[j] < r[k])
            && (forall i :: i in r <==> 0 <= i < |slots| && slots[i].revents > 0)
  {
    if slots != [] { ReadySlotsAreReady(slots[..|slots| - 1]); }
  }

  lemma {:induction false} ReadySlotsOfPrefix(slots: seq<PollFd>, n: nat)
    requires n <= |slots|
    ensures ReadySlots(slots[..n]) <= ReadySlots(slots)
  {
    if n < |slots| {
      var last := |slots| - 1;
      ReadySlotsOfPrefix(slots[..last], n);
      assert slots[..last][..n] == slots[..n];
    } else {
      assert slots[..n] == slots;
    }
  }

  lemma ReadySlotsStep(slots: seq<PollFd>, p: nat)
    requires p < |slots|
    ensures ReadySlots(slots[..p + 1]) == ReadySlots(slots[..p]) + (if slots[p].revents > 0 then [p] else [])
  {
    assert slots[..p + 1][..p] == slots[..p];
  }

  // `index` and `events` are those of the channels, by descriptor.
  datatype State = State(slots: seq<PollFd>, index: map<nat, nat>, events: map<nat, Events>)

  datatype Step = Update(fd: nat, events: Events) | Remove(fd: nat) | Poll(revents: seq<nat>)

  const INIT := State([], map[], map[])

  // Slots and channels are in bijection.
  ghost predicate Indexed(slots: seq<PollFd>, index: map<nat, nat>) {
    && (forall fd :: fd in index ==> index[fd] < |slots| && FdOf(slots[index[fd]]) == fd)
    && (forall i :: 0 <= i < |slots| ==> FdOf(slots[i]) in index && index[FdOf(slots[i])] == i)
  }

  // Each slot holds its channel's events, and is ignored if there are none.
  ghost predicate Inv(s: State) {
    && Indexed(s.slots, s.index) && s.events.Keys == s.index.Keys
    && forall i :: 0 <= i < |s.slots| ==>
         var slot := s.slots[i];
         slot.events == s.events[FdOf(slot)] && (slot.events == NONE_EVENT ==> slot.fd < 0)
  }

  // A channel asks for events when it is first updated, and for none when it is removed.
  ghost predicate Enabled(s: State, step: Step) {
    match step
    case Update(fd, events) => fd in s.index || events != NONE_EVENT
    case Remove(fd) => fd in s.index && fd in s.events && s.events[fd] == NONE_EVENT
    case Poll(revents) =>
      |revents| == |s.slots| && forall i :: 0 <= i < |revents| && s.slots[i].fd < 0 ==> revents[i] == 0
  }

  function UpdateSlot(s: State, fd: nat, events: Events): State {
    var s1 := s.(events := s.events[fd := events]);
    if fd !in s.index then s1.(slots := s.slots + [PollFd(fd, events, 0)], index := s.index[fd := |s.slots|])
    else if s.index[fd] >= |s.slots| then s
    else s1.(slots := s.slots[s.index[fd] := Updated(s.slots[s.index[fd]], fd, events)])
  }

  function IndexWithout(slots: seq<PollFd>, index: map<nat, nat>, fd: nat): map<nat, nat>
    requires fd in index && index[fd] < |slots|
  {
    var last := |slots| - 1;
    if index[fd] == last then index - {fd} else (index - {fd})[FdOf(slots[last]) := index[fd]]
  }

  function RemoveSlot(s: State, fd: nat): State {
    if fd !in s.index || s.index[fd] >= |s.slots| then s
    else
      State(SwapDelete(s.slots, s.index[fd]), IndexWithout(s.slots, s.index, fd), s.events - {fd})
  }

  // What poll(2) writes.
  function Polled(slots: seq<PollFd>, revents: seq<nat>): seq<PollFd>
    requires |revents| == |slots|
  {
    seq(|slots|, i requires 0 <= i < |slots| => slots[i].(revents := revents[i]))
  }

  ghost function Next(s: State, step: Step): State
    requires Enabled(s, step)
  {
    match step
    case Update(fd, events) => UpdateSlot(s, fd, events)
    case Remove(fd) => RemoveSlot(s, fd)
    case Poll(revents) => s.(slots := Polled(s.slots, revents))
  }

  ghost predicate IsRun(run: seq<State>, steps: seq<Step>) {
    && |run| == |steps| + 1 && run[0] == INIT
    && forall i :: 0 <= i < |steps| ==> Enabled(run[i], steps[i]) && run[i + 1] == Next(run[i], steps[i])
  }

  lemma AddKeepsIndexed(slots: seq<PollFd>, index: map<nat, nat>, slot: PollFd)
    requires Indexed(slots, index) && FdOf(slot) !in index
    ensures Indexed(slots + [slot], index[FdOf(slot) := |slots|])
  {
  }

  lemma ChangeKeepsIndexed(slots: seq<PollFd>, index: map<nat, nat>, i: nat, slot: PollFd)
    requires Indexed(slots, index) && i < |slots| && FdOf(slot) == FdOf(slots[i])
    ensures Indexed(slots[i := slot], index)
  {
  }

  /** An update keeps the invariant, unless it is a channel's first and asks for no events: that slot is not ignored. */
  lemma UpdateKeepsInv(s: State, fd: nat, events: Events)
    requires Inv(s)
    ensures Inv(UpdateSlot(s, fd, events)) <==> fd in s.index || events != NONE_EVENT
  {
    var s' := UpdateSlot(s, fd, events);
    if fd !in s.index {
      AddKeepsIndexed(s.slots, s.index, PollFd(fd, events, 0));
      assert s'.slots[|s.slots|] == PollFd(fd, events, 0);
      hide Indexed;
    } else {
      ChangeKeepsIndexed(s.slots, s.index, s.index[fd], Updated(s.slots[s.index[fd]], fd, events));
      assert forall i :: 0 <= i < |s.slots| && i != s.index[fd] ==> FdOf(s.slots[i]) != fd;
      hide Indexed;
    }
  }

  lemma SwapDeleteAt(slots: seq<PollFd>, i: nat, j: nat)
    requires i < |slots| && j < |slots| - 1
    ensures SwapDelete(slots, i)[j] == slots[if j == i then |slots| - 1 else j]
  {
  }

  lemma RemoveKeepsIndexed(slots: seq<PollFd>, index: map<nat, nat>, fd: nat)
    requires Indexed(slots, index) && fd in index
    ensures Indexed(SwapDelete(slots, index[fd]), IndexWithout(slots, index, fd))
  {
  }

  lemma RemoveKeepsInv(s: State, fd: nat)
    requires Inv(s) && Enabled(s, Remove(fd))
    ensures Inv(RemoveSlot(s, fd)) && RemoveSlot(s, fd).events.Keys == RemoveSlot(s, fd).index.Keys
  {
    var s', i := RemoveSlot(s, fd), s.index[fd];
    RemoveKeepsIndexed(s.slots, s.index, fd);
    forall j | 0 <= j < |s'.slots|
      ensures s'.slots[j] in s.slots && FdOf(s'.slots[j]) in s.events && FdOf(s'.slots[j]) != fd
    {
      SwapDeleteAt(s.slots, i, j);
    }
    hide SwapDelete, Indexed;
  }

  lemma PollKeepsInv(s: State, revents: seq<nat>)
    requires Inv(s) && Enabled(s, Poll(revents))
    ensures Inv(s.(slots := Polled(s.slots, revents))) && Answered(Polled(s.slots, revents))
  {
  }

  lemma StepKeepsInv(s: State, step: Step)
    requires Inv(s) && Enabled(s, step)
    ensures Inv(Next(s, step))
  {
    match step
    case Update(fd, events) => UpdateKeepsInv(s, fd, events);
    case Remove(fd) => RemoveKeepsInv(s, fd);
    case Poll(revents) => PollKeepsInv(s, revents);
  }

  lemma {:induction false} RunKeepsInv(run: seq<State>, steps: seq<Step>, i: nat)
    requires IsRun(run, steps) && i < |run|
    ensures Inv(run[i])
  {
    if i > 0 {
      hide Inv, Enabled, Next;
      RunKeepsInv(run, steps, i - 1);
      StepKeepsInv(run[i - 1], steps[i - 1]);
    }
  }

  lemma NoneReady()
    ensures ReadySlots([]) == []
  {
  }

  // poll(2) does not look at ignored slots.
  predicate Answered(slots: seq<PollFd>) {
    forall i :: 0 <= i < |slots| && slots[i].fd < 0 ==> slots[i].revents == 0
  }

  class Channel {
    const fd: nat
    var events: Events
    var revents: nat
    var index: int

    constructor (fd: nat)
      ensures this.fd == fd && events == NONE_EVENT && index == -1
    {
      this.fd, events, revents, index := fd, NONE_EVENT, 0, -1;
    }
  }

  // What a channel asked for in its last update since it was last removed, if there was one.
  ghost function Asked(steps: seq<Step>, j: nat, fd: nat): Option<Events>
    requires j <= |steps|
  {
    if j == 0 then None
    else
      match steps[j - 1]
      case Update(f, events) => if f == fd then Some(events) else Asked(steps, j - 1, fd)
      case Remove(f) => if f == fd then None else Asked(steps, j - 1, fd)
      case Poll(_) => Asked(steps, j - 1, fd)
  }

  /** The channels are those updated and not removed since, each with the events it last asked for; and a channel's slot
      is the one its index leads to. */
  lemma {:induction false} ChannelsAreThoseAsked(run: seq<State>, steps: seq<Step>, j: nat, fd: nat)
    requires IsRun(run, steps) && j < |run|
    ensures fd in run[j].index <==> Asked(steps, j, fd).Some?
    ensures fd in run[j].index ==>
              && run[j].index[fd] < |run[j].slots| && FdOf(run[j].slots[run[j].index[fd]]) == fd
              && run[j].slots[run[j].index[fd]].events == Asked(steps, j, fd).value
  {
    RunKeepsInv(run, steps, j);
    EventsAreThoseAsked(run, steps, j, fd);
    if fd in run[j].index { SlotOf(run[j], fd); }
  }

  lemma {:induction false} EventsAreThoseAsked(run: seq<State>, steps: seq<Step>, j: nat, fd: nat)
    requires IsRun(run, steps) && j < |run|
    ensures fd in run[j].events <==> Asked(steps, j, fd).Some?
    ensures fd in run[j].events ==> run[j].events[fd] == Asked(steps, j, fd).value
  {
    if j > 0 {
      EventsAreThoseAsked(run, steps, j - 1, fd);
      RunKeepsInv(run, steps, j - 1);
      StepEvents(run[j - 1], steps[j - 1], fd);
    }
  }

  lemma StepEvents(s: State, step: Step, fd: nat)
    requires Inv(s) && Enabled(s, step)
    ensures var s' := Next(s, step);
            match step
            case Update(f, events) =>
              if f == fd then fd in s'.events && s'.events[fd] == events else SameAt(s.events, s'.events, fd)
            case Remove(f) => if f == fd then fd !in s'.events else SameAt(s.events, s'.events, fd)
            case Poll(_) => s'.events == s.events
  {
  }

  predicate SameAt(m: map<nat, Events>, n: map<nat, Events>, fd: nat) {
    (fd in m <==> fd in n) && (fd in m ==> m[fd] == n[fd])
  }

  predicate Ignored(s: State, fd: nat) {
    fd in s.index && s.index[fd] < |s.slots| && s.slots[s.index[fd]].fd == -1 - fd
  }

  lemma StepIgnores(s: State, step: Step, fd: nat)
    requires Inv(s) && Enabled(s, step)
    ensures Ignored(Next(s, step), fd) <==> step == Update(fd, NONE_EVENT) || (Ignored(s, fd) && step != Remove(fd))
  {
    match step
    case Update(f, events) => UpdateIgnores(s, f, events, fd);
    case Remove(f) => RemoveIgnores(s, f, fd);
    case Poll(_) =>
  }

  lemma UpdateIgnores(s: State, f: nat, events: Events, fd: nat)
    requires Inv(s) && (f in s.index || events != NONE_EVENT)
    ensures Ignored(UpdateSlot(s, f, events), fd) <==> (f == fd && events == NONE_EVENT) || Ignored(s, fd)
  {
    if f in s.index { SlotOf(s, f); }
    if fd in s.index { SlotOf(s, fd); }
    hide Inv;
  }

  lemma RemoveIgnores(s: State, f: nat, fd: nat)
    requires Inv(s) && f in s.index
    ensures Ignored(RemoveSlot(s, f), fd) <==> f != fd && Ignored(s, fd)
  {
    SlotOf(s, f);
    ChannelOf(s, |s.slots| - 1);
    if fd in s.index {
      SlotOf(s, fd);
      var i := if s.index[fd] == |s.slots| - 1 then s.index[f] else s.index[fd];
      if i < |s.slots| - 1 { SwapDeleteAt(s.slots, s.index[f], i); }
    }
    hide Inv, SwapDelete;
  }

  // The channel has disabled all its events since it was last removed.
  ghost predicate Disabled(steps: seq<Step>, j: nat, fd: nat)
    requires j <= |steps|
  {
    exists i :: 0 <= i < j && steps[i] == Update(fd, NONE_EVENT) && forall k :: i < k < j ==> steps[k] != Remove(fd)
  }

  lemma DisabledStep(steps: seq<Step>, j: nat, fd: nat)
    requires 0 < j <= |steps|
    ensures Disabled(steps, j, fd)
       <==> steps[j - 1] == Update(fd, NONE_EVENT) || (Disabled(steps, j - 1, fd) && steps[j - 1] != Remove(fd))
  {
  }

  /** poll ignores a channel if and only if it has disabled all its events since it was last removed, whatever it has
      asked for after that; so a channel that never did is watched. */
  lemma {:induction false} IgnoredExactlyWhenDisabled(run: seq<State>, steps: seq<Step>, j: nat, fd: nat)
    requires IsRun(run, steps) && j < |run|
    ensures Ignored(run[j], fd) <==> Disabled(steps, j, fd)
    ensures fd in run[j].index && !Disabled(steps, j, fd) ==>
              run[j].index[fd] < |run[j].slots| && run[j].slots[run[j].index[fd]].fd == fd
  {
    hide Next, Enabled, Inv, Disabled;
    RunKeepsInv(run, steps, j);
    if fd in run[j].index { SlotOf(run[j], fd); }
    if j > 0 {
      IgnoredExactlyWhenDisabled(run, steps, j - 1, fd);
      RunKeepsInv(run, steps, j - 1);
      StepIgnores(run[j - 1], steps[j - 1], fd);
      DisabledStep(steps, j, fd);
    } else {
      NoneDisabled(steps, fd);
    }
  }

  lemma NoneDisabled(steps: seq<Step>, fd: nat)
    ensures !Disabled(steps, 0, fd)
  {
  }

  /** Once a channel has disabled all its events, poll ignores it until it is removed, whatever it asks for since. */
  lemma IgnoredUntilRemoved(run: seq<State>, steps: seq<Step>, i: nat, j: nat, fd: nat)
    requires IsRun(run, steps) && i < j < |run| && steps[i] == Update(fd, NONE_EVENT)
    requires forall k :: i < k < j ==> steps[k] != Remove(fd)
    ensures Ignored(run[j], fd)
  {
    IgnoredExactlyWhenDisabled(run, steps, j, fd);
  }

  lemma SwapThenPop<T>(a: seq<T>, i: nat)
    requires i < |a|
    ensures var last := |a| - 1; a[i := a[last]][last := a[i]][..last] == SwapDelete(a, i)
    ensures i == |a| - 1 ==> a[..|a| - 1] == SwapDelete(a, i)
  {
  }

  lemma SlotOf(s: State, fd: nat)
    requires Inv(s) && fd in s.index
    ensures s.index[fd] < |s.slots| && FdOf(s.slots[s.index[fd]]) == fd && fd in s.events
    ensures s.events[fd] == s.slots[s.index[fd]].events
    ensures s.events[fd] == NONE_EVENT ==> s.slots[s.index[fd]].fd == Negated(fd)
  {
  }

  // What a removal does to the maps: the channel of the last slot takes the index that has become free.
  lemma RemovedMaps(s: State, fd: nat)
    requires Inv(s) && fd in s.index && fd in s.events && s.events[fd] == NONE_EVENT
    ensures var s', last := RemoveSlot(s, fd), FdOf(s.slots[|s.slots| - 1]);
            && Inv(s') && last in s.index && s.index[last] == |s.slots| - 1
            && s'.slots == SwapDelete(s.slots, s.index[fd]) && s'.events == s.events - {fd}
            && (forall f :: f in s'.index <==> f in s.index && f != fd)
            && forall f :: f in s'.index ==> s'.index[f] == if f == last then s.index[fd] else s.index[f]
  {
    SlotOf(s, fd);
    ChannelOf(s, |s.slots| - 1);
    RemoveKeepsInv(s, fd);
  }

  // A slot's descriptor is not that of any slot before it.
  lemma NewDescriptor(s: State, p: nat)
    requires Inv(s) && p < |s.slots|
    ensures forall i :: 0 <= i < p ==> FdOf(s.slots[i]) != FdOf(s.slots[p])
  {
  }

  lemma ChannelOf(s: State, i: nat)
    requires Inv(s) && i < |s.slots|
    ensures FdOf(s.slots[i]) in s.index && s.index[FdOf(s.slots[i])] == i
  {
  }

  class Poller {
    var pollfds: seq<PollFd>
    var channels: map<nat, Channel>
    ghost var known: set<Channel>
    ghost var s: State

    // The events of `changed` may be about to be updated.
    ghost predicate ValidExcept(changed: Option<Channel>)
      reads this, known
    {
      && Inv(s) && pollfds == s.slots
      && (forall fd :: fd in channels <==> fd in s.index)
      && forall fd :: fd in channels ==>
           var c := channels[fd];
           c in known && c.fd == fd && c.index == s.index[fd] && (changed != Some(c) ==> c.events == s.events[fd])
    }

    ghost predicate Valid()
      reads this, known
    {
      ValidExcept(None)
    }

    // What the assertions of updateChannel ask for.
    predicate Accepts(channel: Channel)
      reads this, channel
    {
      if channel.index < 0 then channel.fd !in channels else channel.fd in channels && channels[channel.fd] == channel
    }

    // Known to the poller, but no longer registered, with the index it had.
    ghost predicate Removed(channel: Channel)
      reads this, channel
    {
      channel in known && channel.index >= 0 && !(channel.fd in channels && channels[channel.fd] == channel)
    }

    constructor ()
      ensures Valid() && s == INIT && known == {}
    {
      pollfds, channels, known, s := [], map[], {}, INIT;
    }

    method UpdateChannel(channel: Channel)
      requires ValidExcept(Some(channel)) && Accepts(channel) && (channel.index < 0 ==> channel.events != NONE_EVENT)
      modifies this, channel`index
      ensures Valid() && s == UpdateSlot(old(s), channel.fd, channel.events)
      ensures channels == old(channels)[channel.fd := channel] && known == old(known) + {channel}
      ensures forall c :: c in old(known) && old(Removed(c)) ==> Removed(c) && !Accepts(c)
    {
      hide Inv, UpdateSlot;
      if channel.index < 0 {
        AddNew(channel);
      } else {
        UpdateExisting(channel);
      }
    }

    // The two branches of updateChannel.

    method AddNew(channel: Channel)
      requires ValidExcept(Some(channel)) && channel.fd !in channels && channel.events != NONE_EVENT
      modifies this, channel`index
      ensures Valid() && s == UpdateSlot(old(s), channel.fd, channel.events)
      ensures channels == old(channels)[channel.fd := channel] && known == old(known) + {channel}
    {
      hide Inv;
      UpdateKeepsInv(s, channel.fd, channel.events);
      var pfd := PollFd(channel.fd, channel.events, 0);
      pollfds := pollfds + [pfd];
      var idx := |pollfds| - 1;
      channel.index := idx;
      channels := channels[pfd.fd := channel];
      known := known + {channel};
      s := UpdateSlot(s, channel.fd, channel.events);
    }

    method UpdateExisting(channel: Channel)
      requires ValidExcept(Some(channel)) && channel.fd in channels && channels[channel.fd] == channel
      modifies this`pollfds, this`s
      ensures Valid() && s == UpdateSlot(old(s), channel.fd, channel.events)
    {
      hide Inv;
      UpdateKeepsInv(s, channel.fd, channel.events);
      SlotOf(s, channel.fd);
      var idx := channel.index;
      var pfd := pollfds[idx];
      assert pfd.fd == channel.fd || pfd.fd == Negated(channel.fd);
      pfd := pfd.(events := channel.events, revents := 0);
      if channel.events == NONE_EVENT {
        pfd := pfd.(fd := Negated(channel.fd));
      }
      pollfds := pollfds[idx := pfd];
      s := UpdateSlot(s, channel.fd, channel.events);
    }

    // The channel's own index is left as it was, so that it cannot be updated again; nor can one removed before.
    method RemoveChannel(channel: Channel)
      requires Valid() && channel.fd in channels && channels[channel.fd] == channel && channel.events == NONE_EVENT
      modifies this, known`index
      ensures Valid() && channels == old(channels) - {channel.fd} && s == RemoveSlot(old(s), channel.fd)
      ensures known == old(known) && Removed(channel) && !Accepts(channel)
      ensures forall c :: c in known && old(Removed(c)) ==> Removed(c) && !Accepts(c)
      ensures forall c :: c in known && !(c.fd in channels && channels[c.fd] == c) ==> c.index == old(c.index)
    {
      hide Inv, SwapDelete, RemoveSlot, FdOf;
      SlotOf(s, channel.fd);
      assert pollfds[channel.index].fd == Negated(channel.fd) && pollfds[channel.index].events == channel.events;
      RemovedMaps(s, channel.fd);
      Unlink(channel);
      s := RemoveSlot(s, channel.fd);
    }

    // removeChannel after its assertions: the channel of the last slot takes the index that becomes free.
    method Unlink(channel: Channel)
      requires Valid() && channel.fd in channels && channels[channel.fd] == channel
      modifies this`pollfds, this`channels, known`index
      ensures pollfds == SwapDelete(old(pollfds), old(channel.index)) && channels == old(channels) - {channel.fd}
      ensures forall c :: c in known && !(c.fd in channels && channels[c.fd] == c) ==> c.index == old(c.index)
      ensures var last := FdOf(old(pollfds)[|old(pollfds)| - 1]);
              forall fd :: fd in channels ==>
                channels[fd].index == if fd == last then channel.index else old(channels[fd].index)
    {
      hide Inv, SwapDelete, FdOf;
      SlotOf(s, channel.fd);
      ChannelOf(s, |pollfds| - 1);
      var idx := channel.index;
      channels := channels - {channel.fd};
      var channelAtEnd := SwapToEnd(idx);
      if idx != |pollfds| {
        channels[channelAtEnd].index := idx;
      }
    }

    // The swap, unless it is the last slot that goes, and the pop. Returns the descriptor of the last slot.
    method SwapToEnd(idx: nat) returns (channelAtEnd: nat)
      requires idx < |pollfds|
      modifies this`pollfds
      ensures |pollfds| == |old(pollfds)| - 1 && pollfds == SwapDelete(old(pollfds), idx)
      ensures channelAtEnd == FdOf(old(pollfds)[|old(pollfds)| - 1])
    {
      ghost var before, last := pollfds, |pollfds| - 1;
      var fd := pollfds[|pollfds| - 1].fd;
      channelAtEnd := if fd < 0 then Negated(fd) else fd;
      if idx != |pollfds| - 1 {
        pollfds := pollfds[idx := pollfds[|pollfds| - 1]][|pollfds| - 1 := pollfds[idx]];
      }
      pollfds := pollfds[..|pollfds| - 1];
      SwapThenPop(before, idx);
    }

    // Each channel is that of a slot with one of these indices, in order, and has its events.
    ghost predicate Lists(active: seq<Channel>, indices: seq<nat>)
      reads this, known
    {
      |active| == |indices| &&
      forall k :: 0 <= k < |active| ==>
        && indices[k] < |pollfds| && pollfds[indices[k]].fd in channels
        && active[k] == channels[pollfds[indices[k]].fd] && active[k] in known
        && active[k].revents == pollfds[indices[k]].revents
    }

    // The scan stops when numEvents channels have been found.
    method FillActiveChannels(numEvents: nat) returns (active: seq<Channel>)
      requires Valid() && Answered(pollfds)
      modifies known`revents
      ensures Valid()
      ensures var ready := ReadySlots(pollfds); Lists(active, if numEvents < |ready| then ready[..numEvents] else ready)
    {
      hide Inv, ReadySlots;
      active := [];
      var n, p := numEvents, 0;
      NoneReady();
      while p < |pollfds| && n > 0
        invariant 0 <= n && p <= |pollfds| && n + |active| == numEvents
        invariant Valid() && Lists(active, ReadySlots(pollfds[..p]))
      {
        ReadySlotsStep(pollfds, p);
        if pollfds[p].revents > 0 {
          n := n - 1;
          active := Activate(active, p);
        }
        p := p + 1;
      }
      ReadySlotsOfPrefix(pollfds, p);
      assert n > 0 ==> pollfds[..p] == pollfds;
    }

    // One turn of the scan that finds a channel.
    method Activate(active: seq<Channel>, p: nat) returns (longer: seq<Channel>)
      requires Valid() && p < |pollfds| && pollfds[p].fd >= 0 && Lists(active, ReadySlots(pollfds[..p]))
      modifies known`revents
      ensures Valid() && Lists(longer, ReadySlots(pollfds[..p]) + [p])
    {
      hide Inv, ReadySlots;
      ChannelOf(s, p);
      NewDescriptor(s, p);
      var pfd := pollfds[p];
      var channel := channels[pfd.fd];
      assert channel.fd == pfd.fd;
      assert forall k :: 0 <= k < |active| ==> active[k] != channel;
      channel.revents := pfd.revents;
      longer := active + [channel];
    }

    // `answer` is what poll(2) writes, or None when it fails; its result is the number of slots with events.
    method Poll(answer: Option<seq<nat>>) returns (active: seq<Channel>)
      requires Valid() && (answer.Some? ==> Enabled(s, Step.Poll(answer.value)))
      modifies this`pollfds, this`s, known`revents
      ensures forall c :: c in known && old(Removed(c)) ==> Removed(c) && !Accepts(c)
      ensures Valid() && s == if answer.Some? then Next(old(s), Step.Poll(answer.value)) else old(s)
      ensures Lists(active, if answer.Some? then ReadySlots(pollfds) else [])
    {
      hide Inv, ReadySlots;
      active := [];
      if answer.Some? {
        PollKeepsInv(s, answer.value);
        s := s.(slots := Polled(s.slots, answer.value));
        pollfds := Polled(pollfds, answer.value);
        var numEvents := |ReadySlots(pollfds)|;
        if numEvents > 0 {
          active := FillActiveChannels(numEvents);
        }
      }
    }
  }
}
