/**
  An event loop with its channels as objects, under every interleaving of the loop's own steps with those of
  posting threads, the kernel and callbacks (net/EventLoop.cpp, net/Channel.cpp).
 */
module LoopSystems {
  import opened EventLoops
  import opened LoopSpec
  import opened Seqs

  /** The channels have these flags. */
  ghost predicate Shown(channels: seq<Channel>, flags: seq<Flags>)
    reads channels
  {
    |channels| == |flags| && forall i :: 0 <= i < |channels| ==> channels[i].State() == flags[i]
  }

  lemma NotTaken(f: Flags, e: Event)
    ensures !Accepts(f, e) ==> Raise(f, e) == f
  {
  }

  /** The read callback of the wakeup channel, `handleWakeup`, makes it unreadable again. */
  const WAKEUP_REACTIONS: seq<seq<Call>> := [[], [], [DisableReadable], []]
  const NO_REACTIONS: seq<seq<Call>> := [[], [], [], []]

  lemma WakeupReaction(f: Flags)
    requires !f.rclose && !f.rerror && !f.rwrite
    ensures Dispatches(f) == if f.rread then [ReadEvent] else []
    ensures Reacted(Handled(f), Dispatches(f), WAKEUP_REACTIONS)
         == if f.rread then Handled(f).(readable := false) else Handled(f)
  {
    var g := Handled(f);
    assert [ReadEvent][1..] == [] && [DisableReadable][1..] == [];
    assert CallAll(g, [DisableReadable]) == CallAll(Called(g, DisableReadable), []);
    assert Reacted(g, [ReadEvent], WAKEUP_REACTIONS) == Reacted(CallAll(g, [DisableReadable]), [], WAKEUP_REACTIONS);
  }

  class LoopSystem {
    const loop: EventLoop
    const channels: seq<Channel>   // the first is the wakeup channel
    var phase: Phase               // where the loop thread is
    var functors: seq<Functor>     // what is left of the vector that it swapped
    var posted: nat                // how many functors the threads have pushed
    var signalled: set<nat>        // and which of them have also written to the eventfd
    ghost var state: Loop

    ghost predicate Wired() {
      NoDuplicates(channels) && forall i :: 0 <= i < |channels| ==> channels[i].loop == loop
    }

    /** Flags and active list are those of `s`. */
    ghost predicate Mirrors(s: Loop)
      reads loop`activedChannels, channels
    {
      Wired() && Shown(channels, s.channels) && Numbered(channels, s.active, loop.activedChannels)
    }

    ghost predicate Valid()
      reads this, loop, channels
    {
      && Inv(state) && Mirrors(state) && loop.Represents(state)
      && phase == state.phase && functors == state.batch && posted == |state.posted| && signalled == state.signalled
    }

    constructor (loop: EventLoop, channels: seq<Channel>, ghost state: Loop)
      requires Fresh(state) && Shown(channels, state.channels) && NoDuplicates(channels)
      requires loop.Represents(state) && loop.activedChannels == []
      requires forall i :: 0 <= i < |channels| ==> channels[i].loop == loop
      ensures Valid() && this.loop == loop && this.channels == channels && this.state == state
    {
      hide Inv, Channel.State;
      FreshOk(state);
      this.loop, this.channels, this.state := loop, channels, state;
      phase, functors, posted, signalled := Polling, [], 0, {};
    }

    /** One reported event. */
    method Report(id: nat, e: Event, ghost s: Loop)
      requires Mirrors(s) && id < |channels|
      modifies loop`activedChannels, channels[id]
      ensures id < |s.channels| && Mirrors(RaiseOn(s, id, e))
    {
      hide Raise, Accepts, Channel.State;
      ghost var list := loop.activedChannels;
      channels[id].ListedAs();
      NumberedMore(channels, s.active, list, id);
      NotTaken(s.channels[id], e);
      channels[id].Report(e);
    }

    /** `epoll_wait` reports the eventfd first, if it is ready, and then `events`. */
    method Poll(events: seq<(nat, Event)>)
      requires Valid()
      modifies this, loop, channels
      ensures IdsOk(old(state)) && state == Next(old(state), LoopSpec.Poll(events)) && Valid()
    {
      hide Inv, Mirrors, RaiseOn, RaiseAll;
      ghost var s := state;
      NextKeepsInv(s, LoopSpec.Poll(events));
      Sizes(s);
      if phase == Polling {
        ghost var t := s;
        if loop.edge && loop.wakeups > 0 {
          Report(0, ReadEvent, t);
          t := RaiseOn(t, 0, ReadEvent);
        }
        for i := 0 to |events|
          invariant Mirrors(t) && loop.Represents(s) && phase == Polling && functors == s.batch
          invariant posted == |s.posted| && signalled == s.signalled && state == s
          invariant RaiseAll(t, events[i..]) == RaiseAll(if WakeupReady(s) then RaiseOn(s, 0, ReadEvent) else s, events)
        {
          Sizes(t);
          RaiseFirst(t, events, i);
          if 0 < events[i].0 < |channels| {
            Report(events[i].0, events[i].1, t);
            t := RaiseOn(t, events[i].0, events[i].1);
          }
        }
        RaiseNothing(t);
        assert events[|events|..] == [];
        Polled(s, t, events);
        loop.edge := false;
        phase := Handling(0);
        state := Next(s, LoopSpec.Poll(events));
        MirrorsSame(t, state);
      }
    }

    lemma Sizes(s: Loop)
      requires Mirrors(s)
      ensures |channels| == |s.channels| && Wired()
    {
    }

    lemma MirrorsSame(s: Loop, t: Loop)
      requires Mirrors(s) && t.channels == s.channels && t.active == s.active
      ensures Mirrors(t)
    {
    }

    lemma Polled(s: Loop, t: Loop, events: seq<(nat, Event)>)
      requires Inv(s) && s.phase == Polling
      requires t == RaiseAll(if WakeupReady(s) then RaiseOn(s, 0, ReadEvent) else s, events)
      ensures IdsOk(s) && Next(s, LoopSpec.Poll(events)) == t.(edge := false, phase := Handling(0))
      ensures t == s.(channels := t.channels, active := t.active, raised := t.raised)
    {
      hide ActiveFrom, HistoryInv, RaiseAll;
      InvIds(s);
      NothingActive(s);
      if WakeupReady(s) {
        RaiseKeepsActive(s, 0, ReadEvent);
        RaiseKeepsHistory(s, 0, ReadEvent);
      }
      RaiseAllKeeps(if WakeupReady(s) then RaiseOn(s, 0, ReadEvent) else s, events);
    }

    lemma RaiseFirst(t: Loop, events: seq<(nat, Event)>, i: nat)
      requires i < |events|
      ensures RaiseAll(t, events[i..]) ==
        RaiseAll(if 0 < events[i].0 < |t.channels| then RaiseOn(t, events[i].0, events[i].1) else t, events[i + 1..])
    {
      assert events[i..][1..] == events[i + 1..];
    }

    lemma RaiseNothing(t: Loop)
      ensures RaiseAll(t, []) == t
    {
    }

    /** One channel of the active list, or the end of it; what the user's callbacks do comes as calls of
        their own. */
    method HandleNext()
      requires Valid()
      modifies this, loop, channels
      ensures IdsOk(old(state)) && state == Next(old(state), LoopSpec.HandleNext) && Valid()
    {
      hide Inv, Mirrors, HandleChannel;
      ghost var s := state;
      NextKeepsInv(s, LoopSpec.HandleNext);
      ListSize(s);
      if phase.Handling? {
        HandledPhase(s);
        var k := phase.k;
        if k < |loop.activedChannels| {
          HandleOne(k);
          phase := Handling(k + 1);
        } else {
          loop.activedChannels := [];
          phase := Swapping;
          EmptyList(s, Next(s, LoopSpec.HandleNext));
        }
        state := Next(s, LoopSpec.HandleNext);
      }
    }

    lemma ListSize(s: Loop)
      requires Mirrors(s)
      ensures |s.active| == |loop.activedChannels| && Wired() && Shown(channels, s.channels)
    {
    }

    lemma EmptyList(s: Loop, t: Loop)
      requires Wired() && Shown(channels, s.channels) && t.channels == s.channels && t.active == []
               && loop.activedChannels == []
      ensures Mirrors(t)
    {
    }

    lemma HandledPhase(s: Loop)
      requires IdsOk(s) && s.phase.Handling?
      ensures var t := Next(s, LoopSpec.HandleNext); var k := s.phase.k;
              && t.phase == (if k < |s.active| then Handling(k + 1) else Swapping)
              && (k < |s.active| ==> t == HandleChannel(s, k) && t.active == s.active)
              && t.batch == s.batch && t.posted == s.posted && t.signalled == s.signalled
              && t.pending == s.pending && t.edge == s.edge
              && (k >= |s.active| ==> t.counter == s.counter && t.channels == s.channels && t.active == [])
    {
    }

    /** The k-th channel of the list; for the wakeup channel the eventfd is read. */
    method HandleOne(k: nat)
      requires Valid() && k < |loop.activedChannels|
      modifies loop`wakeups, channels
      ensures k < |state.active| && state.active[k] < |state.channels|
      ensures Mirrors(HandleChannel(state, k)) && loop.wakeups == HandleChannel(state, k).counter
      ensures loop.pendingFunctors == old(loop.pendingFunctors) && loop.edge == old(loop.edge)
      ensures loop.wakeups == if loop.activedChannels[k] == channels[0] && old(channels[0].rread) then 0
                              else old(loop.wakeups)
    {
      hide Reacted, Dispatches, Handled, Channel.State, Inv;
      channels[0].FieldsShown();
      ghost var id := state.active[k];
      ghost var f := state.channels[id];
      InvIds(state);
      WakeChannelFlags(state);
      assert loop.activedChannels[k] == channels[id];
      if loop.activedChannels[k] == channels[0] {
        WakeupReaction(f);
        var calls := channels[0].HandleEvents(WAKEUP_REACTIONS);
        if calls != [] {
          loop.wakeups := 0;
        }
      } else {
        NoReaction(Handled(f), Dispatches(f), NO_REACTIONS);
        var _ := loop.activedChannels[k].HandleEvents(NO_REACTIONS);
      }
    }

    lemma WakeChannelFlags(s: Loop)
      requires Inv(s)
      ensures |s.channels| > 0 && !s.channels[0].rclose && !s.channels[0].rerror && !s.channels[0].rwrite
    {
    }

    /** A thread pushes a functor. */
    method Post(f: Functor)
      requires Valid()
      modifies this, loop
      ensures IdsOk(old(state)) && state == Next(old(state), LoopSpec.Post(f)) && Valid()
    {
      hide Inv, Mirrors;
      ghost var s := state;
      NextKeepsInv(s, LoopSpec.Post(f));
      loop.Push(f);
      posted := posted + 1;
      state := Next(s, LoopSpec.Post(f));
      MirrorsSame(s, state);
    }

    /** The same thread writes to the eventfd, and `runInLoop` returns. */
    method Signal(p: nat)
      requires Valid()
      modifies this, loop
      ensures IdsOk(old(state)) && state == Next(old(state), LoopSpec.Signal(p)) && Valid()
    {
      hide Inv, Mirrors;
      ghost var s := state;
      NextKeepsInv(s, LoopSpec.Signal(p));
      if p < posted && p !in signalled {
        loop.Wakeup();
        signalled := signalled + {p};
        state := Next(s, LoopSpec.Signal(p));
        MirrorsSame(s, state);
      }
    }

    /** The swap of `doPendingFunctors`. */
    method SwapPending()
      requires Valid()
      modifies this, loop
      ensures IdsOk(old(state)) && state == Next(old(state), LoopSpec.SwapPending) && Valid()
    {
      hide Inv, Mirrors;
      ghost var s := state;
      NextKeepsInv(s, LoopSpec.SwapPending);
      if phase == Swapping {
        functors, loop.pendingFunctors := loop.pendingFunctors, [];
        phase := RunningBatch;
        state := Next(s, LoopSpec.SwapPending);
        MirrorsSame(s, state);
      }
    }

    /** The next functor of the batch, which is returned to be run, or the end of it. */
    method RunNext() returns (run: seq<Functor>)
      requires Valid()
      modifies this
      ensures IdsOk(old(state)) && state == Next(old(state), LoopSpec.RunNext) && Valid()
      ensures state.executed == old(state).executed + run
    {
      hide Inv, Mirrors;
      ghost var s := state;
      NextKeepsInv(s, LoopSpec.RunNext);
      run := [];
      assert s.executed + [] == s.executed;
      if phase == RunningBatch {
        if functors == [] {
          phase := Polling;
        } else {
          run := [functors[0]];
          functors := functors[1..];
        }
        state := Next(s, LoopSpec.RunNext);
        MirrorsSame(s, state);
      }
    }

    /** What a callback or a functor does to a channel of its own. */
    method UserCall(id: nat, call: Call)
      requires Valid()
      modifies this, channels
      ensures IdsOk(old(state)) && state == Next(old(state), LoopSpec.UserCall(id, call)) && Valid()
    {
      hide Inv, Called, Channel.State;
      ghost var s := state;
      NextKeepsInv(s, LoopSpec.UserCall(id, call));
      if 0 < id < |channels| {
        OneCall(s.channels[id], call);
        channels[id].React([call]);
        state := Next(s, LoopSpec.UserCall(id, call));
      }
    }

    lemma OneCall(f: Flags, call: Call)
      ensures CallAll(f, [call]) == Called(f, call)
    {
      assert [call][1..] == [];
    }

    /** One step of whoever's turn it is. */
    method Perform(step: Step)
      requires Valid()
      modifies this, loop, channels
      ensures IdsOk(old(state)) && state == Next(old(state), step) && Valid()
    {
      hide LoopSystem.Valid;
      match step {
        case Post(f) => Post(f);
        case Signal(p) => Signal(p);
        case Poll(events) => Poll(events);
        case HandleNext => HandleNext();
        case SwapPending => SwapPending();
        case RunNext => var _ := RunNext();
        case UserCall(id, call) => UserCall(id, call);
      }
    }

    /** Under every schedule of the loop, the posting threads, the kernel and the callbacks the objects do
        what `LoopSpec.Run` says, so that all that is proved there holds of them. */
    method Run(steps: seq<Step>)
      requires Valid()
      modifies this, loop, channels
      ensures Valid() && Inv(old(state)) && state == LoopSpec.Run(old(state), steps)
    {
      hide LoopSystem.Valid, Inv, Next;
      ghost var s := state;
      Sound();
      for i := 0 to |steps|
        invariant Valid() && Inv(s) && Inv(state) && LoopSpec.Run(state, steps[i..]) == LoopSpec.Run(s, steps)
      {
        assert steps[i..][0] == steps[i] && steps[i..][1..] == steps[i + 1..];
        Perform(steps[i]);
        Sound();
      }
    }

    lemma Sound()
      requires Valid()
      ensures Inv(state)
    {
    }
  }

  /** What the channels ask for: the wakeup channel for reading, the others as `asked` says. */
  function InitialFlags(asked: seq<(bool, bool)>): (flags: seq<Flags>)
    ensures |flags| == |asked| + 1
  {
    seq(|asked| + 1, i requires 0 <= i <= |asked| =>
      if i == 0 then NEW_FLAGS.(read := true) else NEW_FLAGS.(read := asked[i - 1].0, write := asked[i - 1].1))
  }

  method NewChannel(loop: EventLoop, f: Flags) returns (c: Channel)
    requires f == NEW_FLAGS.(read := f.read, write := f.write)
    ensures fresh(c) && c.loop == loop && c.State() == f
  {
    c := new Channel(loop);
    c.read, c.write := f.read, f.write;
  }

  method MakeChannels(loop: EventLoop, flags: seq<Flags>) returns (channels: seq<Channel>)
    requires forall i :: 0 <= i < |flags| ==> flags[i] == NEW_FLAGS.(read := flags[i].read, write := flags[i].write)
    ensures Shown(channels, flags) && NoDuplicates(channels)
    ensures forall i :: 0 <= i < |channels| ==> fresh(channels[i]) && channels[i].loop == loop
  {
    hide Channel.State;
    channels := [];
    for i := 0 to |flags|
      invariant |channels| == i && NoDuplicates(channels)
      invariant forall k :: 0 <= k < i ==>
                  fresh(channels[k]) && channels[k].loop == loop && channels[k].State() == flags[k]
    {
      var c := NewChannel(loop, flags[i]);
      AddFresh(channels, c);
      channels := channels + [c];
    }
  }

  /** `EventLoop` as constructed, with any number of further channels. */
  method Start(asked: seq<(bool, bool)>) returns (system: LoopSystem)
    ensures fresh(system) && system.Valid() && Fresh(system.state) && |system.channels| == |asked| + 1
  {
    hide LoopSystem.Valid, Channel.State;
    var flags := InitialFlags(asked);
    var loop := new EventLoop();
    var channels := MakeChannels(loop, flags);
    ghost var state := Loop(flags, [], Polling, [], [], [], [], {}, 0, 0, false, multiset{}, multiset{});
    system := new LoopSystem(loop, channels, state);
  }
}
