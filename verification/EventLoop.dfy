/** `Channel` and `EventLoop` as objects (net/Channel.cpp, net/EventLoop.cpp). */
module EventLoops {
  import opened LoopSpec
  import opened Seqs

  lemma DispatchedInTurn(f: Flags)
    ensures var first := With(With([], CloseEvent, f.Raised(CloseEvent)), ErrorEvent, f.Raised(ErrorEvent));
            Dispatches(f) == With(With(first, ReadEvent, f.Raised(ReadEvent)), WriteEvent, f.Raised(WriteEvent))
  {
  }

  lemma ReactedOneMore(f: Flags, events: seq<Event>, e: Event, reactions: seq<seq<Call>>)
    requires |reactions| == 4
    ensures Reacted(f, events + [e], reactions) == CallAll(Reacted(f, events, reactions), reactions[Rank(e)])
  {
    hide CallAll;
    ReactedConcat(f, events, [e], reactions);
    assert [e][1..] == [];
  }

  class Channel {
    const loop: EventLoop
    var read: bool
    var write: bool
    var rclose: bool
    var rerror: bool
    var rread: bool
    var rwrite: bool
    var actived: bool
    var closed: bool
    var readable: bool
    var writeable: bool

    constructor (loop: EventLoop)
      ensures this.loop == loop && State() == NEW_FLAGS
    {
      this.loop := loop;
      read, write, rclose, rerror, rread, rwrite := false, false, false, false, false, false;
      actived, closed, readable, writeable := false, false, false, false;
    }

    function State(): Flags
      reads this
    {
      Flags(read, write, rclose, rerror, rread, rwrite, actived, closed, readable, writeable)
    }

    /** The active list after this channel is put on it, unless it is marked as being there. */
    function Listed(): seq<Channel>
      reads this, loop
    {
      if actived then loop.activedChannels else loop.activedChannels + [this]
    }

    lemma ListedAs()
      ensures Listed() == if State().actived then loop.activedChannels else loop.activedChannels + [this]
    {
    }

    method AddActivedChannel()
      modifies this`actived, loop`activedChannels
      ensures actived && loop.activedChannels == old(Listed())
    {
      if !actived {
        loop.activedChannels := loop.activedChannels + [this];
        actived := true;
      }
    }

    method OnClose()
      modifies this, loop`activedChannels
      ensures if old(!closed && !rclose) then
                State() == old(State()).(closed := true, rclose := true, actived := true)
                && loop.activedChannels == old(loop.activedChannels) + (if old(actived) then [] else [this])
              else unchanged(this) && unchanged(loop`activedChannels)
      ensures State() == Raise(old(State()), CloseEvent)
      ensures loop.activedChannels == if Accepts(old(State()), CloseEvent) then old(Listed())
              else old(loop.activedChannels)
    {
      if !closed && !rclose {
        closed, rclose := true, true;
        AddActivedChannel();
      }
    }

    method OnError()
      modifies this, loop`activedChannels
      ensures if old(!rerror) then
                State() == old(State()).(rerror := true, actived := true)
                && loop.activedChannels == old(loop.activedChannels) + (if old(actived) then [] else [this])
              else unchanged(this) && unchanged(loop`activedChannels)
      ensures State() == Raise(old(State()), ErrorEvent)
      ensures loop.activedChannels == if Accepts(old(State()), ErrorEvent) then old(Listed())
              else old(loop.activedChannels)
    {
      if !rerror {
        rerror := true;
        AddActivedChannel();
      }
    }

    method OnRead()
      modifies this, loop`activedChannels
      ensures if old(read && !readable && !rread) then
                State() == old(State()).(readable := true, rread := true, actived := true)
                && loop.activedChannels == old(loop.activedChannels) + (if old(actived) then [] else [this])
              else unchanged(this) && unchanged(loop`activedChannels)
      ensures State() == Raise(old(State()), ReadEvent)
      ensures loop.activedChannels == if Accepts(old(State()), ReadEvent) then old(Listed())
              else old(loop.activedChannels)
    {
      if read && !readable && !rread {
        readable, rread := true, true;
        AddActivedChannel();
      }
    }

    method OnWrite()
      modifies this, loop`activedChannels
      ensures if old(write && !writeable && !rwrite) then
                State() == old(State()).(writeable := true, rwrite := true, actived := true)
                && loop.activedChannels == old(loop.activedChannels) + (if old(actived) then [] else [this])
              else unchanged(this) && unchanged(loop`activedChannels)
      ensures State() == Raise(old(State()), WriteEvent)
      ensures loop.activedChannels == if Accepts(old(State()), WriteEvent) then old(Listed())
              else old(loop.activedChannels)
    {
      if write && !writeable && !rwrite {
        writeable, rwrite := true, true;
        AddActivedChannel();
      }
    }

    /** What the poller reports. */
    method Report(e: Event)
      modifies this, loop`activedChannels
      ensures State() == Raise(old(State()), e)
      ensures loop.activedChannels == if Accepts(old(State()), e) then old(Listed()) else old(loop.activedChannels)
    {
      match e {
        case CloseEvent => OnClose();
        case ErrorEvent => OnError();
        case ReadEvent => OnRead();
        case WriteEvent => OnWrite();
      }
    }

    method EnableRead()
      modifies this`read
      ensures State() == old(State()).(read := true)
    {
      read := true;
    }

    method DisableRead()
      modifies this`read
      ensures State() == old(State()).(read := false)
    {
      read := false;
    }

    method EnableWrite()
      modifies this`write
      ensures State() == old(State()).(write := true)
    {
      write := true;
    }

    method DisableWrite()
      modifies this`write
      ensures State() == old(State()).(write := false)
    {
      write := false;
    }

    method DisableReadable()
      modifies this`readable
      ensures State() == old(State()).(readable := false)
    {
      readable := false;
    }

    method DisableWriteable()
      modifies this`writeable
      ensures State() == old(State()).(writeable := false)
    {
      writeable := false;
    }

    /** What a callback does to its channel. */
    method React(calls: seq<Call>)
      modifies this`read, this`write, this`readable, this`writeable
      ensures State() == CallAll(old(State()), calls)
    {
      hide State;
      for i := 0 to |calls|
        invariant CallAll(State(), calls[i..]) == CallAll(old(State()), calls)
      {
        assert calls[i..][1..] == calls[i + 1..];
        match calls[i] {
          case EnableRead => EnableRead();
          case DisableRead => DisableRead();
          case EnableWrite => EnableWrite();
          case DisableWrite => DisableWrite();
          case DisableReadable => DisableReadable();
          case DisableWriteable => DisableWriteable();
        }
      }
    }

    method Lower(e: Event)
      modifies this`rclose, this`rerror, this`rread, this`rwrite
      ensures forall x :: State().Raised(x) == (x != e && old(State()).Raised(x))
    {
      match e {
        case CloseEvent => rclose := false;
        case ErrorEvent => rerror := false;
        case ReadEvent => rread := false;
        case WriteEvent => rwrite := false;
      }
    }

    /** The callback of `e` if it is raised, after its flag is cleared, when those of `before` were made;
        `none` is what the flags were before, with nothing raised. */
    method Dispatch(e: Event, reactions: seq<seq<Call>>, before: seq<Event>, ghost none: Flags)
      returns (calls: seq<Event>)
      requires |reactions| == 4 && InTurn(none, before, reactions)
      modifies this
      ensures calls == With(before, e, old(State()).Raised(e)) && InTurn(none, calls, reactions)
      ensures forall x :: State().Raised(x) == (x != e && old(State()).Raised(x))
      ensures actived == old(actived)
    {
      hide CallAll, Reacted;
      calls := before;
      if State().Raised(e) {
        ghost var g := Reacted(none, before, reactions);
        Lower(e);
        calls := calls + [e];
        ReactedOneMore(none, before, e, reactions);
        assert State() == RaisedLike(g, State());
        CallsApart(g, State(), reactions[Rank(e)]);
        CallsApart(g, none, reactions[Rank(e)]);
        React(reactions[Rank(e)]);
      }
    }

    /** But for what is still raised, the flags are those after the callbacks of `calls`. */
    predicate InTurn(none: Flags, calls: seq<Event>, reactions: seq<seq<Call>>)
      requires |reactions| == 4
      reads this
    {
      var g := Reacted(none, calls, reactions);
      State() == RaisedLike(g, State()) && g == RaisedLike(g, none)
    }

    /** One callback for every raised event, in the fixed order; `reactions[Rank(e)]` is what that of `e`
        does to this channel.  It comes to the same as if all of that came after all is cleared. */
    method HandleEvents(reactions: seq<seq<Call>>) returns (calls: seq<Event>)
      requires |reactions| == 4
      modifies this
      ensures calls == Dispatches(old(State()))
      ensures State() == Reacted(Handled(old(State())), calls, reactions)
      ensures !actived && !rclose && !rerror && !rread && !rwrite && closed == old(closed)
      ensures (forall k :: 0 <= k < 4 ==> reactions[k] == []) ==>
                read == old(read) && write == old(write) && readable == old(readable) && writeable == old(writeable)
    {
      hide State, CallAll, Dispatches, RaisedLike, Handled, Flags.Raised, Rank, With, Reacted, InTurn;
      ghost var f := State();
      FieldsShown();
      DispatchedInTurn(f);
      Unmarked(f);
      calls := [];
      Unmark();
      BeginsInTurn(reactions, f);
      calls := Dispatch(CloseEvent, reactions, calls, Handled(f));
      calls := Dispatch(ErrorEvent, reactions, calls, Handled(f));
      calls := Dispatch(ReadEvent, reactions, calls, Handled(f));
      calls := Dispatch(WriteEvent, reactions, calls, Handled(f));
      AllCleared(reactions, calls, f);
      AfterAll(f, calls, reactions);
    }

    /** What is left of the flags, field by field. */
    lemma AfterAll(f: Flags, calls: seq<Event>, reactions: seq<seq<Call>>)
      requires |reactions| == 4 && State() == Reacted(Handled(f), calls, reactions) && forall x :: !State().Raised(x)
      ensures !rclose && !rerror && !rread && !rwrite && closed == f.closed
      ensures (forall k :: 0 <= k < 4 ==> reactions[k] == []) ==>
                read == f.read && write == f.write && readable == f.readable && writeable == f.writeable
    {
      hide Reacted;
      ReactedKeepsClosed(Handled(f), calls, reactions);
      assert !State().Raised(CloseEvent) && !State().Raised(ErrorEvent);
      assert !State().Raised(ReadEvent) && !State().Raised(WriteEvent);
      if forall k :: 0 <= k < 4 ==> reactions[k] == [] { NoReaction(Handled(f), calls, reactions); }
    }

    lemma FieldsShown()
      ensures State() == Flags(read, write, rclose, rerror, rread, rwrite, actived, closed, readable, writeable)
    {
    }

    method Unmark()
      modifies this`actived
      ensures State() == old(State()).(actived := false) && !actived
    {
      actived := false;
    }

    lemma BeginsInTurn(reactions: seq<seq<Call>>, f: Flags)
      requires |reactions| == 4 && State() == f.(actived := false)
      ensures InTurn(Handled(f), [], reactions)
    {
      Unmarked(f);
    }

    lemma AllCleared(reactions: seq<seq<Call>>, calls: seq<Event>, f: Flags)
      requires |reactions| == 4 && InTurn(Handled(f), calls, reactions) && !actived && forall x :: !State().Raised(x)
      ensures State() == Reacted(Handled(f), calls, reactions)
    {
      hide Reacted;
      NothingRaised(State(), Reacted(Handled(f), calls, reactions), f);
    }
  }

  lemma Unmarked(f: Flags)
    ensures var u := f.(actived := false);
            && u == RaisedLike(Handled(f), u) && Handled(f) == RaisedLike(Handled(f), Handled(f))
            && forall x :: u.Raised(x) == f.Raised(x)
  {
  }

  lemma NothingRaised(s: Flags, g: Flags, f: Flags)
    requires (forall x :: !s.Raised(x)) && !s.actived && s == RaisedLike(g, s) && g == RaisedLike(g, Handled(f))
    ensures s == g
  {
    assert !s.Raised(CloseEvent) && !s.Raised(ErrorEvent) && !s.Raised(ReadEvent) && !s.Raised(WriteEvent);
  }

  class EventLoop {
    var activedChannels: seq<Channel>
    var pendingFunctors: seq<Functor>
    var wakeups: nat   // the value of the eventfd
    var edge: bool     // and whether it was written to since the last poll

    constructor ()
      ensures activedChannels == [] && pendingFunctors == [] && wakeups == 0 && !edge
    {
      activedChannels, pendingFunctors := [], [];
      wakeups, edge := 0, false;
    }

    /** The queue and the eventfd are those of `s`. */
    ghost predicate Represents(s: Loop)
      reads this
    {
      pendingFunctors == s.pending && wakeups == s.counter && edge == s.edge
    }

    /** The part of `runInLoop` under the mutex. */
    method Push(functor: Functor)
      modifies this`pendingFunctors
      ensures pendingFunctors == old(pendingFunctors) + [functor]
    {
      pendingFunctors := pendingFunctors + [functor];
    }

    /** One is written to the eventfd. */
    method Wakeup()
      modifies this`wakeups, this`edge
      ensures wakeups == old(wakeups) + 1 && edge
    {
      wakeups, edge := wakeups + 1, true;
    }

    /** Any thread, in one go: it amounts to its two steps, the push and the signal, and once it returns the
        loop does not block in `poll` before it has run the functor. */
    method RunInLoop(functor: Functor, ghost s: Loop)
      requires Represents(s) && Inv(s)
      modifies this`pendingFunctors, this`wakeups, this`edge
      ensures IdsOk(s) && Inv(Next(s, Post(functor))) && IdsOk(Next(s, Post(functor)))
      ensures var t := Next(Next(s, Post(functor)), Signal(|s.posted|));
              Represents(t) && Inv(t) && |s.posted| in t.signalled && functor == t.posted[|s.posted|] && !Blocks(t)
    {
      hide ActiveInv, HistoryInv, FunctorInv, WakeChannelInv;
      NextKeepsInv(s, Post(functor));
      ghost var t := Next(s, Post(functor));
      NextKeepsInv(t, Signal(|s.posted|));
      Push(functor);
      Wakeup();
    }

    /** The swap, and then the functors one by one; `posted[i]` is what other threads, or the functor itself,
        post while the i-th one runs. */
    method DoPendingFunctors(posted: seq<seq<Functor>>) returns (executed: seq<Functor>)
      requires |posted| == |pendingFunctors|
      modifies this`pendingFunctors
      ensures executed == old(pendingFunctors)
      ensures pendingFunctors == Flatten(posted)
    {
      var functors := pendingFunctors;
      pendingFunctors := [];
      executed := [];
      for i := 0 to |functors|
        invariant executed == functors[..i]
        invariant pendingFunctors == Flatten(posted[..i])
      {
        FlattenAppend(posted[..i], posted[i]);
        assert posted[..i + 1] == posted[..i] + [posted[i]];
        executed := executed + [functors[i]];
        pendingFunctors := pendingFunctors + posted[i];
      }
      assert posted[..|functors|] == posted;
    }

    /** Every listed channel is handled once, in list order; `reactions[i]` is what the callbacks of the i-th
        one do to it. */
    method HandleActivedChannels(reactions: seq<seq<seq<Call>>>) returns (calls: seq<seq<Event>>)
      requires forall i, j :: 0 <= i < j < |activedChannels| ==> activedChannels[i] != activedChannels[j]
      requires |reactions| == |activedChannels| && forall i :: 0 <= i < |reactions| ==> |reactions[i]| == 4
      modifies this`activedChannels, activedChannels
      ensures activedChannels == [] && |calls| == |old(activedChannels)|
      ensures forall i :: 0 <= i < |calls| ==> calls[i] == Dispatches(old(activedChannels[i].State()))
      ensures forall i :: 0 <= i < |calls| ==>
                old(activedChannels)[i].State()
                  == Reacted(Handled(old(activedChannels[i].State())), calls[i], reactions[i])
    {
      hide Handled, Dispatches, Reacted, Channel.State;
      calls := [];
      for k := 0 to |activedChannels|
        invariant activedChannels == old(activedChannels) && |calls| == k
        invariant forall i :: 0 <= i < k ==> calls[i] == Dispatches(old(activedChannels[i].State()))
        invariant forall i :: 0 <= i < k ==>
                    activedChannels[i].State()
                      == Reacted(Handled(old(activedChannels[i].State())), calls[i], reactions[i])
        invariant forall i :: k <= i < |activedChannels| ==>
                    activedChannels[i].State() == old(activedChannels[i].State())
      {
        var c := activedChannels[k].HandleEvents(reactions[k]);
        calls := calls + [c];
      }
      activedChannels := [];
    }
  }
}
