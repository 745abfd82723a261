/**
  One event loop with any number of posting threads, as interleaved steps: cross-thread functors, the
  eventfd that wakes the loop, and the list of active channels (net/EventLoop.cpp, net/Channel.cpp).
 */
module LoopSpec {
  import opened Seqs

  // ---------- a channel's flags ----------

  datatype Event = CloseEvent | ErrorEvent | ReadEvent | WriteEvent

  /** `read`, `write`: events asked for; `rclose` to `rwrite`: events raised and not yet handled. */
  datatype Flags = Flags(
    read: bool, write: bool,
    rclose: bool, rerror: bool, rread: bool, rwrite: bool,
    actived: bool, closed: bool, readable: bool, writeable: bool)
  {
    predicate Raised(e: Event) {
      match e
      case CloseEvent => rclose
      case ErrorEvent => rerror
      case ReadEvent => rread
      case WriteEvent => rwrite
    }

    predicate AnyRaised() {
      rclose || rerror || rread || rwrite
    }
  }

  const NEW_FLAGS := Flags(false, false, false, false, false, false, false, false, false, false)

  /** Whether the poller's event is taken up: `onClose`, `onError`, `onRead` and `onWrite`. */
  predicate Accepts(f: Flags, e: Event) {
    match e
    case CloseEvent => !f.closed && !f.rclose
    case ErrorEvent => !f.rerror
    case ReadEvent => f.read && !f.readable && !f.rread
    case WriteEvent => f.write && !f.writeable && !f.rwrite
  }

  function Raise(f: Flags, e: Event): Flags {
    if !Accepts(f, e) then f
    else
      match e
      case CloseEvent => f.(closed := true, rclose := true, actived := true)
      case ErrorEvent => f.(rerror := true, actived := true)
      case ReadEvent => f.(readable := true, rread := true, actived := true)
      case WriteEvent => f.(writeable := true, rwrite := true, actived := true)
  }

  /** What `handleEvents` does to the flags, callbacks aside. */
  function Handled(f: Flags): Flags {
    f.(actived := false, rclose := false, rerror := false, rread := false, rwrite := false)
  }

  function With(before: seq<Event>, e: Event, raised: bool): seq<Event> {
    if raised then before + [e] else before
  }

  /** The callbacks it makes, one after the other. */
  function Dispatches(f: Flags): seq<Event> {
    With(With(With(With([], CloseEvent, f.rclose), ErrorEvent, f.rerror), ReadEvent, f.rread), WriteEvent, f.rwrite)
  }

  function Tag(raised: bool, id: nat, e: Event): multiset<(nat, Event)> {
    if raised then multiset{(id, e)} else multiset{}
  }

  /** In the order of the ranks, all below `bound`. */
  ghost predicate Ranked(events: seq<Event>, bound: nat) {
    && (forall i, j :: 0 <= i < j < |events| ==> Rank(events[i]) < Rank(events[j]))
    && (forall i :: 0 <= i < |events| ==> Rank(events[i]) < bound)
  }

  lemma WithRanked(events: seq<Event>, e: Event, raised: bool)
    requires Ranked(events, Rank(e))
    ensures Ranked(With(events, e, raised), Rank(e) + 1)
    ensures forall x :: x in With(events, e, raised) <==> x in events || (raised && x == e)
  {
  }

  /** One callback for each raised event, in the fixed order close, error, read, write. */
  lemma DispatchesOnce(f: Flags, e: Event)
    ensures e in Dispatches(f) <==> f.Raised(e)
    ensures forall i, j :: 0 <= i < j < |Dispatches(f)| ==> Rank(Dispatches(f)[i]) < Rank(Dispatches(f)[j])
  {
    var a := With([], CloseEvent, f.rclose);
    var b := With(a, ErrorEvent, f.rerror);
    var c := With(b, ReadEvent, f.rread);
    hide With;
    WithRanked([], CloseEvent, f.rclose);
    WithRanked(a, ErrorEvent, f.rerror);
    WithRanked(b, ReadEvent, f.rread);
    WithRanked(c, WriteEvent, f.rwrite);
  }

  function Rank(e: Event): nat {
    match e
    case CloseEvent => 0
    case ErrorEvent => 1
    case ReadEvent => 2
    case WriteEvent => 3
  }

  /** The same callbacks with their channel, for the history. */
  function Tagged(f: Flags, id: nat): multiset<(nat, Event)> {
    Tag(f.rclose, id, CloseEvent) + Tag(f.rerror, id, ErrorEvent) + Tag(f.rread, id, ReadEvent)
      + Tag(f.rwrite, id, WriteEvent)
  }

  /** What callbacks and functors may do to a channel. */
  datatype Call = EnableRead | DisableRead | EnableWrite | DisableWrite | DisableReadable | DisableWriteable

  function Called(f: Flags, c: Call): Flags {
    match c
    case EnableRead => f.(read := true)
    case DisableRead => f.(read := false)
    case EnableWrite => f.(write := true)
    case DisableWrite => f.(write := false)
    case DisableReadable => f.(readable := false)
    case DisableWriteable => f.(writeable := false)
  }

  function CallAll(f: Flags, calls: seq<Call>): Flags
    decreases |calls|
  {
    if calls == [] then f else CallAll(Called(f, calls[0]), calls[1..])
  }

  /** What the callbacks of `events` do, `reactions[Rank(e)]` being that of `e`. */
  function Reacted(f: Flags, events: seq<Event>, reactions: seq<seq<Call>>): Flags
    requires |reactions| == 4
    decreases |events|
  {
    if events == [] then f else Reacted(CallAll(f, reactions[Rank(events[0])]), events[1..], reactions)
  }

  /** `f` with the raised events and the mark of `g`. */
  function RaisedLike(f: Flags, g: Flags): Flags {
    f.(rclose := g.rclose, rerror := g.rerror, rread := g.rread, rwrite := g.rwrite, actived := g.actived)
  }

  lemma CalledApart(f: Flags, g: Flags, c: Call)
    ensures Called(RaisedLike(f, g), c) == RaisedLike(Called(f, c), g)
  {
    match c
    case EnableRead =>
    case DisableRead =>
    case EnableWrite =>
    case DisableWrite =>
    case DisableReadable =>
    case DisableWriteable =>
  }

  /** Calls neither see nor touch raised events, so it makes no difference when those are cleared. */
  lemma {:induction false} CallsApart(f: Flags, g: Flags, calls: seq<Call>)
    ensures CallAll(RaisedLike(f, g), calls) == RaisedLike(CallAll(f, calls), g)
    decreases |calls|
  {
    hide Called, RaisedLike;
    if calls != [] {
      CalledApart(f, g, calls[0]);
      CallsApart(Called(f, calls[0]), g, calls[1..]);
    }
  }

  lemma {:induction false} ReactedConcat(f: Flags, a: seq<Event>, b: seq<Event>, reactions: seq<seq<Call>>)
    requires |reactions| == 4
    ensures Reacted(f, a + b, reactions) == Reacted(Reacted(f, a, reactions), b, reactions)
    decreases |a|
  {
    if a == [] {
      assert a + b == b;
    } else {
      assert (a + b)[1..] == a[1..] + b;
      ReactedConcat(CallAll(f, reactions[Rank(a[0])]), a[1..], b, reactions);
    }
  }

  lemma {:induction false} CallsKeepClosed(f: Flags, calls: seq<Call>)
    ensures CallAll(f, calls).closed == f.closed
    decreases |calls|
  {
    hide Called;
    if calls != [] {
      CalledSame(f, calls[0]);
      CallsKeepClosed(Called(f, calls[0]), calls[1..]);
    }
  }

  /** No callback takes back that its channel was closed. */
  lemma {:induction false} ReactedKeepsClosed(f: Flags, events: seq<Event>, reactions: seq<seq<Call>>)
    requires |reactions| == 4
    ensures Reacted(f, events, reactions).closed == f.closed
    decreases |events|
  {
    if events != [] {
      var calls := reactions[Rank(events[0])];
      CallsKeepClosed(f, calls);
      ReactedKeepsClosed(CallAll(f, calls), events[1..], reactions);
    }
  }

  /** Callbacks that do nothing to their channel leave it alone. */
  lemma {:induction false} NoReaction(f: Flags, events: seq<Event>, reactions: seq<seq<Call>>)
    requires |reactions| == 4 && forall k :: 0 <= k < 4 ==> reactions[k] == []
    ensures Reacted(f, events, reactions) == f
    decreases |events|
  {
    if events != [] {
      assert reactions[Rank(events[0])] == [];
      NoReaction(f, events[1..], reactions);
    }
  }

  // ---------- the loop ----------

  type Functor = nat

  /** Where the loop thread is: in `poll`, before the k-th active channel, before the swap of
      `doPendingFunctors`, or running its batch. */
  datatype Phase = Polling | Handling(k: nat) | Swapping | RunningBatch

  /** Channel 0 is the wakeup channel.  `counter` is the eventfd's value and `edge` its pending edge;
      `posted` lists all functors in the order of the mutex, `signalled` the positions in it whose
      `runInLoop` has written the eventfd and returned.  `raised` and `dispatched` are histories. */
  datatype Loop = Loop(
    channels: seq<Flags>, active: seq<nat>, phase: Phase,
    pending: seq<Functor>, batch: seq<Functor>, executed: seq<Functor>, posted: seq<Functor>,
    signalled: set<nat>, swapped: nat, counter: nat, edge: bool,
    raised: multiset<(nat, Event)>, dispatched: multiset<(nat, Event)>)

  datatype Step =
    | Post(f: Functor)                  // any thread: push under the mutex
    | Signal(position: nat)             // the same thread: wakeup, then return
    | Poll(events: seq<(nat, Event)>)   // epoll_wait returns, on events or on a timeout
    | HandleNext
    | SwapPending
    | RunNext
    | UserCall(id: nat, call: Call)     // from a callback or a functor

  /** Raising one event of one channel: flags, active list and history. */
  function RaiseOn(s: Loop, id: nat, e: Event): Loop
    requires id < |s.channels|
  {
    var f := s.channels[id];
    if !Accepts(f, e) then s
    else
      s.(channels := s.channels[id := Raise(f, e)],
         active := if f.actived then s.active else s.active + [id],
         raised := s.raised + multiset{(id, e)})
  }

  function RaiseAll(s: Loop, events: seq<(nat, Event)>): (r: Loop)
    ensures |r.channels| == |s.channels|
    decreases |events|
  {
    if events == [] then s
    else
      var (id, e) := events[0];
      RaiseAll(if 0 < id < |s.channels| then RaiseOn(s, id, e) else s, events[1..])
  }

  /** `epoll_wait` looks at the eventfd again before it reports the edge. */
  predicate WakeupReady(s: Loop) {
    s.edge && s.counter > 0
  }

  /** `handleEvents` of the k-th active channel; the wakeup channel's callback reads the eventfd. */
  function HandleChannel(s: Loop, k: nat): Loop
    requires k < |s.active| && s.active[k] < |s.channels|
  {
    var id := s.active[k];
    var f := s.channels[id];
    var wakes := id == 0 && f.rread;
    s.(channels := s.channels[id := if wakes then Handled(f).(readable := false) else Handled(f)],
       counter := if wakes then 0 else s.counter,
       dispatched := s.dispatched + Tagged(f, id),
       phase := Handling(k + 1))
  }

  ghost predicate IdsOk(s: Loop) {
    |s.channels| > 0 && forall i :: 0 <= i < |s.active| ==> s.active[i] < |s.channels|
  }

  /** A step that is not due changes nothing, so every sequence of steps is a schedule. */
  function Next(s: Loop, step: Step): Loop
    requires IdsOk(s)
  {
    match step
    case Post(f) => s.(pending := s.pending + [f], posted := s.posted + [f])
    case Signal(p) =>
      if p >= |s.posted| || p in s.signalled then s
      else s.(signalled := s.signalled + {p}, counter := s.counter + 1, edge := true)
    case Poll(events) =>
      if s.phase != Polling then s
      else
        var t := if WakeupReady(s) then RaiseOn(s, 0, ReadEvent) else s;
        RaiseAll(t, events).(edge := false, phase := Handling(0))
    case HandleNext =>
      if !s.phase.Handling? then s
      else if s.phase.k < |s.active| then HandleChannel(s, s.phase.k)
      else s.(active := [], phase := Swapping)
    case SwapPending =>
      if s.phase != Swapping then s
      else s.(batch := s.pending, pending := [], swapped := |s.posted|, phase := RunningBatch)
    case RunNext =>
      if s.phase != RunningBatch then s
      else if s.batch == [] then s.(phase := Polling)
      else s.(executed := s.executed + [s.batch[0]], batch := s.batch[1..])
    case UserCall(id, call) =>
      if 0 < id < |s.channels| then s.(channels := s.channels[id := Called(s.channels[id], call)]) else s
  }

  // ---------- invariants ----------

  /** Before the loop comes to the k-th active channel: from there on the list holds exactly the channels
      that are marked active, and only those have raised events. */
  ghost predicate ActiveFrom(channels: seq<Flags>, active: seq<nat>, k: nat) {
    && k <= |active| && NoDuplicates(active)
    && (forall i :: 0 <= i < |active| ==> active[i] < |channels|)
    && (forall i :: 0 <= i < |channels| ==> (channels[i].actived <==> i in active[k..]))
    && (forall i :: 0 <= i < |channels| && channels[i].AnyRaised() ==> channels[i].actived)
  }

  ghost predicate ActiveInv(s: Loop) {
    && |s.channels| > 0
    && ActiveFrom(s.channels, s.active, if s.phase.Handling? then s.phase.k else 0)
    && (!s.phase.Handling? ==> s.active == [])
  }

  /** Every raised event is dispatched or still raised; a close event is raised at most once. */
  ghost predicate HistoryInv(s: Loop) {
    forall i, e :: 0 <= i < |s.channels| ==>
      && s.raised[(i, e)] == s.dispatched[(i, e)] + (if s.channels[i].Raised(e) then 1 else 0)
      && (e == CloseEvent ==> s.raised[(i, e)] <= (if s.channels[i].closed then 1 else 0))
  }

  /** Functors run once and in order; the batch is what was there at the swap. */
  ghost predicate FunctorInv(s: Loop) {
    && s.executed + s.batch + s.pending == s.posted
    && (s.phase == RunningBatch ==> |s.executed| + |s.batch| == s.swapped)
    && (s.phase != RunningBatch ==> s.batch == [])
  }

  /** The wakeup channel asks for reading and is never left readable. */
  ghost predicate WakeChannelInv(s: Loop) {
    && |s.channels| > 0 && s.channels[0].read
    && s.channels[0].readable == s.channels[0].rread
    && !s.channels[0].rclose && !s.channels[0].rerror && !s.channels[0].rwrite
  }

  /** A functor is pending although its `runInLoop` has returned. */
  ghost predicate ReturnedPending(s: Loop) {
    exists p :: p in s.signalled && |s.posted| - |s.pending| <= p < |s.posted|
  }

  ghost predicate WakeupInv(s: Loop) {
    && (forall p :: p in s.signalled ==> p < |s.posted|)
    && |s.pending| <= |s.posted|
    && (s.phase == Polling || s.phase == RunningBatch ==> (ReturnedPending(s) ==> WakeupReady(s)))
  }

  ghost predicate Inv(s: Loop) {
    ActiveInv(s) && HistoryInv(s) && FunctorInv(s) && WakeChannelInv(s) && WakeupInv(s)
  }

  /** `poll` would block: no edge to report. */
  predicate Blocks(s: Loop) {
    s.phase == Polling && !WakeupReady(s)
  }

  /** The state in which `loop` is entered: the wakeup channel is there, with nothing posted or raised. */
  ghost predicate Fresh(s: Loop) {
    && |s.channels| > 0 && s.channels[0] == NEW_FLAGS.(read := true)
    && (forall i :: 0 < i < |s.channels| ==>
         s.channels[i] == NEW_FLAGS.(read := s.channels[i].read, write := s.channels[i].write))
    && s == Loop(s.channels, [], Polling, [], [], [], [], {}, 0, 0, false, multiset{}, multiset{})
  }

  lemma FreshOk(s: Loop)
    requires Fresh(s)
    ensures Inv(s)
  {
  }

  // ---------- steps keep them ----------

  /** An event that is taken up leaves its channel marked. */
  lemma RaiseMarks(f: Flags, e: Event)
    requires Accepts(f, e)
    ensures Raise(f, e).actived
  {
  }

  lemma MarkListed(channels: seq<Flags>, active: seq<nat>, id: nat, g: Flags)
    requires ActiveFrom(channels, active, 0) && id < |channels| && channels[id].actived && g.actived
    ensures ActiveFrom(channels[id := g], active, 0)
  {
    assert active[0..] == active;
  }

  lemma MarkUnlisted(channels: seq<Flags>, active: seq<nat>, id: nat, g: Flags)
    requires ActiveFrom(channels, active, 0) && id < |channels| && !channels[id].actived && g.actived
    ensures ActiveFrom(channels[id := g], active + [id], 0)
  {
    var more := active + [id];
    assert active[0..] == active && more[0..] == more;
    AddFresh(active, id);
    assert forall i :: i in more <==> i in active || i == id;
  }

  lemma RaiseKeepsActive(s: Loop, id: nat, e: Event)
    requires |s.channels| > 0 && ActiveFrom(s.channels, s.active, 0) && id < |s.channels|
    ensures var t := RaiseOn(s, id, e);
            ActiveFrom(t.channels, t.active, 0) && |t.channels| == |s.channels|
  {
    hide ActiveFrom, Raise, Accepts;
    var f := s.channels[id];
    if Accepts(f, e) {
      RaiseMarks(f, e);
      if f.actived { MarkListed(s.channels, s.active, id, Raise(f, e)); }
      else { MarkUnlisted(s.channels, s.active, id, Raise(f, e)); }
    }
  }

  lemma RaiseKeepsHistory(s: Loop, id: nat, e: Event)
    requires HistoryInv(s) && id < |s.channels|
    ensures HistoryInv(RaiseOn(s, id, e))
  {
  }

  /** All but the flags, the list and the history of raised events. */
  ghost predicate OnlyRaises(s: Loop, t: Loop) {
    && |t.channels| == |s.channels|
    && t == s.(channels := t.channels, active := t.active, raised := t.raised)
  }

  lemma {:induction false} RaiseAllKeeps(s: Loop, events: seq<(nat, Event)>)
    requires |s.channels| > 0 && ActiveFrom(s.channels, s.active, 0) && HistoryInv(s)
    ensures var t := RaiseAll(s, events);
            ActiveFrom(t.channels, t.active, 0) && HistoryInv(t) && OnlyRaises(s, t) && t.channels[0] == s.channels[0]
    decreases |events|
  {
    hide ActiveFrom, HistoryInv;
    if events != [] {
      var (id, e) := events[0];
      if 0 < id < |s.channels| {
        RaiseKeepsActive(s, id, e);
        RaiseKeepsHistory(s, id, e);
        RaiseAllKeeps(RaiseOn(s, id, e), events[1..]);
      } else {
        RaiseAllKeeps(s, events[1..]);
      }
    }
  }

  lemma PollKeepsInv(s: Loop, events: seq<(nat, Event)>)
    requires Inv(s) && s.phase == Polling && IdsOk(s)
    ensures Inv(Next(s, Poll(events)))
  {
    hide ActiveFrom, HistoryInv, RaiseAll;
    NothingActive(s);
    var t := if WakeupReady(s) then RaiseOn(s, 0, ReadEvent) else s;
    if WakeupReady(s) {
      RaiseKeepsActive(s, 0, ReadEvent);
      RaiseKeepsHistory(s, 0, ReadEvent);
    }
    RaiseAllKeeps(t, events);
    var r := RaiseAll(t, events);
    SameHistory(r, r.(edge := false, phase := Handling(0)));
  }

  lemma NothingActive(s: Loop)
    requires Inv(s) && s.phase == Polling
    ensures ActiveFrom(s.channels, s.active, 0)
  {
  }

  lemma SameHistory(s: Loop, t: Loop)
    requires HistoryInv(s) && t.channels == s.channels && t.raised == s.raised && t.dispatched == s.dispatched
    ensures HistoryInv(t)
  {
  }

  lemma HandleKeepsActive(s: Loop, k: nat)
    requires ActiveFrom(s.channels, s.active, k) && k < |s.active|
    ensures var t := HandleChannel(s, k); ActiveFrom(t.channels, t.active, k + 1)
  {
    var id, t := s.active[k], HandleChannel(s, k);
    assert s.active[k..] == [id] + s.active[k + 1..];
    assert id !in s.active[k + 1..];
    assert !t.channels[id].AnyRaised() && !t.channels[id].actived;
  }

  lemma TaggedOnce(f: Flags, id: nat, j: nat, x: Event)
    ensures Tagged(f, id)[(j, x)] == if j == id && f.Raised(x) then 1 else 0
  {
    hide Tag;
    TagCounts(f.rclose, id, CloseEvent, j, x);
    TagCounts(f.rerror, id, ErrorEvent, j, x);
    TagCounts(f.rread, id, ReadEvent, j, x);
    TagCounts(f.rwrite, id, WriteEvent, j, x);
  }

  lemma TagCounts(raised: bool, id: nat, e: Event, j: nat, x: Event)
    ensures Tag(raised, id, e)[(j, x)] == if raised && j == id && e == x then 1 else 0
  {
  }

  lemma HandleKeepsHistory(s: Loop, k: nat)
    requires HistoryInv(s) && k < |s.active| && s.active[k] < |s.channels|
    ensures HistoryInv(HandleChannel(s, k))
  {
    hide Tagged;
    var id, t := s.active[k], HandleChannel(s, k);
    forall i, e | 0 <= i < |t.channels|
      ensures t.raised[(i, e)] == t.dispatched[(i, e)] + (if t.channels[i].Raised(e) then 1 else 0)
      ensures e == CloseEvent ==> t.raised[(i, e)] <= (if t.channels[i].closed then 1 else 0)
    {
      TaggedOnce(s.channels[id], id, i, e);
    }
  }

  lemma HandleKeepsInv(s: Loop)
    requires Inv(s) && s.phase.Handling? && IdsOk(s)
    ensures Inv(Next(s, HandleNext))
  {
    hide ActiveFrom, HistoryInv;
    var k := s.phase.k;
    if k < |s.active| {
      HandleKeepsActive(s, k);
      HandleKeepsHistory(s, k);
      WakeHandled(s, k);
    } else {
      var t := s.(active := [], phase := Swapping);
      AllHandled(s.channels, s.active, k);
      SameHistory(s, t);
    }
  }

  lemma AllHandled(channels: seq<Flags>, active: seq<nat>, k: nat)
    requires ActiveFrom(channels, active, k) && k >= |active|
    ensures ActiveFrom(channels, [], 0)
  {
  }

  lemma WakeHandled(s: Loop, k: nat)
    requires WakeChannelInv(s) && k < |s.active| && s.active[k] < |s.channels|
    ensures WakeChannelInv(HandleChannel(s, k))
  {
  }

  /** A call changes neither the mark nor what is raised, nor whether the close event was. */
  predicate SameEvents(f: Flags, g: Flags) {
    g.actived == f.actived && g.closed == f.closed
    && g.rclose == f.rclose && g.rerror == f.rerror && g.rread == f.rread && g.rwrite == f.rwrite
  }

  lemma CalledSame(f: Flags, call: Call)
    ensures SameEvents(f, Called(f, call))
  {
  }

  lemma SameKeepsActive(channels: seq<Flags>, active: seq<nat>, k: nat, id: nat, g: Flags)
    requires ActiveFrom(channels, active, k) && id < |channels| && SameEvents(channels[id], g)
    ensures ActiveFrom(channels[id := g], active, k)
  {
  }

  lemma SameKeepsHistory(s: Loop, id: nat, g: Flags)
    requires HistoryInv(s) && id < |s.channels| && SameEvents(s.channels[id], g)
    ensures HistoryInv(s.(channels := s.channels[id := g]))
  {
    var t := s.(channels := s.channels[id := g]);
    assert forall i, e :: 0 <= i < |s.channels| ==> t.channels[i].Raised(e) == s.channels[i].Raised(e);
  }

  lemma CallKeepsInv(s: Loop, id: nat, call: Call)
    requires Inv(s) && IdsOk(s)
    ensures Inv(Next(s, UserCall(id, call)))
  {
    hide ActiveFrom, HistoryInv, Called, SameEvents;
    if 0 < id < |s.channels| {
      var g := Called(s.channels[id], call);
      CalledSame(s.channels[id], call);
      SameKeepsActive(s.channels, s.active, if s.phase.Handling? then s.phase.k else 0, id, g);
      SameKeepsHistory(s, id, g);
    }
  }

  lemma PostKeepsInv(s: Loop, f: Functor)
    requires Inv(s) && IdsOk(s)
    ensures Inv(Next(s, Post(f)))
  {
    hide ActiveFrom, HistoryInv;
    var t := Next(s, Post(f));
    SameHistory(s, t);
    assert t.executed + t.batch + t.pending == (s.executed + s.batch + s.pending) + [f];
  }

  lemma SignalKeepsInv(s: Loop, p: nat)
    requires Inv(s) && IdsOk(s)
    ensures Inv(Next(s, Signal(p)))
  {
    hide ActiveFrom, HistoryInv;
    SameHistory(s, Next(s, Signal(p)));
  }

  lemma FunctorStepsKeepInv(s: Loop, step: Step)
    requires Inv(s) && IdsOk(s) && (step.SwapPending? || step.RunNext?)
    ensures Inv(Next(s, step))
  {
    hide ActiveFrom, HistoryInv;
    var t := Next(s, step);
    SameHistory(s, t);
    if s.phase == Swapping && step.SwapPending? {
      assert t.executed + t.batch + t.pending == s.executed + s.batch + s.pending;
    } else if s.phase == RunningBatch && step.RunNext? && s.batch != [] {
      assert t.executed + t.batch == s.executed + s.batch;
    }
  }

  lemma InvIds(s: Loop)
    requires Inv(s)
    ensures IdsOk(s)
  {
  }

  lemma NextKeepsInv(s: Loop, step: Step)
    requires Inv(s)
    ensures IdsOk(s) && Inv(Next(s, step))
  {
    hide Inv;
    InvIds(s);
    match step
    case Post(f) => PostKeepsInv(s, f);
    case Signal(p) => SignalKeepsInv(s, p);
    case Poll(events) => if s.phase == Polling { PollKeepsInv(s, events); }
    case HandleNext => if s.phase.Handling? { HandleKeepsInv(s); }
    case SwapPending => FunctorStepsKeepInv(s, step);
    case RunNext => FunctorStepsKeepInv(s, step);
    case UserCall(id, call) => CallKeepsInv(s, id, call);
  }

  // ---------- whole runs ----------

  function Run(s: Loop, steps: seq<Step>): Loop
    requires Inv(s)
    decreases |steps|
  {
    if steps == [] then s
    else NextKeepsInv(s, steps[0]); Run(Next(s, steps[0]), steps[1..])
  }

  lemma {:induction false} RunKeepsInv(s: Loop, steps: seq<Step>)
    requires Inv(s)
    ensures Inv(Run(s, steps))
    decreases |steps|
  {
    hide Inv, Next;
    if steps != [] {
      NextKeepsInv(s, steps[0]);
      RunKeepsInv(Next(s, steps[0]), steps[1..]);
    }
  }

  /** No lost wakeup: under every schedule the loop never blocks in `poll` while a functor whose `runInLoop`
      has returned is still pending. */
  lemma NoLostWakeup(s: Loop, steps: seq<Step>)
    requires Fresh(s)
    ensures Inv(s) && (Blocks(Run(s, steps)) ==> !ReturnedPending(Run(s, steps)))
  {
    hide ActiveInv, HistoryInv, FunctorInv, WakeChannelInv, Run;
    FreshOk(s);
    RunKeepsInv(s, steps);
  }

  /** The functors posted by a run, in the order in which they got the mutex. */
  function Posted(steps: seq<Step>): seq<Functor> {
    if steps == [] then [] else (if steps[0].Post? then [steps[0].f] else []) + Posted(steps[1..])
  }

  lemma {:induction false} RunPosts(s: Loop, steps: seq<Step>)
    requires Inv(s)
    ensures Run(s, steps).posted == s.posted + Posted(steps)
    decreases |steps|
  {
    hide Inv, Next;
    if steps == [] {
      assert s.posted + Posted(steps) == s.posted;
    } else {
      NextKeepsInv(s, steps[0]);
      NextPosts(s, steps[0]);
      RunPosts(Next(s, steps[0]), steps[1..]);
      ConcatAssoc(s.posted, if steps[0].Post? then [steps[0].f] else [], Posted(steps[1..]));
    }
  }

  lemma NextPosts(s: Loop, step: Step)
    requires Inv(s) && IdsOk(s)
    ensures Next(s, step).posted == s.posted + (if step.Post? then [step.f] else [])
  {
    hide ActiveFrom, HistoryInv, FunctorInv, WakeupInv, RaiseAll;
    assert s.posted + [] == s.posted;
    if step.Poll? && s.phase == Polling {
      NothingActive(s);
      if WakeupReady(s) {
        RaiseKeepsActive(s, 0, ReadEvent);
        RaiseKeepsHistory(s, 0, ReadEvent);
      }
      RaiseAllKeeps(if WakeupReady(s) then RaiseOn(s, 0, ReadEvent) else s, step.events);
    }
  }

  /** Exactly once and in order: what was run, what is left of the batch and what is pending is what was
      posted; and while a batch runs, what it will have run is what was posted before the swap. */
  lemma FunctorsOnceInOrder(s: Loop, steps: seq<Step>)
    requires Fresh(s)
    ensures Inv(s)
    ensures var t := Run(s, steps);
            && t.executed + t.batch + t.pending == Posted(steps)
            && t.swapped <= |Posted(steps)|
            && (t.phase == RunningBatch ==> t.executed + t.batch == Posted(steps)[..t.swapped])
  {
    hide ActiveInv, HistoryInv, WakeChannelInv, WakeupInv, Run;
    FreshOk(s);
    RunKeepsInv(s, steps);
    RunPosts(s, steps);
    SwappedBound(s, steps);
    assert [] + Posted(steps) == Posted(steps);
  }

  lemma {:induction false} SwappedBound(s: Loop, steps: seq<Step>)
    requires Inv(s) && s.swapped <= |s.posted|
    ensures Run(s, steps).swapped <= |Run(s, steps).posted|
    decreases |steps|
  {
    hide Inv;
    if steps != [] {
      NextKeepsInv(s, steps[0]);
      NextPosts(s, steps[0]);
      NextSwapped(s, steps[0]);
      SwappedBound(Next(s, steps[0]), steps[1..]);
    }
  }

  lemma NextSwapped(s: Loop, step: Step)
    requires Inv(s) && IdsOk(s)
    ensures Next(s, step).swapped == s.swapped || Next(s, step).swapped == |s.posted|
  {
    hide ActiveFrom, HistoryInv, FunctorInv, WakeupInv, RaiseAll;
    if step.Poll? && s.phase == Polling {
      NothingActive(s);
      if WakeupReady(s) {
        RaiseKeepsActive(s, 0, ReadEvent);
        RaiseKeepsHistory(s, 0, ReadEvent);
      }
      RaiseAllKeeps(if WakeupReady(s) then RaiseOn(s, 0, ReadEvent) else s, step.events);
    }
  }

  /** Active-list exactness: in every reachable state the part of the list still to be handled names each
      channel once if it is marked active and not otherwise; whatever is raised is marked; every raised event
      was dispatched once or is still raised, and at the next poll none is; a channel's close event is raised
      at most once. */
  lemma ActiveListExact(s: Loop, steps: seq<Step>, id: nat, e: Event)
    requires Fresh(s) && id < |Run0(s, steps).channels|
    ensures var t := Run0(s, steps); var k := if t.phase.Handling? then t.phase.k else 0;
            && k <= |t.active| && NoDuplicates(t.active)
            && (id in t.active[k..] <==> t.channels[id].actived)
            && (t.channels[id].AnyRaised() ==> t.channels[id].actived)
            && t.raised[(id, e)] == t.dispatched[(id, e)] + (if t.channels[id].Raised(e) then 1 else 0)
            && t.raised[(id, CloseEvent)] <= 1
            && (t.phase == Polling ==> t.active == [] && t.raised[(id, e)] == t.dispatched[(id, e)])
  {
    hide FunctorInv, WakeChannelInv, WakeupInv, Run;
    FreshOk(s);
    RunKeepsInv(s, steps);
    var t := Run0(s, steps);
    assert t.raised[(id, CloseEvent)] <= (if t.channels[id].closed then 1 else 0);
    assert t.channels[id].Raised(e) ==> t.channels[id].AnyRaised();
  }

  /** A run from a fresh state. */
  function Run0(s: Loop, steps: seq<Step>): Loop
    requires Fresh(s)
  {
    FreshOk(s);
    Run(s, steps)
  }

  /** A batch runs to its end. */
  lemma {:induction false} BatchRunsOut(s: Loop)
    requires Inv(s) && s.phase == RunningBatch
    ensures var t := Run(s, seq(|s.batch| + 1, _ => RunNext));
            && t.phase == Polling && t.executed == s.executed + s.batch && t.posted == s.posted
    decreases |s.batch|
  {
    hide ActiveInv, HistoryInv, WakeChannelInv, WakeupInv;
    var steps := seq(|s.batch| + 1, _ => RunNext);
    NextKeepsInv(s, RunNext);
    var t := Next(s, RunNext);
    if s.batch == [] {
      assert steps[1..] == [];
      assert s.executed + [] == s.executed;
    } else {
      assert steps[1..] == seq(|t.batch| + 1, _ => RunNext);
      BatchRunsOut(t);
      assert (s.executed + [s.batch[0]]) + s.batch[1..] == s.executed + s.batch;
    }
  }

  /** Once `poll` has returned and the active channels are handled, everything posted so far gets run. */
  lemma SwapRunsAll(s: Loop)
    requires Inv(s) && s.phase == Swapping
    ensures var t := Run(s, [SwapPending] + seq(|s.pending| + 1, _ => RunNext));
            t.executed == s.posted && t.phase == Polling
  {
    hide ActiveInv, HistoryInv, WakeChannelInv, WakeupInv;
    var rest := seq(|s.pending| + 1, _ => RunNext);
    NextKeepsInv(s, SwapPending);
    assert ([SwapPending] + rest)[1..] == rest;
    BatchRunsOut(Next(s, SwapPending));
    assert s.executed + [] + s.pending == s.executed + s.pending;
  }

  // ---------- what a poll reports is dispatched ----------

  /** The channel asks for the event, and the flag that says it has it already is down. */
  predicate Wanted(f: Flags, e: Event) {
    match e
    case CloseEvent => !f.closed
    case ErrorEvent => true
    case ReadEvent => f.read && !f.readable
    case WriteEvent => f.write && !f.writeable
  }

  /** What a call means for the events to come: enabling one, or taking its ready flag down, makes the channel
      want it unless the other stands against it; disabling makes it not; other events are not concerned. */
  lemma CallsSteer(f: Flags, call: Call)
    ensures Wanted(Called(f, call), CloseEvent) == Wanted(f, CloseEvent) && Wanted(Called(f, call), ErrorEvent)
    ensures Wanted(Called(f, call), ReadEvent) == match call {
              case EnableRead => !f.readable
              case DisableRead => false
              case DisableReadable => f.read
              case _ => Wanted(f, ReadEvent)
            }
    ensures Wanted(Called(f, call), WriteEvent) == match call {
              case EnableWrite => !f.writeable
              case DisableWrite => false
              case DisableWriteable => f.write
              case _ => Wanted(f, WriteEvent)
            }
  {
  }

  lemma WantedIsAccepted(f: Flags, e: Event)
    ensures Accepts(f, e) <==> Wanted(f, e) && !f.Raised(e)
  {
  }

  /** Raising an event leaves no more of it to be taken up, and other events as they were. */
  lemma RaiseOnce(f: Flags, e: Event, x: Event)
    ensures Accepts(Raise(f, e), x) <==> Accepts(f, x) && x != e
  {
  }

  lemma {:induction false} RaiseAllCounts(s: Loop, events: seq<(nat, Event)>, id: nat, e: Event)
    requires 0 < id < |s.channels|
    ensures RaiseAll(s, events).raised[(id, e)]
         == s.raised[(id, e)] + (if Accepts(s.channels[id], e) && (id, e) in events then 1 else 0)
    decreases |events|
  {
    hide Accepts, Raise;
    if events != [] {
      var (i, x) := events[0];
      assert (id, e) in events <==> (i, x) == (id, e) || (id, e) in events[1..];
      if 0 < i < |s.channels| {
        RaiseOnce(s.channels[i], x, e);
        RaiseAllCounts(RaiseOn(s, i, x), events[1..], id, e);
      } else {
        RaiseAllCounts(s, events[1..], id, e);
      }
    }
  }

  lemma {:induction false} RaiseAllSpares(s: Loop, events: seq<(nat, Event)>, e: Event)
    ensures RaiseAll(s, events).raised[(0, e)] == s.raised[(0, e)]
    decreases |events|
  {
    hide Accepts, Raise;
    if events != [] {
      var (i, x) := events[0];
      RaiseAllSpares(if 0 < i < |s.channels| then RaiseOn(s, i, x) else s, events[1..], e);
    }
  }

  /** Whether a `poll` that reports `events` gives channel `id` its event. */
  predicate Reports(s: Loop, events: seq<(nat, Event)>, id: nat, e: Event)
    requires id < |s.channels|
  {
    if id == 0 then e == ReadEvent && WakeupReady(s) else (id, e) in events && Wanted(s.channels[id], e)
  }

  /** A call that comes before a `poll` steers what that reports to its channel. */
  lemma CallThenPoll(s: Loop, id: nat, call: Call, events: seq<(nat, Event)>, e: Event)
    requires IdsOk(s) && 0 < id < |s.channels|
    ensures var t := Next(s, UserCall(id, call));
            |t.channels| == |s.channels| &&
            (Reports(t, events, id, e) <==> (id, e) in events && Wanted(Called(s.channels[id], call), e))
  {
    hide Wanted, Called;
  }

  lemma NothingRaisedYet(s: Loop, id: nat, e: Event)
    requires Inv(s) && s.phase == Polling && id < |s.channels|
    ensures !s.channels[id].Raised(e) && s.raised[(id, e)] == s.dispatched[(id, e)]
    ensures s.channels[0].read && !s.channels[0].readable
  {
    assert !s.channels[id].AnyRaised() && !s.channels[0].AnyRaised();
  }

  lemma PollRaises(s: Loop, events: seq<(nat, Event)>, id: nat, e: Event)
    requires Inv(s) && s.phase == Polling && id < |s.channels|
    ensures IdsOk(s) && Next(s, Poll(events)).raised[(id, e)]
                     == s.dispatched[(id, e)] + (if Reports(s, events, id, e) then 1 else 0)
  {
    hide Inv, Accepts, Raise, RaiseAll;
    InvIds(s);
    NothingRaisedYet(s, id, e);
    NothingRaisedYet(s, 0, ReadEvent);
    WantedIsAccepted(s.channels[id], e);
    WantedIsAccepted(s.channels[0], ReadEvent);
    var t := if WakeupReady(s) then RaiseOn(s, 0, ReadEvent) else s;
    if id > 0 { RaiseAllCounts(t, events, id, e); } else { RaiseAllSpares(t, events, e); }
  }

  lemma {:induction false} RaisedByPollOnly(s: Loop, steps: seq<Step>)
    requires Inv(s) && forall i :: 0 <= i < |steps| ==> !steps[i].Poll?
    ensures Run(s, steps).raised == s.raised && |Run(s, steps).channels| == |s.channels|
    decreases |steps|
  {
    hide Inv;
    if steps != [] {
      NextKeepsInv(s, steps[0]);
      RaisedByPollOnly(Next(s, steps[0]), steps[1..]);
    }
  }

  /** No event is lost and none made up: under every schedule, when the loop is back in `poll`, each channel
      has got exactly those callbacks more that the last `poll` reported and it asked for, one of each. */
  lemma ReportedIsDispatched(s: Loop, events: seq<(nat, Event)>, steps: seq<Step>, id: nat, e: Event)
    requires Inv(s) && s.phase == Polling && id < |s.channels|
    requires forall i :: 0 <= i < |steps| ==> !steps[i].Poll?
    ensures IdsOk(s) && Inv(Next(s, Poll(events)))
    ensures var t := Run(Next(s, Poll(events)), steps);
            t.phase == Polling ==>
              t.dispatched[(id, e)] == s.dispatched[(id, e)] + (if Reports(s, events, id, e) then 1 else 0)
  {
    hide Inv, Next;
    NextKeepsInv(s, Poll(events));
    PollRaises(s, events, id, e);
    var p := Next(s, Poll(events));
    RunKeepsInv(p, steps);
    RaisedByPollOnly(p, steps);
    PollKeepsSize(s, events);
    if Run(p, steps).phase == Polling { NothingRaisedYet(Run(p, steps), id, e); }
  }

  lemma PollKeepsSize(s: Loop, events: seq<(nat, Event)>)
    requires Inv(s) && IdsOk(s)
    ensures |Next(s, Poll(events)).channels| == |s.channels|
  {
    hide Inv;
  }

  lemma {:induction false} RunConcat(s: Loop, a: seq<Step>, b: seq<Step>)
    requires Inv(s)
    ensures Inv(Run(s, a)) && Run(s, a + b) == Run(Run(s, a), b)
    decreases |a|
  {
    hide Inv, Next;
    if a == [] {
      assert a + b == b;
    } else {
      NextKeepsInv(s, a[0]);
      assert (a + b)[1..] == a[1..] + b;
      RunConcat(Next(s, a[0]), a[1..], b);
    }
  }

  /** The loop comes to the end of its list. */
  lemma {:induction false} HandlingEnds(s: Loop)
    requires Inv(s) && s.phase.Handling? && s.phase.k <= |s.active|
    ensures Run(s, seq(|s.active| - s.phase.k + 1, _ => HandleNext)).phase == Swapping
    decreases |s.active| - s.phase.k
  {
    hide Inv;
    var steps := seq(|s.active| - s.phase.k + 1, _ => HandleNext);
    NextKeepsInv(s, HandleNext);
    var t := Next(s, HandleNext);
    if s.phase.k < |s.active| {
      assert steps[1..] == seq(|t.active| - t.phase.k + 1, _ => HandleNext);
      HandlingEnds(t);
    } else {
      assert steps[1..] == [];
    }
  }

  lemma HandlingBound(s: Loop)
    requires Inv(s) && s.phase.Handling?
    ensures s.phase.k <= |s.active|
  {
  }

  /** And back to `poll` by its own steps, so that what was reported does get dispatched. */
  lemma LoopComesBack(s: Loop, events: seq<(nat, Event)>) returns (steps: seq<Step>)
    requires Inv(s) && s.phase == Polling
    ensures IdsOk(s) && Inv(Next(s, Poll(events)))
    ensures forall i :: 0 <= i < |steps| ==> steps[i].HandleNext? || steps[i].SwapPending? || steps[i].RunNext?
    ensures Run(Next(s, Poll(events)), steps).phase == Polling
  {
    hide Inv;
    NextKeepsInv(s, Poll(events));
    var p := Next(s, Poll(events));
    HandlingBound(p);
    HandlingEnds(p);
    var handle := seq(|p.active| - p.phase.k + 1, _ => HandleNext);
    RunKeepsInv(p, handle);
    var q := Run(p, handle);
    SwapRunsAll(q);
    var rest := [SwapPending] + seq(|q.pending| + 1, _ => RunNext);
    RunConcat(p, handle, rest);
    steps := handle + rest;
  }
}
