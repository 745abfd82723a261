/** Both directions of a `TcpConnection` on one buffer pool (net/TcpConnection.cpp). */
module TcpConnections {
  import opened BufferChains
  import opened Buffers
  import opened ReadSpec
  import opened Rings
  import opened Seqs
  import opened WriteSpec

  /** What can happen to an established connection, in any order. */
  datatype Event =
    | Incoming(action: InputEvent)  // onRead, with the callbacks it makes, or ReadData
    | Outgoing(what: WriteEvent)    // send, writeData or onWrite

  /** Both directions: what is held, and what has come in and gone out since the run began. */
  datatype State = State(input: ReadRun, output: WriteRun)

  ghost predicate BothOk(cap: nat, s: State) {
    StateOk(cap, s.input.state) && cap > 0 && ChainOk(cap, s.output.chain)
  }

  function NextState(cap: nat, s: State, e: Event): (t: State)
    requires BothOk(cap, s)
    ensures BothOk(cap, t)
  {
    match e
    case Incoming(action) => s.(input := InputStep(cap, s.input, action))
    case Outgoing(what) =>
      StepConserves(cap, s.output.chain, what);
      WriteStepShifts(cap, s.output, what);
      s.(output := WriteStep(cap, s.output, what))
  }

  function RunEvents(cap: nat, s: State, events: seq<Event>): (t: State)
    requires BothOk(cap, s)
    ensures BothOk(cap, t)
    decreases |events|
  {
    if events == [] then s else RunEvents(cap, NextState(cap, s, events[0]), events[1..])
  }

  /** What an event hands to the connection for sending. */
  function Handed(e: Event): seq<byte> {
    if e.Outgoing? then Payload(e.what) else []
  }

  function Submitted(events: seq<Event>): seq<byte> {
    if events == [] then [] else Handed(events[0]) + Submitted(events[1..])
  }

  lemma BothFacts(cap: nat, s: State)
    requires BothOk(cap, s)
    ensures StateOk(cap, s.input.state) && cap > 0 && ChainOk(cap, s.output.chain)
  {
  }

  /** `held` was held for reading when the run began. */
  ghost predicate InOrder(cap: nat, held: seq<byte>, s: State) {
    ReadRunOk(cap, held, s.input) && WriteRunOk(cap, s.output)
  }

  /** Both directions are FIFO over every run: whatever the kernel delivers and accepts and the callbacks
      read, the bytes returned and held are those delivered, and the bytes sent and queued those submitted. */
  lemma {:induction false} RunKeepsOrder(cap: nat, held: seq<byte>, s: State, events: seq<Event>)
    requires InOrder(cap, held, s)
    ensures BothOk(cap, s) && InOrder(cap, held, RunEvents(cap, s, events))
    ensures RunEvents(cap, s, events).output.submitted == s.output.submitted + Submitted(events)
    decreases |events|
  {
    hide InputStep, WriteStep, Payload, ChainOk, Stream;
    if events == [] {
      assert s.output.submitted + Submitted(events) == s.output.submitted;
    } else {
      var e := events[0];
      match e {
        case Incoming(action) =>
          InputStepKeepsOrder(cap, held, s.input, action);
          assert s.output.submitted + [] == s.output.submitted;
        case Outgoing(what) =>
          WriteStepOk(cap, s.output, what);
          StepSubmits(cap, s.output, what);
      }
      RunKeepsOrder(cap, held, NextState(cap, s, e), events[1..]);
      ConcatAssoc(s.output.submitted, Handed(e), Submitted(events[1..]));
    }
  }

  function Incomings(events: seq<Event>): seq<InputEvent> {
    if events == [] then []
    else (if events[0].Incoming? then [events[0].action] else []) + Incomings(events[1..])
  }

  function Outgoings(events: seq<Event>): seq<WriteEvent> {
    if events == [] then []
    else (if events[0].Outgoing? then [events[0].what] else []) + Outgoings(events[1..])
  }

  function RunInput(cap: nat, r: ReadRun, actions: seq<InputEvent>): ReadRun
    requires StateOk(cap, r.state)
    decreases |actions|
  {
    if actions == [] then r else RunInput(cap, InputStep(cap, r, actions[0]), actions[1..])
  }

  /** The directions do not touch each other: however their events are interleaved, each ends as if it had
      had its own events alone. */
  lemma {:induction false} DirectionsApart(cap: nat, held: seq<byte>, s: State, events: seq<Event>)
    requires InOrder(cap, held, s)
    ensures BothOk(cap, s)
    ensures RunEvents(cap, s, events)
         == State(RunInput(cap, s.input, Incomings(events)), RunWrite(cap, s.output, Outgoings(events)))
    decreases |events|
  {
    hide InputStep, WriteStep, ReadRunOk, ChainOk, Stream;
    OrderIsOk(cap, held, s);
    if events != [] {
      var e := events[0];
      match e {
        case Incoming(action) =>
          InputStepKeepsOrder(cap, held, s.input, action);
          assert ([action] + Incomings(events[1..]))[1..] == Incomings(events[1..]);
          assert [] + Outgoings(events[1..]) == Outgoings(events[1..]);
        case Outgoing(what) =>
          WriteStepOk(cap, s.output, what);
          assert ([what] + Outgoings(events[1..]))[1..] == Outgoings(events[1..]);
          assert [] + Incomings(events[1..]) == Incomings(events[1..]);
      }
      DirectionsApart(cap, held, NextState(cap, s, e), events[1..]);
    }
  }

  lemma OrderIsOk(cap: nat, held: seq<byte>, s: State)
    requires InOrder(cap, held, s)
    ensures BothOk(cap, s) && StateOk(cap, s.input.state)
  {
  }

  class TcpConnection {
    const input: BufferChain    // readHead_, readTail_, readSize_
    const output: BufferChain   // writeHead_, writeTail_, writeSize_

    ghost predicate Valid()
      reads this, input, output, input.bufferPool, output.bufferPool, input.nodes, output.nodes
      reads Footprint(input.nodes), Footprint(output.nodes)
    {
      && input != output && input.bufferPool == output.bufferPool
      && input.Valid() && output.Valid() && !output.spare
      && Footprint(input.nodes) !! Footprint(output.nodes)
    }

    /** `establishInLoop`: one buffer for each direction. */
    constructor (bufferPool: BufferPool)
      requires bufferPool.capacity > 0
      modifies bufferPool
      ensures Valid() && fresh(input) && fresh(output) && input.bufferPool == bufferPool
      ensures fresh(Footprint(input.nodes) + Footprint(output.nodes))
      ensures Stream(input.chain) == [] && Stream(output.chain) == []
      ensures Others() == old(bufferPool.live)
    {
      hide BufferChain.Valid, BufferChain.Intact, Stream, Ring.Content, Separate, Linked, Holds;
      var readChain := new BufferChain(bufferPool);
      readChain.ValidIffIntact();
      readChain.ValidFacts();
      var writeChain := new BufferChain(bufferPool);
      readChain.ValidIffIntact();
      input, output := readChain, writeChain;
    }

    /** The buffers of other connections on the pool. */
    ghost function Others(): set<Buffer>
      reads this, input, output, input.bufferPool
    {
      input.bufferPool.live - Elements(input.nodes) - Elements(output.nodes)
    }

    ghost function Memory(): set<object>
      reads this, input, output
    {
      {input, output, input.bufferPool} + Footprint(input.nodes) + Footprint(output.nodes)
    }

    /** What belongs to one side is no concern of the other. */
    lemma SidesApart()
      requires Valid()
      ensures {input, input.bufferPool} !! Footprint(output.nodes) + {output}
      ensures {output, output.bufferPool} !! Footprint(input.nodes) + {input}
      ensures output !in Footprint(input.nodes) && input !in Footprint(output.nodes)
      ensures forall n :: n in Elements(output.nodes) ==> n in Footprint(output.nodes)
      ensures forall n :: n in Elements(input.nodes) ==> n in Footprint(input.nodes)
      ensures Elements(output.nodes) <= input.Others() && Elements(input.nodes) <= output.Others()
      ensures Others() == input.Others() - Elements(output.nodes) == output.Others() - Elements(input.nodes)
    {
      hide BufferChain.Valid, BufferChain.Wired, Stream;
      input.ValidFacts();
      output.ValidFacts();
      assert forall n :: n in Elements(output.nodes) ==> n in Footprint(output.nodes);
      assert forall n :: n in Elements(input.nodes) ==> n in Footprint(input.nodes);
    }

    /** An event on the read side leaves the write side alone. */
    method StepInput(e: InputEvent, ghost r: ReadRun) returns (ghost delivered: seq<byte>, ghost returned: seq<byte>)
      requires Valid() && StateOk(input.bufferPool.capacity, r.state) && r.state == ReadState(input.chain, input.spare)
      modifies input, input.bufferPool, Footprint(input.nodes)
      ensures Valid() && Others() == old(Others()) && fresh(Memory() - old(Memory()))
      ensures ReadRun(ReadState(input.chain, input.spare), r.delivered + delivered, r.returned + returned)
           == InputStep(input.bufferPool.capacity, r, e)
      ensures output.chain == old(output.chain)
    {
      hide BufferChain.Valid, BufferChain.Intact, BufferChain.Wired, Stream, InputStep, StateOk;
      output.ValidIffIntact();
      SidesApart();
      delivered, returned := input.ReadEventStep(e, r);
      assert output.Intact();
      assert Footprint(input.nodes) !! Footprint(output.nodes);
      assert Elements(output.nodes) <= input.Others();
      output.ValidIffIntact();
    }

    /** An event on the write side leaves the read side alone. */
    method StepOutput(e: WriteEvent) returns (ghost sent: seq<byte>)
      requires Valid()
      modifies output, output.bufferPool, Footprint(output.nodes)
      ensures Valid() && Others() == old(Others()) && fresh(Memory() - old(Memory()))
      ensures output.bufferPool.capacity > 0 && ChainOk(output.bufferPool.capacity, old(output.chain))
      ensures var q := WriteStep(output.bufferPool.capacity, WriteRun(old(output.chain), [], []), e);
              output.chain == q.chain && sent == q.sent
      ensures input.chain == old(input.chain) && input.spare == old(input.spare)
    {
      hide BufferChain.Valid, BufferChain.Intact, BufferChain.Wired, Stream, WriteStep, ChainOk;
      input.ValidIffIntact();
      SidesApart();
      sent := output.WriteEventStep(e);
      assert Elements(input.nodes) <= input.bufferPool.live;
      assert Others() == output.Others() - Elements(input.nodes);
      input.ValidIffIntact();
    }

    /** The linked buffers hold what `s` holds. */
    ghost predicate Represents(s: State)
      reads this, input, output
    {
      s.input.state == ReadState(input.chain, input.spare) && s.output.chain == output.chain
    }

    lemma OnePool()
      requires Valid()
      ensures input.bufferPool == output.bufferPool
      ensures {input, input.bufferPool, output, output.bufferPool} + Footprint(input.nodes)
              + Footprint(output.nodes) <= Memory()
    {
    }

    lemma ValidBoth(s: State)
      requires Valid() && Represents(s)
      ensures BothOk(input.bufferPool.capacity, s) && input.bufferPool == output.bufferPool
      ensures StateOk(input.bufferPool.capacity, ReadState(input.chain, input.spare))
    {
      input.ValidState();
      output.ValidFacts();
    }

    /** Any event. */
    method Step(e: Event, ghost s: State)
      returns (ghost delivered: seq<byte>, ghost returned: seq<byte>, ghost sent: seq<byte>)
      requires Valid() && Represents(s)
      modifies Memory()
      ensures Valid() && Others() == old(Others()) && fresh(Memory() - old(Memory()))
      ensures BothOk(input.bufferPool.capacity, s)
      ensures Represents(NextState(input.bufferPool.capacity, s, e))
      ensures NextState(input.bufferPool.capacity, s, e).input.delivered == s.input.delivered + delivered
      ensures NextState(input.bufferPool.capacity, s, e).input.returned == s.input.returned + returned
      ensures NextState(input.bufferPool.capacity, s, e).output.sent == s.output.sent + sent
    {
      hide Valid, Stream, Others, Payload, InputStep, WriteStep, BufferChain.Valid, BufferChain.Wired, ChainOk, StateOk;
      OnePool();
      ValidBoth(s);
      delivered, returned, sent := [], [], [];
      assert s.input.delivered + [] == s.input.delivered && s.input.returned + [] == s.input.returned;
      assert s.output.sent + [] == s.output.sent;
      match e {
        case Incoming(action) =>
          BothFacts(input.bufferPool.capacity, s);
          delivered, returned := StepInput(action, s.input);
        case Outgoing(what) =>
          BothFacts(input.bufferPool.capacity, s);
          WriteStepShifts(input.bufferPool.capacity, s.output, what);
          sent := StepOutput(what);
      }
    }

    /** The events one after the other, from the state `s` on. */
    method StepThrough(events: seq<Event>, ghost s: State) returns (ghost q: State)
      requires Valid() && Represents(s)
      modifies Memory()
      ensures Valid() && Others() == old(Others()) && fresh(Memory() - old(Memory())) && Represents(q)
      ensures BothOk(input.bufferPool.capacity, s) && q == RunEvents(input.bufferPool.capacity, s, events)
    {
      hide Valid, Others, Represents, NextState, BothOk;
      ghost var cap := input.bufferPool.capacity;
      ValidBoth(s);
      q := s;
      for i := 0 to |events|
        invariant Valid() && Others() == old(Others()) && fresh(Memory() - old(Memory()))
        invariant BothOk(cap, q) && Represents(q)
        invariant RunEvents(cap, q, events[i..]) == RunEvents(cap, s, events)
      {
        ghost var memory := Memory();
        ghost var got, out, gone := Step(events[i], q);
        assert events[i..][0] == events[i] && events[i..][1..] == events[i + 1..];
        q := NextState(cap, q, events[i]);
        assert fresh(Memory() - old(Memory())) by {
          assert fresh(Memory() - memory);
          assert forall o :: o in Memory() && o !in old(Memory()) ==> o !in memory || fresh(o);
        }
      }
    }

    /** Whole runs, over the linked buffers: they do what `RunEvents` says, so that what was delivered,
        returned and sent is determined by the events and in order in both directions, and no other
        connection's buffers change hands. */
    method Run(events: seq<Event>)
      returns (ghost delivered: seq<byte>, ghost returned: seq<byte>, ghost sent: seq<byte>)
      requires Valid()
      modifies Memory()
      ensures Valid() && Others() == old(Others())
      ensures BothOk(input.bufferPool.capacity, old(Start()))
      ensures var q := RunEvents(input.bufferPool.capacity, old(Start()), events);
              Represents(q) && delivered == q.input.delivered && returned == q.input.returned && sent == q.output.sent
      ensures returned + Stream(input.chain) == Stream(old(input.chain)) + delivered
      ensures sent + Stream(output.chain) == Stream(old(output.chain)) + Submitted(events)
    {
      hide Valid, Stream, Others, Submitted, RunEvents, BothOk, ChainOk, StateOk;
      ghost var cap, start := input.bufferPool.capacity, Start();
      StartInOrder();
      RunKeepsOrder(cap, Stream(input.chain), start, events);
      ghost var q := StepThrough(events, start);
      delivered, returned, sent := q.input.delivered, q.input.returned, q.output.sent;
    }

    /** Where a run begins: the bytes held are there, nothing has come in or gone out yet. */
    ghost function Start(): State
      reads this, input, output
    {
      State(ReadRun(ReadState(input.chain, input.spare), [], []), WriteRun(output.chain, Stream(output.chain), []))
    }

    lemma StartInOrder()
      requires Valid()
      ensures BothOk(input.bufferPool.capacity, Start()) && Represents(Start())
      ensures InOrder(input.bufferPool.capacity, Stream(input.chain), Start())
    {
      hide Stream, ChainOk;
      input.ValidState();
      output.ValidFacts();
      assert [] + Stream(input.chain) == Stream(input.chain) && Stream(input.chain) + [] == Stream(input.chain);
      assert [] + Stream(output.chain) == Stream(output.chain);
    }

    /** The destructor: every buffer of both directions goes back to the pool, once. */
    method Destroy()
      requires Valid()
      modifies input.bufferPool
      ensures input.bufferPool.live == old(Others())
    {
      hide BufferChain.Valid, BufferChain.Intact, BufferChain.Wired, Stream;
      input.ValidFacts();
      output.ValidFacts();
      output.ValidIffIntact();
      assert forall n :: n in Elements(output.nodes) ==> n in Footprint(output.nodes);
      assert forall n :: n in Elements(input.nodes) ==> n in Footprint(input.nodes);
      assert Elements(output.nodes) <= input.Others();
      input.Destroy();
      output.ValidIffIntact();
      output.ValidFacts();
      output.Destroy();
    }
  }
}
