/**
  The write side of a connection over values: what `writeData` appends, what one round of `onWrite`
  offers to the socket and drops afterwards, and where the code as written goes wrong.
 */
module WriteSpec {
  import opened Rings
  import opened ReadSpec
  import opened Seqs

  /** The chains that `send` and `writeData` meet: well-formed, except that as written `onWrite` may have
      left a drained head before other buffers. */
  ghost predicate QueueOk(cap: nat, c: seq<Ring>) {
    && cap > 0 && |c| >= 1
    && (forall i :: 0 <= i < |c| ==> |c[i].data| == cap && c[i].Ok())
    && (forall i :: 0 < i < |c| ==> c[i].pop == 0 && c[i].count > 0)
    && (forall i :: 0 < i < |c| - 1 ==> c[i].count == cap)
  }

  lemma ChainIsQueue(cap: nat, c: seq<Ring>)
    requires cap > 0
    ensures ChainOk(cap, c) <==> QueueOk(cap, c) && (|c| > 1 ==> c[0].count > 0)
  {
  }

  lemma QueueTail(cap: nat, c: seq<Ring>)
    requires QueueOk(cap, c)
    ensures |c| >= 1 && Last(c).Ok() && |Last(c).data| == cap && Last(c).count <= cap && Last(c).push <= cap
  {
  }

  // ---------- writeData ----------

  /** A buffer filled to capacity by the loop of `writeData`, which leaves `push` at 0. */
  function FullRing(bytes: seq<byte>): Ring {
    Ring(bytes, |bytes|, 0, 0)
  }

  /** The new buffers that take `bytes`. */
  function Spill(cap: nat, bytes: seq<byte>): seq<Ring>
    requires cap > 0
    decreases |bytes|
  {
    if bytes == [] then []
    else if |bytes| > cap then [FullRing(bytes[..cap])] + Spill(cap, bytes[cap..])
    else [LoadedRing(cap, bytes)]
  }

  /** The tail takes what it can; a tail without room is not touched. */
  function TopUp(c: seq<Ring>, bytes: seq<byte>): seq<Ring>
    requires |c| >= 1 && Last(c).push <= |Last(c).data| && Last(c).count + |bytes| <= |Last(c).data|
  {
    if bytes == [] then c else c[|c| - 1 := Last(c).Extend(bytes)]
  }

  /** The chain after `writeData(bytes)`. */
  function Append(cap: nat, c: seq<Ring>, bytes: seq<byte>): seq<Ring>
    requires cap > 0 && |c| >= 1 && Last(c).push <= |Last(c).data| && Last(c).count <= |Last(c).data|
  {
    var room := Rear(c);
    if |bytes| < room then TopUp(c, bytes)
    else TopUp(c, bytes[..room]) + Spill(cap, bytes[room..])
  }

  lemma FullContent(bytes: seq<byte>)
    requires |bytes| > 0
    ensures var r := FullRing(bytes);
            r.Ok() && r.count == |r.data| == |bytes| && r.pop == 0 && r.Content() == bytes
  {
  }

  lemma {:induction false} SpillAppends(cap: nat, c: seq<Ring>, bytes: seq<byte>)
    requires cap > 0 && ChainOk(cap, c) && (bytes != [] ==> Last(c).count == cap)
    ensures ChainOk(cap, c + Spill(cap, bytes)) && Stream(c + Spill(cap, bytes)) == Stream(c) + bytes
    decreases |bytes|
  {
    hide ChainOk, Stream, Ring.Content, Ring.Ok, LoadedRing, FullRing;
    if bytes == [] {
      assert c + Spill(cap, bytes) == c && Stream(c) + bytes == Stream(c);
    } else if |bytes| > cap {
      var head, rest := bytes[..cap], bytes[cap..];
      var r := FullRing(head);
      FullContent(head);
      AppendRing(cap, c, r);
      SpillAppends(cap, c + [r], rest);
      ConcatAssoc(c, [r], Spill(cap, rest));
      TakeDrop(bytes, cap);
      ConcatAssoc(Stream(c), head, rest);
    } else {
      LoadedContent(cap, bytes);
      AppendRing(cap, c, LoadedRing(cap, bytes));
    }
  }

  /** `writeData` appends exactly its argument, for every size and wrap state. */
  lemma AppendIsFifo(cap: nat, c: seq<Ring>, bytes: seq<byte>)
    requires cap > 0 && ChainOk(cap, c)
    ensures ChainOk(cap, Append(cap, c, bytes))
    ensures Stream(Append(cap, c, bytes)) == Stream(c) + bytes
  {
    hide ChainOk, Stream, Ring.Content, Ring.Ok, Spill;
    TailOk(cap, c);
    var room := Rear(c);
    if |bytes| < room {
      ExtendTail(cap, c, bytes);
      assert bytes == [] ==> Stream(c) + bytes == Stream(c);
    } else {
      ExtendTail(cap, c, bytes[..room]);
      assert room == 0 ==> Stream(c) + bytes[..room] == Stream(c);
      SpillAppends(cap, TopUp(c, bytes[..room]), bytes[room..]);
      TakeDrop(bytes, room);
      ConcatAssoc(Stream(c), bytes[..room], bytes[room..]);
    }
  }

  lemma AppendNothing(cap: nat, c: seq<Ring>)
    requires QueueOk(cap, c)
    ensures Append(cap, c, []) == c
  {
    assert c + [] == c;
  }

  // ---------- onWrite, as written ----------

  /** The bytes of the head that the first one or two `iovec`s cover. */
  function GatherHead(r: Ring): seq<byte>
    requires r.pop <= |r.data| && r.push <= |r.data| && (r.pop < r.push ==> r.pop + r.count <= |r.data|)
  {
    if r.pop < r.push then r.data[r.pop..r.pop + r.count]
    else r.data[r.pop..] + r.data[..r.push]
  }

  /** What the code may assume of a chain whose head was drained: no index leaves the storage. */
  ghost predicate ChainSafe(cap: nat, c: seq<Ring>) {
    && |c| >= 1
    && (forall i :: 0 <= i < |c| ==> |c[i].data| == cap && c[i].count <= cap)
    && c[0].pop <= cap && c[0].push <= cap && (c[0].pop < c[0].push ==> c[0].pop + c[0].count <= cap)
    && (c[0].count > 0 ==> c[0].Ok())
  }

  /** The bytes offered to `writev`: those of the head, then those of the next buffer. */
  function Gather(c: seq<Ring>): seq<byte>
    requires |c| >= 1 && (|c| > 1 ==> c[1].count <= |c[1].data|)
    requires c[0].pop <= |c[0].data| && c[0].push <= |c[0].data|
             && (c[0].pop < c[0].push ==> c[0].pop + c[0].count <= |c[0].data|)
  {
    GatherHead(c[0]) + (if |c| > 1 then c[1].data[..c[1].count] else [])
  }

  /** `size` in `onWrite`: the bytes that should be offered. */
  function Pending(c: seq<Ring>): nat
    requires |c| >= 1
  {
    c[0].count + (if |c| > 1 then c[1].count else 0)
  }

  /** The chain after `writev` accepted `n` bytes, exactly as written: a drained `next` stays as the head. */
  function PassAsWritten(c: seq<Ring>, n: nat): seq<Ring>
    requires |c| >= 1
  {
    if n > Pending(c) then c
    else if n < c[0].count then [c[0].Advance(n)] + c[1..]
    else if n > c[0].count then
      [c[1].(pop := n - c[0].count, count := c[1].count - (n - c[0].count))] + c[2..]
    else if |c| > 1 then c[1..]
    else [c[0].Emptied()]
  }

  /** The repair: a drained head is released, or reset when it is the tail. */
  function Finished(c: seq<Ring>): seq<Ring>
    requires |c| >= 1
  {
    if c[0].count > 0 then c else if |c| > 1 then c[1..] else [c[0].Emptied()]
  }

  lemma GatherHeadIsContent(r: Ring)
    requires r.Ok() && r.count > 0
    ensures GatherHead(r) == r.Content()
  {
  }

  /** On a well-formed chain with something in it, exactly the head's and the next buffer's bytes are
      offered, in stream order. */
  lemma GatherIsPrefix(cap: nat, c: seq<Ring>)
    requires ChainOk(cap, c) && c[0].count > 0
    ensures ChainSafe(cap, c) && Pending(c) <= |Stream(c)| && Gather(c) == Stream(c)[..Pending(c)]
  {
    hide Ring.Content, GatherHead;
    GatherHeadIsContent(c[0]);
    OkContentLength(c[0]);
    var h, t := c[0].Content(), Stream(c[1..]);
    if |c| > 1 {
      LaterRing(cap, c, 1);
      assert c[1..][0] == c[1];
      TakeConcat(c[1].Content(), Stream(c[1..][1..]), c[1].count);
      TakeConcat(h, t, Pending(c));
    } else {
      assert t == [];
    }
  }

  /** With the repair a round removes exactly the accepted prefix. */
  lemma RepairedPass(cap: nat, c: seq<Ring>, n: nat)
    requires ChainOk(cap, c) && c[0].count > 0 && n <= Pending(c)
    ensures Finished(PassAsWritten(c, n)) == Consume(c, n)
  {
    if n > c[0].count {
      var m := n - c[0].count;
      assert c[1..][0] == c[1] && c[1..][1..] == c[2..];
      if m < c[1].count {
        assert c[1].Advance(m) == c[1].(pop := m, count := c[1].count - m);
      }
    }
  }

  /** Two bytes queued, both accepted: the next round offers the old bytes again, and two never written. */
  lemma OnWriteResendsStaleBytes()
    ensures exists cap: nat, c: seq<Ring> :: cap > 0 && ChainOk(cap, c) && c[0].count > 0
              && Stream(PassAsWritten(c, Pending(c))) == []
              && ChainSafe(cap, PassAsWritten(c, Pending(c)))
              && Gather(PassAsWritten(c, Pending(c))) == [7, 8, 0, 0]
  {
    var c := [Ring([7, 8, 0, 0], 2, 2, 0)];
    assert ChainOk(4, c) && Pending(c) == 2;
    var d := PassAsWritten(c, 2);
    assert d == [Ring([7, 8, 0, 0], 0, 0, 0)];
    LoneStream(d[0]);
    assert ChainSafe(4, d) && Gather(d) == [7, 8, 0, 0];
  }

  // ---------- whole runs ----------

  /** `submitted` is all that was handed to `sendPack` or `writeData`, `sent` all that the socket accepted. */
  datatype WriteRun = WriteRun(chain: seq<Ring>, submitted: seq<byte>, sent: seq<byte>)

  datatype WriteEvent =
    | Send(data: seq<byte>, accepted: int)  // what `write` accepts of it, negative on an error
    | Write(bytes: seq<byte>)
    | Flush(accepts: seq<int>)              // what each `writev` of one `onWrite` accepts

  ghost predicate WriteRunOk(cap: nat, r: WriteRun) {
    cap > 0 && ChainOk(cap, r.chain) && r.sent + Stream(r.chain) == r.submitted
  }

  function Enqueue(cap: nat, r: WriteRun, bytes: seq<byte>): WriteRun
    requires QueueOk(cap, r.chain)
  {
    r.(chain := Append(cap, r.chain, bytes), submitted := r.submitted + bytes)
  }

  /** How much of `data` the socket takes directly. */
  function Direct(data: seq<byte>, accepted: int): (n: nat)
    ensures n <= |data|
  {
    if accepted < 0 then 0 else if accepted < |data| then accepted else |data|
  }

  /** `send` as written: the socket first, whatever the chain holds. */
  function SendAsWritten(cap: nat, r: WriteRun, data: seq<byte>, accepted: int): WriteRun
    requires QueueOk(cap, r.chain)
  {
    if accepted < 0 then Enqueue(cap, r, data)
    else
      var n := Direct(data, accepted);
      Enqueue(cap, r.(submitted := r.submitted + data[..n], sent := r.sent + data[..n]), data[n..])
  }

  lemma SendKeepsChain(cap: nat, r: WriteRun, data: seq<byte>, accepted: int)
    requires cap > 0 && ChainOk(cap, r.chain)
    ensures QueueOk(cap, r.chain) && ChainOk(cap, SendAsWritten(cap, r, data, accepted).chain)
  {
    AppendIsFifo(cap, r.chain, data);
    AppendIsFifo(cap, r.chain, data[Direct(data, accepted)..]);
  }

  /** The repair: the socket is written to directly only when nothing is queued. */
  function SendRepaired(cap: nat, r: WriteRun, data: seq<byte>, accepted: int): WriteRun
    requires QueueOk(cap, r.chain)
  {
    SendAsWritten(cap, r, data, if Held(r.chain) == 0 then accepted else -1)
  }

  lemma HeadEmptyIff(cap: nat, c: seq<Ring>)
    requires ChainOk(cap, c)
    ensures c[0].count == 0 <==> Stream(c) == []
    ensures Held(c) == |Stream(c)|
  {
    HeldIsLength(cap, c);
    if |c| == 1 { assert Held(c[1..]) == 0; }
  }

  /** One `onWrite`, repaired: it stops when the chain is empty, and a drained buffer is released. */
  function FlushAll(cap: nat, r: WriteRun, accepts: seq<int>): (q: WriteRun)
    requires cap > 0 && ChainOk(cap, r.chain)
    ensures ChainOk(cap, q.chain) && q.submitted == r.submitted
    ensures q.sent + Stream(q.chain) == r.sent + Stream(r.chain)
    decreases |accepts|
  {
    if r.chain[0].count == 0 || accepts == [] || accepts[0] < 0 then r
    else
      var n := if accepts[0] < Pending(r.chain) then accepts[0] else Pending(r.chain);
      GatherIsPrefix(cap, r.chain);
      ConsumeIsFifo(cap, r.chain, n);
      SendPrefix(r.sent, Stream(r.chain), Pending(r.chain), n);
      var q := r.(chain := Consume(r.chain, n), sent := r.sent + Gather(r.chain)[..n]);
      if n < Pending(r.chain) then q else FlushAll(cap, q, accepts[1..])
  }

  lemma NothingPending(cap: nat, c: seq<Ring>)
    requires ChainOk(cap, c) && c[0].count == 0
    ensures |c| == 1 && Pending(c) == 0
  {
  }

  lemma SendPrefix(sent: seq<byte>, stream: seq<byte>, offered: nat, n: nat)
    requires n <= offered <= |stream|
    ensures (sent + stream[..offered][..n]) + stream[n..] == sent + stream
  {
    assert stream[..offered][..n] == stream[..n];
    TakeDrop(stream, n);
    ConcatAssoc(sent, stream[..n], stream[n..]);
  }

  lemma EnqueueKeeps(cap: nat, r: WriteRun, bytes: seq<byte>)
    requires cap > 0 && ChainOk(cap, r.chain)
    ensures var q := Enqueue(cap, r, bytes);
            ChainOk(cap, q.chain) && q.sent + Stream(q.chain) == (r.sent + Stream(r.chain)) + bytes
  {
    AppendIsFifo(cap, r.chain, bytes);
    ConcatAssoc(r.sent, Stream(r.chain), bytes);
  }

  /** With nothing accepted, or nothing queued, `send` as written keeps the order. */
  lemma SendInOrder(cap: nat, r: WriteRun, data: seq<byte>, accepted: int)
    requires WriteRunOk(cap, r) && (accepted <= 0 || Stream(r.chain) == [])
    ensures WriteRunOk(cap, SendAsWritten(cap, r, data, accepted))
  {
    hide ChainOk, Stream, Append;
    var n := Direct(data, accepted);
    var q := r.(submitted := r.submitted + data[..n], sent := r.sent + data[..n]);
    assert q.sent + Stream(q.chain) == q.submitted;
    EnqueueKeeps(cap, q, data[n..]);
    EnqueueKeeps(cap, r, data);
  }

  /** With something accepted while bytes are queued, some payload overtakes them. */
  lemma SendOvertakes(cap: nat, r: WriteRun, n: nat) returns (data: seq<byte>)
    requires WriteRunOk(cap, r) && n > 0 && Stream(r.chain) != []
    ensures |data| == n && !WriteRunOk(cap, SendAsWritten(cap, r, data, n))
  {
    hide ChainOk, Stream, Append;
    ChainIsQueue(cap, r.chain);
    var queued := Stream(r.chain);
    data := seq(n, _ => if queued[0] == 0 then 1 else 0);
    var q := SendAsWritten(cap, r, data, n);
    EnqueueKeeps(cap, r.(submitted := r.submitted + data, sent := r.sent + data), data[n..]);
    assert data[..n] == data && data[n..] == [];
    assert q.sent + Stream(q.chain) == (r.sent + data) + queued;
    assert ((r.sent + data) + queued)[|r.sent|] == data[0];
    assert q.submitted == (r.sent + queued) + data;
    assert ((r.sent + queued) + data)[|r.sent|] == queued[0];
  }

  /** `send` as written keeps the byte order for every payload precisely when the socket accepts nothing
      or nothing is queued. */
  lemma SendKeepsOrderIff(cap: nat, r: WriteRun, n: nat)
    requires WriteRunOk(cap, r)
    ensures (forall data: seq<byte> :: |data| >= n ==> WriteRunOk(cap, SendAsWritten(cap, r, data, n)))
       <==> n == 0 || Stream(r.chain) == []
  {
    hide ChainOk, Stream, SendAsWritten;
    ChainIsQueue(cap, r.chain);
    if n == 0 || Stream(r.chain) == [] {
      forall data: seq<byte> | |data| >= n
        ensures WriteRunOk(cap, SendAsWritten(cap, r, data, n))
      {
        SendInOrder(cap, r, data, n);
      }
    } else {
      var data := SendOvertakes(cap, r, n);
      assert |data| >= n && !WriteRunOk(cap, SendAsWritten(cap, r, data, n));
    }
  }

  function WriteStep(cap: nat, r: WriteRun, e: WriteEvent): WriteRun
    requires cap > 0 && ChainOk(cap, r.chain)
  {
    match e
    case Send(data, accepted) => SendRepaired(cap, r, data, accepted)
    case Write(bytes) => Enqueue(cap, r, bytes)
    case Flush(accepts) => FlushAll(cap, r, accepts)
  }

  /** What the first answer to the repaired `onWrite` brings about: nothing when nothing is queued or on an
      error; a shorter answer than the bytes of the head and the next buffer ends the call with exactly that
      many sent; a full one sends all of those and goes round again. */
  lemma FirstAnswerRepaired(cap: nat, r: WriteRun, accepts: seq<int>)
    requires cap > 0 && ChainOk(cap, r.chain)
    ensures var c := r.chain; var q := WriteStep(cap, r, Flush(accepts));
            var size := c[0].count + if |c| > 1 then c[1].count else 0;
            size <= |Stream(c)| &&
            if Stream(c) == [] || accepts == [] || accepts[0] < 0 then q == r
            else if accepts[0] < size then
              q.sent == r.sent + Stream(c)[..accepts[0]] && Stream(q.chain) == Stream(c)[accepts[0]..]
            else
              var d := Consume(c, size);
              ChainOk(cap, d) && Stream(d) == Stream(c)[size..]
              && q == WriteStep(cap, WriteRun(d, r.submitted, r.sent + Stream(c)[..size]), Flush(accepts[1..]))
  {
    hide ChainOk, Stream, Gather, Consume, Ring.Content;
    var c := r.chain;
    TailOk(cap, c);
    HeadEmptyIff(cap, c);
    if c[0].count > 0 {
      GatherIsPrefix(cap, c);
      if accepts != [] && accepts[0] >= 0 {
        var n := if accepts[0] < Pending(c) then accepts[0] else Pending(c);
        ConsumeIsFifo(cap, c, n);
        assert Stream(c)[..Pending(c)][..n] == Stream(c)[..n];
      }
    } else {
      NothingPending(cap, c);
    }
  }

  /** What a step does to the chain, sends and takes over does not depend on what went before. */
  lemma WriteStepShifts(cap: nat, r: WriteRun, e: WriteEvent)
    requires cap > 0 && ChainOk(cap, r.chain)
    ensures var q := WriteStep(cap, WriteRun(r.chain, [], []), e);
            WriteStep(cap, r, e) == WriteRun(q.chain, r.submitted + q.submitted, r.sent + q.sent)
  {
    hide ChainOk, QueueOk, Append, Held, FlushAll;
    ChainIsQueue(cap, r.chain);
    assert r.sent + [] == r.sent && r.submitted + [] == r.submitted;
    match e
    case Send(data, accepted) =>
      SendShifts(cap, r, data, if Held(r.chain) == 0 then accepted else -1);
    case Write(bytes) => assert [] + bytes == bytes;
    case Flush(accepts) => FlushShifts(cap, r, accepts);
  }

  lemma SendShifts(cap: nat, r: WriteRun, data: seq<byte>, accepted: int)
    requires QueueOk(cap, r.chain)
    ensures var q := SendAsWritten(cap, WriteRun(r.chain, [], []), data, accepted);
            SendAsWritten(cap, r, data, accepted) == WriteRun(q.chain, r.submitted + q.submitted, r.sent + q.sent)
  {
    hide QueueOk, Append;
    assert r.sent + [] == r.sent && [] + data == data;
    if accepted >= 0 {
      var n := Direct(data, accepted);
      assert [] + data[..n] == data[..n];
      ConcatAssoc(r.submitted, data[..n], data[n..]);
    }
  }

  lemma {:induction false} FlushShifts(cap: nat, r: WriteRun, accepts: seq<int>)
    requires cap > 0 && ChainOk(cap, r.chain)
    ensures var q := FlushAll(cap, WriteRun(r.chain, [], []), accepts);
            FlushAll(cap, r, accepts) == WriteRun(q.chain, r.submitted, r.sent + q.sent)
    decreases |accepts|
  {
    hide ChainOk, Stream, Gather, Pending, Consume;
    var c, start := r.chain, WriteRun(r.chain, [], []);
    TailOk(cap, c);
    if c[0].count == 0 || accepts == [] || accepts[0] < 0 {
      assert r.sent + [] == r.sent;
    } else {
      var n := if accepts[0] < Pending(c) then accepts[0] else Pending(c);
      GatherIsPrefix(cap, c);
      ConsumeIsFifo(cap, c, n);
      var bytes := Gather(c)[..n];
      assert [] + bytes == bytes;
      if n >= Pending(c) {
        FlushShifts(cap, r.(chain := Consume(c, n), sent := r.sent + bytes), accepts[1..]);
        FlushShifts(cap, start.(chain := Consume(c, n), sent := bytes), accepts[1..]);
        ConcatAssoc(r.sent, bytes, FlushAll(cap, WriteRun(Consume(c, n), [], []), accepts[1..]).sent);
      }
    }
  }

  lemma WriteStepOk(cap: nat, r: WriteRun, e: WriteEvent)
    requires WriteRunOk(cap, r)
    ensures WriteRunOk(cap, WriteStep(cap, r, e))
  {
    match e
    case Send(data, accepted) =>
      HeadEmptyIff(cap, r.chain);
      SendInOrder(cap, r, data, if Held(r.chain) == 0 then accepted else -1);
    case Write(bytes) => EnqueueKeeps(cap, r, bytes);
    case Flush(_) =>
  }

  function RunWrite(cap: nat, r: WriteRun, events: seq<WriteEvent>): WriteRun
    requires WriteRunOk(cap, r)
    decreases |events|
  {
    if events == [] then r
    else WriteStepOk(cap, r, events[0]); RunWrite(cap, WriteStep(cap, r, events[0]), events[1..])
  }

  function Payload(e: WriteEvent): seq<byte> {
    match e
    case Send(data, _) => data
    case Write(bytes) => bytes
    case Flush(_) => []
  }

  /** All that the run is asked to send, in order. */
  function Payloads(events: seq<WriteEvent>): seq<byte> {
    if events == [] then [] else Payload(events[0]) + Payloads(events[1..])
  }

  lemma StepSubmits(cap: nat, r: WriteRun, e: WriteEvent)
    requires cap > 0 && ChainOk(cap, r.chain)
    ensures WriteStep(cap, r, e).submitted == r.submitted + Payload(e)
  {
    match e
    case Send(data, accepted) =>
      var n := Direct(data, accepted);
      TakeDrop(data, n);
      ConcatAssoc(r.submitted, data[..n], data[n..]);
    case Write(_) =>
    case Flush(_) =>
  }

  /** The same step by step: what goes out and what stays queued is what was queued and what was added. */
  lemma StepConserves(cap: nat, c: seq<Ring>, e: WriteEvent)
    requires cap > 0 && ChainOk(cap, c)
    ensures var q := WriteStep(cap, WriteRun(c, [], []), e);
            ChainOk(cap, q.chain) && q.sent + Stream(q.chain) == Stream(c) + Payload(e)
  {
    hide ChainOk, Stream, Append;
    var r := WriteRun(c, Stream(c), []);
    assert [] + Stream(c) == Stream(c) && Stream(c) + [] == Stream(c);
    WriteStepOk(cap, r, e);
    StepSubmits(cap, r, e);
  }

  /** Write-side FIFO over whole runs: under any interleaving of `send`, `writeData` and `onWrite`, and
      whatever the socket accepts, its output followed by the chain is the submitted stream. */
  lemma {:induction false} WriteFifoOverRuns(cap: nat, r: WriteRun, events: seq<WriteEvent>)
    requires WriteRunOk(cap, r)
    ensures var q := RunWrite(cap, r, events);
            ChainOk(cap, q.chain) && q.sent + Stream(q.chain) == r.submitted + Payloads(events)
    decreases |events|
  {
    hide ChainOk, Stream, WriteStep, Payload;
    if events == [] {
      assert r.submitted + Payloads(events) == r.submitted;
    } else {
      WriteStepOk(cap, r, events[0]);
      StepSubmits(cap, r, events[0]);
      ConcatAssoc(r.submitted, Payload(events[0]), Payloads(events[1..]));
      WriteFifoOverRuns(cap, WriteStep(cap, r, events[0]), events[1..]);
    }
  }
}
