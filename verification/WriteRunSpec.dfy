/**
  The write side as written over whole runs that mix `send`, `writeData` and `onWrite`: what chains they
  leave for each other, and exactly which runs keep the bytes in order.
 */
module WriteRunSpec {
  import opened OnWriteSpec
  import opened ReadSpec
  import opened Rings
  import opened Seqs
  import opened WriteSpec

  // ---------- what the operations leave ----------

  lemma QueueIsLoop(cap: nat, c: seq<Ring>)
    requires QueueOk(cap, c)
    ensures LoopOk(cap, c)
  {
    if |c| > 1 {
      assert forall i :: 0 <= i < |c| - 1 ==> c[1..][i] == c[i + 1];
    }
  }

  lemma TopUpBehind(cap: nat, c: seq<Ring>, r: Ring, bytes: seq<byte>)
    requires QueueOk(cap, c) && |c| > 1 && |bytes| <= Rear(c)
    ensures var d := [r] + c[1..];
            Last(d) == Last(c) && |TopUp(c, bytes)| == |c| && TopUp(c, bytes)[0] == c[0]
            && TopUp(d, bytes) == [r] + TopUp(c, bytes)[1..]
  {
    hide Ring.Extend;
  }

  /** What is appended goes behind the other buffers, whatever the head is. */
  lemma AppendBehind(cap: nat, c: seq<Ring>, r: Ring, bytes: seq<byte>)
    requires QueueOk(cap, c) && |c| > 1
    ensures var d := [r] + c[1..];
            Last(d) == Last(c) && Append(cap, c, bytes) != [] && Append(cap, c, bytes)[0] == c[0]
            && Append(cap, d, bytes) == [r] + Append(cap, c, bytes)[1..]
  {
    hide Spill, TopUp;
    var room := Rear(c);
    var top := if |bytes| < room then bytes else bytes[..room];
    TopUpBehind(cap, c, r, top);
    if |bytes| >= room {
      DropConcat(TopUp(c, top), Spill(cap, bytes[room..]), 1);
      ConcatAssoc([r], TopUp(c, top)[1..], Spill(cap, bytes[room..]));
    }
  }

  lemma FullHead(cap: nat)
    requires cap > 0
    ensures var r := FullRing(Zeros(cap)); r.Ok() && |r.data| == cap && r.count == cap
  {
  }

  lemma AppendKeepsQueue(cap: nat, c: seq<Ring>, bytes: seq<byte>)
    requires QueueOk(cap, c)
    ensures QueueOk(cap, Append(cap, c, bytes))
    ensures Stream(Append(cap, c, bytes)) == Stream(c) + bytes
  {
    hide Append, Stream, FullRing;
    if |c| > 1 {
      FullHead(cap);
      var r := FullRing(Zeros(cap));
      var d, e := [r] + c[1..], Append(cap, c, bytes);
      ChainIsQueue(cap, d);
      AppendIsFifo(cap, d, bytes);
      AppendBehind(cap, c, r, bytes);
      BehindHead(cap, c, e, r);
      SplitStream(d);
      SplitStream(c);
      SplitStream(e);
      SplitStream([r] + e[1..]);
      assert d[1..] == c[1..] && ([r] + e[1..])[1..] == e[1..];
      CancelHead(r.Content(), Stream(e[1..]), Stream(c[1..]), bytes);
      ConcatAssoc(c[0].Content(), Stream(c[1..]), bytes);
    } else {
      ChainIsQueue(cap, c);
      AppendIsFifo(cap, c, bytes);
      ChainIsQueue(cap, Append(cap, c, bytes));
    }
  }

  lemma BehindHead(cap: nat, c: seq<Ring>, e: seq<Ring>, r: Ring)
    requires QueueOk(cap, c) && |e| >= 1 && e[0] == c[0] && ChainOk(cap, [r] + e[1..])
    ensures QueueOk(cap, e)
  {
    var f := [r] + e[1..];
    assert forall i :: 0 < i < |e| ==> e[i] == f[i];
  }

  lemma CancelHead(h: seq<byte>, s: seq<byte>, t: seq<byte>, b: seq<byte>)
    requires h + s == (h + t) + b
    ensures s == t + b
  {
    assert (h + s)[|h|..] == s;
    assert ((h + t) + b)[|h|..] == t + b;
  }

  lemma PassKeepsQueue(cap: nat, c: seq<Ring>, n: nat)
    requires QueueOk(cap, c)
    ensures QueueOk(cap, PassAsWritten(c, n))
  {
    var d := PassAsWritten(c, n);
    if n > c[0].count && n <= Pending(c) {
      assert forall i :: 0 < i < |d| ==> d[i] == c[i + 1];
    }
  }

  lemma {:induction false} FlushKeepsQueue(cap: nat, r: WriteRun, accepts: seq<int>)
    requires QueueOk(cap, r.chain) && LoopOk(cap, r.chain)
    ensures QueueOk(cap, FlushAsWritten(cap, r, accepts).chain)
    decreases |accepts|
  {
    hide QueueOk, LoopOk, ChainSafe, PassAsWritten, Gather, Pending;
    var c := r.chain;
    StaleBounds(cap, c);
    if accepts != [] && accepts[0] >= 0 {
      var n := Taken(cap, c, accepts[0]);
      PassKeepsLoop(cap, c, n);
      PassKeepsQueue(cap, c, n);
      FlushKeepsQueue(cap, WriteRun(PassAsWritten(c, n), r.submitted, r.sent + Gather(c)[..n]), accepts[1..]);
    }
  }

  // ---------- runs ----------

  /** One event of the write side, as written. */
  function StepAsWritten(cap: nat, r: WriteRun, e: WriteEvent): (q: WriteRun)
    requires QueueOk(cap, r.chain)
    ensures QueueOk(cap, q.chain)
  {
    match e
    case Send(data, accepted) =>
      AppendKeepsQueue(cap, r.chain, if accepted < 0 then data else data[Direct(data, accepted)..]);
      SendAsWritten(cap, r, data, accepted)
    case Write(bytes) =>
      AppendKeepsQueue(cap, r.chain, bytes);
      Enqueue(cap, r, bytes)
    case Flush(accepts) =>
      QueueIsLoop(cap, r.chain);
      FlushKeepsQueue(cap, r, accepts);
      OnWriteAsWritten(cap, r, accepts)
  }

  function RunAsWritten(cap: nat, r: WriteRun, events: seq<WriteEvent>): (q: WriteRun)
    requires QueueOk(cap, r.chain)
    ensures QueueOk(cap, q.chain)
    decreases |events|
  {
    if events == [] then r else RunAsWritten(cap, StepAsWritten(cap, r, events[0]), events[1..])
  }

  /** A `send` of which the socket takes something while bytes are queued, or an `onWrite` in which stale
      bytes are accepted. */
  predicate BreaksOrder(cap: nat, c: seq<Ring>, e: WriteEvent)
    requires QueueOk(cap, c)
  {
    QueueIsLoop(cap, c);
    Held(c) > 0 && match e
    case Send(data, accepted) => accepted > 0 && data != []
    case Write(_) => false
    case Flush(accepts) => AcceptsStale(cap, c, accepts)
  }

  /** Some event of the run does that, on the chain it meets. */
  predicate Breaks(cap: nat, r: WriteRun, events: seq<WriteEvent>)
    requires QueueOk(cap, r.chain)
    decreases |events|
  {
    events != []
    && (BreaksOrder(cap, r.chain, events[0]) || Breaks(cap, StepAsWritten(cap, r, events[0]), events[1..]))
  }

  /** All that is sent and left over is what was queued and what was handed over since, in order. */
  predicate KeepsOrder(cap: nat, c: seq<Ring>, events: seq<WriteEvent>)
    requires QueueOk(cap, c)
  {
    var q := RunAsWritten(cap, WriteRun(c, Stream(c), []), events);
    q.sent + Stream(q.chain) == Stream(c) + Payloads(events)
  }

  lemma {:induction false} PassesShift(cap: nat, r: WriteRun, accepts: seq<int>)
    requires LoopOk(cap, r.chain)
    ensures var q := FlushAsWritten(cap, WriteRun(r.chain, [], []), accepts);
            FlushAsWritten(cap, r, accepts) == WriteRun(q.chain, r.submitted, r.sent + q.sent)
    decreases |accepts|
  {
    hide LoopOk, ChainSafe, PassAsWritten, Gather, Pending;
    var c := r.chain;
    assert r.sent + [] == r.sent;
    if accepts != [] && accepts[0] >= 0 {
      var n := Taken(cap, c, accepts[0]);
      StaleBounds(cap, c);
      PassKeepsLoop(cap, c, n);
      var d, bytes := PassAsWritten(c, n), Gather(c)[..n];
      assert [] + bytes == bytes;
      if n == Pending(c) {
        PassesShift(cap, WriteRun(d, r.submitted, r.sent + bytes), accepts[1..]);
        PassesShift(cap, WriteRun(d, [], bytes), accepts[1..]);
        ConcatAssoc(r.sent, bytes, FlushAsWritten(cap, WriteRun(d, [], []), accepts[1..]).sent);
      }
    }
  }

  /** What an event does to the chain and sends does not depend on what went before. */
  lemma StepShifts(cap: nat, r: WriteRun, e: WriteEvent)
    requires QueueOk(cap, r.chain)
    ensures var q := StepAsWritten(cap, WriteRun(r.chain, [], []), e);
            StepAsWritten(cap, r, e) == WriteRun(q.chain, r.submitted + q.submitted, r.sent + q.sent)
  {
    hide QueueOk, LoopOk, Append, Held, FlushAsWritten;
    assert r.sent + [] == r.sent && r.submitted + [] == r.submitted;
    match e
    case Send(data, accepted) => SendShifts(cap, r, data, accepted);
    case Write(bytes) => assert [] + bytes == bytes;
    case Flush(accepts) =>
      QueueIsLoop(cap, r.chain);
      PassesShift(cap, r, accepts);
      FlushSubmitsNothing(cap, WriteRun(r.chain, [], []), accepts);
  }

  // ---------- right runs ----------

  lemma SendStep(cap: nat, r: WriteRun, data: seq<byte>, accepted: int)
    requires QueueOk(cap, r.chain)
    ensures var n := Direct(data, accepted); var q := SendAsWritten(cap, r, data, accepted);
            q.sent == r.sent + data[..n] && Stream(q.chain) == Stream(r.chain) + data[n..]
            && q.submitted == r.submitted + data && q.chain == Append(cap, r.chain, data[n..])
  {
    hide QueueOk, Append, Stream;
    var n := Direct(data, accepted);
    AppendKeepsQueue(cap, r.chain, data[n..]);
    assert data[0..] == data && data[..0] == [] && r.sent + [] == r.sent;
    TakeDrop(data, n);
    ConcatAssoc(r.submitted, data[..n], data[n..]);
  }

  /** What goes out and what is queued is told by what `write` accepted: nothing on an error, all of the data
      if there is not more, and otherwise exactly that many bytes, with the others queued behind the rest. */
  lemma SendTransfers(cap: nat, r: WriteRun, data: seq<byte>, accepted: int)
    requires QueueOk(cap, r.chain)
    ensures var q := StepAsWritten(cap, r, Send(data, accepted)); var queued := Stream(r.chain);
            && (accepted < 0 ==> q.sent == r.sent && Stream(q.chain) == queued + data)
            && (0 <= accepted <= |data| ==>
                  q.sent == r.sent + data[..accepted] && Stream(q.chain) == queued + data[accepted..])
            && (accepted > |data| ==> q.sent == r.sent + data && Stream(q.chain) == queued)
  {
    hide QueueOk, Append, Stream, SendAsWritten;
    SendStep(cap, r, data, accepted);
    assert data[..|data|] == data && data[|data|..] == [] && data[..0] == [] && data[0..] == data;
    assert r.sent + [] == r.sent && Stream(r.chain) + [] == Stream(r.chain);
  }

  /** The repaired one does that on an empty queue, and on any other sends nothing and queues all. */
  lemma RepairedTransfers(cap: nat, r: WriteRun, data: seq<byte>, accepted: int)
    requires cap > 0 && ChainOk(cap, r.chain)
    ensures var q := WriteStep(cap, r, Send(data, accepted)); var queued := Stream(r.chain);
            && (queued != [] || accepted < 0 ==> q.sent == r.sent && Stream(q.chain) == queued + data)
            && (queued == [] && 0 <= accepted <= |data| ==>
                  q.sent == r.sent + data[..accepted] && Stream(q.chain) == data[accepted..])
            && (queued == [] && accepted > |data| ==> q.sent == r.sent + data && Stream(q.chain) == [])
  {
    hide QueueOk, ChainOk, Append, Stream, SendAsWritten, Held;
    ChainIsQueue(cap, r.chain);
    HeadEmptyIff(cap, r.chain);
    var answer := if Held(r.chain) == 0 then accepted else -1;
    SendTransfers(cap, r, data, answer);
    assert forall s: seq<byte> :: [] + s == s;
  }

  /** `writeData` sends nothing and queues all, as written and repaired. */
  lemma WriteQueues(cap: nat, r: WriteRun, bytes: seq<byte>)
    requires QueueOk(cap, r.chain)
    ensures var q := StepAsWritten(cap, r, Write(bytes)); q.sent == r.sent && Stream(q.chain) == Stream(r.chain) + bytes
    ensures ChainOk(cap, r.chain) ==> WriteStep(cap, r, Write(bytes)) == StepAsWritten(cap, r, Write(bytes))
  {
    hide Append, Stream;
    AppendKeepsQueue(cap, r.chain, bytes);
  }

  lemma {:induction false} FlushSubmitsNothing(cap: nat, r: WriteRun, accepts: seq<int>)
    requires LoopOk(cap, r.chain)
    ensures var q := FlushAsWritten(cap, r, accepts);
            q.submitted == r.submitted && |q.sent| + |Stream(q.chain)| >= |r.sent| + |Stream(r.chain)|
    decreases |accepts|
  {
    hide LoopOk, Stream, ChainSafe, PassAsWritten, Gather, Pending;
    var c := r.chain;
    if accepts != [] && accepts[0] >= 0 {
      var n := Taken(cap, c, accepts[0]);
      StaleBounds(cap, c);
      PassKeepsLoop(cap, c, n);
      if n <= Pending(c) { RoundTakes(cap, c, n); } else { TooMuch(c, n); }
      FlushSubmitsNothing(cap, WriteRun(PassAsWritten(c, n), r.submitted, r.sent + Gather(c)[..n]), accepts[1..]);
    }
  }

  /** Of what was sent and handed over nothing is taken back, and no byte disappears. */
  lemma StepBalance(cap: nat, r: WriteRun, e: WriteEvent)
    requires QueueOk(cap, r.chain)
    ensures var q := StepAsWritten(cap, r, e);
            r.sent <= q.sent && q.submitted == r.submitted + Payload(e)
            && |q.sent| + |Stream(q.chain)| >= |r.sent| + |Stream(r.chain)| + |Payload(e)|
  {
    hide QueueOk, Append, Stream, FlushAsWritten, LoopOk;
    match e
    case Send(data, accepted) => SendStep(cap, r, data, accepted);
    case Write(bytes) => AppendKeepsQueue(cap, r.chain, bytes);
    case Flush(accepts) =>
      QueueIsLoop(cap, r.chain);
      FlushSubmitsNothing(cap, r, accepts);
  }

  lemma RightStep(cap: nat, r: WriteRun, e: WriteEvent)
    requires QueueOk(cap, r.chain) && !BreaksOrder(cap, r.chain, e)
    ensures var q := StepAsWritten(cap, r, e);
            q.sent + Stream(q.chain) == (r.sent + Stream(r.chain)) + Payload(e)
  {
    hide QueueOk, Append, Stream, FlushAsWritten, LoopOk, AcceptsStale, Held;
    var s := Stream(r.chain);
    QueueIsLoop(cap, r.chain);
    LoopHeld(cap, r.chain);
    match e
    case Send(data, accepted) =>
      SendStep(cap, r, data, accepted);
      InTurn(r.sent, s, data, Direct(data, accepted));
    case Write(bytes) =>
      AppendKeepsQueue(cap, r.chain, bytes);
      ConcatAssoc(r.sent, s, bytes);
    case Flush(accepts) =>
      assert (r.sent + s) + [] == r.sent + s;
      if Held(r.chain) > 0 { RightCall(cap, r, accepts); }
  }

  lemma InTurn(sent: seq<byte>, s: seq<byte>, data: seq<byte>, n: nat)
    requires n <= |data| && (n == 0 || s == [])
    ensures (sent + data[..n]) + (s + data[n..]) == (sent + s) + data
  {
    TakeDrop(data, n);
  }

  lemma {:induction false} RightRun(cap: nat, r: WriteRun, events: seq<WriteEvent>)
    requires QueueOk(cap, r.chain) && !Breaks(cap, r, events)
    ensures var q := RunAsWritten(cap, r, events);
            q.sent + Stream(q.chain) == (r.sent + Stream(r.chain)) + Payloads(events)
    decreases |events|
  {
    hide QueueOk, Stream, StepAsWritten, BreaksOrder, Payload;
    if events == [] {
      assert (r.sent + Stream(r.chain)) + [] == r.sent + Stream(r.chain);
    } else {
      RightStep(cap, r, events[0]);
      RightRun(cap, StepAsWritten(cap, r, events[0]), events[1..]);
      ConcatAssoc(r.sent + Stream(r.chain), Payload(events[0]), Payloads(events[1..]));
    }
  }

  // ---------- what is stored does not matter for where things go ----------

  predicate SameSize(e: WriteEvent, f: WriteEvent) {
    match e
    case Send(data, accepted) => f.Send? && |f.data| == |data| && f.accepted == accepted
    case Write(bytes) => f.Write? && |f.bytes| == |bytes|
    case Flush(_) => f == e
  }

  /** The same operations with the same sizes and answers of the kernel, and any contents. */
  predicate SameSizes(events: seq<WriteEvent>, other: seq<WriteEvent>) {
    |events| == |other| && forall i :: 0 <= i < |events| ==> SameSize(events[i], other[i])
  }

  lemma {:induction false} SpillShape(cap: nat, a: seq<byte>, b: seq<byte>)
    requires cap > 0 && |a| == |b|
    ensures SameShape(Spill(cap, a), Spill(cap, b))
    decreases |a|
  {
    if |a| > cap { SpillShape(cap, a[cap..], b[cap..]); }
  }

  lemma AppendShape(cap: nat, c: seq<Ring>, d: seq<Ring>, a: seq<byte>, b: seq<byte>)
    requires QueueOk(cap, c) && QueueOk(cap, d) && SameShape(c, d) && |a| == |b|
    ensures SameShape(Append(cap, c, a), Append(cap, d, b))
  {
    hide Spill, Ring.Stored;
    var room := Rear(c);
    if |a| < room {
      TopUpShape(cap, c, d, a, b);
    } else {
      TopUpShape(cap, c, d, a[..room], b[..room]);
      SpillShape(cap, a[room..], b[room..]);
    }
  }

  lemma TopUpShape(cap: nat, c: seq<Ring>, d: seq<Ring>, a: seq<byte>, b: seq<byte>)
    requires QueueOk(cap, c) && QueueOk(cap, d) && SameShape(c, d) && |a| == |b| <= Rear(c)
    ensures SameShape(TopUp(c, a), TopUp(d, b))
  {
    hide Ring.Stored;
    StoredLength(Last(c), a);
    StoredLength(Last(d), b);
  }

  lemma {:induction false} FlushShape(cap: nat, r: WriteRun, s: WriteRun, accepts: seq<int>)
    requires LoopOk(cap, r.chain) && LoopOk(cap, s.chain) && SameShape(r.chain, s.chain)
    ensures SameShape(FlushAsWritten(cap, r, accepts).chain, FlushAsWritten(cap, s, accepts).chain)
    decreases |accepts|
  {
    hide LoopOk, ChainSafe, Gather, GatherHead, Pending, PassAsWritten, SameShape;
    var c, d := r.chain, s.chain;
    StaleBounds(cap, c);
    StaleBounds(cap, d);
    ShapeKeepsLoop(cap, c, d);
    if accepts != [] && accepts[0] >= 0 {
      var n := Taken(cap, c, accepts[0]);
      PassKeepsLoop(cap, c, n);
      PassKeepsLoop(cap, d, n);
      PassKeepsShape(c, d, n);
      FlushShape(cap, WriteRun(PassAsWritten(c, n), r.submitted, r.sent + Gather(c)[..n]),
                 WriteRun(PassAsWritten(d, n), s.submitted, s.sent + Gather(d)[..n]), accepts[1..]);
    }
  }

  lemma StepShape(cap: nat, r: WriteRun, s: WriteRun, e: WriteEvent, f: WriteEvent)
    requires QueueOk(cap, r.chain) && QueueOk(cap, s.chain) && SameShape(r.chain, s.chain) && SameSize(e, f)
    ensures BreaksOrder(cap, r.chain, e) == BreaksOrder(cap, s.chain, f)
    ensures SameShape(StepAsWritten(cap, r, e).chain, StepAsWritten(cap, s, f).chain)
  {
    hide QueueOk, Append, Stream, FlushAsWritten, LoopOk, AcceptsStale, Held, SameShape;
    var c, d := r.chain, s.chain;
    QueueIsLoop(cap, c);
    QueueIsLoop(cap, d);
    HeldByShape(c, d);
    match e
    case Send(data, accepted) =>
      var n := Direct(data, accepted);
      SendStep(cap, r, data, accepted);
      SendStep(cap, s, f.data, accepted);
      AppendShape(cap, c, d, data[n..], f.data[n..]);
    case Write(bytes) => AppendShape(cap, c, d, bytes, f.bytes);
    case Flush(accepts) =>
      StaleByShape(cap, c, d, accepts);
      FlushShape(cap, r, s, accepts);
  }

  lemma {:induction false} BreaksByShape(cap: nat, r: WriteRun, s: WriteRun, events: seq<WriteEvent>,
                                         other: seq<WriteEvent>)
    requires QueueOk(cap, r.chain) && QueueOk(cap, s.chain) && SameShape(r.chain, s.chain)
    requires SameSizes(events, other)
    ensures Breaks(cap, r, events) == Breaks(cap, s, other)
    decreases |events|
  {
    hide QueueOk, StepAsWritten, BreaksOrder, SameShape, SameSize;
    if events != [] {
      StepShape(cap, r, s, events[0], other[0]);
      BreaksByShape(cap, StepAsWritten(cap, r, events[0]), StepAsWritten(cap, s, other[0]), events[1..], other[1..]);
    }
  }

  // ---------- wrong runs ----------

  function Repeat(n: nat, b: byte): (s: seq<byte>)
    ensures |s| == n && AllOf(s, b)
  {
    seq(n, _ => b)
  }

  /** What paints the new buffers of `writeData`. */
  function SpillPaint(cap: nat, k: nat, size: nat): (s: seq<byte>)
    requires cap > 0
    ensures |s| == size
    decreases size
  {
    if size > cap then Repeat(cap, Shade(k)) + SpillPaint(cap, k + 1, size - cap) else Repeat(size, Shade(k))
  }

  lemma {:induction false} SpillPainted(cap: nat, k: nat, size: nat, i: nat)
    requires cap > 0 && i < |Spill(cap, SpillPaint(cap, k, size))|
    ensures var d := Spill(cap, SpillPaint(cap, k, size));
            AllOf(d[i].Content(), Shade(k + i)) && (i < |d| - 1 ==> AllOf(d[i].data, Shade(k + i)))
    decreases size
  {
    hide Shade;
    var bytes := SpillPaint(cap, k, size);
    if size > cap {
      var head, rest := Repeat(cap, Shade(k)), SpillPaint(cap, k + 1, size - cap);
      assert bytes[..cap] == head && bytes[cap..] == rest;
      FullContent(head);
      if i > 0 {
        assert k + i == k + 1 + (i - 1);
        SpillPainted(cap, k + 1, size - cap, i - 1);
      }
    } else {
      LoadedContent(cap, bytes);
    }
  }

  /** What `writeData` can be given to keep the chain painted. */
  function AppendPaint(cap: nat, k: nat, c: seq<Ring>, size: nat): (s: seq<byte>)
    requires QueueOk(cap, c)
    ensures |s| == size
  {
    var room, b := Rear(c), Shade(k + (|c| - 1));
    if size < room then Repeat(size, b) else Repeat(room, b) + SpillPaint(cap, k + |c|, size - room)
  }

  lemma TopUpPainted(cap: nat, k: nat, c: seq<Ring>, bytes: seq<byte>)
    requires QueueOk(cap, c) && Painted(k, c) && |bytes| <= Rear(c) && AllOf(bytes, Shade(k + (|c| - 1)))
    ensures Painted(k, TopUp(c, bytes))
  {
    hide Shade, Ring.Content, Ring.Extend;
    ExtendContent(Last(c), bytes);
  }

  lemma FullIsContent(r: Ring)
    requires r.Ok() && r.pop == 0 && r.count == |r.data|
    ensures r.Content() == r.data
  {
  }

  lemma AppendPainted(cap: nat, k: nat, c: seq<Ring>, size: nat)
    requires QueueOk(cap, c) && Painted(k, c)
    ensures Painted(k, Append(cap, c, AppendPaint(cap, k, c, size)))
  {
    hide Shade, Ring.Content, Spill, AllOf, SpillPaint, TopUp;
    var room, b := Rear(c), Shade(k + (|c| - 1));
    var bytes := AppendPaint(cap, k, c, size);
    if size < room {
      TopUpPainted(cap, k, c, bytes);
    } else {
      var head, rest := Repeat(room, b), SpillPaint(cap, k + |c|, size - room);
      assert bytes[..room] == head && bytes[room..] == rest;
      TopUpPainted(cap, k, c, head);
      var d, e := TopUp(c, head), Spill(cap, rest);
      FilledUp(cap, c, head);
      var g: seq<Ring> := d + e;
      forall i | 0 <= i < |g|
        ensures AllOf(g[i].Content(), Shade(k + i))
        ensures i < |g| - 1 && (i > 0 || g[i].count == 0) ==> AllOf(g[i].data, Shade(k + i))
      {
        if i < |c| {
          if 0 < i == |c| - 1 { FullIsContent(d[i]); }
        } else {
          SpillPainted(cap, k + |c|, size - room, i - |c|);
          assert k + i == k + |c| + (i - |c|);
        }
      }
    }
  }

  lemma FilledUp(cap: nat, c: seq<Ring>, bytes: seq<byte>)
    requires QueueOk(cap, c) && |bytes| == Rear(c)
    ensures var d := TopUp(c, bytes);
            |d| == |c| && Last(d).Ok() && |Last(d).data| == cap && Last(d).count == cap && Last(d).pop == Last(c).pop
  {
    hide Ring.Content, Ring.Stored;
    ExtendContent(Last(c), bytes);
  }

  lemma {:induction false} FlushPainted(cap: nat, k: nat, r: WriteRun, accepts: seq<int>) returns (l: nat)
    requires LoopOk(cap, r.chain) && Painted(k, r.chain)
    ensures Painted(l, FlushAsWritten(cap, r, accepts).chain)
    decreases |accepts|
  {
    hide LoopOk, Stream, ChainSafe, PassAsWritten, Gather, Painted;
    var c := r.chain;
    l := k;
    if accepts != [] && accepts[0] >= 0 {
      var n := Taken(cap, c, accepts[0]);
      StaleBounds(cap, c);
      PassKeepsLoop(cap, c, n);
      l := PassKeepsPaint(cap, k, c, n);
      if n == Pending(c) {
        l := FlushPainted(cap, l, WriteRun(PassAsWritten(c, n), r.submitted, r.sent + Gather(c)[..n]), accepts[1..]);
      }
    }
  }

  /** Contents for one event that leave the chain painted. */
  lemma PaintedStep(cap: nat, k: nat, r: WriteRun, e: WriteEvent) returns (f: WriteEvent, l: nat)
    requires QueueOk(cap, r.chain) && Painted(k, r.chain)
    ensures SameSize(e, f) && Painted(l, StepAsWritten(cap, r, f).chain)
  {
    hide QueueOk, Append, Stream, FlushAsWritten, LoopOk, Painted, AppendPaint;
    var c := r.chain;
    f, l := e, k;
    match e
    case Send(data, accepted) =>
      var n := Direct(data, accepted);
      var rest := AppendPaint(cap, k, c, |data| - n);
      f := Send(data[..n] + rest, accepted);
      assert f.data[n..] == rest;
      SendStep(cap, r, f.data, accepted);
      AppendPainted(cap, k, c, |data| - n);
    case Write(bytes) =>
      f := Write(AppendPaint(cap, k, c, |bytes|));
      AppendPainted(cap, k, c, |bytes|);
    case Flush(accepts) =>
      QueueIsLoop(cap, c);
      if Held(c) > 0 { l := FlushPainted(cap, k, r, accepts); }
  }

  /** Contents for the first event that breaks the order. */
  lemma BrokenStep(cap: nat, k: nat, r: WriteRun, e: WriteEvent) returns (f: WriteEvent)
    requires QueueOk(cap, r.chain) && Painted(k, r.chain) && BreaksOrder(cap, r.chain, e)
    requires r.sent + Stream(r.chain) == r.submitted
    ensures SameSize(e, f)
    ensures var q := StepAsWritten(cap, r, f); Astray(q, q.submitted)
  {
    hide QueueOk, Append, Stream, FlushAsWritten, LoopOk, Painted, AcceptsStale, Held;
    QueueIsLoop(cap, r.chain);
    LoopHeld(cap, r.chain);
    match e
    case Send(data, accepted) =>
      var next := Stream(r.chain)[0];
      f := Send(Repeat(|data|, if next == 0 then 1 else 0), accepted);
      SendStep(cap, r, f.data, accepted);
      var q, at := StepAsWritten(cap, r, f), |r.sent|;
      assert q.sent[at] == f.data[..Direct(data, accepted)][0] == f.data[0];
      assert q.submitted[at] == r.submitted[at] == next;
    case Flush(accepts) =>
      f := e;
      WrongCall(cap, k, r, accepts);
      FlushSubmitsNothing(cap, r, accepts);
  }

  lemma {:induction false} StaysAstray(cap: nat, r: WriteRun, events: seq<WriteEvent>)
    requires QueueOk(cap, r.chain) && Astray(r, r.submitted)
    ensures var q := RunAsWritten(cap, r, events); Astray(q, q.submitted)
    decreases |events|
  {
    hide QueueOk, Stream, StepAsWritten;
    if events != [] {
      StepBalance(cap, r, events[0]);
      StaysAstray(cap, StepAsWritten(cap, r, events[0]), events[1..]);
    }
  }

  /** Contents with which a run that breaks the order ends wrong. */
  lemma {:induction false} BrokenRun(cap: nat, k: nat, r: WriteRun, events: seq<WriteEvent>)
    returns (other: seq<WriteEvent>)
    requires QueueOk(cap, r.chain) && Painted(k, r.chain) && Breaks(cap, r, events)
    requires r.sent + Stream(r.chain) == r.submitted
    ensures SameSizes(events, other)
    ensures var q := RunAsWritten(cap, r, other); Astray(q, q.submitted)
    decreases |events|
  {
    hide QueueOk, Stream, StepAsWritten, BreaksOrder, Painted, SameShape, Astray;
    var f, l, rest := events[0], k, events[1..];
    if BreaksOrder(cap, r.chain, events[0]) {
      f := BrokenStep(cap, k, r, events[0]);
      StaysAstray(cap, StepAsWritten(cap, r, f), rest);
    } else {
      f, l := PaintedStep(cap, k, r, events[0]);
      SameAsItself(r.chain);
      StepShape(cap, r, r, events[0], f);
      var q := StepAsWritten(cap, r, f);
      RightStep(cap, r, f);
      StepBalance(cap, r, f);
      SizesReflexive(rest);
      BreaksByShape(cap, StepAsWritten(cap, r, events[0]), q, rest, rest);
      rest := BrokenRun(cap, l, q, rest);
    }
    other := [f] + rest;
    assert other[1..] == rest;
  }

  lemma SameAsItself(c: seq<Ring>)
    ensures SameShape(c, c)
  {
  }

  lemma SizesReflexive(events: seq<WriteEvent>)
    ensures SameSizes(events, events)
  {
  }

  lemma {:induction false} RunSubmits(cap: nat, r: WriteRun, events: seq<WriteEvent>)
    requires QueueOk(cap, r.chain)
    ensures RunAsWritten(cap, r, events).submitted == r.submitted + Payloads(events)
    decreases |events|
  {
    hide QueueOk, StepAsWritten, Payload;
    if events == [] {
      assert r.submitted + [] == r.submitted;
    } else {
      StepBalance(cap, r, events[0]);
      RunSubmits(cap, StepAsWritten(cap, r, events[0]), events[1..]);
      ConcatAssoc(r.submitted, Payload(events[0]), Payloads(events[1..]));
    }
  }

  lemma ShapeKeepsQueue(cap: nat, c: seq<Ring>, d: seq<Ring>)
    requires QueueOk(cap, c) && SameShape(c, d)
    ensures QueueOk(cap, d)
  {
  }

  lemma RightForAll(cap: nat, c: seq<Ring>, events: seq<WriteEvent>, d: seq<Ring>, other: seq<WriteEvent>)
    requires QueueOk(cap, c) && !Breaks(cap, WriteRun(c, Stream(c), []), events)
    requires QueueOk(cap, d) && SameShape(c, d) && SameSizes(events, other)
    ensures KeepsOrder(cap, d, other)
  {
    hide QueueOk, Stream, Breaks, SameShape, SameSizes, RunAsWritten;
    var r := WriteRun(d, Stream(d), []);
    BreaksByShape(cap, WriteRun(c, Stream(c), []), r, events, other);
    RightRun(cap, r, other);
    assert [] + Stream(d) == Stream(d);
  }

  lemma WrongForSome(cap: nat, k: nat, c: seq<Ring>, events: seq<WriteEvent>) returns (other: seq<WriteEvent>)
    requires QueueOk(cap, c) && Painted(k, c) && Breaks(cap, WriteRun(c, Stream(c), []), events)
    ensures SameSizes(events, other) && !KeepsOrder(cap, c, other)
  {
    hide QueueOk, Stream, Breaks, Painted, RunAsWritten, Astray, SameSizes;
    var r := WriteRun(c, Stream(c), []);
    assert [] + Stream(c) == Stream(c);
    other := BrokenRun(cap, k, r, events);
    RunSubmits(cap, r, other);
    AstrayIsWrong(RunAsWritten(cap, r, other), Stream(c) + Payloads(other));
  }

  /** The write side as written, over every run of `send`, `writeData` and `onWrite` from every chain such
      runs leave, and whatever the kernel accepts: for all contents everything sent and left over is what was
      queued and handed over, in order, exactly when no `send` overtakes queued bytes and no `onWrite`
      accepts stale ones. */
  lemma WriteRunKeepsOrderIff(cap: nat, c: seq<Ring>, events: seq<WriteEvent>)
    requires QueueOk(cap, c)
    ensures (forall d, other :: QueueOk(cap, d) && SameShape(c, d) && SameSizes(events, other)
               ==> KeepsOrder(cap, d, other))
       <==> !Breaks(cap, WriteRun(c, Stream(c), []), events)
  {
    hide QueueOk, Stream, Breaks, SameShape, SameSizes, KeepsOrder, Painted;
    if Breaks(cap, WriteRun(c, Stream(c), []), events) {
      var d := Paint(c);
      ShapeKeepsQueue(cap, c, d);
      SizesReflexive(events);
      BreaksByShape(cap, WriteRun(c, Stream(c), []), WriteRun(d, Stream(d), []), events, events);
      var other := WrongForSome(cap, 0, d, events);
    } else {
      forall d, other | QueueOk(cap, d) && SameShape(c, d) && SameSizes(events, other)
        ensures KeepsOrder(cap, d, other)
      {
        RightForAll(cap, c, events, d, other);
      }
    }
  }

  /** The same for the whole life of a connection. */
  lemma ConnectionKeepsOrderIff(cap: nat, events: seq<WriteEvent>)
    requires cap > 0
    ensures QueueOk(cap, [FreshRing(cap)])
    ensures (forall other :: SameSizes(events, other) ==> KeepsOrder(cap, [FreshRing(cap)], other))
       <==> !Breaks(cap, WriteRun([FreshRing(cap)], [], []), events)
  {
    hide QueueOk, Stream, Breaks, SameShape, SameSizes, KeepsOrder, Painted;
    var c := [FreshRing(cap)];
    NewConnection(cap);
    if Breaks(cap, WriteRun(c, [], []), events) {
      var other := WrongForSome(cap, 0, c, events);
    } else {
      forall other | SameSizes(events, other)
        ensures KeepsOrder(cap, c, other)
      {
        SameAsItself(c);
        RightForAll(cap, c, events, c, other);
      }
    }
  }

  lemma NewConnection(cap: nat)
    requires cap > 0
    ensures var c := [FreshRing(cap)]; QueueOk(cap, c) && Painted(0, c) && Stream(c) == []
  {
    LoneStream(FreshRing(cap));
  }
}
