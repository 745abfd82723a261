/**
  The read side of a connection as a state machine over values: what `readv` fills, what `ReadData`
  takes, and the one place where `ReadData` as written leaves the ring invariant.
 */
module ReadSpec {
  import opened Arith
  import opened Rings
  import opened Seqs

  /** The chain from head to tail, and whether the tail already links an unused buffer. */
  datatype ReadState = ReadState(chain: seq<Ring>, spare: bool)

  ghost predicate StateOk(cap: nat, s: ReadState) {
    cap > 0 && ChainOk(cap, s.chain)
  }

  function Last(c: seq<Ring>): Ring
    requires |c| >= 1
  {
    c[|c| - 1]
  }

  /** Free bytes behind the tail's content. */
  function Rear(c: seq<Ring>): nat
    requires |c| >= 1 && Last(c).count <= |Last(c).data|
  {
    |Last(c).data| - Last(c).count
  }

  // ---------- filling ----------

  /** The chain after `readv` delivered `bytes` into the tail and, beyond it, the next buffer. */
  function Fill(cap: nat, s: ReadState, bytes: seq<byte>): ReadState
    requires |s.chain| >= 1 && Last(s.chain).push <= |Last(s.chain).data| == cap
    requires Last(s.chain).count <= cap && |bytes| <= Rear(s.chain) + cap
  {
    var c, t := s.chain, |s.chain| - 1;
    var rear := Rear(c);
    if |bytes| <= rear then ReadState(c[t := c[t].Extend(bytes)], true)
    else ReadState(c[t := c[t].Extend(bytes[..rear])] + [LoadedRing(cap, bytes[rear..])], false)
  }

  lemma {:induction false} StreamOfConcat(c: seq<Ring>, d: seq<Ring>)
    ensures Stream(c + d) == Stream(c) + Stream(d)
    decreases |c|
  {
    hide Ring.Content;
    if c == [] {
      assert c + d == d;
    } else {
      StreamOfConcat(c[1..], d);
      var h, t, u := c[0].Content(), Stream(c[1..]), Stream(d);
      assert (c + d)[1..] == c[1..] + d;
      assert Stream(c + d) == h + (t + u);
      assert h + (t + u) == (h + t) + u;
    }
  }

  lemma StreamOfLast(c: seq<Ring>)
    requires |c| >= 1
    ensures Stream(c) == Stream(c[..|c| - 1]) + Last(c).Content()
  {
    hide Ring.Content, Stream;
    var front := c[..|c| - 1];
    assert c == front + [Last(c)];
    StreamOfConcat(front, [Last(c)]);
    LoneStream(Last(c));
  }

  /** Another tail ring with the same start: the invariant is kept and the stream ends differently. */
  lemma ReplaceTail(cap: nat, c: seq<Ring>, r: Ring)
    requires ChainOk(cap, c) && r.Ok() && |r.data| == cap && r.pop == Last(c).pop
    requires |c| > 1 ==> r.count > 0
    ensures var e := c[|c| - 1 := r]; ChainOk(cap, e) && Stream(e) == Stream(c[..|c| - 1]) + r.Content()
  {
    var e := c[|c| - 1 := r];
    StreamOfLast(e);
    assert e[..|e| - 1] == c[..|c| - 1];
  }

  lemma ExtendTail(cap: nat, c: seq<Ring>, bytes: seq<byte>)
    requires ChainOk(cap, c) && |bytes| <= Rear(c)
    ensures var e := c[|c| - 1 := Last(c).Extend(bytes)];
            ChainOk(cap, e) && Stream(e) == Stream(c) + bytes
  {
    var r := Last(c);
    ExtendContent(r, bytes);
    ReplaceTail(cap, c, r.Extend(bytes));
    StreamOfLast(c);
    ConcatAssoc(Stream(c[..|c| - 1]), r.Content(), bytes);
  }

  lemma LoadedContent(cap: nat, bytes: seq<byte>)
    requires 0 < |bytes| <= cap
    ensures var r := LoadedRing(cap, bytes);
            r.Ok() && |r.data| == cap && r.count == |bytes| && r.pop == 0 && r.Content() == bytes
  {
  }

  /** A further ring behind a full tail. */
  lemma AppendRing(cap: nat, c: seq<Ring>, r: Ring)
    requires ChainOk(cap, c) && Last(c).count == cap
    requires r.Ok() && |r.data| == cap && r.pop == 0 && r.count > 0
    ensures ChainOk(cap, c + [r]) && Stream(c + [r]) == Stream(c) + r.Content()
  {
    hide Ring.Content;
    StreamOfLast(c + [r]);
    assert (c + [r])[..|c|] == c;
  }

  lemma TailOk(cap: nat, c: seq<Ring>)
    requires ChainOk(cap, c)
    ensures |c| >= 1 && Last(c).Ok() && |Last(c).data| == cap && Last(c).count <= cap && Last(c).push <= cap
  {
  }

  /** Every delivery, of any size that fits the three `iovec`s, appends exactly its bytes. */
  lemma FillAppends(cap: nat, s: ReadState, bytes: seq<byte>)
    requires StateOk(cap, s) && |bytes| <= Rear(s.chain) + cap
    ensures StateOk(cap, Fill(cap, s, bytes))
    ensures Stream(Fill(cap, s, bytes).chain) == Stream(s.chain) + bytes
  {
    hide ChainOk, Stream, Ring.Extend, Ring.Content, Ring.Ok, LoadedRing;
    TailOk(cap, s.chain);
    var rear := Rear(s.chain);
    if |bytes| <= rear {
      ExtendTail(cap, s.chain, bytes);
    } else {
      var first, rest := bytes[..rear], bytes[rear..];
      ExtendTail(cap, s.chain, first);
      ExtendedFull(cap, s.chain, first);
      LoadedContent(cap, rest);
      AppendRing(cap, s.chain[|s.chain| - 1 := Last(s.chain).Extend(first)], LoadedRing(cap, rest));
      TakeDrop(bytes, rear);
      ConcatAssoc(Stream(s.chain), first, rest);
    }
  }

  lemma ExtendedFull(cap: nat, c: seq<Ring>, bytes: seq<byte>)
    requires ChainOk(cap, c) && |bytes| == Rear(c)
    ensures Last(c[|c| - 1 := Last(c).Extend(bytes)]).count == cap
  {
  }

  // ---------- reading, as written ----------

  /** `ReadData` past the head: a read that ends inside such a ring moves `pop` but not `count`. */
  function ReadLater(c: seq<Ring>, n: nat): (r: seq<Ring>)
    requires |c| >= 1
    ensures |r| >= 1
    decreases |c|
  {
    if n < c[0].count then [c[0].(pop := n)] + c[1..]
    else if |c| == 1 then [c[0].Emptied()]
    else if n == c[0].count then c[1..]
    else ReadLater(c[1..], n - c[0].count)
  }

  /** `ReadData` on the chain, exactly as written. */
  function ReadAsWritten(c: seq<Ring>, n: nat): seq<Ring>
    requires |c| >= 1
  {
    if n < c[0].count then [c[0].Advance(n)] + c[1..]
    else if |c| == 1 then [c[0].Emptied()]
    else if n == c[0].count then c[1..]
    else ReadLater(c[1..], n - c[0].count)
  }

  lemma PastHead(c: seq<Ring>, n: nat)
    requires |c| >= 1
    ensures n > c[0].count && |c| > 1 ==> ReadAsWritten(c, n) == ReadLater(c[1..], n - c[0].count)
    ensures n == c[0].count ==> ReadAsWritten(c, n) == if |c| == 1 then [c[0].Emptied()] else c[1..]
  {
  }

  /** The read ends strictly inside a buffer behind the original head: later buffers are full,
      so this is visible from the head's `count`, the capacity and `readSize_`. */
  predicate EndsInsideLater(cap: nat, c: seq<Ring>, n: nat)
    requires cap > 0 && |c| >= 1
  {
    c[0].count < n < |Stream(c)| && (n - c[0].count) % cap != 0
  }

  /** The chain with the head's `count` too large by `pop`, the bytes already taken from it. */
  function Overcounted(c: seq<Ring>): seq<Ring>
    requires |c| >= 1
  {
    c[0 := c[0].(count := c[0].count + c[0].pop)]
  }

  /** What holds of the rings behind the head. */
  ghost predicate LaterOk(cap: nat, c: seq<Ring>) {
    && |c| >= 1
    && (forall i :: 0 <= i < |c| ==> c[i].pop == 0 && 0 < c[i].count <= |c[i].data| == cap)
    && (forall i :: 0 <= i < |c| - 1 ==> c[i].count == cap)
  }

  /** `n` bytes of the chain end where some ring's content ends. */
  predicate AtBoundary(c: seq<Ring>, n: nat) {
    c != [] && (n == c[0].count || (n > c[0].count && AtBoundary(c[1..], n - c[0].count)))
  }

  lemma {:induction false} ReadLaterIsConsume(cap: nat, c: seq<Ring>, n: nat)
    requires LaterOk(cap, c) && 0 < n <= Held(c)
    ensures ReadLater(c, n) == if AtBoundary(c, n) then Consume(c, n) else Overcounted(Consume(c, n))
    ensures !AtBoundary(c, n) ==> Consume(c, n)[0].pop > 0
    decreases |c|
  {
    if n < c[0].count {
      var d := [c[0].Advance(n)] + c[1..];
      assert Overcounted(d) == [c[0].(pop := n)] + c[1..];
    } else if n > c[0].count {
      ReadLaterIsConsume(cap, c[1..], n - c[0].count);
    }
  }

  lemma {:induction false} BoundaryIsMultiple(cap: nat, c: seq<Ring>, n: nat)
    requires LaterOk(cap, c) && 0 < n <= Held(c)
    ensures AtBoundary(c, n) <==> n == Held(c) || n % cap == 0
    decreases |c|
  {
    SmallMod(n, cap);
    if |c| == 1 {
      assert Held(c[1..]) == 0;
    } else if n > cap {
      SubMod(n, cap);
      BoundaryIsMultiple(cap, c[1..], n - cap);
    }
  }

  /** `ReadData` as written, on every well-formed chain and every size: it agrees with FIFO consumption
      except when the read ends strictly inside a later buffer, and then it overstates that buffer's
      `count` by exactly the bytes taken from it. */
  lemma ReadAsWrittenExactly(cap: nat, c: seq<Ring>, n: nat)
    requires cap > 0 && ChainOk(cap, c) && 0 < n <= |Stream(c)|
    ensures EndsInsideLater(cap, c, n) ==>
              && ReadAsWritten(c, n) == Overcounted(Consume(c, n)) && Consume(c, n)[0].pop > 0
              && ReadAsWritten(c, n) != Consume(c, n)
    ensures !EndsInsideLater(cap, c, n) ==> ReadAsWritten(c, n) == Consume(c, n)
  {
    hide Stream, Ring.Content;
    HeldIsLength(cap, c);
    if n > c[0].count {
      ReadLaterIsConsume(cap, c[1..], n - c[0].count);
      BoundaryIsMultiple(cap, c[1..], n - c[0].count);
    }
  }

  lemma {:induction false} BoundaryPop(cap: nat, c: seq<Ring>, n: nat)
    requires LaterOk(cap, c) && 0 < n <= Held(c) && AtBoundary(c, n)
    ensures Consume(c, n)[0].pop == 0
    decreases |c|
  {
    if n > c[0].count {
      BoundaryPop(cap, c[1..], n - c[0].count);
    } else if |c| > 1 {
      assert Consume(c, n)[0] == c[1];
    }
  }

  lemma {:induction false} ConsumeShortens(c: seq<Ring>, n: nat)
    requires |c| >= 1
    ensures |Consume(c, n)| <= |c|
    ensures |Consume(c, n)| == |c| <==> n < c[0].count || |c| == 1
    decreases |c|
  {
    if n > c[0].count && |c| > 1 {
      ConsumeShortens(c[1..], n - c[0].count);
    }
  }

  /** How the repair recognises the overstated count: another buffer became the head, and its `pop` moved. */
  lemma RepairCase(cap: nat, c: seq<Ring>, n: nat)
    requires cap > 0 && ChainOk(cap, c) && 0 < n <= |Stream(c)|
    ensures EndsInsideLater(cap, c, n) <==> |ReadAsWritten(c, n)| < |c| && ReadAsWritten(c, n)[0].pop > 0
    ensures |ReadAsWritten(c, n)| == |Consume(c, n)|
  {
    hide Stream, Ring.Content;
    ReadAsWrittenExactly(cap, c, n);
    ConsumeShortens(c, n);
    HeldIsLength(cap, c);
    if n > c[0].count && !EndsInsideLater(cap, c, n) {
      BoundaryIsMultiple(cap, c[1..], n - c[0].count);
      BoundaryPop(cap, c[1..], n - c[0].count);
    }
  }

  /** The ring invariant survives `ReadData` as written precisely when the read does not end strictly
      inside a buffer behind the original head. */
  lemma ReadAsWrittenKeepsInvariantIff(cap: nat, c: seq<Ring>, n: nat)
    requires cap > 0 && ChainOk(cap, c) && 0 < n <= |Stream(c)|
    ensures ChainOk(cap, ReadAsWritten(c, n)) <==> !EndsInsideLater(cap, c, n)
  {
    ReadAsWrittenExactly(cap, c, n);
    ConsumeIsFifo(cap, c, n);
  }

  /** Two buffers of four bytes, six bytes held, five read: one byte is left, the head claims two. */
  lemma ReadAsWrittenBreaksInvariant()
    ensures exists cap: nat, c: seq<Ring>, n: nat ::
              cap > 0 && ChainOk(cap, c) && 0 < n <= |Stream(c)| && !ChainOk(cap, ReadAsWritten(c, n))
  {
    var c := [Ring([1, 2, 3, 4], 4, 0, 0), Ring([5, 6, 0, 0], 2, 2, 0)];
    assert c[1..] == [Ring([5, 6, 0, 0], 2, 2, 0)];
    assert c[1..][1..] == [];
    assert Stream(c) == [1, 2, 3, 4] + ([5, 6] + []);
    assert ChainOk(4, c) && |Stream(c)| == 6;
    ReadAsWrittenKeepsInvariantIff(4, c, 5);
  }

  /** `out` is what was copied from the rings before the `k`-th, and `rest` more bytes are there. */
  ghost predicate Reached(c: seq<Ring>, k: nat, out: seq<byte>, rest: nat) {
    && |out| + rest <= |Stream(c)| && k <= |c|
    && out == Stream(c)[..|out|]
    && Stream(c)[|out|..] == Stream(c[k..])
  }

  lemma ReachedWithin(c: seq<Ring>, k: nat, out: seq<byte>, rest: nat)
    requires Reached(c, k, out, rest)
    ensures |out| + rest <= |Stream(c)| && k <= |c|
  {
  }

  lemma AfterHead(cap: nat, c: seq<Ring>, size: nat)
    requires ChainOk(cap, c) && size <= |Stream(c)|
    ensures |c| >= 1 && c[0].Ok()
    ensures size <= c[0].count ==> c[0].Content()[..size] == Stream(c)[..size]
    ensures size > c[0].count ==> |c| > 1 && Reached(c, 1, c[0].Content()[..c[0].count], size - c[0].count)
  {
    var h, t := c[0].Content(), Stream(c[1..]);
    OkContentLength(c[0]);
    if |c| == 1 { assert t == []; }
    DropConcat(h, t, c[0].count);
    TakeConcat(h, t, size);
    TakeConcat(h, t, c[0].count);
  }

  lemma LaterRing(cap: nat, c: seq<Ring>, k: nat)
    requires ChainOk(cap, c) && 0 < k < |c|
    ensures c[k].count <= |c[k].data| && c[k].Content() == c[k].data[..c[k].count]
  {
  }

  /** Copying on from a buffer behind the head, whose bytes start at offset 0. */
  lemma NextPiece(cap: nat, c: seq<Ring>, k: nat, out: seq<byte>, rest: nat)
    requires ChainOk(cap, c) && 0 < k < |c| && 0 < rest && Reached(c, k, out, rest)
    ensures c[k].count <= |c[k].data|
    ensures rest <= c[k].count ==> out + c[k].data[..rest] == Stream(c)[..|out| + rest]
    ensures rest > c[k].count ==>
              k + 1 < |c| && Reached(c, k + 1, out + c[k].data[..c[k].count], rest - c[k].count)
  {
    hide Ring.Content, Ring.Ok, ChainOk;
    LaterRing(cap, c, k);
    var r := c[k];
    var m := if rest <= r.count then rest else r.count;
    assert r.Content()[..m] == r.data[..m];
    assert c[k..][1..] == c[k + 1..];
    assert k + 1 == |c| ==> Stream(c[k + 1..]) == [];
    NextPart(Stream(c), |out|, r.Content(), Stream(c[k + 1..]), m);
  }

  // ---------- whole runs ----------

  datatype ReadEvent =
    | Arrive(bytes: seq<byte>)  // one readv; it transfers what fits the three iovecs, or nothing
    | Peek(n: nat)
    | Read(n: nat)

  datatype ReadRun = ReadRun(state: ReadState, delivered: seq<byte>, returned: seq<byte>)

  /** The part of `bytes` that the tail and one more buffer can take. */
  function Fitting(cap: nat, c: seq<Ring>, bytes: seq<byte>): (got: seq<byte>)
    requires |c| >= 1 && Last(c).count <= |Last(c).data|
    ensures got <= bytes && |got| <= Rear(c) + cap
    ensures got == bytes || |got| == Rear(c) + cap
  {
    if |bytes| <= Rear(c) + cap then bytes else bytes[..Rear(c) + cap]
  }

  lemma ReadKeeps(cap: nat, c: seq<Ring>, n: nat, out: seq<byte>)
    requires ChainOk(cap, c) && n <= |Stream(c)|
    ensures (out + Stream(c)[..n]) + Stream(Consume(c, n)) == out + Stream(c)
  {
    ConsumeIsFifo(cap, c, n);
    TakeDrop(Stream(c), n);
    ConcatAssoc(out, Stream(c)[..n], Stream(c)[n..]);
  }

  /** One event; reads of nothing or of more than is held are refused. */
  function ReadStep(cap: nat, r: ReadRun, e: ReadEvent): ReadRun
    requires StateOk(cap, r.state)
  {
    var c := r.state.chain;
    match e
    case Arrive(bytes) =>
      if bytes == [] then r.(state := r.state.(spare := true)) else
      var got := Fitting(cap, c, bytes);
      ReadRun(Fill(cap, r.state, got), r.delivered + got, r.returned)
    case Peek(_) => r
    case Read(n) =>
      if n == 0 || n > |Stream(c)| then r
      else ReadRun(r.state.(chain := Consume(c, n)), r.delivered, r.returned + Stream(c)[..n])
  }

  lemma ReadStepOk(cap: nat, r: ReadRun, e: ReadEvent)
    requires StateOk(cap, r.state)
    ensures StateOk(cap, ReadStep(cap, r, e).state)
  {
    var c := r.state.chain;
    match e
    case Arrive(bytes) => FillAppends(cap, r.state, Fitting(cap, c, bytes));
    case Peek(_) =>
    case Read(n) => if 0 < n <= |Stream(c)| { ConsumeIsFifo(cap, c, n); }
  }

  /** `held` is what the chain held when the run began. */
  ghost predicate ReadRunOk(cap: nat, held: seq<byte>, r: ReadRun) {
    StateOk(cap, r.state) && r.returned + Stream(r.state.chain) == held + r.delivered
  }

  lemma ReadStepKeepsOrder(cap: nat, held: seq<byte>, r: ReadRun, e: ReadEvent)
    requires ReadRunOk(cap, held, r)
    ensures ReadRunOk(cap, held, ReadStep(cap, r, e))
  {
    ReadStepOk(cap, r, e);
    var c := r.state.chain;
    match e
    case Arrive(bytes) =>
      var got := Fitting(cap, c, bytes);
      FillAppends(cap, r.state, got);
      ConcatAssoc(r.returned, Stream(c), got);
      ConcatAssoc(held, r.delivered, got);
    case Peek(_) =>
    case Read(n) =>
      if 0 < n <= |Stream(c)| {
        ReadKeeps(cap, c, n, r.returned);
      }
  }

  function RunRead(cap: nat, r: ReadRun, events: seq<ReadEvent>): (q: ReadRun)
    requires StateOk(cap, r.state)
    ensures StateOk(cap, q.state)
    decreases |events|
  {
    if events == [] then r
    else ReadStepOk(cap, r, events[0]); RunRead(cap, ReadStep(cap, r, events[0]), events[1..])
  }

  /** Read-side FIFO over whole runs: under any interleaving of deliveries (of every size), peeks and
      reads, the bytes returned followed by the bytes held are those held before and those delivered. */
  lemma {:induction false} ReadFifoOverRuns(cap: nat, held: seq<byte>, r: ReadRun, events: seq<ReadEvent>)
    requires ReadRunOk(cap, held, r)
    ensures ReadRunOk(cap, held, RunRead(cap, r, events))
    decreases |events|
  {
    if events != [] {
      ReadStepKeepsOrder(cap, held, r, events[0]);
      ReadFifoOverRuns(cap, held, ReadStep(cap, r, events[0]), events[1..]);
    }
  }

  // ---------- onRead ----------

  /** What one `readv` brings, and the sizes the receive callback then reads. */
  datatype Arrival = Data(bytes: seq<byte>, calls: seq<nat>) | EndOfStream | Failed

  /** What can happen on the read side: `onRead` with its callbacks, or a `ReadData`. */
  datatype InputEvent = Readable(script: seq<Arrival>) | Take(size: nat)

  function Offering(a: Arrival): seq<byte> {
    if a.Data? then a.bytes else []
  }

  function Reads(sizes: seq<nat>): seq<ReadEvent> {
    seq(|sizes|, i requires 0 <= i < |sizes| => Read(sizes[i]))
  }

  lemma FirstRead(cap: nat, r: ReadRun, sizes: seq<nat>, i: nat)
    requires StateOk(cap, r.state) && i < |sizes|
    ensures StateOk(cap, ReadStep(cap, r, Read(sizes[i])).state)
    ensures RunRead(cap, r, Reads(sizes[i..])) == RunRead(cap, ReadStep(cap, r, Read(sizes[i])), Reads(sizes[i + 1..]))
  {
    ReadStepOk(cap, r, Read(sizes[i]));
    assert Reads(sizes[i..])[0] == Read(sizes[i]);
    assert Reads(sizes[i..])[1..] == Reads(sizes[i + 1..]);
  }

  lemma NoReads(cap: nat, r: ReadRun)
    requires StateOk(cap, r.state)
    ensures RunRead(cap, r, Reads([])) == r
  {
  }

  lemma ReadStepIs(cap: nat, r: ReadRun, n: nat)
    requires StateOk(cap, r.state) && |r.state.chain| >= 1
    ensures var c := r.state.chain;
            ReadStep(cap, r, Read(n)) == (
              if n == 0 || n > |Stream(c)| then r
              else ReadRun(r.state.(chain := Consume(c, n)), r.delivered, r.returned + Stream(c)[..n]))
  {
  }

  /** The events of one round of `onRead`; without data there is no callback. */
  function RoundEvents(a: Arrival): seq<ReadEvent> {
    [Arrive(Offering(a))] + (if Offering(a) == [] then [] else Reads(a.calls))
  }

  /** The transfer filled all that was listed, so `onRead` goes round again. */
  predicate FillsAll(cap: nat, s: ReadState, a: Arrival)
    requires |s.chain| >= 1 && Last(s.chain).count <= |Last(s.chain).data|
  {
    Offering(a) != [] && |Offering(a)| >= Rear(s.chain) + cap
  }

  /** Any event of the read side. */
  function InputStep(cap: nat, r: ReadRun, e: InputEvent): (q: ReadRun)
    requires StateOk(cap, r.state)
    ensures StateOk(cap, q.state)
  {
    match e
    case Readable(script) => OnReadRun(cap, r, script)
    case Take(size) => ReadStepOk(cap, r, Read(size)); ReadStep(cap, r, Read(size))
  }

  lemma InputStepKeepsOrder(cap: nat, held: seq<byte>, r: ReadRun, e: InputEvent)
    requires ReadRunOk(cap, held, r)
    ensures ReadRunOk(cap, held, InputStep(cap, r, e))
  {
    match e
    case Readable(script) => OnReadFifo(cap, held, r, script);
    case Take(size) => ReadStepKeepsOrder(cap, held, r, Read(size));
  }

  lemma TailFits(cap: nat, s: ReadState)
    requires StateOk(cap, s)
    ensures |s.chain| >= 1 && Last(s.chain).count <= |Last(s.chain).data|
  {
  }

  lemma FailedFillsNothing(cap: nat, s: ReadState)
    requires |s.chain| >= 1 && Last(s.chain).count <= |Last(s.chain).data|
    ensures !FillsAll(cap, s, Failed) && !FillsAll(cap, s, EndOfStream)
  {
  }

  /** Delivered bytes make the next buffer the tail or leave it spare, wherever it came from. */
  lemma FillLinksNext(cap: nat, s: ReadState, bytes: seq<byte>)
    requires StateOk(cap, s) && |bytes| <= Rear(s.chain) + cap
    ensures Fill(cap, s.(spare := true), bytes) == Fill(cap, s, bytes)
  {
  }

  lemma FittingNothing(cap: nat, c: seq<Ring>, bytes: seq<byte>)
    requires cap > 0 && |c| >= 1 && Last(c).count <= |Last(c).data|
    ensures Fitting(cap, c, bytes) == [] <==> bytes == []
    ensures |Fitting(cap, c, bytes)| >= Rear(c) + cap <==> |bytes| >= Rear(c) + cap
  {
  }

  /** One `onRead`; past the end of the script `readv` fails. */
  function OnReadRun(cap: nat, r: ReadRun, script: seq<Arrival>): (q: ReadRun)
    requires StateOk(cap, r.state)
    ensures StateOk(cap, q.state)
    decreases |script|
  {
    if script == [] then RunRead(cap, r, RoundEvents(Failed))
    else
      TailFits(cap, r.state);
      var q := RunRead(cap, r, RoundEvents(script[0]));
      if FillsAll(cap, r.state, script[0]) then OnReadRun(cap, q, script[1..]) else q
  }

  /** The run at the beginning of the `i`-th round. */
  function RoundStart(cap: nat, r: ReadRun, script: seq<Arrival>, i: nat): (q: ReadRun)
    requires StateOk(cap, r.state) && i <= |script|
    ensures StateOk(cap, q.state)
    decreases i
  {
    if i == 0 then r else RunRead(cap, RoundStart(cap, r, script, i - 1), RoundEvents(script[i - 1]))
  }

  /** The `i`-th arrival has a byte for every free one of the tail and of the next buffer. */
  predicate FilledRound(cap: nat, r: ReadRun, script: seq<Arrival>, i: nat)
    requires StateOk(cap, r.state) && i < |script|
  {
    var tail := Last(RoundStart(cap, r, script, i).state.chain);
    script[i].Data? && |script[i].bytes| >= |tail.data| - tail.count + cap
  }

  /** All rounds before the `i`-th filled what they listed. */
  predicate RoundReached(cap: nat, r: ReadRun, script: seq<Arrival>, i: nat)
    requires StateOk(cap, r.state)
  {
    i <= |script| && forall j :: 0 <= j < i ==> FilledRound(cap, r, script, j)
  }

  /** The last round: it is reached and not filled, or finds the script at its end. */
  predicate LastRound(cap: nat, r: ReadRun, script: seq<Arrival>, i: nat)
    requires StateOk(cap, r.state)
  {
    RoundReached(cap, r, script, i) && (i < |script| ==> !FilledRound(cap, r, script, i))
  }

  lemma FillsAllIff(cap: nat, r: ReadRun, script: seq<Arrival>, i: nat)
    requires StateOk(cap, r.state) && i < |script|
    ensures var s := RoundStart(cap, r, script, i).state;
            && |s.chain| >= 1 && Last(s.chain).count <= |Last(s.chain).data|
            && (FillsAll(cap, s, script[i]) <==> FilledRound(cap, r, script, i))
  {
    TailFits(cap, RoundStart(cap, r, script, i).state);
  }

  /** The rounds from the `i`-th on do what an `onRead` does that begins there. */
  lemma {:induction false} RunFromRound(cap: nat, r: ReadRun, script: seq<Arrival>, i: nat)
    requires StateOk(cap, r.state) && RoundReached(cap, r, script, i)
    ensures OnReadRun(cap, r, script) == OnReadRun(cap, RoundStart(cap, r, script, i), script[i..])
    decreases i
  {
    hide StateOk, RunRead, RoundEvents, FillsAll, FilledRound;
    if i == 0 {
      assert script[0..] == script;
    } else {
      RunFromRound(cap, r, script, i - 1);
      FillsAllIff(cap, r, script, i - 1);
      assert script[i - 1..][1..] == script[i..];
    }
  }

  /** Which rounds `onRead` makes: one after the other as long as each fills what it lists, and no further;
      there is exactly one last round. */
  lemma OnReadEnds(cap: nat, r: ReadRun, script: seq<Arrival>) returns (last: nat)
    requires StateOk(cap, r.state)
    ensures LastRound(cap, r, script, last)
    ensures forall i: nat :: RoundReached(cap, r, script, i) <==> i <= last
    ensures InputStep(cap, r, Readable(script))
         == RunRead(cap, RoundStart(cap, r, script, last),
                    RoundEvents(if last < |script| then script[last] else Failed))
  {
    hide StateOk, RunRead, RoundEvents, FillsAll, FilledRound;
    last := 0;
    while last < |script| && FilledRound(cap, r, script, last)
      invariant RoundReached(cap, r, script, last)
    {
      last := last + 1;
    }
    RunFromRound(cap, r, script, last);
    if last < |script| { FillsAllIff(cap, r, script, last); }
  }

  lemma RoundsEnd(cap: nat, r: ReadRun, script: seq<Arrival>, last: nat)
    requires StateOk(cap, r.state) && LastRound(cap, r, script, last)
    ensures InputStep(cap, r, Readable(script))
         == RunRead(cap, RoundStart(cap, r, script, last),
                    RoundEvents(if last < |script| then script[last] else Failed))
    ensures (exists i :: 0 <= i < |script| && script[i].EndOfStream? && RoundReached(cap, r, script, i))
       <==> last < |script| && script[last].EndOfStream?
  {
    hide StateOk, RunRead, RoundEvents, FilledRound;
    var l := OnReadEnds(cap, r, script);
    assert l == last;
    forall i | 0 <= i < last
      ensures !script[i].EndOfStream?
    {
      EndFillsNothing(cap, r, script, i);
    }
  }

  lemma EndFillsNothing(cap: nat, r: ReadRun, script: seq<Arrival>, i: nat)
    requires StateOk(cap, r.state) && i < |script| && FilledRound(cap, r, script, i)
    ensures script[i].Data?
  {
  }

  // ---------- the read side as a plain queue ----------

  /** What reads of these sizes return from a queue of bytes, and what they leave. */
  function Served(queue: seq<byte>, sizes: seq<nat>): (seq<byte>, seq<byte>)
    decreases |sizes|
  {
    if sizes == [] then ([], queue)
    else if sizes[0] == 0 || sizes[0] > |queue| then Served(queue, sizes[1..])
    else
      var (out, rest) := Served(queue[sizes[0]..], sizes[1..]);
      (queue[..sizes[0]] + out, rest)
  }

  /** Any series of `ReadData` on a chain returns and leaves what it does on a queue with the same bytes. */
  lemma {:induction false} ReadsAreServed(cap: nat, r: ReadRun, sizes: seq<nat>)
    requires StateOk(cap, r.state)
    ensures var q := RunRead(cap, r, Reads(sizes)); var s := Served(Stream(r.state.chain), sizes);
            q.delivered == r.delivered && q.returned == r.returned + s.0 && Stream(q.state.chain) == s.1
    decreases |sizes|
  {
    hide Stream, ChainOk, Consume, RunRead, Reads;
    if sizes == [] {
      NoReads(cap, r);
      assert r.returned + [] == r.returned;
    } else {
      var c, n := r.state.chain, sizes[0];
      TailFits(cap, r.state);
      FirstRead(cap, r, sizes, 0);
      assert sizes[0..] == sizes;
      ReadStepIs(cap, r, n);
      ReadsAreServed(cap, ReadStep(cap, r, Read(n)), sizes[1..]);
      if 0 < n <= |Stream(c)| {
        ConsumeIsFifo(cap, c, n);
        ConcatAssoc(r.returned, Stream(c)[..n], Served(Stream(c)[n..], sizes[1..]).0);
      }
    }
  }

  /** What `readv` transfers: all that arrived, or as much as there is room for. */
  function Transferred(room: nat, a: Arrival): seq<byte> {
    if !a.Data? then [] else if |a.bytes| <= room then a.bytes else a.bytes[..room]
  }

  /** One round of `onRead` on a queue: what arrived goes in as far as there is room in tail and next buffer,
      and if that is anything the callback's reads come out. */
  lemma RoundServed(cap: nat, r: ReadRun, a: Arrival)
    requires StateOk(cap, r.state)
    ensures var c := r.state.chain; var q := RunRead(cap, r, RoundEvents(a));
            |c| >= 1 && Last(c).count <= |Last(c).data| && (
              var got := Transferred(|Last(c).data| - Last(c).count + cap, a);
              var s := Served(Stream(c) + got, if got == [] then [] else a.calls);
              q.delivered == r.delivered + got && q.returned == r.returned + s.0 && Stream(q.state.chain) == s.1)
  {
    hide Stream, Reads, Served, Fill, ChainOk;
    var c := r.state.chain;
    TailFits(cap, r.state);
    var got := Transferred(|Last(c).data| - Last(c).count + cap, a);
    var events := RoundEvents(a);
    assert got == Fitting(cap, c, Offering(a));
    FillAppends(cap, r.state, got);
    ReadStepOk(cap, r, events[0]);
    var q := ReadStep(cap, r, events[0]);
    assert Stream(q.state.chain) == Stream(c) + got && q.returned == r.returned && q.delivered == r.delivered + got by {
      assert Stream(c) + [] == Stream(c) && r.delivered + [] == r.delivered;
    }
    var calls := if got == [] then [] else a.calls;
    NoReads(cap, q);
    assert events[1..] == if Offering(a) == [] then [] else Reads(a.calls);
    NoReadsIsNothing();
    assert RunRead(cap, r, events) == RunRead(cap, q, Reads(calls));
    ReadsAreServed(cap, q, calls);
  }

  lemma NoReadsIsNothing()
    ensures Reads([]) == []
  {
  }

  /** A single `ReadData` on a queue. */
  lemma TakeServed(cap: nat, r: ReadRun, size: nat)
    requires StateOk(cap, r.state)
    ensures var q := InputStep(cap, r, Take(size)); var queue := Stream(r.state.chain);
            if size == 0 || size > |queue| then q == r
            else q.delivered == r.delivered && q.returned == r.returned + queue[..size]
                 && Stream(q.state.chain) == queue[size..]
  {
    hide Stream, ChainOk, Consume;
    TailFits(cap, r.state);
    ReadStepIs(cap, r, size);
    if 0 < size <= |Stream(r.state.chain)| { ConsumeIsFifo(cap, r.state.chain, size); }
  }

  /** `onRead` is a run of deliveries and reads, so it keeps the stream in order. */
  lemma {:induction false} OnReadFifo(cap: nat, held: seq<byte>, r: ReadRun, script: seq<Arrival>)
    requires ReadRunOk(cap, held, r)
    ensures ReadRunOk(cap, held, OnReadRun(cap, r, script))
    decreases |script|
  {
    if script == [] {
      ReadFifoOverRuns(cap, held, r, RoundEvents(Failed));
    } else {
      ReadFifoOverRuns(cap, held, r, RoundEvents(script[0]));
      OnReadFifo(cap, held, RunRead(cap, r, RoundEvents(script[0])), script[1..]);
    }
  }

  /** The same event with `ReadData` as written. */
  function ReadStepAsWritten(cap: nat, r: ReadRun, e: ReadEvent): ReadRun
    requires StateOk(cap, r.state)
  {
    if e.Read? && 0 < e.n <= |Stream(r.state.chain)| then
      ReadStep(cap, r, e).(state := r.state.(chain := ReadAsWritten(r.state.chain, e.n)))
    else ReadStep(cap, r, e)
  }

  /** As written, one event keeps the order and the invariants unless it is a read that ends inside a later
      buffer. */
  lemma AsWrittenStepOkIff(cap: nat, held: seq<byte>, r: ReadRun, e: ReadEvent)
    requires ReadRunOk(cap, held, r)
    ensures ReadRunOk(cap, held, ReadStepAsWritten(cap, r, e))
       <==> !(e.Read? && EndsInsideLater(cap, r.state.chain, e.n))
  {
    ReadStepKeepsOrder(cap, held, r, e);
    if e.Read? && 0 < e.n <= |Stream(r.state.chain)| {
      ReadAsWrittenExactly(cap, r.state.chain, e.n);
      ReadAsWrittenKeepsInvariantIff(cap, r.state.chain, e.n);
    }
  }

  lemma AsWrittenStepIs(cap: nat, r: ReadRun, e: ReadEvent)
    requires StateOk(cap, r.state) && !(e.Read? && EndsInsideLater(cap, r.state.chain, e.n))
    ensures ReadStepAsWritten(cap, r, e) == ReadStep(cap, r, e)
  {
    if e.Read? && 0 < e.n <= |Stream(r.state.chain)| {
      ReadAsWrittenExactly(cap, r.state.chain, e.n);
    }
  }

  /** With `ReadData` as written, order and invariants hold after every event of the run. */
  ghost predicate StaysInOrder(cap: nat, held: seq<byte>, r: ReadRun, events: seq<ReadEvent>)
    requires ReadRunOk(cap, held, r)
    decreases |events|
  {
    events == [] || (
      var q := ReadStepAsWritten(cap, r, events[0]);
      ReadRunOk(cap, held, q) && StaysInOrder(cap, held, q, events[1..]))
  }

  /** No read of the run ends strictly inside a buffer behind the head, as the FIFO run finds it. */
  ghost predicate NeverInsideLater(cap: nat, r: ReadRun, events: seq<ReadEvent>)
    requires StateOk(cap, r.state)
    decreases |events|
  {
    events == [] || (
      ReadStepOk(cap, r, events[0]);
      !(events[0].Read? && EndsInsideLater(cap, r.state.chain, events[0].n))
      && NeverInsideLater(cap, ReadStep(cap, r, events[0]), events[1..]))
  }

  /** As written, a run stays FIFO up to and only up to its first read that ends inside a later buffer. */
  lemma {:induction false} AsWrittenRunOkIff(cap: nat, held: seq<byte>, r: ReadRun, events: seq<ReadEvent>)
    requires ReadRunOk(cap, held, r)
    ensures StaysInOrder(cap, held, r, events) <==> NeverInsideLater(cap, r, events)
    decreases |events|
  {
    hide ReadStep, ReadStepAsWritten, EndsInsideLater, Stream, StateOk;
    StateIsOk(cap, held, r);
    if events != [] {
      var e := events[0];
      AsWrittenStepOkIff(cap, held, r, e);
      if !(e.Read? && EndsInsideLater(cap, r.state.chain, e.n)) {
        AsWrittenStepIs(cap, r, e);
        ReadStepKeepsOrder(cap, held, r, e);
        AsWrittenRunOkIff(cap, held, ReadStep(cap, r, e), events[1..]);
      }
    }
  }

  lemma StateIsOk(cap: nat, held: seq<byte>, r: ReadRun)
    requires ReadRunOk(cap, held, r)
    ensures StateOk(cap, r.state) && cap > 0 && |r.state.chain| >= 1
  {
  }

  // ---------- space ----------

  lemma {:induction false} FullRingsLength(cap: nat, c: seq<Ring>)
    requires LaterOk(cap, c)
    ensures Held(c) > (|c| - 1) * cap
    decreases |c|
  {
    if |c| > 1 {
      FullRingsLength(cap, c[1..]);
      assert (|c| - 1) * cap == (|c| - 2) * cap + cap;
    }
  }

  /** The space bound: head, tail and spare aside, every buffer of the read side is full. */
  lemma ReadChainBound(cap: nat, s: ReadState)
    requires StateOk(cap, s)
    ensures |s.chain| + (if s.spare then 1 else 0) <= |Stream(s.chain)| / cap + 3
  {
    var c := s.chain;
    var k := if |c| > 2 then |c| - 2 else 0;
    assert Held(c) >= k * cap by {
      if |c| > 2 { FullRingsLength(cap, c[1..]); }
    }
    HeldIsLength(cap, c);
    DivAtLeast(Held(c), cap, k);
  }
}
