/** One direction of a `TcpConnection` over linked buffers (net/TcpConnection.cpp). */
module BufferChains {
  import opened Buffers
  import opened OnWriteSpec
  import opened ReadSpec
  import opened Rings
  import opened Seqs
  import opened WriteRunSpec
  import opened WriteSpec

  /** `head`, `tail` and `total` are `readHead_`, `readTail_` and `readSize_`, or their `write` counterparts. */
  class BufferChain {
    var head: Buffer
    var tail: Buffer
    var total: nat
    const bufferPool: BufferPool
    ghost var nodes: seq<Buffer>   // head to tail, then the spare buffer if there is one
    ghost var chain: seq<Ring>     // the rings from head to tail
    ghost var spare: bool

    /** The fields and links represent `chain`, whatever its rings hold. */
    ghost predicate Wired()
      reads this, bufferPool, nodes, Footprint(nodes)
    {
      && Separate(bufferPool.capacity, nodes) && Linked(nodes) && Holds(nodes, chain)
      && 1 <= |chain| && |nodes| == |chain| + (if spare then 1 else 0)
      && (spare ==> nodes[|nodes| - 1].AsRing() == FreshRing(bufferPool.capacity))
      && head == nodes[0] && tail == nodes[|chain| - 1]
      && Elements(nodes) <= bufferPool.live
    }

    ghost predicate Valid()
      reads this, bufferPool, nodes, Footprint(nodes)
    {
      && Wired() && bufferPool.capacity > 0 && ChainOk(bufferPool.capacity, chain)
      && total == |Stream(chain)|
    }

    /** The same for a write side on which `onWrite` may have left a drained head, as written. */
    ghost predicate Queued()
      reads this, bufferPool, nodes, Footprint(nodes)
    {
      Wired() && QueueOk(bufferPool.capacity, chain) && total == |Stream(chain)| && !spare
    }

    lemma ValidIsQueued()
      requires Valid() && !spare
      ensures Queued()
    {
      ChainIsQueue(bufferPool.capacity, chain);
    }

    lemma QueuedIsValid()
      requires Queued() && ChainOk(bufferPool.capacity, chain)
      ensures Valid()
    {
    }

    /** `Valid` without the pool's accounts, so that operations elsewhere do not touch it. */
    ghost predicate Intact()
      reads this, nodes, Footprint(nodes)
    {
      && Separate(bufferPool.capacity, nodes) && Linked(nodes) && Holds(nodes, chain)
      && 1 <= |chain| && |nodes| == |chain| + (if spare then 1 else 0)
      && (spare ==> nodes[|nodes| - 1].AsRing() == FreshRing(bufferPool.capacity))
      && head == nodes[0] && tail == nodes[|chain| - 1]
      && bufferPool.capacity > 0 && ChainOk(bufferPool.capacity, chain) && total == |Stream(chain)|
    }

    lemma ValidIffIntact()
      ensures Valid() <==> Intact() && Elements(nodes) <= bufferPool.live
    {
    }

    /** The buffers that are out of the pool on someone else's account. */
    ghost function Others(): set<Buffer>
      reads this, bufferPool
    {
      bufferPool.live - Elements(nodes)
    }

    constructor (bufferPool: BufferPool)
      requires bufferPool.capacity > 0
      modifies bufferPool
      ensures Valid() && this.bufferPool == bufferPool && fresh(Footprint(nodes))
      ensures total == 0 && Stream(chain) == [] && !spare
      ensures bufferPool.live == old(bufferPool.live) + Elements(nodes)
    {
      this.bufferPool := bufferPool;
      var b := bufferPool.Take();
      head, tail, total := b, b, 0;
      nodes, chain, spare := [b], [FreshRing(bufferPool.capacity)], false;
      new;
      LoneStream(FreshRing(bufferPool.capacity));
    }

    lemma HeadFacts()
      requires Wired()
      ensures |chain| >= 1 && head in Elements(nodes) && head.AsRing() == chain[0]
      ensures head.capacity == head.buffer.Length == bufferPool.capacity
      ensures head == nodes[0] && (head == tail <==> |chain| == 1)
      ensures |nodes| == |chain| + (if spare then 1 else 0) && Separate(bufferPool.capacity, nodes)
      ensures Released(nodes, bufferPool.live, nodes, bufferPool.live)
    {
      assert nodes[0].AsRing() == chain[0];
      FirstReleased(bufferPool.capacity, nodes, bufferPool.live);
    }

    // ---------- PeekData ----------

    /** Copies without taking: nothing changes. */
    method PeekData(given: bool, size: nat) returns (ok: bool, out: seq<byte>)
      requires Valid()
      ensures ok <==> given && 0 < size <= total
      ensures out == if ok then Stream(chain)[..size] else []
    {
      hide Stream, Ring.Content, Ring.Ok, ChainOk, Reached, Wired;
      if !given || size == 0 || size > total {
        return false, [];
      }
      AfterHead(bufferPool.capacity, chain, size);
      HeadFacts();
      var readcount := head.count;
      if size < readcount {
        out := CopyContent(head, size);
      } else {
        out := CopyContent(head, readcount);
        if size > readcount {
          out := PeekLater(head.next, size - readcount, out);
        }
      }
      return true, out;
    }

    /** The loop of `PeekData` over the buffers behind the head. */
    method PeekLater(first: Buffer?, size: nat, before: seq<byte>) returns (out: seq<byte>)
      requires Wired() && ChainOk(bufferPool.capacity, chain) && first == head.next
      requires 1 < |chain| && 0 < size && Reached(chain, 1, before, size)
      ensures |before| + size <= |Stream(chain)| && out == Stream(chain)[..|before| + size]
    {
      hide Stream, Ring.Content, ChainOk, Reached, Separate, Ring.Ok;
      ReachedWithin(chain, 1, before, size);
      ghost var k := 1;
      var readhead := first;
      var rearsize: nat := size;
      out := before;
      while true
        invariant 0 < k < |chain| && readhead == nodes[k]
        invariant 0 < rearsize && |out| + rearsize == |before| + size && Reached(chain, k, out, rearsize)
        decreases |chain| - k
      {
        assert nodes[k].AsRing() == chain[k];
        var readcount := readhead.count;
        NextPiece(bufferPool.capacity, chain, k, out, rearsize);
        if rearsize < readcount {
          out := out + readhead.buffer[..rearsize];
          break;
        } else {
          out := out + readhead.buffer[..readcount];
          if rearsize > readcount {
            readhead := readhead.next;
            rearsize := rearsize - readcount;
            k := k + 1;
          } else {
            break;
          }
        }
      }
    }

    // ---------- what ReadData does to the head ----------

    /** `pop` moves past `n` bytes that leave some behind. */
    method AdvanceHead(n: nat)
      requires Wired() && n < head.count && chain[0].Ok()
      modifies this, head
      ensures Wired() && nodes == old(nodes) && tail == old(tail) && total == old(total)
      ensures chain == [old(chain)[0].Advance(n)] + old(chain)[1..] && spare == old(spare)
    {
      HeadFacts();
      ghost var r := chain[0].Advance(n);
      WrapMod(head.pop + n, head.capacity);
      var rearcount := head.capacity - head.pop;
      if n > rearcount {
        head.pop := n - rearcount;
      } else {
        head.pop := (head.pop + n) % head.capacity;
      }
      head.count := head.count - n;
      assert head.AsRing() == r;
      chain := [r] + chain[1..];
    }

    /** What a read that ends inside a later buffer does as written: `count` stays. */
    method MovePop(n: nat)
      requires Wired()
      modifies this, head
      ensures Wired() && nodes == old(nodes) && tail == old(tail) && total == old(total)
      ensures chain == [old(chain)[0].(pop := n)] + old(chain)[1..] && spare == old(spare)
    {
      hide FreshRing, Ring.Content;
      HeadFacts();
      head.pop := n;
      ghost var r := chain[0].(pop := n);
      assert head.AsRing() == r;
      chain := [r] + chain[1..];
    }

    /** The head is used up: the tail is only reset, any other buffer goes back to the pool. */
    method FinishHead()
      requires Wired()
      modifies this, bufferPool, head
      ensures Wired() && tail == old(tail) && total == old(total)
      ensures chain == (if |old(chain)| == 1 then [old(chain)[0].Emptied()] else old(chain)[1..]) && spare == old(spare)
      ensures Released(old(nodes), old(bufferPool.live), nodes, bufferPool.live)
    {
      HeadFacts();
      if head == tail {
        head.push, head.pop, head.count := 0, 0, 0;
        chain := [chain[0].Emptied()];
      } else {
        NextHead();
      }
    }

    method NextHead()
      requires Wired() && |chain| > 1
      modifies this, bufferPool
      ensures Wired() && tail == old(tail) && total == old(total)
      ensures chain == old(chain)[1..] && spare == old(spare) && |old(nodes)| > 1 && head == old(nodes)[1]
      ensures Released(old(nodes), old(bufferPool.live), nodes, bufferPool.live)
    {
      assert nodes[0].next == nodes[1];
      FirstReleased(bufferPool.capacity, nodes, bufferPool.live);
      hide Released;
      var next := bufferPool.PutNext(head);
      head := next;
      nodes := nodes[1..];
      chain := chain[1..];
    }

    method SubtractSize(n: nat)
      requires Wired() && n <= total
      modifies this`total
      ensures Wired() && total == old(total) - n
    {
      total := total - n;
    }

    // ---------- ReadData ----------

    /** `ReadData` as written. */
    method ReadData(given: bool, size: nat) returns (ok: bool, out: seq<byte>)
      requires Valid()
      modifies this, bufferPool, Elements(nodes)
      ensures Wired() && tail == old(tail)
      ensures ok <==> given && 0 < size <= old(total)
      ensures out == if ok then Stream(old(chain))[..size] else []
      ensures total == if ok then old(total) - size else old(total)
      ensures chain == (if ok then ReadAsWritten(old(chain), size) else old(chain)) && spare == old(spare)
      ensures Released(old(nodes), old(bufferPool.live), nodes, bufferPool.live)
    {
      hide Stream, Ring.Content, Ring.Ok, ChainOk, Wired, Reached, Released;
      HeadFacts();
      if !given || size == 0 || size > total {
        return false, [];
      }
      AfterHead(bufferPool.capacity, chain, size);
      var readcount := head.count;
      if size < readcount {
        out := CopyContent(head, size);
        AdvanceHead(size);
      } else {
        out := CopyContent(head, readcount);
        out := ReadPastHead(size, out);
      }
      SubtractSize(size);
      return true, out;
    }

    /** A read of the whole head content, already copied to `before`, or more. */
    method ReadPastHead(size: nat, before: seq<byte>) returns (out: seq<byte>)
      requires Wired() && size >= |before| == head.count && ChainOk(bufferPool.capacity, chain)
      requires size == |before| ==> size <= |Stream(chain)| && before == Stream(chain)[..size]
      requires size > |before| ==> |chain| > 1 && Reached(chain, 1, before, size - |before|)
      modifies this, bufferPool, Elements(nodes)
      ensures Wired() && tail == old(tail) && total == old(total)
      ensures size <= |Stream(old(chain))| && out == Stream(old(chain))[..size]
      ensures chain == ReadAsWritten(old(chain), size) && spare == old(spare)
      ensures Released(old(nodes), old(bufferPool.live), nodes, bufferPool.live)
    {
      hide Stream, Ring.Content, ChainOk, Wired, Reached, Released, ReadLater, Separate, Footprint, Ring.Ok,
           Elements, Reading, ReadAsWritten;
      HeadFacts();
      ghost var c := chain;
      out := before;
      PastHead(c, size);
      if size > |before| {
        NextHead();
        StartsReading(c, before, size - |before|);
        ghost var between, live := nodes, bufferPool.live;
        ReleasedMembers(old(nodes), old(bufferPool.live), between, live);
        out := ReadLaterBuffers(size - |before|, out, c);
        ReleasedTransitive(old(nodes), old(bufferPool.live), between, live, nodes, bufferPool.live);
      } else {
        FinishHead();
      }
    }

    /** Between two rounds of the loop of `ReadData`: the buffers before the `k`-th of `c` are copied to
        `out` and put back, `rest` more bytes are to be read. */
    ghost predicate Reading(c: seq<Ring>, k: nat, out: seq<byte>, rest: nat)
      reads this, bufferPool, nodes, Footprint(nodes)
    {
      && 0 < k < |c| && 0 < rest && ChainOk(bufferPool.capacity, c) && Reached(c, k, out, rest)
      && Wired() && chain == c[k..]
    }

    lemma StartsReading(c: seq<Ring>, out: seq<byte>, rest: nat)
      requires Wired() && |c| > 1 && chain == c[1..] && ChainOk(bufferPool.capacity, c) && rest > 0
               && Reached(c, 1, out, rest)
      ensures Reading(c, 1, out, rest)
    {
    }

    lemma ReadingFacts(c: seq<Ring>, k: nat, out: seq<byte>, rest: nat)
      requires Reading(c, k, out, rest)
      ensures 0 < k < |c| && 0 < rest && |out| + rest <= |Stream(c)| && chain == c[k..] && c[k..][1..] == c[k + 1..]
      ensures ChainOk(bufferPool.capacity, c) && Reached(c, k, out, rest) && Wired()
      ensures |chain| >= 1 && head in Elements(nodes) && head.AsRing() == chain[0]
      ensures head.capacity == head.buffer.Length == bufferPool.capacity
      ensures Released(nodes, bufferPool.live, nodes, bufferPool.live)
    {
      HeadFacts();
    }

    /** One round of that loop. */
    method ReadRound(rearsize: nat, before: seq<byte>, ghost c: seq<Ring>, ghost k: nat)
      returns (out: seq<byte>, rest: nat)
      requires Reading(c, k, before, rearsize)
      modifies this, bufferPool, head
      ensures tail == old(tail) && total == old(total) && spare == old(spare)
      ensures |out| + rest == |before| + rearsize
      ensures rest > 0 ==>
                k + 1 < |c| && Reading(c, k + 1, out, rest)
                && ReadLater(c[k..], rearsize) == ReadLater(c[k + 1..], rest)
      ensures rest == 0 ==> |out| <= |Stream(c)| && out == Stream(c)[..|out|]
      ensures rest == 0 ==> Wired() && chain == ReadLater(c[k..], rearsize)
      ensures Released(old(nodes), old(bufferPool.live), nodes, bufferPool.live)
    {
      hide Stream, Ring.Content, Ring.Ok, ChainOk, Wired, Reached, Released;
      ReadingFacts(c, k, before, rearsize);
      NextPiece(bufferPool.capacity, c, k, before, rearsize);
      var readcount := head.count;
      if rearsize < readcount {
        out, rest := before + head.buffer[..rearsize], 0;
        MovePop(rearsize);
      } else {
        out, rest := before + head.buffer[..readcount], rearsize - readcount;
        if rearsize > readcount {
          NextHead();
        } else {
          FinishHead();
        }
      }
    }

    /** The loop of `ReadData` over the buffers behind the original head. */
    method ReadLaterBuffers(size: nat, before: seq<byte>, ghost c: seq<Ring>) returns (out: seq<byte>)
      requires Reading(c, 1, before, size)
      modifies this, bufferPool, Elements(nodes)
      ensures tail == old(tail) && total == old(total) && spare == old(spare)
      ensures |before| + size <= |Stream(c)| && out == Stream(c)[..|before| + size]
      ensures Wired() && chain == ReadLater(c[1..], size)
      ensures Released(old(nodes), old(bufferPool.live), nodes, bufferPool.live)
    {
      hide Reading, Stream, Wired, Released, ReadLater;
      ReadingFacts(c, 1, before, size);
      ghost var k := 1;
      var rearsize: nat;
      out, rearsize := ReadRound(size, before, c, k);
      while rearsize > 0
        invariant 0 < k < |c|
        invariant tail == old(tail) && total == old(total) && spare == old(spare)
        invariant Released(old(nodes), old(bufferPool.live), nodes, bufferPool.live)
        invariant |out| + rearsize == |before| + size
        invariant rearsize > 0 ==> k + 1 < |c| && Reading(c, k + 1, out, rearsize)
        invariant rearsize > 0 ==> ReadLater(c[k + 1..], rearsize) == ReadLater(c[1..], size)
        invariant rearsize == 0 ==> |out| <= |Stream(c)| && out == Stream(c)[..|out|]
        invariant rearsize == 0 ==> Wired() && chain == ReadLater(c[1..], size)
        decreases |c| - k
      {
        ReadingFacts(c, k + 1, out, rearsize);
        ghost var between, live := nodes, bufferPool.live;
        ReleasedMembers(old(nodes), old(bufferPool.live), between, live);
        k := k + 1;
        out, rearsize := ReadRound(rearsize, out, c, k);
        ReleasedTransitive(old(nodes), old(bufferPool.live), between, live, nodes, bufferPool.live);
      }
    }

    /** `ReadData` with the missing decrement supplied: it consumes exactly, and all invariants hold. */
    method ReadDataRepaired(given: bool, size: nat) returns (ok: bool, out: seq<byte>)
      requires Valid()
      modifies this, bufferPool, Elements(nodes)
      ensures Valid() && tail == old(tail) && spare == old(spare)
      ensures ok <==> given && 0 < size <= old(total)
      ensures out == if ok then Stream(old(chain))[..size] else []
      ensures chain == if ok then Consume(old(chain), size) else old(chain)
      ensures Released(old(nodes), old(bufferPool.live), nodes, bufferPool.live)
    {
      hide Stream, Ring.Content, ChainOk, Wired, Released, Separate, EndsInsideLater, ReadAsWritten;
      HeadFacts();
      ghost var cap, c := bufferPool.capacity, chain;
      var first := head;
      ok, out := ReadData(given, size);
      if ok {
        RepairCase(cap, c, size);
        ReadAsWrittenExactly(cap, c, size);
        ConsumeIsFifo(cap, c, size);
        HeadMoved(old(nodes), old(bufferPool.live), first, |c|);
        if head != first && head.pop > 0 {
          DecrementCount(Consume(c, size));
        }
      }
    }

    lemma HeadMoved(before: seq<Buffer>, live: set<Buffer>, first: Buffer, count: nat)
      requires Wired() && Separate(bufferPool.capacity, before) && Released(before, live, nodes, bufferPool.live)
      requires |before| == count + (if spare then 1 else 0) && count > 0 && first == before[0]
      ensures head != first <==> |chain| < count
      ensures head in Elements(before) && head.AsRing() == chain[0]
    {
      assert nodes[0].AsRing() == chain[0];
      assert nodes[0] == before[|before| - |nodes|];
    }

    /** The repair itself. */
    method DecrementCount(ghost c: seq<Ring>)
      requires Wired() && |c| >= 1 && chain == Overcounted(c)
      modifies this`chain, head`count
      ensures Wired() && chain == c
    {
      hide FreshRing, Ring.Content;
      HeadFacts();
      assert chain[0 := c[0]] == c;
      head.count := head.count - head.pop;
      chain := c;
    }

    // ---------- onRead ----------

    lemma Longer(before: seq<Buffer>, next: Buffer)
      ensures Elements(before + [next]) == Elements(before) + {next}
      ensures Footprint(before + [next]) == Footprint(before) + {next as object, next.buffer}
      ensures forall i :: 0 <= i < |before| ==>
                before[i] in Elements(before) && {before[i] as object, before[i].buffer} <= Footprint(before)
    {
    }

    /** The buffer for what the tail cannot take: the spare one, or one taken from the pool. */
    method EnsureSpare()
      requires Wired()
      modifies this, bufferPool, tail`next
      ensures |nodes| > 0 && (!old(spare) ==> fresh(nodes[|nodes| - 1]) && fresh(nodes[|nodes| - 1].buffer))
      ensures Wired() && spare && chain == old(chain) && total == old(total)
      ensures old(nodes) <= nodes && Others() == old(Others())
      ensures fresh(Footprint(nodes) - old(Footprint(nodes)))
    {
      hide FreshRing, Elements, Footprint;
      HeadFacts();
      TailFacts();
      if tail.next == null {
        ghost var before := nodes;
        var next := bufferPool.TakeNext(tail);
        nodes, spare := nodes + [next], true;
        Longer(before, next);
      }
    }

    /** With another ring in the tail the list still represents the chain, with that ring at its end. */
    twostate lemma RingReplaced(r: Ring)
      requires old(Wired()) && unchanged(this) && tail.AsRing() == r && tail.next == old(tail.next)
      requires bufferPool.live == old(bufferPool.live)
      requires forall n :: n in nodes && n != tail ==> unchanged(n) && (n.buffer != tail.buffer ==> unchanged(n.buffer))
      ensures Separate(bufferPool.capacity, nodes) && Linked(nodes) && Holds(nodes, chain[|chain| - 1 := r])
      ensures spare ==> nodes[|nodes| - 1].AsRing() == FreshRing(bufferPool.capacity)
    {
      hide FreshRing;
      var k := |chain| - 1;
      assert nodes[k] == tail;
      forall i | 0 <= i < |nodes| && i != k
        ensures nodes[i].AsRing() == old(nodes[i].AsRing()) && nodes[i].next == old(nodes[i].next)
      {
        assert nodes[i] != tail && nodes[i].buffer != tail.buffer;
      }
    }

    method FillTail(bytes: seq<byte>)
      requires Wired() && Last(chain).Ok() && |bytes| <= Rear(chain)
      modifies this, tail, tail.buffer
      ensures Wired() && nodes == old(nodes) && spare == old(spare) && total == old(total)
      ensures chain == old(chain)[|old(chain)| - 1 := Last(old(chain)).Extend(bytes)]
    {
      hide FreshRing, Ring.Content, Ring.Extend;
      TailFacts();
      ghost var r := Last(chain).Extend(bytes);
      FillBuffer(tail, bytes);
      RingReplaced(r);
      chain := chain[|chain| - 1 := r];
    }

    /** With another ring in the spare buffer the list represents the chain with that ring behind it. */
    twostate lemma SpareReplaced(r: Ring)
      requires old(Wired()) && old(spare) && unchanged(this)
      requires nodes[|nodes| - 1].AsRing() == r && nodes[|nodes| - 1].next == null
      requires bufferPool.live == old(bufferPool.live)
      requires forall n :: n in nodes && n != nodes[|nodes| - 1] ==>
                 unchanged(n) && (n.buffer != nodes[|nodes| - 1].buffer ==> unchanged(n.buffer))
      ensures Separate(bufferPool.capacity, nodes) && Linked(nodes) && Holds(nodes, chain + [r])
    {
      hide FreshRing;
      var k := |chain|;
      forall i | 0 <= i < k
        ensures nodes[i].AsRing() == old(nodes[i].AsRing()) && nodes[i].next == old(nodes[i].next)
      {
        assert nodes[i] != nodes[k] && nodes[i].buffer != nodes[k].buffer;
      }
    }

    method FillNext(bytes: seq<byte>)
      requires Wired() && spare && |bytes| <= bufferPool.capacity
      modifies this, nodes[|nodes| - 1], nodes[|nodes| - 1].buffer
      ensures Wired() && nodes == old(nodes) && !spare && total == old(total) && tail == nodes[|nodes| - 1]
      ensures chain == old(chain) + [LoadedRing(bufferPool.capacity, bytes)]
    {
      hide Scattered, Total;
      var next := tail.next;
      assert next == nodes[|nodes| - 1] && next.AsRing() == FreshRing(bufferPool.capacity);
      ScatterLast(next.buffer[..], Iovec(0, next.capacity), bytes);
      Scatter(next.buffer, [Iovec(0, next.capacity)], bytes);
      next.count, next.push := |bytes|, |bytes|;
      SpareReplaced(LoadedRing(bufferPool.capacity, bytes));
      tail := next;
      chain, spare := chain + [LoadedRing(bufferPool.capacity, bytes)], false;
    }

    lemma TailFacts()
      requires Wired()
      ensures |chain| >= 1 && tail in Elements(nodes) && tail.AsRing() == Last(chain)
      ensures |nodes| >= 1 && nodes[|nodes| - 1] in Elements(nodes)
      ensures tail.capacity == tail.buffer.Length == bufferPool.capacity == |Last(chain).data|
      ensures tail in Footprint(nodes) && tail.buffer in Footprint(nodes)
              && nodes[|nodes| - 1].buffer in Footprint(nodes)
      ensures spare ==> tail.next != null && tail.next.capacity == bufferPool.capacity
    {
      assert nodes[|chain| - 1].AsRing() == Last(chain);
      if spare { assert tail.next == nodes[|chain|]; }
    }

    /** One round of `onRead`: the free bytes are listed, `readv` transfers what fits of `offered` (nothing
        on an error or at the end of the stream), and the fields are updated. */
    method Receive(offered: seq<byte>) returns (got: seq<byte>, size: nat)
      requires Valid()
      modifies this, bufferPool, Footprint(nodes)
      ensures Valid() && Last(old(chain)).count <= |Last(old(chain)).data|
      ensures got == Fitting(bufferPool.capacity, old(chain), offered)
      ensures size == Rear(old(chain)) + bufferPool.capacity
      ensures got == [] ==> chain == old(chain) && spare
      ensures got != [] ==>
        ReadState(chain, spare) == Fill(bufferPool.capacity, ReadState(old(chain), true), got)
      ensures old(nodes) <= nodes && Others() == old(Others())
      ensures fresh(Footprint(nodes) - old(Footprint(nodes)))
    {
      hide Stream, Ring.Content, Ring.Ok, Fill, ChainOk, Wired, Separate, Footprint, FreePieces, Total;
      TailFacts();
      TailOk(bufferPool.capacity, chain);
      ghost var s := ReadState(chain, true);
      var rearcount := tail.capacity - tail.count;
      EnsureSpare();
      TailFacts();
      var listed := Total(FreePieces(tail.capacity, tail.count, tail.push, tail.pop)) + tail.next.capacity;
      got := if |offered| <= listed then offered else offered[..listed];
      ListedIsFree(tail.AsRing());
      size := rearcount + tail.next.capacity;
      if got != [] {
        FillAppends(bufferPool.capacity, s, got);
        Deliver(got);
        AddSize(|got|);
      }
    }

    /** Where the transferred bytes go: the tail first, then the next buffer, which becomes the tail. */
    method Deliver(bytes: seq<byte>)
      requires Wired() && spare && Last(chain).Ok() && |bytes| <= Rear(chain) + bufferPool.capacity
      modifies this, Footprint(nodes)
      ensures Wired() && nodes == old(nodes) && total == old(total) && bufferPool.live == old(bufferPool.live)
      ensures ReadState(chain, spare) == Fill(bufferPool.capacity, ReadState(old(chain), true), bytes)
    {
      hide Ring.Ok, Ring.Extend, LoadedRing, Wired, Separate, FreePieces, Total, Scattered;
      TailFacts();
      ListedIsFree(tail.AsRing());
      var listed := Total(FreePieces(tail.capacity, tail.count, tail.push, tail.pop));
      if |bytes| <= listed {
        FillTail(bytes);
      } else {
        FillTail(bytes[..listed]);
        TailFacts();
        FillNext(bytes[listed..]);
      }
    }

    method AddSize(n: nat)
      requires Wired()
      modifies this`total
      ensures Wired() && total == old(total) + n
    {
      total := total + n;
    }

    /** The receive callback, as the reads it makes; `r` is the run so far. */
    method Callback(sizes: seq<nat>, ghost r: ReadRun) returns (out: seq<byte>)
      requires Valid() && StateOk(bufferPool.capacity, r.state) && r.state == ReadState(chain, spare)
      modifies this, bufferPool, Elements(nodes)
      ensures Valid()
      ensures ReadRun(ReadState(chain, spare), r.delivered, r.returned + out)
              == RunRead(bufferPool.capacity, r, Reads(sizes))
      ensures Footprint(nodes) <= old(Footprint(nodes)) && Others() == old(Others())
    {
      hide Stream, Valid, Footprint, Elements, Consume, StateOk, RunRead, ReadStep, Wired, ChainOk, Reads;
      out := [];
      ghost var q := r;
      ghost var cap := bufferPool.capacity;
      assert sizes[0..] == sizes;
      for i := 0 to |sizes|
        invariant Valid()
        invariant Elements(nodes) <= old(Elements(nodes)) && Footprint(nodes) <= old(Footprint(nodes))
        invariant Others() == old(Others())
        invariant q == ReadRun(ReadState(chain, spare), r.delivered, r.returned + out) && StateOk(cap, q.state)
        invariant RunRead(cap, q, Reads(sizes[i..])) == RunRead(cap, r, Reads(sizes))
      {
        ghost var before, live := nodes, bufferPool.live;
        ValidFacts();
        ReadStepOk(cap, q, Read(sizes[i]));
        FirstRead(cap, q, sizes, i);
        ReadStepIs(cap, q, sizes[i]);
        var ok, bytes := ReadDataRepaired(true, sizes[i]);
        ConcatAssoc(r.returned, out, bytes);
        q := ReadStep(cap, q, Read(sizes[i]));
        ReleasedMembers(before, live, nodes, bufferPool.live);
        out := out + bytes;
      }
      assert sizes[|sizes|..] == [];
      NoReads(cap, q);
    }

    lemma TailInFootprint()
      requires Valid()
      ensures {tail as object, tail.buffer} <= Footprint(nodes)
    {
      assert nodes[|chain| - 1] in nodes;
    }

    lemma ValidFacts()
      requires Valid()
      ensures Wired() && bufferPool.capacity > 0 && ChainOk(bufferPool.capacity, chain) && total == |Stream(chain)|
      ensures Elements(nodes) <= Footprint(nodes) && Elements(nodes) <= bufferPool.live
    {
    }

    /** One `readv` of `onRead` and the callback after it; `r` is the run so far. */
    method OnReadRound(arrival: Arrival, ghost r: ReadRun)
      returns (more: bool, ghost got: seq<byte>, ghost out: seq<byte>)
      requires Valid() && StateOk(bufferPool.capacity, r.state) && r.state == ReadState(chain, spare)
      modifies this, bufferPool, Footprint(nodes)
      ensures Valid() && fresh(Footprint(nodes) - old(Footprint(nodes))) && Others() == old(Others())
      ensures ReadRun(ReadState(chain, spare), r.delivered + got, r.returned + out)
           == RunRead(bufferPool.capacity, r, RoundEvents(arrival))
      ensures |r.state.chain| >= 1 && Last(r.state.chain).count <= |Last(r.state.chain).data|
      ensures more <==> FillsAll(bufferPool.capacity, r.state, arrival)
    {
      hide Stream, Ring.Content, Valid, Elements, Fill, ChainOk, Rear, Last, Fitting, Others, StateOk;
      ghost var c, cap, memory := chain, bufferPool.capacity, Footprint(nodes);
      ValidFacts();
      TailFits(cap, r.state);
      var offered := if arrival.Data? then arrival.bytes else [];
      var bytes, size := Receive(offered);
      got, out := bytes, [];
      ReadStepOk(cap, r, Arrive(offered));
      ghost var q := ReadStep(cap, r, Arrive(offered));
      FittingNothing(cap, c, offered);
      ValidFacts();
      if bytes == [] {
        assert r.returned + [] == r.returned && r.delivered + [] == r.delivered;
        return false, got, out;
      }
      FillAppends(cap, r.state, bytes);
      FillLinksNext(cap, r.state, bytes);
      out := Callback(arrival.calls, q);
      return |bytes| >= size, got, out;
    }

    /** `onRead`: reads until a transfer falls short, each one followed by the callback's own reads.
        `script[i]` is what the i-th `readv` and the callback after it do; past its end `readv` fails.
        `r` is the run so far. */
    method OnRead(readable: bool, script: seq<Arrival>, ghost r: ReadRun)
      returns (stillReadable: bool, closed: bool,
               ghost delivered: seq<byte>, ghost returned: seq<byte>, ghost last: nat)
      requires Valid() && StateOk(bufferPool.capacity, r.state) && r.state == ReadState(chain, spare)
      modifies this, bufferPool, Footprint(nodes)
      ensures Valid() && fresh(Footprint(nodes) - old(Footprint(nodes))) && Others() == old(Others())
      ensures ReadRun(ReadState(chain, spare), r.delivered + delivered, r.returned + returned)
           == (if readable then OnReadRun(bufferPool.capacity, r, script) else r)
      ensures readable ==> LastRound(bufferPool.capacity, r, script, last)
      ensures closed <==> readable && last < |script| && script[last].EndOfStream?
      ensures closed <==> readable && exists i :: 0 <= i < |script| && script[i].EndOfStream?
                                                  && RoundReached(bufferPool.capacity, r, script, i)
      ensures stillReadable == closed
    {
      hide Stream, Valid, Others, StateOk, FillsAll, FilledRound, RunRead, Wired, ChainOk, Elements, RoundEvents;
      ghost var cap := bufferPool.capacity;
      delivered, returned, closed, last := [], [], false, 0;
      assert r.delivered + [] == r.delivered && r.returned + [] == r.returned;
      if !readable {
        return false, closed, [], [], 0;
      }
      var i := 0;
      ghost var q := r;
      while true
        invariant i <= |script| && Valid() && fresh(Footprint(nodes) - old(Footprint(nodes)))
                  && Others() == old(Others())
        invariant q == ReadRun(ReadState(chain, spare), r.delivered + delivered, r.returned + returned)
                  && StateOk(cap, q.state)
        invariant RoundReached(cap, r, script, i) && q == RoundStart(cap, r, script, i)
        decreases |script| - i
      {
        ghost var memory := Footprint(nodes);
        var arrival := if i < |script| then script[i] else Failed;
        ghost var got, out;
        var more;
        more, got, out := OnReadRound(arrival, q);
        assert fresh(Footprint(nodes) - memory);
        assert forall o :: o in Footprint(nodes) && o !in old(Footprint(nodes)) ==> o !in memory || fresh(o);
        ConcatAssoc(r.delivered, delivered, got);
        ConcatAssoc(r.returned, returned, out);
        delivered, returned := delivered + got, returned + out;
        ValidState();
        FailedFillsNothing(cap, q.state);
        q := ReadRun(ReadState(chain, spare), r.delivered + delivered, r.returned + returned);
        if i < |script| { FillsAllIff(cap, r, script, i); }
        if !more {
          RoundsEnd(cap, r, script, i);
          return arrival.EndOfStream?, arrival.EndOfStream?, delivered, returned, i;
        }
        i := i + 1;
      }
    }

    lemma ValidState()
      requires Valid()
      ensures StateOk(bufferPool.capacity, ReadState(chain, spare))
    {
    }

    /** Any one of the operations on the read side. */
    method ReadEventStep(e: InputEvent, ghost r: ReadRun)
      returns (ghost delivered: seq<byte>, ghost returned: seq<byte>)
      requires Valid() && StateOk(bufferPool.capacity, r.state) && r.state == ReadState(chain, spare)
      modifies this, bufferPool, Footprint(nodes)
      ensures Valid() && Others() == old(Others())
      ensures fresh(Footprint(nodes) - old(Footprint(nodes)))
      ensures ReadRun(ReadState(chain, spare), r.delivered + delivered, r.returned + returned)
           == InputStep(bufferPool.capacity, r, e)
    {
      hide Valid, Wired, Stream, ChainOk, Consume, OnReadRun, StateOk, ReadStep;
      ghost var before, live := nodes, bufferPool.live;
      ValidFacts();
      match e {
        case Readable(script) =>
          var readable, closed;
          ghost var last;
          readable, closed, delivered, returned, last := OnRead(true, script, r);
        case Take(size) =>
          ReadStepIs(bufferPool.capacity, r, size);
          var ok, out := ReadDataRepaired(true, size);
          delivered, returned := [], out;
          assert r.delivered + [] == r.delivered && r.returned + [] == r.returned;
          ReleasedMembers(before, live, nodes, bufferPool.live);
      }
    }

    // ---------- writeData ----------

    method WriteTail(bytes: seq<byte>)
      requires Wired() && Last(chain).Ok() && |bytes| <= Rear(chain)
      modifies this, tail, tail.buffer
      ensures Wired() && nodes == old(nodes) && spare == old(spare) && total == old(total) && tail == old(tail)
      ensures chain == TopUp(old(chain), bytes)
    {
      hide FreshRing, Ring.Content, Ring.Extend;
      TailFacts();
      if |bytes| > 0 {
        ghost var r := Last(chain).Extend(bytes);
        WriteBuffer(tail, bytes);
        RingReplaced(r);
        chain := TopUp(chain, bytes);
      }
    }

    /** The next buffer is filled to capacity and becomes the tail; `push` stays at 0. */
    method FillNextFull(bytes: seq<byte>)
      requires Wired() && spare && |bytes| == bufferPool.capacity
      modifies this, nodes[|nodes| - 1], nodes[|nodes| - 1].buffer
      ensures Wired() && nodes == old(nodes) && !spare && total == old(total) && tail == nodes[|nodes| - 1]
      ensures chain == old(chain) + [FullRing(bytes)]
    {
      var next := tail.next;
      assert next == nodes[|nodes| - 1] && next.AsRing() == FreshRing(bufferPool.capacity);
      Memcpy(next.buffer, 0, bytes);
      next.count := next.capacity;
      SpareReplaced(FullRing(bytes));
      tail := next;
      chain, spare := chain + [FullRing(bytes)], false;
    }

    /** One round of the loop of `writeData`: another buffer takes what fits. */
    method WriteNext(buffer: seq<byte>) returns (rest: seq<byte>)
      requires Wired() && !spare && 0 < |buffer| && bufferPool.capacity > 0
      modifies this, bufferPool, tail`next
      ensures Wired() && !spare && total == old(total) && fresh(tail) && |rest| < |buffer|
      ensures chain + Spill(bufferPool.capacity, rest) == old(chain) + Spill(bufferPool.capacity, buffer)
      ensures old(nodes) <= nodes && Others() == old(Others())
      ensures fresh(Footprint(nodes) - old(Footprint(nodes)))
    {
      hide Wired, LoadedRing, FullRing;
      EnsureSpare();
      TailFacts();
      var capacity := tail.next.capacity;
      if |buffer| > capacity {
        FillNextFull(buffer[..capacity]);
        rest := buffer[capacity..];
      } else {
        FillNext(buffer);
        rest := [];
      }
    }

    method WriteSpill(data: seq<byte>)
      requires Wired() && !spare && bufferPool.capacity > 0
      modifies this, bufferPool, tail`next
      ensures Wired() && !spare && total == old(total)
      ensures chain == old(chain) + Spill(bufferPool.capacity, data)
      ensures old(nodes) <= nodes && Others() == old(Others())
      ensures fresh(Footprint(nodes) - old(Footprint(nodes)))
    {
      hide Wired, Others;
      var buffer := data;
      while |buffer| > 0
        invariant Wired() && !spare && total == old(total) && (tail == old(tail) || fresh(tail))
        invariant chain + Spill(bufferPool.capacity, buffer) == old(chain) + Spill(bufferPool.capacity, data)
        invariant old(nodes) <= nodes && Others() == old(Others())
        invariant fresh(Footprint(nodes) - old(Footprint(nodes)))
        decreases |buffer|
      {
        ghost var memory := Footprint(nodes);
        buffer := WriteNext(buffer);
        assert fresh(Footprint(nodes) - memory);
        assert forall o :: o in Footprint(nodes) && o !in old(Footprint(nodes)) ==> o !in memory || fresh(o);
      }
    }

    method WriteData(given: bool, data: seq<byte>) returns (ok: bool)
      requires Queued()
      modifies this, bufferPool, tail, tail.buffer
      ensures Queued()
      ensures ok <==> given && data != []
      ensures chain == if ok then Append(bufferPool.capacity, old(chain), data) else old(chain)
      ensures old(nodes) <= nodes && Others() == old(Others())
      ensures fresh(Footprint(nodes) - old(Footprint(nodes)))
    {
      hide Wired, QueueOk, Stream, Ring.Ok, Ring.Content, TopUp, Spill;
      if !given || |data| == 0 {
        return false;
      }
      TailFacts();
      QueueTail(bufferPool.capacity, chain);
      AppendKeepsQueue(bufferPool.capacity, chain, data);
      var writecount := tail.capacity - tail.count;
      if |data| < writecount {
        WriteTail(data);
      } else {
        WriteTail(data[..writecount]);
        WriteSpill(data[writecount..]);
      }
      AddSize(|data|);
      return true;
    }

    // ---------- onWrite ----------

    /** The bytes behind the `iovec`s that `onWrite` lists. */
    function Offered(): (offered: seq<byte>)
      requires Wired() && ChainSafe(bufferPool.capacity, chain)
      reads this, bufferPool, nodes, Footprint(nodes)
    {
      SafeFacts();
      var next := head.next;
      (if head.pop < head.push then head.buffer[head.pop..head.pop + head.count]
       else head.buffer[head.pop..head.capacity] + (if head.push > 0 then head.buffer[..head.push] else []))
      + (if next != null then next.buffer[..next.count] else [])
    }

    /** They are those of the head's two segments and of the next buffer. */
    lemma OfferedIsGather()
      requires Wired() && ChainSafe(bufferPool.capacity, chain) && !spare
      ensures Offered() == Gather(chain)
    {
      hide Wired, Ring.Ok, Ring.Content, ChainSafe, Separate, Elements, FreshRing;
      SafeFacts();
      assert |chain| > 1 ==> head.next.buffer[..head.next.count] == chain[1].data[..chain[1].count];
      assert (head.next != null) == (|chain| > 1);
    }

    lemma SafeFacts()
      requires Wired() && ChainSafe(bufferPool.capacity, chain)
      ensures head.AsRing() == chain[0] && head in Elements(nodes)
              && head.buffer.Length == head.capacity == bufferPool.capacity
      ensures head.pop <= head.capacity && head.push <= head.capacity
              && (head.pop < head.push ==> head.pop + head.count <= head.capacity)
      ensures head in Footprint(nodes) && head.buffer in Footprint(nodes)
      ensures |nodes| > 1 ==> nodes[1] in Footprint(nodes) && nodes[1].buffer in Footprint(nodes)
      ensures !spare ==> |nodes| == |chain|
      ensures head.next != null <==> |nodes| > 1
      ensures |nodes| > 1 ==>
                head.next == nodes[1] && nodes[1] in Elements(nodes) && nodes[1].count <= nodes[1].buffer.Length
      ensures |chain| > 1 ==> head.next.AsRing() == chain[1]
    {
      assert nodes[0].AsRing() == chain[0];
      if |chain| > 1 { assert nodes[1].AsRing() == chain[1]; }
      else if |nodes| > 1 { assert nodes[1].AsRing() == FreshRing(bufferPool.capacity); }
    }

    /** The accepted bytes reach into the next buffer, which becomes the head. */
    method PassIntoNext(n: nat)
      requires Wired() && |chain| > 1 && n <= chain[1].count
      modifies this, bufferPool, nodes[1]
      ensures Wired() && tail == old(tail) && total == old(total) && spare == old(spare)
      ensures chain == [old(chain)[1].(pop := n, count := old(chain)[1].count - n)] + old(chain)[2..]
      ensures Released(old(nodes), old(bufferPool.live), nodes, bufferPool.live)
    {
      hide Wired, Released, Separate;
      NextHead();
      assert chain[1..] == old(chain)[2..];
      TakeFront(n);
    }

    method TakeFront(n: nat)
      requires Wired() && n <= chain[0].count
      modifies this`chain, head`pop, head`count
      ensures Wired()
      ensures chain == [old(chain)[0].(pop := n, count := old(chain)[0].count - n)] + old(chain)[1..]
    {
      hide FreshRing, Ring.Content;
      HeadFacts();
      head.pop := n;
      head.count := head.count - head.pop;
      ghost var r := chain[0].(pop := n, count := chain[0].count - n);
      assert head.AsRing() == r;
      chain := [r] + chain[1..];
    }

    /** One round of `onWrite`, exactly as written: `writev` accepts `n` of the offered bytes.  More than
        there should have been is taken for an error and leaves the chain alone. */
    method WriteRound(n: nat) returns (size: nat)
      requires Wired() && !spare && ChainSafe(bufferPool.capacity, chain)
      modifies this, bufferPool, Elements(nodes)
      ensures Wired() && !spare && tail == old(tail) && total == old(total) && size == Pending(old(chain))
      ensures chain == PassAsWritten(old(chain), n)
      ensures Released(old(nodes), old(bufferPool.live), nodes, bufferPool.live)
    {
      hide Wired, Released, Ring.Ok, Ring.Content, Separate;
      HeadFacts();
      SafeFacts();
      var writecount, next := head.count, head.next;
      size := writecount + (if next != null then next.count else 0);
      if n > size {
        return;
      }
      if n < writecount {
        AdvanceHead(n);
      } else if n > writecount {
        PassIntoNext(n - writecount);
      } else {
        FinishHead();
      }
    }

    /** `onWrite` exactly as written, the whole call.  `accepts[i]` is what the i-th `writev` accepts at
        most, negative on an error; past the end it fails. */
    method OnWriteUnrepaired(writeable: bool, accepts: seq<int>) returns (stillWriteable: bool, sent: seq<byte>)
      requires Wired() && !spare && LoopOk(bufferPool.capacity, chain) && total == Held(chain)
      modifies this, bufferPool, Elements(nodes)
      ensures Wired() && !spare && LoopOk(bufferPool.capacity, chain) && total == Held(chain)
      ensures LoopOk(bufferPool.capacity, old(chain)) && tail == old(tail)
      ensures var q := OnWriteAsWritten(bufferPool.capacity, WriteRun(old(chain), [], []),
                                      if writeable then accepts else []);
              chain == q.chain && sent == q.sent
      ensures Released(old(nodes), old(bufferPool.live), nodes, bufferPool.live)
      ensures stillWriteable <==> writeable && old(total) == 0
    {
      hide Wired, Stream, ChainOk, LoopOk, ChainSafe, Released, Elements, Footprint, Gather, Pending,
           PassAsWritten, Held;
      ghost var cap, start := bufferPool.capacity, WriteRun(chain, [], []);
      HeadFacts();
      sent := [];
      if !writeable || total == 0 {
        return writeable, sent;
      }
      var i := 0;
      while true
        invariant Wired() && !spare && LoopOk(cap, chain) && total == Held(chain) && tail == old(tail)
        invariant LoopOk(cap, start.chain) && i <= |accepts|
        invariant FlushAsWritten(cap, WriteRun(chain, [], sent), accepts[i..]) == FlushAsWritten(cap, start, accepts)
        invariant Released(old(nodes), old(bufferPool.live), nodes, bufferPool.live)
        decreases |accepts| - i
      {
        if i == |accepts| || accepts[i] < 0 {
          return false, sent;
        }
        assert accepts[i..][1..] == accepts[i + 1..];
        ghost var between, live := nodes, bufferPool.live;
        ReleasedMembers(old(nodes), old(bufferPool.live), between, live);
        var bytes, again := RoundUnrepaired(accepts[i]);
        ReleasedTransitive(old(nodes), old(bufferPool.live), between, live, nodes, bufferPool.live);
        sent := sent + bytes;
        if !again {
          return false, sent;
        }
        i := i + 1;
      }
    }

    /** One round of it; `again` when exactly `size` bytes were accepted. */
    method RoundUnrepaired(accept: nat) returns (bytes: seq<byte>, again: bool)
      requires Wired() && !spare && LoopOk(bufferPool.capacity, chain) && total == Held(chain)
      modifies this, bufferPool, Elements(nodes)
      ensures Wired() && !spare && LoopOk(bufferPool.capacity, chain) && total == Held(chain) && tail == old(tail)
      ensures LoopOk(bufferPool.capacity, old(chain)) && ChainSafe(bufferPool.capacity, old(chain))
      ensures |old(chain)| > 1 ==> old(chain)[1].count <= |old(chain)[1].data|
      ensures var n := Taken(bufferPool.capacity, old(chain), accept);
              && bytes == Gather(old(chain))[..n] && chain == PassAsWritten(old(chain), n)
              && (again <==> n == Pending(old(chain)))
      ensures Released(old(nodes), old(bufferPool.live), nodes, bufferPool.live)
    {
      hide Wired, Stream, ChainOk, LoopOk, ChainSafe, Released, Elements, Footprint, Gather, Pending,
           PassAsWritten, Held, Offered;
      ghost var cap, c := bufferPool.capacity, chain;
      LoopSafe(cap, c);
      OfferedIsGather();
      var offered := Offered();
      var n := if accept < |offered| then accept else |offered|;
      PassKeepsLoop(cap, c, n);
      RoundHeld(cap, c, n);
      var size := WriteRound(n);
      if n <= size {
        SubtractSize(n);
      }
      return offered[..n], n == size;
    }

    /** A round of `onWrite` on a nonempty chain, with the repair: a drained head is not kept. */
    method FlushRound(accepted: nat) returns (bytes: seq<byte>, all: bool)
      requires Valid() && !spare && total > 0
      modifies this, bufferPool, Elements(nodes)
      ensures Valid() && !spare && tail == old(tail) && Others() == old(Others())
      ensures Elements(nodes) <= old(Elements(nodes)) && Footprint(nodes) <= old(Footprint(nodes))
      ensures var c := old(chain); var n := if accepted < Pending(c) then accepted else Pending(c);
              && ChainSafe(bufferPool.capacity, c)
              && chain == Consume(c, n) && bytes == Gather(c)[..n] && (all <==> n == Pending(c))
      ensures !all ==> total > 0
    {
      hide Wired, Stream, ChainOk, ChainSafe, Released, Elements, Footprint, Gather, Pending, Ring.Ok, Consume,
           PassAsWritten;
      ghost var cap, c, before, live := bufferPool.capacity, chain, nodes, bufferPool.live;
      HeadEmptyIff(cap, c);
      GatherIsPrefix(cap, c);
      HeadFacts();
      OfferedIsGather();
      var offered := Offered();
      var n := if accepted < |offered| then accepted else |offered|;
      ConsumeIsFifo(cap, c, n);
      RepairedPass(cap, c, n);
      var size := WriteRound(n);
      ghost var between, held := nodes, bufferPool.live;
      SubtractSize(n);
      HeadFacts();
      ReleasedMembers(before, live, between, held);
      if head.count == 0 {
        FinishHead();
      }
      ReleasedTransitive(before, live, between, held, nodes, bufferPool.live);
      ReleasedMembers(before, live, nodes, bufferPool.live);
      return offered[..n], n >= size;
    }

    /** `onWrite` with both repairs: it also stops once nothing is queued, and does not keep a drained
        head.  `accepts[i]` is what the i-th `writev` accepts at most, negative on an error. */
    method OnWrite(writeable: bool, accepts: seq<int>) returns (stillWriteable: bool, sent: seq<byte>)
      requires Valid() && !spare
      modifies this, bufferPool, Elements(nodes)
      ensures Valid() && !spare && tail == old(tail) && Others() == old(Others())
      ensures Elements(nodes) <= old(Elements(nodes)) && Footprint(nodes) <= old(Footprint(nodes))
      ensures ChainOk(bufferPool.capacity, old(chain)) && bufferPool.capacity > 0
      ensures stillWriteable <==> writeable && total == 0
      ensures var q := FlushAll(bufferPool.capacity, WriteRun(old(chain), [], []), if writeable then accepts else []);
              chain == q.chain && sent == q.sent
    {
      hide Valid, Wired, Stream, ChainOk, Elements, Footprint, Others, Gather, Pending, Consume;
      ghost var cap, start := bufferPool.capacity, WriteRun(chain, [], []);
      ValidFacts();
      HeadEmptyIff(cap, chain);
      sent, stillWriteable := [], writeable;
      var i := 0;
      while stillWriteable && total > 0
        invariant Valid() && !spare && tail == old(tail) && Others() == old(Others())
        invariant Elements(nodes) <= old(Elements(nodes)) && Footprint(nodes) <= old(Footprint(nodes))
        invariant 0 <= i <= |accepts| && ChainOk(cap, chain) && total == Held(chain)
        invariant var q := FlushAll(cap, start, accepts);
                  if stillWriteable then FlushAll(cap, WriteRun(chain, [], sent), accepts[i..]) == q
                  else writeable ==> chain == q.chain && sent == q.sent
        invariant !writeable ==> chain == old(chain) && sent == [] && !stillWriteable
        invariant writeable && !stillWriteable ==> total > 0
        decreases |accepts| - i, stillWriteable
      {
        HeadEmptyIff(cap, chain);
        if i == |accepts| || accepts[i] < 0 {
          stillWriteable := false;
        } else {
          assert accepts[i..][1..] == accepts[i + 1..];
          var bytes, all := FlushRound(accepts[i]);
          sent := sent + bytes;
          stillWriteable := all;
          i := i + 1;
          ValidFacts();
          HeadEmptyIff(cap, chain);
        }
      }
      HeadEmptyIff(cap, chain);
    }

    // ---------- send ----------

    /** `send` as written: the socket accepts `accepted` bytes at most (negative on an error), the rest is
        queued. */
    method Send(data: seq<byte>, accepted: int) returns (sent: seq<byte>)
      requires Queued()
      modifies this, bufferPool, tail, tail.buffer
      ensures Queued() && old(nodes) <= nodes && Others() == old(Others())
      ensures fresh(Footprint(nodes) - old(Footprint(nodes)))
      ensures sent == if accepted < 0 then [] else if accepted < |data| then data[..accepted] else data
      ensures Stream(chain) == Stream(old(chain)) + data[|sent|..]
      ensures QueueOk(bufferPool.capacity, old(chain))
      ensures var q := SendAsWritten(bufferPool.capacity, WriteRun(old(chain), [], []), data, accepted);
              chain == q.chain && sent == q.sent
    {
      hide Queued, Wired, Stream, QueueOk, Elements, Footprint, Others;
      QueuedFacts();
      QueueTail(bufferPool.capacity, chain);
      AppendNothing(bufferPool.capacity, chain);
      var writesize := if accepted < |data| then accepted else |data|;
      AppendKeepsQueue(bufferPool.capacity, chain, if writesize < 0 then data else data[writesize..]);
      if writesize < 0 {
        var _ := WriteData(true, data);
        sent := [];
      } else {
        sent := data[..writesize];
        if writesize < |data| {
          var _ := WriteData(true, data[writesize..]);
        }
      }
    }

    /** The repair: the socket is tried first only when nothing is queued. */
    method SendInTurn(data: seq<byte>, accepted: int) returns (sent: seq<byte>)
      requires Valid() && !spare
      modifies this, bufferPool, tail, tail.buffer
      ensures Valid() && !spare && old(nodes) <= nodes && Others() == old(Others())
      ensures fresh(Footprint(nodes) - old(Footprint(nodes)))
      ensures sent == if old(total) > 0 || accepted < 0 then []
                      else if accepted < |data| then data[..accepted] else data
      ensures Stream(chain) == Stream(old(chain)) + data[|sent|..]
      ensures ChainOk(bufferPool.capacity, old(chain)) && bufferPool.capacity > 0
      ensures var q := SendRepaired(bufferPool.capacity, WriteRun(old(chain), [], []), data, accepted);
              chain == q.chain && sent == q.sent
    {
      hide Valid, Queued, Wired, Stream, ChainOk, Elements, Footprint, Others, SendAsWritten;
      ValidFacts();
      HeadEmptyIff(bufferPool.capacity, chain);
      ValidIsQueued();
      SendKeepsChain(bufferPool.capacity, WriteRun(chain, [], []), data, if total == 0 then accepted else -1);
      sent := Send(data, if total == 0 then accepted else -1);
      QueuedFacts();
      QueuedIsValid();
    }

    /** Any one of the operations on the write side. */
    method WriteEventStep(e: WriteEvent) returns (sent: seq<byte>)
      requires Valid() && !spare
      modifies this, bufferPool, Footprint(nodes)
      ensures Valid() && !spare && Others() == old(Others())
      ensures fresh(Footprint(nodes) - old(Footprint(nodes)))
      ensures bufferPool.capacity > 0 && ChainOk(bufferPool.capacity, old(chain))
      ensures var q := WriteStep(bufferPool.capacity, WriteRun(old(chain), [], []), e);
              chain == q.chain && sent == q.sent
    {
      hide Valid, Wired, Stream, ChainOk, Append, FlushAll, SendRepaired, Others;
      ValidFacts();
      TailInFootprint();
      AppendNothing(bufferPool.capacity, chain);
      match e {
        case Send(data, accepted) =>
          sent := SendInTurn(data, accepted);
        case Write(bytes) =>
          ValidIsQueued();
          AppendIsFifo(bufferPool.capacity, chain, bytes);
          var ok := WriteData(true, bytes);
          QueuedFacts();
          QueuedIsValid();
          sent := [];
        case Flush(accepts) =>
          var more;
          more, sent := OnWrite(true, accepts);
      }
    }

    lemma QueuedFacts()
      requires Queued()
      ensures Wired() && !spare && QueueOk(bufferPool.capacity, chain)
      ensures LoopOk(bufferPool.capacity, chain) && total == Held(chain)
      ensures {tail as object, tail.buffer} <= Footprint(nodes)
    {
      QueueIsLoop(bufferPool.capacity, chain);
      LoopHeld(bufferPool.capacity, chain);
      assert nodes[|chain| - 1] in nodes;
    }

    /** Any one of the operations on the write side, as written. */
    method WriteEventUnrepaired(e: WriteEvent) returns (sent: seq<byte>)
      requires Queued()
      modifies this, bufferPool, Footprint(nodes)
      ensures Queued() && Others() == old(Others())
      ensures fresh(Footprint(nodes) - old(Footprint(nodes)))
      ensures QueueOk(bufferPool.capacity, old(chain))
      ensures var q := StepAsWritten(bufferPool.capacity, WriteRun(old(chain), [], []), e);
              chain == q.chain && sent == q.sent
    {
      hide Queued, Wired, Stream, LoopOk, QueueOk, Append, FlushAsWritten, SendAsWritten, Held;
      QueuedFacts();
      AppendNothing(bufferPool.capacity, chain);
      match e {
        case Send(data, accepted) =>
          sent := Send(data, accepted);
        case Write(bytes) =>
          var ok := WriteData(true, bytes);
          sent := [];
        case Flush(accepts) =>
          ghost var before, live := nodes, bufferPool.live;
          FlushKeepsQueue(bufferPool.capacity, WriteRun(chain, [], []), accepts);
          var more;
          more, sent := OnWriteUnrepaired(true, accepts);
          ReleasedMembers(before, live, nodes, bufferPool.live);
          HeldQueued();
      }
    }

    lemma HeldQueued()
      requires Wired() && !spare && QueueOk(bufferPool.capacity, chain) && total == Held(chain)
      ensures Queued()
    {
      QueueIsLoop(bufferPool.capacity, chain);
      LoopHeld(bufferPool.capacity, chain);
    }

    /** Any number of them, in any order. */
    method RunUnrepaired(events: seq<WriteEvent>) returns (sent: seq<byte>)
      requires Queued()
      modifies this, bufferPool, Footprint(nodes)
      ensures Queued() && Others() == old(Others())
      ensures fresh(Footprint(nodes) - old(Footprint(nodes)))
      ensures QueueOk(bufferPool.capacity, old(chain))
      ensures var q := RunAsWritten(bufferPool.capacity, WriteRun(old(chain), [], []), events);
              chain == q.chain && sent == q.sent
    {
      hide Queued, Wired, Stream, QueueOk, StepAsWritten, Others;
      QueuedFacts();
      ghost var cap, start := bufferPool.capacity, WriteRun(chain, [], []);
      ghost var r := start;
      sent := [];
      assert events[0..] == events;
      for i := 0 to |events|
        invariant Queued() && Others() == old(Others())
        invariant fresh(Footprint(nodes) - old(Footprint(nodes)))
        invariant QueueOk(cap, start.chain) && QueueOk(cap, r.chain) && r.chain == chain && r.sent == sent
        invariant RunAsWritten(cap, r, events[i..]) == RunAsWritten(cap, start, events)
      {
        assert events[i..][0] == events[i] && events[i..][1..] == events[i + 1..];
        ghost var memory := Footprint(nodes);
        StepShifts(cap, r, events[i]);
        var bytes := WriteEventUnrepaired(events[i]);
        assert fresh(Footprint(nodes) - memory);
        assert forall o :: o in Footprint(nodes) && o !in old(Footprint(nodes)) ==> o !in memory || fresh(o);
        r := StepAsWritten(cap, r, events[i]);
        sent := sent + bytes;
      }
      assert events[|events|..] == [];
    }

    lemma SpaceBound()
      requires Valid()
      ensures |nodes| <= total / bufferPool.capacity + 3
    {
      ReadChainBound(bufferPool.capacity, ReadState(chain, spare));
    }

    /** The destructor's part: every buffer, the spare one included, goes back once. */
    method Destroy()
      requires Wired()
      modifies bufferPool
      ensures bufferPool.live == old(Others())
    {
      ghost var k := 0;
      var node: Buffer? := head;
      while node != null
        invariant 0 <= k <= |nodes| && node == if k < |nodes| then nodes[k] else null
        invariant bufferPool.live == old(bufferPool.live) - Elements(nodes[..k])
        decreases |nodes| - k
      {
        assert Elements(nodes[..k + 1]) == Elements(nodes[..k]) + {nodes[k]};
        assert nodes[k] in bufferPool.live;
        node := bufferPool.PutNext(node);
        k := k + 1;
      }
      assert nodes[..k] == nodes;
    }
  }
}
