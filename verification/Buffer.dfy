/** The pool's buffers and how they are linked (net/Buffer.h). */
module Buffers {
  import opened Rings

  class Buffer {
    const buffer: array<byte>
    const capacity: nat
    var count: nat
    var push: nat
    var pop: nat
    var next: Buffer?

    constructor (capacity: nat)
      ensures fresh(buffer) && buffer.Length == capacity == this.capacity
      ensures next == null && AsRing() == FreshRing(capacity)
    {
      this.buffer := new byte[capacity](_ => 0);
      this.capacity := capacity;
      count, push, pop := 0, 0, 0;
      next := null;
    }

    function AsRing(): Ring
      reads this, buffer
    {
      Ring(buffer[..], count, push, pop)
    }
  }

  /** Allocation and release.  `live` holds the buffers taken and not yet put back; `put` of any
      other buffer, a second `put` in particular, is excluded by its precondition. */
  class BufferPool {
    const capacity: nat
    ghost var live: set<Buffer>

    constructor (capacity: nat)
      ensures this.capacity == capacity && live == {}
    {
      this.capacity := capacity;
      live := {};
    }

    method Take() returns (b: Buffer)
      modifies this
      ensures fresh(b) && fresh(b.buffer) && b.capacity == b.buffer.Length == capacity
      ensures b.next == null && b.AsRing() == FreshRing(capacity)
      ensures live == old(live) + {b}
    {
      b := new Buffer(capacity);
      live := live + {b};
    }

    method Put(b: Buffer)
      requires b in live
      modifies this
      ensures live == old(live) - {b}
    {
      live := live - {b};
    }

    method PutNext(b: Buffer) returns (next: Buffer?)
      requires b in live
      modifies this
      ensures next == b.next && live == old(live) - {b}
    {
      next := b.next;
      Put(b);
    }

    method TakeNext(b: Buffer) returns (next: Buffer)
      requires b in live
      modifies this, b`next
      ensures fresh(next) && fresh(next.buffer) && next.capacity == next.buffer.Length == capacity
      ensures next.next == null && next.AsRing() == FreshRing(capacity)
      ensures b.next == next && live == old(live) + {next}
    {
      next := Take();
      b.next := next;
    }
  }

  /** Copies `src` into `dst` at `at`. */
  method Memcpy(dst: array<byte>, at: nat, src: seq<byte>)
    requires at + |src| <= dst.Length
    modifies dst
    ensures dst[..] == old(dst[..])[..at] + src + old(dst[..])[at + |src|..]
  {
    forall i | 0 <= i < |src| {
      dst[at + i] := src[i];
    }
  }

  /** The first `n` bytes of a buffer's content as they are copied out: in one piece or, around the
      end of the storage, in two. */
  function CopyContent(b: Buffer, n: nat): (out: seq<byte>)
    requires b.capacity == b.buffer.Length && b.AsRing().Ok() && n <= b.count
    reads b, b.buffer
    ensures |out| == n && out == b.AsRing().Content()[..n]
  {
    ContentPrefix(b.AsRing(), n);
    var rearcount := b.capacity - b.pop;
    if n > rearcount then b.buffer[b.pop..b.pop + rearcount] + b.buffer[..n - rearcount]
    else b.buffer[b.pop..b.pop + n]
  }

  /** Copies `bytes` into the free part of a buffer from `push` on, in one piece or in two. */
  method StoreBytes(b: Buffer, bytes: seq<byte>)
    requires b.capacity == b.buffer.Length && b.AsRing().Ok() && b.count + |bytes| <= b.capacity
    modifies b.buffer
    ensures b.buffer[..] == old(b.AsRing()).Stored(bytes)
  {
    var rear := b.capacity - b.push;
    if |bytes| <= rear {
      Memcpy(b.buffer, b.push, bytes);
    } else {
      Memcpy(b.buffer, b.push, bytes[..rear]);
      Memcpy(b.buffer, 0, bytes[rear..]);
    }
  }

  /** What `readv` does with the pieces listed of one buffer: they are filled in order. */
  method Scatter(dst: array<byte>, iov: seq<Iovec>, src: seq<byte>)
    requires Within(iov, dst.Length) && |src| <= Total(iov)
    modifies dst
    ensures dst[..] == Scattered(old(dst[..]), iov, src)
  {
    var rest := src;
    for i := 0 to |iov|
      invariant |rest| <= Total(iov[i..])
      invariant Scattered(dst[..], iov[i..], rest) == Scattered(old(dst[..]), iov, src)
    {
      assert iov[i..][0] == iov[i] && iov[i..][1..] == iov[i + 1..];
      var n := Part(iov[i], rest);
      Memcpy(dst, iov[i].base, rest[..n]);
      rest := rest[n..];
    }
  }

  /** `readv` into the tail buffer, through the pieces that `onRead` lists of it, and the bookkeeping that
      follows. */
  method FillBuffer(b: Buffer, bytes: seq<byte>)
    requires b.capacity == b.buffer.Length && b.AsRing().Ok() && b.count + |bytes| <= b.capacity
    modifies b, b.buffer
    ensures b.AsRing() == old(b.AsRing()).Extend(bytes) && b.next == old(b.next)
  {
    hide Ring.Stored, Scattered, FreePieces;
    if b.count + |bytes| < b.capacity { WrapMod(b.push + |bytes|, b.capacity); }
    ScatterIsStored(b.AsRing(), bytes);
    var rearcount := b.capacity - b.count;
    Scatter(b.buffer, FreePieces(b.capacity, b.count, b.push, b.pop), bytes);
    if |bytes| < rearcount {
      b.push := (b.push + |bytes|) % b.capacity;
      b.count := b.count + |bytes|;
    } else {
      b.push := b.pop;
      b.count := b.capacity;
    }
  }

  /** `writeData` into a buffer with room for all of `bytes`: left not full by the first branch of the
      source, filled up by the second. */
  method WriteBuffer(b: Buffer, bytes: seq<byte>)
    requires b.capacity == b.buffer.Length && b.AsRing().Ok() && 0 < |bytes| && b.count + |bytes| <= b.capacity
    modifies b, b.buffer
    ensures b.AsRing() == old(b.AsRing()).Extend(bytes) && b.next == old(b.next)
  {
    hide Ring.Stored;
    if b.count + |bytes| < b.capacity { WrapMod(b.push + |bytes|, b.capacity); }
    var writecount, rearcount := b.capacity - b.count, b.capacity - b.push;
    StoreBytes(b, bytes);
    if |bytes| < writecount {
      if |bytes| > rearcount {
        b.push := |bytes| - rearcount;
      } else {
        b.push := (b.push + |bytes|) % b.capacity;
      }
      b.count := b.count + |bytes|;
    } else {
      b.push := b.pop;
      b.count := b.capacity;
    }
  }

  /** The memory of a list of buffers. */
  ghost function Footprint(nodes: seq<Buffer>): set<object> {
    (set n: Buffer | n in nodes :: n as object) + (set n: Buffer | n in nodes :: n.buffer as object)
  }

  /** The buffers are distinct, with distinct storage of the pool's capacity. */
  ghost predicate Separate(cap: nat, nodes: seq<Buffer>) {
    && (forall i :: 0 <= i < |nodes| ==> nodes[i].capacity == nodes[i].buffer.Length == cap)
    && (forall i, j :: 0 <= i < j < |nodes| ==> nodes[i] != nodes[j] && nodes[i].buffer != nodes[j].buffer)
  }

  /** The buffers form one null-terminated list. */
  ghost predicate Linked(nodes: seq<Buffer>)
    reads nodes
  {
    && |nodes| >= 1
    && (forall i :: 0 <= i < |nodes| - 1 ==> nodes[i].next == nodes[i + 1])
    && nodes[|nodes| - 1].next == null
  }

  /** The rings stored in the first `|rings|` buffers. */
  ghost predicate Holds(nodes: seq<Buffer>, rings: seq<Ring>)
    reads Footprint(nodes)
  {
    && |rings| <= |nodes|
    && (forall i :: 0 <= i < |rings| ==> nodes[i].AsRing() == rings[i])
  }

  ghost function Elements(nodes: seq<Buffer>): set<Buffer> {
    set n | n in nodes
  }

  /** From `before` on, the first buffers were put back, each once, and `after` remains. */
  ghost predicate Released(before: seq<Buffer>, liveBefore: set<Buffer>, after: seq<Buffer>, liveAfter: set<Buffer>) {
    && |after| <= |before| && after == before[|before| - |after|..]
    && liveAfter == liveBefore - Elements(before) + Elements(after)
  }

  lemma FirstReleased(cap: nat, nodes: seq<Buffer>, live: set<Buffer>)
    requires Separate(cap, nodes) && |nodes| > 0 && Elements(nodes) <= live
    ensures Released(nodes, live, nodes, live)
    ensures Released(nodes, live, nodes[1..], live - {nodes[0]})
  {
    var after := nodes[1..];
    assert after == nodes[|nodes| - |after|..] && nodes == nodes[0..];
    assert nodes[0] !in after;
    assert Elements(nodes) == Elements(after) + {nodes[0]};
  }

  lemma ReleasedMembers(a: seq<Buffer>, la: set<Buffer>, b: seq<Buffer>, lb: set<Buffer>)
    requires Released(a, la, b, lb)
    ensures Elements(b) <= Elements(a) && Footprint(b) <= Footprint(a)
    ensures Elements(a) <= la ==> lb - Elements(b) == la - Elements(a)
  {
  }

  lemma ReleasedTransitive(a: seq<Buffer>, la: set<Buffer>, b: seq<Buffer>, lb: set<Buffer>, c: seq<Buffer>,
                           lc: set<Buffer>)
    requires Released(a, la, b, lb) && Released(b, lb, c, lc)
    ensures Released(a, la, c, lc)
  {
    assert c == a[|a| - |c|..];
    assert forall n :: n in b ==> n in Elements(b);
    assert forall n :: n in Elements(c) ==> n in b;
  }
}
