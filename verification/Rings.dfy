/**
  Byte rings and chains of them, as values: the state behind the linked buffers of one direction
  of a connection.  A ring is one buffer of the pool (its storage, `count`, `push` and `pop`);
  a chain is the list from the head buffer to the tail buffer.
 */
module Rings {
  import opened Arith
  import opened Seqs

  newtype byte = b: int | 0 <= b < 256

  /** `x mod cap` for the only arguments that occur, those below `2 * cap`. */
  function Wrap(x: nat, cap: nat): nat {
    if x < cap then x else x - cap
  }

  lemma WrapMod(x: nat, cap: nat)
    requires x < 2 * cap
    ensures x % cap == Wrap(x, cap)
  {
    ModUnique(x, cap, if x < cap then 0 else 1, Wrap(x, cap));
  }

  datatype Ring = Ring(data: seq<byte>, count: nat, push: nat, pop: nat) {

    /** The ring invariant.  `push` may equal the capacity: a buffer that is filled from offset 0
        in one go is left that way.  So may `pop`, in a drained buffer that `onWrite` kept. */
    predicate Ok() {
      && 0 < |data|
      && pop <= |data|
      && count <= |data|
      && push <= |data|
      && (push == pop + count || push == pop + count - |data|)
    }

    /** The stored bytes, oldest first. */
    function Content(): (s: seq<byte>) {
      if pop + count <= |data| then data[pop..pop + count]
      else if pop <= |data| && count <= |data| then data[pop..] + data[..pop + count - |data|]
      else []
    }

    /** The ring after its `n` oldest bytes are taken. */
    function Advance(n: nat): Ring
      requires n <= count
    {
      this.(pop := Wrap(pop + n, |data|), count := count - n)
    }

    function Emptied(): Ring {
      this.(count := 0, push := 0, pop := 0)
    }

    /** The storage after `bytes` is copied in from `push` on, around the end if need be. */
    function Stored(bytes: seq<byte>): seq<byte>
      requires push <= |data| && |bytes| <= |data|
    {
      var rear := |data| - push;
      if |bytes| <= rear then data[..push] + bytes + data[push + |bytes|..]
      else if |bytes| - rear <= push then bytes[rear..] + data[|bytes| - rear..push] + bytes[..rear]
      else data
    }

    /** The ring after `bytes` is stored behind its content; a ring that becomes full gets `push == pop`. */
    function Extend(bytes: seq<byte>): Ring
      requires push <= |data| && count + |bytes| <= |data|
    {
      Ring(Stored(bytes), count + |bytes|,
           if count + |bytes| == |data| then pop else Wrap(push + |bytes|, |data|), pop)
    }
  }

  function Zeros(n: nat): (z: seq<byte>)
    ensures |z| == n
  {
    seq(n, _ => 0)
  }

  /** A buffer just taken from the pool. */
  function FreshRing(cap: nat): Ring {
    Ring(Zeros(cap), 0, 0, 0)
  }

  /** A fresh buffer loaded from offset 0. */
  function LoadedRing(cap: nat, bytes: seq<byte>): Ring
    requires |bytes| <= cap
  {
    Ring(bytes + Zeros(cap)[|bytes|..], |bytes|, |bytes|, 0)
  }

  lemma OkContentLength(r: Ring)
    requires r.Ok()
    ensures |r.Content()| == r.count
  {
  }

  lemma ContentAt(r: Ring, i: nat)
    requires r.Ok() && i < r.count
    ensures |r.Content()| == r.count
    ensures r.Content()[i] == r.data[Wrap(r.pop + i, |r.data|)]
  {
  }

  lemma ContentPrefix(r: Ring, n: nat)
    requires r.Ok() && n <= r.count
    ensures |r.Content()| == r.count
    ensures var rear := |r.data| - r.pop;
            r.Content()[..n] == if n > rear then r.data[r.pop..] + r.data[..n - rear] else r.data[r.pop..r.pop + n]
  {
  }

  /** A store touches the `|bytes|` slots from `push` on, in order, and no other. */
  lemma StoredAt(r: Ring, bytes: seq<byte>, i: nat)
    requires r.Ok() && r.count + |bytes| <= |r.data| && i < r.count + |bytes|
    ensures |r.Stored(bytes)| == |r.data|
    ensures r.Stored(bytes)[Wrap(r.pop + i, |r.data|)]
         == if i < r.count then r.data[Wrap(r.pop + i, |r.data|)] else bytes[i - r.count]
  {
  }

  lemma StoredLength(r: Ring, bytes: seq<byte>)
    requires r.Ok() && r.count + |bytes| <= |r.data|
    ensures |r.Stored(bytes)| == |r.data|
  {
  }

  /** Storing appends to the content, in every wrap state. */
  lemma ExtendContent(r: Ring, bytes: seq<byte>)
    requires r.Ok() && r.count + |bytes| <= |r.data|
    ensures r.Extend(bytes).Ok() && |r.Extend(bytes).data| == |r.data|
    ensures r.Extend(bytes).Content() == r.Content() + bytes
  {
    hide Ring.Content, Ring.Stored;
    var e := r.Extend(bytes);
    StoredLength(r, bytes);
    OkContentLength(r);
    OkContentLength(e);
    forall i | 0 <= i < e.count
      ensures e.Content()[i] == (r.Content() + bytes)[i]
    {
      ContentAt(e, i);
      StoredAt(r, bytes, i);
      if i < r.count { ContentAt(r, i); }
    }
  }

  lemma AdvanceContent(r: Ring, n: nat)
    requires r.Ok() && n < r.count
    ensures r.Advance(n).Ok() && |r.Advance(n).data| == |r.data| && r.Advance(n).count == r.count - n
    ensures r.Advance(n).Content() == r.Content()[n..]
  {
    hide Ring.Content;
    var a := r.Advance(n);
    assert a.Ok();
    OkContentLength(r);
    OkContentLength(a);
    forall i | 0 <= i < r.count - n
      ensures a.Content()[i] == r.Content()[n..][i]
    {
      ContentAt(a, i);
      ContentAt(r, n + i);
    }
  }

  // ---------- scattered input ----------

  /** A piece of a buffer's storage listed for `readv`. */
  datatype Iovec = Iovec(base: nat, len: nat)

  function Total(iov: seq<Iovec>): nat {
    if iov == [] then 0 else iov[0].len + Total(iov[1..])
  }

  predicate Within(iov: seq<Iovec>, size: nat) {
    forall i :: 0 <= i < |iov| ==> iov[i].base + iov[i].len <= size
  }

  /** How much of `bytes` goes into a piece. */
  function Part(v: Iovec, bytes: seq<byte>): (n: nat)
    ensures n <= |bytes| && n <= v.len
  {
    if |bytes| < v.len then |bytes| else v.len
  }

  function Filled(data: seq<byte>, v: Iovec, bytes: seq<byte>): (r: seq<byte>)
    requires v.base + v.len <= |data|
    ensures |r| == |data|
  {
    data[..v.base] + bytes[..Part(v, bytes)] + data[v.base + Part(v, bytes)..]
  }

  /** The storage after the pieces are filled from `bytes`, one after the other. */
  function Scattered(data: seq<byte>, iov: seq<Iovec>, bytes: seq<byte>): (r: seq<byte>)
    requires Within(iov, |data|)
    ensures |r| == |data|
    decreases |iov|
  {
    if iov == [] then data
    else Scattered(Filled(data, iov[0], bytes), iov[1..], bytes[Part(iov[0], bytes)..])
  }

  /** What `onRead` lists of the tail: nothing of a full buffer; the gap before `pop` when `push` is below
      it; otherwise what is behind `push`, which may be nothing, and then what is before `pop`, if anything. */
  function FreePieces(capacity: nat, count: nat, push: nat, pop: nat): seq<Iovec>
    requires count <= capacity && push <= capacity
  {
    if capacity - count == 0 then []
    else if push < pop then [Iovec(push, capacity - count)]
    else if pop > 0 then [Iovec(push, capacity - push), Iovec(0, pop)]
    else [Iovec(push, capacity - push)]
  }

  /** The pieces listed are all the free bytes, inside the storage, and in ring order: what is scattered
      through them is stored behind the content. */
  lemma ScatterIsStored(r: Ring, bytes: seq<byte>)
    requires r.Ok() && r.count + |bytes| <= |r.data|
    ensures var iov := FreePieces(|r.data|, r.count, r.push, r.pop);
            && Within(iov, |r.data|) && Total(iov) == |r.data| - r.count
            && Scattered(r.data, iov, bytes) == r.Stored(bytes)
  {
    hide Scattered, Total, Ring.Stored;
    var d := r.data;
    var rear := |d| - r.push;
    if r.count == |d| {
      ScatterNone(d, bytes);
      StoredWithoutWrap(r, bytes);
      assert d[..r.push] + bytes + d[r.push..] == d;
    } else if r.push < r.pop {
      ScatterLast(d, Iovec(r.push, |d| - r.count), bytes);
      StoredWithoutWrap(r, bytes);
    } else if r.pop > 0 {
      ScatterWrapped(r, bytes);
    } else {
      ScatterLast(d, Iovec(r.push, rear), bytes);
      StoredWithoutWrap(r, bytes);
    }
  }

  lemma ListedIsFree(r: Ring)
    requires r.Ok()
    ensures r.count <= |r.data| && r.push <= |r.data|
    ensures Total(FreePieces(|r.data|, r.count, r.push, r.pop)) == |r.data| - r.count
  {
    ScatterIsStored(r, []);
  }

  lemma ScatterWrapped(r: Ring, bytes: seq<byte>)
    requires r.Ok() && r.count + |bytes| <= |r.data| && r.pop <= r.push && r.count < |r.data|
    ensures var iov := [Iovec(r.push, |r.data| - r.push), Iovec(0, r.pop)];
            Total(iov) == |r.data| - r.count && Scattered(r.data, iov, bytes) == r.Stored(bytes)
  {
    hide Scattered, Total, Ring.Stored, Filled, Part;
    var v, w := Iovec(r.push, |r.data| - r.push), Iovec(0, r.pop);
    TotalOfTwo(v, w);
    TwoPieces(r, bytes);
    ScatterFirst(r.data, v, w, bytes);
    ScatterLast(Filled(r.data, v, bytes), w, bytes[Part(v, bytes)..]);
  }

  lemma ScatterNone(data: seq<byte>, bytes: seq<byte>)
    ensures Scattered(data, [], bytes) == data && Total([]) == 0
  {
  }

  lemma ScatterLast(data: seq<byte>, v: Iovec, bytes: seq<byte>)
    requires v.base + v.len <= |data| && |bytes| <= v.len
    ensures Total([v]) == v.len
    ensures Scattered(data, [v], bytes) == data[..v.base] + bytes + data[v.base + |bytes|..]
  {
    hide Filled;
    assert [v][1..] == [];
    FilledWhole(data, v, bytes);
    assert Scattered(data, [v], bytes) == Scattered(Filled(data, v, bytes), [], bytes[Part(v, bytes)..]);
  }

  lemma FilledWhole(data: seq<byte>, v: Iovec, bytes: seq<byte>)
    requires v.base + v.len <= |data| && |bytes| <= v.len
    ensures Filled(data, v, bytes) == data[..v.base] + bytes + data[v.base + |bytes|..]
  {
    assert bytes[..|bytes|] == bytes;
  }

  lemma ScatterFirst(data: seq<byte>, v: Iovec, w: Iovec, bytes: seq<byte>)
    requires v.base + v.len <= |data| && w.base + w.len <= |data|
    ensures Scattered(data, [v, w], bytes) == Scattered(Filled(data, v, bytes), [w], bytes[Part(v, bytes)..])
  {
    hide Filled, Part;
    assert [v, w][1..] == [w];
  }

  lemma TotalOfTwo(v: Iovec, w: Iovec)
    ensures Total([v, w]) == v.len + w.len
  {
    assert [v, w][1..] == [w] && [w][1..] == [];
    assert Total([v, w]) == v.len + Total([w]) && Total([w]) == w.len + Total([]);
  }

  lemma StoredWithoutWrap(r: Ring, bytes: seq<byte>)
    requires r.push + |bytes| <= |r.data|
    ensures r.Stored(bytes) == r.data[..r.push] + bytes + r.data[r.push + |bytes|..]
  {
  }

  lemma TwoPieces(r: Ring, bytes: seq<byte>)
    requires r.Ok() && r.count + |bytes| <= |r.data| && r.pop <= r.push && r.count < |r.data|
    ensures var v := Iovec(r.push, |r.data| - r.push);
            var rest, first := bytes[Part(v, bytes)..], Filled(r.data, v, bytes);
            |rest| <= r.pop && first[..0] + rest + first[|rest|..] == r.Stored(bytes)
  {
    var rear := |r.data| - r.push;
    if |bytes| <= rear {
      assert bytes[..|bytes|] == bytes && bytes[|bytes|..] == [];
    } else {
      assert (r.data[..r.push] + bytes[..rear])[|bytes| - rear..] == r.data[|bytes| - rear..r.push] + bytes[..rear];
    }
  }

  // ---------- chains ----------

  /** Only the head may start at an offset; strictly interior rings are full; only a lone ring may be empty. */
  ghost predicate ChainOk(cap: nat, c: seq<Ring>) {
    && |c| >= 1
    && (forall i :: 0 <= i < |c| ==> |c[i].data| == cap && c[i].Ok())
    && (|c| > 1 ==> c[0].count > 0)
    && (forall i :: 0 < i < |c| ==> c[i].pop == 0 && c[i].count > 0)
    && (forall i :: 0 < i < |c| - 1 ==> c[i].count == cap)
  }

  /** The bytes held by a chain, oldest first. */
  function Stream(c: seq<Ring>): seq<byte> {
    if c == [] then [] else c[0].Content() + Stream(c[1..])
  }

  /** The sum of the counts. */
  function Held(c: seq<Ring>): nat {
    if c == [] then 0 else c[0].count + Held(c[1..])
  }

  /** The chain after its `n` oldest bytes are consumed: used-up rings go, except that the last ring stays. */
  function Consume(c: seq<Ring>, n: nat): (r: seq<Ring>)
    requires |c| >= 1
    ensures |r| >= 1
    decreases |c|
  {
    if n < c[0].count then [c[0].Advance(n)] + c[1..]
    else if |c| == 1 then [c[0].Emptied()]
    else if n == c[0].count then c[1..]
    else Consume(c[1..], n - c[0].count)
  }

  lemma {:induction false} HeldIsLength(cap: nat, c: seq<Ring>)
    requires ChainOk(cap, c)
    ensures Held(c) == |Stream(c)|
    decreases |c|
  {
    OkContentLength(c[0]);
    if |c| > 1 {
      HeldIsLength(cap, c[1..]);
    } else {
      assert Stream(c[1..]) == [] && Held(c[1..]) == 0;
    }
  }

  lemma ChainTail(cap: nat, c: seq<Ring>)
    requires ChainOk(cap, c) && |c| > 1
    ensures ChainOk(cap, c[1..])
    ensures |Stream(c)| == c[0].count + |Stream(c[1..])|
  {
    OkContentLength(c[0]);
  }

  /** Swapping in another nonempty head. */
  lemma ReplaceHead(cap: nat, c: seq<Ring>, r: Ring)
    requires ChainOk(cap, c) && r.Ok() && |r.data| == cap && r.count > 0
    ensures ChainOk(cap, [r] + c[1..])
    ensures Stream([r] + c[1..]) == r.Content() + Stream(c[1..])
  {
    assert ([r] + c[1..])[1..] == c[1..];
  }

  lemma LoneStream(r: Ring)
    ensures Stream([r]) == r.Content()
  {
    assert [r][1..] == [];
  }

  /** Consuming is exactly FIFO and keeps the chain invariant, for every amount up to all of it. */
  lemma {:induction false} ConsumeIsFifo(cap: nat, c: seq<Ring>, n: nat)
    requires ChainOk(cap, c) && n <= |Stream(c)|
    ensures ChainOk(cap, Consume(c, n))
    ensures Stream(Consume(c, n)) == Stream(c)[n..]
    decreases |c|
  {
    var r := c[0];
    OkContentLength(r);
    DropConcat(r.Content(), Stream(c[1..]), n);
    if n < r.count {
      AdvanceContent(r, n);
      ReplaceHead(cap, c, r.Advance(n));
    } else if |c| == 1 {
      assert Stream(c[1..]) == [];
      LoneStream(r.Emptied());
    } else {
      ChainTail(cap, c);
      if n > r.count {
        ConsumeIsFifo(cap, c[1..], n - r.count);
      }
    }
  }
}
