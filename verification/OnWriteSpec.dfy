/**
  `onWrite` as written, as a whole call: its loop goes round again whenever all that should have been
  offered was accepted, whether or not anything is left, and keeps a drained second buffer as the head.
  The states it can leave and be entered on, what it then sends, and exactly when that is right.
 */
module OnWriteSpec {
  import opened ReadSpec
  import opened Rings
  import opened Seqs
  import opened WriteSpec

  /** A head without content, in whatever position its bytes were used up, before a well-formed rest. */
  ghost predicate Drained(cap: nat, c: seq<Ring>) {
    && |c| >= 1 && |c[0].data| == cap && c[0].count == 0 && c[0].pop <= cap && c[0].push <= cap
    && (|c| > 1 ==> ChainOk(cap, c[1..]) && c[1].count > 0 && c[1].pop == 0)
  }

  /** The chains on which a round can start: every well-formed one, and what earlier rounds leave. */
  ghost predicate LoopOk(cap: nat, c: seq<Ring>) {
    cap > 0 && (Drained(cap, c) || (ChainOk(cap, c) && c[0].count > 0))
  }

  lemma LoopSafe(cap: nat, c: seq<Ring>)
    requires LoopOk(cap, c)
    ensures ChainSafe(cap, c) && (|c| > 1 ==> c[1].count <= |c[1].data| && 0 < c[1].count)
  {
    if c[0].count == 0 && |c| > 1 {
      assert forall i :: 0 < i < |c| ==> c[i] == c[1..][i - 1];
    }
  }

  /** What `writev` takes of the bytes listed. */
  function Taken(cap: nat, c: seq<Ring>, accept: nat): (n: nat)
    requires LoopOk(cap, c)
    ensures ChainSafe(cap, c) && (|c| > 1 ==> c[1].count <= |c[1].data|) && n <= |Gather(c)|
  {
    LoopSafe(cap, c);
    if accept < |Gather(c)| then accept else |Gather(c)|
  }

  lemma PassKeepsLoop(cap: nat, c: seq<Ring>, n: nat)
    requires LoopOk(cap, c)
    ensures LoopOk(cap, PassAsWritten(c, n))
  {
    LoopSafe(cap, c);
    if n < c[0].count {
      AdvanceContent(c[0], n);
      ReplaceHead(cap, c, c[0].Advance(n));
    } else if n <= Pending(c) && |c| > 1 {
      RestOk(cap, c);
      if n > c[0].count { FrontTaken(cap, c[1..], n - c[0].count); }
    }
  }

  lemma RestOk(cap: nat, c: seq<Ring>)
    requires LoopOk(cap, c) && |c| > 1
    ensures ChainOk(cap, c[1..]) && c[1..][0] == c[1] && c[1].count > 0 && c[1].pop == 0 && c[1..][1..] == c[2..]
    ensures Stream(c) == c[0].Content() + Stream(c[1..])
  {
  }

  /** Part or all of a buffer that starts at offset 0 is sent. */
  lemma FrontTaken(cap: nat, c: seq<Ring>, n: nat)
    requires cap > 0 && ChainOk(cap, c) && c[0].pop == 0 && 0 < n <= c[0].count
    ensures var d := [c[0].(pop := n, count := c[0].count - n)] + c[1..];
            LoopOk(cap, d) && Stream(d) == Stream(c)[n..]
  {
    var d := [c[0].(pop := n, count := c[0].count - n)] + c[1..];
    assert d[1..] == c[1..];
    OkContentLength(c[0]);
    DropConcat(c[0].Content(), Stream(c[1..]), n);
    if n < c[0].count {
      AdvanceContent(c[0], n);
      assert d[0] == c[0].Advance(n);
      ReplaceHead(cap, c, d[0]);
    } else {
      assert d[0].Content() == [];
      if |c| > 1 { ChainTail(cap, c); }
    }
  }

  // ---------- one call ----------

  /** The loop: `accepts[i]` is what the i-th `writev` accepts at most, negative on an error, and past the
      end of the script it fails.  Only a transfer of exactly `size` goes round again. */
  function FlushAsWritten(cap: nat, r: WriteRun, accepts: seq<int>): (q: WriteRun)
    requires LoopOk(cap, r.chain)
    ensures LoopOk(cap, q.chain) && q.submitted == r.submitted && r.sent <= q.sent
    decreases |accepts|
  {
    if accepts == [] || accepts[0] < 0 then r
    else
      var n := Taken(cap, r.chain, accepts[0]);
      PassKeepsLoop(cap, r.chain, n);
      var q := WriteRun(PassAsWritten(r.chain, n), r.submitted, r.sent + Gather(r.chain)[..n]);
      if n == Pending(r.chain) then FlushAsWritten(cap, q, accepts[1..]) else q
  }

  /** `onWrite` as written; emptiness is tested once. */
  function OnWriteAsWritten(cap: nat, r: WriteRun, accepts: seq<int>): (q: WriteRun)
    requires LoopOk(cap, r.chain)
    ensures LoopOk(cap, q.chain)
  {
    if Held(r.chain) == 0 then r else FlushAsWritten(cap, r, accepts)
  }

  /** A round that starts on an empty head lists what is stored around it, and some of that is accepted. */
  predicate StaleRound(c: seq<Ring>, n: nat)
    requires |c| >= 1 && c[0].pop <= |c[0].data| && c[0].push <= |c[0].data|
    requires c[0].pop < c[0].push ==> c[0].pop + c[0].count <= |c[0].data|
  {
    c[0].count == 0 && GatherHead(c[0]) != [] && n > 0
  }

  /** Some round of the loop is such a round: visible from the buffers' fields and the kernel's answers. */
  predicate AcceptsStale(cap: nat, c: seq<Ring>, accepts: seq<int>)
    requires LoopOk(cap, c)
    decreases |accepts|
  {
    accepts != [] && accepts[0] >= 0 && (
      var n := Taken(cap, c, accepts[0]);
      PassKeepsLoop(cap, c, n);
      StaleRound(c, n) || (n == Pending(c) && AcceptsStale(cap, PassAsWritten(c, n), accepts[1..])))
  }

  /** What was sent and what is left are what was queued, in order. */
  predicate Conserves(cap: nat, c: seq<Ring>, accepts: seq<int>)
    requires LoopOk(cap, c)
  {
    var q := OnWriteAsWritten(cap, WriteRun(c, [], []), accepts);
    q.sent + Stream(q.chain) == Stream(c)
  }

  // ---------- right rounds ----------

  /** The bytes listed are the head's stale ones, or its content, and then the next buffer's content. */
  lemma GatherSplits(cap: nat, c: seq<Ring>)
    requires LoopOk(cap, c)
    ensures ChainSafe(cap, c) && (|c| > 1 ==> c[1].count <= |c[1].data|)
    ensures |c| > 1 ==> c[1].data[..c[1].count] == c[1].Content() && |c[1].Content()| == c[1].count
    ensures c[0].count > 0 ==> GatherHead(c[0]) == c[0].Content() && |c[0].Content()| == c[0].count
    ensures c[0].count == 0 ==> c[0].Content() == []
  {
    LoopSafe(cap, c);
    if |c| > 1 {
      RestOk(cap, c);
      LaterContent(c[1]);
    }
    if c[0].count > 0 {
      GatherHeadIsContent(c[0]);
      OkContentLength(c[0]);
    }
  }

  lemma LaterContent(r: Ring)
    requires r.Ok() && r.pop == 0
    ensures r.data[..r.count] == r.Content() && |r.Content()| == r.count
  {
  }

  /** `size` bytes are there to be sent. */
  lemma PendingThere(cap: nat, c: seq<Ring>)
    requires LoopOk(cap, c)
    ensures Pending(c) <= |Stream(c)|
    ensures c[0].count == 0 ==> Stream(c)[..Pending(c)] == if |c| > 1 then c[1].data[..c[1].count] else []
  {
    hide Ring.Content, Stream;
    GatherSplits(cap, c);
    SplitStream(c);
    if |c| > 1 {
      RestOk(cap, c);
      SplitStream(c[1..]);
      var x := c[1].Content();
      assert (x + Stream(c[2..]))[..|x|] == x;
      if c[0].count == 0 { assert [] + Stream(c[1..]) == Stream(c[1..]); }
    }
  }

  lemma OfferedRight(cap: nat, c: seq<Ring>, n: nat)
    requires LoopOk(cap, c)
    requires ChainSafe(cap, c) && (|c| > 1 ==> c[1].count <= |c[1].data|) && n <= |Gather(c)| && !StaleRound(c, n)
    ensures n <= Pending(c) <= |Stream(c)| && Gather(c)[..n] == Stream(c)[..n]
  {
    PendingThere(cap, c);
    if c[0].count > 0 {
      GatherIsPrefix(cap, c);
    } else if n > 0 {
      hide Stream;
      assert Gather(c) == if |c| > 1 then c[1].data[..c[1].count] else [];
      assert Stream(c)[..Pending(c)][..n] == Stream(c)[..n];
    }
  }

  lemma LiveHead(cap: nat, c: seq<Ring>)
    requires LoopOk(cap, c) && c[0].count > 0
    ensures ChainOk(cap, c) && c[0].Ok() && |c[0].data| == cap
  {
  }

  lemma HeadTakes(cap: nat, c: seq<Ring>, n: nat)
    requires LoopOk(cap, c) && n < c[0].count
    ensures n <= |Stream(c)| && Stream(PassAsWritten(c, n)) == Stream(c)[n..]
  {
    hide Ring.Content, Stream, LoopOk, Ring.Ok;
    LiveHead(cap, c);
    OkContentLength(c[0]);
    AdvanceContent(c[0], n);
    SplitStream(c);
    DropConcat(c[0].Content(), Stream(c[1..]), n);
    ReplaceHead(cap, c, c[0].Advance(n));
  }

  lemma NextTakes(cap: nat, c: seq<Ring>, n: nat)
    requires LoopOk(cap, c) && |c| > 1 && c[0].count <= n <= Pending(c)
    ensures n <= |Stream(c)| && Stream(PassAsWritten(c, n)) == Stream(c)[n..]
  {
    hide Ring.Content, Stream, LoopOk, ChainOk, Ring.Ok;
    StaleBounds(cap, c);
    GatherSplits(cap, c);
    PendingThere(cap, c);
    SplitStream(c);
    DropConcat(c[0].Content(), Stream(c[1..]), n);
    if n > c[0].count {
      RestOk(cap, c);
      FrontTaken(cap, c[1..], n - c[0].count);
    }
  }

  /** Whatever was sent for it, a round takes exactly `n` bytes off the stream, if there are that many. */
  lemma RoundTakes(cap: nat, c: seq<Ring>, n: nat)
    requires LoopOk(cap, c) && n <= Pending(c)
    ensures n <= |Stream(c)| && Stream(PassAsWritten(c, n)) == Stream(c)[n..]
  {
    hide Ring.Content, Stream, LoopOk;
    StaleBounds(cap, c);
    if n < c[0].count {
      HeadTakes(cap, c, n);
    } else if |c| > 1 {
      NextTakes(cap, c, n);
    } else {
      GatherSplits(cap, c);
      LoneStream(c[0]);
      LoneStream(c[0].Emptied());
      assert c == [c[0]];
      EmptiedContent(c[0]);
    }
  }

  lemma EmptiedContent(r: Ring)
    ensures r.Emptied().Content() == []
  {
  }

  /** A round in which nothing stale is accepted sends a prefix of the stream and leaves the rest. */
  lemma RightRound(cap: nat, c: seq<Ring>, n: nat)
    requires LoopOk(cap, c)
    requires ChainSafe(cap, c) && (|c| > 1 ==> c[1].count <= |c[1].data|) && n <= |Gather(c)| && !StaleRound(c, n)
    ensures n <= Pending(c) <= |Stream(c)| && Gather(c)[..n] == Stream(c)[..n]
    ensures Stream(PassAsWritten(c, n)) == Stream(c)[n..]
  {
    hide LoopOk, Stream, ChainSafe, PassAsWritten, Gather, GatherHead;
    OfferedRight(cap, c, n);
    RoundTakes(cap, c, n);
  }

  lemma SplitStream(c: seq<Ring>)
    requires |c| >= 1
    ensures Stream(c) == c[0].Content() + Stream(c[1..])
  {
  }

  lemma {:induction false} RightCall(cap: nat, r: WriteRun, accepts: seq<int>)
    requires LoopOk(cap, r.chain) && !AcceptsStale(cap, r.chain, accepts)
    ensures var q := FlushAsWritten(cap, r, accepts); q.sent + Stream(q.chain) == r.sent + Stream(r.chain)
    decreases |accepts|
  {
    hide LoopOk, Stream, ChainSafe, PassAsWritten, Gather, GatherHead, Pending;
    var c := r.chain;
    if accepts != [] && accepts[0] >= 0 {
      var n := Taken(cap, c, accepts[0]);
      StaleBounds(cap, c);
      RightRound(cap, c, n);
      PassKeepsLoop(cap, c, n);
      var q := WriteRun(PassAsWritten(c, n), r.submitted, r.sent + Gather(c)[..n]);
      TakeDrop(Stream(c), n);
      ConcatAssoc(r.sent, Stream(c)[..n], Stream(c)[n..]);
      if n == Pending(c) { RightCall(cap, q, accepts[1..]); }
    }
  }

  /** On a nonempty head, what the first answer brings about: nothing on an error; a shorter answer than the
      bytes of the head and the next buffer ends the call with exactly that many sent; a full one sends all
      of those and goes round again. */
  lemma FirstAnswer(cap: nat, r: WriteRun, accepts: seq<int>)
    requires LoopOk(cap, r.chain) && |r.chain| >= 1 && r.chain[0].count > 0
    ensures var c := r.chain; var q := FlushAsWritten(cap, r, accepts);
            var size := c[0].count + if |c| > 1 then c[1].count else 0;
            size <= |Stream(c)| &&
            if accepts == [] || accepts[0] < 0 then q == r
            else if accepts[0] < size then
              q.sent == r.sent + Stream(c)[..accepts[0]] && Stream(q.chain) == Stream(c)[accepts[0]..]
            else
              var d := PassAsWritten(c, size);
              LoopOk(cap, d) && Stream(d) == Stream(c)[size..]
              && q == FlushAsWritten(cap, WriteRun(d, r.submitted, r.sent + Stream(c)[..size]), accepts[1..])
  {
    hide LoopOk, Stream, ChainSafe, PassAsWritten, GatherHead;
    var c := r.chain;
    StaleBounds(cap, c);
    PendingThere(cap, c);
    LiveHead(cap, c);
    GatherIsPrefix(cap, c);
    if accepts != [] && accepts[0] >= 0 {
      var n := Taken(cap, c, accepts[0]);
      RightRound(cap, c, n);
      PassKeepsLoop(cap, c, n);
    }
  }

  lemma StaleBounds(cap: nat, c: seq<Ring>)
    requires LoopOk(cap, c)
    ensures |c| >= 1 && c[0].pop <= |c[0].data| && c[0].push <= |c[0].data| && ChainSafe(cap, c)
    ensures c[0].pop < c[0].push ==> c[0].pop + c[0].count <= |c[0].data|
  {
    LoopSafe(cap, c);
  }

  // ---------- wrong rounds ----------

  /** Chains that differ only in what is stored. */
  predicate SameShape(c: seq<Ring>, d: seq<Ring>) {
    |c| == |d| && forall i :: 0 <= i < |c| ==>
      |c[i].data| == |d[i].data| && c[i].count == d[i].count && c[i].push == d[i].push && c[i].pop == d[i].pop
  }

  predicate AllOf(s: seq<byte>, b: byte) {
    forall j :: 0 <= j < |s| ==> s[j] == b
  }

  /** Every buffer holds one byte throughout, and neighbours different ones; so does the whole storage of
      those that may yet be, or are, drained with another behind them. */
  predicate Painted(k: nat, c: seq<Ring>) {
    forall i :: 0 <= i < |c| ==>
      AllOf(c[i].Content(), Shade(k + i))
      && (i < |c| - 1 && (i > 0 || c[i].count == 0) ==> AllOf(c[i].data, Shade(k + i)))
  }

  function Shade(i: nat): byte {
    if i % 2 == 0 then 0 else 1
  }

  /** The chain of the same shape with every buffer full of its byte. */
  function Paint(c: seq<Ring>): (d: seq<Ring>)
    ensures SameShape(c, d) && Painted(0, d)
  {
    seq(|c|, i requires 0 <= i < |c| => c[i].(data := seq(|c[i].data|, _ => Shade(i))))
  }

  lemma ShapeKeepsLoop(cap: nat, c: seq<Ring>, d: seq<Ring>)
    requires LoopOk(cap, c) && SameShape(c, d)
    ensures LoopOk(cap, d)
    ensures ChainSafe(cap, c) && ChainSafe(cap, d)
    ensures (|c| > 1 ==> c[1].count <= |c[1].data| && d[1].count <= |d[1].data|)
    ensures |GatherHead(c[0])| == |GatherHead(d[0])| && |Gather(c)| == |Gather(d)| && Pending(c) == Pending(d)
  {
    LoopSafe(cap, c);
    assert forall i :: 0 <= i < |c| ==> c[i].Ok() == d[i].Ok();
    if c[0].count == 0 && |c| > 1 {
      assert forall i :: 0 <= i < |c| - 1 ==> c[1..][i] == c[i + 1] && d[1..][i] == d[i + 1];
      assert ChainOk(cap, d[1..]);
    }
    LoopSafe(cap, d);
  }

  lemma PassKeepsShape(c: seq<Ring>, d: seq<Ring>, n: nat)
    requires |c| >= 1 && SameShape(c, d)
    ensures SameShape(PassAsWritten(c, n), PassAsWritten(d, n))
  {
  }

  lemma {:induction false} HeldByShape(c: seq<Ring>, d: seq<Ring>)
    requires SameShape(c, d)
    ensures Held(c) == Held(d)
    decreases |c|
  {
    if c != [] { HeldByShape(c[1..], d[1..]); }
  }

  /** Whether stale bytes are accepted does not depend on what is stored. */
  lemma {:induction false} StaleByShape(cap: nat, c: seq<Ring>, d: seq<Ring>, accepts: seq<int>)
    requires LoopOk(cap, c) && LoopOk(cap, d) && SameShape(c, d)
    ensures AcceptsStale(cap, c, accepts) == AcceptsStale(cap, d, accepts)
    decreases |accepts|
  {
    hide LoopOk, ChainSafe, Gather, GatherHead, Pending, PassAsWritten;
    ShapeKeepsLoop(cap, c, d);
    StaleBounds(cap, c);
    StaleBounds(cap, d);
    if accepts != [] && accepts[0] >= 0 {
      var n := Taken(cap, c, accepts[0]);
      assert n == Taken(cap, d, accepts[0]);
      assert StaleRound(c, n) == StaleRound(d, n);
      PassKeepsLoop(cap, c, n);
      PassKeepsLoop(cap, d, n);
      PassKeepsShape(c, d, n);
      StaleByShape(cap, PassAsWritten(c, n), PassAsWritten(d, n), accepts[1..]);
    }
  }

  lemma PassKeepsPaint(cap: nat, k: nat, c: seq<Ring>, n: nat) returns (l: nat)
    requires LoopOk(cap, c) && Painted(k, c)
    ensures Painted(l, PassAsWritten(c, n))
  {
    hide LoopOk, ChainOk, ChainSafe, Ring.Content, Ring.Ok, Shade;
    StaleBounds(cap, c);
    l := k;
    if n < c[0].count {
      LiveHead(cap, c);
      OkContentLength(c[0]);
      AdvanceContent(c[0], n);
      NewHeadPainted(k, c, c[0].Advance(n));
    } else if n <= Pending(c) && |c| > 1 {
      l := k + 1;
      RestOk(cap, c);
      RestPainted(k, c);
      var m := n - c[0].count;
      DrainedContent(c[1], m);
      NewHeadPainted(l, c[1..], c[1].(pop := m, count := c[1].count - m));
    } else {
      EmptiedContent(c[0]);
    }
  }

  lemma RestPainted(k: nat, c: seq<Ring>)
    requires |c| > 1 && Painted(k, c)
    ensures Painted(k + 1, c[1..]) && (|c| > 2 ==> AllOf(c[1].data, Shade(k + 1)))
  {
    hide Shade, AllOf, Ring.Content;
    forall i | 0 <= i < |c| - 1
      ensures AllOf(c[1..][i].Content(), Shade(k + 1 + i))
      ensures i < |c| - 2 ==> AllOf(c[1..][i].data, Shade(k + 1 + i))
    {
      assert c[1..][i] == c[i + 1] && k + 1 + i == k + (i + 1);
    }
  }

  lemma NewHeadPainted(k: nat, c: seq<Ring>, r: Ring)
    requires |c| >= 1 && Painted(k, c)
    requires AllOf(r.Content(), Shade(k)) && (|c| > 1 && r.count == 0 ==> AllOf(r.data, Shade(k)))
    ensures Painted(k, [r] + c[1..])
  {
    hide Shade, AllOf, Ring.Content;
    assert forall i :: 0 < i < |c| ==> ([r] + c[1..])[i] == c[i];
  }

  lemma DrainedContent(r: Ring, n: nat)
    requires r.Ok() && r.pop == 0 && n <= r.count
    ensures |r.Content()| == r.count && r.(pop := n, count := r.count - n).Content() == r.Content()[n..]
  {
  }

  lemma Shades(k: nat)
    ensures Shade(k) != Shade(k + 1)
  {
  }

  lemma StaleFromHead(r: Ring)
    requires r.pop <= |r.data| && r.push <= |r.data| && (r.pop < r.push ==> r.pop + r.count <= |r.data|)
    ensures forall j :: 0 <= j < |GatherHead(r)| ==> GatherHead(r)[j] in r.data
    ensures GatherHead(r) != [] ==> |r.data| > 0
  {
    var h := GatherHead(r);
    forall j | 0 <= j < |h|
      ensures h[j] in r.data
    {
      if r.pop < r.push { assert h[j] == r.data[r.pop + j]; }
      else if j < |r.data| - r.pop { assert h[j] == r.data[r.pop + j]; }
      else { assert h[j] == r.data[j - (|r.data| - r.pop)]; }
    }
  }

  /** On such a chain the first stale byte accepted is not the next byte of the stream. */
  lemma StaleByte(cap: nat, k: nat, c: seq<Ring>, n: nat)
    requires LoopOk(cap, c) && Painted(k, c)
    requires ChainSafe(cap, c) && (|c| > 1 ==> c[1].count <= |c[1].data|) && n <= |Gather(c)| && StaleRound(c, n)
    ensures n <= Pending(c) ==> |Stream(c)| > 0 && Gather(c)[0] != Stream(c)[0]
  {
    PendingThere(cap, c);
    hide Stream, Shade, GatherHead, Ring.Content;
    if n <= Pending(c) {
      StaleFromHead(c[0]);
      GatherSplits(cap, c);
      assert AllOf(c[0].data, Shade(k)) && AllOf(c[1].Content(), Shade(k + 1));
      assert Gather(c)[0] == GatherHead(c[0])[0];
      Shades(k);
      assert Stream(c)[0] == Stream(c)[..Pending(c)][0] == c[1].Content()[0];
    }
  }

  /** More bytes are sent or left than there should be, or a wrong one was sent. */
  ghost predicate Astray(q: WriteRun, all: seq<byte>) {
    |q.sent| + |Stream(q.chain)| > |all|
    || exists i :: 0 <= i < |q.sent| && i < |all| && q.sent[i] != all[i]
  }

  lemma AstrayIsWrong(q: WriteRun, all: seq<byte>)
    requires Astray(q, all)
    ensures q.sent + Stream(q.chain) != all
  {
  }

  lemma {:induction false} WrongCall(cap: nat, k: nat, r: WriteRun, accepts: seq<int>)
    requires LoopOk(cap, r.chain) && Painted(k, r.chain) && AcceptsStale(cap, r.chain, accepts)
    ensures Astray(FlushAsWritten(cap, r, accepts), r.sent + Stream(r.chain))
    decreases |accepts|
  {
    hide LoopOk, Stream, ChainSafe, PassAsWritten, Gather, GatherHead, Painted;
    var c := r.chain;
    var n := Taken(cap, c, accepts[0]);
    StaleBounds(cap, c);
    PassKeepsLoop(cap, c, n);
    var q := WriteRun(PassAsWritten(c, n), r.submitted, r.sent + Gather(c)[..n]);
    var p := FlushAsWritten(cap, r, accepts);
    if StaleRound(c, n) {
      StaleByte(cap, k, c, n);
      if n > Pending(c) {
        TooMuch(c, n);
        assert |p.sent| == |r.sent| + n && p.chain == c;
      } else {
        assert q.sent <= p.sent;
        assert p.sent[|r.sent|] == q.sent[|r.sent|] == Gather(c)[0];
        assert (r.sent + Stream(c))[|r.sent|] == Stream(c)[0];
      }
    } else {
      RightRound(cap, c, n);
      var l := PassKeepsPaint(cap, k, c, n);
      WrongCall(cap, l, q, accepts[1..]);
      TakeDrop(Stream(c), n);
      ConcatAssoc(r.sent, Stream(c)[..n], Stream(c)[n..]);
    }
  }

  lemma TooMuch(c: seq<Ring>, n: nat)
    requires |c| >= 1 && n > Pending(c)
    ensures PassAsWritten(c, n) == c
  {
  }

  lemma LoopHeld(cap: nat, c: seq<Ring>)
    requires LoopOk(cap, c)
    ensures Held(c) == |Stream(c)|
  {
    GatherSplits(cap, c);
    if c[0].count > 0 {
      HeldIsLength(cap, c);
    } else if |c| > 1 {
      HeldIsLength(cap, c[1..]);
    } else {
      assert Held(c[1..]) == 0 && Stream(c[1..]) == [];
    }
  }

  /** `writeSize_` stays the number of bytes held. */
  lemma RoundHeld(cap: nat, c: seq<Ring>, n: nat)
    requires LoopOk(cap, c)
    ensures if n <= Pending(c) then Held(c) >= n && Held(PassAsWritten(c, n)) == Held(c) - n
            else PassAsWritten(c, n) == c
  {
    hide LoopOk, Stream, Held, PassAsWritten;
    StaleBounds(cap, c);
    if n <= Pending(c) {
      PassKeepsLoop(cap, c, n);
      RoundTakes(cap, c, n);
      LoopHeld(cap, c);
      LoopHeld(cap, PassAsWritten(c, n));
    } else {
      TooMuch(c, n);
    }
  }

  /** `onWrite` as written, on every well-formed chain and every chain that an earlier `onWrite` left, and
      for every series of answers of the kernel: for all contents the bytes sent and the bytes left are the
      bytes queued, in order, exactly when in no round on an empty head stale bytes are accepted. */
  lemma OnWriteKeepsOrderIff(cap: nat, c: seq<Ring>, accepts: seq<int>)
    requires LoopOk(cap, c)
    ensures (forall d :: LoopOk(cap, d) && SameShape(c, d) ==> Conserves(cap, d, accepts))
       <==> Held(c) == 0 || !AcceptsStale(cap, c, accepts)
  {
    hide LoopOk, Stream, SameShape, FlushAsWritten, AcceptsStale, Painted;
    forall d | LoopOk(cap, d) && SameShape(c, d)
      ensures Held(c) == 0 || !AcceptsStale(cap, c, accepts) ==> Conserves(cap, d, accepts)
    {
      HeldByShape(c, d);
      StaleByShape(cap, c, d, accepts);
      assert [] + Stream(d) == Stream(d);
      if !AcceptsStale(cap, d, accepts) { RightCall(cap, WriteRun(d, [], []), accepts); }
    }
    var d := Paint(c);
    ShapeKeepsLoop(cap, c, d);
    HeldByShape(c, d);
    StaleByShape(cap, c, d, accepts);
    assert [] + Stream(d) == Stream(d);
    if Held(c) > 0 && AcceptsStale(cap, c, accepts) {
      WrongCall(cap, 0, WriteRun(d, [], []), accepts);
      AstrayIsWrong(FlushAsWritten(cap, WriteRun(d, [], []), accepts), [] + Stream(d));
      assert !Conserves(cap, d, accepts);
    }
  }

  /** If every round takes all that should have been offered, the buffers run out, and then one more byte
      accepted is a stale one. */
  lemma {:induction false} BreakingAnswers(cap: nat, c: seq<Ring>) returns (accepts: seq<int>)
    requires LoopOk(cap, c)
    ensures AcceptsStale(cap, c, accepts)
    decreases |c|, if c[0].count == 0 && StaleHead(c) then 0 else 1
  {
    hide LoopOk, GatherHead, ChainSafe;
    StaleBounds(cap, c);
    OfferedLength(cap, c);
    if c[0].count == 0 && StaleHead(c) {
      accepts := [1];
    } else {
      var n := Pending(c);
      PassKeepsLoop(cap, c, n);
      DrainedNext(cap, c);
      var rest := BreakingAnswers(cap, PassAsWritten(c, n));
      accepts := [n] + rest;
      assert accepts[1..] == rest;
    }
  }

  /** There are bytes around an empty head. */
  predicate StaleHead(c: seq<Ring>) {
    |c| > 0 && c[0].pop <= |c[0].data| && c[0].push <= |c[0].data|
    && (c[0].pop < c[0].push ==> c[0].pop + c[0].count <= |c[0].data|) && GatherHead(c[0]) != []
  }

  lemma OfferedLength(cap: nat, c: seq<Ring>)
    requires LoopOk(cap, c)
    ensures ChainSafe(cap, c) && (|c| > 1 ==> c[1].count <= |c[1].data|)
    ensures c[0].count > 0 || !StaleHead(c) ==> |Gather(c)| == Pending(c)
    ensures StaleHead(c) ==> |Gather(c)| >= 1
  {
    hide GatherHead, Ring.Content;
    GatherSplits(cap, c);
    StaleBounds(cap, c);
  }

  /** One buffer less, or a lone one that is reset. */
  lemma DrainedNext(cap: nat, c: seq<Ring>)
    requires LoopOk(cap, c)
    ensures var d := PassAsWritten(c, Pending(c));
            |d| < |c| || (|d| == |c| && d[0].count == 0 && StaleHead(d))
  {
    LoopSafe(cap, c);
  }

  /** So whatever is queued, some answers of the kernel break the order: as written, `onWrite` is right for
      all answers and contents exactly when it has nothing to do. */
  lemma OnWriteAlwaysRightIff(cap: nat, c: seq<Ring>)
    requires LoopOk(cap, c)
    ensures (forall accepts: seq<int>, d :: LoopOk(cap, d) && SameShape(c, d) ==> Conserves(cap, d, accepts))
       <==> Held(c) == 0
  {
    hide LoopOk, SameShape, Conserves, AcceptsStale, Held;
    if Held(c) == 0 {
      forall accepts: seq<int>, d | LoopOk(cap, d) && SameShape(c, d)
        ensures Conserves(cap, d, accepts)
      {
        OnWriteKeepsOrderIff(cap, c, accepts);
      }
    } else {
      var accepts := BreakingAnswers(cap, c);
      OnWriteKeepsOrderIff(cap, c, accepts);
    }
  }

  const TWO_FULL := [Ring([1, 2, 3, 4], 4, 0, 0), Ring([5, 6, 7, 8], 4, 0, 0)]
  const SECOND_DRAINED := [Ring([5, 6, 7, 8], 0, 0, 4)]
  const SECOND_RESET := [Ring([5, 6, 7, 8], 0, 0, 0)]

  lemma ThreeRounds()
    ensures ChainOk(4, TWO_FULL) && LoopOk(4, TWO_FULL) && LoopOk(4, SECOND_DRAINED) && LoopOk(4, SECOND_RESET)
    ensures ChainSafe(4, TWO_FULL) && ChainSafe(4, SECOND_DRAINED) && ChainSafe(4, SECOND_RESET)
    ensures Gather(TWO_FULL) == [1, 2, 3, 4, 5, 6, 7, 8] && Pending(TWO_FULL) == 8 && TWO_FULL[0].count > 0
    ensures PassAsWritten(TWO_FULL, 8) == SECOND_DRAINED
    ensures Gather(SECOND_DRAINED) == [] && Pending(SECOND_DRAINED) == 0
    ensures PassAsWritten(SECOND_DRAINED, 0) == SECOND_RESET
    ensures Gather(SECOND_RESET) == [5, 6, 7, 8] && Pending(SECOND_RESET) == 0
    ensures SECOND_RESET[0].count == 0 && GatherHead(SECOND_RESET[0]) == [5, 6, 7, 8]
  {
    assert TWO_FULL[2..] == [];
  }

  /** Two full buffers, the second topped up around to `push` 0: all eight bytes are accepted, the empty
      `writev` after that transfers nothing, and then the second buffer is offered again. */
  lemma OnWriteResendsSecondBuffer()
    ensures ChainOk(4, TWO_FULL) && LoopOk(4, TWO_FULL) && AcceptsStale(4, TWO_FULL, [8, 0, 4])
    ensures FlushAsWritten(4, WriteRun(TWO_FULL, [], []), [8, 0, 4]).sent == [1, 2, 3, 4, 5, 6, 7, 8, 5, 6, 7, 8]
  {
    hide Gather, GatherHead, Pending, PassAsWritten, LoopOk, ChainOk, ChainSafe;
    ThreeRounds();
    var out := [1, 2, 3, 4, 5, 6, 7, 8];
    assert [8, 0, 4][1..] == [0, 4] && [0, 4][1..] == [4];
    assert FlushAsWritten(4, WriteRun(SECOND_RESET, [], out), [4]).sent == out + [5, 6, 7, 8];
    assert AcceptsStale(4, SECOND_RESET, [4]);
    assert [] + out == out && out + [] == out;
    assert AcceptsStale(4, SECOND_DRAINED, [0, 4]);
  }
}
