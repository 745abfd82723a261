/** The binary heap of util/MinHeap.h, for any element type and any strict weak order. */
module MinHeaps {

  /** `comp` is irreflexive and transitive, and so is "neither is less". */
  ghost predicate StrictWeakOrder<T(!new)>(comp: (T, T) -> bool) {
    && (forall x :: !comp(x, x))
    && (forall x, y, z :: comp(x, y) && comp(y, z) ==> comp(x, z))
    && (forall x, y, z :: !comp(x, y) && !comp(y, z) ==> !comp(x, z))
  }

  function Parent(i: nat): nat
    requires i > 0
  {
    (i - 1) / 2
  }

  /** No element is less than its parent, `hole` aside as a child. */
  ghost predicate OrderedBut<T(!new)>(comp: (T, T) -> bool, h: seq<T>, hole: nat) {
    forall i :: 0 < i < |h| && i != hole ==> !comp(h[i], h[Parent(i)])
  }

  /** The children of `hole` are not less than its parent, so that swapping it up keeps them in order. */
  ghost predicate Bridged<T(!new)>(comp: (T, T) -> bool, h: seq<T>, hole: nat) {
    forall i :: 0 < i < |h| && Parent(i) == hole && hole > 0 ==> !comp(h[i], h[Parent(hole)])
  }

  /** No element is less than its parent, except for children of `hole`. */
  ghost predicate OrderedBelow<T(!new)>(comp: (T, T) -> bool, h: seq<T>, hole: nat) {
    forall i :: 0 < i < |h| && Parent(i) != hole ==> !comp(h[i], h[Parent(i)])
  }

  ghost predicate HeapOrdered<T(!new)>(comp: (T, T) -> bool, h: seq<T>) {
    OrderedBut(comp, h, 0)
  }

  function Swapped<T>(h: seq<T>, i: nat, j: nat): seq<T>
    requires i < |h| && j < |h|
  {
    h[i := h[j]][j := h[i]]
  }

  lemma SwapPermutes<T>(h: seq<T>, i: nat, j: nat)
    requires i < |h| && j < |h|
    ensures multiset(Swapped(h, i, j)) == multiset(h)
  {
  }

  /** The top of an ordered heap: nothing is less. */
  lemma {:induction false} TopIsLeast<T(!new)>(comp: (T, T) -> bool, h: seq<T>, i: nat)
    requires StrictWeakOrder(comp) && HeapOrdered(comp, h) && i < |h|
    ensures !comp(h[i], h[0])
    decreases i
  {
    if i > 0 {
      TopIsLeast(comp, h, Parent(i));
      assert !comp(h[i], h[Parent(i)]);
    }
  }

  /** One round of `siftup`. */
  lemma SwapUp<T(!new)>(comp: (T, T) -> bool, h: seq<T>, i: nat)
    requires StrictWeakOrder(comp) && 0 < i < |h| && comp(h[i], h[Parent(i)])
    requires OrderedBut(comp, h, i) && Bridged(comp, h, i)
    ensures var s := Swapped(h, Parent(i), i); OrderedBut(comp, s, Parent(i)) && Bridged(comp, s, Parent(i))
  {
    var p, s := Parent(i), Swapped(h, Parent(i), i);
    assert !comp(h[p], h[i]);
    forall k | 0 < k < |s| && k != p
      ensures !comp(s[k], s[Parent(k)])
    {
      if Parent(k) == p && k != i { assert !comp(h[k], h[p]); }
    }
    forall k | 0 < k < |s| && Parent(k) == p && p > 0
      ensures !comp(s[k], s[Parent(p)])
    {
      assert !comp(h[p], h[Parent(p)]);
      if k != i { assert !comp(h[k], h[p]); }
    }
  }

  /** One round of `siftdown`, with the lesser child. */
  lemma SwapDown<T(!new)>(comp: (T, T) -> bool, h: seq<T>, i: nat, child: nat)
    requires StrictWeakOrder(comp) && i < |h| && 0 < child < |h| && Parent(child) == i && comp(h[child], h[i])
    requires forall k :: 0 < k < |h| && Parent(k) == i ==> !comp(h[k], h[child])
    requires OrderedBelow(comp, h, i) && Bridged(comp, h, i)
    ensures var s := Swapped(h, i, child); OrderedBelow(comp, s, child) && Bridged(comp, s, child)
  {
    var s := Swapped(h, i, child);
    assert !comp(h[i], h[child]);
    forall k | 0 < k < |s| && Parent(k) != child
      ensures !comp(s[k], s[Parent(k)])
    {
      if Parent(k) == i { assert !comp(h[k], h[child]); }
      else if k == i { assert !comp(h[child], h[Parent(i)]); }
      else { assert !comp(h[k], h[Parent(k)]); }
    }
    forall k | 0 < k < |s| && Parent(k) == child
      ensures !comp(s[k], s[Parent(child)])
    {
      assert !comp(h[k], h[child]);
    }
  }

  class MinHeap<T(!new)> {
    var heap: seq<T>
    const comp: (T, T) -> bool

    constructor (comp: (T, T) -> bool)
      ensures this.comp == comp && heap == []
    {
      this.comp := comp;
      heap := [];
    }

    ghost predicate Valid()
      reads this
    {
      StrictWeakOrder(comp) && HeapOrdered(comp, heap)
    }

    method Insert(node: T)
      requires Valid()
      modifies this
      ensures Valid() && multiset(heap) == old(multiset(heap)) + multiset{node}
    {
      heap := heap + [node];
      SiftUp();
    }

    /** The source expects a nonempty heap. */
    method Remove() returns (node: T)
      requires Valid() && heap != []
      modifies this
      ensures Valid() && multiset(heap) + multiset{node} == old(multiset(heap))
      ensures forall x :: x in old(heap) ==> !comp(x, node)
    {
      ghost var h := heap;
      node := heap[0];
      forall x | x in heap
        ensures !comp(x, node)
      {
        var i :| 0 <= i < |heap| && heap[i] == x;
        TopIsLeast(comp, heap, i);
      }
      heap := heap[0 := heap[|heap| - 1]];
      heap := heap[..|heap| - 1];
      LastToFront(h, heap);
      SiftDown();
    }

    lemma LastToFront(h: seq<T>, g: seq<T>)
      requires h != [] && g == h[0 := h[|h| - 1]][..|h| - 1] && HeapOrdered(comp, h)
      ensures multiset(g) + multiset{h[0]} == multiset(h)
      ensures OrderedBelow(comp, g, 0) && Bridged(comp, g, 0)
    {
      var n := |h| - 1;
      if n > 0 {
        assert h == [h[0]] + h[1..n] + [h[n]];
        assert g == [h[n]] + h[1..n];
      } else {
        assert h == [h[0]];
      }
    }

    method SiftUp()
      requires StrictWeakOrder(comp) && |heap| > 0 && OrderedBut(comp, heap, |heap| - 1)
      modifies this
      ensures HeapOrdered(comp, heap) && multiset(heap) == old(multiset(heap))
    {
      var index: nat := |heap| - 1;
      while index > 0
        invariant index < |heap| && multiset(heap) == old(multiset(heap))
        invariant OrderedBut(comp, heap, index) && Bridged(comp, heap, index)
        decreases index
      {
        var parent := (index - 1) / 2;
        if comp(heap[index], heap[parent]) {
          SwapUp(comp, heap, index);
          SwapPermutes(heap, parent, index);
          heap := heap[parent := heap[index]][index := heap[parent]];
          index := parent;
        } else {
          break;
        }
      }
    }

    method SiftDown()
      requires StrictWeakOrder(comp) && OrderedBelow(comp, heap, 0)
      modifies this
      ensures HeapOrdered(comp, heap) && multiset(heap) == old(multiset(heap))
    {
      hide StrictWeakOrder, OrderedBelow, Bridged, HeapOrdered, OrderedBut;
      var index: nat := 0;
      var child := index * 2 + 1;
      BridgedAtTop(comp, heap);
      while child < |heap|
        invariant child == index * 2 + 1 && multiset(heap) == old(multiset(heap))
        invariant OrderedBelow(comp, heap, index) && Bridged(comp, heap, index)
        decreases |heap| - index
      {
        LesserChild(comp, heap, index);
        if child < |heap| - 1 && comp(heap[child + 1], heap[child]) {
          child := child + 1;
        }
        if comp(heap[child], heap[index]) {
          SwapDown(comp, heap, index, child);
          SwapPermutes(heap, index, child);
          heap := heap[index := heap[child]][child := heap[index]];
          index := child;
          child := index * 2 + 1;
        } else {
          Settled(comp, heap, index, child);
          return;
        }
      }
      Bottom(comp, heap, index);
    }
  }

  lemma BridgedAtTop<T(!new)>(comp: (T, T) -> bool, h: seq<T>)
    ensures Bridged(comp, h, 0)
  {
  }

  /** The choice of the child in `siftdown`. */
  lemma LesserChild<T(!new)>(comp: (T, T) -> bool, h: seq<T>, i: nat)
    requires StrictWeakOrder(comp) && i * 2 + 1 < |h|
    ensures var l := i * 2 + 1; var c := if l < |h| - 1 && comp(h[l + 1], h[l]) then l + 1 else l;
            Parent(c) == i && forall k :: 0 < k < |h| && Parent(k) == i ==> !comp(h[k], h[c])
  {
    var l := i * 2 + 1;
    assert forall k: nat :: k > 0 && Parent(k) == i ==> k == l || k == l + 1;
    assert l + 1 < |h| && comp(h[l + 1], h[l]) ==> !comp(h[l], h[l + 1]);
  }

  lemma Settled<T(!new)>(comp: (T, T) -> bool, h: seq<T>, i: nat, child: nat)
    requires StrictWeakOrder(comp) && i < |h| && child < |h| && OrderedBelow(comp, h, i) && !comp(h[child], h[i])
    requires forall k :: 0 < k < |h| && Parent(k) == i ==> !comp(h[k], h[child])
    ensures HeapOrdered(comp, h)
  {
  }

  lemma Bottom<T(!new)>(comp: (T, T) -> bool, h: seq<T>, i: nat)
    requires OrderedBelow(comp, h, i) && i * 2 + 1 >= |h|
    ensures HeapOrdered(comp, h)
  {
  }

  lemma TakenOut<T>(before: seq<T>, now: seq<T>, sorted: seq<T>, node: T)
    requires multiset(now) + multiset{node} == multiset(before)
    ensures |before| == |now| + 1 && node in before && forall x :: x in now ==> x in before
    ensures multiset(sorted + [node]) + multiset(now) == multiset(sorted) + multiset(before)
  {
    assert |multiset(before)| == |multiset(now)| + 1;
    assert forall x :: x in now ==> x in multiset(now) + multiset{node};
    assert forall x :: x in multiset(before) ==> x in before;
    assert node in multiset(before);
  }

  /** Draining a heap sorts: the elements come out in order, all of them and once each. */
  method Drain<T(!new)>(h: MinHeap<T>) returns (sorted: seq<T>)
    requires h.Valid()
    modifies h
    ensures h.heap == [] && multiset(sorted) == old(multiset(h.heap))
    ensures forall i, j :: 0 <= i < j < |sorted| ==> !h.comp(sorted[j], sorted[i])
  {
    sorted := [];
    while h.heap != []
      invariant h.Valid() && multiset(sorted) + multiset(h.heap) == old(multiset(h.heap))
      invariant forall i, j :: 0 <= i < j < |sorted| ==> !h.comp(sorted[j], sorted[i])
      invariant forall i, x :: 0 <= i < |sorted| && x in h.heap ==> !h.comp(x, sorted[i])
      decreases |h.heap|
    {
      ghost var before := h.heap;
      var node := h.Remove();
      TakenOut(before, h.heap, sorted, node);
      sorted := sorted + [node];
    }
  }

  /** Any sequence of insertions and removals keeps the heap order and accounts for every element; a removal
      from an empty heap, which the source does not allow, is skipped. */
  datatype Operation<T> = Insert(node: T) | Remove

  lemma OneIn<T>(held: multiset<T>, now: multiset<T>, removed: seq<T>, inserted: seq<T>, node: T)
    requires now == held + multiset{node}
    ensures now + multiset(removed) == (held + multiset(removed)) + multiset{node}
    ensures multiset(inserted + [node]) == multiset(inserted) + multiset{node}
  {
  }

  lemma OneOut<T>(held: multiset<T>, now: multiset<T>, removed: seq<T>, node: T)
    requires held == now + multiset{node}
    ensures now + multiset(removed + [node]) == held + multiset(removed)
  {
  }

  method RunAll<T(!new)>(h: MinHeap<T>, operations: seq<Operation<T>>) returns (removed: seq<T>, ghost inserted: seq<T>)
    requires h.Valid()
    modifies h
    ensures h.Valid() && multiset(h.heap) + multiset(removed) == old(multiset(h.heap)) + multiset(inserted)
    ensures inserted == Inserted(operations)
  {
    hide MinHeap<T>.Valid;
    removed, inserted := [], [];
    for i := 0 to |operations|
      invariant h.Valid() && inserted == Inserted(operations[..i])
      invariant multiset(h.heap) + multiset(removed) == old(multiset(h.heap)) + multiset(inserted)
    {
      ghost var held := multiset(h.heap);
      assert operations[..i + 1][..i] == operations[..i];
      if operations[i].Insert? {
        var node := operations[i].node;
        h.Insert(node);
        OneIn(held, multiset(h.heap), removed, inserted, node);
        inserted := inserted + [node];
      } else if h.heap != [] {
        var node := h.Remove();
        OneOut(held, multiset(h.heap), removed, node);
        removed := removed + [node];
      }
    }
    assert operations[..|operations|] == operations;
  }

  function Inserted<T>(operations: seq<Operation<T>>): seq<T> {
    if operations == [] then []
    else
      var last := operations[|operations| - 1];
      Inserted(operations[..|operations| - 1]) + (if last.Insert? then [last.node] else [])
  }
}
