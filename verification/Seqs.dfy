/** Facts about sequences that the solver does not find on its own. */
module Seqs {

  lemma DropConcat<T>(a: seq<T>, b: seq<T>, n: nat)
    requires n <= |a| + |b|
    ensures n <= |a| ==> (a + b)[n..] == a[n..] + b
    ensures n >= |a| ==> (a + b)[n..] == b[n - |a|..]
  {
  }

  lemma TakeConcat<T>(a: seq<T>, b: seq<T>, n: nat)
    requires n <= |a| + |b|
    ensures n <= |a| ==> (a + b)[..n] == a[..n]
    ensures n >= |a| ==> (a + b)[..n] == a + b[..n - |a|]
  {
  }

  lemma ConcatAssoc<T>(a: seq<T>, b: seq<T>, c: seq<T>)
    ensures (a + b) + c == a + (b + c)
  {
  }

  lemma TakeDrop<T>(a: seq<T>, n: nat)
    requires n <= |a|
    ensures a[..n] + a[n..] == a
  {
  }

  /** If `s` continues with `p` and then `t` from `at` on, its next `m` elements are those of `p`. */
  lemma NextPart<T>(s: seq<T>, at: nat, p: seq<T>, t: seq<T>, m: nat)
    requires at <= |s| && s[at..] == p + t && m <= |p|
    ensures |s| == at + |p| + |t|
    ensures s[..at] + p[..m] == s[..at + m]
    ensures s[at + |p|..] == t
  {
    assert |s| - at == |p| + |t|;
    assert s[at..][..m] == p[..m];
    assert s[at + |p|..] == s[at..][|p|..];
  }

  function Flatten<T>(parts: seq<seq<T>>): seq<T> {
    if parts == [] then [] else parts[0] + Flatten(parts[1..])
  }

  lemma {:induction false} FlattenConcat<T>(a: seq<seq<T>>, b: seq<seq<T>>)
    ensures Flatten(a + b) == Flatten(a) + Flatten(b)
    decreases |a|
  {
    if a == [] {
      assert a + b == b;
    } else {
      FlattenConcat(a[1..], b);
      assert (a + b)[1..] == a[1..] + b;
      ConcatAssoc(a[0], Flatten(a[1..]), Flatten(b));
    }
  }

  lemma FlattenAppend<T>(a: seq<seq<T>>, x: seq<T>)
    ensures Flatten(a + [x]) == Flatten(a) + x
  {
    FlattenConcat(a, [x]);
    assert [x][1..] == [] && Flatten([x]) == x + [];
  }

  ghost predicate NoDuplicates<T>(s: seq<T>) {
    forall i, j :: 0 <= i < j < |s| ==> s[i] != s[j]
  }

  lemma AddFresh<T>(s: seq<T>, x: T)
    requires NoDuplicates(s) && x !in s
    ensures NoDuplicates(s + [x])
  {
  }

  /** `list` holds the elements of `all` that `ids` number. */
  ghost predicate Numbered<T>(all: seq<T>, ids: seq<nat>, list: seq<T>) {
    |list| == |ids| && forall i :: 0 <= i < |ids| ==> ids[i] < |all| && list[i] == all[ids[i]]
  }

  lemma NumberedSize<T>(all: seq<T>, ids: seq<nat>, list: seq<T>)
    requires Numbered(all, ids, list)
    ensures |ids| == |list|
  {
  }

  lemma NumberedNone<T>(all: seq<T>)
    ensures Numbered(all, [], [])
  {
  }

  lemma NumberedMore<T>(all: seq<T>, ids: seq<nat>, list: seq<T>, id: nat)
    requires Numbered(all, ids, list) && id < |all|
    ensures Numbered(all, ids + [id], list + [all[id]])
  {
  }

  lemma NumberedFirst<T>(all: seq<T>, ids: seq<nat>, list: seq<T>)
    requires Numbered(all, ids, list) && ids != []
    ensures |list| == |ids| && ids[0] < |all| && list[0] == all[ids[0]] && Numbered(all, ids[1..], list[1..])
  {
  }
}
