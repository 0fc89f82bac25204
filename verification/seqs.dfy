/**
 The array primitives the store uses, over immutable sequences:
 `findIndex`, `filter` and the two uses of `splice` (remove one entry,
 insert one entry).
 */
module Seqs {

  /** `xs.findIndex(p)`: the index of the first element satisfying `p`, or -1. */
  function FirstIndex<T>(xs: seq<T>, p: T -> bool): (r: int)
    ensures -1 <= r < |xs|
    ensures r == -1 <==> forall k :: 0 <= k < |xs| ==> !p(xs[k])
    ensures r >= 0 ==> p(xs[r]) && forall k :: 0 <= k < r ==> !p(xs[k])
  {
    if xs == [] then -1
    else if p(xs[0]) then 0
    else
      var r := FirstIndex(xs[1..], p);
      if r == -1 then -1 else r + 1
  }

  /** `xs.filter(p)`: the elements satisfying `p`, in their original order. */
  function Filter<T>(xs: seq<T>, p: T -> bool): (r: seq<T>)
    ensures |r| <= |xs|
    ensures forall k :: 0 <= k < |r| ==> p(r[k])
  {
    if xs == [] then []
    else if p(xs[0]) then [xs[0]] + Filter(xs[1..], p)
    else Filter(xs[1..], p)
  }

  /** `xs.splice(i, 1)` on a copy: `xs` without its entry at `i`. */
  function RemoveAt<T>(xs: seq<T>, i: nat): (r: seq<T>)
    requires i < |xs|
    ensures |r| == |xs| - 1
    ensures forall k :: 0 <= k < i ==> r[k] == xs[k]
    ensures forall k :: i <= k < |r| ==> r[k] == xs[k + 1]
    ensures multiset(r) + multiset{xs[i]} == multiset(xs)
  {
    assert xs == xs[..i] + [xs[i]] + xs[i + 1..];
    xs[..i] + xs[i + 1..]
  }

  /** `RemoveAt` keeps the part before `i` and shifts the part after it down by one. */
  lemma RemoveAtSlices<T>(xs: seq<T>, i: nat)
    requires i < |xs|
    ensures RemoveAt(xs, i)[..i] == xs[..i]
    ensures RemoveAt(xs, i)[i..] == xs[i + 1..]
  {
  }

  /** `xs.splice(i, 0, x)` on a copy: `xs` with `x` inserted so that it sits at index `i`. */
  function InsertAt<T>(xs: seq<T>, i: nat, x: T): (r: seq<T>)
    requires i <= |xs|
    ensures |r| == |xs| + 1
    ensures r[i] == x
    ensures forall k :: 0 <= k < i ==> r[k] == xs[k]
    ensures forall k :: i < k < |r| ==> r[k] == xs[k - 1]
    ensures multiset(r) == multiset(xs) + multiset{x}
  {
    assert xs == xs[..i] + xs[i..];
    xs[..i] + [x] + xs[i..]
  }

  /** The filtered sequence holds exactly the elements that satisfy `p`. */
  lemma {:induction false} FilterMembers<T>(xs: seq<T>, p: T -> bool)
    ensures forall k :: 0 <= k < |Filter(xs, p)| ==> Filter(xs, p)[k] in xs
    ensures forall k :: 0 <= k < |xs| && p(xs[k]) ==> xs[k] in Filter(xs, p)
  {
    if xs != [] {
      FilterMembers(xs[1..], p);
      var r := Filter(xs, p);
      var t := Filter(xs[1..], p);
      forall k | 0 <= k < |r| ensures r[k] in xs {
        if p(xs[0]) && k == 0 {
        } else if p(xs[0]) {
          assert r[k] == t[k - 1];
        } else {
          assert r[k] == t[k];
        }
      }
      forall k | 0 <= k < |xs| && p(xs[k]) ensures xs[k] in r {
        if k > 0 {
          assert xs[k] == xs[1..][k - 1];
        }
      }
    }
  }

  /** Filtering distributes over concatenation. */
  lemma {:induction false} FilterAppend<T>(xs: seq<T>, ys: seq<T>, p: T -> bool)
    ensures Filter(xs + ys, p) == Filter(xs, p) + Filter(ys, p)
  {
    if xs == [] {
      assert xs + ys == ys;
    } else {
      assert (xs + ys)[1..] == xs[1..] + ys;
      FilterAppend(xs[1..], ys, p);
    }
  }

  /** Filtering with a predicate that keeps everything changes nothing. */
  lemma {:induction false} FilterAll<T>(xs: seq<T>, p: T -> bool)
    requires forall k :: 0 <= k < |xs| ==> p(xs[k])
    ensures Filter(xs, p) == xs
  {
    if xs != [] {
      FilterAll(xs[1..], p);
    }
  }

  /** Filtering the multiset view: exactly the elements satisfying `p`, with their multiplicities. */
  lemma {:induction false} FilterMultiset<T>(xs: seq<T>, p: T -> bool, x: T)
    ensures multiset(Filter(xs, p))[x] == if p(x) then multiset(xs)[x] else 0
  {
    if xs != [] {
      FilterMultiset(xs[1..], p, x);
      assert xs == [xs[0]] + xs[1..];
    }
  }
}
