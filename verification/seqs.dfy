/**
 Sequence facts the report needs: concatenating the images of a sequence
 under a function, and how that concatenation behaves under appending and
 reordering the sequence.
 */
module Seqs {

  /** `f(xs[0]) + f(xs[1]) + ...`: a loop that appends the rows of each item in turn. */
  function FlatMap<X, Y>(xs: seq<X>, f: X -> seq<Y>): (ys: seq<Y>)
    decreases |xs|
  {
    if xs == [] then [] else f(xs[0]) + FlatMap(xs[1..], f)
  }

  lemma {:induction false} FlatMapAppend<X, Y>(a: seq<X>, b: seq<X>, f: X -> seq<Y>)
    ensures FlatMap(a + b, f) == FlatMap(a, f) + FlatMap(b, f)
    decreases |a|
  {
    if a == [] {
      assert a + b == b;
    } else {
      assert (a + b)[0] == a[0];
      assert (a + b)[1..] == a[1..] + b;
      FlatMapAppend(a[1..], b, f);
    }
  }

  /** An element of the concatenation comes from the image of some item, and every such element is there. */
  lemma {:induction false} FlatMapMember<X, Y>(xs: seq<X>, f: X -> seq<Y>, y: Y)
    ensures y in FlatMap(xs, f) <==> exists i :: 0 <= i < |xs| && y in f(xs[i])
    decreases |xs|
  {
    if xs != [] {
      FlatMapMember(xs[1..], f, y);
      if y in FlatMap(xs[1..], f) {
        var i :| 0 <= i < |xs| - 1 && y in f(xs[1..][i]);
        assert y in f(xs[i + 1]);
      }
      if i :| 0 <= i < |xs| && y in f(xs[i]) {
        if i > 0 {
          assert y in f(xs[1..][i - 1]);
        }
      }
    }
  }

  /** Removing the item at position `k` leaves the other items' multiset. */
  lemma RemoveAt<X>(a: seq<X>, b: seq<X>, k: nat)
    requires multiset(a) == multiset(b) && a != [] && k < |b| && b[k] == a[0]
    ensures multiset(a[1..]) == multiset(b[..k] + b[k + 1..])
  {
    assert a == [a[0]] + a[1..];
    assert b == b[..k] + [b[k]] + b[k + 1..];
    assert multiset(b) == multiset(b[..k]) + multiset{b[k]} + multiset(b[k + 1..]);
    assert multiset(b[..k] + b[k + 1..]) == multiset(b[..k]) + multiset(b[k + 1..]);
    assert multiset(a) == multiset{a[0]} + multiset(a[1..]);
    assert multiset(a[1..]) == multiset(a) - multiset{a[0]};
    assert multiset(b[..k] + b[k + 1..]) == multiset(b) - multiset{b[k]};
  }

  /** The concatenation of the image at position `k` can be split off. */
  lemma FlatMapSplit<X, Y>(b: seq<X>, k: nat, f: X -> seq<Y>)
    requires k < |b|
    ensures multiset(FlatMap(b, f)) == multiset(f(b[k])) + multiset(FlatMap(b[..k] + b[k + 1..], f))
  {
    FlatMapAppend(b[..k], b[k..], f);
    assert b[k..][1..] == b[k + 1..];
    assert b == b[..k] + b[k..];
    FlatMapAppend(b[..k], b[k + 1..], f);
  }

  /** Reordering the items reorders the concatenation and changes nothing else. */
  lemma {:induction false} FlatMapPermutation<X, Y>(a: seq<X>, b: seq<X>, f: X -> seq<Y>)
    requires multiset(a) == multiset(b)
    ensures multiset(FlatMap(a, f)) == multiset(FlatMap(b, f))
    decreases |a|
  {
    if a == [] {
      assert |multiset(b)| == 0;
    } else {
      assert a[0] in multiset(b);
      var k :| 0 <= k < |b| && b[k] == a[0];
      RemoveAt(a, b, k);
      FlatMapPermutation(a[1..], b[..k] + b[k + 1..], f);
      FlatMapSplit(b, k, f);
    }
  }

  /** A sequence has no more distinct elements than entries. */
  lemma {:induction false} DistinctAtMostLength<T>(s: seq<T>)
    ensures |set x | x in s| <= |s|
    decreases |s|
  {
    if s != [] {
      DistinctAtMostLength(s[1..]);
      assert (set x | x in s) == (set x | x in s[1..]) + {s[0]};
    }
  }

  /** A sequence without repeated entries has exactly as many distinct elements as entries. */
  lemma {:induction false} DistinctLength<T>(s: seq<T>)
    requires forall i, j :: 0 <= i < j < |s| ==> s[i] != s[j]
    ensures |set x | x in s| == |s|
    decreases |s|
  {
    if s != [] {
      DistinctLength(s[1..]);
      assert (set x | x in s) == (set x | x in s[1..]) + {s[0]};
      assert s[0] !in s[1..];
    }
  }
}
