/** Iterating a hash set: the converter walks its set of rewrite targets in
    an unspecified order and emits one block of records per target. An
    `order` that enumerates the set stands for one such walk; the lemmas
    here say what holds whatever the walk. */
module Enumeration {

  predicate Distinct<T(==)>(xs: seq<T>) {
    forall i, j :: 0 <= i < j < |xs| ==> xs[i] != xs[j]
  }

  /** `order` lists every element of `s` exactly once. */
  predicate Enumerates<T(==)>(order: seq<T>, s: set<T>) {
    && Distinct(order)
    && (forall i :: 0 <= i < |order| ==> order[i] in s)
    && (forall x <- s :: x in order)
  }

  lemma {:induction false} EnumerationSize<T>(order: seq<T>, s: set<T>)
    requires Enumerates(order, s)
    ensures |order| == |s|
    decreases |order|
  {
    if |order| > 0 {
      var x := order[0];
      var rest := order[1..];
      assert Enumerates(rest, s - {x}) by {
        forall i | 0 <= i < |rest|
          ensures rest[i] in s - {x}
        {
          assert rest[i] == order[i + 1];
        }
        forall y <- s - {x}
          ensures y in rest
        {
          var k :| 0 <= k < |order| && order[k] == y;
          assert rest[k - 1] == y;
        }
      }
      EnumerationSize(rest, s - {x});
    }
  }

  lemma EnumeratesExtend<T>(order: seq<T>, s: set<T>, x: T)
    requires Enumerates(order, s) && x !in s
    ensures Enumerates(order + [x], s + {x})
  {
    var o := order + [x];
    forall y <- s + {x}
      ensures y in o
    {
      if y in s {
        var k :| 0 <= k < |order| && order[k] == y;
        assert o[k] == y;
      } else {
        assert o[|order|] == y;
      }
    }
  }

  /** Moving one element from the unvisited part of `all` to the visited
      part. */
  lemma VisitOne<T>(all: set<T>, remaining: set<T>, x: T)
    requires remaining <= all && x in remaining
    ensures |remaining - {x}| < |remaining|
    ensures all - (remaining - {x}) == (all - remaining) + {x}
  {
  }

  /** Two walks over the same set visit the same elements. */
  lemma {:induction false} EnumerationsPermute<T>(o1: seq<T>, o2: seq<T>, s: set<T>)
    requires Enumerates(o1, s) && Enumerates(o2, s)
    ensures multiset(o1) == multiset(o2)
  {
    forall x: T
      ensures multiset(o1)[x] == multiset(o2)[x]
    {
      DistinctCount(o1, x);
      DistinctCount(o2, x);
    }
  }

  lemma {:induction false} DistinctCount<T>(xs: seq<T>, x: T)
    requires Distinct(xs)
    ensures multiset(xs)[x] == if x in xs then 1 else 0
    decreases |xs|
  {
    if |xs| > 0 {
      assert xs == [xs[0]] + xs[1..];
      assert multiset(xs) == multiset{xs[0]} + multiset(xs[1..]);
      DistinctCount(xs[1..], x);
    }
  }

  /** The blocks `f(x)` of the elements of `xs`, concatenated in order. */
  function FlatMap<T, U>(f: T -> seq<U>, xs: seq<T>): seq<U> {
    if |xs| == 0 then [] else f(xs[0]) + FlatMap(f, xs[1..])
  }

  lemma {:induction false} FlatMapAppend<T, U>(f: T -> seq<U>, xs: seq<T>, ys: seq<T>)
    ensures FlatMap(f, xs + ys) == FlatMap(f, xs) + FlatMap(f, ys)
    decreases |xs|
  {
    if |xs| == 0 {
      assert xs + ys == ys;
    } else {
      assert (xs + ys)[1..] == xs[1..] + ys;
      FlatMapAppend(f, xs[1..], ys);
    }
  }

  lemma FlatMapSingle<T, U>(f: T -> seq<U>, x: T)
    ensures FlatMap(f, [x]) == f(x)
  {
    assert [x][1..] == [];
  }

  /** Appending the block of one more element extends the walk. */
  lemma FlatMapSnoc<T, U>(f: T -> seq<U>, head: seq<U>, xs: seq<T>, x: T)
    ensures head + FlatMap(f, xs) + f(x) == head + FlatMap(f, xs + [x])
  {
    FlatMapSingle(f, x);
    FlatMapAppend(f, xs, [x]);
  }

  lemma {:induction false} FlatMapLength<T, U>(f: T -> seq<U>, xs: seq<T>, k: nat)
    requires forall x :: |f(x)| == k
    ensures |FlatMap(f, xs)| == k * |xs|
    decreases |xs|
  {
    if |xs| > 0 {
      FlatMapLength(f, xs[1..], k);
      assert k * |xs| == k + k * (|xs| - 1);
    }
  }

  /** With blocks of a fixed size `k`, the block of element `j` sits at
      offset `k * j`. */
  lemma {:induction false} FlatMapBlock<T, U>(f: T -> seq<U>, xs: seq<T>, k: nat, j: nat)
    requires forall x :: |f(x)| == k
    requires j < |xs|
    ensures k * j + k <= |FlatMap(f, xs)|
    ensures FlatMap(f, xs)[k * j .. k * j + k] == f(xs[j])
    decreases j
  {
    FlatMapLength(f, xs, k);
    var r := FlatMap(f, xs);
    var tail := FlatMap(f, xs[1..]);
    assert r == f(xs[0]) + tail;
    if j == 0 {
      assert r[..k] == f(xs[0]);
    } else {
      FlatMapBlock(f, xs[1..], k, j - 1);
      var o := k * (j - 1);
      assert k * j == o + k;
      assert xs[1..][j - 1] == xs[j];
      assert r[o + k .. o + k + k] == tail[o .. o + k];
    }
  }

  /** The result around the block of element `j`. */
  lemma FlatMapSplit<T, U>(f: T -> seq<U>, xs: seq<T>, j: nat)
    requires j < |xs|
    ensures FlatMap(f, xs) == FlatMap(f, xs[..j]) + f(xs[j]) + FlatMap(f, xs[j + 1..])
  {
    var before, after := xs[..j], xs[j + 1..];
    SplitAround(xs, j);
    FlatMapAppend(f, before + [xs[j]], after);
    FlatMapAppend(f, before, [xs[j]]);
    FlatMapSingle(f, xs[j]);
  }

  lemma SplitAround<T>(xs: seq<T>, j: nat)
    requires j < |xs|
    ensures xs == xs[..j] + [xs[j]] + xs[j + 1..]
  {
  }

  /** The result behind a fixed head, around the block of element `j`. */
  lemma FlatMapAround<T, U>(f: T -> seq<U>, head: seq<U>, xs: seq<T>, j: nat)
    requires j < |xs|
    ensures head + FlatMap(f, xs) == (head + FlatMap(f, xs[..j])) + f(xs[j]) + FlatMap(f, xs[j + 1..])
  {
    FlatMapSplit(f, xs, j);
    Regroup(head, FlatMap(f, xs[..j]), f(xs[j]), FlatMap(f, xs[j + 1..]));
  }

  lemma Regroup<U>(head: seq<U>, a: seq<U>, b: seq<U>, c: seq<U>)
    ensures head + (a + b + c) == (head + a) + b + c
  {
  }

  /** Behind a fixed head, the block of element `j` sits at offset
      `|head| + k * j`. */
  lemma FlatMapBlockAfter<T, U>(f: T -> seq<U>, head: seq<U>, xs: seq<T>, k: nat, j: nat)
    requires forall x :: |f(x)| == k
    requires j < |xs|
    ensures |head| + k * j + k <= |head + FlatMap(f, xs)|
    ensures (head + FlatMap(f, xs))[|head| + k * j .. |head| + k * j + k] == f(xs[j])
  {
    var tail := FlatMap(f, xs);
    FlatMapBlock(f, xs, k, j);
    var o := k * j;
    assert (head + tail)[|head| + o .. |head| + o + k] == tail[o .. o + k];
  }

  /** Every record of the result belongs to the block of some element. */
  lemma {:induction false} FlatMapMembers<T, U>(f: T -> seq<U>, xs: seq<T>, u: U)
    requires u in FlatMap(f, xs)
    ensures exists x :: x in xs && u in f(x)
    decreases |xs|
  {
    if u !in f(xs[0]) {
      FlatMapMembers(f, xs[1..], u);
      var x :| x in xs[1..] && u in f(x);
      assert x in xs;
    }
  }

  /** Walking the elements in another order permutes the result. */
  lemma {:induction false} FlatMapPermutation<T, U>(f: T -> seq<U>, xs: seq<T>, ys: seq<T>)
    requires multiset(xs) == multiset(ys)
    ensures multiset(FlatMap(f, xs)) == multiset(FlatMap(f, ys))
    decreases |xs|
  {
    if |xs| == 0 {
      assert |ys| == |multiset(ys)| == 0;
    } else {
      var x := xs[0];
      assert x in multiset(ys);
      var k :| 0 <= k < |ys| && ys[k] == x;
      var rest := ys[..k] + ys[k + 1..];
      assert multiset(xs[1..]) == multiset(rest) by {
        RemoveAt(ys, k);
        assert xs == [x] + xs[1..];
      }
      calc {
        multiset(FlatMap(f, xs));
        multiset(f(x)) + multiset(FlatMap(f, xs[1..]));
        { FlatMapPermutation(f, xs[1..], rest); }
        multiset(f(x)) + multiset(FlatMap(f, rest));
        { FlatMapRemoveAt(f, ys, k); }
        multiset(FlatMap(f, ys));
      }
    }
  }

  /** The result holds the block of element `k` and the result of the
      other elements. */
  lemma FlatMapRemoveAt<T, U>(f: T -> seq<U>, ys: seq<T>, k: nat)
    requires k < |ys|
    ensures multiset(FlatMap(f, ys)) == multiset(f(ys[k])) + multiset(FlatMap(f, ys[..k] + ys[k + 1..]))
  {
    FlatMapSplit(f, ys, k);
    FlatMapAppend(f, ys[..k], ys[k + 1..]);
    var a, b, c := FlatMap(f, ys[..k]), f(ys[k]), FlatMap(f, ys[k + 1..]);
    assert multiset(a + b + c) == multiset(a) + multiset(b) + multiset(c);
    assert multiset(a + c) == multiset(a) + multiset(c);
  }

  /** Taking out the element at `k` takes one copy of it out of the
      multiset. */
  lemma RemoveAt<T>(xs: seq<T>, k: nat)
    requires k < |xs|
    ensures multiset(xs[..k] + xs[k + 1..]) == multiset(xs) - multiset{xs[k]}
  {
    SplitAround(xs, k);
    assert multiset(xs) == multiset(xs[..k]) + multiset{xs[k]} + multiset(xs[k + 1..]);
  }
}
