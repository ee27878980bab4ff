/** Sums of multisets over a sequence do not depend on the order of the sequence. */
module Bags {
  function Bag<A, E>(f: A -> multiset<E>, xs: seq<A>): multiset<E> {
    if xs == [] then multiset{} else Bag(f, xs[..|xs| - 1]) + f(xs[|xs| - 1])
  }

  function Without<A>(xs: seq<A>, i: nat): (r: seq<A>)
    requires i < |xs|
    ensures |r| == |xs| - 1
  {
    xs[..i] + xs[i + 1..]
  }

  lemma WithoutBag<A>(xs: seq<A>, i: nat)
    requires i < |xs|
    ensures multiset(Without(xs, i)) == multiset(xs) - multiset{xs[i]}
  {
    assert xs == xs[..i] + [xs[i]] + xs[i + 1..];
  }

  lemma {:induction false} BagWithout<A, E>(f: A -> multiset<E>, xs: seq<A>, i: nat)
    requires i < |xs|
    ensures Bag(f, xs) == Bag(f, Without(xs, i)) + f(xs[i])
    decreases |xs|
  {
    var last, rest := |xs| - 1, Without(xs, i);
    if i < last {
      BagWithout(f, xs[..last], i);
      assert rest[..|rest| - 1] == Without(xs[..last], i);
    } else {
      assert rest == xs[..last];
    }
  }

  lemma {:induction false} BagPermutes<A, E>(f: A -> multiset<E>, xs: seq<A>, ys: seq<A>)
    requires multiset(xs) == multiset(ys)
    ensures Bag(f, xs) == Bag(f, ys)
    decreases |xs|
  {
    hide Without;
    if xs == [] {
      assert |multiset(ys)| == 0;
    } else {
      var last := |xs| - 1;
      assert xs[last] in multiset(ys);
      var i :| 0 <= i < |ys| && ys[i] == xs[last];
      WithoutBag(ys, i);
      WithoutBag(xs, last);
      AllButLast(xs);
      BagPermutes(f, xs[..last], Without(ys, i));
      BagWithout(f, ys, i);
    }
  }

  lemma AllButLast<A>(xs: seq<A>)
    requires xs != []
    ensures Without(xs, |xs| - 1) == xs[..|xs| - 1]
  {
  }

  lemma {:induction false} DistinctBag<A>(xs: seq<A>)
    requires forall i, j :: 0 <= i < j < |xs| ==> xs[i] != xs[j]
    ensures multiset(xs) == multiset(set x | x in xs)
  {
    if xs == [] {
    } else {
      var last := |xs| - 1;
      DistinctBag(xs[..last]);
      assert xs == xs[..last] + [xs[last]];
      assert (set x | x in xs) == (set x | x in xs[..last]) + {xs[last]};
    }
  }
}
