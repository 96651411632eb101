/** Shared vocabulary: optional values, results, folds, and the two facts about
    folds and counting that every order-insensitivity argument here rests on. */
module Basics {
  datatype Option<+T> = None | Some(value: T)

  datatype Result<+T, +E> = Ok(value: T) | Err(error: E)

  function Max(a: int, b: int): int {
    if a > b then a else b
  }

  function Min(a: int, b: int): int {
    if a < b then a else b
  }

  function Fold<S, D>(step: (S, D) -> S, s: S, ds: seq<D>): S
    decreases |ds|
  {
    if ds == [] then s else Fold(step, step(s, ds[0]), ds[1..])
  }

  lemma {:induction false} FoldConcat<S, D>(step: (S, D) -> S, s: S, xs: seq<D>, ys: seq<D>)
    ensures Fold(step, s, xs + ys) == Fold(step, Fold(step, s, xs), ys)
    decreases |xs|
  {
    if xs == [] {
      assert xs + ys == ys;
    } else {
      assert (xs + ys)[1..] == xs[1..] + ys;
      FoldConcat(step, step(s, xs[0]), xs[1..], ys);
    }
  }

  function RemoveAt<D>(ds: seq<D>, i: nat): seq<D>
    requires i < |ds|
  {
    ds[..i] + ds[i + 1..]
  }

  lemma RemoveAtMultiset<D>(ds: seq<D>, i: nat)
    requires i < |ds|
    ensures multiset(RemoveAt(ds, i)) == multiset(ds) - multiset{ds[i]}
  {
    assert ds == ds[..i] + [ds[i]] + ds[i + 1..];
  }

  lemma SameMembers<D>(xs: seq<D>, ys: seq<D>)
    requires multiset(xs) == multiset(ys)
    ensures |xs| == |ys| && forall d :: d in xs <==> d in ys
  {
    assert |multiset(xs)| == |xs| && |multiset(ys)| == |ys|;
    forall d
      ensures d in xs <==> d in ys
    {
      assert d in xs <==> d in multiset(xs);
      assert d in ys <==> d in multiset(ys);
    }
  }

  /** Deliveries a and b may be swapped wherever they meet. */
  ghost predicate Commute<S(!new), D>(step: (S, D) -> S, a: D, b: D) {
    forall s :: step(step(s, a), b) == step(step(s, b), a)
  }

  ghost predicate PairwiseCommute<S(!new), D>(step: (S, D) -> S, ds: seq<D>) {
    forall i, j :: 0 <= i < j < |ds| ==> Commute(step, ds[i], ds[j])
  }

  lemma {:induction false} MoveToFront<S(!new), D>(step: (S, D) -> S, s: S, ds: seq<D>, i: nat)
    requires i < |ds| && PairwiseCommute(step, ds)
    ensures Fold(step, s, ds) == Fold(step, step(s, ds[i]), RemoveAt(ds, i))
    decreases i
  {
    if i == 0 {
      assert RemoveAt(ds, 0) == ds[1..];
    } else {
      var tail := ds[1..];
      assert forall k :: 0 <= k < |tail| ==> tail[k] == ds[k + 1];
      MoveToFront(step, step(s, ds[0]), tail, i - 1);
      assert Commute(step, ds[0], ds[i]);
      assert RemoveAt(ds, i)[0] == ds[0] && RemoveAt(ds, i)[1..] == RemoveAt(tail, i - 1);
    }
  }

  lemma RemoveAtKeepsPairwise<S(!new), D>(step: (S, D) -> S, ds: seq<D>, i: nat)
    requires i < |ds| && PairwiseCommute(step, ds)
    ensures PairwiseCommute(step, RemoveAt(ds, i))
  {
    var rest := RemoveAt(ds, i);
    forall j, k | 0 <= j < k < |rest|
      ensures Commute(step, rest[j], rest[k])
    {
      var j', k' := if j < i then j else j + 1, if k < i then k else k + 1;
      assert rest[j] == ds[j'] && rest[k] == ds[k'];
    }
  }

  /** A fold over pairwise commuting items depends only on the multiset of items. */
  lemma {:induction false} FoldPermutation<S(!new), D>(step: (S, D) -> S, s: S, xs: seq<D>, ys: seq<D>)
    requires multiset(xs) == multiset(ys) && PairwiseCommute(step, ys)
    ensures Fold(step, s, xs) == Fold(step, s, ys)
    decreases |xs|
  {
    SameMembers(xs, ys);
    if xs != [] {
      assert xs[0] in ys;
      var i :| 0 <= i < |ys| && ys[i] == xs[0];
      MoveToFront(step, s, ys, i);
      RemoveAtMultiset(ys, i);
      RemoveAtMultiset(xs, 0);
      assert RemoveAt(xs, 0) == xs[1..];
      RemoveAtKeepsPairwise(step, ys, i);
      FoldPermutation(step, step(s, xs[0]), xs[1..], RemoveAt(ys, i));
    }
  }

  /** How many elements of `xs` satisfy `p`. */
  function Count<T>(p: T -> bool, xs: seq<T>): nat
    decreases |xs|
  {
    if xs == [] then 0 else (if p(xs[|xs| - 1]) then 1 else 0) + Count(p, xs[..|xs| - 1])
  }

  lemma {:induction false} CountConcat<T>(p: T -> bool, xs: seq<T>, ys: seq<T>)
    ensures Count(p, xs + ys) == Count(p, xs) + Count(p, ys)
    decreases |ys|
  {
    if ys == [] {
      assert xs + ys == xs;
    } else {
      assert (xs + ys)[..|xs + ys| - 1] == xs + ys[..|ys| - 1];
      CountConcat(p, xs, ys[..|ys| - 1]);
    }
  }

  lemma {:induction false} CountRemoveAt<T>(p: T -> bool, xs: seq<T>, i: nat)
    requires i < |xs|
    ensures Count(p, xs) == Count(p, RemoveAt(xs, i)) + if p(xs[i]) then 1 else 0
    decreases |xs|
  {
    var n := |xs| - 1;
    if i == n {
      assert RemoveAt(xs, i) == xs[..n];
    } else {
      var less := RemoveAt(xs[..n], i);
      CountRemoveAt(p, xs[..n], i);
      assert RemoveAt(xs, i) == less + [xs[n]] && (less + [xs[n]])[..|less|] == less;
    }
  }

  lemma {:induction false} CountPermutation<T>(p: T -> bool, xs: seq<T>, ys: seq<T>)
    requires multiset(xs) == multiset(ys)
    ensures Count(p, xs) == Count(p, ys)
    decreases |xs|
  {
    SameMembers(xs, ys);
    if xs != [] {
      assert xs[0] in ys;
      var i :| 0 <= i < |ys| && ys[i] == xs[0];
      RemoveAtMultiset(ys, i);
      RemoveAtMultiset(xs, 0);
      CountRemoveAt(p, ys, i);
      CountRemoveAt(p, xs, 0);
      CountPermutation(p, RemoveAt(xs, 0), RemoveAt(ys, i));
    }
  }

  /** Every element satisfies `p`, so all are counted. */
  lemma {:induction false} CountAll<T>(p: T -> bool, xs: seq<T>)
    requires forall i :: 0 <= i < |xs| ==> p(xs[i])
    ensures Count(p, xs) == |xs|
    decreases |xs|
  {
    if xs != [] {
      CountAll(p, xs[..|xs| - 1]);
    }
  }

  lemma {:induction false} CountNone<T>(p: T -> bool, xs: seq<T>)
    requires forall i :: 0 <= i < |xs| ==> !p(xs[i])
    ensures Count(p, xs) == 0
    decreases |xs|
  {
    if xs != [] {
      CountNone(p, xs[..|xs| - 1]);
    }
  }
}
