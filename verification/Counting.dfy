/** Numbers, and weighted sums over sequences: how many threads, processes or slots are in a given situation. */
module Counting {

  function Min(a: nat, b: nat): nat { if a < b then a else b }

  function Max(a: nat, b: nat): nat { if a < b then b else a }

  function Sum<T>(w: T -> nat, xs: seq<T>): nat {
    if xs == [] then 0 else Sum(w, xs[..|xs| - 1]) + w(xs[|xs| - 1])
  }

  lemma {:induction false} SumUpdate<T>(w: T -> nat, xs: seq<T>, i: nat, x: T)
    requires i < |xs|
    ensures Sum(w, xs[i := x]) + w(xs[i]) == Sum(w, xs) + w(x)
  {
    var n := |xs| - 1;
    if i == n {
      assert xs[i := x][..n] == xs[..n];
    } else {
      assert xs[i := x][..n] == xs[..n][i := x];
      SumUpdate(w, xs[..n], i, x);
    }
  }

  lemma {:induction false} SumMember<T>(w: T -> nat, xs: seq<T>, i: nat)
    requires i < |xs|
    ensures w(xs[i]) <= Sum(w, xs)
  {
    if i == |xs| - 1 {
    } else {
      SumMember(w, xs[..|xs| - 1], i);
    }
  }

  lemma {:induction false} SumPair<T>(w: T -> nat, xs: seq<T>, i: nat, j: nat)
    requires i < j < |xs|
    ensures w(xs[i]) + w(xs[j]) <= Sum(w, xs)
  {
    var n := |xs| - 1;
    if j == n { SumMember(w, xs[..n], i); } else { SumPair(w, xs[..n], i, j); }
  }

  /** Every element weighs exactly b. */
  lemma {:induction false} SumUniform<T>(w: T -> nat, xs: seq<T>, b: nat)
    requires forall k :: 0 <= k < |xs| ==> w(xs[k]) == b
    ensures Sum(w, xs) == b * |xs|
  {
    if xs == [] {
    } else {
      SumUniform(w, xs[..|xs| - 1], b);
    }
  }

  lemma {:induction false} SumBound<T>(w: T -> nat, xs: seq<T>, b: nat)
    requires forall k :: 0 <= k < |xs| ==> w(xs[k]) <= b
    ensures Sum(w, xs) <= b * |xs|
  {
    if xs == [] {
    } else {
      SumBound(w, xs[..|xs| - 1], b);
    }
  }

  lemma {:induction false} SumWitness<T>(w: T -> nat, xs: seq<T>) returns (i: nat)
    requires Sum(w, xs) > 0
    ensures i < |xs| && w(xs[i]) > 0
  {
    var n := |xs| - 1;
    if w(xs[n]) > 0 { i := n; } else { i := SumWitness(w, xs[..n]); }
  }

  lemma SumAppend<T>(w: T -> nat, xs: seq<T>, x: T)
    ensures Sum(w, xs + [x]) == Sum(w, xs) + w(x)
  {
    assert (xs + [x])[..|xs|] == xs;
  }

  lemma {:induction false} SumSplit<T>(w: T -> nat, xs: seq<T>, ys: seq<T>)
    ensures Sum(w, xs + ys) == Sum(w, xs) + Sum(w, ys)
  {
    if ys == [] {
      assert xs + ys == xs;
    } else {
      var n := |ys| - 1;
      assert xs + ys == (xs + ys[..n]) + [ys[n]];
      SumAppend(w, xs + ys[..n], ys[n]);
      SumSplit(w, xs, ys[..n]);
    }
  }
}
