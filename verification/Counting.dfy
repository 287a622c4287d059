/** Sums over the goroutines of a system, and how one goroutine's step moves them. */
module Counting {
  function Total<T>(w: T -> nat, xs: seq<T>): nat {
    if xs == [] then 0 else Total(w, xs[..|xs| - 1]) + w(xs[|xs| - 1])
  }

  lemma {:induction false} TotalAfterUpdate<T(!new)>(w: T -> nat, xs: seq<T>, i: nat, x: T)
    requires i < |xs|
    ensures Total(w, xs[i := x]) == Total(w, xs) - w(xs[i]) + w(x)
    ensures Total(w, xs) >= w(xs[i])
    ensures (forall p :: w(p) <= 1) ==> Total(w, xs) <= |xs| - 1 + w(xs[i])
  {
    var n := |xs| - 1;
    if i < n {
      TotalAfterUpdate(w, xs[..n], i, x);
      assert xs[i := x][..n] == xs[..n][i := x];
    } else {
      assert xs[i := x][..n] == xs[..n];
      TotalBound(w, xs[..n]);
    }
  }

  lemma {:induction false} TotalBound<T(!new)>(w: T -> nat, xs: seq<T>)
    ensures (forall p :: w(p) <= 1) ==> Total(w, xs) <= |xs|
  {
    if xs != [] {
      TotalBound(w, xs[..|xs| - 1]);
    }
  }

  lemma TotalAfterAppend<T>(w: T -> nat, xs: seq<T>, x: T)
    ensures Total(w, xs + [x]) == Total(w, xs) + w(x)
  {
    assert (xs + [x])[..|xs|] == xs;
  }

  lemma {:induction false} TotalIsZero<T>(w: T -> nat, xs: seq<T>)
    ensures Total(w, xs) == 0 <==> forall i :: 0 <= i < |xs| ==> w(xs[i]) == 0
  {
    if xs != [] {
      TotalIsZero(w, xs[..|xs| - 1]);
    }
  }

  lemma {:induction false} TotalOfSame<T>(w: T -> nat, xs: seq<T>, n: nat)
    requires forall i :: 0 <= i < |xs| ==> w(xs[i]) == n
    ensures Total(w, xs) == |xs| * n
  {
    if xs != [] {
      TotalOfSame(w, xs[..|xs| - 1], n);
    }
  }
}
