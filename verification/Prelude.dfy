/** Failure-carrying results and the order-preserving de-duplication that
    Python spells `dict.fromkeys`. */
module Prelude {

  datatype Option<+T> = None | Some(value: T)

  datatype Result<+T, +E> = Ok(value: T) | Err(error: E)

  /** First occurrences of `xs`, in order. */
  function Dedup<T(==,!new)>(xs: seq<T>): (r: seq<T>)
    ensures forall x :: x in r <==> x in xs
    ensures forall i, j :: 0 <= i < j < |r| ==> r[i] != r[j]
  {
    if xs == [] then []
    else
      var front := Dedup(xs[..|xs| - 1]);
      var last := xs[|xs| - 1];
      assert xs == xs[..|xs| - 1] + [last];
      if last in front then front else front + [last]
  }

  /** The elements that satisfy `keep`, in order. */
  function Filter<T(!new)>(xs: seq<T>, keep: T -> bool): (r: seq<T>)
    ensures |r| <= |xs|
    ensures forall x :: x in r <==> x in xs && keep(x)
  {
    if xs == [] then []
    else
      assert xs == [xs[0]] + xs[1..];
      (if keep(xs[0]) then [xs[0]] else []) + Filter(xs[1..], keep)
  }

  predicate Distinct<T(==)>(xs: seq<T>) {
    forall i, j :: 0 <= i < j < |xs| ==> xs[i] != xs[j]
  }

  lemma DistinctThen<T>(xs: seq<T>, x: T)
    ensures Distinct(xs + [x]) <==> Distinct(xs) && x !in xs
  {
    var longer := xs + [x];
    assert forall i :: 0 <= i < |xs| ==> longer[i] == xs[i];
    if Distinct(longer) {
      forall i | 0 <= i < |xs|
        ensures xs[i] != x
      {
        assert longer[i] != longer[|xs|];
      }
    }
  }

  function Max(a: real, b: real): real { if a < b then b else a }

  function Min(a: real, b: real): real { if b < a then b else a }

  function MinNat(a: nat, b: nat): nat { if b < a then b else a }

  function MaxNat(a: nat, b: nat): nat { if a < b then b else a }

  /** The lists `give` makes of the elements, one after the other. */
  function Collect<T, U>(xs: seq<T>, give: T -> seq<U>): seq<U> {
    if xs == [] then [] else Collect(xs[..|xs| - 1], give) + give(xs[|xs| - 1])
  }

  lemma {:induction false} CollectWithout<T, U>(xs: seq<T>, give: T -> seq<U>, i: nat)
    requires i < |xs|
    ensures multiset(Collect(xs, give)) == multiset(Collect(xs[..i] + xs[i + 1..], give)) + multiset(give(xs[i]))
    decreases |xs|
  {
    var n := |xs| - 1;
    if i == n {
      assert xs[..i] + xs[i + 1..] == xs[..n];
    } else {
      var front := xs[..n];
      CollectWithout(front, give, i);
      WithoutFromFront(xs, i);
      CollectThen(front[..i] + front[i + 1..], give, xs[n]);
    }
  }

  lemma WithoutFromFront<T>(xs: seq<T>, i: nat)
    requires i + 1 < |xs|
    ensures
      var front := xs[..|xs| - 1];
      xs[..i] + xs[i + 1..] == (front[..i] + front[i + 1..]) + [xs[|xs| - 1]]
  {
    var front := xs[..|xs| - 1];
    assert xs[..i] == front[..i];
    assert xs[i + 1..] == front[i + 1..] + [xs[|xs| - 1]];
  }

  lemma CollectThen<T, U>(xs: seq<T>, give: T -> seq<U>, x: T)
    ensures Collect(xs + [x], give) == Collect(xs, give) + give(x)
  {
    assert (xs + [x])[..|xs|] == xs;
  }

  lemma Without<T>(xs: seq<T>, i: nat)
    requires i < |xs|
    ensures multiset(xs) == multiset(xs[..i] + xs[i + 1..]) + multiset{xs[i]}
  {
    assert xs == xs[..i] + ([xs[i]] + xs[i + 1..]);
  }

  /** Up to order, the collected list does not depend on the order of the elements. */
  lemma {:induction false} CollectIgnoresOrder<T, U>(xs: seq<T>, ys: seq<T>, give: T -> seq<U>)
    requires multiset(xs) == multiset(ys)
    ensures multiset(Collect(xs, give)) == multiset(Collect(ys, give))
    decreases |xs|
  {
    assert |xs| == |multiset(xs)| == |multiset(ys)| == |ys|;
    if xs != [] {
      var n := |xs| - 1;
      assert xs == xs[..n] + [xs[n]];
      assert xs[n] in multiset(ys);
      var i :| 0 <= i < |ys| && ys[i] == xs[n];
      var rest := ys[..i] + ys[i + 1..];
      Without(ys, i);
      assert multiset(xs) == multiset(xs[..n]) + multiset{xs[n]};
      assert multiset(rest) == multiset(xs) - multiset{xs[n]};
      CollectIgnoresOrder(xs[..n], rest, give);
      CollectWithout(ys, give, i);
    }
  }
}
