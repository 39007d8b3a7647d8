/** Python's `sorted`, over any total order, and the code-point order of strings. */
module Ordering {

  ghost predicate TotalOrder<T(!new)>(leq: (T, T) -> bool) {
    && (forall a, b :: leq(a, b) || leq(b, a))
    && (forall a, b, c :: leq(a, b) && leq(b, c) ==> leq(a, c))
  }

  /** No two different elements of `xs` are tied. */
  predicate Separates<T(==)>(leq: (T, T) -> bool, xs: seq<T>) {
    forall i, j :: 0 <= i < |xs| && 0 <= j < |xs| && leq(xs[i], xs[j]) && leq(xs[j], xs[i])
                   ==> xs[i] == xs[j]
  }

  predicate SortedBy<T>(xs: seq<T>, leq: (T, T) -> bool) {
    forall i, j :: 0 <= i < j < |xs| ==> leq(xs[i], xs[j])
  }

  function Insert<T>(x: T, xs: seq<T>, leq: (T, T) -> bool): (r: seq<T>)
    ensures multiset(r) == multiset{x} + multiset(xs)
    ensures |r| == |xs| + 1
  {
    if xs == [] then [x]
    else if leq(x, xs[0]) then [x] + xs
    else
      assert xs == [xs[0]] + xs[1..];
      [xs[0]] + Insert(x, xs[1..], leq)
  }

  function SortBy<T>(xs: seq<T>, leq: (T, T) -> bool): (r: seq<T>)
    ensures multiset(r) == multiset(xs)
    ensures |r| == |xs|
  {
    if xs == [] then []
    else
      assert xs == [xs[0]] + xs[1..];
      Insert(xs[0], SortBy(xs[1..], leq), leq)
  }

  lemma {:induction false} InsertKeepsOrder<T(!new)>(x: T, xs: seq<T>, leq: (T, T) -> bool)
    requires TotalOrder(leq) && SortedBy(xs, leq)
    ensures SortedBy(Insert(x, xs, leq), leq)
  {
    if xs != [] && !leq(x, xs[0]) {
      var rest := Insert(x, xs[1..], leq);
      InsertKeepsOrder(x, xs[1..], leq);
      forall j | 0 <= j < |rest|
        ensures leq(xs[0], rest[j])
      {
        assert rest[j] in multiset(rest);
        assert rest[j] == x || rest[j] in multiset(xs[1..]);
      }
    }
  }

  lemma {:induction false} SortOrders<T(!new)>(xs: seq<T>, leq: (T, T) -> bool)
    requires TotalOrder(leq)
    ensures SortedBy(SortBy(xs, leq), leq)
  {
    if xs != [] {
      SortOrders(xs[1..], leq);
      InsertKeepsOrder(xs[0], SortBy(xs[1..], leq), leq);
    }
  }

  /** A sorted list is determined by its elements. */
  lemma {:induction false} SortedIsUnique<T(!new)>(xs: seq<T>, ys: seq<T>, leq: (T, T) -> bool)
    requires TotalOrder(leq) && SortedBy(xs, leq) && SortedBy(ys, leq)
    requires multiset(xs) == multiset(ys) && Separates(leq, xs)
    ensures xs == ys
  {
    SameLength(xs, ys);
    if xs != [] {
      SameHead(xs, ys, leq);
      assert multiset(xs[1..]) == multiset(ys[1..]) by {
        HeadAndTail(xs);
        HeadAndTail(ys);
      }
      SortedIsUnique(xs[1..], ys[1..], leq);
      assert xs == [xs[0]] + xs[1..] && ys == [ys[0]] + ys[1..];
    }
  }

  lemma SameLength<T>(xs: seq<T>, ys: seq<T>)
    requires multiset(xs) == multiset(ys)
    ensures |xs| == |ys|
  {
    assert |xs| == |multiset(xs)| == |multiset(ys)| == |ys|;
  }

  lemma SameHead<T(!new)>(xs: seq<T>, ys: seq<T>, leq: (T, T) -> bool)
    requires TotalOrder(leq) && SortedBy(xs, leq) && SortedBy(ys, leq)
    requires xs != [] && ys != [] && multiset(xs) == multiset(ys) && Separates(leq, xs)
    ensures xs[0] == ys[0]
  {
    assert xs[0] in multiset(ys);
    var i :| 0 <= i < |ys| && ys[i] == xs[0];
    assert ys[0] in multiset(xs);
    var j :| 0 <= j < |xs| && xs[j] == ys[0];
  }

  lemma HeadAndTail<T>(xs: seq<T>)
    requires xs != []
    ensures multiset(xs[1..]) == multiset(xs) - multiset{xs[0]}
  {
    assert xs == [xs[0]] + xs[1..];
  }

  /** The order in which the elements arrive does not matter. */
  lemma SortIgnoresOrder<T(!new)>(xs: seq<T>, ys: seq<T>, leq: (T, T) -> bool)
    requires TotalOrder(leq) && multiset(xs) == multiset(ys) && Separates(leq, xs)
    ensures SortBy(xs, leq) == SortBy(ys, leq)
  {
    SortOrders(xs, leq);
    SortOrders(ys, leq);
    SeparatesPermuted(leq, xs, SortBy(xs, leq));
    SortedIsUnique(SortBy(xs, leq), SortBy(ys, leq), leq);
  }

  lemma SeparatesPermuted<T(!new)>(leq: (T, T) -> bool, xs: seq<T>, ys: seq<T>)
    requires multiset(xs) == multiset(ys) && Separates(leq, xs)
    ensures Separates(leq, ys)
  {
    forall i, j | 0 <= i < |ys| && 0 <= j < |ys| && leq(ys[i], ys[j]) && leq(ys[j], ys[i])
      ensures ys[i] == ys[j]
    {
      assert ys[i] in multiset(xs) && ys[j] in multiset(xs);
      var a :| 0 <= a < |xs| && xs[a] == ys[i];
      var b :| 0 <= b < |xs| && xs[b] == ys[j];
    }
  }

  // ----- Strings ------------------------------------------------------------

  predicate Leq(a: string, b: string) {
    a == [] || (b != [] && (a[0] < b[0] || (a[0] == b[0] && Leq(a[1..], b[1..]))))
  }

  lemma LeqTotal(a: string, b: string)
    ensures Leq(a, b) || Leq(b, a)
  {
    if a != [] && b != [] { LeqTotal(a[1..], b[1..]); }
  }

  lemma LeqAntisymmetric(a: string, b: string)
    requires Leq(a, b) && Leq(b, a)
    ensures a == b
  {
    if a != [] {
      LeqAntisymmetric(a[1..], b[1..]);
      assert a == [a[0]] + a[1..] && b == [b[0]] + b[1..];
    }
  }

  lemma LeqTransitive(a: string, b: string, c: string)
    requires Leq(a, b) && Leq(b, c)
    ensures Leq(a, c)
  {
    if a != [] && a[0] == b[0] == c[0] { LeqTransitive(a[1..], b[1..], c[1..]); }
  }

  lemma StringsAreOrdered()
    ensures TotalOrder(Leq)
    ensures forall a, b :: Leq(a, b) && Leq(b, a) ==> a == b
  {
    forall a, b ensures Leq(a, b) || Leq(b, a) { LeqTotal(a, b); }
    forall a, b | Leq(a, b) && Leq(b, a) ensures a == b { LeqAntisymmetric(a, b); }
    forall a, b, c | Leq(a, b) && Leq(b, c) ensures Leq(a, c) { LeqTransitive(a, b, c); }
  }

  /** The code-point order: a proper prefix comes first, else the first difference decides. */
  ghost predicate Precedes(a: string, b: string) { exists k: nat :: PartAt(a, b, k) }

  predicate PartAt(a: string, b: string, k: nat) {
    k <= |a| && k < |b| && a[..k] == b[..k] && (k == |a| || a[k] < b[k])
  }

  lemma {:induction false} LeqMeans(a: string, b: string)
    ensures Leq(a, b) && a != b <==> Precedes(a, b)
  {
    if a == [] || b == [] || a[0] != b[0] {
      assert Leq(a, b) && a != b ==> PartAt(a, b, 0);
      if k: nat :| PartAt(a, b, k) {
        PartStartsAlike(a, b, k);
      }
    } else {
      LeqMeans(a[1..], b[1..]);
      assert a == [a[0]] + a[1..] && b == [b[0]] + b[1..];
      if k: nat :| PartAt(a[1..], b[1..], k) {
        PartOneLater(a, b, k);
      }
      if k: nat :| PartAt(a, b, k) {
        assert k > 0;
        PartOneLater(a, b, k - 1);
      }
    }
  }

  lemma PartStartsAlike(a: string, b: string, k: nat)
    requires PartAt(a, b, k)
    ensures k > 0 ==> a != [] && b != [] && a[0] == b[0]
  {
    if k > 0 { assert a[..k][0] == b[..k][0]; }
  }

  lemma PartOneLater(a: string, b: string, k: nat)
    requires a != [] && b != [] && a[0] == b[0]
    ensures PartAt(a[1..], b[1..], k) <==> PartAt(a, b, k + 1)
  {
    if k < |a| && k < |b| {
      assert a[..k + 1] == [a[0]] + a[1..][..k] && b[..k + 1] == [b[0]] + b[1..][..k];
    }
  }

  /** The elements of a set of strings in ascending order: `sorted(s)`. */
  function Ascending(s: set<string>): (r: seq<string>)
    ensures forall x :: x in r <==> x in s
    ensures forall i, j :: 0 <= i < j < |r| ==> r[i] != r[j] && Leq(r[i], r[j])
    ensures |r| == |s|
    decreases |s|
  {
    if s == {} then []
    else
      var x := Minimum(s);
      [x] + Ascending(s - {x})
  }

  function Minimum(s: set<string>): (x: string)
    requires s != {}
    ensures x in s && forall y :: y in s ==> Leq(x, y)
  {
    StringsAreOrdered();
    LeastExists(s);
    var x :| x in s && forall y :: y in s ==> Leq(x, y);
    x
  }

  lemma LeastExists(s: set<string>)
    requires s != {}
    ensures exists x :: x in s && forall y :: y in s ==> Leq(x, y)
  {
    var w := Least(s);
  }

  lemma {:induction false} Least(s: set<string>) returns (w: string)
    requires s != {}
    ensures w in s && forall y :: y in s ==> Leq(w, y)
    decreases |s|
  {
    var z :| z in s;
    var rest := s - {z};
    LeqTotal(z, z);
    w := z;
    if rest != {} {
      var x := Least(rest);
      LeqTotal(x, z);
      if Leq(x, z) {
        w := x;
      } else {
        forall y | y in rest
          ensures Leq(z, y)
        {
          LeqTransitive(z, x, y);
        }
      }
    }
    assert forall y :: y in s ==> y == z || y in rest;
  }
}
