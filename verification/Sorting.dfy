/** Python's `sorted` on strings: the result is ordered, holds the same strings, and so depends
    only on how often each one occurs. */
module Sorting {

  /** Python's `<=` on strings, by code point. */
  predicate LexLe(a: string, b: string) {
    a == "" || (b != "" && (a[0] < b[0] || (a[0] == b[0] && LexLe(a[1..], b[1..]))))
  }

  lemma {:induction false} LexTotal(a: string, b: string)
    ensures LexLe(a, b) || LexLe(b, a)
  {
    if a != "" && b != "" && a[0] == b[0] {
      LexTotal(a[1..], b[1..]);
    }
  }

  lemma {:induction false} LexAntisymmetric(a: string, b: string)
    requires LexLe(a, b) && LexLe(b, a)
    ensures a == b
  {
    if a != "" && b != "" && a[0] == b[0] {
      LexAntisymmetric(a[1..], b[1..]);
      assert a == [a[0]] + a[1..] && b == [b[0]] + b[1..];
    }
  }

  lemma {:induction false} LexTransitive(a: string, b: string, c: string)
    requires LexLe(a, b) && LexLe(b, c)
    ensures LexLe(a, c)
  {
    if a != "" && b != "" && c != "" && a[0] == b[0] == c[0] {
      LexTransitive(a[1..], b[1..], c[1..]);
    }
  }

  predicate Sorted(xs: seq<string>) {
    |xs| > 1 ==> LexLe(xs[0], xs[1]) && Sorted(xs[1..])
  }

  function Insert(x: string, xs: seq<string>): (r: seq<string>)
    ensures multiset(r) == multiset{x} + multiset(xs)
  {
    if xs == [] || LexLe(x, xs[0]) then [x] + xs
    else
      assert xs == [xs[0]] + xs[1..];
      [xs[0]] + Insert(x, xs[1..])
  }

  function Sort(xs: seq<string>): (r: seq<string>)
    ensures multiset(r) == multiset(xs)
  {
    if xs == [] then []
    else
      assert xs == [xs[0]] + xs[1..];
      Insert(xs[0], Sort(xs[1..]))
  }

  lemma {:induction false} InsertSorted(x: string, xs: seq<string>)
    requires Sorted(xs)
    ensures Sorted(Insert(x, xs))
  {
    if xs != [] && !LexLe(x, xs[0]) {
      LexTotal(x, xs[0]);
      InsertSorted(x, xs[1..]);
      assert (([xs[0]] + Insert(x, xs[1..]))[1..]) == Insert(x, xs[1..]);
    } else {
      assert ([x] + xs)[1..] == xs;
    }
  }

  lemma {:induction false} SortSorts(xs: seq<string>)
    ensures Sorted(Sort(xs))
  {
    if xs != [] {
      SortSorts(xs[1..]);
      InsertSorted(xs[0], Sort(xs[1..]));
    }
  }

  lemma {:induction false} HeadIsLeast(xs: seq<string>, x: string)
    requires Sorted(xs) && x in xs
    ensures LexLe(xs[0], x)
  {
    LexTotal(x, x);
    if x != xs[0] {
      assert xs == [xs[0]] + xs[1..];
      HeadIsLeast(xs[1..], x);
      LexTransitive(xs[0], xs[1], x);
    }
  }

  /** There is only one way to sort. */
  lemma {:induction false} SortedUnique(xs: seq<string>, ys: seq<string>)
    requires Sorted(xs) && Sorted(ys) && multiset(xs) == multiset(ys)
    ensures xs == ys
    decreases |xs|
  {
    assert |xs| == |multiset(xs)| == |multiset(ys)| == |ys|;
    if xs != [] {
      assert xs[0] in multiset(ys) && ys[0] in multiset(xs);
      HeadIsLeast(xs, ys[0]);
      HeadIsLeast(ys, xs[0]);
      LexAntisymmetric(xs[0], ys[0]);
      assert xs == [xs[0]] + xs[1..] && ys == [ys[0]] + ys[1..];
      assert multiset(xs[1..]) == multiset(xs) - multiset{xs[0]};
      assert multiset(ys[1..]) == multiset(ys) - multiset{ys[0]};
      SortedUnique(xs[1..], ys[1..]);
    }
  }

  /** So what is sorted depends on the multiset alone. */
  lemma SortByContents(xs: seq<string>, ys: seq<string>)
    ensures Sort(xs) == Sort(ys) <==> multiset(xs) == multiset(ys)
  {
    SortSorts(xs);
    SortSorts(ys);
    if multiset(xs) == multiset(ys) {
      SortedUnique(Sort(xs), Sort(ys));
    }
  }
}
