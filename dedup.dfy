/** The `[...new Set(xs)]` idiom the routes use to drop repeated values: a
    JavaScript Set iterates in insertion order, so the result keeps the first
    occurrence of every value, in the order those first occurrences appear. */
module Dedup {

  /** No value occurs twice. */
  predicate NoDup<T(==)>(xs: seq<T>)
  {
    forall i, j :: 0 <= i < j < |xs| ==> xs[i] != xs[j]
  }

  /** The position of the first occurrence of `x` in `xs`. */
  function FirstIndex<T(==)>(xs: seq<T>, x: T): (i: nat)
    requires x in xs
    ensures i < |xs| && xs[i] == x && x !in xs[..i]
  {
    if xs[0] == x then 0
    else
      assert xs == [xs[0]] + xs[1..];
      var k := FirstIndex(xs[1..], x);
      assert xs[..k + 1] == [xs[0]] + xs[1..][..k];
      k + 1
  }

  /** `[...new Set(xs)]`: each distinct value once, by first occurrence. */
  function Unique<T(==)>(xs: seq<T>): (r: seq<T>)
    ensures NoDup(r)
    ensures forall i :: 0 <= i < |r| ==> r[i] in xs
    ensures forall i :: 0 <= i < |xs| ==> xs[i] in r
    ensures |r| <= |xs|
  {
    if |xs| == 0 then []
    else
      var d := Unique(xs[..|xs| - 1]);
      var last := xs[|xs| - 1];
      assert xs == xs[..|xs| - 1] + [last];
      if last in d then d else d + [last]
  }

  lemma UniqueHasSameValues<T>(xs: seq<T>, x: T)
    ensures x in Unique(xs) <==> x in xs
  {
    if x in xs {
      var i :| 0 <= i < |xs| && xs[i] == x;
    }
  }

  /** Moving from a prefix to the whole sequence keeps first occurrences. */
  lemma FirstIndexPrefix<T>(xs: seq<T>, n: nat, x: T)
    requires n <= |xs| && x in xs[..n]
    ensures FirstIndex(xs, x) == FirstIndex(xs[..n], x)
  {
    var i, j := FirstIndex(xs, x), FirstIndex(xs[..n], x);
    assert xs[..n][j] == xs[j];
  }

  /** The output lists values in the order of their first occurrences. */
  lemma {:induction false} UniqueKeepsFirstOccurrenceOrder<T>(xs: seq<T>, i: nat, j: nat)
    requires i < j < |Unique(xs)|
    ensures FirstIndex(xs, Unique(xs)[i]) < FirstIndex(xs, Unique(xs)[j])
  {
    var n := |xs| - 1;
    var init, last := xs[..n], xs[n];
    var d := Unique(init);
    assert xs[..n] == init;
    if j < |d| {
      UniqueKeepsFirstOccurrenceOrder(init, i, j);
      FirstIndexPrefix(xs, n, d[i]);
      FirstIndexPrefix(xs, n, d[j]);
    } else {
      // the last element is new and sits at position n, after everything in init
      assert Unique(xs) == d + [last] && j == |d|;
      FirstIndexPrefix(xs, n, d[i]);
      assert last !in init;
      assert FirstIndex(xs, last) == n by {
        assert xs[..n] == init;
      }
    }
  }
}
