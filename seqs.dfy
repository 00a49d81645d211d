/**
 * Sequence operations that the source gets from JavaScript's `Array.prototype.filter`,
 * `Array.prototype.find`, `new Set(...)` spread back into an array, and Python's list
 * comprehensions with an `if` clause.
 */
module Seqs {

  import opened Wrappers

  /** `a` is `b` with some elements dropped and the rest kept in their order. */
  predicate IsSubsequence<T(==)>(a: seq<T>, b: seq<T>)
  {
    if a == [] then true
    else if b == [] then false
    else if a[0] == b[0] then IsSubsequence(a[1..], b[1..])
    else IsSubsequence(a, b[1..])
  }

  /** No element occurs twice. */
  predicate NoDuplicates<T(==)>(s: seq<T>)
  {
    forall i, j :: 0 <= i < j < |s| ==> s[i] != s[j]
  }

  /**
   * `xs.filter(p)`: the elements satisfying `p`, in their order. Its contract states that
   * the result keeps exactly the satisfying elements and is an order-preserving subsequence.
   */
  function Filter<T(==, !new)>(xs: seq<T>, p: T -> bool): (r: seq<T>)
    ensures |r| <= |xs|
    ensures forall i :: 0 <= i < |r| ==> p(r[i])
    ensures forall x :: x in r <==> x in xs && p(x)
    ensures IsSubsequence(r, xs)
  {
    if xs == [] then []
    else
      var rest := Filter(xs[1..], p);
      assert xs == [xs[0]] + xs[1..];
      if p(xs[0]) then
        assert ([xs[0]] + rest)[1..] == rest;
        [xs[0]] + rest
      else
        SubsequenceOfTail(rest, xs);
        rest
  }

  /** A subsequence of the tail is a subsequence of the whole. */
  lemma {:induction false} SubsequenceOfTail<T>(a: seq<T>, b: seq<T>)
    requires b != [] && IsSubsequence(a, b[1..])
    ensures IsSubsequence(a, b)
    decreases |b|, 0
  {
    if a != [] && a[0] == b[0] {
      DropHead(a, b[1..]);
    }
  }

  /** Dropping the first element of a subsequence leaves a subsequence. */
  lemma {:induction false} DropHead<T>(a: seq<T>, c: seq<T>)
    requires a != [] && IsSubsequence(a, c)
    ensures IsSubsequence(a[1..], c)
    decreases |c|, 1
  {
    if a[0] == c[0] {
      if a[1..] != [] {
        SubsequenceOfTail(a[1..], c);
      }
    } else {
      DropHead(a, c[1..]);
      if a[1..] != [] {
        SubsequenceOfTail(a[1..], c);
      }
    }
  }

  /** Filtering distributes over concatenation, so it processes elements one at a time in order. */
  lemma {:induction false} FilterAppend<T(!new)>(xs: seq<T>, ys: seq<T>, p: T -> bool)
    ensures Filter(xs + ys, p) == Filter(xs, p) + Filter(ys, p)
  {
    if xs == [] {
      assert xs + ys == ys;
    } else {
      assert (xs + ys)[1..] == xs[1..] + ys;
      FilterAppend(xs[1..], ys, p);
    }
  }

  /** Filtering a prefix one element longer adds that element exactly when it satisfies `p`. */
  lemma FilterSnoc<T(!new)>(xs: seq<T>, i: nat, p: T -> bool)
    requires i < |xs|
    ensures Filter(xs[..i + 1], p) == Filter(xs[..i], p) + (if p(xs[i]) then [xs[i]] else [])
  {
    assert xs[..i + 1] == xs[..i] + [xs[i]];
    FilterAppend(xs[..i], [xs[i]], p);
    assert [xs[i]][1..] == [];
  }

  /** A sequence all of whose elements satisfy `p` passes through the filter unchanged. */
  lemma {:induction false} FilterKeepsAll<T(!new)>(xs: seq<T>, p: T -> bool)
    requires forall i :: 0 <= i < |xs| ==> p(xs[i])
    ensures Filter(xs, p) == xs
  {
    if xs != [] {
      FilterKeepsAll(xs[1..], p);
    }
  }

  /** A sequence none of whose elements satisfy `p` filters to nothing. */
  lemma {:induction false} FilterKeepsNone<T(!new)>(xs: seq<T>, p: T -> bool)
    requires forall i :: 0 <= i < |xs| ==> !p(xs[i])
    ensures Filter(xs, p) == []
  {
    if xs != [] {
      FilterKeepsNone(xs[1..], p);
    }
  }

  /** The filter keeps every element exactly when all satisfy `p`, and none exactly when none does. */
  lemma {:induction false} FilterLength<T(!new)>(xs: seq<T>, p: T -> bool)
    ensures |Filter(xs, p)| == |xs| <==> forall i :: 0 <= i < |xs| ==> p(xs[i])
    ensures |Filter(xs, p)| == 0 <==> forall i :: 0 <= i < |xs| ==> !p(xs[i])
  {
    if xs != [] {
      FilterLength(xs[1..], p);
      assert forall i :: 1 <= i < |xs| ==> xs[i] == xs[1..][i - 1];
    }
  }

  /** Filters by predicates that agree on every element give the same result. */
  lemma {:induction false} FilterExtensional<T(!new)>(xs: seq<T>, p: T -> bool, q: T -> bool)
    requires forall i :: 0 <= i < |xs| ==> p(xs[i]) == q(xs[i])
    ensures Filter(xs, p) == Filter(xs, q)
  {
    if xs != [] {
      FilterExtensional(xs[1..], p, q);
    }
  }

  /** Filtering twice with the same predicate is filtering once. */
  lemma FilterIdempotent<T(!new)>(xs: seq<T>, p: T -> bool)
    ensures Filter(Filter(xs, p), p) == Filter(xs, p)
  {
    FilterKeepsAll(Filter(xs, p), p);
  }

  /** Filtering by `p` and then by `q` is filtering by both at once. */
  lemma {:induction false} FilterFilter<T(!new)>(xs: seq<T>, p: T -> bool, q: T -> bool)
    ensures Filter(Filter(xs, p), q) == Filter(xs, x => p(x) && q(x))
  {
    if xs != [] {
      FilterFilter(xs[1..], p, q);
    }
  }

  /** Filtering by `p` and then by a stricter `q` is filtering by `q` alone. */
  lemma {:induction false} FilterNarrower<T(!new)>(xs: seq<T>, p: T -> bool, q: T -> bool)
    requires forall i :: 0 <= i < |xs| && q(xs[i]) ==> p(xs[i])
    ensures Filter(Filter(xs, p), q) == Filter(xs, q)
  {
    if xs != [] {
      FilterNarrower(xs[1..], p, q);
    }
  }

  /**
   * `xs.find(p)`: the first element satisfying `p`, or nothing when none does.
   */
  function Find<T(==)>(xs: seq<T>, p: T -> bool): (r: Option<T>)
    ensures r.Some? ==> exists i :: 0 <= i < |xs| && xs[i] == r.value && p(xs[i]) && FirstMatchAt(xs, p, i)
    ensures r.None? <==> forall i :: 0 <= i < |xs| ==> !p(xs[i])
  {
    if xs == [] then None
    else if p(xs[0]) then
      assert FirstMatchAt(xs, p, 0);
      Some(xs[0])
    else
      var r := Find(xs[1..], p);
      if r.Some? then
        var i :| 0 <= i < |xs[1..]| && xs[1..][i] == r.value && p(xs[1..][i]) && FirstMatchAt(xs[1..], p, i);
        assert FirstMatchAt(xs, p, i + 1);
        r
      else
        r
  }

  /** No element before position `i` satisfies `p`. */
  predicate FirstMatchAt<T>(xs: seq<T>, p: T -> bool, i: nat)
    requires i <= |xs|
  {
    forall j :: 0 <= j < i ==> !p(xs[j])
  }

  /** Position of the first occurrence of `x`, or `|xs|` when `x` does not occur. */
  function IndexOf<T(==)>(xs: seq<T>, x: T): (k: nat)
    ensures k <= |xs|
    ensures k < |xs| <==> x in xs
    ensures k < |xs| ==> xs[k] == x
    ensures forall j :: 0 <= j < k ==> xs[j] != x
  {
    if xs == [] then 0
    else if xs[0] == x then 0
    else 1 + IndexOf(xs[1..], x)
  }

  /**
   * `[...new Set(xs)]`: every value once, in the order of its first occurrence.
   * Built as a JavaScript `Set` is, by inserting `xs` one element at a time from the left.
   */
  function Distinct<T(==, !new)>(xs: seq<T>): (r: seq<T>)
    ensures NoDuplicates(r)
    ensures forall x :: x in r <==> x in xs
    ensures forall i, j :: 0 <= i < j < |r| ==> IndexOf(xs, r[i]) < IndexOf(xs, r[j])
  {
    if xs == [] then []
    else
      var init := xs[..|xs| - 1];
      var last := xs[|xs| - 1];
      var d := Distinct(init);
      assert xs == init + [last];
      forall y | y in init ensures IndexOf(xs, y) == IndexOf(init, y) {
        IndexOfPrefix(init, [last], y);
      }
      if last in d then d
      else
        assert IndexOf(xs, last) == |init| by {
          IndexOfPrefix(init, [last], last);
        }
        d + [last]
  }

  /** The first occurrence of an element of `a` in `a + b` is its first occurrence in `a`. */
  lemma {:induction false} IndexOfPrefix<T>(a: seq<T>, b: seq<T>, x: T)
    ensures x in a ==> IndexOf(a + b, x) == IndexOf(a, x)
    ensures x !in a ==> IndexOf(a + b, x) == |a| + IndexOf(b, x)
  {
    if a != [] {
      assert (a + b)[1..] == a[1..] + b;
      IndexOfPrefix(a[1..], b, x);
    } else {
      assert a + b == b;
    }
  }

  /**
   * `Distinct` is determined by its contract: any duplicate-free sequence holding exactly the
   * values of `xs`, ordered by first occurrence in `xs`, is `Distinct(xs)`.
   */
  lemma DistinctUnique<T(!new)>(xs: seq<T>, r: seq<T>)
    requires NoDuplicates(r)
    requires forall x :: x in r <==> x in xs
    requires forall i, j :: 0 <= i < j < |r| ==> IndexOf(xs, r[i]) < IndexOf(xs, r[j])
    ensures r == Distinct(xs)
  {
    var d := Distinct(xs);
    OrderedByIndexUnique(xs, r, d);
  }

  /** Two duplicate-free sequences of the same values, both ordered by first occurrence in `xs`, are equal. */
  lemma {:induction false} OrderedByIndexUnique<T(!new)>(xs: seq<T>, r: seq<T>, d: seq<T>)
    requires NoDuplicates(r) && NoDuplicates(d)
    requires forall x :: x in r ==> x in xs
    requires forall x :: x in r <==> x in d
    requires forall i, j :: 0 <= i < j < |r| ==> IndexOf(xs, r[i]) < IndexOf(xs, r[j])
    requires forall i, j :: 0 <= i < j < |d| ==> IndexOf(xs, d[i]) < IndexOf(xs, d[j])
    ensures r == d
  {
    assert d != [] ==> d[0] in r;
    assert r != [] ==> r[0] in d;
    if r != [] && d != [] {
      SameLeast(xs, r, d);
      SameTail(r, d);
      OrderedByIndexUnique(xs, r[1..], d[1..]);
      assert r == [r[0]] + r[1..];
      assert d == [d[0]] + d[1..];
    }
  }

  /** Both heads are the value whose first occurrence in `xs` comes earliest. */
  lemma SameLeast<T(!new)>(xs: seq<T>, r: seq<T>, d: seq<T>)
    requires r != [] && d != []
    requires r[0] in xs
    requires forall x :: x in r <==> x in d
    requires forall i, j :: 0 <= i < j < |r| ==> IndexOf(xs, r[i]) < IndexOf(xs, r[j])
    requires forall i, j :: 0 <= i < j < |d| ==> IndexOf(xs, d[i]) < IndexOf(xs, d[j])
    ensures r[0] == d[0]
  {
    assert r[0] in d;
    assert d[0] in r;
    var i :| 0 <= i < |d| && d[i] == r[0];
    var j :| 0 <= j < |r| && r[j] == d[0];
    assert IndexOf(xs, r[0]) <= IndexOf(xs, r[j]);
    assert IndexOf(xs, d[0]) <= IndexOf(xs, d[i]);
    var k := IndexOf(xs, r[0]);
    assert xs[k] == r[0] && xs[k] == d[0];
  }

  /** With equal heads and no duplicates, the tails hold the same values. */
  lemma SameTail<T(!new)>(r: seq<T>, d: seq<T>)
    requires r != [] && d != [] && r[0] == d[0]
    requires NoDuplicates(r) && NoDuplicates(d)
    requires forall x :: x in r <==> x in d
    ensures forall x :: x in r[1..] <==> x in d[1..]
  {
    forall x | x in r[1..] ensures x in d[1..] {
      var k :| 1 <= k < |r| && r[k] == x;
      assert x in d;
      var m :| 0 <= m < |d| && d[m] == x;
      assert m != 0;
      assert d[1..][m - 1] == x;
    }
    forall x | x in d[1..] ensures x in r[1..] {
      var k :| 1 <= k < |d| && d[k] == x;
      assert x in r;
      var m :| 0 <= m < |r| && r[m] == x;
      assert m != 0;
      assert r[1..][m - 1] == x;
    }
  }
}
