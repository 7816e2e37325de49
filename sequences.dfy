/** Small facts about sequences, stated once for any element type so that the proofs
    using them need not rediscover them, and the filter-and-push list that each of
    the route's page loops builds. */
module Sequences {

  function Min(a: int, b: int): int { if a <= b then a else b }

  lemma SplitLast<T>(s: seq<T>)
    requires s != []
    ensures s == s[..|s| - 1] + [s[|s| - 1]]
  {}

  lemma PrefixOfSuffix<T>(s: seq<T>, i: nat, n: nat)
    requires i + n <= |s|
    ensures s[i..][..n] == s[i..i + n]
  {}

  /** A prefix of a prefix is a prefix. */
  lemma PrefixOfPrefix<T>(a: seq<T>, t: seq<T>, b: seq<T>)
    requires |a + t| <= |b| && a + t == b[..|a + t|]
    ensures |a| <= |b| && a == b[..|a|]
  {
    assert a == (a + t)[..|a|];
  }

  /** The element after a prefix `a` in a sequence that starts with `p == a + [x]` is `x`. */
  lemma ElementAfterPrefix<T>(a: seq<T>, x: T, p: seq<T>, b: seq<T>)
    requires p == a + [x] && |p| <= |b| && p == b[..|p|]
    ensures |a| < |b| && b[|a|] == x
  {
    assert p[|a|] == x;
  }

  lemma DropLast<T>(p: seq<T>, x: T)
    ensures |p + [x]| - 1 == |p| && (p + [x])[..|p|] == p && (p + [x])[|p|] == x
  {}

  lemma IndexBeforeLast<T>(p: seq<T>, x: T, i: nat)
    requires i <= |p|
    ensures i < |p + [x]| && (p + [x])[i] == if i < |p| then p[i] else x
  {}

  lemma AppendAssoc<T>(a: seq<T>, b: seq<T>, c: seq<T>)
    ensures a + b + c == a + (b + c)
  {}

  lemma AppendLastAssoc<T>(a: seq<T>, b: seq<T>, x: T)
    ensures a + (b + [x]) == (a + b) + [x]
  {}

  /** Appending one element to one of three groups appends it to their
      concatenation when every later group is empty. */
  lemma Regroup<T>(a: seq<T>, b: seq<T>, c: seq<T>, t: seq<T>, u: seq<T>, v: seq<T>, x: T)
    requires || (t == [x] && u == [] && v == [] && b == [] && c == [])
             || (t == [] && u == [x] && v == [] && c == [])
             || (t == [] && u == [] && v == [x])
    ensures (a + t) + (b + u) + (c + v) == (a + b + c) + [x]
  {}

  /** Three groups of which two are empty concatenate to the third. */
  lemma OnlyGroup<T>(a: seq<T>, b: seq<T>, c: seq<T>)
    ensures b == [] && c == [] ==> a + b + c == a
    ensures a == [] && c == [] ==> a + b + c == b
    ensures a == [] && b == [] ==> a + b + c == c
  {}

  /** Adding one element to one of three groups adds it to the multiset of their
      concatenation. */
  lemma RegroupMultiset<T>(a: seq<T>, b: seq<T>, c: seq<T>, t: seq<T>, u: seq<T>, v: seq<T>, x: T)
    requires || (t == [x] && u == [] && v == [])
             || (t == [] && u == [x] && v == [])
             || (t == [] && u == [] && v == [x])
    ensures multiset((a + t) + (b + u) + (c + v)) == multiset(a + b + c) + multiset{x}
  {}

  /** The images under `f` of the elements of `xs` that `keep` accepts, in order:
      what a loop that visits `xs` and pushes `f(x)` for each kept `x` builds. */
  function FilterMap<T, U>(xs: seq<T>, keep: T -> bool, f: T -> U): (r: seq<U>)
    ensures |r| <= |xs|
  {
    if xs == [] then []
    else
      var last := xs[|xs| - 1];
      FilterMap(xs[..|xs| - 1], keep, f) + if keep(last) then [f(last)] else []
  }

  /** Visiting one more element pushes its image when it is kept. */
  lemma FilterMapSnoc<T, U>(xs: seq<T>, keep: T -> bool, f: T -> U, i: nat)
    requires i < |xs|
    ensures FilterMap(xs[..i + 1], keep, f)
            == FilterMap(xs[..i], keep, f) + if keep(xs[i]) then [f(xs[i])] else []
  {
    assert xs[..i + 1][..i] == xs[..i];
  }

  /** Visiting every element builds the whole list. */
  lemma FilterMapAll<T, U>(xs: seq<T>, keep: T -> bool, f: T -> U)
    ensures FilterMap(xs[..|xs|], keep, f) == FilterMap(xs, keep, f)
  {
    assert xs[..|xs|] == xs;
  }

  /** The images of the first `k` elements come first, in the same order. */
  lemma {:induction false} FilterMapPrefix<T, U>(xs: seq<T>, keep: T -> bool, f: T -> U, k: nat)
    requires k <= |xs|
    ensures |FilterMap(xs[..k], keep, f)| <= |FilterMap(xs, keep, f)|
    ensures FilterMap(xs[..k], keep, f) == FilterMap(xs, keep, f)[..|FilterMap(xs[..k], keep, f)|]
    decreases |xs| - k
  {
    if k < |xs| {
      FilterMapPrefix(xs, keep, f, k + 1);
      FilterMapSnoc(xs, keep, f, k);
      var t := if keep(xs[k]) then [f(xs[k])] else [];
      PrefixOfPrefix(FilterMap(xs[..k], keep, f), t, FilterMap(xs, keep, f));
    } else {
      assert xs[..k] == xs;
    }
  }

  /** Every image in the list comes from a kept element. */
  lemma {:induction false} FilterMapSound<T, U>(xs: seq<T>, keep: T -> bool, f: T -> U, y: U)
    returns (i: nat)
    requires y in FilterMap(xs, keep, f)
    ensures i < |xs| && keep(xs[i]) && y == f(xs[i])
  {
    var front := xs[..|xs| - 1];
    if y in FilterMap(front, keep, f) {
      i := FilterMapSound(front, keep, f, y);
      assert front[i] == xs[i];
    } else {
      i := |xs| - 1;
    }
  }

  /** A kept element's image sits right after the images of the elements before it. */
  lemma FilterMapAt<T, U>(xs: seq<T>, keep: T -> bool, f: T -> U, i: nat)
    requires i < |xs| && keep(xs[i])
    ensures |FilterMap(xs[..i], keep, f)| < |FilterMap(xs, keep, f)|
    ensures FilterMap(xs, keep, f)[|FilterMap(xs[..i], keep, f)|] == f(xs[i])
  {
    FilterMapSnoc(xs, keep, f, i);
    FilterMapPrefix(xs, keep, f, i + 1);
    ElementAfterPrefix(FilterMap(xs[..i], keep, f), f(xs[i]), FilterMap(xs[..i + 1], keep, f),
      FilterMap(xs, keep, f));
  }

  /** One entry per kept element: the list is exactly as long as the set of positions
      whose element is kept. */
  lemma {:induction false} FilterMapCount<T, U>(xs: seq<T>, keep: T -> bool, f: T -> U)
    ensures |FilterMap(xs, keep, f)| == |set i | 0 <= i < |xs| && keep(xs[i])|
  {
    if xs != [] {
      var n := |xs| - 1;
      var front := xs[..n];
      FilterMapCount(front, keep, f);
      var kept := set i | 0 <= i < n && keep(front[i]);
      var all := set i | 0 <= i < |xs| && keep(xs[i]);
      if keep(xs[n]) {
        assert all == kept + {n};
      } else {
        assert all == kept;
      }
    }
  }

  /** The positions below `n` whose element is kept. */
  function KeptBelow<T>(xs: seq<T>, keep: T -> bool, n: nat): set<int> {
    set i | 0 <= i < |xs| && i < n && keep(xs[i])
  }

  /** Filtering the first `n` elements keeps one entry per kept position below `n`. */
  lemma FilterMapPrefixCount<T, U>(xs: seq<T>, keep: T -> bool, f: T -> U, n: nat)
    ensures |FilterMap(xs[..Min(n, |xs|)], keep, f)| == |KeptBelow(xs, keep, n)|
  {
    var taken := xs[..Min(n, |xs|)];
    FilterMapCount(taken, keep, f);
    assert (set i | 0 <= i < |taken| && keep(taken[i])) == KeptBelow(xs, keep, n);
  }
}
