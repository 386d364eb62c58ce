/** Order-preserving selection from a sequence. */
module Seqs {

  /** The elements of `xs` whose flag in `keep` is set, in their original order. */
  function FilterBy<T>(xs: seq<T>, keep: seq<bool>): seq<T>
    requires |keep| == |xs|
    decreases |xs|
  {
    if xs == [] then []
    else FilterBy(xs[..|xs| - 1], keep[..|xs| - 1]) + (if keep[|xs| - 1] then [xs[|xs| - 1]] else [])
  }

  /** An element is selected exactly when it sits at a flagged position. */
  lemma {:induction false} FilterByMembership<T>(xs: seq<T>, keep: seq<bool>, x: T)
    requires |keep| == |xs|
    ensures x in FilterBy(xs, keep) <==> exists i :: 0 <= i < |xs| && keep[i] && xs[i] == x
    decreases |xs|
  {
    if xs != [] {
      var n := |xs| - 1;
      FilterByMembership(xs[..n], keep[..n], x);
      if exists i :: 0 <= i < n && keep[..n][i] && xs[..n][i] == x {
        var i :| 0 <= i < n && keep[..n][i] && xs[..n][i] == x;
        assert keep[i] && xs[i] == x;
      }
      if i :| 0 <= i < |xs| && keep[i] && xs[i] == x {
        if i < n {
          assert keep[..n][i] && xs[..n][i] == x;
        }
      }
    }
  }

  /** Selection never lengthens a sequence. */
  lemma {:induction false} FilterByShrinks<T>(xs: seq<T>, keep: seq<bool>)
    requires |keep| == |xs|
    ensures |FilterBy(xs, keep)| <= |xs|
    decreases |xs|
  {
    if xs != [] {
      FilterByShrinks(xs[..|xs| - 1], keep[..|xs| - 1]);
    }
  }

  /** Selection read from the front: the first element's fate, then the rest. */
  lemma {:induction false} FilterByFront<T>(xs: seq<T>, keep: seq<bool>)
    requires |keep| == |xs| > 0
    ensures FilterBy(xs, keep) == (if keep[0] then [xs[0]] else []) + FilterBy(xs[1..], keep[1..])
    decreases |xs|
  {
    var n := |xs| - 1;
    if n > 0 {
      FilterByFront(xs[..n], keep[..n]);
      assert xs[..n][1..] == xs[1..][..n - 1];
      assert keep[..n][1..] == keep[1..][..n - 1];
    }
  }
}
