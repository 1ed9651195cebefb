/** Selections from a stream of records: the subsequence order, and the
    records a sequence of yes/no answers keeps. */
module Subsequence {
  import opened Records

  /** `a` can be obtained from `b` by deleting elements. */
  predicate IsSubsequence(a: seq<Entry>, b: seq<Entry>)
    decreases |b|
  {
    if a == [] then true
    else if b == [] then false
    else (a[|a| - 1] == b[|b| - 1] && IsSubsequence(a[..|a| - 1], b[..|b| - 1]))
         || IsSubsequence(a, b[..|b| - 1])
  }

  lemma SubsequenceSkip(a: seq<Entry>, b: seq<Entry>, x: Entry)
    requires IsSubsequence(a, b)
    ensures IsSubsequence(a, b + [x])
  {
    assert (b + [x])[..|b|] == b;
  }

  lemma SubsequenceKeep(a: seq<Entry>, b: seq<Entry>, x: Entry)
    requires IsSubsequence(a, b)
    ensures IsSubsequence(a + [x], b + [x])
  {
    assert (b + [x])[..|b|] == b;
    assert (a + [x])[..|a|] == a;
  }

  /** The elements of `s` whose flag in `keep` is set, in order. */
  function Kept(s: seq<Entry>, keep: seq<bool>): (r: seq<Entry>)
    requires |keep| == |s|
    ensures |r| <= |s|
    decreases |s|
  {
    if s == [] then []
    else Kept(s[..|s| - 1], keep[..|s| - 1]) + (if keep[|s| - 1] then [s[|s| - 1]] else [])
  }

  lemma KeptSnoc(s: seq<Entry>, keep: seq<bool>, x: Entry, b: bool)
    requires |keep| == |s|
    ensures Kept(s + [x], keep + [b]) == Kept(s, keep) + (if b then [x] else [])
  {
    assert (s + [x])[..|s|] == s;
    assert (keep + [b])[..|s|] == keep;
  }

  /** Keeping some elements deletes the others: the result is a subsequence. */
  lemma {:induction false} KeptIsSubsequence(s: seq<Entry>, keep: seq<bool>)
    requires |keep| == |s|
    ensures IsSubsequence(Kept(s, keep), s)
    decreases |s|
  {
    if s != [] {
      var init, x := s[..|s| - 1], s[|s| - 1];
      KeptIsSubsequence(init, keep[..|s| - 1]);
      assert init + [x] == s;
      var prev := Kept(init, keep[..|s| - 1]);
      if keep[|s| - 1] {
        SubsequenceKeep(prev, init, x);
      } else {
        assert Kept(s, keep) == prev + [];
        assert prev + [] == prev;
        SubsequenceSkip(prev, init, x);
      }
    }
  }
}
