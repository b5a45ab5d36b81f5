/** Greedy grouping is optimal. */
module Greedy {
  // All three packers of the library close a group exactly when the next item no longer fits.

  import opened Text

  /** `groups` cuts `items`, in order, into non-empty groups that all fit. */
  ghost predicate IsGrouping<T>(groups: seq<seq<T>>, items: seq<T>, fits: seq<T> -> bool) {
    && Flatten(groups) == items
    && forall k :: 0 <= k < |groups| ==> groups[k] != [] && fits(groups[k])
  }

  /** No group could have taken the first item of the group after it. */
  ghost predicate IsGreedy<T>(groups: seq<seq<T>>, fits: seq<T> -> bool) {
    groups != [] ==>
      && groups[0] != []
      && (|groups| > 1 ==> groups[1] != [] && !fits(groups[0] + [groups[1][0]]))
      && IsGreedy(groups[1..], fits)
  }

  /** Every non-empty run of items inside a group that fits also fits. */
  ghost predicate Hereditary<T(!new)>(fits: seq<T> -> bool) {
    forall g: seq<T>, i: nat, j: nat :: fits(g) && i < j <= |g| ==> fits(g[i..j])
  }

  /** Staying ahead: a greedy cut of a suffix needs no more groups than any cut of the whole. */
  lemma {:induction false} StaysAhead<T(!new)>(greedy: seq<seq<T>>, other: seq<seq<T>>, fits: seq<T> -> bool,
                                               ahead: nat)
    requires Hereditary(fits) && IsGreedy(greedy, fits)
    requires forall k :: 0 <= k < |other| ==> other[k] != [] && fits(other[k])
    requires ahead <= |Flatten(other)| && Flatten(greedy) == Flatten(other)[ahead..]
    ensures |greedy| <= |other|
    decreases |other|
  {
    if greedy != [] {
      assert other != [];
      var mine, theirs := greedy[0], other[0];
      if |greedy| > 1 && ahead < |theirs| {
        var w := if |mine| + 1 <= |theirs| - ahead then |mine| + 1 else |theirs| - ahead;
        assert fits(theirs[ahead..ahead + w]);
        assert Flatten(other)[ahead..][..w] == theirs[ahead..ahead + w];
        assert Flatten(greedy)[..|mine| + 1] == mine + [greedy[1][0]];
      }
      var next := ahead + |mine| - |theirs|;
      assert Flatten(greedy[1..]) == Flatten(greedy)[|mine|..];
      assert Flatten(other[1..]) == Flatten(other)[|theirs|..];
      assert Flatten(other)[ahead..][|mine|..] == Flatten(other)[|theirs|..][next..];
      StaysAhead(greedy[1..], other[1..], fits, next);
    }
  }

  /** A greedy cut uses the fewest groups of all cuts whose groups fit. */
  lemma GreedyIsOptimal<T(!new)>(greedy: seq<seq<T>>, other: seq<seq<T>>, items: seq<T>, fits: seq<T> -> bool)
    requires Hereditary(fits) && IsGreedy(greedy, fits) && Flatten(greedy) == items
    requires IsGrouping(other, items, fits)
    ensures |greedy| <= |other|
  {
    assert items == items[0..];
    StaysAhead(greedy, other, fits, 0);
  }
}
