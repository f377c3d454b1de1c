/** Totals of natural numbers, over a whole sequence and over chosen positions of it. */
module Sums {

  function Sum(xs: seq<nat>): nat
  {
    if |xs| == 0 then 0 else Sum(xs[..|xs| - 1]) + xs[|xs| - 1]
  }

  /** The total of the entries of `xs` whose positions are in `chosen`. */
  ghost function SumAt(xs: seq<nat>, chosen: set<nat>): nat
  {
    if |xs| == 0 then 0
    else SumAt(xs[..|xs| - 1], chosen) + (if |xs| - 1 in chosen then xs[|xs| - 1] else 0)
  }

  lemma {:induction false} SumAtEmpty(xs: seq<nat>)
    ensures SumAt(xs, {}) == 0
  {
    if |xs| == 0 {
    } else {
      SumAtEmpty(xs[..|xs| - 1]);
    }
  }

  lemma {:induction false} SumAtBeyond(xs: seq<nat>, chosen: set<nat>, i: nat)
    requires |xs| <= i
    ensures SumAt(xs, chosen + {i}) == SumAt(xs, chosen)
  {
    if |xs| == 0 {
    } else {
      SumAtBeyond(xs[..|xs| - 1], chosen, i);
    }
  }

  /** Choosing one more position adds exactly its entry. */
  lemma {:induction false} SumAtAdd(xs: seq<nat>, chosen: set<nat>, i: nat)
    requires i < |xs| && i !in chosen
    ensures SumAt(xs, chosen + {i}) == SumAt(xs, chosen) + xs[i]
  {
    if i == |xs| - 1 {
      SumAtBeyond(xs[..|xs| - 1], chosen, i);
    } else {
      SumAtAdd(xs[..|xs| - 1], chosen, i);
    }
  }

  lemma {:induction false} SumAtRemove(xs: seq<nat>, chosen: set<nat>, i: nat)
    requires i < |xs| && i in chosen
    ensures SumAt(xs, chosen - {i}) + xs[i] == SumAt(xs, chosen)
  {
    SumAtAdd(xs, chosen - {i}, i);
    assert chosen - {i} + {i} == chosen;
  }

  lemma {:induction false} SumAtBounded(xs: seq<nat>, chosen: set<nat>)
    ensures SumAt(xs, chosen) <= Sum(xs)
  {
    if |xs| == 0 {
    } else {
      SumAtBounded(xs[..|xs| - 1], chosen);
    }
  }

  lemma {:induction false} SumAtGrows(xs: seq<nat>, chosen: set<nat>, chosen': set<nat>)
    requires chosen <= chosen'
    ensures SumAt(xs, chosen) <= SumAt(xs, chosen')
  {
    if |xs| == 0 {
    } else {
      SumAtGrows(xs[..|xs| - 1], chosen, chosen');
    }
  }

  lemma {:induction false} SumMonotone(xs: seq<nat>, ys: seq<nat>)
    requires |xs| == |ys| && forall i :: 0 <= i < |xs| ==> xs[i] <= ys[i]
    ensures Sum(xs) <= Sum(ys)
    ensures Sum(xs) == Sum(ys) ==> xs == ys
  {
    if |xs| == 0 {
    } else {
      SumMonotone(xs[..|xs| - 1], ys[..|ys| - 1]);
    }
  }

  /** Adding one at position `i` adds one to the total. */
  lemma {:induction false} SumBump(xs: seq<nat>, i: nat)
    requires i < |xs|
    ensures Sum(xs[i := xs[i] + 1]) == Sum(xs) + 1
  {
    var ys := xs[i := xs[i] + 1];
    if i == |xs| - 1 {
      assert ys[..|ys| - 1] == xs[..|xs| - 1];
    } else {
      SumBump(xs[..|xs| - 1], i);
      assert ys[..|ys| - 1] == xs[..|xs| - 1][i := xs[i] + 1];
    }
  }
}
