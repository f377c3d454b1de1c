/**
 The largest-remainder apportionment of CPU slots: each lane's share of the budget in
 proportion to its request, rounded down, with the left-over slots going to the lanes
 with the largest remainders (earlier lanes first among equals).
 */
module CpuShares {
  import opened Sums

  /** Each request's exact share `budget * request / total`, rounded down. */
  function Floors(requests: seq<nat>, budget: nat, total: nat): (floors: seq<nat>)
    requires total > 0
    ensures |floors| == |requests|
  {
    seq(|requests|, i requires 0 <= i < |requests| => Quotient(budget, requests[i], total))
  }

  function Quotient(budget: nat, request: nat, total: nat): nat
    requires total > 0
  {
    budget * request / total
  }

  function Remainder(budget: nat, request: nat, total: nat): (r: nat)
    requires total > 0
    ensures r < total
  {
    budget * request % total
  }

  function Remainders(requests: seq<nat>, budget: nat, total: nat): (remainders: seq<nat>)
    requires total > 0
    ensures |remainders| == |requests|
    ensures forall i :: 0 <= i < |requests| ==> remainders[i] < total
  {
    seq(|requests|, i requires 0 <= i < |requests| => Remainder(budget, requests[i], total))
  }

  // ---------------------------------------------------------------- the order of remainders

  /** `i` ranks ahead of `j`: a larger remainder, or an equal one declared earlier. */
  predicate Ahead(remainders: seq<nat>, i: nat, j: nat)
    requires i < |remainders| && j < |remainders|
  {
    remainders[i] > remainders[j] || (remainders[i] == remainders[j] && i < j)
  }

  predicate IsRanking(remainders: seq<nat>, ranking: seq<nat>, n: nat)
    requires n <= |remainders|
  {
    && |ranking| == n
    && (forall k :: 0 <= k < n ==> ranking[k] < n)
    && (forall k, l :: 0 <= k < l < n ==> Ahead(remainders, ranking[k], ranking[l]))
    && forall i :: 0 <= i < n ==> i in ranking
  }

  function Insert(remainders: seq<nat>, ranking: seq<nat>, x: nat): seq<nat>
    requires x < |remainders| && forall k :: 0 <= k < |ranking| ==> ranking[k] < |remainders|
  {
    if ranking == [] || Ahead(remainders, x, ranking[0]) then [x] + ranking
    else [ranking[0]] + Insert(remainders, ranking[1..], x)
  }

  lemma {:induction false} InsertRanks(remainders: seq<nat>, ranking: seq<nat>, x: nat)
    requires x < |remainders| && forall k :: 0 <= k < |ranking| ==> ranking[k] < |remainders|
    requires x !in ranking
    requires forall k, l :: 0 <= k < l < |ranking| ==> Ahead(remainders, ranking[k], ranking[l])
    ensures var r := Insert(remainders, ranking, x);
            && |r| == |ranking| + 1
            && (forall i :: i in r <==> i == x || i in ranking)
            && (forall k :: 0 <= k < |r| ==> r[k] < |remainders|)
            && forall k, l :: 0 <= k < l < |r| ==> Ahead(remainders, r[k], r[l])
  {
    if ranking != [] && !Ahead(remainders, x, ranking[0]) {
      var rest := Insert(remainders, ranking[1..], x);
      InsertRanks(remainders, ranking[1..], x);
      var r := [ranking[0]] + rest;
      forall k, l | 0 <= k < l < |r|
        ensures Ahead(remainders, r[k], r[l])
      {
        assert r[l] in rest;
        if k == 0 && r[l] != x {
          var m :| 0 <= m < |ranking[1..]| && ranking[1..][m] == r[l];
          assert Ahead(remainders, ranking[0], ranking[m + 1]);
        }
      }
      assert forall i :: i in ranking <==> i == ranking[0] || i in ranking[1..];
    }
  }

  /** The first `n` lanes in order of decreasing remainder. */
  function Ranking(remainders: seq<nat>, n: nat): (ranking: seq<nat>)
    requires n <= |remainders|
    ensures IsRanking(remainders, ranking, n)
  {
    if n == 0 then []
    else
      var before := Ranking(remainders, n - 1);
      InsertRanks(remainders, before, n - 1);
      RankingMembers(remainders, before, n);
      Insert(remainders, before, n - 1)
  }

  lemma {:induction false} RankingMembers(remainders: seq<nat>, before: seq<nat>, n: nat)
    requires 0 < n <= |remainders| && IsRanking(remainders, before, n - 1)
    ensures n - 1 !in before
    ensures IsRanking(remainders, Insert(remainders, before, n - 1), n)
  {
    InsertRanks(remainders, before, n - 1);
    var r := Insert(remainders, before, n - 1);
    forall k | 0 <= k < n
      ensures r[k] < n
    {
      assert r[k] in r;
    }
  }

  // ---------------------------------------------------------------- the shares

  /** One more slot for each winner in turn. */
  function Bumped(floors: seq<nat>, winners: seq<nat>): (shares: seq<nat>)
    requires forall k :: 0 <= k < |winners| ==> winners[k] < |floors|
    ensures |shares| == |floors|
  {
    if winners == [] then floors
    else
      var last := winners[|winners| - 1];
      var shares := Bumped(floors, winners[..|winners| - 1]);
      shares[last := shares[last] + 1]
  }

  lemma {:induction false} BumpedNext(floors: seq<nat>, winners: seq<nat>, k: nat)
    requires k < |winners| && forall l :: 0 <= l < |winners| ==> winners[l] < |floors|
    ensures var shares := Bumped(floors, winners[..k]);
            Bumped(floors, winners[..k + 1]) == shares[winners[k] := shares[winners[k]] + 1]
  {
    var next := winners[..k + 1];
    assert next[..|next| - 1] == winners[..k];
  }

  function Leftover(requests: seq<nat>, budget: nat): (remaining: nat)
    requires 0 < Sum(requests)
    ensures remaining <= |requests|
  {
    LeftoverInRange(requests, budget);
    budget - Sum(Floors(requests, budget, Sum(requests)))
  }

  /** The lanes that get an extra slot. */
  function Winners(requests: seq<nat>, budget: nat): (winners: seq<nat>)
    requires 0 < Sum(requests)
    ensures forall k :: 0 <= k < |winners| ==> winners[k] < |requests|
  {
    Ranking(Remainders(requests, budget, Sum(requests)), |requests|)[..Leftover(requests, budget)]
  }

  /** The apportionment; a total at or above the budget leaves every request as it is. */
  function Shares(requests: seq<nat>, budget: nat): (shares: seq<nat>)
    ensures |shares| == |requests|
  {
    if Sum(requests) >= budget || Sum(requests) == 0 then requests
    else Bumped(Floors(requests, budget, Sum(requests)), Winners(requests, budget))
  }

  // ---------------------------------------------------------------- the quota rule

  /** Quotients and remainders together hold exactly `budget` times the requests. */
  lemma {:induction false} Balance(requests: seq<nat>, budget: nat, total: nat)
    requires total > 0
    ensures budget * Sum(requests)
         == total * Sum(Floors(requests, budget, total)) + Sum(Remainders(requests, budget, total))
  {
    if |requests| == 0 {
    } else {
      var init, last := requests[..|requests| - 1], requests[|requests| - 1];
      Balance(init, budget, total);
      var floors, remainders := Floors(requests, budget, total), Remainders(requests, budget, total);
      assert floors[..|floors| - 1] == Floors(init, budget, total);
      assert remainders[..|remainders| - 1] == Remainders(init, budget, total);
      BalanceStep(budget, total, Sum(init), last, Sum(Floors(init, budget, total)),
                  Sum(Remainders(init, budget, total)));
    }
  }

  lemma {:induction false} BalanceStep(budget: nat, total: nat, sum: nat, last: nat, floors: nat, remainders: nat)
    requires total > 0 && budget * sum == total * floors + remainders
    ensures budget * (sum + last)
         == total * (floors + Quotient(budget, last, total)) + (remainders + Remainder(budget, last, total))
  {
    var q, r := Quotient(budget, last, total), Remainder(budget, last, total);
    assert budget * last == total * q + r;
    assert budget * (sum + last) == budget * sum + budget * last;
    assert total * (floors + q) == total * floors + total * q;
  }

  lemma {:induction false} SumBelow(xs: seq<nat>, bound: nat)
    requires bound > 0 && forall i :: 0 <= i < |xs| ==> xs[i] < bound
    ensures Sum(xs) <= |xs| * (bound - 1)
  {
    if |xs| == 0 {
    } else {
      SumBelow(xs[..|xs| - 1], bound);
      assert |xs| * (bound - 1) == (|xs| - 1) * (bound - 1) + (bound - 1);
    }
  }

  /** The remainders are worth whole slots, fewer than there are lanes. */
  lemma {:induction false} LeftoverInRange(requests: seq<nat>, budget: nat)
    requires 0 < Sum(requests)
    ensures 0 <= budget - Sum(Floors(requests, budget, Sum(requests))) <= |requests|
  {
    var total := Sum(requests);
    var floors, remainders := Floors(requests, budget, total), Remainders(requests, budget, total);
    Balance(requests, budget, total);
    SumBelow(remainders, total);
    LeftoverTimes(total, budget, Sum(floors), Sum(remainders));
    LeftoverRange(total, budget - Sum(floors), Sum(remainders), |requests|);
  }

  /** The slots left over are worth exactly the remainders. */
  lemma {:induction false} LeftoverTimes(total: nat, budget: nat, floors: nat, remainders: nat)
    requires budget * total == total * floors + remainders
    ensures total * (budget - floors) == remainders
  {
    assert total * (budget - floors) == budget * total - total * floors;
  }

  lemma {:induction false} LeftoverRange(total: nat, remaining: int, remainders: nat, lanes: nat)
    requires total > 0 && total * remaining == remainders && remainders <= lanes * (total - 1)
    ensures 0 <= remaining <= lanes
  {
    assert total * (lanes + 1) == total * lanes + total;
    assert lanes * (total - 1) == total * lanes - lanes;
    if remaining < 0 {
      MulMonotone(total, remaining, -1);
    } else if remaining > lanes {
      MulMonotone(total, lanes + 1, remaining);
    }
  }

  lemma {:induction false} MulMonotone(c: nat, x: int, y: int)
    requires x <= y
    ensures c * x <= c * y
  {
    assert c * y - c * x == c * (y - x);
    assert 0 <= c * (y - x);
  }

  lemma {:induction false} BumpedAt(floors: seq<nat>, winners: seq<nat>, i: nat)
    requires forall k :: 0 <= k < |winners| ==> winners[k] < |floors|
    requires forall k, l :: 0 <= k < l < |winners| ==> winners[k] != winners[l]
    requires i < |floors|
    ensures Bumped(floors, winners)[i] == floors[i] + if i in winners then 1 else 0
  {
    if winners == [] {
    } else {
      BumpedAt(floors, winners[..|winners| - 1], i);
      assert i in winners <==> i in winners[..|winners| - 1] || i == winners[|winners| - 1];
    }
  }

  lemma {:induction false} BumpedSum(floors: seq<nat>, winners: seq<nat>)
    requires forall k :: 0 <= k < |winners| ==> winners[k] < |floors|
    ensures Sum(Bumped(floors, winners)) == Sum(floors) + |winners|
  {
    if winners == [] {
    } else {
      BumpedSum(floors, winners[..|winners| - 1]);
      SumBump(Bumped(floors, winners[..|winners| - 1]), winners[|winners| - 1]);
    }
  }

  /** When requests leave slots over, the shares hand out the budget exactly. */
  lemma {:induction false} SharesSpendTheBudget(requests: seq<nat>, budget: nat)
    requires 0 < Sum(requests) < budget
    ensures Sum(Shares(requests, budget)) == budget
  {
    BumpedSum(Floors(requests, budget, Sum(requests)), Winners(requests, budget));
  }

  // ---------------------------------------------------------------- who wins a slot

  ghost function Members(ranking: seq<nat>): set<nat>
  {
    set i | i in ranking
  }

  /** Positions from `k` on hold no remainder at all, so the first `k` hold the whole total. */
  lemma {:induction false} RankedTotal(remainders: seq<nat>, ranking: seq<nat>, bound: nat, k: nat, n: nat)
    requires IsRanking(remainders, ranking, |remainders|) && k <= n <= |remainders|
    requires bound > 0 && forall i :: 0 <= i < |remainders| ==> remainders[i] < bound
    requires forall l :: k <= l < n ==> remainders[ranking[l]] == 0
    ensures SumAt(remainders, Members(ranking[..n])) <= k * (bound - 1)
  {
    if n == 0 {
      assert Members(ranking[..0]) == {};
      SumAtEmpty(remainders);
    } else {
      var last := ranking[n - 1];
      assert Members(ranking[..n]) == Members(ranking[..n - 1]) + {last};
      assert forall l :: 0 <= l < n - 1 ==> Ahead(remainders, ranking[l], last);
      SumAtAdd(remainders, Members(ranking[..n - 1]), last);
      if n == k {
        RankedTotal(remainders, ranking, bound, k - 1, n - 1);
        TimesNext(k - 1, bound - 1);
      } else {
        RankedTotal(remainders, ranking, bound, k, n - 1);
      }
    }
  }

  lemma {:induction false} TimesNext(k: nat, c: nat)
    ensures (k + 1) * c == k * c + c
  {
  }

  lemma {:induction false} SumAtAll(xs: seq<nat>, chosen: set<nat>)
    requires forall i :: 0 <= i < |xs| ==> i in chosen
    ensures SumAt(xs, chosen) == Sum(xs)
  {
    if |xs| == 0 {
    } else {
      SumAtAll(xs[..|xs| - 1], chosen);
    }
  }

  lemma {:induction false} LeftoverExceeds(total: nat, remaining: nat, k: nat)
    requires total > 0 && k < remaining
    ensures k * (total - 1) < total * remaining
  {
    assert total * (k + 1) == total * k + total;
    assert k * (total - 1) == total * k - k;
    MulMonotone(total, k + 1, remaining);
  }

  /** Only a lane with a nonzero remainder wins an extra slot. */
  lemma {:induction false} WinnersHaveRemainders(requests: seq<nat>, budget: nat, k: nat)
    requires 0 < Sum(requests) && k < Leftover(requests, budget)
    ensures var remainders := Remainders(requests, budget, Sum(requests));
            remainders[Ranking(remainders, |requests|)[k]] > 0
  {
    var total := Sum(requests);
    var remainders := Remainders(requests, budget, total);
    var ranking := Ranking(remainders, |requests|);
    if remainders[ranking[k]] == 0 {
      forall l | k <= l < |requests|
        ensures remainders[ranking[l]] == 0
      {
        assert l > k ==> Ahead(remainders, ranking[k], ranking[l]);
      }
      RankedTotal(remainders, ranking, total, k, |requests|);
      assert ranking[..|requests|] == ranking;
      SumAtAll(remainders, Members(ranking));
      Balance(requests, budget, total);
      LeftoverTimes(total, budget, Sum(Floors(requests, budget, total)), Sum(remainders));
      LeftoverExceeds(total, Leftover(requests, budget), k);
      assert false;
    }
  }

  lemma {:induction false} ShareAt(requests: seq<nat>, budget: nat, i: nat)
    requires 0 < Sum(requests) < budget && i < |requests|
    ensures Shares(requests, budget)[i]
         == Quotient(budget, requests[i], Sum(requests)) + if i in Winners(requests, budget) then 1 else 0
  {
    var remainders := Remainders(requests, budget, Sum(requests));
    var ranking := Ranking(remainders, |requests|);
    var winners := Winners(requests, budget);
    assert forall k, l :: 0 <= k < l < |winners| ==> Ahead(remainders, ranking[k], ranking[l]);
    BumpedAt(Floors(requests, budget, Sum(requests)), winners, i);
  }

  /** Every share is its floor, or one more where a remainder is left. */
  lemma {:induction false} ShareIsFloorOrNext(requests: seq<nat>, budget: nat, i: nat)
    requires 0 < Sum(requests) < budget && i < |requests|
    ensures var total := Sum(requests);
            var share, floor := Shares(requests, budget)[i], Quotient(budget, requests[i], total);
            share == floor || (share == floor + 1 && Remainder(budget, requests[i], total) > 0)
  {
    ShareAt(requests, budget, i);
    var winners := Winners(requests, budget);
    if i in winners {
      var k :| 0 <= k < |winners| && winners[k] == i;
      WinnersHaveRemainders(requests, budget, k);
    }
  }

  /** `share` is the exact quotient `amount / total` rounded down or up. */
  ghost predicate RoundsQuotient(share: int, amount: int, total: int)
  {
    share * total - total < amount < share * total + total
  }

  lemma {:induction false} FloorOrNextRounds(budget: nat, request: nat, total: nat)
    requires total > 0
    ensures var floor := Quotient(budget, request, total);
            && RoundsQuotient(floor, budget * request, total)
            && (Remainder(budget, request, total) > 0 ==> RoundsQuotient(floor + 1, budget * request, total))
  {
    var q := Quotient(budget, request, total);
    assert budget * request == q * total + Remainder(budget, request, total);
    assert (q + 1) * total == q * total + total;
  }

  /** The quota rule: every share is the lane's exact share of the budget rounded down or up. */
  lemma {:induction false} SharesObeyQuota(requests: seq<nat>, budget: nat, i: nat)
    requires 0 < Sum(requests) < budget && i < |requests|
    ensures RoundsQuotient(Shares(requests, budget)[i], budget * requests[i], Sum(requests))
  {
    hide RoundsQuotient, Shares;
    ShareIsFloorOrNext(requests, budget, i);
    FloorOrNextRounds(budget, requests[i], Sum(requests));
  }

  /** No lane is given fewer slots than it asked for. */
  lemma {:induction false} SharesCoverRequests(requests: seq<nat>, budget: nat, i: nat)
    requires i < |requests|
    ensures requests[i] <= Shares(requests, budget)[i]
  {
    var total := Sum(requests);
    if 0 < total < budget {
      ShareIsFloorOrNext(requests, budget, i);
      QuotientCovers(budget, requests[i], total);
    }
  }

  lemma {:induction false} QuotientCovers(budget: nat, request: nat, total: nat)
    requires 0 < total < budget
    ensures request <= Quotient(budget, request, total)
  {
    var q := Quotient(budget, request, total);
    assert budget * request == total * q + Remainder(budget, request, total);
    assert total * (q + 1) == total * q + total;
    MulMonotone(request, total, budget);
    if q < request {
      MulMonotone(total, q + 1, request);
    }
  }

  /** A strictly larger request never gets fewer slots. */
  lemma {:induction false} SharesMonotone(requests: seq<nat>, budget: nat, i: nat, j: nat)
    requires i < |requests| && j < |requests| && requests[i] > requests[j]
    ensures Shares(requests, budget)[i] >= Shares(requests, budget)[j]
  {
    var total := Sum(requests);
    if 0 < total < budget {
      ShareIsFloorOrNext(requests, budget, i);
      ShareIsFloorOrNext(requests, budget, j);
      QuotientGap(budget, requests[i], requests[j], total);
    }
  }

  lemma {:induction false} QuotientGap(budget: nat, larger: nat, smaller: nat, total: nat)
    requires 0 < total < budget && smaller < larger
    ensures Quotient(budget, smaller, total) + 1 <= Quotient(budget, larger, total)
  {
    var p, q := Quotient(budget, smaller, total), Quotient(budget, larger, total);
    assert budget * smaller == total * p + Remainder(budget, smaller, total);
    assert budget * larger == total * q + Remainder(budget, larger, total);
    MulMonotone(budget, smaller + 1, larger);
    assert budget * (smaller + 1) == budget * smaller + budget;
    if q <= p {
      MulMonotone(total, q, p);
    }
  }

  // ---------------------------------------------------------------- the rule determines the shares

  /**
   What a largest-remainder apportionment is, without saying how it is computed: it spends the
   budget, gives each lane its floor or one more, and a lane that gets the extra slot is never
   behind one that does not.
   */
  ghost predicate IsLargestRemainder(requests: seq<nat>, budget: nat, shares: seq<nat>)
    requires 0 < Sum(requests)
  {
    var total := Sum(requests);
    var floors := Floors(requests, budget, total);
    && |shares| == |requests|
    && Sum(shares) == budget
    && (forall i :: 0 <= i < |requests| ==> floors[i] <= shares[i] <= floors[i] + 1)
    && forall i, j :: 0 <= i < |requests| && 0 <= j < |requests| && shares[i] == floors[i] && shares[j] > floors[j]
                      ==> GoesBefore(budget, requests[j], requests[i], total, j < i)
  }

  /** A larger remainder of the exact share goes before a smaller one, and among equals the earlier lane. */
  ghost predicate GoesBefore(budget: nat, request: nat, other: nat, total: nat, isEarlier: bool)
    requires total > 0
  {
    || budget * request % total > budget * other % total
    || (budget * request % total == budget * other % total && isEarlier)
  }

  lemma {:induction false} PrefixIsAhead(remainders: seq<nat>, ranking: seq<nat>, n: nat, i: nat, j: nat)
    requires IsRanking(remainders, ranking, |remainders|) && n <= |ranking|
    requires i < |remainders| && j < |remainders| && j in ranking[..n] && Ahead(remainders, i, j)
    ensures i in ranking[..n]
  {
    var l :| 0 <= l < n && ranking[l] == j;
    assert i in ranking;
    var k :| 0 <= k < |ranking| && ranking[k] == i;
    assert l < k ==> Ahead(remainders, ranking[l], ranking[k]);
    assert ranking[..n][k] == i;
  }

  lemma {:induction false} SharesAreLargestRemainder(requests: seq<nat>, budget: nat)
    requires 0 < Sum(requests) < budget
    ensures IsLargestRemainder(requests, budget, Shares(requests, budget))
  {
    hide Shares;
    var remainders, shares := Remainders(requests, budget, Sum(requests)), Shares(requests, budget);
    var floors := Floors(requests, budget, Sum(requests));
    SharesSpendTheBudget(requests, budget);
    forall i | 0 <= i < |requests|
      ensures shares[i] == floors[i] + if i in Winners(requests, budget) then 1 else 0
    {
      ShareAt(requests, budget, i);
    }
    forall i, j | 0 <= i < |requests| && 0 <= j < |requests| && shares[i] == floors[i] && shares[j] > floors[j]
      ensures GoesBefore(budget, requests[j], requests[i], Sum(requests), j < i)
    {
      if Ahead(remainders, i, j) {
        PrefixIsAhead(remainders, Ranking(remainders, |requests|), Leftover(requests, budget), i, j);
      } else {
        assert remainders[i] == budget * requests[i] % Sum(requests);
      }
    }
  }

  /** Two largest-remainder apportionments of one budget agree. */
  lemma {:induction false} LargestRemainderIsUnique(requests: seq<nat>, budget: nat, a: seq<nat>, b: seq<nat>)
    requires 0 < Sum(requests)
    requires IsLargestRemainder(requests, budget, a) && IsLargestRemainder(requests, budget, b)
    ensures a == b
  {
    var floors := Floors(requests, budget, Sum(requests));
    if i :| 0 <= i < |requests| && a[i] > b[i] {
      assert forall j :: 0 <= j < |requests| ==> b[j] <= a[j];
      SumMonotone(b, a);
    } else {
      SumMonotone(a, b);
    }
  }
}
