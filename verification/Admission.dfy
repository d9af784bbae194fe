// What the token bucket admits, compared with every other admission policy.
//
// A policy is judged by what it spends at each arrival. `Affordable` is the bucket's own
// accounting; `WithinRate` is a definition that mentions no bucket: over every interval
// of arrivals, the spending is at most the capacity plus what flows in.
module Admission {
  import opened Prelude
  import opened TokenBucket

  // Spending over the arrivals i, ..., j - 1.
  function Total(spent: seq<real>, i: nat, j: nat): real
    requires i <= j <= |spent|
  {
    if i == j then 0.0 else Total(spent, i, j - 1) + spent[j - 1]
  }

  // Tokens a bucket that starts full holds at arrival k, when the policy spends `spent`.
  function Held(limit: Limit, times: seq<real>, spent: seq<real>, k: nat): real
    requires |times| == |spent| && k < |times|
  {
    if k == 0 then limit.capacity
    else Min(limit.capacity, Held(limit, times, spent, k - 1) - spent[k - 1] + limit.Accrued(times[k - 1], times[k]))
  }

  predicate AffordableAt(limit: Limit, times: seq<real>, spent: seq<real>, k: nat)
    requires |times| == |spent| && k < |times|
  {
    0.0 <= spent[k] <= Held(limit, times, spent, k)
  }

  ghost predicate Affordable(limit: Limit, times: seq<real>, spent: seq<real>)
    requires |times| == |spent|
  {
    forall k: nat :: k < |times| ==> AffordableAt(limit, times, spent, k)
  }

  ghost predicate WithinRate(limit: Limit, times: seq<real>, spent: seq<real>)
    requires |times| == |spent|
  {
    && (forall k :: 0 <= k < |times| ==> spent[k] >= 0.0)
    && (forall i, j :: 0 <= i <= j < |times| ==>
          Total(spent, i, j + 1) <= limit.capacity + limit.Accrued(times[i], times[j]))
  }

  // The level is below every interval's allowance ...
  lemma {:induction false} HeldBelow(limit: Limit, times: seq<real>, spent: seq<real>, i: nat, k: nat)
    requires limit.Refilling() && |times| == |spent| && Ordered(times) && i <= k < |times|
    ensures Held(limit, times, spent, k) <= limit.capacity + limit.Accrued(times[i], times[k]) - Total(spent, i, k)
  {
    AccruedIsMonotone(limit, times[i], times[i], times[k]);
    if i == k {
    } else {
      HeldBelow(limit, times, spent, i, k - 1);
      AccruedIsMonotone(limit, times[i], times[k - 1], times[k]);
    }
  }

  // ... and equals one of them, the one that begins when the bucket was last full.
  lemma {:induction false} HeldAttained(limit: Limit, times: seq<real>, spent: seq<real>, k: nat) returns (i: nat)
    requires limit.Refilling() && |times| == |spent| && Ordered(times) && k < |times|
    ensures i <= k
    ensures Held(limit, times, spent, k) == limit.capacity + limit.Accrued(times[i], times[k]) - Total(spent, i, k)
  {
    if k == 0 || Held(limit, times, spent, k) == limit.capacity {
      i := k;
    } else {
      i := HeldAttained(limit, times, spent, k - 1);
      AccruedIsMonotone(limit, times[i], times[k - 1], times[k]);
    }
  }

  // The bucket can pay for exactly the spending patterns that keep the rate bound.
  lemma AffordableIffWithinRate(limit: Limit, times: seq<real>, spent: seq<real>)
    requires limit.Refilling() && |times| == |spent| && Ordered(times)
    ensures Affordable(limit, times, spent) <==> WithinRate(limit, times, spent)
  {
    if Affordable(limit, times, spent) {
      forall k | 0 <= k < |times| ensures spent[k] >= 0.0 {
        assert AffordableAt(limit, times, spent, k);
      }
      forall i, j | 0 <= i <= j < |times|
        ensures Total(spent, i, j + 1) <= limit.capacity + limit.Accrued(times[i], times[j])
      {
        HeldBelow(limit, times, spent, i, j);
        assert AffordableAt(limit, times, spent, j);
      }
    }
    if WithinRate(limit, times, spent) {
      forall k: nat | k < |times| ensures AffordableAt(limit, times, spent, k) {
        var i := HeldAttained(limit, times, spent, k);
        assert Total(spent, i, k + 1) == Total(spent, i, k) + spent[k];
      }
    }
  }

  // ----- The rate limiter's own run ----------------------------------------------------

  function Arrivals(calls: seq<Call>): (times: seq<real>)
    ensures |times| == |calls| && forall k {:trigger times[k]} :: 0 <= k < |calls| ==> times[k] == calls[k].now
  {
    seq(|calls|, k requires 0 <= k < |calls| => calls[k].now)
  }

  // What the limiter grants in a run over a new key.
  function Granted(limit: Limit, calls: seq<Call>): (spent: seq<real>)
    ensures |spent| == |calls|
    ensures forall k {:trigger spent[k]} :: 0 <= k < |calls| ==>
      spent[k] == if AdmitsAt(limit, Missing, calls, k) then calls[k].cost else 0.0
  {
    seq(|calls|, k requires 0 <= k < |calls| => if AdmitsAt(limit, Missing, calls, k) then calls[k].cost else 0.0)
  }

  // The level one call leaves for a later instant.
  lemma LevelAfter(limit: Limit, key: Key, call: Call, t: real)
    requires limit.Refilling() && Sound(limit, After(limit, key, call)) && call.now <= t
    ensures Level(limit, After(limit, key, call), t)
         == Min(limit.capacity, Left(Level(limit, key, call.now), call.cost) + limit.Accrued(call.now, t))
  {
    ExpiredMeansFull(limit, After(limit, key, call), t);
  }

  lemma {:induction false} RemainingIsHeldLessGranted(limit: Limit, calls: seq<Call>, k: nat)
    requires k < |calls|
    ensures
      var level := Level(limit, KeyBefore(limit, Missing, calls, k), calls[k].now);
      var held := Held(limit, Arrivals(calls), Granted(limit, calls), k);
      level == held ==> Left(level, calls[k].cost) == held - Granted(limit, calls)[k]
  {
  }

  lemma {:induction false} HeldFollowsRemaining(limit: Limit, calls: seq<Call>, k: nat)
    requires limit.Refilling() && Timely(Missing, calls) && 0 < k < |calls|
    ensures
      var left := Left(Level(limit, KeyBefore(limit, Missing, calls, k - 1), calls[k - 1].now), calls[k - 1].cost);
      var times, spent := Arrivals(calls), Granted(limit, calls);
      Sound(limit, KeyBefore(limit, Missing, calls, k)) && left == Held(limit, times, spent, k - 1) - spent[k - 1] ==>
        Level(limit, KeyBefore(limit, Missing, calls, k), calls[k].now) == Held(limit, times, spent, k)
  {
    if Sound(limit, KeyBefore(limit, Missing, calls, k)) {
      LevelAfter(limit, KeyBefore(limit, Missing, calls, k - 1), calls[k - 1], calls[k].now);
    }
  }

  lemma FullAtFirst(limit: Limit, calls: seq<Call>)
    requires |calls| > 0
    ensures Level(limit, KeyBefore(limit, Missing, calls, 0), calls[0].now)
         == Held(limit, Arrivals(calls), Granted(limit, calls), 0)
  {
  }

  // The level the script computes is what its grants leave of the inflow.
  lemma {:induction false} LimiterHoldsWhatItGranted(limit: Limit, calls: seq<Call>, k: nat)
    requires limit.Refilling() && Timely(Missing, calls) && k < |calls|
    ensures Level(limit, KeyBefore(limit, Missing, calls, k), calls[k].now)
         == Held(limit, Arrivals(calls), Granted(limit, calls), k)
    decreases k
  {
    hide Level, Held, Granted, Left, KeyBefore, Arrivals, Sound, Timely;
    if k == 0 {
      FullAtFirst(limit, calls);
    } else {
      LimiterHoldsWhatItGranted(limit, calls, k - 1);
      RemainingIsHeldLessGranted(limit, calls, k - 1);
      StoredTokensStayInRange(limit, Missing, calls, k);
      HeldFollowsRemaining(limit, calls, k);
    }
  }

  lemma {:induction false} GrantedIsAffordable(limit: Limit, calls: seq<Call>, k: nat)
    requires limit.Refilling() && Timely(Missing, calls) && k < |calls|
    ensures AffordableAt(limit, Arrivals(calls), Granted(limit, calls), k)
  {
    LimiterHoldsWhatItGranted(limit, calls, k);
    StoredTokensStayInRange(limit, Missing, calls, k);
  }

  lemma {:induction false} LimiterIsAffordable(limit: Limit, calls: seq<Call>)
    requires limit.Refilling() && Timely(Missing, calls)
    ensures Affordable(limit, Arrivals(calls), Granted(limit, calls)) && Ordered(Arrivals(calls))
  {
    forall k: nat | k < |calls|
      ensures AffordableAt(limit, Arrivals(calls), Granted(limit, calls), k)
    {
      GrantedIsAffordable(limit, calls, k);
    }
  }

  lemma WithinRateAt(limit: Limit, times: seq<real>, spent: seq<real>, i: nat, j: nat)
    requires |times| == |spent| && WithinRate(limit, times, spent) && i <= j < |times|
    ensures Total(spent, i, j + 1) <= limit.capacity + limit.Accrued(times[i], times[j])
  {
  }

  // Rate conformance, with key expiry and re-creation included: between the calls i and j
  // the limiter grants at most the capacity plus what flows in between them.
  lemma {:induction false} RateConformance(limit: Limit, calls: seq<Call>, i: nat, j: nat)
    requires limit.Refilling() && Timely(Missing, calls) && i <= j < |calls|
    ensures Total(Granted(limit, calls), i, j + 1)
         <= limit.capacity + limit.Accrued(calls[i].now, calls[j].now)
  {
    LimiterIsAffordable(limit, calls);
    AffordableIffWithinRate(limit, Arrivals(calls), Granted(limit, calls));
    WithinRateAt(limit, Arrivals(calls), Granted(limit, calls), i, j);
  }

  // ----- Greedy admission is optimal ---------------------------------------------------

  // How many of the first n arrivals are granted.
  function Grants(choice: seq<bool>, n: nat): nat
    requires n <= |choice|
  {
    if n == 0 then 0 else Grants(choice, n - 1) + if choice[n - 1] then 1 else 0
  }

  // The spending of a policy that either grants a call of the given cost or does not.
  function Spending(choice: seq<bool>, cost: real): (spent: seq<real>)
    ensures |spent| == |choice|
    ensures forall k {:trigger spent[k]} :: 0 <= k < |choice| ==> spent[k] == if choice[k] then cost else 0.0
  {
    seq(|choice|, k requires 0 <= k < |choice| => if choice[k] then cost else 0.0)
  }

  function Limiter(limit: Limit, calls: seq<Call>): (choice: seq<bool>)
    ensures |choice| == |calls|
    ensures forall k {:trigger choice[k]} :: 0 <= k < |calls| ==> choice[k] == AdmitsAt(limit, Missing, calls, k)
  {
    seq(|calls|, k requires 0 <= k < |calls| => AdmitsAt(limit, Missing, calls, k))
  }

  // Arrivals that all cost the same; the gateway's own calls cost one token.
  ghost predicate Uniform(calls: seq<Call>, cost: real) {
    forall k :: 0 <= k < |calls| ==> calls[k].cost == cost
  }

  // n calls' worth of tokens.
  function Worth(cost: real, n: nat): (total: real)
    requires cost > 0.0
    ensures total >= 0.0 && (n > 0 ==> total >= cost)
  {
    if n == 0 then 0.0 else Worth(cost, n - 1) + cost
  }

  // One arrival in the dominance argument: `mine` and `theirs` are the tokens held, `lead`
  // the number of grants the limiter is ahead.
  lemma DominanceStep(cost: real, mine: real, theirs: real, lead: nat, theyGrant: bool, weGrant: bool)
    requires cost > 0.0 && theirs <= mine + Worth(cost, lead)
    requires weGrant <==> mine >= cost
    requires theyGrant ==> theirs >= cost
    ensures
      var lead' := lead + (if weGrant then 1 else 0) - (if theyGrant then 1 else 0);
      && lead' >= 0
      && theirs - (if theyGrant then cost else 0.0)
         <= mine - (if weGrant then cost else 0.0) + Worth(cost, lead')
  {
  }

  // Refilling keeps the dominance.
  lemma DominanceRefill(limit: Limit, times: seq<real>, mine: seq<real>, theirs: seq<real>, k: nat, slack: real)
    requires |times| == |mine| == |theirs| && 0 < k < |times| && slack >= 0.0
    requires Held(limit, times, theirs, k - 1) - theirs[k - 1] <= Held(limit, times, mine, k - 1) - mine[k - 1] + slack
    ensures Held(limit, times, theirs, k) <= Held(limit, times, mine, k) + slack
  {
    var inflow := limit.Accrued(times[k - 1], times[k]);
    assert Held(limit, times, theirs, k)
        == Min(limit.capacity, Held(limit, times, theirs, k - 1) - theirs[k - 1] + inflow);
    assert Held(limit, times, mine, k) == Min(limit.capacity, Held(limit, times, mine, k - 1) - mine[k - 1] + inflow);
  }

  // A policy that grants whatever it can pay for.
  predicate GreedyAt(limit: Limit, times: seq<real>, choice: seq<bool>, cost: real, k: nat)
    requires |times| == |choice| && k < |times|
  {
    choice[k] <==> Held(limit, times, Spending(choice, cost), k) >= cost
  }

  ghost predicate Greedy(limit: Limit, times: seq<real>, choice: seq<bool>, cost: real)
    requires |times| == |choice|
  {
    forall k: nat :: k < |times| ==> GreedyAt(limit, times, choice, cost, k)
  }

  // The dominance invariant: a greedy policy is never behind, and whatever it holds less
  // than another policy it has already spent on extra grants.
  lemma {:induction false} Dominance(limit: Limit, times: seq<real>, cost: real, greedy: seq<bool>, other: seq<bool>,
                                     k: nat)
    requires |times| == |greedy| == |other| && k < |times| && cost > 0.0
    requires Greedy(limit, times, greedy, cost) && Affordable(limit, times, Spending(other, cost))
    ensures
      var mine, theirs := Spending(greedy, cost), Spending(other, cost);
      var lead := Grants(greedy, k + 1) - Grants(other, k + 1);
      && lead >= 0
      && Held(limit, times, theirs, k) - theirs[k]
         <= Held(limit, times, mine, k) - mine[k] + Worth(cost, lead)
    decreases k
  {
    var mine, theirs := Spending(greedy, cost), Spending(other, cost);
    var lead := Grants(greedy, k) - Grants(other, k);
    if k == 0 {
    } else {
      Dominance(limit, times, cost, greedy, other, k - 1);
      DominanceRefill(limit, times, mine, theirs, k, Worth(cost, lead));
    }
    assert GreedyAt(limit, times, greedy, cost, k) && AffordableAt(limit, times, theirs, k);
    hide Held, Worth;
    DominanceStep(cost, Held(limit, times, mine, k), Held(limit, times, theirs, k), lead, other[k], greedy[k]);
  }

  lemma LimiterIsGreedy(limit: Limit, calls: seq<Call>, cost: real)
    requires limit.Refilling() && Timely(Missing, calls) && Uniform(calls, cost)
    ensures Greedy(limit, Arrivals(calls), Limiter(limit, calls), cost)
  {
    assert Spending(Limiter(limit, calls), cost) == Granted(limit, calls);
    forall k: nat | k < |calls|
      ensures GreedyAt(limit, Arrivals(calls), Limiter(limit, calls), cost, k)
    {
      LimiterHoldsWhatItGranted(limit, calls, k);
    }
  }

  // Greedy admission is optimal: after every prefix of any arrivals, the limiter has
  // granted at least as many calls as any set of grants that keeps the rate bound.
  lemma {:induction false} GreedyIsOptimal(limit: Limit, calls: seq<Call>, cost: real, other: seq<bool>, n: nat)
    requires limit.Refilling() && Timely(Missing, calls) && Uniform(calls, cost) && cost > 0.0
    requires |other| == |calls| && WithinRate(limit, Arrivals(calls), Spending(other, cost))
    requires n <= |calls|
    ensures Grants(Limiter(limit, calls), n) >= Grants(other, n)
  {
    LimiterIsAffordable(limit, calls);
    AffordableIffWithinRate(limit, Arrivals(calls), Spending(other, cost));
    LimiterIsGreedy(limit, calls, cost);
    if n > 0 {
      Dominance(limit, Arrivals(calls), cost, Limiter(limit, calls), other, n - 1);
    }
  }
}
