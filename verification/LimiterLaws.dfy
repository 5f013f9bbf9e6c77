/**
 * What the limiter is for: its own choice is within the rate, and no choice within the rate forwards
 * more than it does, both up to the rounding of the refills, which is none in exact arithmetic.
 */
module LimiterLaws {
  import opened RateLimiters

  // ----- No other choice forwards more -----

  function Picked(choice: seq<bool>, i: nat, k: nat): (n: nat)
    requires k <= |choice|
    decreases k
  {
    if k <= i then 0 else Picked(choice, i, k - 1) + if choice[k - 1] then 1 else 0
  }

  /**
   * A choice of arrivals every window of which fits its allowance with `delta` to spare for each
   * refill, or exceeds it by no more than that if `delta` is negative.
   */
  ghost predicate Feasible(capacity: nat, times: seq<nat>, choice: seq<bool>, delta: real)
    requires |choice| == |times|
  {
    forall i, k :: 0 <= i <= k < |times| && choice[k] ==>
      Picked(choice, i, k) as real + 1.0 + Slack(delta, i, k) <= Allowance(capacity, times, i, k)
  }

  lemma {:induction false} Additive(refill: Refill, capacity: nat, times: seq<nat>, choice: seq<bool>, i: nat, k: nat)
    requires i <= k <= |times| == |choice|
    ensures Forwards(refill, capacity, times, 0, k) ==
            Forwards(refill, capacity, times, 0, i) + Forwards(refill, capacity, times, i, k)
    ensures Picked(choice, 0, k) == Picked(choice, 0, i) + Picked(choice, i, k)
    decreases k
  {
    hide Forwarded;
    if i < k {
      Additive(refill, capacity, times, choice, i, k - 1);
    }
  }

  /** The limiter is optimal: over every prefix it forwards at least as many as any choice that fits. */
  lemma {:induction false} LimiterIsOptimal(
      refill: Refill, capacity: nat, times: seq<nat>, choice: seq<bool>, delta: real, n: nat)
    requires n <= |times| == |choice|
    requires SlipsAtMost(refill, capacity, times, delta) && Feasible(capacity, times, choice, delta)
    ensures Picked(choice, 0, n) <= Forwards(refill, capacity, times, 0, n)
    decreases n
  {
    hide Forwarded, SlipsAtMost, Allowance, Slack;
    if n > 0 {
      var k := n - 1;
      LimiterIsOptimal(refill, capacity, times, choice, delta, k);
      if choice[k] && !Forwarded(refill, capacity, times, k) {
        ForwardedWithinSlack(refill, capacity, times, delta, k);
        var i :| 0 <= i <= k && Forwards(refill, capacity, times, i, k) as real + 1.0 + Slack(delta, i, k) >
                               Allowance(capacity, times, i, k);
        assert Picked(choice, i, k) as real + 1.0 + Slack(delta, i, k) <= Allowance(capacity, times, i, k);
        Additive(refill, capacity, times, choice, i, k);
        LimiterIsOptimal(refill, capacity, times, choice, delta, i);
      }
    }
  }

  lemma ExactNeverSlips(capacity: nat, times: seq<nat>)
    ensures SlipsAtMost(EXACT, capacity, times, 0.0)
  {
  }

  /** In exact arithmetic and in time: no choice that keeps the rate over every window forwards more. */
  lemma NoChoiceWithinRateForwardsMore(capacity: nat, times: seq<nat>, choice: seq<bool>, n: nat)
    requires n <= |times| == |choice| && Nondecreasing(times)
    requires forall i, k :: 0 <= i <= k < |times| && choice[k] ==>
               Picked(choice, i, k) as real + 1.0 <= capacity as real + Tokens(capacity * (times[k] - times[i]))
    ensures Picked(choice, 0, n) <= Forwards(EXACT, capacity, times, 0, n)
  {
    hide Allowance, Picked, Forwards, Tokens, SlipsAtMost;
    forall i, k | 0 <= i <= k < |times| && choice[k]
      ensures Picked(choice, i, k) as real + 1.0 + Slack(0.0, i, k) <= Allowance(capacity, times, i, k)
    {
      AllowanceInTime(capacity, times, i, k);
    }
    ExactNeverSlips(capacity, times);
    LimiterIsOptimal(EXACT, capacity, times, choice, 0.0, n);
  }

  function OwnChoice(refill: Refill, capacity: nat, times: seq<nat>): (choice: seq<bool>) {
    seq(|times|, k requires 0 <= k < |times| => Forwarded(refill, capacity, times, k))
  }

  /** The limiter keeps the rate: its own choice fits every window up to the rounding of its refills. */
  lemma LimiterIsFeasible(refill: Refill, capacity: nat, times: seq<nat>, delta: real)
    requires SlipsAtMost(refill, capacity, times, delta)
    ensures Feasible(capacity, times, OwnChoice(refill, capacity, times), -delta)
    ensures Picked(OwnChoice(refill, capacity, times), 0, |times|) == Forwards(refill, capacity, times, 0, |times|)
  {
    hide Forwarded, Allowance, Picked, Forwards, SlipsAtMost;
    var choice := OwnChoice(refill, capacity, times);
    forall i, k | 0 <= i <= k < |times| && choice[k]
      ensures Picked(choice, i, k) as real + 1.0 + Slack(-delta, i, k) <= Allowance(capacity, times, i, k)
    {
      ChoiceCounts(refill, capacity, times, choice, i, k);
      ForwardedWithinSlack(refill, capacity, times, delta, k);
      assert Slack(-delta, i, k) == -Slack(delta, i, k);
    }
    ChoiceCounts(refill, capacity, times, choice, 0, |times|);
  }

  lemma {:induction false} ChoiceCounts(
      refill: Refill, capacity: nat, times: seq<nat>, choice: seq<bool>, i: nat, k: nat)
    requires |choice| == |times| && k <= |times|
    requires forall j :: 0 <= j < |times| ==> choice[j] == Forwarded(refill, capacity, times, j)
    ensures Picked(choice, i, k) == Forwards(refill, capacity, times, i, k)
    decreases k
  {
    hide Forwarded;
    if i < k {
      ChoiceCounts(refill, capacity, times, choice, i, k - 1);
    }
  }

  // ----- A steady rate -----

  lemma {:induction false} SteadyCredit(refill: Refill, capacity: nat, times: seq<nat>, i: nat, k: nat)
    requires i <= k < |times|
    requires forall j :: 0 < j < |times| ==> capacity * Elapsed(times[j - 1], times[j]) >= NANOS_PER_SEC
    ensures Forwards(refill, capacity, times, i, k) <= k - i
    ensures Allowance(capacity, times, i, k) >= (capacity + k - i) as real
    decreases k
  {
    hide Forwarded;
    if i < k {
      SteadyCredit(refill, capacity, times, i, k - 1);
    }
  }

  /** Arrivals no closer than the rate are all forwarded, as long as rounding has not eaten up the burst. */
  lemma SteadyRateWithinSlack(refill: Refill, capacity: nat, times: seq<nat>, delta: real, k: nat)
    requires k < |times| && SlipsAtMost(refill, capacity, times, delta)
    requires forall j :: 0 < j < |times| ==> capacity * Elapsed(times[j - 1], times[j]) >= NANOS_PER_SEC
    requires 1.0 + Slack(delta, 0, k) <= capacity as real
    ensures Forwarded(refill, capacity, times, k)
  {
    assert delta >= 0.0;
    hide Forwards, Allowance, Forwarded, SlipsAtMost, Elapsed;
    ForwardedWithinSlack(refill, capacity, times, delta, k);
    forall i | 0 <= i <= k
      ensures Forwards(refill, capacity, times, i, k) as real + 1.0 + Slack(delta, i, k) <=
              Allowance(capacity, times, i, k)
    {
      SteadyCredit(refill, capacity, times, i, k);
      SlackFalls(delta, i, k);
    }
  }

  lemma SlackFalls(delta: real, i: nat, k: nat)
    requires delta >= 0.0 && i <= k
    ensures Slack(delta, i, k) <= Slack(delta, 0, k)
  {
    assert delta * (k - i) as real <= delta * k as real;
  }
}
