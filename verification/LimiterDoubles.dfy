/**
 * The limiter as the program computes it, in double precision: how far off a refill can be, what that
 * leaves of the rate, where it makes no difference, and where it does.
 */
module LimiterDoubles {
  import opened Wrappers
  import opened Packets
  import opened Binary64
  import opened RateLimiters
  import opened LimiterLaws

  // ----- How far off a refill can be, and the rate -----

  /** The most a refill in double precision can be off by. */
  function Delta(capacity: nat): real {
    5.0 * UNIT * capacity as real
  }

  lemma SecondsIsNear(elapsed: nat)
    ensures Near(Tokens(elapsed), Seconds(elapsed), 2.1)
  {
    var whole, rest := elapsed / NANOS_PER_SEC, elapsed % NANOS_PER_SEC;
    assert Tokens(elapsed) == whole as real + Tokens(rest);
    RoundIsNear(whole as real);
    RoundIsNear(Tokens(rest));
    RoundIsNear(Round(whole as real) + Round(Tokens(rest)));
    hide Round;
  }

  /** Less than a second is rounded once only. */
  lemma SubsecondSeconds(elapsed: nat)
    requires elapsed < NANOS_PER_SEC
    ensures Seconds(elapsed) == Round(Tokens(elapsed))
  {
    hide Round;
    IntegersAreExact(0);
    assert elapsed / NANOS_PER_SEC == 0 && elapsed % NANOS_PER_SEC == elapsed;
    RoundIsIdempotent(Tokens(elapsed));
  }

  lemma NearTimes(x: Amount, y: Amount, units: real, factor: nat)
    requires Near(x, y, units)
    ensures x * factor as real >= 0.0 && y * factor as real >= 0.0
    ensures Near(x * factor as real, y * factor as real, units)
  {
    var slack := units * (UNIT * x);
    assert -slack * factor as real <= (y - x) * factor as real <= slack * factor as real;
    assert units * (UNIT * (x * factor as real)) == slack * factor as real;
  }

  /** One more rounding. */
  lemma RoundedNear(x: Amount, y: Amount, units: real)
    requires 0.0 <= units <= 4.0 && Near(x, y, units)
    ensures Near(x, Round(y), units + 1.1)
  {
    RoundIsNear(y);
    hide Round;
    var unit := UNIT * x;
    SlackBound(units, unit);
    SlackAdds(x, y, Round(y), units * unit);
  }

  lemma SlackBound(units: real, unit: real)
    requires 0.0 <= units <= 4.0 && unit >= 0.0
    ensures units * unit <= 4.0 * unit
    ensures (units + 1.1) * unit == units * unit + 1.1 * unit
  {
    assert (4.0 - units) * unit >= 0.0;
  }

  lemma SlackAdds(x: Amount, y: Amount, rounded: Amount, slack: real)
    requires -slack <= y - x <= slack <= 4.0 * (UNIT * x)
    requires Near(y, rounded, 1.0)
    ensures -slack - 1.1 * (UNIT * x) <= rounded - x <= slack + 1.1 * (UNIT * x)
  {
  }

  lemma EarnedIsNear(elapsed: nat, capacity: nat, units: real)
    requires Near(Tokens(elapsed), Seconds(elapsed), units)
    ensures Near(Tokens(capacity * elapsed), Earned(elapsed, capacity), units)
  {
    hide Seconds, Tokens;
    var factor := capacity as real;
    NearTimes(Tokens(elapsed), Seconds(elapsed), units, capacity);
    TokensTimes(elapsed, capacity);
    assert Earned(elapsed, capacity) == Seconds(elapsed) * factor;
  }

  lemma TokensTimes(elapsed: nat, capacity: nat)
    ensures Tokens(elapsed) * capacity as real == Tokens(capacity * elapsed)
  {
  }

  lemma PaidIsNear(elapsed: nat, capacity: nat)
    ensures Near(Tokens(capacity * elapsed), Paid(elapsed, capacity), 3.2)
  {
    hide Round, Seconds, Near, Earned;
    SecondsIsNear(elapsed);
    EarnedIsNear(elapsed, capacity, 2.1);
    RoundedNear(Tokens(capacity * elapsed), Earned(elapsed, capacity), 2.1);
  }

  lemma RefillIsNear(tokens: Amount, elapsed: nat, capacity: nat)
    ensures Near(EXACT(tokens, elapsed, capacity), BINARY64(tokens, elapsed, capacity), 4.3)
  {
    hide Round, Tokens, Paid, Near;
    PaidIsNear(elapsed, capacity);
    ProductAdds(tokens, Tokens(capacity * elapsed), Paid(elapsed, capacity));
    RoundedNear(tokens + Tokens(capacity * elapsed), tokens + Paid(elapsed, capacity), 3.2);
  }

  lemma ProductAdds(tokens: Amount, paid: Amount, product: Amount)
    requires Near(paid, product, 3.2)
    ensures Near(tokens + paid, tokens + product, 3.2)
  {
  }

  lemma NearSlips(exact: Amount, computed: Amount, cap: nat)
    requires Near(exact, computed, 4.3)
    ensures -Delta(cap) <= SlipOf(exact, computed, cap as real) <= Delta(cap)
  {
  }

  /** Every refill in double precision is off by at most five roundings of a full bucket. */
  lemma Binary64SlipsAtMost(capacity: nat, times: seq<nat>)
    ensures SlipsAtMost(BINARY64, capacity, times, Delta(capacity))
  {
    forall j | 0 < j < |times|
      ensures -Delta(capacity) <= Slip(BINARY64, capacity, times, j) <= Delta(capacity)
    {
      hide Near, SlipOf, Delta, After;
      var b := After(BINARY64, capacity, times, j);
      var elapsed := Elapsed(times[j - 1], times[j]);
      RefillIsNear(b.tokens, elapsed, capacity);
      NearSlips(EXACT(b.tokens, elapsed, capacity), BINARY64(b.tokens, elapsed, capacity), capacity);
    }
  }

  /**
   * The program keeps the rate up to the rounding of its refills: what it forwards fits every window
   * ending there with that much to spare, and what fits every window in spite of it is forwarded.
   */
  lemma RateHoldsInBinary64(capacity: nat, times: seq<nat>, k: nat)
    requires k < |times| && Nondecreasing(times)
    ensures Forwarded(BINARY64, capacity, times, k) ==>
            forall i :: 0 <= i <= k ==>
              Forwards(BINARY64, capacity, times, i, k) as real + 1.0 <=
              capacity as real + Tokens(capacity * (times[k] - times[i])) + Slack(Delta(capacity), i, k)
    ensures (forall i :: 0 <= i <= k ==>
              Forwards(BINARY64, capacity, times, i, k) as real + 1.0 + Slack(Delta(capacity), i, k) <=
              capacity as real + Tokens(capacity * (times[k] - times[i]))) ==>
            Forwarded(BINARY64, capacity, times, k)
  {
    hide Forwards, Allowance, Forwarded, Tokens, Slack, Delta, SlipsAtMost;
    Binary64SlipsAtMost(capacity, times);
    ForwardedWithinSlack(BINARY64, capacity, times, Delta(capacity), k);
    forall i | 0 <= i <= k
      ensures Allowance(capacity, times, i, k) == capacity as real + Tokens(capacity * (times[k] - times[i]))
    {
      AllowanceInTime(capacity, times, i, k);
    }
  }

  /** Exact arithmetic counts billionths: between two windows there is nothing less. */
  lemma Granular(capacity: nat, forwards: nat, refill: int)
    ensures forwards as real + 1.0 < capacity as real + Tokens(refill) ==>
              forwards as real + 1.0 + Tokens(1) <= capacity as real + Tokens(refill)
    ensures forwards as real + 1.0 < capacity as real + Tokens(refill) + Tokens(1) ==>
              forwards as real + 1.0 <= capacity as real + Tokens(refill)
  {
    var spare := (capacity - forwards - 1) * NANOS_PER_SEC + refill;
    assert Tokens(spare) == capacity as real + Tokens(refill) - forwards as real - 1.0;
    assert Tokens(spare) > 0.0 ==> spare >= 1;
    assert Tokens(spare) > Tokens(-1) ==> spare >= 0;
  }

  /** The rate holds over the window from arrival i to arrival k, with arrival k forwarded. */
  predicate RateHolds(capacity: nat, times: seq<nat>, i: nat, k: nat)
    requires i <= k < |times|
  {
    Forwards(BINARY64, capacity, times, i, k) as real + 1.0 <=
    capacity as real + Tokens(capacity * (times[k] as int - times[i]))
  }

  /** The window is used up to the last billionth with arrival k forwarded. */
  predicate ExactlyFull(capacity: nat, times: seq<nat>, i: nat, k: nat)
    requires i <= k < |times|
  {
    Forwards(BINARY64, capacity, times, i, k) as real + 1.0 ==
    capacity as real + Tokens(capacity * (times[k] as int - times[i]))
  }

  /** As long as the refills of a window are off by less than a billionth of a token, it keeps the rate exactly. */
  lemma NeverAboveRate(capacity: nat, times: seq<nat>, i: nat, k: nat)
    requires i <= k < |times| && Nondecreasing(times)
    requires Slack(Delta(capacity), i, k) < Tokens(1)
    requires Forwarded(BINARY64, capacity, times, k)
    ensures RateHolds(capacity, times, i, k)
  {
    RateHoldsInBinary64(capacity, times, k);
    hide Forwarded, Forwards, Slack, Delta, Tokens;
    Granular(capacity, Forwards(BINARY64, capacity, times, i, k), capacity * (times[k] - times[i]));
  }

  /**
   * As long as the refills are off by less than a billionth of a token in all: what the program
   * forwards keeps the rate over every window, and what keeps the rate over every window is forwarded
   * unless it fills one of them exactly. So without an exactly full window nothing tells the program
   * from exact arithmetic.
   */
  lemma OnlyFullWindowsTell(capacity: nat, times: seq<nat>, k: nat)
    requires k < |times| && Nondecreasing(times) && Slack(Delta(capacity), 0, k) < Tokens(1)
    ensures Forwarded(BINARY64, capacity, times, k) ==> forall i :: 0 <= i <= k ==> RateHolds(capacity, times, i, k)
    ensures (forall i :: 0 <= i <= k ==> RateHolds(capacity, times, i, k)) &&
            (forall i :: 0 <= i < k ==> !ExactlyFull(capacity, times, i, k)) ==>
              Forwarded(BINARY64, capacity, times, k)
  {
    hide Forwarded, Forwards, Tokens, Delta, RateHolds, ExactlyFull;
    forall i | 0 <= i <= k
      ensures Slack(Delta(capacity), i, k) < Tokens(1)
    {
      DeltaIsPositive(capacity);
      SlackFalls(Delta(capacity), i, k);
    }
    if Forwarded(BINARY64, capacity, times, k) {
      forall i | 0 <= i <= k ensures RateHolds(capacity, times, i, k) {
        NeverAboveRate(capacity, times, i, k);
      }
    }
    if && (forall i :: 0 <= i <= k ==> RateHolds(capacity, times, i, k))
       && (forall i :: 0 <= i < k ==> !ExactlyFull(capacity, times, i, k))
    {
      forall i | 0 <= i <= k
        ensures Forwards(BINARY64, capacity, times, i, k) as real + 1.0 + Slack(Delta(capacity), i, k) <=
                capacity as real + Tokens(capacity * (times[k] - times[i]))
      {
        FitsInSpite(capacity, times, i, k);
      }
      RateHoldsInBinary64(capacity, times, k);
    }
  }

  lemma DeltaIsPositive(capacity: nat)
    ensures Delta(capacity) >= 0.0
  {
  }

  lemma FitsInSpite(capacity: nat, times: seq<nat>, i: nat, k: nat)
    requires i <= k < |times| && Slack(Delta(capacity), i, k) < Tokens(1)
    requires RateHolds(capacity, times, i, k) && (i < k ==> !ExactlyFull(capacity, times, i, k))
    ensures Forwards(BINARY64, capacity, times, i, k) as real + 1.0 + Slack(Delta(capacity), i, k) <=
            capacity as real + Tokens(capacity * (times[k] as int - times[i]))
  {
    if i < k {
      hide Forwards, Tokens, Slack, Delta;
      Granular(capacity, Forwards(BINARY64, capacity, times, i, k), capacity * (times[k] as int - times[i]));
    } else {
      assert Slack(Delta(capacity), i, k) == 0.0;
    }
  }

  /**
   * The program's choice is within the rate up to the rounding of its refills, and no choice within
   * the rate by as much forwards more.
   */
  lemma OptimalInBinary64(capacity: nat, times: seq<nat>, choice: seq<bool>, n: nat)
    requires n <= |times| == |choice|
    ensures Feasible(capacity, times, choice, Delta(capacity)) ==>
              Picked(choice, 0, n) <= Forwards(BINARY64, capacity, times, 0, n)
    ensures Feasible(capacity, times, OwnChoice(BINARY64, capacity, times), -Delta(capacity))
  {
    hide Feasible, SlipsAtMost, OwnChoice;
    Binary64SlipsAtMost(capacity, times);
    if Feasible(capacity, times, choice, Delta(capacity)) {
      LimiterIsOptimal(BINARY64, capacity, times, choice, Delta(capacity), n);
    }
    LimiterIsFeasible(BINARY64, capacity, times, Delta(capacity));
  }

  lemma SumIsDouble(tokens: Amount, elapsed: nat, capacity: nat)
    ensures Round(RoundedSum(tokens, elapsed, capacity)) == RoundedSum(tokens, elapsed, capacity)
  {
    hide Round, Paid;
    RoundIsIdempotent(tokens + Paid(elapsed, capacity));
  }

  lemma RefilledIsDouble(b: Bucket, now: nat)
    requires b.capacity < 0x1_0000_0000
    ensures var level := Refilled(BINARY64, b, now);
            Round(level) == level <= b.capacity as real
  {
    hide Round, RoundedSum;
    IntegersAreExact(b.capacity);
    if b.lastRefill.Some? {
      SumIsDouble(b.tokens, Elapsed(b.lastRefill.value, now), b.capacity);
    }
  }

  /** The tokens a packet finds are a double, and so is what is left when one is spent: that rounds nothing. */
  lemma SpendIsExact(b: Bucket, now: nat)
    requires b.capacity < 0x1_0000_0000
    ensures var level := Refilled(BINARY64, b, now);
            Round(level) == level && (level >= 1.0 ==> Round(level - 1.0) == level - 1.0)
  {
    RefilledIsDouble(b, now);
    hide Round, Refilled;
    var level := Refilled(BINARY64, b, now);
    if level >= 1.0 {
      SubtractionIsExact(level, 1);
    }
  }

  // ----- What a refill pays -----

  /**
   * At one token a second an empty bucket gets the time itself as a double of seconds: the double of
   * its whole seconds plus that of its nanoseconds, rounded once more, which below a second is once.
   */
  lemma OneASecondPaysTime(elapsed: nat)
    ensures RoundedSum(0.0, elapsed, 1) ==
            Round(Round((elapsed / 1_000_000_000) as real) + Round((elapsed % 1_000_000_000) as real / 1_000_000_000.0))
    ensures elapsed < 1_000_000_000 ==> RoundedSum(0.0, elapsed, 1) == Round(elapsed as real / 1_000_000_000.0)
  {
    OneASecond(elapsed);
    hide Round, RoundedSum;
    if elapsed < NANOS_PER_SEC {
      SubsecondSeconds(elapsed);
    }
  }

  lemma EmptyGets(elapsed: nat, capacity: nat)
    ensures RoundedSum(0.0, elapsed, capacity) == Paid(elapsed, capacity)
  {
    hide Round, Earned;
    RoundIsIdempotent(Earned(elapsed, capacity));
  }

  /**
   * A refill pays every bucket the same: what an empty one gets, a double of its own, is added to what
   * is held and the sum is rounded.
   */
  lemma RefillPaysADouble(tokens: Amount, elapsed: nat, capacity: nat)
    ensures RoundedSum(tokens, elapsed, capacity) == Round(tokens + RoundedSum(0.0, elapsed, capacity))
  {
    hide Round, Paid;
    EmptyGets(elapsed, capacity);
  }

  lemma OneASecond(elapsed: nat)
    ensures RoundedSum(0.0, elapsed, 1) == Seconds(elapsed)
  {
    hide Round;
    EmptyGets(elapsed, 1);
    RoundIsIdempotent(Round((elapsed / NANOS_PER_SEC) as real) + Round(Tokens(elapsed % NANOS_PER_SEC)));
  }

  /** What an empty bucket gets is what it gets at one token a second times the capacity, rounded. */
  lemma RefillIsProportional(elapsed: nat, capacity: nat)
    ensures RoundedSum(0.0, elapsed, capacity) == Round(RoundedSum(0.0, elapsed, 1) * capacity as real)
  {
    hide Round, Seconds, RoundedSum;
    EmptyGets(elapsed, capacity);
    OneASecond(elapsed);
    EarnedFrom(RoundedSum(0.0, elapsed, 1), elapsed, capacity);
  }

  lemma EarnedFrom(seconds: Amount, elapsed: nat, capacity: nat)
    requires seconds == Seconds(elapsed)
    ensures seconds * capacity as real == Earned(elapsed, capacity)
  {
    hide Seconds;
  }

  // ----- A rested bucket, and a steady rate -----

  lemma SecondsPass(elapsed: nat)
    requires elapsed >= NANOS_PER_SEC
    ensures Seconds(elapsed) >= 1.0
  {
    var whole := elapsed / NANOS_PER_SEC;
    RoundReaches(whole as real, 1);
    RoundReaches(Round(whole as real) + Round(Tokens(elapsed % NANOS_PER_SEC)), 1);
  }

  lemma EarnedInASecond(elapsed: nat, capacity: nat)
    requires Seconds(elapsed) >= 1.0
    ensures Earned(elapsed, capacity) >= capacity as real
  {
    hide Seconds;
    assert (Seconds(elapsed) - 1.0) * capacity as real >= 0.0;
  }

  lemma PaidInASecond(elapsed: nat, capacity: nat)
    requires elapsed >= NANOS_PER_SEC && capacity < 0x1_0000_0000
    ensures Paid(elapsed, capacity) >= capacity as real
  {
    hide Round, Seconds, Earned;
    SecondsPass(elapsed);
    EarnedInASecond(elapsed, capacity);
    RoundReaches(Earned(elapsed, capacity), capacity);
  }

  /** A second without packets fills the bucket, whatever its capacity and whatever it held. */
  lemma RefillAfterOneSecond(b: Bucket, now: nat)
    requires b.capacity < 0x1_0000_0000
    requires b.lastRefill.Some? ==> now >= b.lastRefill.value + NANOS_PER_SEC
    ensures Refilled(BINARY64, b, now) == b.capacity as real
  {
    hide Round, Paid;
    if b.lastRefill.Some? {
      var elapsed := Elapsed(b.lastRefill.value, now);
      PaidInASecond(elapsed, b.capacity);
      RoundReaches(b.tokens + Paid(elapsed, b.capacity), b.capacity);
    }
  }

  /** The time for one token pays one token, or just under it. */
  lemma PaidForOne(elapsed: nat, capacity: nat)
    requires capacity * elapsed >= NANOS_PER_SEC > elapsed
    ensures Paid(elapsed, capacity) >= 1.0 - UNIT
  {
    assert Tokens(capacity * elapsed) >= 1.0;
    hide Round, Seconds, Tokens, Earned, Near;
    SubsecondSeconds(elapsed);
    RoundIsNear(Tokens(elapsed));
    EarnedIsNear(elapsed, capacity, 1.0);
    NearOne(Tokens(capacity * elapsed), Earned(elapsed, capacity));
    RoundReachesBelowOne(Earned(elapsed, capacity));
  }

  lemma NearOne(x: Amount, y: Amount)
    requires Near(x, y, 1.0) && x >= 1.0
    ensures y >= 1.0 - UNIT
  {
  }

  /** A full bucket that spends one token and is paid for one is full again. */
  lemma FullAgain(capacity: nat, elapsed: nat)
    requires 1 <= capacity < 0x1_0000_0000 && capacity * elapsed >= NANOS_PER_SEC
    ensures RoundedSum(capacity as real - 1.0, elapsed, capacity) >= capacity as real
  {
    hide Round, Paid;
    var rest := capacity as real - 1.0;
    if elapsed >= NANOS_PER_SEC {
      PaidInASecond(elapsed, capacity);
    } else {
      PaidForOne(elapsed, capacity);
    }
    RoundReaches(rest + Paid(elapsed, capacity), capacity);
  }

  /**
   * Arrivals no closer than the rate find a full bucket, so that none is ever dropped: for any number
   * of arrivals, rounding notwithstanding.
   */
  lemma {:induction false} SteadyRateNeverDrops(capacity: nat, times: seq<nat>, k: nat)
    requires k < |times| && 1 <= capacity < 0x1_0000_0000
    requires forall j :: 0 < j <= k ==> capacity * Elapsed(times[j - 1], times[j]) >= NANOS_PER_SEC
    ensures Level(BINARY64, capacity, times, k) == capacity as real && Forwarded(BINARY64, capacity, times, k)
    decreases k
  {
    hide RoundedSum;
    if k > 0 {
      SteadyRateNeverDrops(capacity, times, k - 1);
      FullAgain(capacity, Elapsed(times[k - 1], times[k]));
    }
  }

  // ----- What double precision costs -----

  const FOUR_ARRIVALS: seq<nat> := [0, 300_000_000, 900_000_000, 1_000_000_000]

  const FIRST_AND_LAST: seq<bool> := [true, false, false, true]

  lemma SubsecondSum(tokens: Amount, elapsed: nat)
    requires elapsed < NANOS_PER_SEC
    ensures RoundedSum(tokens, elapsed, 1) == Round(tokens + Round(Tokens(elapsed)))
  {
    hide Round;
    SubsecondSeconds(elapsed);
    RoundIsIdempotent(Tokens(elapsed));
  }

  lemma FourInBinary64()
    ensures forall k :: 0 <= k <= 3 ==> (Forwarded(BINARY64, 1, FOUR_ARRIVALS, k) <==> k == 0)
  {
    hide Round, RoundedSum;
    TenthsFallShort();
    SubsecondSum(0.0, 300_000_000);
    SubsecondSum(Round(0.3), 600_000_000);
    SubsecondSum(Round(Round(0.3) + Round(0.6)), 100_000_000);
    RoundIsIdempotent(0.3);
    var b0 := NewBucket(1);
    var b1 := Bucket(1, 0.0, Some(0));
    var b2 := Bucket(1, Round(0.3), Some(300_000_000));
    var b3 := Bucket(1, Round(Round(0.3) + Round(0.6)), Some(900_000_000));
    assert DecideOnce(BINARY64, b0, 0) == Decided(b1, Forward);
    assert DecideOnce(BINARY64, b1, 300_000_000) == Decided(b2, Drop);
    assert DecideOnce(BINARY64, b2, 900_000_000) == Decided(b3, Drop);
    assert DecideOnce(BINARY64, b3, 1_000_000_000).effect == Drop;
    hide DecideOnce;
    assert After(BINARY64, 1, FOUR_ARRIVALS, 0) == b0;
    assert After(BINARY64, 1, FOUR_ARRIVALS, 1) == b1;
    assert After(BINARY64, 1, FOUR_ARRIVALS, 2) == b2;
    assert After(BINARY64, 1, FOUR_ARRIVALS, 3) == b3;
  }

  /**
   * One packet a second, arrivals at 0, 0.3, 0.9 and 1 second: the tokens of three refills add up to
   * 0.9999999999999999, so the last packet is dropped although every window ending there has room for it.
   */
  lemma DoublesFallShort()
    ensures !Forwarded(BINARY64, 1, FOUR_ARRIVALS, 3)
    ensures forall i :: 0 <= i <= 3 ==>
              Forwards(BINARY64, 1, FOUR_ARRIVALS, i, 3) as real + 1.0 <= Allowance(1, FOUR_ARRIVALS, i, 3)
    ensures Feasible(1, FOUR_ARRIVALS, FIRST_AND_LAST, 0.0)
    ensures Picked(FIRST_AND_LAST, 0, 4) == 2 > Forwards(BINARY64, 1, FOUR_ARRIVALS, 0, 4) == 1
  {
    hide Forwarded, Allowance, Tokens;
    FourInBinary64();
    FourAllowances();
    CountFour();
  }

  lemma FourAllowances()
    ensures forall i :: 0 <= i <= 3 ==>
              Allowance(1, FOUR_ARRIVALS, i, 3) >= if i == 0 then 2.0 else 1.0
    ensures Allowance(1, FOUR_ARRIVALS, 0, 0) == 1.0
  {
    forall i | 0 <= i <= 3
      ensures Allowance(1, FOUR_ARRIVALS, i, 3) >= if i == 0 then 2.0 else 1.0
    {
      AllowanceInTime(1, FOUR_ARRIVALS, i, 3);
    }
  }

  lemma CountFour()
    requires forall k :: 0 <= k <= 3 ==> (Forwarded(BINARY64, 1, FOUR_ARRIVALS, k) <==> k == 0)
    ensures forall i :: 0 <= i <= 3 ==>
              && Forwards(BINARY64, 1, FOUR_ARRIVALS, i, 3) == (if i == 0 then 1 else 0)
              && Picked(FIRST_AND_LAST, i, 3) == if i == 0 then 1 else 0
    ensures Forwards(BINARY64, 1, FOUR_ARRIVALS, 0, 4) == 1 && Picked(FIRST_AND_LAST, 0, 4) == 2
  {
    hide Forwarded;
    assert Forwarded(BINARY64, 1, FOUR_ARRIVALS, 0);
    assert Forwards(BINARY64, 1, FOUR_ARRIVALS, 0, 1) == 1;
    assert Forwards(BINARY64, 1, FOUR_ARRIVALS, 0, 2) == 1;
    assert Picked(FIRST_AND_LAST, 0, 2) == 1;
  }

  // ----- A clock that goes backwards -----

  /** Out to one second, back to zero and out again. */
  const BACK_AND_FORTH: seq<nat> := [NANOS_PER_SEC, 0, NANOS_PER_SEC]

  lemma PaysTwice(refill: Refill)
    requires refill(0.0, 0, 1) == 0.0 && refill(0.0, NANOS_PER_SEC, 1) == 1.0
    ensures Forwarded(refill, 1, BACK_AND_FORTH, 2) && Forwards(refill, 1, BACK_AND_FORTH, 0, 2) == 1
  {
    assert After(refill, 1, BACK_AND_FORTH, 0) == NewBucket(1);
    assert After(refill, 1, BACK_AND_FORTH, 1) == Bucket(1, 0.0, Some(NANOS_PER_SEC));
    assert After(refill, 1, BACK_AND_FORTH, 2) == Bucket(1, 0.0, Some(0));
    assert Forwarded(refill, 1, BACK_AND_FORTH, 0);
    assert Forwards(refill, 1, BACK_AND_FORTH, 0, 1) == 1;
  }

  /**
   * A clock that goes backwards and comes back pays twice: one packet a second, two within none. So
   * it is for the program, and without rounding just the same.
   */
  lemma BackwardsClockPaysTwice()
    ensures Forwarded(BINARY64, 1, BACK_AND_FORTH, 2) && !RateHolds(1, BACK_AND_FORTH, 0, 2)
    ensures Forwarded(EXACT, 1, BACK_AND_FORTH, 2) && Forwards(EXACT, 1, BACK_AND_FORTH, 0, 2) == 1
  {
    hide Forwarded, Forwards, Round, RoundedSum;
    IntegersAreExact(0);
    IntegersAreExact(1);
    SubsecondSum(0.0, 0);
    WholeSecondSum();
    PaysTwice(BINARY64);
    PaysTwice(EXACT);
  }

  lemma WholeSecondSum()
    ensures RoundedSum(0.0, NANOS_PER_SEC, 1) == 1.0
  {
    hide Round;
    IntegersAreExact(0);
    IntegersAreExact(1);
    assert Seconds(NANOS_PER_SEC) == 1.0;
  }
}
