/**
 * The token bucket. The sum `tokens + elapsed * capacity` is a parameter of the specification:
 * `BINARY64` is the one the program computes, `EXACT` the one it stands for. The laws hold of any, and
 * say by how much its rounding shifts them.
 */
module RateLimiters {
  import opened Wrappers
  import opened Packets
  import opened Binary64

  const NANOS_PER_SEC: nat := 1_000_000_000

  /** The tokens after a refill, before the cap: of tokens held, nanoseconds elapsed and capacity. */
  type Refill = (Amount, nat, nat) -> Amount

  datatype Bucket = Bucket(capacity: nat, tokens: Amount, lastRefill: Option<nat>)

  datatype Decided = Decided(next: Bucket, effect: Effect)

  function NewBucket(packetsPerSec: nat): Bucket {
    Bucket(packetsPerSec, 0.0, None)
  }

  /** Billionths of a token as tokens. */
  function Tokens(billionths: int): (t: real)
    ensures billionths >= 0 ==> t >= 0.0
  {
    billionths as real / 1_000_000_000.0
  }

  /** The refill without rounding. */
  const EXACT: Refill := (tokens: Amount, elapsed: nat, capacity: nat) => tokens + Tokens(capacity * elapsed)

  /** A duration as a double of seconds: its whole seconds and its nanoseconds, each rounded. */
  function Seconds(elapsed: nat): Amount {
    Round(Round((elapsed / NANOS_PER_SEC) as real) + Round(Tokens(elapsed % NANOS_PER_SEC)))
  }

  function Earned(elapsed: nat, capacity: nat): Amount {
    Seconds(elapsed) * capacity as real
  }

  function Paid(elapsed: nat, capacity: nat): Amount {
    Round(Earned(elapsed, capacity))
  }

  /** The refill in double precision, every operation rounded. */
  function RoundedSum(tokens: Amount, elapsed: nat, capacity: nat): Amount {
    Round(tokens + Paid(elapsed, capacity))
  }

  const BINARY64: Refill := (tokens: Amount, elapsed: nat, capacity: nat) => RoundedSum(tokens, elapsed, capacity)

  /** Time elapsed between two instants, zero if the clock went backwards. */
  function Elapsed(from: nat, to: nat): nat {
    if from < to then to - from else 0
  }

  function Min(a: real, b: real): (m: real) {
    if a < b then a else b
  }

  /** The tokens a packet arriving at `now` finds. */
  function Refilled(refill: Refill, b: Bucket, now: nat): Amount {
    match b.lastRefill
    case None => b.capacity as real
    case Some(last) => Min(refill(b.tokens, Elapsed(last, now), b.capacity), b.capacity as real)
  }

  function DecideOnce(refill: Refill, b: Bucket, now: nat): Decided {
    var tokens := Refilled(refill, b, now);
    if tokens >= 1.0 then Decided(Bucket(b.capacity, tokens - 1.0, Some(now)), Forward)
    else Decided(Bucket(b.capacity, tokens, Some(now)), Drop)
  }

  class RateLimiter {
    const capacity: nat
    var tokens: Amount
    var lastRefill: Option<nat>

    constructor (packetsPerSec: nat)
      ensures State() == NewBucket(packetsPerSec)
    {
      capacity := packetsPerSec;
      tokens := 0.0;
      lastRefill := None;
    }

    ghost function State(): Bucket
      reads this
    {
      Bucket(capacity, tokens, lastRefill)
    }

    method Decide(packet: Packet) returns (effect: Effect)
      modifies this
      ensures Decided(State(), effect) == DecideOnce(BINARY64, old(State()), packet.receivedAt)
    {
      hide RoundedSum;
      match lastRefill {
        case None =>
          tokens := capacity as real;
          lastRefill := Some(packet.receivedAt);
        case Some(last) =>
          var elapsed := if packet.receivedAt > last then packet.receivedAt - last else 0;
          tokens := Min(RoundedSum(tokens, elapsed, capacity), capacity as real);
          lastRefill := Some(packet.receivedAt);
      }
      if tokens >= 1.0 {
        tokens := tokens - 1.0;
        return Forward;
      }
      return Drop;
    }
  }

  // ----- A limiter over a whole history of arrivals -----

  /** The bucket after the first k arrivals. */
  function After(refill: Refill, capacity: nat, times: seq<nat>, k: nat): (b: Bucket)
    requires k <= |times|
    ensures b.capacity == capacity
    ensures b.lastRefill == if k == 0 then None else Some(times[k - 1])
  {
    if k == 0 then NewBucket(capacity)
    else DecideOnce(refill, After(refill, capacity, times, k - 1), times[k - 1]).next
  }

  /** The tokens arrival k finds. */
  function Level(refill: Refill, capacity: nat, times: seq<nat>, k: nat): Amount
    requires k < |times|
  {
    Refilled(refill, After(refill, capacity, times, k), times[k])
  }

  predicate Forwarded(refill: Refill, capacity: nat, times: seq<nat>, k: nat)
    requires k < |times|
  {
    DecideOnce(refill, After(refill, capacity, times, k), times[k]).effect == Forward
  }

  /** How many of the arrivals i, ..., k - 1 are forwarded. */
  function Forwards(refill: Refill, capacity: nat, times: seq<nat>, i: nat, k: nat): (n: nat)
    requires k <= |times|
    decreases k
  {
    if k <= i then 0
    else Forwards(refill, capacity, times, i, k - 1) + if Forwarded(refill, capacity, times, k - 1) then 1 else 0
  }

  /** All refill up to arrival k in billionths, were the bucket bottomless: only forward movement pays. */
  function Credit(capacity: nat, times: seq<nat>, k: nat): (c: nat)
    requires k < |times|
  {
    if k == 0 then 0 else Credit(capacity, times, k - 1) + capacity * Elapsed(times[k - 1], times[k])
  }

  /** What a window from arrival i to arrival k may carry: a full bucket and the refill in between. */
  function Allowance(capacity: nat, times: seq<nat>, i: nat, k: nat): real
    requires i <= k < |times|
  {
    capacity as real + Tokens(Credit(capacity, times, k) - Credit(capacity, times, i))
  }

  // ----- Rounding -----

  /** The refill of arrival k > 0 without rounding, from the tokens actually held. */
  function ExactSum(refill: Refill, capacity: nat, times: seq<nat>, k: nat): real
    requires 0 < k < |times|
  {
    After(refill, capacity, times, k).tokens + Tokens(capacity * Elapsed(times[k - 1], times[k]))
  }

  /** By how much a refill `computed` for an exact sum differs from it, as far as the cap lets it be seen. */
  function SlipOf(exact: real, computed: real, cap: real): real {
    if exact >= cap && computed >= cap then 0.0 else Min(computed, cap) - exact
  }

  function Slip(refill: Refill, capacity: nat, times: seq<nat>, k: nat): real
    requires k < |times|
  {
    if k == 0 then 0.0
    else
      SlipOf(
        ExactSum(refill, capacity, times, k),
        refill(After(refill, capacity, times, k).tokens, Elapsed(times[k - 1], times[k]), capacity),
        capacity as real)
  }

  /** What rounding has added between arrival i and arrival k. */
  function Drift(refill: Refill, capacity: nat, times: seq<nat>, i: nat, k: nat): real
    requires k < |times|
    decreases k
  {
    if k <= i then 0.0 else Drift(refill, capacity, times, i, k - 1) + Slip(refill, capacity, times, k)
  }

  // ----- The counter is its history -----

  /** What is left at arrival k of the window that starts at arrival i. */
  function Left(refill: Refill, capacity: nat, times: seq<nat>, i: nat, k: nat): real
    requires i <= k < |times|
  {
    Allowance(capacity, times, i, k) + Drift(refill, capacity, times, i, k) -
    Forwards(refill, capacity, times, i, k) as real
  }

  /** From one arrival to the next: every window moves by what was spent, refilled and rounded. */
  lemma LeftNext(refill: Refill, capacity: nat, times: seq<nat>, i: nat, k: nat)
    requires i < k < |times|
    ensures Left(refill, capacity, times, i, k) ==
            Left(refill, capacity, times, i, k - 1) +
            Tokens(capacity * Elapsed(times[k - 1], times[k])) + Slip(refill, capacity, times, k) -
            if Forwarded(refill, capacity, times, k - 1) then 1.0 else 0.0
  {
    var step := capacity * Elapsed(times[k - 1], times[k]);
    assert Credit(capacity, times, k) - Credit(capacity, times, i) ==
           Credit(capacity, times, k - 1) - Credit(capacity, times, i) + step;
  }

  lemma LevelNext(refill: Refill, capacity: nat, times: seq<nat>, k: nat)
    requires 0 < k < |times|
    ensures var spent := if Forwarded(refill, capacity, times, k - 1) then 1.0 else 0.0;
            Level(refill, capacity, times, k) ==
            Min(Level(refill, capacity, times, k - 1) - spent +
                Tokens(capacity * Elapsed(times[k - 1], times[k])) + Slip(refill, capacity, times, k),
                capacity as real)
  {
  }

  /** The closed form: the level is the least of what is left, over all windows ending here. */
  lemma {:induction false} LevelIsLeast(refill: Refill, capacity: nat, times: seq<nat>, k: nat) returns (least: nat)
    requires k < |times|
    ensures least <= k && Level(refill, capacity, times, k) == Left(refill, capacity, times, least, k)
    ensures forall i :: 0 <= i <= k ==> Level(refill, capacity, times, k) <= Left(refill, capacity, times, i, k)
    decreases k
  {
    least := k;
    assert Left(refill, capacity, times, k, k) == capacity as real;
    if k > 0 {
      var before := LevelIsLeast(refill, capacity, times, k - 1);
      LevelNext(refill, capacity, times, k);
      forall i | 0 <= i < k
        ensures Level(refill, capacity, times, k) <= Left(refill, capacity, times, i, k)
      {
        hide Level, Left, Slip, Forwarded;
        LeftNext(refill, capacity, times, i, k);
      }
      LeftNext(refill, capacity, times, before, k);
      if Level(refill, capacity, times, k) < capacity as real {
        least := before;
      }
    }
  }

  /**
   * For any arrivals and any rounding: arrival k is forwarded if and only if, for every arrival i up
   * to it, the forwards from i on and this one fit the allowance of the window and what rounding
   * added within it.
   */
  lemma ForwardedIffWindowsFit(refill: Refill, capacity: nat, times: seq<nat>, k: nat)
    requires k < |times|
    ensures Forwarded(refill, capacity, times, k) <==>
            forall i :: 0 <= i <= k ==>
              Forwards(refill, capacity, times, i, k) as real + 1.0 <=
              Allowance(capacity, times, i, k) + Drift(refill, capacity, times, i, k)
  {
    hide Level, Left, Forwards, Allowance, Drift, Forwarded;
    var least := LevelIsLeast(refill, capacity, times, k);
    LevelDecides(refill, capacity, times, k);
    forall i | 0 <= i <= k
      ensures Left(refill, capacity, times, i, k) >= 1.0 <==>
              Forwards(refill, capacity, times, i, k) as real + 1.0 <=
              Allowance(capacity, times, i, k) + Drift(refill, capacity, times, i, k)
    {
      LeftFits(refill, capacity, times, i, k);
    }
  }

  lemma LevelDecides(refill: Refill, capacity: nat, times: seq<nat>, k: nat)
    requires k < |times|
    ensures Forwarded(refill, capacity, times, k) <==> Level(refill, capacity, times, k) >= 1.0
  {
    hide After, Refilled;
  }

  lemma LeftFits(refill: Refill, capacity: nat, times: seq<nat>, i: nat, k: nat)
    requires i <= k < |times|
    ensures Left(refill, capacity, times, i, k) >= 1.0 <==>
            Forwards(refill, capacity, times, i, k) as real + 1.0 <=
            Allowance(capacity, times, i, k) + Drift(refill, capacity, times, i, k)
  {
    hide Forwards, Allowance, Drift;
  }

  // ----- Without rounding -----

  lemma {:induction false} NoDrift(capacity: nat, times: seq<nat>, i: nat, k: nat)
    requires k < |times|
    ensures Drift(EXACT, capacity, times, i, k) == 0.0
    decreases k
  {
    if i < k {
      NoDrift(capacity, times, i, k - 1);
    }
  }

  /** In exact arithmetic the windows decide alone. */
  lemma ExactIffWindowsFit(capacity: nat, times: seq<nat>, k: nat)
    requires k < |times|
    ensures Forwarded(EXACT, capacity, times, k) <==>
            forall i :: 0 <= i <= k ==>
              Forwards(EXACT, capacity, times, i, k) as real + 1.0 <= Allowance(capacity, times, i, k)
  {
    ForwardedIffWindowsFit(EXACT, capacity, times, k);
    hide Forwards, Allowance, Forwarded, Drift;
    forall i | 0 <= i <= k ensures Drift(EXACT, capacity, times, i, k) == 0.0 {
      NoDrift(capacity, times, i, k);
    }
  }

  // ----- With rounding of a known size -----

  ghost predicate SlipsAtMost(refill: Refill, capacity: nat, times: seq<nat>, delta: real) {
    delta >= 0.0 && forall j :: 0 <= j < |times| ==> -delta <= Slip(refill, capacity, times, j) <= delta
  }

  /** At most `delta` for each refill within a window. */
  function Slack(delta: real, i: nat, k: nat): real {
    delta * (if i < k then k - i else 0) as real
  }

  lemma {:induction false} DriftWithin(refill: Refill, capacity: nat, times: seq<nat>, delta: real, i: nat, k: nat)
    requires k < |times| && SlipsAtMost(refill, capacity, times, delta)
    ensures -Slack(delta, i, k) <= Drift(refill, capacity, times, i, k) <= Slack(delta, i, k)
    decreases k
  {
    hide Slip;
    if i < k {
      DriftWithin(refill, capacity, times, delta, i, k - 1);
      assert (k - i) as real == (k - 1 - i) as real + 1.0;
      assert Slack(delta, i, k) == Slack(delta, i, k - 1) + delta;
    }
  }

  /**
   * When no refill is off by more than `delta`, a packet is forwarded only if every window fits its
   * allowance with the slack of its refills to spare, and certainly if every window fits in spite of it.
   */
  lemma ForwardedWithinSlack(refill: Refill, capacity: nat, times: seq<nat>, delta: real, k: nat)
    requires k < |times| && SlipsAtMost(refill, capacity, times, delta)
    ensures Forwarded(refill, capacity, times, k) ==>
            forall i :: 0 <= i <= k ==>
              Forwards(refill, capacity, times, i, k) as real + 1.0 <=
              Allowance(capacity, times, i, k) + Slack(delta, i, k)
    ensures (forall i :: 0 <= i <= k ==>
              Forwards(refill, capacity, times, i, k) as real + 1.0 + Slack(delta, i, k) <=
              Allowance(capacity, times, i, k)) ==>
            Forwarded(refill, capacity, times, k)
  {
    ForwardedIffWindowsFit(refill, capacity, times, k);
    hide Forwards, Allowance, Forwarded, Drift, Slack, SlipsAtMost;
    forall i | 0 <= i <= k
      ensures -Slack(delta, i, k) <= Drift(refill, capacity, times, i, k) <= Slack(delta, i, k)
    {
      DriftWithin(refill, capacity, times, delta, i, k);
    }
  }

  // ----- The allowance in time -----

  predicate Nondecreasing(times: seq<nat>) {
    forall i, j :: 0 <= i <= j < |times| ==> times[i] <= times[j]
  }

  /**
   * The refill of a window is at least capacity per second elapsed, and exactly that if and only if
   * the clock does not go backwards within the window (or there is no capacity).
   */
  lemma {:induction false} CreditIsTimeIff(capacity: nat, times: seq<nat>, i: nat, k: nat)
    requires i <= k < |times|
    ensures Credit(capacity, times, k) - Credit(capacity, times, i) >= capacity * (times[k] as int - times[i])
    ensures Credit(capacity, times, k) - Credit(capacity, times, i) == capacity * (times[k] as int - times[i]) <==>
            capacity == 0 || forall j :: i < j <= k ==> times[j - 1] <= times[j]
    decreases k
  {
    hide Elapsed;
    if i < k {
      CreditIsTimeIff(capacity, times, i, k - 1);
      ElapsedIff(capacity, times[i], times[k - 1], times[k]);
    }
  }

  lemma ElapsedIff(capacity: nat, start: nat, from: nat, to: nat)
    ensures var moved := capacity * (to as int - start) - capacity * (from as int - start);
            && capacity * Elapsed(from, to) >= moved
            && (capacity * Elapsed(from, to) == moved <==> capacity == 0 || from <= to)
  {
    assert capacity * (to as int - start) - capacity * (from as int - start) == capacity * (to as int - from);
    if to < from && capacity > 0 {
      assert capacity * (to as int - from) < 0;
    }
  }

  lemma AllowanceInTime(capacity: nat, times: seq<nat>, i: nat, k: nat)
    requires i <= k < |times| && Nondecreasing(times)
    ensures Allowance(capacity, times, i, k) == capacity as real + Tokens(capacity * (times[k] - times[i]))
  {
    CreditIsTimeIff(capacity, times, i, k);
  }

  /** In time, without rounding: the rate holds over every window ending at k. */
  lemma ExactIffRateHolds(capacity: nat, times: seq<nat>, k: nat)
    requires k < |times| && Nondecreasing(times)
    ensures Forwarded(EXACT, capacity, times, k) <==>
            forall i :: 0 <= i <= k ==>
              Forwards(EXACT, capacity, times, i, k) as real + 1.0 <=
              capacity as real + Tokens(capacity * (times[k] - times[i]))
  {
    ExactIffWindowsFit(capacity, times, k);
    hide Forwards, Allowance, Forwarded, Tokens;
    forall i | 0 <= i <= k
      ensures Allowance(capacity, times, i, k) == capacity as real + Tokens(capacity * (times[k] - times[i]))
    {
      AllowanceInTime(capacity, times, i, k);
    }
  }
}
