/**
 * Rounding to the nearest double, ties to even, for the non-negative numbers of the token bucket: 53
 * significant bits and no limit on the exponent, which these numbers never reach.
 */
module Binary64 {
  type Amount = x: real | x >= 0.0

  const BITS_52: real := 4503599627370496.0
  const BITS_53: real := 9007199254740992.0

  /** The largest relative error of one rounding. */
  const UNIT: real := 1.0 / 9007199254740992.0

  function NearestEven(x: Amount): (n: int)
    ensures n >= 0 && -0.5 <= n as real - x <= 0.5
  {
    var below := x.Floor;
    var rest := x - below as real;
    if rest < 0.5 || (rest == 0.5 && below % 2 == 0) then below else below + 1
  }

  /** How many powers of two a number is from having 53 bits before the point, at most. */
  function Distance(x: Amount): nat {
    if x >= BITS_53 then x.Floor else if 0.0 < x < BITS_52 then (BITS_52 / x).Floor else 0
  }

  lemma DistanceFalls(x: Amount)
    ensures x >= BITS_53 ==> Distance(x / 2.0) < Distance(x)
    ensures 0.0 < x < BITS_52 ==> Distance(2.0 * x) < Distance(x)
  {
    if 0.0 < x < BITS_52 {
      var q := BITS_52 / x;
      assert q * x == BITS_52;
      assert q > 1.0;
      assert (q / 2.0) * (2.0 * x) == BITS_52;
      assert BITS_52 / (2.0 * x) == q / 2.0;
    }
  }

  /** The double nearest to a number. */
  function Round(x: Amount): (y: Amount)
    decreases Distance(x)
  {
    DistanceFalls(x);
    if x == 0.0 then 0.0
    else if x >= BITS_53 then 2.0 * Round(x / 2.0)
    else if x < BITS_52 then Round(2.0 * x) / 2.0
    else NearestEven(x) as real
  }

  /** `y` is off from `x` by at most `units` roundings' worth. */
  predicate Near(x: Amount, y: Amount, units: real) {
    -units * (UNIT * x) <= y - x <= units * (UNIT * x)
  }

  /** One rounding is off by at most a half in the 53rd bit. */
  lemma {:induction false} RoundIsNear(x: Amount)
    ensures Near(x, Round(x), 1.0)
    decreases Distance(x)
  {
    DistanceFalls(x);
    if x >= BITS_53 {
      RoundIsNear(x / 2.0);
    } else if 0.0 < x < BITS_52 {
      RoundIsNear(2.0 * x);
    }
  }

  /** Doubles are closed under doubling and halving. */
  lemma RoundScales(x: Amount)
    ensures Round(2.0 * x) == 2.0 * Round(x)
  {
    if x >= BITS_52 {
      assert 2.0 * x / 2.0 == x;
    }
  }

  /** Integers of up to 53 bits are doubles. */
  lemma {:induction false} IntegersAreExact(n: nat)
    requires n as real <= BITS_53
    ensures Round(n as real) == n as real
    decreases 9007199254740992 - n
  {
    if n as real == BITS_53 {
      assert Round(BITS_52) == BITS_52;
      RoundScales(BITS_52);
    } else if 0.0 < n as real < BITS_52 {
      IntegersAreExact(2 * n);
      RoundScales(n as real);
    }
  }

  /** What was rounded is a double. */
  lemma {:induction false} RoundIsIdempotent(x: Amount)
    ensures Round(Round(x)) == Round(x)
    decreases Distance(x)
  {
    DistanceFalls(x);
    if x >= BITS_53 {
      RoundIsIdempotent(x / 2.0);
      RoundScales(Round(x / 2.0));
    } else if 0.0 < x < BITS_52 {
      RoundIsIdempotent(2.0 * x);
      RoundScales(Round(2.0 * x) / 2.0);
    } else if x > 0.0 {
      IntegersAreExact(NearestEven(x));
    }
  }

  /** The number falls short of the integer by at most half a unit of its last bit. */
  predicate Reaches(x: Amount, n: nat) {
    18014398509481984.0 * (n as real - x) <= n as real <= BITS_53
  }

  lemma ReachesFrom(x: Amount, n: nat)
    requires Reaches(x, n) && BITS_52 <= x < BITS_53
    ensures NearestEven(x) >= n
  {
    assert n as real - x <= 0.5;
    if n as real - x == 0.5 {
      assert n == 9007199254740992;
    }
  }

  lemma ReachesTwice(x: Amount, n: nat)
    requires Reaches(x, n) && x < BITS_52
    ensures Reaches(2.0 * x, 2 * n)
  {
    assert n as real - x <= 0.5;
    assert n <= 4503599627370496;
  }

  /** Such a number is rounded up to the integer, or further. */
  lemma {:induction false} RoundReaches(x: Amount, n: nat)
    requires Reaches(x, n)
    ensures Round(x) >= n as real
    decreases Distance(x)
  {
    DistanceFalls(x);
    if x >= BITS_53 {
      RoundReaches(x / 2.0, 4503599627370496);
    } else if x >= BITS_52 {
      ReachesFrom(x, n);
    } else if x > 0.0 {
      ReachesTwice(x, n);
      RoundReaches(2.0 * x, 2 * n);
    }
  }

  /** Taking a whole number off a double of less than 53 bits before the point loses nothing. */
  lemma {:induction false} SubtractionIsExact(x: Amount, n: nat)
    requires Round(x) == x && 1 <= n && n as real <= x < BITS_53
    ensures Round(x - n as real) == x - n as real
    decreases Distance(x)
  {
    DistanceFalls(x);
    if x >= BITS_52 {
      IntegersAreExact(NearestEven(x) - n);
    } else {
      RoundScales(x);
      SubtractionIsExact(2.0 * x, 2 * n);
      RoundScales(x - n as real);
    }
  }

  /** A number times 2^k. */
  function Scaled(x: Amount, k: nat): (y: Amount)
    decreases k
  {
    if k == 0 then x else Scaled(2.0 * x, k - 1)
  }

  /** Rounding commutes with scaling by a power of two. */
  lemma {:induction false} RoundScalesBy(x: Amount, k: nat)
    ensures Round(Scaled(x, k)) == Scaled(Round(x), k)
    decreases k
  {
    if k > 0 {
      hide Round;
      RoundScalesBy(2.0 * x, k - 1);
      RoundScales(x);
    }
  }

  lemma {:induction false} ScaledAdds(x: Amount, j: nat, k: nat)
    ensures Scaled(x, j + k) == Scaled(Scaled(x, j), k)
    decreases j
  {
    if j > 0 {
      ScaledAdds(2.0 * x, j - 1, k);
    }
  }

  lemma ScaledBy5(x: Amount)
    ensures Scaled(x, 5) == 32.0 * x
  {
    assert Scaled(32.0 * x, 0) == 32.0 * x;
    assert Scaled(16.0 * x, 1) == 32.0 * x;
    assert Scaled(8.0 * x, 2) == 32.0 * x;
    assert Scaled(4.0 * x, 3) == 32.0 * x;
    assert Scaled(2.0 * x, 4) == 32.0 * x;
  }

  lemma ScaledBy10(x: Amount, k: nat)
    ensures Scaled(x, 10 + k) == Scaled(1024.0 * x, k)
  {
    hide Scaled;
    ScaledAdds(x, 5, 5 + k);
    ScaledBy5(x);
    ScaledAdds(32.0 * x, 5, k);
    ScaledBy5(32.0 * x);
  }

  lemma ScaledBy3(x: Amount)
    ensures Scaled(x, 3) == 8.0 * x
  {
    assert Scaled(8.0 * x, 0) == 8.0 * x;
    assert Scaled(4.0 * x, 1) == 8.0 * x;
    assert Scaled(2.0 * x, 2) == 8.0 * x;
  }

  lemma ScaledBy53(x: Amount)
    ensures Scaled(x, 53) == BITS_53 * x
  {
    hide Scaled;
    ScaledBy10(x, 43);
    ScaledBy10(1024.0 * x, 33);
    ScaledBy10(1048576.0 * x, 23);
    ScaledBy10(1073741824.0 * x, 13);
    ScaledBy10(1099511627776.0 * x, 3);
    ScaledBy3(1125899906842624.0 * x);
  }

  /** From a half up to one, doubles are 2^-53 apart. */
  lemma RoundBelowOne(x: Amount)
    requires 0.5 <= x < 1.0
    ensures Round(x) == NearestEven(BITS_53 * x) as real / BITS_53
  {
    RoundScalesBy(x, 53);
    ScaledBy53(x);
    ScaledBy53(Round(x));
  }

  /** What is not below the last double before one is not rounded below it. */
  lemma RoundReachesBelowOne(x: Amount)
    requires x >= 1.0 - UNIT
    ensures Round(x) >= 1.0 - UNIT
  {
    hide Round, Scaled;
    RoundScalesBy(x, 53);
    ScaledBy53(x);
    ScaledBy53(Round(x));
    RoundReaches(BITS_53 * x, 9007199254740991);
  }

  /** Reading a double off: between a half and one, `n` is the nearest even multiple of 2^-53. */
  lemma ReadsAs(x: Amount, n: nat)
    requires 0.5 <= x < 1.0
    requires -0.5 <= n as real - BITS_53 * x <= 0.5 && (n as real - BITS_53 * x in {-0.5, 0.5} ==> n % 2 == 0)
    ensures Round(x) == n as real / BITS_53
  {
    RoundBelowOne(x);
    hide Round;
    var below := (BITS_53 * x).Floor;
    assert n == below || n == below + 1;
  }

  /** Three tenths, six tenths and one tenth, each rounded, have a rounded sum that falls short of one. */
  lemma TenthsFallShort()
    ensures Round(0.6) == 5404319552844595.0 / BITS_53
    ensures Round(0.3) == 2702159776422297.5 / BITS_53
    ensures Round(0.1) == 900719925474099.25 / BITS_53
    ensures Round(Round(0.3) + Round(0.6)) == 8106479329266892.0 / BITS_53
    ensures Round(Round(Round(0.3) + Round(0.6)) + Round(0.1)) == 9007199254740991.0 / BITS_53
  {
    hide Round, NearestEven;
    ReadsAs(0.6, 5404319552844595);
    RoundScales(0.3);
    ReadsAs(0.8, 7205759403792794);
    RoundScales(0.4);
    RoundScales(0.2);
    RoundScales(0.1);
    ReadsAs(Round(0.3) + Round(0.6), 8106479329266892);
    ReadsAs(8106479329266892.0 / BITS_53 + Round(0.1), 9007199254740991);
  }
}
