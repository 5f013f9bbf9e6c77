/** Decimal numbers in ASCII: the overflow-checked parser and its meaning. */
module Digits {
  import opened Wrappers
  import opened Bytes

  predicate IsDigit(b: byte) {
    ZERO <= b < ZERO + 10
  }

  predicate AllDigits(s: bytes) {
    forall i :: 0 <= i < |s| ==> IsDigit(s[i])
  }

  /** The number a string of digits denotes, of any length, most significant first. */
  function Value(s: bytes): (v: nat)
    requires AllDigits(s)
  {
    if s == [] then 0 else 10 * Value(s[..|s| - 1]) + (s[|s| - 1] - ZERO)
  }

  /** What a digit field means: absent unless it is a nonempty decimal of at most 64 bits. */
  function ParsedDigits(s: bytes): (r: Option<nat>) {
    if s != [] && AllDigits(s) && Value(s) <= U64_MAX then Some(Value(s)) else None
  }

  /** Byte by byte, in numerals: what one more byte does to a field, `'0'` being 48 and `'9'` 57. */
  lemma ParsedByBytes(s: bytes, b: byte)
    ensures ParsedDigits([]) == None
    ensures ParsedDigits([b]) == if 48 <= b <= 57 then Some(b - 48) else None
    ensures s != [] ==>
              ParsedDigits(s + [b]) ==
              match ParsedDigits(s)
              case None => None
              case Some(n) =>
                var next := 10 * n + (b - 48);
                if 48 <= b <= 57 && next <= 18_446_744_073_709_551_615 then Some(next) else None
  {
    var t := s + [b];
    assert t[..|s|] == s && t[|s|] == b;
    if IsDigit(b) {
      assert [b][..0] == [] && Value([b]) == b - ZERO;
    } else {
      assert !IsDigit([b][0]);
    }
    if AllDigits(t) {
      forall i | 0 <= i < |s| ensures IsDigit(s[i]) {
        assert t[i] == s[i];
      }
    }
  }

  /** The number of a string of digits, in numerals. */
  lemma ValueByBytes(s: bytes, b: byte)
    requires AllDigits(s) && 48 <= b <= 57
    ensures AllDigits(s + [b]) && Value(s + [b]) == 10 * Value(s) + (b - 48) && Value([]) == 0
  {
    assert (s + [b])[..|s|] == s;
  }

  lemma {:induction false} ValuePrefix(s: bytes, k: nat)
    requires k <= |s| && AllDigits(s)
    ensures Value(s[..k]) <= Value(s)
    decreases |s|
  {
    if k < |s| {
      ValuePrefix(s[..|s| - 1], k);
      assert s[..|s| - 1][..k] == s[..k];
    } else {
      assert s[..k] == s;
    }
  }

  /** The parser: one pass, a 64-bit accumulator, an overflow check at each step. */
  method ParseDigits(s: bytes) returns (r: Option<nat>)
    ensures r == ParsedDigits(s)
  {
    if |s| == 0 {
      return None;
    }
    var value: nat := 0;
    for i := 0 to |s|
      invariant AllDigits(s[..i]) && value == Value(s[..i]) <= U64_MAX
    {
      if s[i] < ZERO || 10 <= s[i] - ZERO {
        return None;
      }
      assert s[..i + 1][..i] == s[..i];
      var scaled := value * 10;
      if scaled > U64_MAX || scaled + (s[i] - ZERO) > U64_MAX {
        if AllDigits(s) {
          ValuePrefix(s, i + 1);
        }
        return None;
      }
      value := scaled + (s[i] - ZERO);
    }
    assert s[..|s|] == s;
    return Some(value);
  }

  /** Decimal printing without leading zeros, as the formatter writes it. */
  function Decimal(n: nat): (s: bytes)
    ensures s != [] && AllDigits(s)
  {
    if n < 10 then [ZERO + n] else Decimal(n / 10) + [ZERO + n % 10]
  }

  lemma {:induction false} DecimalValue(n: nat)
    ensures Value(Decimal(n)) == n
  {
    if n >= 10 {
      DecimalValue(n / 10);
      var s := Decimal(n);
      assert s[..|s| - 1] == Decimal(n / 10);
    } else {
      assert Decimal(n)[..0] == [];
    }
  }

  /** Parsing inverts printing exactly for the numbers a 64-bit word holds. */
  lemma ParsedDecimal(n: nat)
    ensures ParsedDigits(Decimal(n)) == if n <= U64_MAX then Some(n) else None
  {
    DecimalValue(n);
  }

  /** Zeros in front of a printed number included. */
  lemma PaddedDecimal(zeros: bytes, n: nat)
    requires forall i :: 0 <= i < |zeros| ==> zeros[i] == 48
    ensures ParsedDigits(zeros + Decimal(n)) == if n <= 18_446_744_073_709_551_615 then Some(n) else None
  {
    LeadingZeros(zeros, Decimal(n));
    ParsedDecimal(n);
  }

  /** Leading zeros change neither whether a field parses nor to what. */
  lemma {:induction false} LeadingZeros(zeros: bytes, s: bytes)
    requires s != [] && forall i :: 0 <= i < |zeros| ==> zeros[i] == ZERO
    ensures ParsedDigits(zeros + s) == ParsedDigits(s)
  {
    var t := zeros + s;
    if AllDigits(s) {
      ZerosValue(zeros, s);
    } else if AllDigits(t) {
      forall i | 0 <= i < |s| ensures IsDigit(s[i]) {
        assert t[|zeros| + i] == s[i];
      }
    }
  }

  lemma {:induction false} ZerosValue(zeros: bytes, s: bytes)
    requires AllDigits(s) && forall i :: 0 <= i < |zeros| ==> zeros[i] == ZERO
    ensures AllDigits(zeros + s) && Value(zeros + s) == Value(s)
    decreases |zeros| + |s|
  {
    var t := zeros + s;
    if s != [] {
      assert t[..|t| - 1] == zeros + s[..|s| - 1];
      ZerosValue(zeros, s[..|s| - 1]);
    } else if zeros != [] {
      assert t[..|t| - 1] == zeros[..|zeros| - 1] + [];
      ZerosValue(zeros[..|zeros| - 1], []);
    }
  }
}
