/** Which error is reported for which bytes, case by case. */
module FixErrors {
  import opened Wrappers
  import opened Bytes
  import opened Digits
  import opened FixLayout

  /** The length in bytes of the frame a header announces. */
  function Announced(buf: bytes, b: nat, e: nat): (n: nat)
    requires HeaderAt(buf, b, e) && ParsedDigits(buf[b + 3..e]).Some?
  {
    e + 1 + ParsedDigits(buf[b + 3..e]).value + TAIL_LEN
  }

  /** What is said of a delimited header by the length it announces and the bytes there. */
  function AnnouncedVerdict(buf: bytes, b: nat, e: nat): (v: Verdict)
    requires HeaderAt(buf, b, e)
  {
    if ParsedDigits(buf[b + 3..e]).None? then Failure(BadBodyLength)
    else
      var n := Announced(buf, b, e);
      if n > MAX_MESSAGE_LEN then Failure(MessageTooLong)
      else if n > |buf| then Success(None)
      else if !IsChecksumField(buf[n - TAIL_LEN..n]) then Failure(BadChecksumField)
      else Success(Some(Layout(n, e + 1, n - TAIL_LEN)))
  }

  /** The BeginString field ends at `b`. */
  predicate BeginsAt(buf: bytes, b: nat) {
    && b < |buf| && b < MAX_HEADER_SCAN && StartsWithPrefixOf(buf, BEGIN_STRING)
    && buf[b] == SOH && forall j :: 0 <= j < b ==> buf[j] != SOH
  }

  /** The field after BeginString is, as far as it goes, a BodyLength field. */
  predicate LengthFollows(buf: bytes, b: nat)
    requires b < |buf|
  {
    StartsWithPrefixOf(buf[b + 1..], BODY_LENGTH)
  }

  /** No SOH among the bytes scanned from `from` on. */
  predicate NoSoh(buf: bytes, from: nat) {
    forall j :: from <= j < |buf| && j < MAX_HEADER_SCAN ==> buf[j] != SOH
  }

  lemma BeginVerdict(buf: bytes, b: nat)
    requires BeginsAt(buf, b)
    ensures LayoutOf(buf) == LengthLayout(buf, b + 1)
    ensures !LengthFollows(buf, b) ==> LayoutOf(buf) == Failure(BadBodyLength)
    ensures LengthFollows(buf, b) && NoSoh(buf, b + 1) ==>
              LayoutOf(buf) == if |buf| >= MAX_HEADER_SCAN then Failure(HeaderTooLong) else Success(None)
  {
    hide ScanSoh, SizedLayout;
    assert ScanSoh(buf, 0) == Success(Some(b));
    assert buf[b + 1..|buf|] == buf[b + 1..];
    if NoSoh(buf, b + 1) {
      var second := ScanSoh(buf, b + 1);
      assert second == if |buf| >= MAX_HEADER_SCAN then Failure(HeaderTooLong) else Success(None);
    }
  }

  lemma NoBeginVerdict(buf: bytes)
    requires StartsWithPrefixOf(buf, BEGIN_STRING) && NoSoh(buf, 0)
    ensures LayoutOf(buf) == if |buf| >= MAX_HEADER_SCAN then Failure(HeaderTooLong) else Success(None)
  {
    hide ScanSoh, LengthLayout;
    var first := ScanSoh(buf, 0);
    assert first == if |buf| >= MAX_HEADER_SCAN then Failure(HeaderTooLong) else Success(None);
  }

  /** Once the header is delimited, the verdict goes by the announced length and the tail. */
  lemma HeaderVerdict(buf: bytes, b: nat, e: nat)
    requires HeaderAt(buf, b, e)
    ensures LayoutOf(buf) == AnnouncedVerdict(buf, b, e)
  {
    hide LayoutOf, IsChecksumField, ParsedDigits, HeaderAt;
    HeaderDecides(buf, b, e);
  }

  /** What the bytes look like, in the order the framer looks. */
  datatype Shape =
    | Foreign                    // not `8=`
    | Unterminated               // no SOH in the scan window
    | Misnamed(b: nat)           // BeginString, then not `9=`
    | LengthUnterminated(b: nat) // BeginString, `9=` as far as seen, no second SOH in the scan window
    | Headed(b: nat, e: nat)     // both fields delimited

  predicate HasShape(buf: bytes, shape: Shape) {
    match shape
    case Foreign => !StartsWithPrefixOf(buf, BEGIN_STRING)
    case Unterminated => StartsWithPrefixOf(buf, BEGIN_STRING) && NoSoh(buf, 0)
    case Misnamed(b) => BeginsAt(buf, b) && !LengthFollows(buf, b)
    case LengthUnterminated(b) => BeginsAt(buf, b) && LengthFollows(buf, b) && NoSoh(buf, b + 1)
    case Headed(b, e) => HeaderAt(buf, b, e)
  }

  /** The verdict on a shape: errors and "not yet" alike. */
  function VerdictOn(buf: bytes, shape: Shape): (v: Verdict)
    requires HasShape(buf, shape)
  {
    match shape
    case Foreign => Failure(NotFixStream)
    case Misnamed(_) => Failure(BadBodyLength)
    case Headed(b, e) => AnnouncedVerdict(buf, b, e)
    case _ => if |buf| >= MAX_HEADER_SCAN then Failure(HeaderTooLong) else Success(None)
  }

  /** Whatever shape the bytes have decides the verdict. */
  lemma ShapeDecides(buf: bytes, shape: Shape)
    requires HasShape(buf, shape)
    ensures LayoutOf(buf) == VerdictOn(buf, shape)
  {
    hide ScanSoh, SizedLayout, LengthLayout, HeaderAt, IsChecksumField, ParsedDigits;
    match shape {
      case Foreign =>
      case Unterminated => NoBeginVerdict(buf);
      case Misnamed(b) => BeginVerdict(buf, b);
      case LengthUnterminated(b) => BeginVerdict(buf, b);
      case Headed(b, e) => HeaderVerdict(buf, b, e);
    }
  }

  /** Every buffer has a shape, so the table of verdicts is complete. */
  lemma ShapeExists(buf: bytes) returns (shape: Shape)
    ensures HasShape(buf, shape)
  {
    hide LayoutOf, ScanSoh, HeaderAt;
    if !StartsWithPrefixOf(buf, BEGIN_STRING) {
      return Foreign;
    }
    var first := ScanSoh(buf, 0);
    if first.Failure? || first.value.None? {
      return Unterminated;
    }
    var b := first.value.value;
    if !LengthFollows(buf, b) {
      return Misnamed(b);
    }
    var second := ScanSoh(buf, b + 1);
    if second.Failure? || second.value.None? {
      return LengthUnterminated(b);
    }
    var b', e := HeaderFound(buf);
    return Headed(b', e);
  }
}
