/** Where one FIX message ends: the pure verdict of the framer on a buffer. */
module FixLayout {
  import opened Wrappers
  import opened Bytes
  import opened Digits

  const MAX_MESSAGE_LEN: nat := 16 * 1024
  const MAX_HEADER_SCAN: nat := 32
  const TAIL_LEN: nat := 7
  const BEGIN_STRING: bytes := ['8' as int, EQUALS]
  const BODY_LENGTH: bytes := ['9' as int, EQUALS]
  const CHECKSUM: bytes := ['1' as int, '0' as int, EQUALS]

  datatype FrameError = NotFixStream | HeaderTooLong | BadBodyLength | MessageTooLong | BadChecksumField

  /** A frame of `frameLen` bytes whose body is the range [bodyStart, bodyEnd). */
  datatype Layout = Layout(frameLen: nat, bodyStart: nat, bodyEnd: nat)

  type Verdict = Result<Option<Layout>, FrameError>

  predicate StartsWithPrefixOf(buf: bytes, prefix: bytes) {
    var compared := if |buf| < |prefix| then |buf| else |prefix|;
    buf[..compared] == prefix[..compared]
  }

  /** Compared byte by byte: the two agree as far as both go. */
  lemma StartsWithPrefixOfBytes(buf: bytes, prefix: bytes)
    ensures StartsWithPrefixOf(buf, prefix) <==> forall j :: 0 <= j < |buf| && j < |prefix| ==> buf[j] == prefix[j]
  {
    var compared := if |buf| < |prefix| then |buf| else |prefix|;
    if StartsWithPrefixOf(buf, prefix) {
      forall j | 0 <= j < |buf| && j < |prefix| ensures buf[j] == prefix[j] {
        assert buf[..compared][j] == prefix[..compared][j];
      }
    }
  }

  function ScanSoh(buf: bytes, from: nat): (r: Result<Option<nat>, FrameError>)
    ensures r.Success? && r.value.Some? ==> from <= r.value.value < |buf| && r.value.value < MAX_HEADER_SCAN
    ensures r.Success? && r.value.Some? ==> buf[r.value.value] == SOH
    ensures r.Success? && r.value.Some? ==> forall j :: from <= j < r.value.value ==> buf[j] != SOH
    ensures r.Success? && r.value.None? ==> |buf| < MAX_HEADER_SCAN
    ensures r.Failure? ==> r.error == HeaderTooLong && |buf| >= MAX_HEADER_SCAN
    ensures !(r.Success? && r.value.Some?) ==> forall j :: from <= j < |buf| && j < MAX_HEADER_SCAN ==> buf[j] != SOH
  {
    var window := Get(buf, from, if |buf| < MAX_HEADER_SCAN then |buf| else MAX_HEADER_SCAN).GetOr([]);
    match Position(window, SOH)
    case Some(offset) =>
      assert forall j :: from <= j < from + offset ==> window[j - from] == buf[j];
      Success(Some(from + offset))
    case None =>
      assert forall j :: from <= j < |buf| && j < MAX_HEADER_SCAN ==> window[j - from] == buf[j];
      if |buf| >= MAX_HEADER_SCAN then Failure(HeaderTooLong) else Success(None)
  }

  predicate IsChecksumField(tail: bytes) {
    var digits := Get(tail, |CHECKSUM|, |CHECKSUM| + 3);
    digits.Some? && CHECKSUM <= tail && AllDigits(digits.value) && TAIL_LEN - 1 < |tail| && tail[TAIL_LEN - 1] == SOH
  }

  /** The framer's verdict: an error, not enough bytes yet, or where the first frame ends. */
  function LayoutOf(buf: bytes): (r: Verdict) {
    if !StartsWithPrefixOf(buf, BEGIN_STRING) then Failure(NotFixStream)
    else
      var beginEnd :- ScanSoh(buf, 0);
      if beginEnd.None? then Success(None) else LengthLayout(buf, beginEnd.value + 1)
  }

  /** The verdict once BeginString is delimited and BodyLength is to start at `lengthStart`. */
  function LengthLayout(buf: bytes, lengthStart: nat): (r: Verdict) {
    var lengthField := Get(buf, lengthStart, |buf|);
    if lengthField.None? then Success(None)
    else if !StartsWithPrefixOf(lengthField.value, BODY_LENGTH) then Failure(BadBodyLength)
    else
      var lengthEnd :- ScanSoh(buf, lengthStart);
      if lengthEnd.None? then Success(None)
      else
        var digits := Get(buf, lengthStart + |BODY_LENGTH|, lengthEnd.value).GetOr([]);
        SizedLayout(buf, lengthEnd.value + 1, digits)
  }

  /** The verdict once the header is known to be `headerLen` long and to announce `digits`. */
  function SizedLayout(buf: bytes, headerLen: nat, digits: bytes): (r: Verdict) {
    var bodyLength :- OkOr(ParsedDigits(digits), BadBodyLength);
    var bodyEnd :- OkOr(CheckedAdd(headerLen, bodyLength), MessageTooLong);
    var frameLen :- OkOr(CheckedAdd(bodyEnd, TAIL_LEN), MessageTooLong);
    if frameLen > MAX_MESSAGE_LEN then Failure(MessageTooLong)
    else if |buf| < frameLen then Success(None)
    else
      var tail :- OkOr(Get(buf, bodyEnd, frameLen), BadChecksumField);
      if !IsChecksumField(tail) then Failure(BadChecksumField)
      else Success(Some(Layout(frameLen, headerLen, bodyEnd)))
  }

  // ----- The grammar of a frame, independent of the scanner -----

  /** The variable parts of a message: `begin` SOH `9=` digits SOH body `10=` checksum SOH. */
  datatype Parts = Parts(begin: bytes, digits: bytes, body: bytes, checksum: bytes) {
    predicate WellFormed() {
      && BEGIN_STRING <= begin
      && SOH !in begin
      && ParsedDigits(digits) == Some(|body|)
      && |begin| + 3 + |digits| < MAX_HEADER_SCAN
      && |checksum| == 3 && AllDigits(checksum)
      && |Assembled()| <= MAX_MESSAGE_LEN
    }

    function Header(): bytes {
      begin + [SOH] + BODY_LENGTH + digits + [SOH]
    }

    function Tail(): bytes {
      CHECKSUM + checksum + [SOH]
    }

    function Assembled(): (raw: bytes) {
      Header() + body + Tail()
    }

    function Span(): Layout {
      Layout(|Assembled()|, |Header()|, |Header()| + |body|)
    }
  }

  ghost predicate IsFrame(raw: bytes) {
    exists p: Parts :: p.WellFormed() && p.Assembled() == raw
  }

  /** Both header fields are delimited: BeginString ends at `b`, BodyLength at `e`. */
  predicate HeaderAt(buf: bytes, b: nat, e: nat) {
    && 2 <= b && b + 3 <= e < |buf| && e < MAX_HEADER_SCAN
    && buf[0] == BEGIN_STRING[0] && buf[1] == BEGIN_STRING[1]
    && buf[b] == SOH && buf[b + 1] == BODY_LENGTH[0] && buf[b + 2] == BODY_LENGTH[1] && buf[e] == SOH
    && (forall j :: 0 <= j < e && buf[j] == SOH ==> j == b)
  }

  lemma HeaderDecides(buf: bytes, b: nat, e: nat)
    requires HeaderAt(buf, b, e)
    ensures LayoutOf(buf) == SizedLayout(buf, e + 1, buf[b + 3..e])
  {
    hide ScanSoh, SizedLayout;
    assert LayoutOf(buf) == LengthLayout(buf, b + 1) by {
      StartsWithPrefixOfBytes(buf, BEGIN_STRING);
      assert ScanSoh(buf, 0) == Success(Some(b));
    }
    StartsWithPrefixOfBytes(buf[b + 1..|buf|], BODY_LENGTH);
    assert ScanSoh(buf, b + 1) == Success(Some(e));
  }

  lemma HeaderFound(buf: bytes) returns (b: nat, e: nat)
    requires StartsWithPrefixOf(buf, BEGIN_STRING)
    requires ScanSoh(buf, 0).Success? && ScanSoh(buf, 0).value.Some?
    requires StartsWithPrefixOf(buf[ScanSoh(buf, 0).value.value + 1..], BODY_LENGTH)
    requires var s := ScanSoh(buf, ScanSoh(buf, 0).value.value + 1); s.Success? && s.value.Some?
    ensures HeaderAt(buf, b, e) && ScanSoh(buf, 0).value.value == b && ScanSoh(buf, b + 1).value.value == e
  {
    b := ScanSoh(buf, 0).value.value;
    e := ScanSoh(buf, b + 1).value.value;
    StartsWithPrefixOfBytes(buf, BEGIN_STRING);
    StartsWithPrefixOfBytes(buf[b + 1..], BODY_LENGTH);
    assert buf[b + 1] == buf[b + 1..][0] && e >= b + 2;
    assert buf[b + 2] == buf[b + 1..][1];
  }

  lemma SizedFrame(buf: bytes, headerLen: nat, digits: bytes, bodyEnd: nat)
    requires bodyEnd >= headerLen && ParsedDigits(digits) == Some(bodyEnd - headerLen)
    requires bodyEnd + TAIL_LEN <= |buf| && bodyEnd + TAIL_LEN <= MAX_MESSAGE_LEN
    requires IsChecksumField(buf[bodyEnd..bodyEnd + TAIL_LEN])
    ensures SizedLayout(buf, headerLen, digits) == Success(Some(Layout(bodyEnd + TAIL_LEN, headerLen, bodyEnd)))
  {
  }

  /** Completeness: a well-formed message is framed, at its own length, whatever follows it. */
  lemma AssembledIsFramed(p: Parts, rest: bytes)
    requires p.WellFormed()
    ensures LayoutOf(p.Assembled() + rest) == Success(Some(p.Span()))
  {
    hide LayoutOf, SizedLayout;
    var buf := p.Assembled() + rest;
    var e := |p.begin| + 3 + |p.digits|;
    var bodyEnd := |p.Header()| + |p.body|;
    AssembledHeader(p, rest);
    HeaderDecides(buf, |p.begin|, e);
    assert buf[|p.begin| + 3..e] == p.digits;
    assert IsChecksumField(buf[bodyEnd..bodyEnd + TAIL_LEN]) by {
      assert buf[bodyEnd..bodyEnd + TAIL_LEN] == p.Tail();
      assert p.Tail()[3..6] == p.checksum;
    }
    SizedFrame(buf, e + 1, p.digits, bodyEnd);
  }

  /** Over the cap, a message that is otherwise well formed is refused on its header alone. */
  lemma TooLongRefused(p: Parts, rest: bytes)
    requires BEGIN_STRING <= p.begin && SOH !in p.begin && ParsedDigits(p.digits) == Some(|p.body|)
    requires |p.begin| + 3 + |p.digits| < MAX_HEADER_SCAN && |p.checksum| == 3
    requires |p.Assembled()| > MAX_MESSAGE_LEN
    ensures LayoutOf(p.Assembled() + rest) == Failure(MessageTooLong)
  {
    hide LayoutOf, ParsedDigits;
    var buf := p.Assembled() + rest;
    var e := |p.begin| + 3 + |p.digits|;
    AssembledHeader(p, rest);
    HeaderDecides(buf, |p.begin|, e);
    assert buf[|p.begin| + 3..e] == p.digits;
  }

  lemma AssembledHeader(p: Parts, rest: bytes)
    requires BEGIN_STRING <= p.begin && SOH !in p.begin && ParsedDigits(p.digits) == Some(|p.body|)
    requires |p.begin| + 3 + |p.digits| < MAX_HEADER_SCAN
    ensures HeaderAt(p.Assembled() + rest, |p.begin|, |p.begin| + 3 + |p.digits|)
  {
    var buf := p.Assembled() + rest;
    var b := |p.begin|;
    var e := b + 3 + |p.digits|;
    assert p.Header() <= buf;
    assert forall j :: 0 <= j <= e ==> buf[j] == p.Header()[j];
    assert forall j :: 0 <= j < b ==> buf[j] == p.begin[j];
    assert forall j :: b + 3 <= j < e ==> buf[j] == p.digits[j - b - 3];
  }

  /** Soundness: whatever is framed was a well-formed message. */
  lemma FramedIsAssembled(buf: bytes) returns (p: Parts)
    requires LayoutOf(buf).Success? && LayoutOf(buf).value.Some?
    ensures p.WellFormed() && p.Assembled() <= buf && LayoutOf(buf).value.value == p.Span()
  {
    var b, e := HeaderFound(buf);
    HeaderDecides(buf, b, e);
    p := SizedParts(buf, b, e);
  }

  lemma SizedFacts(buf: bytes, headerLen: nat, digits: bytes)
    requires SizedLayout(buf, headerLen, digits).Success? && SizedLayout(buf, headerLen, digits).value.Some?
    ensures var l := SizedLayout(buf, headerLen, digits).value.value;
            && l.bodyStart == headerLen <= l.bodyEnd && ParsedDigits(digits) == Some(l.bodyEnd - headerLen)
            && l.frameLen == l.bodyEnd + TAIL_LEN <= MAX_MESSAGE_LEN && l.frameLen <= |buf|
            && IsChecksumField(buf[l.bodyEnd..l.frameLen])
  {
  }

  lemma SizedParts(buf: bytes, b: nat, e: nat) returns (p: Parts)
    requires HeaderAt(buf, b, e) && b + 3 <= e < |buf| && e < MAX_HEADER_SCAN
    requires SizedLayout(buf, e + 1, buf[b + 3..e]).Success? && SizedLayout(buf, e + 1, buf[b + 3..e]).value.Some?
    ensures p.WellFormed() && p.Assembled() <= buf && SizedLayout(buf, e + 1, buf[b + 3..e]).value.value == p.Span()
  {
    hide SizedLayout, IsChecksumField, ParsedDigits, HeaderAt;
    SizedFacts(buf, e + 1, buf[b + 3..e]);
    var l := SizedLayout(buf, e + 1, buf[b + 3..e]).value.value;
    p := Parts(buf[..b], buf[b + 3..e], buf[e + 1..l.bodyEnd], buf[l.bodyEnd + 3..l.bodyEnd + 6]);
    HeaderParts(buf, b, e, p);
    SliceOfSlice(buf, l.bodyEnd, l.frameLen, 3, 6);
    ChecksumParts(buf[l.bodyEnd..l.frameLen]);
    assert p.Assembled() == buf[..l.frameLen];
  }

  lemma ChecksumParts(tail: bytes)
    requires IsChecksumField(tail) && |tail| == TAIL_LEN
    ensures tail == CHECKSUM + tail[3..6] + [SOH] && AllDigits(tail[3..6])
  {
    assert tail == tail[..3] + tail[3..6] + [tail[6]];
  }

  lemma HeaderParts(buf: bytes, b: nat, e: nat, p: Parts)
    requires HeaderAt(buf, b, e) && p.begin == buf[..b] && p.digits == buf[b + 3..e]
    ensures p.Header() == buf[..e + 1] && BEGIN_STRING <= p.begin && SOH !in p.begin
  {
    assert buf[b + 1..b + 3] == BODY_LENGTH;
    assert buf[..e + 1] == buf[..b] + [buf[b]] + buf[b + 1..b + 3] + buf[b + 3..e] + [buf[e]];
  }

  /** A verdict is a frame exactly when a well-formed message stands at the front of the buffer. */
  lemma FramedIffGrammar(buf: bytes, l: Layout)
    ensures LayoutOf(buf) == Success(Some(l)) <==>
            exists p: Parts :: p.WellFormed() && p.Assembled() <= buf && l == p.Span()
  {
    hide LayoutOf;
    if LayoutOf(buf) == Success(Some(l)) {
      var p := FramedIsAssembled(buf);
    }
    forall p: Parts | p.WellFormed() && p.Assembled() <= buf && l == p.Span()
      ensures LayoutOf(buf) == Success(Some(l))
    {
      AssembledIsFramed(p, buf[|p.Assembled()|..]);
      assert p.Assembled() + buf[|p.Assembled()|..] == buf;
    }
  }

  /** Every frame is between 14 bytes and 16 KiB long, and its body lies inside it. */
  lemma FrameBounds(buf: bytes)
    requires LayoutOf(buf).Success? && LayoutOf(buf).value.Some?
    ensures var l := LayoutOf(buf).value.value;
            && 14 <= l.frameLen <= |buf| && l.frameLen <= MAX_MESSAGE_LEN
            && 7 <= l.bodyStart <= l.bodyEnd == l.frameLen - TAIL_LEN
            && IsFrame(buf[..l.frameLen])
  {
    var p := FramedIsAssembled(buf);
    assert p.digits != [] && |p.begin| >= 2;
    assert p.Assembled() == buf[..LayoutOf(buf).value.value.frameLen];
  }

  /** "Not yet" is only ever said of less than 16 KiB. */
  lemma UndecidedIsShort(buf: bytes)
    requires LayoutOf(buf) == Success(None)
    ensures |buf| < MAX_MESSAGE_LEN
  {
  }

  lemma SizedPermanent(buf: bytes, more: bytes, headerLen: nat, digits: bytes)
    requires SizedLayout(buf, headerLen, digits) != Success(None)
    ensures SizedLayout(buf + more, headerLen, digits) == SizedLayout(buf, headerLen, digits)
  {
    if ParsedDigits(digits).Some? {
      var bodyEnd := headerLen + ParsedDigits(digits).value;
      if bodyEnd + TAIL_LEN <= |buf| {
        assert (buf + more)[bodyEnd..bodyEnd + TAIL_LEN] == buf[bodyEnd..bodyEnd + TAIL_LEN];
      }
    }
  }

  /** Once both header fields are delimited, every verdict but "not yet" is final. */
  lemma HeaderPermanent(buf: bytes, more: bytes, b: nat, e: nat)
    requires HeaderAt(buf, b, e) && LayoutOf(buf) != Success(None)
    ensures LayoutOf(buf + more) == LayoutOf(buf)
  {
    hide LayoutOf, SizedLayout;
    HeaderDecides(buf, b, e);
    assert HeaderAt(buf + more, b, e) by {
      assert forall j :: 0 <= j <= e ==> (buf + more)[j] == buf[j];
    }
    HeaderDecides(buf + more, b, e);
    assert (buf + more)[b + 3..e] == buf[b + 3..e];
    SizedPermanent(buf, more, e + 1, buf[b + 3..e]);
  }

  /** A frame verdict never changes when more bytes arrive. */
  lemma FrameIsPermanent(buf: bytes, more: bytes)
    requires LayoutOf(buf).Success? && LayoutOf(buf).value.Some?
    ensures LayoutOf(buf + more) == LayoutOf(buf)
  {
    var b, e := HeaderFound(buf);
    HeaderPermanent(buf, more, b, e);
  }

  /**
   * The one open corner: the first SOH stands so late (index 30 or 31) that the scan gives up before
   * both bytes of `9=` have been seen, and the missing bytes turn out to be others.
   */
  predicate KindStillOpen(buf: bytes, more: bytes) {
    && |buf| >= MAX_HEADER_SCAN && StartsWithPrefixOf(buf, BEGIN_STRING)
    && var b := Position(buf, SOH);
    && (b == Some(30) || b == Some(31))
    && StartsWithPrefixOf(buf[b.value + 1..], BODY_LENGTH)
    && !StartsWithPrefixOf((buf + more)[b.value + 1..], BODY_LENGTH)
  }

  /**
   * An error never goes away when more bytes arrive, and its kind changes in the open corner only,
   * always from HeaderTooLong to BadBodyLength.
   */
  lemma ErrorIsPermanent(buf: bytes, more: bytes)
    requires LayoutOf(buf).Failure?
    ensures LayoutOf(buf + more) ==
            if KindStillOpen(buf, more) then Failure(BadBodyLength) else LayoutOf(buf)
    ensures KindStillOpen(buf, more) ==> LayoutOf(buf) == Failure(HeaderTooLong)
  {
    hide ScanSoh, SizedLayout;
    var all := buf + more;
    StartsWithPrefixOfBytes(buf, BEGIN_STRING);
    StartsWithPrefixOfBytes(all, BEGIN_STRING);
    assert forall j :: 0 <= j < |buf| ==> all[j] == buf[j];
    var first := ScanSoh(buf, 0);
    if first.Success? && first.value.Some? {
      ErrorPastBegin(buf, more, first.value.value);
    } else if StartsWithPrefixOf(buf, BEGIN_STRING) {
      assert ScanSoh(all, 0) == first;
      var p := Position(buf, SOH);
      assert p.Some? ==> p.value >= MAX_HEADER_SCAN;
    }
  }

  lemma ErrorPastBegin(buf: bytes, more: bytes, b: nat)
    requires LayoutOf(buf).Failure? && ScanSoh(buf, 0) == Success(Some(b))
    ensures LayoutOf(buf + more) ==
            if KindStillOpen(buf, more) then Failure(BadBodyLength) else LayoutOf(buf)
    ensures KindStillOpen(buf, more) ==> LayoutOf(buf) == Failure(HeaderTooLong)
  {
    hide ScanSoh, SizedLayout;
    var all := buf + more;
    StartsWithPrefixOfBytes(buf, BEGIN_STRING);
    StartsWithPrefixOfBytes(all, BEGIN_STRING);
    assert forall j :: 0 <= j < |buf| ==> all[j] == buf[j];
    assert ScanSoh(all, 0) == Success(Some(b));
    assert Position(buf, SOH) == Some(b);
    if StartsWithPrefixOf(buf, BEGIN_STRING) {
      assert LayoutOf(buf) == LengthLayout(buf, b + 1);
      assert LayoutOf(all) == LengthLayout(all, b + 1);
      LengthErrorPermanent(buf, more, b);
    }
  }

  lemma ScanErrorPermanent(buf: bytes, more: bytes, from: nat)
    requires from <= |buf| && ScanSoh(buf, from).Failure?
    ensures ScanSoh(buf + more, from) == ScanSoh(buf, from)
  {
    assert forall j :: 0 <= j < |buf| ==> (buf + more)[j] == buf[j];
  }

  lemma LengthErrorPermanent(buf: bytes, more: bytes, b: nat)
    requires StartsWithPrefixOf(buf, BEGIN_STRING) && ScanSoh(buf, 0) == Success(Some(b))
    requires LayoutOf(buf) == LengthLayout(buf, b + 1) && LayoutOf(buf).Failure?
    requires LayoutOf(buf + more) == LengthLayout(buf + more, b + 1)
    requires Position(buf, SOH) == Some(b)
    ensures LengthLayout(buf + more, b + 1) ==
            if KindStillOpen(buf, more) then Failure(BadBodyLength) else LayoutOf(buf)
    ensures KindStillOpen(buf, more) ==> LayoutOf(buf) == Failure(HeaderTooLong)
  {
    hide LayoutOf, ScanSoh, SizedLayout;
    var all := buf + more;
    assert buf[b + 1..|buf|] == buf[b + 1..] && all[b + 1..|all|] == all[b + 1..];
    DropConcat(buf, more, b + 1);
    PrefixVerdictPermanent(buf[b + 1..], more, BODY_LENGTH);
    if StartsWithPrefixOf(buf[b + 1..], BODY_LENGTH) {
      var second := ScanSoh(buf, b + 1);
      if second.Success? {
        var b', e := HeaderFound(buf);
        HeaderPermanent(buf, more, b, e);
        assert |buf[b + 1..]| >= 2 && !KindStillOpen(buf, more);
      } else if StartsWithPrefixOf(all[b + 1..], BODY_LENGTH) {
        ScanErrorPermanent(buf, more, b + 1);
      } else {
        assert b + 3 > |buf| >= MAX_HEADER_SCAN && b < MAX_HEADER_SCAN;
        assert KindStillOpen(buf, more);
      }
    } else {
      assert !KindStillOpen(buf, more);
    }
  }

  /** A prefix mismatch is final; so is a match once the whole prefix has been seen. */
  lemma PrefixVerdictPermanent(buf: bytes, more: bytes, prefix: bytes)
    ensures !StartsWithPrefixOf(buf, prefix) ==> !StartsWithPrefixOf(buf + more, prefix)
    ensures |buf| >= |prefix| ==> StartsWithPrefixOf(buf + more, prefix) == StartsWithPrefixOf(buf, prefix)
  {
    StartsWithPrefixOfBytes(buf, prefix);
    StartsWithPrefixOfBytes(buf + more, prefix);
    assert forall j :: 0 <= j < |buf| ==> (buf + more)[j] == buf[j];
  }

  lemma OpenKindIsHeaderTooLong(buf: bytes, more: bytes)
    requires KindStillOpen(buf, more)
    ensures LayoutOf(buf) == Failure(HeaderTooLong)
  {
    hide ScanSoh, SizedLayout;
    var b := Position(buf, SOH).value;
    assert ScanSoh(buf, 0) == Success(Some(b));
    DropConcat(buf, more, b + 1);
    PrefixVerdictPermanent(buf[b + 1..], more, BODY_LENGTH);
    StartsWithPrefixOfBytes(buf[b + 1..], BODY_LENGTH);
    assert |buf[b + 1..]| < 2;
    if |buf| > b + 1 {
      assert buf[b + 1] == buf[b + 1..][0] == BODY_LENGTH[0] != SOH;
    }
    assert forall j :: b + 1 <= j < |buf| ==> buf[j] != SOH;
    assert ScanSoh(buf, b + 1) == Failure(HeaderTooLong);
    assert buf[b + 1..|buf|] == buf[b + 1..];
  }

  /** A frame verdict depends on the bytes of the frame only. */
  lemma FrameIsLocal(buf: bytes, n: nat)
    requires LayoutOf(buf).Success? && LayoutOf(buf).value.Some?
    requires LayoutOf(buf).value.value.frameLen <= n <= |buf|
    ensures LayoutOf(buf[..n]) == LayoutOf(buf)
  {
    hide LayoutOf, SizedLayout;
    var p := FramedIsAssembled(buf);
    var m := |p.Assembled()|;
    AssembledIsFramed(p, buf[m..n]);
    assert p.Assembled() + buf[m..n] == buf[..n];
  }

  /** The frames form a prefix code: none is a proper prefix of another. */
  lemma PrefixCode(a: bytes, b: bytes)
    requires IsFrame(a) && IsFrame(b) && a <= b
    ensures a == b
  {
    FrameLayout(a);
    FrameLayout(b);
    FrameIsPermanent(a, b[|a|..]);
    assert a + b[|a|..] == b;
  }

  /** A frame alone is framed as a whole. */
  lemma FrameLayout(raw: bytes)
    ensures IsFrame(raw) <==>
            && LayoutOf(raw).Success? && LayoutOf(raw).value.Some?
            && LayoutOf(raw).value.value.frameLen == |raw|
  {
    if IsFrame(raw) {
      var p: Parts :| p.WellFormed() && p.Assembled() == raw;
      AssembledIsFramed(p, []);
      assert raw + [] == raw;
    } else if LayoutOf(raw).Success? && LayoutOf(raw).value.Some? {
      FrameBounds(raw);
      assert raw[..|raw|] == raw;
    }
  }
}
