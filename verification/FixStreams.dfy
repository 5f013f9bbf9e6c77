/** Whole streams: concatenations of frames, and printing followed by framing. */
module FixStreams {
  import opened Wrappers
  import opened Bytes
  import opened Digits
  import opened FixLayout
  import opened FixDomain
  import opened FixHeaders
  import opened FixFraming
  import FixChunking

  ghost predicate AllFrames(frames: seq<bytes>) {
    forall i :: 0 <= i < |frames| ==> IsFrame(frames[i])
  }

  /** Frames in front of a stream are cut off one by one, unchanged. */
  lemma {:induction false} FramesCut(frames: seq<bytes>, rest: bytes) returns (cuts: seq<Cut>)
    requires AllFrames(frames)
    ensures CutsOf(Concat(frames) + rest, cuts, rest) && Raws(cuts) == frames
    decreases |frames|
  {
    if frames == [] {
      cuts := [];
      assert Concat(frames) + rest == rest;
    } else {
      hide LayoutOf, HeaderOf, IsFrame, Concat, CutsOf, Raws;
      var l := FrameFirst(frames, rest);
      var later := FramesCut(frames[1..], rest);
      cuts := [CutAt(Concat(frames) + rest, l)] + later;
      CutInFront(Concat(frames) + rest, l, later, rest);
    }
  }

  lemma CutInFront(stream: bytes, l: Layout, later: seq<Cut>, rest: bytes)
    requires LayoutOf(stream) == Success(Some(l)) && l.frameLen <= |stream|
    requires CutsOf(stream[l.frameLen..], later, rest)
    ensures CutsOf(stream, [CutAt(stream, l)] + later, rest)
    ensures Raws([CutAt(stream, l)] + later) == [stream[..l.frameLen]] + Raws(later)
  {
    hide LayoutOf, CutAt, Raws;
    var first := CutAt(stream, l);
    assert ([first] + later)[1..] == later;
    RawsInFront(first, later);
    assert first.raw == stream[..l.frameLen] by {
      CutReads(stream, l);
    }
  }

  lemma CutReads(stream: bytes, l: Layout)
    requires l.frameLen <= |stream|
    ensures CutAt(stream, l).raw == stream[..l.frameLen]
  {
    hide HeaderOf;
  }

  lemma RawsInFront(first: Cut, later: seq<Cut>)
    ensures Raws([first] + later) == [first.raw] + Raws(later)
  {
  }

  lemma FrameFirst(frames: seq<bytes>, rest: bytes) returns (l: Layout)
    requires frames != [] && IsFrame(frames[0])
    ensures var stream := Concat(frames) + rest;
            && LayoutOf(stream) == Success(Some(l)) && l.frameLen <= |stream|
            && stream[..l.frameLen] == frames[0] && stream[l.frameLen..] == Concat(frames[1..]) + rest
  {
    hide LayoutOf, IsFrame;
    var tail := Concat(frames[1..]) + rest;
    Regroup(frames[0], Concat(frames[1..]), rest);
    FrameLayout(frames[0]);
    FrameIsPermanent(frames[0], tail);
    l := LayoutOf(frames[0]).value.value;
  }

  /** Fed at once, a stream of frames and a rest gives the frames and what the rest gives. */
  lemma FramesAtOnce(frames: seq<bytes>, rest: bytes)
    requires AllFrames(frames)
    ensures AtOnce(Concat(frames) + rest).0 == AtOnce(rest).0
    ensures Raws(AtOnce(Concat(frames) + rest).1) == frames + Raws(AtOnce(rest).1)
  {
    hide LayoutOf, HeaderOf, IsFrame, AtOnce, CutsOf;
    var cuts := FramesCut(frames, rest);
    CutsDrain(Concat(frames) + rest, cuts, rest);
  }

  /** Feeding alone holds on to everything: two whole messages stay buffered until the framer is asked. */
  lemma FedTwice(frame: bytes)
    requires IsFrame(frame)
    ensures Run([Fed(frame), Fed(frame)]) == (Framer(frame + frame, None), [])
    ensures Raws(Drained(Run([Fed(frame), Fed(frame)]).0).1) == [frame, frame]
  {
    hide LayoutOf, HeaderOf, Poll, IsFrame;
    var events := [Fed(frame), Fed(frame)];
    assert events[..1] == [Fed(frame)] && events[..1][..0] == [];
    assert [] + frame == frame;
    assert Run(events[..1]) == (Framer(frame, None), []);
    FramesAtOnce([frame, frame], []);
    EmptyAtOnce();
    assert [frame, frame][1..] == [frame] && [frame][1..] == [];
    assert Concat([frame]) == frame;
    assert Concat([frame, frame]) + [] == frame + frame;
    assert [frame, frame] + Raws([]) == [frame, frame];
  }

  lemma EmptyAtOnce()
    ensures AtOnce([]) == (FRESH, [])
  {
    assert ScanSoh([], 0) == Success(None);
  }

  /** A stream drains to a fresh framer exactly when it is a concatenation of accepted frames. */
  lemma CleanIffFrames(stream: bytes)
    ensures AtOnce(stream).0 == FRESH <==> exists frames :: AllFrames(frames) && Concat(frames) == stream
    ensures AtOnce(stream).0 == FRESH ==> AllFrames(Raws(AtOnce(stream).1)) && Concat(Raws(AtOnce(stream).1)) == stream
  {
    hide LayoutOf, HeaderOf, IsFrame, AtOnce;
    if AtOnce(stream).0 == FRESH {
      var rest := DrainCuts(stream);
      CutsConserve(stream, AtOnce(stream).1, rest);
      CutsAreWhole(stream, AtOnce(stream).1, rest);
      assert rest == [];
    }
    forall frames | AllFrames(frames) && Concat(frames) == stream
      ensures AtOnce(stream).0 == FRESH
    {
      FramesAtOnce(frames, []);
      EmptyAtOnce();
      assert stream + [] == stream;
    }
  }

  /** A stream splits into frames in at most one way. */
  lemma UniqueSplit(a: seq<bytes>, b: seq<bytes>)
    requires AllFrames(a) && AllFrames(b) && Concat(a) == Concat(b)
    ensures a == b
  {
    hide LayoutOf, IsFrame, AtOnce;
    FramesAtOnce(a, []);
    FramesAtOnce(b, []);
    EmptyAtOnce();
    assert a + Raws([]) == a && b + Raws([]) == b;
  }

  // ----- The printer -----

  const BEGIN_FIX42: bytes :=
    BEGIN_STRING + ['F' as int, 'I' as int, 'X' as int, '.' as int, '4' as int, '.' as int, '2' as int]

  function SumOf(s: bytes): nat {
    if s == [] then 0 else SumOf(s[..|s| - 1]) + s[|s| - 1]
  }

  function ThreeDigits(n: nat): (s: bytes)
    requires n < 1000
    ensures |s| == 3 && AllDigits(s)
  {
    [ZERO + n / 100, ZERO + n / 10 % 10, ZERO + n % 10]
  }

  function PrintedParts(body: bytes): (p: Parts) {
    var unsigned := Parts(BEGIN_FIX42, Decimal(|body|), body, ThreeDigits(0));
    unsigned.(checksum := ThreeDigits(SumOf(unsigned.Header() + body) % 256))
  }

  /** A FIX.4.2 message around a body of arbitrary bytes. */
  function Printed(body: bytes): bytes {
    PrintedParts(body).Assembled()
  }

  /** No array is longer than this. */
  const ISIZE_MAX: nat := 0x7FFF_FFFF_FFFF_FFFF

  function Pow10(k: nat): nat {
    if k == 0 then 1 else 10 * Pow10(k - 1)
  }

  lemma {:induction false} DecimalLength(n: nat, k: nat)
    requires k >= 1 && n < Pow10(k)
    ensures |Decimal(n)| <= k
  {
    if n >= 10 {
      DecimalLength(n / 10, k - 1);
    }
  }

  lemma PrintedHeaderShort(body: bytes)
    requires |body| <= ISIZE_MAX
    ensures |PrintedParts(body).begin| + 3 + |PrintedParts(body).digits| < MAX_HEADER_SCAN
    ensures ParsedDigits(PrintedParts(body).digits) == Some(|body|)
  {
    assert ISIZE_MAX < Pow10(19) by {
      assert Pow10(4) == 10_000;
      assert Pow10(8) == 10_000 * Pow10(4);
      assert Pow10(12) == 10_000 * Pow10(8);
      assert Pow10(16) == 10_000 * Pow10(12);
      assert Pow10(19) == 1_000 * Pow10(16);
    }
    DecimalLength(|body|, 19);
    ParsedDecimal(|body|);
  }

  /**
   * A printed message is framed at its own length exactly when it is within the cap; over the cap it
   * is refused as too long (for any body an array can hold).
   */
  lemma PrintedIsFramed(body: bytes, rest: bytes)
    ensures |Printed(body)| <= MAX_MESSAGE_LEN <==>
            LayoutOf(Printed(body) + rest) == Success(Some(PrintedParts(body).Span()))
    ensures MAX_MESSAGE_LEN < |Printed(body)| && |body| <= ISIZE_MAX ==>
            LayoutOf(Printed(body) + rest) == Failure(MessageTooLong)
  {
    hide LayoutOf;
    if |body| <= ISIZE_MAX {
      PrintedHeaderShort(body);
    }
    if |Printed(body)| <= MAX_MESSAGE_LEN {
      AssembledIsFramed(PrintedParts(body), rest);
    } else if LayoutOf(Printed(body) + rest) == Success(Some(PrintedParts(body).Span())) {
      FrameBounds(Printed(body) + rest);
    } else if |body| <= ISIZE_MAX {
      TooLongRefused(PrintedParts(body), rest);
    }
  }

  function PrintedAll(bodies: seq<bytes>): (raws: seq<bytes>) {
    seq(|bodies|, i requires 0 <= i < |bodies| => Printed(bodies[i]))
  }

  /**
   * Print then frame is the identity: messages printed around any bodies, concatenated and fed in
   * any chunks with the framer asked at any moments, come back in order with nothing left over.
   */
  lemma PrintThenFrame(bodies: seq<bytes>, events: seq<Event>)
    requires forall i :: 0 <= i < |bodies| ==> |Printed(bodies[i])| <= MAX_MESSAGE_LEN
    requires BytesOf(events) == Concat(PrintedAll(bodies))
    ensures var (f, out) := Run(events);
            var (end, more) := Drained(f);
            end == FRESH && Raws(out + more) == PrintedAll(bodies)
  {
    hide LayoutOf, HeaderOf, Printed;
    var raws := PrintedAll(bodies);
    forall i | 0 <= i < |raws| ensures IsFrame(raws[i]) {
      PrintedFrame(bodies[i]);
    }
    FixChunking.ChunkingIndependence(events);
    FramesAtOnce(raws, []);
    EmptyAtOnce();
    assert Concat(raws) + [] == Concat(raws) && raws + Raws([]) == raws;
  }

  lemma PrintedFrame(body: bytes)
    requires |Printed(body)| <= MAX_MESSAGE_LEN
    ensures IsFrame(Printed(body))
    ensures LayoutOf(Printed(body)) == Success(Some(PrintedParts(body).Span()))
    ensures var l := PrintedParts(body).Span(); Printed(body)[l.bodyStart..l.bodyEnd] == body
  {
    hide LayoutOf;
    PrintedIsFramed(body, []);
    assert Printed(body) + [] == Printed(body);
    FrameLayout(Printed(body));
  }

  /** Nothing looks at the last byte of a body: one that does not end a field is framed like any other. */
  lemma BodyWithoutSoh()
    ensures var raw, l := Printed(['x' as int]), PrintedParts(['x' as int]).Span();
            LayoutOf(raw) == Success(Some(l)) && l.bodyEnd <= |raw| && raw[l.bodyStart..l.bodyEnd] == ['x' as int]
  {
    hide LayoutOf;
    PrintedFrame(['x' as int]);
  }

  /**
   * Down to the header: whatever the bodies and the schedule, the header of every message that comes
   * back holds what splitting its own body gives.
   */
  lemma PrintedHeadersComeBack(bodies: seq<bytes>, events: seq<Event>, i: nat, direction: Direction, receivedAt: nat)
    requires forall m :: 0 <= m < |bodies| ==> |Printed(bodies[m])| <= MAX_MESSAGE_LEN
    requires BytesOf(events) == Concat(PrintedAll(bodies)) && i < |bodies|
    ensures var cuts := Run(events).1 + Drained(Run(events).0).1;
            && |cuts| == |bodies|
            && var message := FixMessage(cuts[i].raw, cuts[i].header, direction, receivedAt);
            && var fields := Split(bodies[i]);
            && message.raw == Printed(bodies[i])
            && Holds(message, LastTagged(fields, [51, 52]), LastTagged(fields, [51, 53]), LastTagged(fields, [52, 51]))
  {
    hide LayoutOf, HeaderOf, Printed, Run, Drained, Holds;
    PrintThenFrame(bodies, events);
    var cuts := Run(events).1 + Drained(Run(events).0).1;
    assert Raws(cuts)[i] == cuts[i].raw;
    CutsAreOfRaws(events, i);
    PrintedFrame(bodies[i]);
    var l := PrintedParts(bodies[i]).Span();
    HeaderMeaning(cuts[i].raw, Range(l.bodyStart, l.bodyEnd), direction, receivedAt);
  }

  function Bodies(messages: seq<seq<Field>>): (bodies: seq<bytes>) {
    seq(|messages|, m requires 0 <= m < |messages| => PrintFields(messages[m]))
  }

  /**
   * Down to the fields: the header of every message that comes back holds the values printed last
   * under tags 34, 35 and 43 in its own body.
   */
  lemma PrintedFieldsComeBack(messages: seq<seq<Field>>, events: seq<Event>, i: nat,
                              direction: Direction, receivedAt: nat)
    requires forall m, j :: 0 <= m < |messages| && 0 <= j < |messages[m]| ==> messages[m][j].Printable()
    requires forall m :: 0 <= m < |messages| ==> |Printed(PrintFields(messages[m]))| <= MAX_MESSAGE_LEN
    requires BytesOf(events) == Concat(PrintedAll(Bodies(messages)))
    requires i < |messages|
    ensures var cuts := Run(events).1 + Drained(Run(events).0).1;
            && |cuts| == |messages|
            && var message := FixMessage(cuts[i].raw, cuts[i].header, direction, receivedAt);
            && message.raw == Printed(PrintFields(messages[i]))
            && var fields := messages[i];
            && Holds(message, LastOf(fields, [51, 52]), LastOf(fields, [51, 53]), LastOf(fields, [52, 51]))
  {
    hide LayoutOf, HeaderOf, Printed, Run, Drained, Holds;
    PrintedHeadersComeBack(Bodies(messages), events, i, direction, receivedAt);
    PrintedFieldsRead(messages[i], [51, 52]);
    PrintedFieldsRead(messages[i], [51, 53]);
    PrintedFieldsRead(messages[i], [52, 51]);
  }

  /** A number printed last under 34, with any zeros in front, comes back as that number if it fits 64 bits. */
  lemma PrintedNumberIsHeld(message: FixMessage, zeros: bytes, n: nat, kind: Option<bytes>, dup: Option<bytes>)
    requires forall j :: 0 <= j < |zeros| ==> zeros[j] == 48
    requires Holds(message, Some(zeros + Decimal(n)), kind, dup)
    ensures message.header.msgSeqNum ==
            if n <= 18_446_744_073_709_551_615 then Some(MsgSeqNum(n)) else None
  {
    PaddedDecimal(zeros, n);
    assert AllDigits(zeros + Decimal(n));
  }

  /** The header of a message depends on its raw bytes only. */
  lemma CutsAreOfRaws(events: seq<Event>, i: nat)
    requires i < |Run(events).1 + Drained(Run(events).0).1|
    ensures WholeCut((Run(events).1 + Drained(Run(events).0).1)[i])
  {
    hide LayoutOf, HeaderOf, Run, Drained;
    FixChunking.ChunkingIndependence(events);
    var rest := DrainCuts(BytesOf(events));
    CutsAreWhole(BytesOf(events), AtOnce(BytesOf(events)).1, rest);
  }
}
