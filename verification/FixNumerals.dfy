/**
 * The framer's grammar byte by byte, in numerals: 1 is SOH, 48 to 57 are the digits, 56 61 is `8=`,
 * 57 61 is `9=` and 49 48 61 is `10=`. Nothing here leans on the names the framer uses.
 */
module FixNumerals {
  import opened Wrappers
  import opened Bytes
  import opened Digits
  import opened FixLayout
  import opened FixDomain
  import opened FixHeaders
  import opened FixFraming
  import opened FixStreams

  predicate Numeric(s: bytes) {
    forall i :: 0 <= i < |s| ==> 48 <= s[i] <= 57
  }

  /** The number a string of digits denotes, read from the left. */
  function Number(s: bytes): int {
    if s == [] then 0 else 10 * Number(s[..|s| - 1]) + (s[|s| - 1] as int - 48)
  }

  /** `8=` begin SOH `9=` digits SOH body `10=` sum SOH, with the limits of 32 and 16384 bytes. */
  predicate Spelled(raw: bytes, begin: bytes, digits: bytes, body: bytes, sum: bytes) {
    && raw == [56, 61] + begin + [1, 57, 61] + digits + [1] + body + [49, 48, 61] + sum + [1]
    && 1 !in begin
    && digits != [] && Numeric(digits) && Number(digits) == |body|
    && |begin| + |digits| < 27
    && |sum| == 3 && Numeric(sum)
    && |raw| <= 16_384
  }

  lemma {:induction false} NumberIsValue(s: bytes)
    requires Numeric(s)
    ensures AllDigits(s) && Value(s) == Number(s)
  {
    if s != [] {
      NumberIsValue(s[..|s| - 1]);
    }
  }

  lemma NumericIff(s: bytes)
    ensures Numeric(s) <==> AllDigits(s)
  {
  }

  /** The accepted frames are exactly the messages so spelled. */
  lemma FramesAreSpelled(raw: bytes)
    ensures IsFrame(raw) <==>
            exists begin, digits, body, sum :: Spelled(raw, begin, digits, body, sum)
  {
    if IsFrame(raw) {
      var p: Parts :| p.WellFormed() && p.Assembled() == raw;
      PartsAreSpelled(p);
    }
    forall begin, digits, body, sum | Spelled(raw, begin, digits, body, sum)
      ensures IsFrame(raw)
    {
      var p := SpelledIsParts(raw, begin, digits, body, sum);
    }
  }

  lemma PartsAreSpelled(p: Parts)
    requires p.WellFormed()
    ensures Spelled(p.Assembled(), p.begin[2..], p.digits, p.body, p.checksum)
  {
    NumericIff(p.digits);
    NumericIff(p.checksum);
    NumberIsValue(p.digits);
    assert p.begin == [56, 61] + p.begin[2..];
  }

  lemma SpelledIsParts(raw: bytes, begin: bytes, digits: bytes, body: bytes, sum: bytes) returns (p: Parts)
    requires Spelled(raw, begin, digits, body, sum)
    ensures p.WellFormed() && p.Assembled() == raw
    ensures p == Parts([56, 61] + begin, digits, body, sum)
  {
    p := Parts([56, 61] + begin, digits, body, sum);
    NumericIff(sum);
    NumberIsValue(digits);
  }

  /** What the framer cuts off a stream that starts with such a message is that message, body and all. */
  lemma SpelledIsFramed(raw: bytes, begin: bytes, digits: bytes, body: bytes, sum: bytes, rest: bytes)
    requires Spelled(raw, begin, digits, body, sum)
    ensures var start := |begin| + |digits| + 6;
            && LayoutOf(raw + rest) == Success(Some(Layout(|raw|, start, start + |body|)))
            && raw[start..start + |body|] == body
  {
    hide LayoutOf;
    var p := SpelledIsParts(raw, begin, digits, body, sum);
    hide Spelled;
    AssembledIsFramed(p, rest);
    BodyStands(p);
  }

  lemma BodyStands(p: Parts)
    ensures p.Assembled()[|p.Header()|..|p.Header()| + |p.body|] == p.body
    ensures |p.Header()| == |p.begin| + |p.digits| + 4
  {
  }

  // ----- The cap, in numerals -----

  /** A body of 16359 bytes makes a message of 16384 bytes, which is framed; one byte more is refused. */
  lemma CapInNumerals(body: bytes, rest: bytes)
    ensures |body| == 16_359 ==>
              |Printed(body)| == 16_384 && LayoutOf(Printed(body) + rest) == Success(Some(Layout(16_384, 18, 16_377)))
    ensures |body| == 16_360 ==>
              |Printed(body)| == 16_385 && LayoutOf(Printed(body) + rest) == Failure(MessageTooLong)
  {
    hide LayoutOf;
    PrintedIsFramed(body, rest);
    if |body| == 16_359 || |body| == 16_360 {
      assert Decimal(1) == [49] && |Decimal(16)| == 2 && |Decimal(163)| == 3;
      assert |Decimal(1_635)| == 4 && |Decimal(1_636)| == 4;
      assert |Decimal(16_359)| == 5 && |Decimal(16_360)| == 5;
    }
  }

  // ----- One whole message, in numerals -----

  /** `35=0|34=12|43=Y|` */
  const HEARTBEAT_BODY: bytes := [51, 53, 61, 48, 1, 51, 52, 61, 49, 50, 1, 52, 51, 61, 89, 1]

  /** `8=FIX.4.2|9=16|35=0|34=12|43=Y|10=217|` */
  const HEARTBEAT: bytes :=
    [56, 61, 70, 73, 88, 46, 52, 46, 50, 1, 57, 61, 49, 54, 1] + HEARTBEAT_BODY + [49, 48, 61, 50, 49, 55, 1]

  lemma {:induction false} SumAppends(a: bytes, b: bytes)
    ensures SumOf(a + b) == SumOf(a) + SumOf(b)
    decreases |b|
  {
    if b == [] {
      assert a + b == a;
    } else {
      assert (a + b)[..|a + b| - 1] == a + b[..|b| - 1];
      SumAppends(a, b[..|b| - 1]);
    }
  }

  lemma SumOfFour(a: byte, b: byte, c: byte, d: byte)
    ensures SumOf([a, b, c, d]) == a + b + c + d
  {
    SumAppends([a], [b]);
    SumAppends([c], [d]);
    SumAppends([a, b], [c, d]);
    assert [a] + [b] == [a, b] && [c] + [d] == [c, d] && [a, b] + [c, d] == [a, b, c, d];
    forall x: byte ensures SumOf([x]) == x {
      assert [x][..0] == [];
    }
  }

  lemma HeartbeatSum()
    ensures SumOf([56, 61, 70, 73, 88, 46, 52, 46, 50, 1, 57, 61, 49, 54, 1] + HEARTBEAT_BODY) == 1_497
  {
    hide SumOf;
    SumOfFour(56, 61, 70, 73);
    SumOfFour(88, 46, 52, 46);
    SumOfFour(50, 1, 57, 61);
    SumOfFour(49, 54, 1, 51);
    SumOfFour(53, 61, 48, 1);
    SumOfFour(51, 52, 61, 49);
    SumOfFour(50, 1, 52, 51);
    SumOfFour(61, 89, 1, 0);
    SumAppends([61, 89, 1], [0]);
    SumOfOne(0);
    assert [61, 89, 1] + [0] == [61, 89, 1, 0];
    var p1, p2, p3: bytes := [56, 61, 70, 73], [88, 46, 52, 46], [50, 1, 57, 61];
    var p4, p5, p6: bytes := [49, 54, 1, 51], [53, 61, 48, 1], [51, 52, 61, 49];
    var p7, p8: bytes := [50, 1, 52, 51], [61, 89, 1];
    SumAppends(p1, p2);
    SumAppends(p1 + p2, p3);
    SumAppends(p1 + p2 + p3, p4);
    SumAppends(p1 + p2 + p3 + p4, p5);
    SumAppends(p1 + p2 + p3 + p4 + p5, p6);
    SumAppends(p1 + p2 + p3 + p4 + p5 + p6, p7);
    SumAppends(p1 + p2 + p3 + p4 + p5 + p6 + p7, p8);
    assert [56, 61, 70, 73, 88, 46, 52, 46, 50, 1, 57, 61, 49, 54, 1] + HEARTBEAT_BODY ==
           p1 + p2 + p3 + p4 + p5 + p6 + p7 + p8;
  }

  lemma SumOfOne(x: byte)
    ensures SumOf([x]) == x
  {
    assert [x][..0] == [];
  }

  /** It is what the printer prints around its body, checksum included. */
  lemma HeartbeatIsPrinted()
    ensures Printed(HEARTBEAT_BODY) == HEARTBEAT
  {
    hide SumOf;
    assert Decimal(1) == [49] && Decimal(16) == [49, 54];
    HeartbeatSum();
    var unsigned := Parts(BEGIN_FIX42, Decimal(16), HEARTBEAT_BODY, ThreeDigits(0));
    assert unsigned.Header() == [56, 61, 70, 73, 88, 46, 52, 46, 50, 1, 57, 61, 49, 54, 1];
    assert ThreeDigits(217) == [50, 49, 55];
  }

  const HEARTBEAT_FIELDS: seq<Field> :=
    [Field([51, 53], [48]), Field([51, 52], [49, 50]), Field([52, 51], [89])]

  lemma HeartbeatFields()
    ensures LastTagged(Split(HEARTBEAT_BODY), [51, 52]) == Some([49, 50])
    ensures LastTagged(Split(HEARTBEAT_BODY), [51, 53]) == Some([48])
    ensures LastTagged(Split(HEARTBEAT_BODY), [52, 51]) == Some([89])
  {
    hide Split, LastTagged, LastOf, PrintFields;
    FieldsPrinted();
    LastFields();
    PrintedFieldsRead(HEARTBEAT_FIELDS, [51, 52]);
    PrintedFieldsRead(HEARTBEAT_FIELDS, [51, 53]);
    PrintedFieldsRead(HEARTBEAT_FIELDS, [52, 51]);
  }

  lemma FieldsPrinted()
    ensures PrintFields(HEARTBEAT_FIELDS) == HEARTBEAT_BODY
    ensures forall i :: 0 <= i < |HEARTBEAT_FIELDS| ==> HEARTBEAT_FIELDS[i].Printable()
  {
    var fields := HEARTBEAT_FIELDS;
    assert fields[1..] == [fields[1], fields[2]] && fields[1..][1..] == [fields[2]] && fields[1..][1..][1..] == [];
    assert PrintFields([fields[2]]) == [52, 51, 61, 89, 1];
    assert PrintFields([fields[1], fields[2]]) == [51, 52, 61, 49, 50, 1] + [52, 51, 61, 89, 1];
  }

  lemma LastFields()
    ensures LastOf(HEARTBEAT_FIELDS, [51, 52]) == Some([49, 50])
    ensures LastOf(HEARTBEAT_FIELDS, [51, 53]) == Some([48])
    ensures LastOf(HEARTBEAT_FIELDS, [52, 51]) == Some([89])
  {
    var fields := HEARTBEAT_FIELDS;
    forall tag: bytes
      ensures LastOf(fields, tag) == if tag == [52, 51] then Some([89])
                                     else if tag == [51, 52] then Some([49, 50])
                                     else if tag == [51, 53] then Some([48]) else None
    {
      hide LastOf;
      assert fields[0].tag == [51, 53] && fields[1].tag == [51, 52] && fields[2].tag == [52, 51];
    }
  }

  /** It is framed, and 34, 35 and 43 are lifted out of it. */
  lemma HeartbeatIsRead(direction: Direction, receivedAt: nat) returns (cut: Cut)
    ensures Run([Fed(HEARTBEAT), Asked]) == (FRESH, [cut]) && cut.raw == HEARTBEAT
    ensures var message := FixMessage(cut.raw, cut.header, direction, receivedAt);
            && message.header.msgSeqNum == Some(MsgSeqNum(12))
            && message.MsgType() == Some([48])
            && message.header.possDup
  {
    hide LayoutOf, HeaderOf, Split, LastTagged, Holds;
    HeartbeatIsPrinted();
    PrintedFrame(HEARTBEAT_BODY);
    var l := PrintedParts(HEARTBEAT_BODY).Span();
    cut := CutAt(HEARTBEAT, l);
    AskedOnce(HEARTBEAT, l);
    assert HEARTBEAT[..l.frameLen] == HEARTBEAT;
    HeartbeatFields();
    HeaderMeaning(HEARTBEAT, Range(l.bodyStart, l.bodyEnd), direction, receivedAt);
    HeartbeatHolds(FixMessage(cut.raw, cut.header, direction, receivedAt));
  }

  lemma AskedOnce(raw: bytes, l: Layout)
    requires LayoutOf(raw) == Success(Some(l)) && l.frameLen == |raw|
    ensures Run([Fed(raw), Asked]) == (FRESH, [CutAt(raw, l)])
  {
    hide LayoutOf, HeaderOf;
    var events := [Fed(raw), Asked];
    assert events[..1] == [Fed(raw)] && events[..1][..0] == [];
    assert [] + raw == raw;
    assert Run(events[..1]) == (Framer(raw, None), []);
    assert raw[|raw|..] == [];
    assert Poll(Framer(raw, None)) == Polled(FRESH, Success(Some(CutAt(raw, l))));
    assert events[|events| - 1] == Asked;
    assert [] + [CutAt(raw, l)] == [CutAt(raw, l)];
  }

  lemma HeartbeatHolds(message: FixMessage)
    requires Holds(message, Some([49, 50]), Some([48]), Some([89]))
    ensures message.header.msgSeqNum == Some(MsgSeqNum(12))
    ensures message.MsgType() == Some([48]) && message.header.possDup
  {
    assert Decimal(1) == [49] && Decimal(12) == [49, 50];
    assert [] + Decimal(12) == [49, 50];
    PrintedNumberIsHeld(message, [], 12, Some([48]), Some([89]));
  }
}
