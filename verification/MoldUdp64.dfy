/** Sequence numbers out of datagram payloads. */
module MoldUdp64 {
  import opened Wrappers
  import opened Bytes
  import opened Packets

  /** A 10-byte session, an 8-byte sequence number and a 2-byte message count. */
  const HEADER_LEN: nat := 20
  const SEQUENCE_START: nat := 10
  const SEQUENCE_END: nat := 18

  /** The configured source of sequence numbers. */
  datatype Extractor = NoopExtractor | MoldUdp64Extractor

  /** The number a byte string denotes, most significant byte first. */
  function BigEndian(s: bytes): (n: nat) {
    if s == [] then 0 else 256 * BigEndian(s[..|s| - 1]) + s[|s| - 1]
  }

  function Extract(extractor: Extractor, payload: bytes): (seqnum: Option<SeqNum>) {
    match extractor
    case NoopExtractor => None
    case MoldUdp64Extractor =>
      if |payload| < HEADER_LEN then None
      else
        match Get(payload, SEQUENCE_START, SEQUENCE_END)
        case None => None
        case Some(sequence) => Some(SeqNum(BigEndian(sequence)))
  }

  /** A number in `width` bytes, most significant first. */
  function ToBigEndian(n: nat, width: nat): (s: bytes)
    ensures |s| == width
  {
    if width == 0 then [] else ToBigEndian(n / 256, width - 1) + [n % 256]
  }

  function Pow256(k: nat): nat {
    if k == 0 then 1 else 256 * Pow256(k - 1)
  }

  lemma {:induction false} BigEndianRoundTrip(n: nat, width: nat)
    requires n < Pow256(width)
    ensures BigEndian(ToBigEndian(n, width)) == n
    decreases width
  {
    if width > 0 {
      BigEndianRoundTrip(n / 256, width - 1);
      var s := ToBigEndian(n, width);
      assert s[..|s| - 1] == ToBigEndian(n / 256, width - 1);
    }
  }

  /** Any 64-bit number written behind any session is read back, whatever messages follow. */
  lemma HeaderIsRead(session: bytes, number: nat, count: nat, messages: bytes)
    requires |session| == SEQUENCE_START && number <= U64_MAX
    ensures var payload := session + ToBigEndian(number, 8) + ToBigEndian(count, 2) + messages;
            Extract(MoldUdp64Extractor, payload) == Some(SeqNum(number))
  {
    var payload := session + ToBigEndian(number, 8) + ToBigEndian(count, 2) + messages;
    assert payload[SEQUENCE_START..SEQUENCE_END] == ToBigEndian(number, 8);
    assert Pow256(4) == 0x1_0000_0000;
    assert Pow256(8) == 0x1_0000_0000 * Pow256(4);
    BigEndianRoundTrip(number, 8);
  }

  lemma {:induction false} BigEndianBound(s: bytes)
    ensures BigEndian(s) < Pow256(|s|)
  {
    if s != [] {
      BigEndianBound(s[..|s| - 1]);
    }
  }

  /** Eight bytes, the most significant one first. */
  lemma BigEndianOfEight(s: bytes)
    requires |s| == 8
    ensures BigEndian(s) ==
            s[0] as int * 0x100_0000_0000_0000 + s[1] as int * 0x1_0000_0000_0000 +
            s[2] as int * 0x100_0000_0000 + s[3] as int * 0x1_0000_0000 +
            s[4] as int * 0x100_0000 + s[5] as int * 0x1_0000 + s[6] as int * 0x100 + s[7]
  {
    BigEndianOfFour(s[..4]);
    assert s[..5][..4] == s[..4] && s[..6][..5] == s[..5] && s[..7][..6] == s[..6] && s[..8][..7] == s[..7];
    assert s[..8] == s;
    assert BigEndian(s[..5]) == 256 * BigEndian(s[..4]) + s[4];
    assert BigEndian(s[..6]) == 256 * BigEndian(s[..5]) + s[5];
    assert BigEndian(s[..7]) == 256 * BigEndian(s[..6]) + s[6];
    assert BigEndian(s[..8]) == 256 * BigEndian(s[..7]) + s[7];
  }

  lemma BigEndianOfFour(s: bytes)
    requires |s| == 4
    ensures BigEndian(s) == s[0] as int * 0x100_0000 + s[1] as int * 0x1_0000 + s[2] as int * 0x100 + s[3]
  {
    assert s[..1][..0] == [] && s[..2][..1] == s[..1] && s[..3][..2] == s[..2] && s[..4][..3] == s[..3];
    assert s[..4] == s;
    assert BigEndian(s[..1]) == s[0];
    assert BigEndian(s[..2]) == 256 * BigEndian(s[..1]) + s[1];
    assert BigEndian(s[..3]) == 256 * BigEndian(s[..2]) + s[2];
    assert BigEndian(s[..4]) == 256 * BigEndian(s[..3]) + s[3];
  }

  /** A sequence number is read exactly from the payloads that hold a whole header, and fits 64 bits. */
  lemma ExtractedIff(payload: bytes)
    ensures Extract(MoldUdp64Extractor, payload).Some? <==> |payload| >= 20
    ensures |payload| >= 20 ==>
              Extract(MoldUdp64Extractor, payload) == Some(SeqNum(BigEndian(payload[10..18]))) &&
              BigEndian(payload[10..18]) <= U64_MAX
  {
    if |payload| >= HEADER_LEN {
      BigEndianBound(payload[10..18]);
      assert Pow256(4) == 0x1_0000_0000;
      assert Pow256(8) == 0x1_0000_0000 * Pow256(4);
    }
  }
}
