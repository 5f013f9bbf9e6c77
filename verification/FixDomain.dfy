/** FIX messages and the session fields lifted out of them. */
module FixDomain {
  import opened Wrappers
  import opened Bytes

  datatype MsgSeqNum = MsgSeqNum(number: nat)

  datatype Direction = UpstreamToClient | ClientToUpstream

  datatype Range = Range(start: nat, end: nat)

  datatype FixHeader = FixHeader(msgSeqNum: Option<MsgSeqNum>, msgType: Option<Range>, possDup: bool)

  /** The instant of arrival is a number of nanoseconds on the monotonic clock. */
  datatype FixMessage = FixMessage(raw: bytes, header: FixHeader, direction: Direction, receivedAt: nat) {
    /** The message type, resolved from its range into the raw bytes. */
    function MsgType(): (r: Option<bytes>) {
      match header.msgType
      case None => None
      case Some(range) => Get(raw, range.start, range.end)
    }
  }
}
