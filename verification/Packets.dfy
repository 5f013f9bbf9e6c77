/** Datagrams and what an operator may decide about one. */
module Packets {
  import opened Wrappers
  import opened Bytes

  datatype SeqNum = SeqNum(number: nat)

  /** The instant of arrival is a number of nanoseconds on the monotonic clock. */
  datatype Packet = Packet(payload: bytes, seqnum: Option<SeqNum>, receivedAt: nat)

  /** Delays are durations in nanoseconds. */
  datatype Effect = Forward | Drop | DelayBy(delay: nat) | DuplicateAfter(delay: nat)
}
