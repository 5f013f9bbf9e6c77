/** The framer as the class the transport owns: a buffer and a sticky failure, updated in place. */
module FixFramers {
  import opened Wrappers
  import opened Bytes
  import opened FixLayout
  import opened FixDomain
  import opened FixHeaders
  import opened FixFraming

  /** A cut as the message handed to the caller, or the framing error. */
  function Stamped(r: Result<Option<Cut>, FrameError>, direction: Direction, receivedAt: nat)
    : (s: Result<Option<FixMessage>, FrameError>)
  {
    match r
    case Failure(e) => Failure(e)
    case Success(None) => Success(None)
    case Success(Some(cut)) => Success(Some(FixMessage(cut.raw, cut.header, direction, receivedAt)))
  }

  class FixFramer {
    var buf: bytes
    const direction: Direction
    var failed: Option<FrameError>

    constructor (direction: Direction)
      ensures State() == FRESH && this.direction == direction
    {
      this.buf := [];
      this.direction := direction;
      this.failed := None;
    }

    ghost function State(): Framer
      reads this
    {
      Framer(buf, failed)
    }

    function Buffered(): (n: nat)
      reads this
      ensures n == |State().buf|
    {
      |buf|
    }

    method Extend(chunk: bytes)
      modifies this
      ensures State() == Extended(old(State()), chunk)
    {
      if failed.Some? {
        return;
      }
      buf := buf + chunk;
    }

    method NextMessage(receivedAt: nat) returns (r: Result<Option<FixMessage>, FrameError>)
      modifies this
      ensures State() == Poll(old(State())).next
      ensures r == Stamped(Poll(old(State())).result, direction, receivedAt)
      ensures r.Success? && r.value.Some? ==>
                r.value.value.direction == direction && r.value.value.receivedAt == receivedAt
    {
      hide LayoutOf, HeaderOf;
      if failed.Some? {
        return Failure(failed.value);
      }
      match LayoutOf(buf) {
        case Success(None) =>
          return Success(None);
        case Success(Some(layout)) =>
          FrameBounds(buf);
          var raw := buf[..layout.frameLen];
          buf := buf[layout.frameLen..];
          var header := ParseHeader(raw, Range(layout.bodyStart, layout.bodyEnd));
          return Success(Some(FixMessage(raw, header, direction, receivedAt)));
        case Failure(error) =>
          failed := Some(error);
          buf := [];
          return Failure(error);
      }
    }
  }
}
