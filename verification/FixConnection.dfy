/** One FIX session leg: a socket with its own framer, whole or split into halves. */
module FixConnections {
  import opened Wrappers
  import opened Bytes
  import opened FixLayout
  import opened FixDomain
  import opened FixFraming
  import opened FixFramers
  import opened FixReceiving

  /** More than the framer keeps of an incomplete message, plus one read: 16 and 8 KiB. */
  const BUFFER_BOUND: nat := 24_576

  function StampedReceipt(r: Result<Option<Cut>, ProxyError>, direction: Direction, now: nat)
    : (s: Result<Option<FixMessage>, ProxyError>)
  {
    match r
    case Failure(e) => Failure(e)
    case Success(None) => Success(None)
    case Success(Some(cut)) => Success(Some(FixMessage(cut.raw, cut.header, direction, now)))
  }

  /** The framer's own errors, as those of a connection. */
  function AsReceipt(r: Result<Option<Cut>, FrameError>): Result<Option<Cut>, ProxyError> {
    match r
    case Failure(e) => Failure(Framing(BadFrame(e)))
    case Success(cut) => Success(cut)
  }

  /** The reading side of a stream: what its reads are going to return. */
  class Socket {
    var script: seq<Read>

    constructor (script: seq<Read>)
      ensures this.script == script
    {
      this.script := script;
    }

    /** Every read with data fills part of the caller's buffer. */
    ghost predicate Valid()
      reads this
    {
      forall i :: 0 <= i < |script| && script[i].Data? ==> 0 < |script[i].chunk| <= READ_CHUNK_BYTES
    }

    method Read(into: array<byte>) returns (r: Result<nat, ProxyError>)
      requires Valid() && into.Length == READ_CHUNK_BYTES
      modifies this, into
      ensures Valid() && script == LaterReads(old(script))
      ensures match NextRead(old(script))
              case Data(chunk) => r == Success(|chunk|) && 0 < |chunk| <= into.Length && into[..|chunk|] == chunk
              case Closed => r == Success(0)
              case Broken => r == Failure(Io)
    {
      var next := NextRead(script);
      script := LaterReads(script);
      match next {
        case Closed => return Success(0);
        case Broken => return Failure(Io);
        case Data(chunk) =>
          for i := 0 to |chunk|
            invariant into[..i] == chunk[..i]
            invariant Valid() && script == LaterReads(old(script))
          {
            into[i] := chunk[i];
          }
          return Success(|chunk|);
      }
    }
  }

  /** `next_framed`: the framer's own errors become connection errors. */
  method NextFramed(framer: FixFramer, now: nat) returns (r: Result<Option<FixMessage>, ProxyError>)
    modifies framer
    ensures framer.State() == Poll(old(framer.State())).next
    ensures r == StampedReceipt(AsReceipt(Poll(old(framer.State())).result), framer.direction, now)
  {
    hide Poll;
    var polled := framer.NextMessage(now);
    match polled {
      case Failure(e) => return Failure(Framing(BadFrame(e)));
      case Success(message) => return Success(message);
    }
  }

  class FixConnection {
    const stream: Socket
    const framer: FixFramer
    const readBuf: array<byte>

    constructor (stream: Socket, direction: Direction)
      requires stream.Valid()
      ensures Valid() && fresh(framer) && fresh(readBuf) && this.stream == stream
      ensures framer.State() == FRESH && framer.direction == direction
    {
      this.stream := stream;
      this.framer := new FixFramer(direction);
      this.readBuf := new byte[READ_CHUNK_BYTES](_ => 0);
    }

    /** Memory stays bounded: an incomplete message and one read at most. */
    ghost predicate Valid()
      reads this, stream, framer, readBuf
    {
      stream.Valid() && readBuf.Length == 8_192 && |framer.buf| < BUFFER_BOUND
    }

    method RecvMessage(now: nat) returns (r: Result<Option<FixMessage>, ProxyError>)
      requires Valid()
      modifies stream, framer, readBuf
      ensures Valid()
      ensures var received := Recv(old(framer.State()), old(stream.script));
              && r == StampedReceipt(received.result, framer.direction, now)
              && framer.State() == received.framer && stream.script == received.script
      ensures r.Success? && r.value.Some? ==>
                r.value.value.direction == framer.direction && r.value.value.receivedAt == now
    {
      hide Poll;
      while true
        invariant Valid()
        invariant Recv(framer.State(), stream.script) == Recv(old(framer.State()), old(stream.script))
        decreases |stream.script|
      {
        var message := NextFramed(framer, now);
        if message.Failure? || message.value.Some? {
          return message;
        }
        var read := stream.Read(readBuf);
        if read.Failure? {
          return Failure(read.error);
        }
        if read.value == 0 {
          if framer.Buffered() == 0 {
            return Success(None);
          }
          return Failure(Framing(ClosedMidMessage(framer.Buffered())));
        }
        framer.Extend(readBuf[..read.value]);
      }
    }

    /** The reading half; it goes on with the same framer, buffer included. */
    method Split() returns (reader: FixReader)
      requires Valid()
      ensures fresh(reader) && reader.Valid()
      ensures reader.half == stream && reader.framer == framer && reader.readBuf == readBuf
    {
      reader := new FixReader(stream, framer, readBuf);
    }
  }

  class FixReader {
    const half: Socket
    const framer: FixFramer
    const readBuf: array<byte>

    constructor (half: Socket, framer: FixFramer, readBuf: array<byte>)
      ensures this.half == half && this.framer == framer && this.readBuf == readBuf
    {
      this.half := half;
      this.framer := framer;
      this.readBuf := readBuf;
    }

    ghost predicate Valid()
      reads this, half, framer, readBuf
    {
      half.Valid() && readBuf.Length == 8_192 && |framer.buf| < BUFFER_BOUND
    }

    method RecvMessage(now: nat) returns (r: Result<Option<FixMessage>, ProxyError>)
      requires Valid()
      modifies half, framer, readBuf
      ensures Valid()
      ensures var received := Recv(old(framer.State()), old(half.script));
              && r == StampedReceipt(received.result, framer.direction, now)
              && framer.State() == received.framer && half.script == received.script
      ensures r.Success? && r.value.Some? ==>
                r.value.value.direction == framer.direction && r.value.value.receivedAt == now
    {
      hide Poll;
      while true
        invariant Valid()
        invariant Recv(framer.State(), half.script) == Recv(old(framer.State()), old(half.script))
        decreases |half.script|
      {
        var message := NextFramed(framer, now);
        if message.Failure? || message.value.Some? {
          return message;
        }
        var read := half.Read(readBuf);
        if read.Failure? {
          return Failure(read.error);
        }
        if read.value == 0 {
          if framer.Buffered() == 0 {
            return Success(None);
          }
          return Failure(Framing(ClosedMidMessage(framer.Buffered())));
        }
        framer.Extend(readBuf[..read.value]);
      }
    }
  }

  function StampedAll(cuts: seq<Cut>, direction: Direction, now: nat): (messages: seq<FixMessage>) {
    seq(|cuts|, i requires 0 <= i < |cuts| => FixMessage(cuts[i].raw, cuts[i].header, direction, now))
  }

  lemma ReadAllNext(f: Framer, script: seq<Read>, seen: seq<Cut>, all: Transcript)
    requires var rest := ReadAll(f, script); all == Transcript(seen + rest.cuts, rest.end)
    ensures var r := Recv(f, script);
            if r.result.Success? && r.result.value.Some? then
              var rest := ReadAll(r.framer, r.script);
              all == Transcript((seen + [r.result.value.value]) + rest.cuts, rest.end)
            else all == Transcript(seen, r.result)
  {
    hide Poll, Recv;
  }

  /**
   * Splitting loses nothing: reading up to k messages from a connection, splitting it and reading
   * the rest from the reading half gives what never splitting gives, buffered bytes included.
   */
  method ReadThroughSplit(connection: FixConnection, k: nat, now: nat)
    returns (messages: seq<FixMessage>, end: Result<Option<FixMessage>, ProxyError>)
    requires connection.Valid()
    modifies connection.stream, connection.framer, connection.readBuf
    ensures var all := ReadAll(old(connection.framer.State()), old(connection.stream.script));
            && messages == StampedAll(all.cuts, connection.framer.direction, now)
            && end == StampedReceipt(all.end, connection.framer.direction, now)
  {
    hide Poll, Recv, ReadAll;
    ghost var all := ReadAll(connection.framer.State(), connection.stream.script);
    ghost var seen: seq<Cut> := [];
    messages := [];
    assert seen + all.cuts == all.cuts;
    for i := 0 to k
      invariant connection.Valid() && messages == StampedAll(seen, connection.framer.direction, now)
      invariant var rest := ReadAll(connection.framer.State(), connection.stream.script);
                all == Transcript(seen + rest.cuts, rest.end)
    {
      ReadAllNext(connection.framer.State(), connection.stream.script, seen, all);
      ghost var received := Recv(connection.framer.State(), connection.stream.script);
      end := connection.RecvMessage(now);
      if end.Failure? || end.value.None? {
        return;
      }
      seen := seen + [received.result.value.value];
      messages := messages + [end.value.value];
    }
    var reader := connection.Split();
    while true
      invariant reader.Valid() && reader.framer == connection.framer && reader.half == connection.stream
      invariant reader.readBuf == connection.readBuf && messages == StampedAll(seen, connection.framer.direction, now)
      invariant var rest := ReadAll(reader.framer.State(), reader.half.script);
                all == Transcript(seen + rest.cuts, rest.end)
      decreases |reader.framer.buf| + Pending(reader.half.script)
    {
      ReadAllNext(reader.framer.State(), reader.half.script, seen, all);
      ghost var received := Recv(reader.framer.State(), reader.half.script);
      end := reader.RecvMessage(now);
      if end.Failure? || end.value.None? {
        return;
      }
      seen := seen + [received.result.value.value];
      messages := messages + [end.value.value];
    }
  }
}
