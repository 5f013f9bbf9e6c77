/**
 * Receiving over a stream transport as a function of what the reads return: frame if possible,
 * else read, else classify the end of the stream.
 */
module FixReceiving {
  import opened Wrappers
  import opened Bytes
  import opened FixLayout
  import opened FixHeaders
  import opened FixFraming
  import opened FixStreams

  const READ_CHUNK_BYTES: nat := 8 * 1024

  /** What one read returns: some bytes, the end of the stream, or an I/O error. */
  datatype Read = Data(chunk: bytes) | Closed | Broken

  /** The rendered framing error: the framer's, or a close in the middle of a message. */
  datatype FramingError = BadFrame(error: FrameError) | ClosedMidMessage(buffered: nat)

  datatype ProxyError = Framing(error: FramingError) | Io

  /** The next read of a socket; a socket with nothing left to say is at its end. */
  function NextRead(script: seq<Read>): Read {
    if script == [] then Closed else script[0]
  }

  function LaterReads(script: seq<Read>): seq<Read> {
    if script == [] then [] else script[1..]
  }

  /** Bytes still to be delivered. */
  function Pending(script: seq<Read>): nat {
    if script == [] then 0
    else (if script[0].Data? then |script[0].chunk| else 0) + Pending(script[1..])
  }

  function ClosedAtBoundary(f: Framer): (r: Result<Option<Cut>, ProxyError>) {
    if |f.buf| == 0 then Success(None) else Failure(Framing(ClosedMidMessage(|f.buf|)))
  }

  datatype Received = Received(result: Result<Option<Cut>, ProxyError>, framer: Framer, script: seq<Read>)

  /** One `recv_message`: its result, and the framer and the socket it leaves behind. */
  function Recv(f: Framer, script: seq<Read>): (r: Received)
    ensures f.failed.Some? ==> r == Received(Failure(Framing(BadFrame(f.failed.value))), f, script)
    ensures r.result.Success? && r.result.value.Some? ==>
              |r.framer.buf| + Pending(r.script) + 14 <= |f.buf| + Pending(script)
    ensures r.result == Success(None) ==> r.framer == FRESH
    decreases |script|
  {
    var p := Poll(f);
    match p.result
    case Failure(e) => Received(Failure(Framing(BadFrame(e))), p.next, script)
    case Success(Some(cut)) => Received(Success(Some(cut)), p.next, script)
    case Success(None) =>
      match NextRead(script)
      case Broken => Received(Failure(Io), p.next, LaterReads(script))
      case Closed => Received(ClosedAtBoundary(p.next), p.next, LaterReads(script))
      case Data(chunk) => Recv(Extended(p.next, chunk), LaterReads(script))
  }

  datatype Transcript = Transcript(cuts: seq<Cut>, end: Result<Option<Cut>, ProxyError>)

  /** Receiving until there is no further message: the messages, then how it ended. */
  function ReadAll(f: Framer, script: seq<Read>): (t: Transcript)
    decreases |f.buf| + Pending(script)
  {
    var r := Recv(f, script);
    if r.result.Success? && r.result.value.Some? then
      var later := ReadAll(r.framer, r.script);
      Transcript([r.result.value.value] + later.cuts, later.end)
    else Transcript([], r.result)
  }

  function Delivered(chunks: seq<bytes>): (script: seq<Read>) {
    seq(|chunks|, i requires 0 <= i < |chunks| => Data(chunks[i]))
  }

  /** How receiving must end, given what the whole stream drains to. */
  predicate EndsAs(end: Result<Option<Cut>, ProxyError>, last: Read, whole: Framer) {
    if whole.failed.Some? then
      end == Failure(Framing(BadFrame(whole.failed.value))) ||
      (whole.failed == Some(BadBodyLength) && end == Failure(Framing(BadFrame(HeaderTooLong))))
    else if last == Broken then end == Failure(Io)
    else end == if whole.buf == [] then Success(None) else Failure(Framing(ClosedMidMessage(|whole.buf|)))
  }

  // ----- What one receipt leaves behind -----

  /** The bytes still to come. */
  function Coming(script: seq<Read>): (stream: bytes)
    ensures |stream| == Pending(script)
  {
    if script == [] then []
    else (if script[0].Data? then script[0].chunk else []) + Coming(script[1..])
  }

  /**
   * No receipt loses a byte, unless the framer fails: what was buffered and what was to come are the
   * message handed out, what is buffered now and what is still to come, whether the receipt ends with
   * a message, a close at a boundary or in the middle of a message, or an I/O error.
   */
  lemma {:induction false} RecvConserves(f: Framer, script: seq<Read>)
    requires f.failed.None?
    ensures var r := Recv(f, script);
            var raw := if r.result.Success? && r.result.value.Some? then r.result.value.value.raw else [];
            (r.result.Failure? && r.result.error.Framing? && r.result.error.error.BadFrame?) ||
            (r.framer.failed.None? && f.buf + Coming(script) == raw + (r.framer.buf + Coming(r.script)))
    decreases |script|
  {
    hide LayoutOf, HeaderOf, Coming;
    var next := NextRead(script);
    NextComing(script);
    match LayoutOf(f.buf) {
      case Success(Some(l)) =>
        FrameBounds(f.buf);
        assert f.buf == f.buf[..l.frameLen] + f.buf[l.frameLen..];
        Regroup(f.buf[..l.frameLen], f.buf[l.frameLen..], Coming(script));
      case Failure(_) =>
      case Success(None) =>
        assert [] + (f.buf + Coming(LaterReads(script))) == f.buf + Coming(LaterReads(script));
        if next.Data? {
          RecvConserves(Extended(f, next.chunk), LaterReads(script));
          Regroup(f.buf, next.chunk, Coming(LaterReads(script)));
        }
    }
  }

  lemma NextComing(script: seq<Read>)
    ensures Coming(script) ==
            (if NextRead(script).Data? then NextRead(script).chunk else []) + Coming(LaterReads(script))
    ensures !NextRead(script).Data? ==> Coming(script) == Coming(LaterReads(script))
  {
  }

  /** The framer and the socket after k receipts, whatever they gave. */
  function AfterReceipts(f: Framer, script: seq<Read>, k: nat): (r: (Framer, seq<Read>)) {
    if k == 0 then (f, script)
    else
      var before := AfterReceipts(f, script, k - 1);
      var r := Recv(before.0, before.1);
      (r.framer, r.script)
  }

  /**
   * Once a receipt has ended with a framing error or a clean close on a socket that stays closed,
   * every later receipt gives the same again.
   */
  lemma {:induction false} EndRepeats(f: Framer, script: seq<Read>, k: nat)
    requires var r := Recv(f, script);
             r.script == [] && (r.result == Success(None) || (r.result.Failure? && r.result.error.Framing?))
    ensures var r := Recv(f, script);
            var (later, rest) := AfterReceipts(r.framer, r.script, k);
            later == r.framer && rest == [] && Recv(later, rest).result == r.result
    decreases k
  {
    hide Poll;
    SettledRepeats(f, script);
    if k > 0 {
      EndRepeats(f, script, k - 1);
    }
  }

  lemma {:induction false} SettledRepeats(f: Framer, script: seq<Read>)
    requires var r := Recv(f, script);
             r.result == Success(None) || (r.result.Failure? && r.result.error.Framing?)
    ensures var r := Recv(f, script);
            Recv(r.framer, []) == Received(r.result, r.framer, [])
    decreases |script|
  {
    hide Poll;
    var p := Poll(f);
    PollSettles(f);
    if p.result == Success(None) && NextRead(script).Data? {
      SettledRepeats(Extended(p.next, NextRead(script).chunk), LaterReads(script));
    }
  }

  /** Polling again what gave no message gives the same. */
  lemma PollSettles(f: Framer)
    requires !(Poll(f).result.Success? && Poll(f).result.value.Some?)
    ensures Poll(Poll(f).next) == Poll(f)
  {
    hide LayoutOf, HeaderOf;
  }

  lemma ReadAllMessage(buf: bytes, script: seq<Read>, l: Layout)
    requires LayoutOf(buf) == Success(Some(l)) && l.frameLen <= |buf|
    ensures var later := ReadAll(Framer(buf[l.frameLen..], None), script);
            ReadAll(Framer(buf, None), script) == Transcript([CutAt(buf, l)] + later.cuts, later.end)
  {
    hide LayoutOf, HeaderOf;
  }

  lemma ReadAllChunk(buf: bytes, chunk: bytes, later: seq<Read>)
    requires LayoutOf(buf) == Success(None)
    ensures ReadAll(Framer(buf, None), [Data(chunk)] + later) == ReadAll(Framer(buf + chunk, None), later)
  {
    hide LayoutOf, HeaderOf;
    var script := [Data(chunk)] + later;
    assert LaterReads(script) == later;
    assert Recv(Framer(buf, None), script) == Recv(Framer(buf + chunk, None), later);
  }

  lemma AtOnceMessage(buf: bytes, more: bytes, l: Layout)
    requires LayoutOf(buf) == Success(Some(l)) && l.frameLen <= |buf|
    ensures var later := AtOnce(buf[l.frameLen..] + more);
            AtOnce(buf + more) == (later.0, [CutAt(buf, l)] + later.1)
  {
    hide LayoutOf, HeaderOf;
    FrameIsPermanent(buf, more);
    DrainStep(buf + more, l);
    assert (buf + more)[..l.frameLen] == buf[..l.frameLen];
    assert (buf + more)[l.frameLen..] == buf[l.frameLen..] + more;
  }

  /** From any buffer on, receiving reads off the drained stream. */
  lemma {:induction false} ReceivesDrained(buf: bytes, chunks: seq<bytes>, last: Read, after: seq<Read>)
    requires !last.Data?
    ensures var t := ReadAll(Framer(buf, None), Delivered(chunks) + ([last] + after));
            var (whole, all) := AtOnce(buf + Concat(chunks));
            t.cuts == all && EndsAs(t.end, last, whole)
    decreases |chunks|, |buf|
  {
    hide LayoutOf, HeaderOf;
    var script := Delivered(chunks) + ([last] + after);
    match LayoutOf(buf) {
      case Success(Some(l)) =>
        FrameBounds(buf);
        ReadAllMessage(buf, script, l);
        AtOnceMessage(buf, Concat(chunks), l);
        ReceivesDrained(buf[l.frameLen..], chunks, last, after);
      case Failure(e) =>
        ErrorIsPermanent(buf, Concat(chunks));
      case Success(None) =>
        if chunks == [] {
          assert buf + Concat(chunks) == buf && script[0] == last;
        } else {
          var later := Delivered(chunks[1..]) + ([last] + after);
          assert script == [Data(chunks[0])] + later;
          ReadAllChunk(buf, chunks[0], later);
          Regroup(buf, chunks[0], Concat(chunks[1..]));
          ReceivesDrained(buf + chunks[0], chunks[1..], last, after);
        }
    }
  }

  /**
   * The close is classified exactly. A stream delivered in any reads and then ended gives its frames
   * in order; then "closed cleanly" if and only if the peer closed on a concatenation of accepted
   * frames, the I/O error if the transport broke, and a framing error otherwise.
   */
  lemma CleanCloseExact(chunks: seq<bytes>, last: Read, after: seq<Read>)
    requires !last.Data?
    ensures var t := ReadAll(FRESH, Delivered(chunks) + ([last] + after));
            && t.cuts == AtOnce(Concat(chunks)).1
            && (t.end == Success(None) <==>
                last == Closed && exists frames :: AllFrames(frames) && Concat(frames) == Concat(chunks))
            && (t.end == Failure(Io) <==> last == Broken && AtOnce(Concat(chunks)).0.failed.None?)
            && (t.end == Success(None) || t.end == Failure(Io) || (t.end.Failure? && t.end.error.Framing?))
            && (forall frames :: AllFrames(frames) && Concat(frames) == Concat(chunks) ==> Raws(t.cuts) == frames)
  {
    hide LayoutOf, HeaderOf, ReadAll, AtOnce;
    ReceivesDrained([], chunks, last, after);
    var stream := Concat(chunks);
    assert [] + stream == stream;
    CleanIffFrames(stream);
    forall frames | AllFrames(frames) && Concat(frames) == stream
      ensures Raws(AtOnce(stream).1) == frames
    {
      UniqueSplit(frames, Raws(AtOnce(stream).1));
    }
  }

  /**
   * The transcript depends on the bytes and on how the stream ends only, not on how the reads cut
   * it up; the kind of a framing failure may differ in the one corner the framer leaves open.
   */
  lemma ReadsDoNotMatter(a: seq<bytes>, b: seq<bytes>, last: Read, after: seq<Read>, after': seq<Read>)
    requires !last.Data? && Concat(a) == Concat(b)
    ensures var t := ReadAll(FRESH, Delivered(a) + ([last] + after));
            var t' := ReadAll(FRESH, Delivered(b) + ([last] + after'));
            && t.cuts == t'.cuts
            && (t.end == t'.end ||
                {t.end, t'.end} ==
                {Failure(Framing(BadFrame(HeaderTooLong))), Failure(Framing(BadFrame(BadBodyLength)))})
  {
    hide LayoutOf, HeaderOf, ReadAll, AtOnce;
    ReceivesDrained([], a, last, after);
    ReceivesDrained([], b, last, after');
  }

  // ----- Stopping after k messages and going on elsewhere -----

  datatype Progress = Progress(cuts: seq<Cut>, framer: Framer, script: seq<Read>, stopped: bool)

  /** The first k messages, or all there are when receiving stops before. */
  function ReadSome(f: Framer, script: seq<Read>, k: nat): (p: Progress)
    decreases k
  {
    if k == 0 then Progress([], f, script, false)
    else
      var r := Recv(f, script);
      if r.result.Success? && r.result.value.Some? then
        var later := ReadSome(r.framer, r.script, k - 1);
        later.(cuts := [r.result.value.value] + later.cuts)
      else Progress([], r.framer, r.script, true)
  }

  /** Whoever takes over framer and socket after k messages receives exactly the rest. */
  lemma {:induction false} TakeOver(f: Framer, script: seq<Read>, k: nat)
    ensures var p := ReadSome(f, script, k);
            var rest := ReadAll(p.framer, p.script);
            && p.cuts <= ReadAll(f, script).cuts
            && (!p.stopped ==> |p.cuts| == k && ReadAll(f, script) == Transcript(p.cuts + rest.cuts, rest.end))
            && (p.stopped ==> p.cuts == ReadAll(f, script).cuts)
    decreases k
  {
    hide Poll;
    if k > 0 {
      var r := Recv(f, script);
      if r.result.Success? && r.result.value.Some? {
        TakeOver(r.framer, r.script, k - 1);
        var p := ReadSome(r.framer, r.script, k - 1);
        Regroup([r.result.value.value], p.cuts, ReadAll(p.framer, p.script).cuts);
      }
    } else {
      assert [] + ReadAll(f, script).cuts == ReadAll(f, script).cuts;
    }
  }
}
