/**
 * The framer as a value: feeding bytes, polling for a message, and what any interleaving of the two
 * amounts to. `FixFramer` is the class proved against these functions.
 */
module FixFraming {
  import opened Wrappers
  import opened Bytes
  import opened FixLayout
  import opened FixDomain
  import opened FixHeaders

  datatype Framer = Framer(buf: bytes, failed: Option<FrameError>)

  const FRESH := Framer([], None)

  /** What a framer cuts off: the raw bytes of one message and its lifted header. */
  datatype Cut = Cut(raw: bytes, header: FixHeader)

  datatype Polled = Polled(next: Framer, result: Result<Option<Cut>, FrameError>)

  function Extended(f: Framer, chunk: bytes): Framer {
    if f.failed.Some? then f else f.(buf := f.buf + chunk)
  }

  function CutAt(buf: bytes, l: Layout): (cut: Cut)
    requires l.frameLen <= |buf|
  {
    Cut(buf[..l.frameLen], HeaderOf(buf[..l.frameLen], Range(l.bodyStart, l.bodyEnd)))
  }

  function Poll(f: Framer): (p: Polled)
    ensures p.result.Success? && p.result.value.Some? ==> |p.next.buf| + 14 <= |f.buf|
    ensures p.result == Success(None) ==> p.next == f && |f.buf| < MAX_MESSAGE_LEN
    ensures p.result.Failure? ==> p.next.failed == Some(p.result.error)
    ensures |p.next.buf| <= |f.buf|
  {
    if f.failed.Some? then Polled(f, Failure(f.failed.value))
    else
      match LayoutOf(f.buf)
      case Success(None) =>
        UndecidedIsShort(f.buf);
        Polled(f, Success(None))
      case Success(Some(l)) =>
        FrameBounds(f.buf);
        Polled(f.(buf := f.buf[l.frameLen..]), Success(Some(CutAt(f.buf, l))))
      case Failure(e) => Polled(Framer([], Some(e)), Failure(e))
  }

  /** Poll until there is no further message. */
  function Drained(f: Framer): (r: (Framer, seq<Cut>))
    ensures 14 * |r.1| <= |f.buf|
    decreases |f.buf|
  {
    var p := Poll(f);
    if p.result.Success? && p.result.value.Some? then
      var rest := Drained(p.next);
      (rest.0, [p.result.value.value] + rest.1)
    else (p.next, [])
  }

  /** Feeding the whole stream at once, then draining. */
  function AtOnce(stream: bytes): (r: (Framer, seq<Cut>)) {
    Drained(Framer(stream, None))
  }

  function Raws(cuts: seq<Cut>): (raws: seq<bytes>)
    ensures |raws| == |cuts|
    ensures forall i :: 0 <= i < |cuts| ==> raws[i] == cuts[i].raw
  {
    seq(|cuts|, i requires 0 <= i < |cuts| => cuts[i].raw)
  }

  // ----- Any interleaving of feeding and polling -----

  datatype Event = Fed(chunk: bytes) | Asked

  /** All bytes fed by a schedule. */
  function BytesOf(events: seq<Event>): (stream: bytes) {
    if events == [] then []
    else
      var before := BytesOf(events[..|events| - 1]);
      match events[|events| - 1]
      case Fed(chunk) => before + chunk
      case Asked => before
  }

  /** The state a fresh framer reaches and the messages it hands out on the way. */
  function Run(events: seq<Event>): (r: (Framer, seq<Cut>)) {
    if events == [] then (FRESH, [])
    else
      var (f, out) := Run(events[..|events| - 1]);
      match events[|events| - 1]
      case Fed(chunk) => (Extended(f, chunk), out)
      case Asked =>
        var p := Poll(f);
        (p.next, if p.result.Success? && p.result.value.Some? then out + [p.result.value.value] else out)
  }

  // ----- Cutting a stream, stated on the stream alone -----

  /** `cuts` are the first frames of `stream`, and `rest` is what follows them. */
  ghost predicate CutsOf(stream: bytes, cuts: seq<Cut>, rest: bytes) {
    if cuts == [] then stream == rest
    else
      && LayoutOf(stream).Success? && LayoutOf(stream).value.Some?
      && var l := LayoutOf(stream).value.value;
      && l.frameLen <= |stream|
      && cuts[0] == CutAt(stream, l)
      && CutsOf(stream[l.frameLen..], cuts[1..], rest)
  }

  /** The cut of its own raw bytes: nothing outside the frame has a say in its header. */
  ghost predicate WholeCut(cut: Cut) {
    && LayoutOf(cut.raw).Success? && LayoutOf(cut.raw).value.Some?
    && LayoutOf(cut.raw).value.value.frameLen == |cut.raw|
    && cut == CutAt(cut.raw, LayoutOf(cut.raw).value.value)
  }

  lemma Regroup<T>(a: seq<T>, b: seq<T>, c: seq<T>)
    ensures (a + b) + c == a + (b + c)
  {
  }

  lemma {:induction false} CutsConserve(stream: bytes, cuts: seq<Cut>, rest: bytes)
    requires CutsOf(stream, cuts, rest)
    ensures Concat(Raws(cuts)) + rest == stream
    decreases |cuts|
  {
    hide LayoutOf, HeaderOf;
    if cuts != [] {
      var l := LayoutOf(stream).value.value;
      FrameBounds(stream);
      CutsConserve(stream[l.frameLen..], cuts[1..], rest);
      assert Raws(cuts)[1..] == Raws(cuts[1..]);
      Regroup(stream[..l.frameLen], Concat(Raws(cuts[1..])), rest);
      assert stream == stream[..l.frameLen] + stream[l.frameLen..];
    }
  }

  lemma CutIsWhole(stream: bytes, l: Layout)
    requires LayoutOf(stream) == Success(Some(l))
    ensures l.frameLen <= |stream| && IsFrame(stream[..l.frameLen]) && WholeCut(CutAt(stream, l))
  {
    hide LayoutOf, HeaderOf, IsFrame;
    FrameBounds(stream);
    FrameIsLocal(stream, l.frameLen);
    assert stream[..l.frameLen][..l.frameLen] == stream[..l.frameLen];
  }

  lemma {:induction false} CutsAreWhole(stream: bytes, cuts: seq<Cut>, rest: bytes)
    requires CutsOf(stream, cuts, rest)
    ensures forall i :: 0 <= i < |cuts| ==> IsFrame(cuts[i].raw) && WholeCut(cuts[i])
    decreases |cuts|
  {
    hide LayoutOf, HeaderOf, IsFrame, WholeCut;
    if cuts != [] {
      var l := LayoutOf(stream).value.value;
      CutIsWhole(stream, l);
      CutsAreWhole(stream[l.frameLen..], cuts[1..], rest);
      assert forall i :: 1 <= i < |cuts| ==> cuts[i] == cuts[1..][i - 1];
    }
  }

  lemma {:induction false} CutsMore(stream: bytes, cuts: seq<Cut>, rest: bytes, more: bytes)
    requires CutsOf(stream, cuts, rest)
    ensures CutsOf(stream + more, cuts, rest + more)
    decreases |cuts|
  {
    hide LayoutOf, HeaderOf;
    if cuts != [] {
      var l := LayoutOf(stream).value.value;
      FrameIsPermanent(stream, more);
      assert (stream + more)[..l.frameLen] == stream[..l.frameLen];
      assert (stream + more)[l.frameLen..] == stream[l.frameLen..] + more;
      CutsMore(stream[l.frameLen..], cuts[1..], rest, more);
    }
  }

  lemma {:induction false} CutsNext(stream: bytes, cuts: seq<Cut>, rest: bytes)
    requires CutsOf(stream, cuts, rest)
    requires LayoutOf(rest).Success? && LayoutOf(rest).value.Some? && LayoutOf(rest).value.value.frameLen <= |rest|
    ensures var l := LayoutOf(rest).value.value;
            CutsOf(stream, cuts + [CutAt(rest, l)], rest[l.frameLen..])
    decreases |cuts|
  {
    hide LayoutOf, HeaderOf;
    var l := LayoutOf(rest).value.value;
    var next := cuts + [CutAt(rest, l)];
    if cuts == [] {
      assert next[1..] == [];
    } else {
      CutsNext(stream[LayoutOf(stream).value.value.frameLen..], cuts[1..], rest);
      assert next[1..] == cuts[1..] + [CutAt(rest, l)];
    }
  }

  lemma DrainStep(stream: bytes, l: Layout)
    requires LayoutOf(stream) == Success(Some(l))
    ensures l.frameLen <= |stream|
    ensures AtOnce(stream) == (AtOnce(stream[l.frameLen..]).0, [CutAt(stream, l)] + AtOnce(stream[l.frameLen..]).1)
  {
    FrameBounds(stream);
    hide LayoutOf, HeaderOf;
  }

  lemma {:induction false} CutsDrain(stream: bytes, cuts: seq<Cut>, rest: bytes)
    requires CutsOf(stream, cuts, rest)
    ensures AtOnce(stream) == (AtOnce(rest).0, cuts + AtOnce(rest).1)
    decreases |cuts|
  {
    hide LayoutOf, HeaderOf, AtOnce;
    if cuts != [] {
      var l := LayoutOf(stream).value.value;
      CutsDrain(stream[l.frameLen..], cuts[1..], rest);
      DrainStep(stream, l);
      Regroup([cuts[0]], cuts[1..], AtOnce(rest).1);
      assert [cuts[0]] + cuts[1..] == cuts;
    } else {
      assert cuts + AtOnce(rest).1 == AtOnce(rest).1;
    }
  }

  /** Draining a stream cuts it: the frames, then what stopped the framer. */
  lemma {:induction false} DrainCuts(stream: bytes) returns (rest: bytes)
    ensures CutsOf(stream, AtOnce(stream).1, rest)
    ensures AtOnce(stream).0 == Poll(Framer(rest, None)).next
    ensures !(LayoutOf(rest).Success? && LayoutOf(rest).value.Some?)
    decreases |stream|
  {
    hide LayoutOf, HeaderOf;
    var v := LayoutOf(stream);
    if v.Success? && v.value.Some? {
      DrainStep(stream, v.value.value);
      FrameBounds(stream);
      rest := DrainCuts(stream[v.value.value.frameLen..]);
      var cuts := AtOnce(stream).1;
      assert cuts[1..] == AtOnce(stream[v.value.value.frameLen..]).1;
    } else {
      rest := stream;
    }
  }
}
