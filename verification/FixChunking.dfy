/** How a stream is cut does not depend on how it arrives or when the framer is asked. */
module FixChunking {
  import opened Wrappers
  import opened Bytes
  import opened FixLayout
  import opened FixHeaders
  import opened FixFraming

  /**
   * After any schedule the messages handed out are the first frames of the bytes fed so far. What
   * follows them is the buffer; once the framer has failed it begins with the bytes it failed on.
   */
  lemma {:induction false} RunCuts(events: seq<Event>) returns (rest: bytes, dead: bytes)
    ensures CutsOf(BytesOf(events), Run(events).1, rest)
    ensures Run(events).0.failed.None? ==> Run(events).0.buf == rest
    ensures Run(events).0.failed.Some? ==>
              Run(events).0.buf == [] && dead <= rest && LayoutOf(dead) == Failure(Run(events).0.failed.value)
    decreases |events|
  {
    hide LayoutOf, HeaderOf;
    dead := [];
    if events == [] {
      rest := [];
    } else {
      var before := events[..|events| - 1];
      rest, dead := RunCuts(before);
      match events[|events| - 1] {
        case Fed(chunk) =>
          CutsMore(BytesOf(before), Run(before).1, rest, chunk);
          rest := rest + chunk;
        case Asked =>
          if Run(before).0.failed.None? {
            var v := LayoutOf(rest);
            if v.Failure? {
              dead := rest;
            } else if v.value.Some? {
              FrameBounds(rest);
              CutsNext(BytesOf(before), Run(before).1, rest);
              rest := rest[v.value.value.frameLen..];
            }
          }
      }
    }
  }

  /**
   * Chunking independence. For every schedule, draining at the end gives the messages, the buffer
   * and the failure of feeding the same bytes at once; only the kind of a failure can differ, and
   * only as HeaderTooLong instead of BadBodyLength.
   */
  lemma ChunkingIndependence(events: seq<Event>)
    ensures var (f, out) := Run(events);
            var (end, more) := Drained(f);
            var (whole, all) := AtOnce(BytesOf(events));
            && out + more == all
            && end.buf == whole.buf
            && (end.failed.Some? <==> whole.failed.Some?)
            && (end.failed != whole.failed ==> end.failed == Some(HeaderTooLong) && whole.failed == Some(BadBodyLength))
  {
    hide LayoutOf, HeaderOf;
    var rest, dead := RunCuts(events);
    var (f, out) := Run(events);
    CutsDrain(BytesOf(events), out, rest);
    if f.failed.None? {
      assert f == Framer(rest, None);
    } else {
      var more := rest[|dead|..];
      assert dead + more == rest;
      ErrorIsPermanent(dead, more);
      assert LayoutOf(rest).Failure?;
      assert AtOnce(rest) == (Framer([], Some(LayoutOf(rest).error)), []);
      assert Drained(f) == (f, []);
    }
  }

  /**
   * No byte is lost, invented or reordered: while the framer has not failed, the raw messages and
   * then the buffer are the bytes fed; after a failure the raw messages are a prefix of them.
   */
  lemma ScheduleConserves(events: seq<Event>)
    ensures var (f, out) := Run(events);
            && (f.failed.None? ==> Concat(Raws(out)) + f.buf == BytesOf(events))
            && (f.failed.Some? ==> Concat(Raws(out)) <= BytesOf(events) && f.buf == [])
            && (forall i :: 0 <= i < |out| ==> IsFrame(out[i].raw) && WholeCut(out[i]))
  {
    var rest, dead := RunCuts(events);
    CutsConserve(BytesOf(events), Run(events).1, rest);
    CutsAreWhole(BytesOf(events), Run(events).1, rest);
  }

  // ----- Exactly when the kind of a failure is independent of the schedule, too -----

  /** What is left of a stream after its frames; for a stream that fails, the bytes it fails on. */
  function Residue(stream: bytes): bytes {
    var framed := |Concat(Raws(AtOnce(stream).1))|;
    if framed <= |stream| then stream[framed..] else []
  }

  /** The residue fails on a `9=` that the first 32 bytes do not yet refute. */
  predicate RefutedLate(residue: bytes) {
    |residue| > MAX_HEADER_SCAN && KindStillOpen(residue[..MAX_HEADER_SCAN], residue[MAX_HEADER_SCAN..])
  }

  lemma ResidueCuts(stream: bytes)
    ensures CutsOf(stream, AtOnce(stream).1, Residue(stream))
    ensures AtOnce(stream).0 == Poll(Framer(Residue(stream), None)).next
    ensures !(LayoutOf(Residue(stream)).Success? && LayoutOf(Residue(stream)).value.Some?)
  {
    var rest := DrainCuts(stream);
    CutsConserve(stream, AtOnce(stream).1, rest);
    var framed := Concat(Raws(AtOnce(stream).1));
    assert stream[|framed|..] == rest;
  }

  /** One residue has one cutting in front of it. */
  lemma {:induction false} SameCuts(stream: bytes, a: seq<Cut>, resta: bytes, b: seq<Cut>, restb: bytes)
    requires CutsOf(stream, a, resta) && CutsOf(stream, b, restb)
    requires |a| == |b|
    ensures resta == restb
    decreases |a|
  {
    hide LayoutOf, HeaderOf;
    if a != [] {
      SameCuts(stream[LayoutOf(stream).value.value.frameLen..], a[1..], resta, b[1..], restb);
    }
  }

  /** A failing framer has seen the scan window of the residue, if the kind is still open. */
  lemma OpenKindIsLate(dead: bytes, more: bytes)
    requires KindStillOpen(dead, more)
    ensures RefutedLate(dead + more)
  {
    var all := dead + more;
    var head, tail := all[..MAX_HEADER_SCAN], all[MAX_HEADER_SCAN..];
    var b := Position(dead, SOH).value;
    assert forall j :: 0 <= j < |dead| ==> all[j] == dead[j];
    assert forall j :: 0 <= j < MAX_HEADER_SCAN ==> head[j] == dead[j];
    StartsWithPrefixOfBytes(dead, BEGIN_STRING);
    StartsWithPrefixOfBytes(head, BEGIN_STRING);
    assert Position(head, SOH) == Some(b);
    assert head + tail == all;
    StartsWithPrefixOfBytes(head[b + 1..], BODY_LENGTH);
    StartsWithPrefixOfBytes(dead[b + 1..], BODY_LENGTH);
    assert head[b + 1..] == dead[b + 1..][..MAX_HEADER_SCAN - b - 1];
  }

  /** Cutting only looks at the frames: it is the same when the residue is cut short. */
  lemma {:induction false} CutsTruncate(stream: bytes, cuts: seq<Cut>, rest: bytes, k: nat)
    requires CutsOf(stream, cuts, rest) && k <= |rest| <= |stream|
    ensures CutsOf(stream[..|stream| - |rest| + k], cuts, rest[..k])
    decreases |cuts|
  {
    hide LayoutOf, HeaderOf;
    if cuts != [] {
      var l := LayoutOf(stream).value.value;
      var tail := stream[l.frameLen..];
      CutsConserve(tail, cuts[1..], rest);
      CutsTruncate(tail, cuts[1..], rest, k);
      var n := |stream| - |rest| + k;
      FrameIsLocal(stream, n);
      assert stream[..n][..l.frameLen] == stream[..l.frameLen];
      assert stream[..n][l.frameLen..] == tail[..|tail| - |rest| + k];
    }
  }

  /** Asking often enough drains the framer. */
  lemma {:induction false} AskUntilDry(events: seq<Event>) returns (asked: seq<Event>)
    ensures BytesOf(asked) == BytesOf(events)
    ensures Run(asked).0 == Drained(Run(events).0).0
    decreases |Run(events).0.buf|
  {
    hide Poll;
    asked := events + [Asked];
    assert asked[..|asked| - 1] == events;
    var p := Poll(Run(events).0);
    if p.result.Success? && p.result.value.Some? {
      asked := AskUntilDry(asked);
    }
  }

  /** Feeding at once, draining and feeding again. */
  lemma FeedDrainFeed(head: bytes, tail: bytes) returns (events: seq<Event>)
    ensures BytesOf(events) == head + tail
    ensures Run(events).0 == Extended(AtOnce(head).0, tail)
  {
    hide Drained;
    var first := [Fed(head)];
    assert first[..0] == [] && [] + head == head;
    assert Run(first).0 == Framer(head, None);
    assert BytesOf(first) == head;
    var asked := AskUntilDry(first);
    events := asked + [Fed(tail)];
    assert events[..|events| - 1] == asked;
  }

  /** A late refutation does show: one schedule reports another kind of failure. */
  lemma LateRefutationShows(stream: bytes) returns (events: seq<Event>)
    requires RefutedLate(Residue(stream))
    ensures BytesOf(events) == stream
    ensures Drained(Run(events).0).0.failed == Some(HeaderTooLong)
    ensures AtOnce(stream).0.failed == Some(BadBodyLength)
  {
    hide LayoutOf, HeaderOf, Residue, CutsOf, KindStillOpen, Run, BytesOf, Raws;
    var cuts, residue := AtOnce(stream).1, Residue(stream);
    var head, tail := residue[..MAX_HEADER_SCAN], residue[MAX_HEADER_SCAN..];
    assert head + tail == residue;
    ResidueCuts(stream);
    CutsConserve(stream, cuts, residue);
    OpenKindIsHeaderTooLong(head, tail);
    ErrorIsPermanent(head, tail);
    var n := |stream| - |tail|;
    CutsTruncate(stream, cuts, residue, MAX_HEADER_SCAN);
    CutsDrain(stream[..n], cuts, head);
    assert stream[n..] == tail;
    events := FeedDrainFeed(stream[..n], tail);
    assert stream[..n] + tail == stream;
  }

  /**
   * The whole outcome, kind of failure included, is the same for every schedule of a stream exactly
   * when no `9=` is refuted later than byte 32 of the message that fails.
   */
  lemma KindIndependentIff(stream: bytes)
    ensures (forall events :: BytesOf(events) == stream ==> Drained(Run(events).0).0 == AtOnce(stream).0) <==>
            !RefutedLate(Residue(stream))
  {
    if RefutedLate(Residue(stream)) {
      var events := LateRefutationShows(stream);
      assert Drained(Run(events).0).0 != AtOnce(stream).0;
    } else {
      forall events | BytesOf(events) == stream
        ensures Drained(Run(events).0).0 == AtOnce(stream).0
      {
        SameOutcome(events);
      }
    }
  }

  lemma SameOutcome(events: seq<Event>)
    requires !RefutedLate(Residue(BytesOf(events)))
    ensures Drained(Run(events).0).0 == AtOnce(BytesOf(events)).0
  {
    hide LayoutOf, HeaderOf, KindStillOpen;
    var stream := BytesOf(events);
    var rest, dead := RunCuts(events);
    var (f, out) := Run(events);
    CutsDrain(stream, out, rest);
    if f.failed.Some? {
      var more := rest[|dead|..];
      assert dead + more == rest;
      ErrorIsPermanent(dead, more);
      assert AtOnce(rest) == (Framer([], Some(LayoutOf(rest).error)), []);
      assert AtOnce(stream).1 == out;
      ResidueCuts(stream);
      SameCuts(stream, out, rest, out, Residue(stream));
      if KindStillOpen(dead, more) {
        OpenKindIsLate(dead, more);
      }
    } else {
      assert f == Framer(rest, None);
    }
  }

  /** A stream of 33 bytes whose failure kind does depend on the schedule. */
  lemma KindDependsOnChunking() returns (stream: bytes, events: seq<Event>)
    ensures |stream| == 33 && BytesOf(events) == stream
    ensures Drained(Run(events).0).0.failed == Some(HeaderTooLong)
    ensures AtOnce(stream).0.failed == Some(BadBodyLength)
  {
    var begin := BEGIN_STRING + seq(28, _ => 'A' as int);
    var head: bytes := begin + [SOH] + BODY_LENGTH[..1];
    var tail: bytes := ['x' as int];
    stream := head + tail;
    assert forall j :: 0 <= j < 30 ==> head[j] == begin[j];
    assert head[30] == SOH && head[..2] == BEGIN_STRING;
    assert Position(head, SOH) == Some(30);
    assert head[31..] == BODY_LENGTH[..1];
    assert stream[31..][1] == 'x' as int;
    StartsWithPrefixOfBytes(stream[31..], BODY_LENGTH);
    assert KindStillOpen(head, tail);
    OpenKindIsHeaderTooLong(head, tail);
    ErrorIsPermanent(head, tail);
    hide LayoutOf, KindStillOpen;
    assert AtOnce(stream) == (Framer([], Some(BadBodyLength)), []);
    assert Raws([]) == [] && stream[0..] == stream;
    assert Residue(stream) == stream;
    assert stream[..32] == head && stream[32..] == tail;
    events := LateRefutationShows(stream);
  }
}
