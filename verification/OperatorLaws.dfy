/** Each operator alone in a flow: what it does to a sequence of packets, draw by draw. */
module OperatorLaws {
  import opened Packets
  import opened Operators
  import opened Flows

  // ----- Operators that draw a chance -----

  /** The generator after k draws of a chance. */
  function AfterChances(g: Generator, p: Probability, rng: Rng, k: nat): Rng {
    if k == 0 then rng else g.chance(AfterChances(g, p, rng, k - 1), p).1
  }

  /** Whether the k-th draw hits. */
  predicate Hit(g: Generator, p: Probability, rng: Rng, k: nat) {
    g.chance(AfterChances(g, p, rng, k), p).0
  }

  /** One draw a packet: the k-th packet has the effect if the k-th draw hits, and is forwarded otherwise. */
  ghost predicate DrawsFor(g: Generator, operators: seq<Operator>, p: Probability, onHit: Effect, rng: Rng,
                           packets: seq<Packet>)
  {
    var course := RunFlow(g, operators, rng, packets);
    && course.operators == operators
    && course.rng == AfterChances(g, p, rng, |packets|)
    && forall k :: 0 <= k < |packets| ==> course.effects[k] == if Hit(g, p, rng, k) then onHit else Forward
  }

  lemma {:induction false} DrawsAlone(g: Generator, op: Operator, p: Probability, onHit: Effect, rng: Rng,
                                      packets: seq<Packet>)
    requires forall packet, r ::
               var (hit, r') := g.chance(r, p);
               DecideOne(g, op, packet, r) == Verdict(op, r', if hit then onHit else Forward)
    ensures DrawsFor(g, [op], p, onHit, rng, packets)
    decreases |packets|
  {
    hide DecideOne;
    if packets != [] {
      var n := |packets| - 1;
      DrawsAlone(g, op, p, onHit, rng, packets[..n]);
      Alone(g, op, packets[n], RunFlow(g, [op], rng, packets[..n]).rng);
    }
  }

  lemma Alone(g: Generator, op: Operator, packet: Packet, rng: Rng)
    ensures var v := DecideOne(g, op, packet, rng);
            DecideAll(g, [op], packet, rng) == Decision([v.operator], v.rng, v.effect)
  {
    hide DecideOne;
    assert [op][1..] == [];
    assert [DecideOne(g, op, packet, rng).operator] + [] == [DecideOne(g, op, packet, rng).operator];
  }

  /** The dropper drops the packets whose draw hits, and no others. */
  lemma DropperAlone(g: Generator, p: Probability, rng: Rng, packets: seq<Packet>)
    ensures DrawsFor(g, [Dropper(p)], p, Drop, rng, packets)
  {
    DrawsAlone(g, Dropper(p), p, Drop, rng, packets);
  }

  /** The duplicator sends the packets whose draw hits once more at once. */
  lemma DuplicatorAlone(g: Generator, p: Probability, rng: Rng, packets: seq<Packet>)
    ensures DrawsFor(g, [Duplicator(p)], p, DuplicateAfter(0), rng, packets)
  {
    DrawsAlone(g, Duplicator(p), p, DuplicateAfter(0), rng, packets);
  }

  /** The reorderer holds the packets whose draw hits for exactly its time. */
  lemma ReordererAlone(g: Generator, p: Probability, hold: nat, rng: Rng, packets: seq<Packet>)
    ensures DrawsFor(g, [Reorderer(p, hold)], p, DelayBy(hold), rng, packets)
  {
    DrawsAlone(g, Reorderer(p, hold), p, DelayBy(hold), rng, packets);
  }

  /** A generator for which probability 0 never hits and probability 1 always does. */
  ghost predicate Certain(g: Generator) {
    forall rng :: !g.chance(rng, 0.0).0 && g.chance(rng, 1.0).0
  }

  /** The end cases: at 0 everything is forwarded, at 1 everything has the effect. */
  lemma EndCases(g: Generator, hold: nat, rng: Rng, packets: seq<Packet>)
    requires Certain(g)
    ensures forall k :: 0 <= k < |packets| ==>
              && RunFlow(g, [Dropper(0.0)], rng, packets).effects[k] == Forward
              && RunFlow(g, [Dropper(1.0)], rng, packets).effects[k] == Drop
    ensures forall k :: 0 <= k < |packets| ==>
              && RunFlow(g, [Duplicator(0.0)], rng, packets).effects[k] == Forward
              && RunFlow(g, [Duplicator(1.0)], rng, packets).effects[k] == DuplicateAfter(0)
    ensures forall k :: 0 <= k < |packets| ==>
              && RunFlow(g, [Reorderer(0.0, hold)], rng, packets).effects[k] == Forward
              && RunFlow(g, [Reorderer(1.0, hold)], rng, packets).effects[k] == DelayBy(hold)
  {
    hide RunFlow, AfterChances;
    DropperAlone(g, 0.0, rng, packets);
    DropperAlone(g, 1.0, rng, packets);
    DuplicatorAlone(g, 0.0, rng, packets);
    DuplicatorAlone(g, 1.0, rng, packets);
    ReordererAlone(g, 0.0, hold, rng, packets);
    ReordererAlone(g, 1.0, hold, rng, packets);
  }

  // ----- Jitter -----

  /** The generator after k draws from a range. */
  function AfterRanges(g: Generator, low: nat, high: nat, rng: Rng, k: nat): Rng {
    if k == 0 then rng else g.range(AfterRanges(g, low, high, rng, k - 1), low, high).1
  }

  /** A duration in nanoseconds as far as 64 bits go, which is more than 584 years. */
  function Within64(duration: nat): nat {
    if duration <= 18_446_744_073_709_551_615 then duration else 18_446_744_073_709_551_615
  }

  /** Jitter delays every packet, the k-th by what the k-th draw between its bounds answers. */
  lemma {:induction false} JitterAlone(g: Generator, min: nat, max: nat, rng: Rng, packets: seq<Packet>)
    ensures var course := RunFlow(g, [JitterDelay(min, max)], rng, packets);
            var low, high := Within64(min), Within64(max);
            && course.operators == [JitterDelay(min, max)]
            && course.rng == AfterRanges(g, low, high, rng, |packets|)
            && forall k :: 0 <= k < |packets| ==>
                 course.effects[k] == DelayBy(g.range(AfterRanges(g, low, high, rng, k), low, high).0)
    decreases |packets|
  {
    if packets != [] {
      var n := |packets| - 1;
      var op := JitterDelay(min, max);
      JitterAlone(g, min, max, rng, packets[..n]);
      Alone(g, op, packets[n], RunFlow(g, [op], rng, packets[..n]).rng);
      hide DecideAll;
    }
  }

  /** A generator that answers a range with a number in it. */
  ghost predicate KeepsRange(g: Generator) {
    forall rng: Rng, low: nat, high: nat | low <= high :: low <= g.range(rng, low, high).0 <= high
  }

  /** Every delay lies within the bounds, clamped to 64 bits; equal bounds are exact. */
  lemma JitterWithinBounds(g: Generator, min: nat, max: nat, rng: Rng, packets: seq<Packet>)
    requires KeepsRange(g) && min <= max
    ensures var course := RunFlow(g, [JitterDelay(min, max)], rng, packets);
            forall k :: 0 <= k < |packets| ==>
              && course.effects[k].DelayBy?
              && Within64(min) <= course.effects[k].delay <= Within64(max)
              && (max <= 18_446_744_073_709_551_615 ==> min <= course.effects[k].delay <= max)
  {
    hide RunFlow, AfterRanges;
    JitterAlone(g, min, max, rng, packets);
  }

  // ----- Any other operator -----

  datatype Folded = Folded(state: nat, rng: Rng, effects: seq<Effect>)

  /** The fold of a step over a sequence of packets. */
  function Fold(step: (nat, Packet, Rng) -> (nat, Rng, Effect), state: nat, rng: Rng, packets: seq<Packet>)
    : (folded: Folded)
    ensures |folded.effects| == |packets|
  {
    if packets == [] then Folded(state, rng, [])
    else
      var before := Fold(step, state, rng, packets[..|packets| - 1]);
      var (state', rng', effect) := step(before.state, packets[|packets| - 1], before.rng);
      Folded(state', rng', before.effects + [effect])
  }

  /** A custom operator after any packets holds the fold of its step, and has decided as it says. */
  lemma {:induction false} CustomAlone(
      g: Generator, step: (nat, Packet, Rng) -> (nat, Rng, Effect), state: nat, rng: Rng, packets: seq<Packet>)
    ensures var folded := Fold(step, state, rng, packets);
            RunFlow(g, [Custom(state, step)], rng, packets) ==
            Course([Custom(folded.state, step)], folded.rng, folded.effects)
    decreases |packets|
  {
    if packets != [] {
      var n := |packets| - 1;
      CustomAlone(g, step, state, rng, packets[..n]);
      var before := Fold(step, state, rng, packets[..n]);
      Alone(g, Custom(before.state, step), packets[n], before.rng);
      hide DecideAll;
    }
  }
}
