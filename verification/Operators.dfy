/** The fault-injection operators, each one deterministic step on its own state and the generator. */
module Operators {
  import opened Wrappers
  import opened Packets
  import opened RateLimiters
  import opened Bytes

  /** The state of the seeded generator, encoded as a number. */
  type Rng = nat

  type Probability = p: real | 0.0 <= p <= 1.0

  /** The generator's two draws, as opaque deterministic functions of its state. */
  datatype Generator = Generator(
    chance: (Rng, Probability) -> (bool, Rng),
    range: (Rng, nat, nat) -> (nat, Rng))

  /** The operators of the program, and any other: its state, encoded as a number, and its step. */
  datatype Operator =
    | Dropper(probability: Probability)
    | Duplicator(probability: Probability)
    | JitterDelay(min: nat, max: nat)
    | Reorderer(probability: Probability, hold: nat)
    | Limiter(bucket: Bucket)
    | DropSeq(targets: set<SeqNum>)
    | GapBurst(first: nat, last: Option<nat>)
    | Custom(state: nat, step: (nat, Packet, Rng) -> (nat, Rng, Effect))

  datatype Verdict = Verdict(operator: Operator, rng: Rng, effect: Effect)

  /** Nanosecond counts beyond 64 bits are clamped. */
  function ClampNanos(duration: nat): nat {
    if duration <= U64_MAX then duration else U64_MAX
  }

  function NewDropSeq(targets: seq<SeqNum>): Operator {
    DropSeq(set t | t in targets)
  }

  /** A run of `len` sequence numbers, its end clamped to 64 bits; an empty run has no end. */
  function NewGapBurst(start: SeqNum, len: nat): Operator {
    if len == 0 then GapBurst(start.number, None)
    else
      var last := start.number + (len - 1);
      GapBurst(start.number, Some(if last <= U64_MAX then last else U64_MAX))
  }

  /** One decision of one operator. */
  function DecideOne(g: Generator, op: Operator, packet: Packet, rng: Rng): (v: Verdict) {
    match op
    case Dropper(p) =>
      var (hit, rng') := g.chance(rng, p);
      Verdict(op, rng', if hit then Drop else Forward)
    case Duplicator(p) =>
      var (hit, rng') := g.chance(rng, p);
      Verdict(op, rng', if hit then DuplicateAfter(0) else Forward)
    case JitterDelay(min, max) =>
      var (delay, rng') := g.range(rng, ClampNanos(min), ClampNanos(max));
      Verdict(op, rng', DelayBy(delay))
    case Reorderer(p, hold) =>
      var (hit, rng') := g.chance(rng, p);
      Verdict(op, rng', if hit then DelayBy(hold) else Forward)
    case Limiter(bucket) =>
      var decided := DecideOnce(BINARY64, bucket, packet.receivedAt);
      Verdict(Limiter(decided.next), rng, decided.effect)
    case DropSeq(targets) =>
      Verdict(op, rng, if packet.seqnum.Some? && packet.seqnum.value in targets then Drop else Forward)
    case GapBurst(first, last) =>
      var hit := packet.seqnum.Some? && last.Some? && first <= packet.seqnum.value.number <= last.value;
      Verdict(op, rng, if hit then Drop else Forward)
    case Custom(state, step) =>
      var (state', rng', effect) := step(state, packet, rng);
      Verdict(Custom(state', step), rng', effect)
  }

  /** Operators that never draw: the generator neither moves nor has a say. */
  ghost predicate DrawsNothing(op: Operator) {
    match op
    case Limiter(_) => true
    case DropSeq(_) => true
    case GapBurst(_, _) => true
    case Custom(_, step) => IgnoresGenerator(step)
    case _ => false
  }

  ghost predicate IgnoresGenerator(step: (nat, Packet, Rng) -> (nat, Rng, Effect)) {
    forall state, packet, rng, rng' ::
      var (a, b) := (step(state, packet, rng), step(state, packet, rng'));
      a.0 == b.0 && a.1 == rng && a.2 == b.2
  }
}
