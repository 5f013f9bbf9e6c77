/** End to end: a proxy whose flow only targets sequence numbers removes exactly the targeted datagrams. */
module SequenceFilter {
  import opened Wrappers
  import opened Bytes
  import opened Packets
  import opened Operators
  import opened Flows
  import opened MoldUdp64
  import opened Proxies
  import opened ProxyRuns
  import opened ProxyDecisions

  /** The sequence-aware operators as a scenario configures them. */
  datatype Target = Numbers(seqnums: seq<nat>) | Burst(start: nat, len: nat)

  predicate Configurable(target: Target) {
    target.Burst? ==> target.start <= U64_MAX && target.len < 0x1_0000_0000
  }

  function Built(target: Target): Operator {
    match target
    case Numbers(seqnums) => NewDropSeq(seq(|seqnums|, i requires 0 <= i < |seqnums| => SeqNum(seqnums[i])))
    case Burst(start, len) => NewGapBurst(SeqNum(start), len)
  }

  function BuiltAll(targets: seq<Target>): (operators: seq<Operator>) {
    seq(|targets|, i requires 0 <= i < |targets| => Built(targets[i]))
  }

  /** What a target means: its numbers, or the interval [start, start + len) of unbounded integers. */
  predicate Hits(target: Target, number: nat) {
    match target
    case Numbers(seqnums) => number in seqnums
    case Burst(start, len) => start <= number < start + len
  }

  /**
   * A datagram is removed when the protocol is MoldUDP64 and it holds a header whose sequence number
   * some target hits; without a protocol none is.
   */
  predicate Removed(extractor: Extractor, targets: seq<Target>, payload: bytes) {
    && extractor.MoldUdp64Extractor?
    && |payload| >= 20
    && exists i :: 0 <= i < |targets| && Hits(targets[i], BigEndian(payload[10..18]))
  }

  function Kept(extractor: Extractor, targets: seq<Target>, packets: seq<Packet>): (kept: seq<Packet>) {
    if packets == [] then []
    else
      var n := |packets| - 1;
      Kept(extractor, targets, packets[..n]) +
      if Removed(extractor, targets, packets[n].payload) then [] else [packets[n]]
  }

  /** Saturation at 64 bits loses nothing: on 64-bit numbers the operator hits what the target means. */
  lemma BuiltHits(g: Generator, target: Target, packet: Packet, rng: Rng)
    requires Configurable(target) && (packet.seqnum.Some? ==> packet.seqnum.value.number <= U64_MAX)
    ensures DecideOne(g, Built(target), packet, rng) ==
            Verdict(Built(target), rng,
              if packet.seqnum.Some? && Hits(target, packet.seqnum.value.number) then Drop else Forward)
  {
    if target.Numbers? && packet.seqnum.Some? {
      var n := packet.seqnum.value.number;
      var wrapped := seq(|target.seqnums|, i requires 0 <= i < |target.seqnums| => SeqNum(target.seqnums[i]));
      if n in target.seqnums {
        var i :| 0 <= i < |target.seqnums| && target.seqnums[i] == n;
        assert wrapped[i] == packet.seqnum.value;
      }
    }
  }

  /** The chain drops a packet exactly when some target hits it, in whatever order the targets stand. */
  lemma {:induction false} ChainHits(g: Generator, targets: seq<Target>, packet: Packet, rng: Rng)
    requires forall i :: 0 <= i < |targets| ==> Configurable(targets[i])
    requires packet.seqnum.Some? ==> packet.seqnum.value.number <= U64_MAX
    ensures DecideAll(g, BuiltAll(targets), packet, rng) ==
            Decision(BuiltAll(targets), rng,
              if packet.seqnum.Some? && exists i :: 0 <= i < |targets| && Hits(targets[i], packet.seqnum.value.number)
              then Drop else Forward)
    decreases |targets|
  {
    hide DecideOne, Built, Hits;
    if targets != [] {
      var operators := BuiltAll(targets);
      assert operators[1..] == BuiltAll(targets[1..]);
      assert operators == [operators[0]] + operators[1..];
      BuiltHits(g, targets[0], packet, rng);
      ChainHits(g, targets[1..], packet, rng);
      if packet.seqnum.Some? {
        var n := packet.seqnum.value.number;
        assert forall i :: 1 <= i < |targets| ==> targets[i] == targets[1..][i - 1];
        assert (exists i :: 0 <= i < |targets| && Hits(targets[i], n)) <==>
               Hits(targets[0], n) || exists i :: 0 <= i < |targets[1..]| && Hits(targets[1..][i], n);
      }
    }
  }

  /** On a datagram as received: dropped exactly when it is to be removed. */
  lemma DatagramDecided(c: Settings, targets: seq<Target>, payload: bytes, receivedAt: nat, rng: Rng)
    requires forall i :: 0 <= i < |targets| ==> Configurable(targets[i])
    ensures DecideAll(c.generator, BuiltAll(targets), Stamped(c, payload, receivedAt), rng) ==
            Decision(BuiltAll(targets), rng, if Removed(c.extractor, targets, payload) then Drop else Forward)
  {
    hide DecideAll, BuiltAll, Hits;
    if c.extractor == MoldUdp64Extractor {
      ExtractedIff(payload);
    }
    ChainHits(c.generator, targets, Stamped(c, payload, receivedAt), rng);
  }

  function Datagrams(attempts: seq<Attempt>): (datagrams: seq<Datagram>) {
    seq(|attempts|, i requires 0 <= i < |attempts| => attempts[i].datagram)
  }

  function Addressed(packets: seq<Packet>, to: Address): (datagrams: seq<Datagram>) {
    seq(|packets|, i requires 0 <= i < |packets| => Datagram(packets[i], to))
  }

  ghost predicate Filtered(c: Settings, targets: seq<Target>, rng: Rng, received: seq<Packet>, s: State) {
    && s.flow == BuiltAll(targets) && s.rng == rng
    && s.queue == multiset{}
    && Datagrams(s.journal.attempts) == Addressed(Kept(c.extractor, targets, received), c.upstream)
    && s.stats.forwarded + s.stats.sendErrors == |Kept(c.extractor, targets, received)|
    && s.stats.dropped == |received| - |Kept(c.extractor, targets, received)|
    && s.stats.delayed == s.stats.duplicated == s.stats.queueOverflows == 0
  }

  lemma FilteredStep(c: Settings, targets: seq<Target>, rng: Rng, received: seq<Packet>, s: State, round: Round)
    requires forall i :: 0 <= i < |targets| ==> Configurable(targets[i])
    requires Filtered(c, targets, rng, received, s) && Possible(s, round)
    requires !Adopts(s.reload, [round], 0)
    ensures var more := if round.outcome.Arrived?
                        then [Stamped(c, round.outcome.payload, round.outcome.receivedAt)] else [];
            Filtered(c, targets, rng, received + more, Step(c, s, round))
  {
    hide DecideAll, BuiltAll, Removed, Kept, Addressed, Datagrams, Stamped;
    StepReads(c, s, round);
    var ready := s.(reload := round.late);
    assert Published(Adopted(Published(s, round.early), round.sole), round.late) == ready;
    match round.outcome {
      case Expired(datagram, _) =>
        assert false;
      case ReceiveFailed =>
        assert received + [] == received;
      case Arrived(payload, receivedAt, sent) =>
        FilteredArrival(c, targets, rng, received, ready, payload, receivedAt, sent);
    }
  }

  lemma FilteredArrival(
      c: Settings, targets: seq<Target>, rng: Rng, received: seq<Packet>, s: State,
      payload: bytes, receivedAt: nat, sent: bool)
    requires forall i :: 0 <= i < |targets| ==> Configurable(targets[i])
    requires Filtered(c, targets, rng, received, s)
    ensures Filtered(c, targets, rng, received + [Stamped(c, payload, receivedAt)],
              Handled(c, s, Arrived(payload, receivedAt, sent)))
  {
    hide DecideAll, BuiltAll, Removed, Kept, Addressed, Datagrams;
    var packet := Stamped(c, payload, receivedAt);
    DatagramDecided(c, targets, payload, receivedAt, rng);
    KeptNext(c.extractor, targets, received, packet, c.upstream);
    AttemptsNext(s.journal.attempts, Attempt(Datagram(packet, c.upstream), sent));
  }

  lemma KeptNext(extractor: Extractor, targets: seq<Target>, received: seq<Packet>, packet: Packet, to: Address)
    ensures var kept := Kept(extractor, targets, received);
            Kept(extractor, targets, received + [packet]) ==
            if Removed(extractor, targets, packet.payload) then kept else kept + [packet]
    ensures Addressed(Kept(extractor, targets, received) + [packet], to) ==
            Addressed(Kept(extractor, targets, received), to) + [Datagram(packet, to)]
  {
    assert (received + [packet])[..|received|] == received;
  }

  lemma AttemptsNext(attempts: seq<Attempt>, next: Attempt)
    ensures Datagrams(attempts + [next]) == Datagrams(attempts) + [next.datagram]
  {
  }

  /**
   * The sequence filter, over every run that adopts no other flow: the sends attempted are the datagrams
   * received, unchanged and in order, minus exactly those with a targeted sequence number, and all of
   * them when no protocol is configured; nothing waits, nothing is drawn, and the removals are counted.
   */
  lemma {:induction false} FilterIsExact(c: Settings, targets: seq<Target>, rng: Rng, rounds: seq<Round>)
    requires forall i :: 0 <= i < |targets| ==> Configurable(targets[i])
    requires Run(c, Fresh(BuiltAll(targets), rng), rounds) && KeepsFlow(None, rounds)
    ensures var s := After(c, Fresh(BuiltAll(targets), rng), rounds);
            Filtered(c, targets, rng, ReceivedPackets(c, rounds), s)
    decreases |rounds|
  {
    hide Step, Possible, Filtered, BuiltAll, Adopts, KeepsFlow, Left;
    if rounds == [] {
      FilteredFresh(c, targets, rng);
    } else {
      var before := rounds[..|rounds| - 1];
      KeepsFlowLast(None, rounds);
      SlotIsLeft(c, Fresh(BuiltAll(targets), rng), before);
      FilterIsExact(c, targets, rng, before);
      FilteredStep(c, targets, rng, ReceivedPackets(c, before), After(c, Fresh(BuiltAll(targets), rng), before),
        rounds[|rounds| - 1]);
      assert ReceivedPackets(c, before) + [] == ReceivedPackets(c, before);
    }
  }

  lemma FilteredFresh(c: Settings, targets: seq<Target>, rng: Rng)
    ensures Filtered(c, targets, rng, [], Fresh(BuiltAll(targets), rng))
  {
  }

  // ----- On the wire -----

  function Payloads(attempts: seq<Attempt>): (payloads: seq<bytes>) {
    seq(|attempts|, i requires 0 <= i < |attempts| => attempts[i].datagram.packet.payload)
  }

  /** The bytes of the arrivals that are not to be removed. */
  function KeptBytes(extractor: Extractor, targets: seq<Target>, arrived: seq<Arrival>): (kept: seq<bytes>) {
    if arrived == [] then []
    else
      var n := |arrived| - 1;
      KeptBytes(extractor, targets, arrived[..n]) +
      if Removed(extractor, targets, arrived[n].payload) then [] else [arrived[n].payload]
  }

  lemma KeptAsArrived(extractor: Extractor, targets: seq<Target>, packets: seq<Packet>, arrived: seq<Arrival>,
                      attempts: seq<Attempt>, to: Address)
    requires |packets| == |arrived| && forall i :: 0 <= i < |packets| ==> packets[i].payload == arrived[i].payload
    requires Datagrams(attempts) == Addressed(Kept(extractor, targets, packets), to)
    ensures Payloads(attempts) == KeptBytes(extractor, targets, arrived)
  {
    hide Removed;
    var kept := Kept(extractor, targets, packets);
    assert |attempts| == |Datagrams(attempts)| == |kept|;
    forall i | 0 <= i < |attempts| ensures Payloads(attempts)[i] == kept[i].payload {
      assert Datagrams(attempts)[i] == Addressed(kept, to)[i];
    }
    KeptBytesAre(extractor, targets, packets, arrived);
  }

  lemma {:induction false} KeptBytesAre(
      extractor: Extractor, targets: seq<Target>, packets: seq<Packet>, arrived: seq<Arrival>)
    requires |packets| == |arrived| && forall i :: 0 <= i < |packets| ==> packets[i].payload == arrived[i].payload
    ensures var kept := Kept(extractor, targets, packets);
            && |KeptBytes(extractor, targets, arrived)| == |kept|
            && forall i :: 0 <= i < |kept| ==> KeptBytes(extractor, targets, arrived)[i] == kept[i].payload
    decreases |packets|
  {
    hide Removed;
    if packets != [] {
      var n := |packets| - 1;
      KeptBytesAre(extractor, targets, packets[..n], arrived[..n]);
    }
  }

  /**
   * On the wire, from one end to the other: what goes out are the bytes that came in, byte for byte and
   * in order, all to the upstream address, minus exactly the targeted datagrams.
   */
  lemma FilterOnTheWire(c: Settings, targets: seq<Target>, rng: Rng, rounds: seq<Round>)
    requires forall i :: 0 <= i < |targets| ==> Configurable(targets[i])
    requires Run(c, Fresh(BuiltAll(targets), rng), rounds) && KeepsFlow(None, rounds)
    ensures var attempts := After(c, Fresh(BuiltAll(targets), rng), rounds).journal.attempts;
            && Payloads(attempts) == KeptBytes(c.extractor, targets, ArrivedIn(rounds))
            && forall i :: 0 <= i < |attempts| ==> attempts[i].datagram.to == c.upstream
  {
    hide After, Run, KeepsFlow, BuiltAll, Removed, Kept, KeptBytes;
    FilterIsExact(c, targets, rng, rounds);
    ReceivedAsArrived(c, rounds);
    var attempts := After(c, Fresh(BuiltAll(targets), rng), rounds).journal.attempts;
    var packets := ReceivedPackets(c, rounds);
    KeptAsArrived(c.extractor, targets, packets, ArrivedIn(rounds), attempts, c.upstream);
    forall i | 0 <= i < |attempts| ensures attempts[i].datagram.to == c.upstream {
      assert Datagrams(attempts)[i] == Addressed(Kept(c.extractor, targets, packets), c.upstream)[i];
    }
  }

  /** Without a protocol everything goes through. */
  lemma {:induction false} NoProtocolKeepsAll(targets: seq<Target>, arrived: seq<Arrival>)
    ensures var kept := KeptBytes(NoopExtractor, targets, arrived);
            |kept| == |arrived| && forall i :: 0 <= i < |arrived| ==> kept[i] == arrived[i].payload
    decreases |arrived|
  {
    if arrived != [] {
      NoProtocolKeepsAll(targets, arrived[..|arrived| - 1]);
    }
  }
}
