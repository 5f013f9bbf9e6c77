/** End to end: what single operators do to the datagrams of a run. */
module ProxyOperators {
  import opened Wrappers
  import opened Packets
  import opened Operators
  import opened Flows
  import opened OperatorLaws
  import opened Proxies
  import opened ProxyRuns
  import opened ProxyDecisions

  // ----- The limiter, by the instants of arrival -----

  function Instants(arrived: seq<Arrival>): (times: seq<nat>) {
    seq(|arrived|, i requires 0 <= i < |arrived| => arrived[i].at)
  }

  /** In a run, a limiter forwards by its history of arrivals: their instants, and nothing else. */
  lemma LimiterInRun(c: Settings, capacity: nat, rng: Rng, rounds: seq<Round>)
    requires KeepsFlow(None, rounds)
    ensures var decided := After(c, Fresh([Limiter(RateLimiters.NewBucket(capacity))], rng), rounds).journal.decided;
            var times := Instants(ArrivedIn(rounds));
            && |decided| == |times|
            && forall i :: 0 <= i < |times| ==>
                 var forwarded := RateLimiters.Forwarded(RateLimiters.BINARY64, capacity, times, i);
                 decided[i].effect == if forwarded then Forward else Drop
  {
    hide After, RunFlow, ReceivedPackets, ArrivedIn, RateLimiters.Forwarded, KeepsFlow;
    var flow := [Limiter(RateLimiters.NewBucket(capacity))];
    var packets := ReceivedPackets(c, rounds);
    EffectsInRun(c, flow, rng, rounds);
    LimiterAlone(c.generator, capacity, rng, packets);
    ReceivedAsArrived(c, rounds);
    assert Arrivals(packets) == Instants(ArrivedIn(rounds));
  }

  /** Without adoptions the effects of a run are those of its flow on what arrived. */
  lemma EffectsInRun(c: Settings, flow: seq<Operator>, rng: Rng, rounds: seq<Round>)
    requires KeepsFlow(None, rounds)
    ensures var decided := After(c, Fresh(flow, rng), rounds).journal.decided;
            var course := RunFlow(c.generator, flow, rng, ReceivedPackets(c, rounds));
            && |decided| == |course.effects|
            && forall i :: 0 <= i < |decided| ==> decided[i].effect == course.effects[i]
  {
    hide After, RunFlow, ReceivedPackets, KeepsFlow;
    DecisionsAreTheFlows(c, Fresh(flow, rng), rounds);
    var decided := After(c, Fresh(flow, rng), rounds).journal.decided;
    assert decided[0..] == decided;
    forall i | 0 <= i < |decided| ensures decided[i].effect == Effects(decided)[i] {
    }
  }

  // ----- One effect for every packet -----

  ghost predicate AllHave(decided: seq<Decided>, effect: Effect) {
    forall i :: 0 <= i < |decided| ==> decided[i].effect == effect
  }

  /** When every decision is the same, its kind holds all the packets and the other kinds none. */
  lemma {:induction false} OneKind(decided: seq<Decided>, effect: Effect, kind: Kind, to: Address)
    requires AllHave(decided, effect)
    ensures DecidedBag(decided, kind, to) ==
            if KindOf(effect) == kind then PacketBag(DecidedPackets(decided), to) else multiset{}
    decreases |decided|
  {
    hide DecidedBag, PacketBag;
    if decided == [] {
      EmptyBags(to);
      assert DecidedPackets(decided) == [];
    } else {
      var before := decided[..|decided| - 1];
      var last := decided[|decided| - 1];
      assert before + [last] == decided;
      OneKind(before, effect, kind, to);
      DecidedBagNext(before, last, kind, to);
      assert DecidedPackets(decided) == DecidedPackets(before) + [last.packet];
      PacketBagNext(DecidedPackets(before), last.packet, to);
    }
  }

  /** How often a packet goes out by an effect. */
  function Copies(effect: Effect): nat {
    match effect
    case Forward => 1
    case Drop => 0
    case DelayBy(_) => 1
    case DuplicateAfter(_) => 2
  }

  /**
   * A run that decides the same for every packet, without overflow: every datagram received was
   * attempted or waits as often as the effect says.
   */
  lemma UniformRun(c: Settings, flow: seq<Operator>, rng: Rng, rounds: seq<Round>, effect: Effect, d: Datagram)
    requires Run(c, Fresh(flow, rng), rounds)
    requires var s := After(c, Fresh(flow, rng), rounds);
             s.stats.queueOverflows == 0 && AllHave(s.journal.decided, effect)
    ensures var s := After(c, Fresh(flow, rng), rounds);
            AttemptBag(s.journal.attempts)[d] + s.queue[d] ==
            Copies(effect) * PacketBag(ReceivedPackets(c, rounds), c.upstream)[d]
  {
    hide After, Run, ReceivedPackets, DecidedBag, PacketBag, AttemptBag, AllHave;
    var s := After(c, Fresh(flow, rng), rounds);
    ConservedAlways(c, flow, rng, rounds);
    AllAccepted(c, s);
    EachDecidedOnce(c, flow, rng, rounds);
    OneKind(s.journal.decided, effect, Forwards, c.upstream);
    OneKind(s.journal.decided, effect, Delays, c.upstream);
    OneKind(s.journal.decided, effect, Duplicates, c.upstream);
    assert (AttemptBag(s.journal.attempts) + s.queue)[d] == AttemptBag(s.journal.attempts)[d] + s.queue[d];
  }

  /** A duplicator that always hits: every datagram received goes out or waits exactly twice. */
  lemma EverythingTwice(c: Settings, rng: Rng, rounds: seq<Round>, d: Datagram)
    requires Certain(c.generator) && KeepsFlow(None, rounds)
    requires Run(c, Fresh([Duplicator(1.0)], rng), rounds)
    requires After(c, Fresh([Duplicator(1.0)], rng), rounds).stats.queueOverflows == 0
    ensures var s := After(c, Fresh([Duplicator(1.0)], rng), rounds);
            AttemptBag(s.journal.attempts)[d] + s.queue[d] ==
            2 * PacketBag(ReceivedPackets(c, rounds), c.upstream)[d]
  {
    hide After, Run, ReceivedPackets, PacketBag, AttemptBag, RunFlow, KeepsFlow, Certain;
    EffectsInRun(c, [Duplicator(1.0)], rng, rounds);
    EndCases(c.generator, 0, rng, ReceivedPackets(c, rounds));
    UniformRun(c, [Duplicator(1.0)], rng, rounds, DuplicateAfter(0), d);
  }

  /** A dropper that always hits sends nothing; one that never does sends everything once. */
  lemma EverythingOrNothing(c: Settings, rng: Rng, rounds: seq<Round>, p: Probability, d: Datagram)
    requires Certain(c.generator) && KeepsFlow(None, rounds) && (p == 0.0 || p == 1.0)
    requires Run(c, Fresh([Dropper(p)], rng), rounds)
    requires After(c, Fresh([Dropper(p)], rng), rounds).stats.queueOverflows == 0
    ensures var s := After(c, Fresh([Dropper(p)], rng), rounds);
            AttemptBag(s.journal.attempts)[d] + s.queue[d] ==
            if p == 0.0 then PacketBag(ReceivedPackets(c, rounds), c.upstream)[d] else 0
  {
    hide After, Run, ReceivedPackets, PacketBag, AttemptBag, RunFlow, KeepsFlow, Certain;
    EffectsInRun(c, [Dropper(p)], rng, rounds);
    EndCases(c.generator, 0, rng, ReceivedPackets(c, rounds));
    UniformRun(c, [Dropper(p)], rng, rounds, if p == 0.0 then Forward else Drop, d);
  }

  /** Jitter and reordering change when a datagram goes out, never whether: each goes out or waits once. */
  lemma DelaysLoseNothing(c: Settings, op: Operator, rng: Rng, rounds: seq<Round>, d: Datagram)
    requires op.JitterDelay? || op.Reorderer?
    requires KeepsFlow(None, rounds) && Run(c, Fresh([op], rng), rounds)
    requires After(c, Fresh([op], rng), rounds).stats.queueOverflows == 0
    ensures var s := After(c, Fresh([op], rng), rounds);
            AttemptBag(s.journal.attempts)[d] + s.queue[d] ==
            PacketBag(ReceivedPackets(c, rounds), c.upstream)[d]
  {
    hide After, Run, ReceivedPackets, DecidedBag, PacketBag, AttemptBag, RunFlow, KeepsFlow;
    var s := After(c, Fresh([op], rng), rounds);
    var packets := ReceivedPackets(c, rounds);
    EffectsInRun(c, [op], rng, rounds);
    match op {
      case JitterDelay(min, max) => JitterAlone(c.generator, min, max, rng, packets);
      case Reorderer(p, hold) => ReordererAlone(c.generator, p, hold, rng, packets);
    }
    ConservedAlways(c, [op], rng, rounds);
    AllAccepted(c, s);
    EachDecidedOnce(c, [op], rng, rounds);
    KindsMakeUp(s.journal.decided, c.upstream);
    OnlyOnce(s.journal.decided, c.upstream);
    assert (AttemptBag(s.journal.attempts) + s.queue)[d] == AttemptBag(s.journal.attempts)[d] + s.queue[d];
  }

  lemma {:induction false} OnlyOnce(decided: seq<Decided>, to: Address)
    requires forall i :: 0 <= i < |decided| ==> decided[i].effect == Forward || decided[i].effect.DelayBy?
    ensures DecidedBag(decided, Drops, to) == multiset{} && DecidedBag(decided, Duplicates, to) == multiset{}
    decreases |decided|
  {
    if decided != [] {
      OnlyOnce(decided[..|decided| - 1], to);
    }
  }
}
