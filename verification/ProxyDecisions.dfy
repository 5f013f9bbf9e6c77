/** What the decisions of a run depend on: the packets received and the flows adopted, and nothing else. */
module ProxyDecisions {
  import opened Wrappers
  import opened Packets
  import opened Operators
  import opened Flows
  import opened Proxies
  import opened ProxyRuns

  // ----- Adoption -----

  /** The flow in the slot as round k empties it: every round leaves only what was published late in it. */
  function Offered(slot: Option<seq<Operator>>, rounds: seq<Round>, k: nat): Option<seq<Operator>>
    requires k < |rounds|
  {
    if rounds[k].early.Some? then rounds[k].early
    else if k == 0 then slot
    else rounds[k - 1].late
  }

  /** Round k adopts what it is offered if nobody else holds on to it. */
  predicate Adopts(slot: Option<seq<Operator>>, rounds: seq<Round>, k: nat)
    requires k < |rounds|
  {
    Offered(slot, rounds, k).Some? && rounds[k].sole
  }

  /** No round adopts a flow: none is offered, or what is offered is lost. */
  predicate KeepsFlow(slot: Option<seq<Operator>>, rounds: seq<Round>) {
    forall k :: 0 <= k < |rounds| ==> !Adopts(slot, rounds, k)
  }

  /** What some rounds leave in the slot. */
  function Left(slot: Option<seq<Operator>>, rounds: seq<Round>): Option<seq<Operator>> {
    if rounds == [] then slot else rounds[|rounds| - 1].late
  }

  lemma KeepsFlowLast(slot: Option<seq<Operator>>, rounds: seq<Round>)
    requires rounds != [] && KeepsFlow(slot, rounds)
    ensures var before := rounds[..|rounds| - 1];
            KeepsFlow(slot, before) && !Adopts(Left(slot, before), [rounds[|rounds| - 1]], 0)
  {
    var before := rounds[..|rounds| - 1];
    forall k | 0 <= k < |before| ensures !Adopts(slot, before, k) {
      assert !Adopts(slot, rounds, k);
    }
    assert !Adopts(slot, rounds, |before|);
  }

  lemma SlotIsLeft(c: Settings, s: State, rounds: seq<Round>)
    ensures After(c, s, rounds).reload == Left(s.reload, rounds)
  {
    if rounds != [] {
      hide Step;
      StepEmptiesSlot(c, After(c, s, rounds[..|rounds| - 1]), rounds[|rounds| - 1]);
    }
  }

  lemma StepEmptiesSlot(c: Settings, s: State, round: Round)
    ensures Step(c, s, round).reload == round.late
  {
    hide DecideAll;
  }

  // ----- Decisions do not depend on timing -----

  function Effects(decided: seq<Decided>): (effects: seq<Effect>) {
    seq(|decided|, i requires 0 <= i < |decided| => decided[i].effect)
  }

  /** One round that adopts nothing moves flow and generator as the chain does. */
  lemma KeepingStep(c: Settings, s: State, round: Round)
    requires !Adopts(s.reload, [round], 0)
    ensures var s' := Step(c, s, round);
            match round.outcome
            case Arrived(payload, receivedAt, _) =>
              var packet := Stamped(c, payload, receivedAt);
              var d := DecideAll(c.generator, s.flow, packet, s.rng);
              && s'.flow == d.operators && s'.rng == d.rng
              && s'.journal.decided == s.journal.decided + [Decided(packet, d.effect)]
            case _ => s'.flow == s.flow && s'.rng == s.rng && s'.journal.decided == s.journal.decided
  {
    hide Handled;
    var ready := s.(reload := round.late);
    assert Step(c, s, round) == Handled(c, ready, round.outcome);
    KeepingHandled(c, ready, round.outcome);
  }

  lemma KeepingHandled(c: Settings, s: State, outcome: Outcome)
    ensures var s' := Handled(c, s, outcome);
            match outcome
            case Arrived(payload, receivedAt, _) =>
              var packet := Stamped(c, payload, receivedAt);
              var d := DecideAll(c.generator, s.flow, packet, s.rng);
              && s'.flow == d.operators && s'.rng == d.rng
              && s'.journal.decided == s.journal.decided + [Decided(packet, d.effect)]
            case _ => s'.flow == s.flow && s'.rng == s.rng && s'.journal.decided == s.journal.decided
  {
    hide DecideAll, Stamped;
  }

  /**
   * From any state, and as long as no flow is adopted, the run decides what its flow decides on the
   * packets received, in their order: expiries, send results, the cap, what waits and flows that are
   * published and lost have no say.
   */
  lemma {:induction false} DecisionsAreTheFlows(c: Settings, s: State, rounds: seq<Round>)
    requires KeepsFlow(s.reload, rounds)
    ensures var s' := After(c, s, rounds);
            var packets := ReceivedPackets(c, rounds);
            var course := RunFlow(c.generator, s.flow, s.rng, packets);
            && |s'.journal.decided| == |s.journal.decided| + |packets|
            && s.journal.decided <= s'.journal.decided
            && Effects(s'.journal.decided[|s.journal.decided|..]) == course.effects
            && DecidedPackets(s'.journal.decided[|s.journal.decided|..]) == packets
            && s'.flow == course.operators && s'.rng == course.rng
    decreases |rounds|
  {
    hide Step, DecideAll;
    if rounds != [] {
      var before := rounds[..|rounds| - 1];
      var last := rounds[|rounds| - 1];
      KeepsFlowLast(s.reload, rounds);
      DecisionsAreTheFlows(c, s, before);
      SlotIsLeft(c, s, before);
      KeepingStep(c, After(c, s, before), last);
      var packets := ReceivedPackets(c, rounds);
      if last.outcome.Arrived? {
        assert packets[..|packets| - 1] == ReceivedPackets(c, before);
      }
    }
  }

  // ----- Any two runs -----

  /** What the decisions of a run are made from: flows adopted and packets received. */
  datatype Input = Took(flow: seq<Operator>) | Got(packet: Packet)

  /** What one round feeds the decisions, given what its slot holds. */
  function InputsOf(c: Settings, slot: Option<seq<Operator>>, round: Round): (inputs: seq<Input>) {
    (if Adopts(slot, [round], 0) then [Took(Offered(slot, [round], 0).value)] else []) +
    match round.outcome
    case Arrived(payload, receivedAt, _) => [Got(Stamped(c, payload, receivedAt))]
    case _ => []
  }

  /** The inputs of a run, in order, read off its rounds alone. */
  function Script(c: Settings, slot: Option<seq<Operator>>, rounds: seq<Round>): (script: seq<Input>) {
    if rounds == [] then []
    else
      var before := rounds[..|rounds| - 1];
      Script(c, slot, before) + InputsOf(c, Left(slot, before), rounds[|rounds| - 1])
  }

  /** The part of the proxy's state that decides, and what it has decided. */
  datatype Decider = Decider(flow: seq<Operator>, rng: Rng, decided: seq<Decided>)

  function DeciderOf(s: State): Decider {
    Decider(s.flow, s.rng, s.journal.decided)
  }

  function PlayOne(g: Generator, d: Decider, input: Input): Decider {
    match input
    case Took(flow) => d.(flow := flow)
    case Got(packet) =>
      var decision := DecideAll(g, d.flow, packet, d.rng);
      Decider(decision.operators, decision.rng, d.decided + [Decided(packet, decision.effect)])
  }

  function Play(g: Generator, d: Decider, script: seq<Input>): Decider {
    if script == [] then d
    else PlayOne(g, Play(g, d, script[..|script| - 1]), script[|script| - 1])
  }

  lemma {:induction false} PlayAppends(g: Generator, d: Decider, first: seq<Input>, later: seq<Input>)
    ensures Play(g, d, first + later) == Play(g, Play(g, d, first), later)
    decreases |later|
  {
    hide PlayOne;
    var all := first + later;
    if later == [] {
      assert all == first;
    } else {
      assert all[..|all| - 1] == first + later[..|later| - 1];
      PlayAppends(g, d, first, later[..|later| - 1]);
    }
  }

  lemma StepPlays(c: Settings, s: State, round: Round)
    ensures DeciderOf(Step(c, s, round)) == Play(c.generator, DeciderOf(s), InputsOf(c, s.reload, round))
  {
    hide Handled, Play, Stamped, DecideAll;
    var ready := Published(Adopted(Published(s, round.early), round.sole), round.late);
    var taken := if Adopts(s.reload, [round], 0) then [Took(Offered(s.reload, [round], 0).value)] else [];
    PlayShort(c.generator, DeciderOf(s), taken);
    KeepingHandled(c, ready, round.outcome);
    var got := match round.outcome
               case Arrived(payload, receivedAt, _) => [Got(Stamped(c, payload, receivedAt))]
               case _ => [];
    PlayShort(c.generator, DeciderOf(ready), got);
    PlayAppends(c.generator, DeciderOf(s), taken, got);
  }

  lemma PlayShort(g: Generator, d: Decider, script: seq<Input>)
    requires |script| <= 1
    ensures Play(g, d, script) == if script == [] then d else PlayOne(g, d, script[0])
  {
    hide PlayOne;
  }

  /**
   * Every run, whatever is published, adopted or lost: its decisions, the generator and the operators
   * are those of playing the flows adopted and the packets received in their order.
   */
  lemma {:induction false} RunIsPlay(c: Settings, s: State, rounds: seq<Round>)
    ensures DeciderOf(After(c, s, rounds)) == Play(c.generator, DeciderOf(s), Script(c, s.reload, rounds))
    decreases |rounds|
  {
    hide Step, InputsOf, PlayOne, DeciderOf;
    if rounds != [] {
      var before := rounds[..|rounds| - 1];
      var last := rounds[|rounds| - 1];
      RunIsPlay(c, s, before);
      SlotIsLeft(c, s, before);
      StepPlays(c, After(c, s, before), last);
      PlayAppends(c.generator, DeciderOf(s), Script(c, s.reload, before), InputsOf(c, Left(s.reload, before), last));
    }
  }

  /**
   * Any two runs with the same seed, flow and generator, the same packets received and the same flows
   * adopted between them take the same decisions and end in the same generator and operator states,
   * whatever the interleaving of expiries, publications that are lost, the failures of sends, the
   * upstream address and the cap.
   */
  lemma TimingDoesNotMatter(a: Settings, b: Settings, flow: seq<Operator>, rng: Rng, runa: seq<Round>, runb: seq<Round>)
    requires a.generator == b.generator && Script(a, None, runa) == Script(b, None, runb)
    ensures var sa, sb := After(a, Fresh(flow, rng), runa), After(b, Fresh(flow, rng), runb);
            sa.journal.decided == sb.journal.decided && sa.flow == sb.flow && sa.rng == sb.rng
  {
    hide After, Play, Script;
    RunIsPlay(a, Fresh(flow, rng), runa);
    RunIsPlay(b, Fresh(flow, rng), runb);
  }

  /** Without adoptions the packets received are all there is to the script. */
  lemma {:induction false} QuietScript(c: Settings, slot: Option<seq<Operator>>, rounds: seq<Round>)
    requires KeepsFlow(slot, rounds)
    ensures Script(c, slot, rounds) == Gots(ReceivedPackets(c, rounds))
    decreases |rounds|
  {
    if rounds != [] {
      KeepsFlowLast(slot, rounds);
      QuietScript(c, slot, rounds[..|rounds| - 1]);
      hide Stamped;
    }
  }

  function Gots(packets: seq<Packet>): (script: seq<Input>) {
    seq(|packets|, i requires 0 <= i < |packets| => Got(packets[i]))
  }

  /**
   * Two such runs to one address in which no queue overflowed: what was attempted and what waits are
   * together the same datagrams, each as often.
   */
  lemma DeliveriesDoNotDependOnTiming(
      a: Settings, b: Settings, flow: seq<Operator>, rng: Rng, runa: seq<Round>, runb: seq<Round>)
    requires a.generator == b.generator && a.upstream == b.upstream
    requires Script(a, None, runa) == Script(b, None, runb)
    requires Run(a, Fresh(flow, rng), runa) && Run(b, Fresh(flow, rng), runb)
    requires After(a, Fresh(flow, rng), runa).stats.queueOverflows == 0
    requires After(b, Fresh(flow, rng), runb).stats.queueOverflows == 0
    ensures var sa, sb := After(a, Fresh(flow, rng), runa), After(b, Fresh(flow, rng), runb);
            AttemptBag(sa.journal.attempts) + sa.queue == AttemptBag(sb.journal.attempts) + sb.queue
  {
    hide DecidedBag, AttemptBag, QueuedBag, After, Run, Script;
    TimingDoesNotMatter(a, b, flow, rng, runa, runb);
    ConservedAlways(a, flow, rng, runa);
    ConservedAlways(b, flow, rng, runb);
    AllAccepted(a, After(a, Fresh(flow, rng), runa));
    AllAccepted(b, After(b, Fresh(flow, rng), runb));
  }

  /** Without overflows, what was attempted or waits is every forward, every delay and every duplicate twice. */
  lemma AllAccepted(c: Settings, s: State)
    requires Conserved(c, s) && s.stats.queueOverflows == 0
    ensures AttemptBag(s.journal.attempts) + s.queue ==
            DecidedBag(s.journal.decided, Forwards, c.upstream) +
            DecidedBag(s.journal.decided, Duplicates, c.upstream) +
            (DecidedBag(s.journal.decided, Delays, c.upstream) + DecidedBag(s.journal.decided, Duplicates, c.upstream))
  {
    hide DecidedBag, AttemptBag, QueuedBag;
  }

  // ----- Reloads -----

  /** What is decided first after `decided`: these effects for these packets. */
  predicate DecidesNext(decided: seq<Decided>, later: seq<Decided>, packets: seq<Packet>, effects: seq<Effect>) {
    var n := |decided| + |packets|;
    && decided <= later && n <= |later|
    && DecidedPackets(later[|decided|..n]) == packets
    && Effects(later[|decided|..n]) == effects
  }

  lemma {:induction false} DecidedGrows(c: Settings, s: State, rounds: seq<Round>, n: nat)
    requires n <= |rounds|
    ensures After(c, s, rounds[..n]).journal.decided <= After(c, s, rounds).journal.decided
    decreases |rounds|
  {
    hide Step;
    if n < |rounds| {
      var before := rounds[..|rounds| - 1];
      assert before[..n] == rounds[..n];
      DecidedGrows(c, s, before, n);
      StepDecides(c, After(c, s, before), rounds[|rounds| - 1]);
    } else {
      assert rounds[..n] == rounds;
    }
  }

  lemma StepDecides(c: Settings, s: State, round: Round)
    ensures s.journal.decided <= Step(c, s, round).journal.decided
    ensures |Step(c, s, round).journal.decided| == |s.journal.decided| + (if round.outcome.Arrived? then 1 else 0)
  {
    hide Handled;
    var ready := Published(Adopted(Published(s, round.early), round.sole), round.late);
    HandledDecides(c, ready, round.outcome);
  }

  lemma HandledDecides(c: Settings, s: State, outcome: Outcome)
    ensures s.journal.decided <= Handled(c, s, outcome).journal.decided
    ensures |Handled(c, s, outcome).journal.decided| ==
            |s.journal.decided| + (if outcome.Arrived? then 1 else 0)
  {
    hide DecideAll, Stamped;
  }

  /** A flow that is replaced has no influence on anything from then on, whatever is published later. */
  lemma {:induction false} ReplacedFlowIsForgotten(c: Settings, s: State, rounds: seq<Round>, other: seq<Operator>)
    requires rounds != [] && Adopts(s.reload, rounds, 0)
    ensures After(c, s.(flow := other), rounds) == After(c, s, rounds)
  {
    FirstStep(c, s, rounds);
    FirstStep(c, s.(flow := other), rounds);
    assert Step(c, s.(flow := other), rounds[0]) == Step(c, s, rounds[0]) by {
      hide Handled;
    }
  }

  /** Nor has a flow that is lost, or that another one takes the place of in the slot. */
  lemma {:induction false} LostFlowIsForgotten(c: Settings, s: State, rounds: seq<Round>, other: Option<seq<Operator>>)
    requires rounds != [] && (rounds[0].early.Some? || !rounds[0].sole)
    ensures After(c, s.(reload := other), rounds) == After(c, s, rounds)
  {
    FirstStep(c, s, rounds);
    FirstStep(c, s.(reload := other), rounds);
    assert Step(c, s.(reload := other), rounds[0]) == Step(c, s, rounds[0]) by {
      hide Handled;
    }
  }

  lemma FirstStep(c: Settings, s: State, rounds: seq<Round>)
    requires rounds != []
    ensures After(c, s, rounds) == After(c, Step(c, s, rounds[0]), rounds[1..])
  {
    assert rounds == [rounds[0]] + rounds[1..];
    AfterFirst(c, s, rounds[0], rounds[1..]);
  }

  /** The flow that decides in the first round: the one offered if it is adopted, the old one if not. */
  function Deciding(s: State, rounds: seq<Round>): seq<Operator>
    requires rounds != []
  {
    if Adopts(s.reload, rounds, 0) then Offered(s.reload, rounds, 0).value else s.flow
  }

  /**
   * In a run with any publications, as long as no flow is adopted after the first of n rounds, what
   * these rounds decide is decided by one flow: the flow offered to the first round if the loop holds
   * the only reference to it, and the old flow if not. Whatever comes after n rounds changes nothing.
   */
  lemma FullSlotDecides(c: Settings, s: State, rounds: seq<Round>, n: nat)
    requires 0 < n <= |rounds|
    requires forall k :: 0 < k < n ==> !Adopts(s.reload, rounds, k)
    ensures var sn, s' := After(c, s, rounds[..n]), After(c, s, rounds);
            var packets := ReceivedPackets(c, rounds[..n]);
            var course := RunFlow(c.generator, Deciding(s, rounds), s.rng, packets);
            && DecidesNext(s.journal.decided, s'.journal.decided, packets, course.effects)
            && |sn.journal.decided| == |s.journal.decided| + |packets|
            && sn.flow == course.operators && sn.rng == course.rng && sn.reload == rounds[n - 1].late
  {
    hide After, RunFlow, ReceivedPackets;
    var swapped := s.(reload := None, flow := Deciding(s, rounds));
    var quiet := QuietFrom(s, rounds, n);
    QuietRun(c, s, swapped, rounds[..n], quiet);
    DecisionsAreTheFlows(c, swapped, quiet);
    SlotIsLeft(c, s, rounds[..n]);
    DecidedGrows(c, s, rounds, n);
    Prefixed(s.journal.decided, After(c, s, rounds[..n]).journal.decided, After(c, s, rounds).journal.decided);
  }

  /** The same rounds with the first adoption already made. */
  lemma QuietFrom(s: State, rounds: seq<Round>, n: nat) returns (quiet: seq<Round>)
    requires 0 < n <= |rounds|
    requires forall k :: 0 < k < n ==> !Adopts(s.reload, rounds, k)
    ensures quiet == rounds[..n][0 := rounds[0].(early := None)] && KeepsFlow(None, quiet)
  {
    quiet := rounds[..n][0 := rounds[0].(early := None)];
    forall k | 0 < k < n ensures !Adopts(None, quiet, k) {
      assert !Adopts(s.reload, rounds, k);
    }
  }

  lemma QuietRun(c: Settings, s: State, swapped: State, rounds: seq<Round>, quiet: seq<Round>)
    requires rounds != [] && quiet == rounds[0 := rounds[0].(early := None)]
    requires swapped == s.(reload := None, flow := Deciding(s, rounds))
    ensures After(c, s, rounds) == After(c, swapped, quiet)
    ensures ReceivedPackets(c, rounds) == ReceivedPackets(c, quiet)
  {
    hide After, ReceivedPackets, Step;
    FirstStep(c, s, rounds);
    FirstStep(c, swapped, quiet);
    assert rounds[1..] == quiet[1..];
    AdoptFirst(c, s, swapped, rounds[0], quiet[0]);
    SameReceived(c, rounds, quiet);
  }

  lemma Prefixed(decided: seq<Decided>, first: seq<Decided>, all: seq<Decided>)
    requires decided <= first <= all
    ensures all[|decided|..|first|] == first[|decided|..]
  {
  }

  lemma AdoptFirst(c: Settings, s: State, swapped: State, round: Round, quiet: Round)
    requires quiet == round.(early := None)
    requires swapped == s.(reload := None, flow := Deciding(s, [round]))
    ensures Step(c, s, round) == Step(c, swapped, quiet)
  {
    hide Handled;
  }

  lemma {:induction false} SameReceived(c: Settings, a: seq<Round>, b: seq<Round>)
    requires |a| == |b| && forall k :: 0 <= k < |a| ==> a[k].outcome == b[k].outcome
    ensures ReceivedPackets(c, a) == ReceivedPackets(c, b)
    decreases |a|
  {
    if a != [] {
      SameReceived(c, a[..|a| - 1], b[..|b| - 1]);
    }
  }

  /**
   * A reload published while the proxy waits takes effect after at most one more decision, and after
   * none if a timer expires first. From the next round on every decision is the new flow's (or that
   * of one published over it), starting from the generator as it stands, until another is adopted;
   * the old flow's unless it is solely owned. The replaced flow has no influence on anything later.
   */
  lemma ReloadTakesEffect(c: Settings, s: State, round: Round, later: seq<Round>, n: nat)
    requires round.late.Some? && 0 < n <= |later|
    requires forall k :: 0 < k < n ==> !Adopts(None, later, k)
    ensures var s1 := Step(c, s, round);
            var s2 := After(c, s, [round] + later);
            var deciding := if later[0].sole then Offered(round.late, later, 0).value else s1.flow;
            var packets := ReceivedPackets(c, later[..n]);
            var course := RunFlow(c.generator, deciding, s1.rng, packets);
            && |s1.journal.decided| == |s.journal.decided| + (if round.outcome.Arrived? then 1 else 0)
            && DecidesNext(s1.journal.decided, s2.journal.decided, packets, course.effects)
            && (later[0].sole ==> forall other :: After(c, s1.(flow := other), later) == s2)
  {
    hide Step, After, RunFlow, ReceivedPackets, DecidesNext;
    var s1 := Step(c, s, round);
    AfterFirst(c, s, round, later);
    StepDecides(c, s, round);
    StepEmptiesSlot(c, s, round);
    forall k | 0 < k < n ensures !Adopts(s1.reload, later, k) {
      assert !Adopts(None, later, k);
    }
    FullSlotDecides(c, s1, later, n);
    if later[0].sole {
      forall other ensures After(c, s1.(flow := other), later) == After(c, s1, later) {
        ReplacedFlowIsForgotten(c, s1, later, other);
      }
    }
  }

  /** The reload that is lost: a flow that drops everything is published, and the packet is forwarded. */
  lemma LostReload(c: Settings, receivedAt: nat)
    ensures var s := Fresh([], 0).(reload := Some([Limiter(RateLimiters.NewBucket(0))]));
            var s' := Step(c, s, Round(None, false, None, Arrived([], receivedAt, true)));
            s'.stats == Stats(1, 0, 0, 0, 0, 0) && s'.reload == None && s'.flow == []
    ensures var s := Fresh([], 0).(reload := Some([Limiter(RateLimiters.NewBucket(0))]));
            var s' := Step(c, s, Round(None, true, None, Arrived([], receivedAt, true)));
            s'.stats == Stats(0, 1, 0, 0, 0, 0)
  {
    hide Stamped;
  }
}
