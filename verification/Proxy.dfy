/**
 * The proxy loop: a state machine over rounds, and the class that runs it. What the environment
 * decides (arrivals, expiries, send results, publications) is the round's.
 */
module Proxies {
  import opened Wrappers
  import opened Bytes
  import opened Packets
  import opened Operators
  import opened Flows
  import opened MoldUdp64

  type Address = nat

  /** What a proxy is built with and never changes. */
  datatype Settings = Settings(generator: Generator, upstream: Address, extractor: Extractor, maxInFlight: nat)

  datatype Datagram = Datagram(packet: Packet, to: Address)

  datatype Stats = Stats(
    forwarded: nat, dropped: nat, delayed: nat, duplicated: nat, sendErrors: nat, queueOverflows: nat)

  datatype Decided = Decided(packet: Packet, effect: Effect)
  datatype Attempt = Attempt(datagram: Datagram, sent: bool)
  datatype Queued = Queued(datagram: Datagram, delay: nat)

  /** What has happened so far, for stating what runs keep. */
  datatype Journal = Journal(decided: seq<Decided>, attempts: seq<Attempt>, accepted: seq<Queued>, refused: seq<Queued>)

  datatype State = State(
    flow: seq<Operator>, reload: Option<seq<Operator>>, rng: Rng,
    queue: multiset<Datagram>, stats: Stats, journal: Journal)

  /** The branch of the wait that completes, with the result of the send it may cause. */
  datatype Outcome =
    | Arrived(payload: bytes, receivedAt: nat, sent: bool)
    | ReceiveFailed
    | Expired(datagram: Datagram, sent: bool)

  /**
   * One turn of the loop. A flow may be published before the slot is swapped (`early`) or while the
   * proxy waits (`late`); of several only the last counts. `sole` says whether the loop holds the only
   * reference to the flow it takes from the slot.
   */
  datatype Round = Round(early: Option<seq<Operator>>, sole: bool, late: Option<seq<Operator>>, outcome: Outcome)

  function Fresh(flow: seq<Operator>, rng: Rng): State {
    State(flow, None, rng, multiset{}, Stats(0, 0, 0, 0, 0, 0), Journal([], [], [], []))
  }

  function Published(s: State, flow: Option<seq<Operator>>): State {
    if flow.Some? then s.(reload := flow) else s
  }

  /** The slot is emptied; its flow is adopted if nobody else holds on to it, and lost otherwise. */
  function Adopted(s: State, sole: bool): (r: State)
    ensures r == s.(flow := r.flow, reload := None)
    ensures r.flow != s.flow ==> sole && s.reload == Some(r.flow)
  {
    match s.reload
    case None => s
    case Some(flow) => s.(reload := None, flow := if sole then flow else s.flow)
  }

  function Attempted(s: State, datagram: Datagram, sent: bool): State {
    s.(stats := if sent then s.stats.(forwarded := s.stats.forwarded + 1)
                else s.stats.(sendErrors := s.stats.sendErrors + 1),
       journal := s.journal.(attempts := s.journal.attempts + [Attempt(datagram, sent)]))
  }

  predicate HasRoom(c: Settings, s: State) {
    |s.queue| < c.maxInFlight
  }

  function Enqueued(c: Settings, s: State, packet: Packet, delay: nat): State {
    var item := Queued(Datagram(packet, c.upstream), delay);
    if HasRoom(c, s) then
      s.(queue := s.queue + multiset{item.datagram}, journal := s.journal.(accepted := s.journal.accepted + [item]))
    else
      s.(stats := s.stats.(queueOverflows := s.stats.queueOverflows + 1),
         journal := s.journal.(refused := s.journal.refused + [item]))
  }

  /** A packet as the operators see it. */
  function Stamped(c: Settings, payload: bytes, receivedAt: nat): Packet {
    Packet(payload, Extract(c.extractor, payload), receivedAt)
  }

  function Carried(c: Settings, s: State, packet: Packet, effect: Effect, sent: bool): State {
    match effect
    case Forward => Attempted(s, Datagram(packet, c.upstream), sent)
    case Drop => s.(stats := s.stats.(dropped := s.stats.dropped + 1))
    case DelayBy(delay) =>
      var queued := Enqueued(c, s, packet, delay);
      if HasRoom(c, s) then queued.(stats := queued.stats.(delayed := queued.stats.delayed + 1)) else queued
    case DuplicateAfter(delay) =>
      var tried := Attempted(s, Datagram(packet, c.upstream), sent);
      var queued := Enqueued(c, tried, packet, delay);
      if HasRoom(c, s) then queued.(stats := queued.stats.(duplicated := queued.stats.duplicated + 1)) else queued
  }

  function Handled(c: Settings, s: State, outcome: Outcome): State {
    match outcome
    case Arrived(payload, receivedAt, sent) =>
      var packet := Stamped(c, payload, receivedAt);
      var d := DecideAll(c.generator, s.flow, packet, s.rng);
      var moved := s.(flow := d.operators, rng := d.rng,
                      journal := s.journal.(decided := s.journal.decided + [Decided(packet, d.effect)]));
      Carried(c, moved, packet, d.effect, sent)
    case ReceiveFailed => s
    case Expired(datagram, sent) => Attempted(s.(queue := s.queue - multiset{datagram}), datagram, sent)
  }

  function Step(c: Settings, s: State, round: Round): State {
    Handled(c, Published(Adopted(Published(s, round.early), round.sole), round.late), round.outcome)
  }

  /** A timer can only expire for a datagram that waits. */
  predicate Possible(s: State, round: Round) {
    round.outcome.Expired? ==> round.outcome.datagram in s.queue
  }

  function After(c: Settings, s: State, rounds: seq<Round>): State {
    if rounds == [] then s else Step(c, After(c, s, rounds[..|rounds| - 1]), rounds[|rounds| - 1])
  }

  /** Rounds that can happen one after the other; a failed receive ends the loop. */
  predicate Run(c: Settings, s: State, rounds: seq<Round>) {
    rounds == [] ||
    var before := rounds[..|rounds| - 1];
    && Run(c, s, before)
    && (before != [] ==> !before[|before| - 1].outcome.ReceiveFailed?)
    && Possible(After(c, s, before), rounds[|rounds| - 1])
  }

  class Proxy {
    const settings: Settings
    const flow: Flow
    var reload: Option<seq<Operator>>
    var rng: Rng
    var delayQueue: multiset<Datagram>
    var stats: Stats
    ghost var journal: Journal

    constructor (settings: Settings, flow: Flow, seed: Rng)
      ensures this.settings == settings && this.flow == flow
      ensures Now() == Fresh(flow.operators, seed)
    {
      this.settings := settings;
      this.flow := flow;
      this.reload := None;
      this.rng := seed;
      this.delayQueue := multiset{};
      this.stats := Stats(0, 0, 0, 0, 0, 0);
      this.journal := Journal([], [], [], []);
    }

    ghost function Now(): State
      reads this, flow
    {
      State(flow.operators, reload, rng, delayQueue, stats, journal)
    }

    method SendAndCount(datagram: Datagram, sent: bool)
      modifies this
      ensures Now() == Attempted(old(Now()), datagram, sent) && flow.operators == old(flow.operators)
    {
      if sent {
        stats := stats.(forwarded := stats.forwarded + 1);
      } else {
        stats := stats.(sendErrors := stats.sendErrors + 1);
      }
      journal := journal.(attempts := journal.attempts + [Attempt(datagram, sent)]);
    }

    method Enqueue(packet: Packet, delay: nat) returns (accepted: bool)
      modifies this
      ensures Now() == Enqueued(settings, old(Now()), packet, delay)
      ensures accepted == HasRoom(settings, old(Now()))
    {
      var datagram := Datagram(packet, settings.upstream);
      if |delayQueue| >= settings.maxInFlight {
        stats := stats.(queueOverflows := stats.queueOverflows + 1);
        journal := journal.(refused := journal.refused + [Queued(datagram, delay)]);
        return false;
      }
      delayQueue := delayQueue + multiset{datagram};
      journal := journal.(accepted := journal.accepted + [Queued(datagram, delay)]);
      return true;
    }

    /** What the control plane does with the slot. */
    method Publish(published: Option<seq<Operator>>)
      modifies this`reload
      ensures Now() == Published(old(Now()), published)
    {
      if published.Some? {
        reload := published;
      }
    }

    /** The loop, for as long as the environment is watched; `failed` says that a receive error ended it. */
    method RunRounds(rounds: seq<Round>) returns (failed: bool)
      requires Run(settings, Now().(queue := multiset{}), rounds)
      modifies this, flow
      ensures Now() == After(settings, old(Now()).(queue := multiset{}), rounds)
      ensures failed <==> rounds != [] && rounds[|rounds| - 1].outcome.ReceiveFailed?
    {
      hide After, Run, Step, Possible;
      delayQueue := multiset{};
      AfterNothing(settings, Now());
      ghost var start := Now();
      var i := 0;
      assert rounds[..0] == [];
      while i < |rounds|
        invariant i <= |rounds|
        invariant Now() == After(settings, start, rounds[..i])
        invariant i > 0 ==> !rounds[i - 1].outcome.ReceiveFailed?
      {
        AfterNext(settings, start, rounds, i);
        RunRound(rounds[i]);
        if rounds[i].outcome.ReceiveFailed? {
          assert i + 1 == |rounds| && rounds[..i + 1] == rounds;
          return true;
        }
        i := i + 1;
      }
      assert rounds[..i] == rounds;
      return false;
    }

    /** One turn of the loop: empty the slot, wait, and do what the branch that completes says. */
    method RunRound(round: Round)
      modifies this, flow
      ensures Now() == Step(settings, old(Now()), round)
    {
      hide Step, Handled, Published, Adopted, Attempted;
      StepReads(settings, Now(), round);
      Publish(round.early);
      AdoptReload(round.sole);
      Publish(round.late);
      match round.outcome {
        case ReceiveFailed =>
        case Expired(datagram, sent) =>
          delayQueue := delayQueue - multiset{datagram};
          SendAndCount(datagram, sent);
        case Arrived(payload, receivedAt, sent) =>
          Receive(payload, receivedAt, sent);
      }
    }

    /** The top of the loop: empty the slot, and adopt its flow unless somebody else holds on to it. */
    method AdoptReload(sole: bool)
      modifies this`reload, flow
      ensures Now() == Adopted(old(Now()), sole)
    {
      var taken := reload;
      reload := None;
      if taken.Some? {
        if sole {
          flow.operators := taken.value;
        }
      }
    }

    /** The receiving branch: stamp, decide, carry out. */
    method Receive(payload: bytes, receivedAt: nat, sent: bool)
      modifies this, flow
      ensures Now() == Handled(settings, old(Now()), Arrived(payload, receivedAt, sent))
    {
      hide DecideAll, Enqueued;
      var packet := Packet(payload, Extract(settings.extractor, payload), receivedAt);
      var effect, rng' := flow.Decide(settings.generator, packet, rng);
      rng := rng';
      journal := journal.(decided := journal.decided + [Decided(packet, effect)]);
      match effect {
        case Forward =>
          SendAndCount(Datagram(packet, settings.upstream), sent);
        case Drop =>
          stats := stats.(dropped := stats.dropped + 1);
        case DelayBy(delay) =>
          var accepted := Enqueue(packet, delay);
          if accepted {
            stats := stats.(delayed := stats.delayed + 1);
          }
        case DuplicateAfter(delay) =>
          SendAndCount(Datagram(packet, settings.upstream), sent);
          var accepted := Enqueue(packet, delay);
          if accepted {
            stats := stats.(duplicated := stats.duplicated + 1);
          }
      }
    }
  }

  lemma AfterNothing(c: Settings, s: State)
    ensures After(c, s, []) == s
  {
  }

  /** The branches of one turn. */
  lemma StepReads(c: Settings, s: State, round: Round)
    ensures var ready := Published(Adopted(Published(s, round.early), round.sole), round.late);
            && Step(c, s, round) == Handled(c, ready, round.outcome)
            && match round.outcome
               case ReceiveFailed => Step(c, s, round) == ready
               case Expired(datagram, sent) =>
                 Step(c, s, round) == Attempted(ready.(queue := ready.queue - multiset{datagram}), datagram, sent)
               case _ => true
  {
    hide Adopted, Attempted, Carried, DecideAll, Published;
  }

  lemma AfterNext(c: Settings, s: State, rounds: seq<Round>, i: nat)
    requires Run(c, s, rounds) && i < |rounds|
    ensures After(c, s, rounds[..i + 1]) == Step(c, After(c, s, rounds[..i]), rounds[i])
    ensures Possible(After(c, s, rounds[..i]), rounds[i])
    ensures i + 1 < |rounds| ==> !rounds[i].outcome.ReceiveFailed?
  {
    hide Step, Possible;
    RunPrefix(c, s, rounds, i + 1);
    assert rounds[..i + 1][..i] == rounds[..i];
  }

  /** The beginning of a run is a run. */
  lemma {:induction false} RunPrefix(c: Settings, s: State, rounds: seq<Round>, k: nat)
    requires Run(c, s, rounds) && k <= |rounds|
    ensures Run(c, s, rounds[..k])
    ensures k > 0 ==> Possible(After(c, s, rounds[..k][..k - 1]), rounds[k - 1])
    ensures k > 1 ==> !rounds[k - 2].outcome.ReceiveFailed?
    ensures k < |rounds| && k > 0 ==> !rounds[k - 1].outcome.ReceiveFailed?
    decreases |rounds|
  {
    hide Step, Possible;
    var n := |rounds|;
    if k < n {
      assert rounds[..n - 1][..k] == rounds[..k];
      RunPrefix(c, s, rounds[..n - 1], k);
    } else {
      assert rounds[..k] == rounds;
    }
  }
}
