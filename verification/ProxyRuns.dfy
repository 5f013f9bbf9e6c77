/** What every run of the proxy keeps. */
module ProxyRuns {
  import opened Wrappers
  import opened Packets
  import opened Operators
  import opened Flows
  import opened Bytes
  import opened MoldUdp64
  import opened Proxies

  // ----- Conservation -----

  datatype Kind = Forwards | Drops | Delays | Duplicates

  function KindOf(effect: Effect): Kind {
    match effect
    case Forward => Forwards
    case Drop => Drops
    case DelayBy(_) => Delays
    case DuplicateAfter(_) => Duplicates
  }

  /** The datagrams of all decisions of one kind. */
  function DecidedBag(decided: seq<Decided>, kind: Kind, to: Address): (bag: multiset<Datagram>) {
    if decided == [] then multiset{}
    else
      var last := decided[|decided| - 1];
      DecidedBag(decided[..|decided| - 1], kind, to) +
      if KindOf(last.effect) == kind then multiset{Datagram(last.packet, to)} else multiset{}
  }

  function AttemptBag(attempts: seq<Attempt>): (bag: multiset<Datagram>)
    ensures |bag| == |attempts|
  {
    if attempts == [] then multiset{}
    else AttemptBag(attempts[..|attempts| - 1]) + multiset{attempts[|attempts| - 1].datagram}
  }

  function QueuedBag(items: seq<Queued>): (bag: multiset<Datagram>)
    ensures |bag| == |items|
  {
    if items == [] then multiset{}
    else QueuedBag(items[..|items| - 1]) + multiset{items[|items| - 1].datagram}
  }

  lemma DecidedBagNext(decided: seq<Decided>, next: Decided, kind: Kind, to: Address)
    ensures DecidedBag(decided + [next], kind, to) ==
            DecidedBag(decided, kind, to) +
            if KindOf(next.effect) == kind then multiset{Datagram(next.packet, to)} else multiset{}
  {
    assert (decided + [next])[..|decided|] == decided;
  }

  lemma AttemptBagNext(attempts: seq<Attempt>, next: Attempt)
    ensures AttemptBag(attempts + [next]) == AttemptBag(attempts) + multiset{next.datagram}
    ensures SentCount(attempts + [next]) == SentCount(attempts) + if next.sent then 1 else 0
  {
    assert (attempts + [next])[..|attempts|] == attempts;
  }

  lemma QueuedBagNext(items: seq<Queued>, next: Queued)
    ensures QueuedBag(items + [next]) == QueuedBag(items) + multiset{next.datagram}
  {
    assert (items + [next])[..|items|] == items;
  }

  /** The sums a run keeps: decisions by kind, attempts, queue insertions and refusals. */
  datatype Ledger = Ledger(
    forwards: multiset<Datagram>, drops: multiset<Datagram>, delays: multiset<Datagram>, copies: multiset<Datagram>,
    attempts: multiset<Datagram>, accepted: multiset<Datagram>, refused: multiset<Datagram>)

  function LedgerOf(j: Journal, to: Address): Ledger {
    Ledger(
      DecidedBag(j.decided, Forwards, to), DecidedBag(j.decided, Drops, to),
      DecidedBag(j.decided, Delays, to), DecidedBag(j.decided, Duplicates, to),
      AttemptBag(j.attempts), QueuedBag(j.accepted), QueuedBag(j.refused))
  }

  ghost predicate Balanced(l: Ledger, queue: multiset<Datagram>, decided: nat, stats: Stats) {
    // every datagram attempted or waiting was decided so, and the other way round
    && l.attempts + queue == l.forwards + l.copies + l.accepted
    && l.accepted + l.refused == l.delays + l.copies
    // every decision is of one kind
    && decided == |l.forwards| + |l.drops| + |l.delays| + |l.copies|
    // the counters
    && stats.forwarded + stats.sendErrors == |l.attempts|
    && stats.dropped == |l.drops|
    && stats.delayed + stats.duplicated == |l.accepted|
    && stats.queueOverflows == |l.refused|
    && stats.delayed <= |l.delays| && stats.duplicated <= |l.copies|
  }

  /** How many of the attempts went through. */
  function SentCount(attempts: seq<Attempt>): (n: nat)
    ensures n <= |attempts|
  {
    if attempts == [] then 0
    else SentCount(attempts[..|attempts| - 1]) + if attempts[|attempts| - 1].sent then 1 else 0
  }

  ghost predicate Conserved(c: Settings, s: State) {
    && s.stats.forwarded == SentCount(s.journal.attempts)
    && Balanced(LedgerOf(s.journal, c.upstream), s.queue, |s.journal.decided|, s.stats)
    && |s.queue| <= c.maxInFlight
  }

  /** One more decision enters the ledger under its kind. */
  function WithDecision(l: Ledger, effect: Effect, d: Datagram): Ledger {
    match effect
    case Forward => l.(forwards := l.forwards + multiset{d})
    case Drop => l.(drops := l.drops + multiset{d})
    case DelayBy(_) => l.(delays := l.delays + multiset{d})
    case DuplicateAfter(_) => l.(copies := l.copies + multiset{d})
  }

  lemma LedgerDecided(j: Journal, to: Address, packet: Packet, effect: Effect)
    ensures LedgerOf(j.(decided := j.decided + [Decided(packet, effect)]), to) ==
            WithDecision(LedgerOf(j, to), effect, Datagram(packet, to))
  {
    var next := Decided(packet, effect);
    DecidedBagNext(j.decided, next, Forwards, to);
    DecidedBagNext(j.decided, next, Drops, to);
    DecidedBagNext(j.decided, next, Delays, to);
    DecidedBagNext(j.decided, next, Duplicates, to);
    hide DecidedBag, AttemptBag, QueuedBag;
  }

  /** How carrying out a decision moves the ledger. */
  function WithCarried(l: Ledger, effect: Effect, d: Datagram, room: bool): Ledger {
    var tried := if effect == Forward || effect.DuplicateAfter? then l.(attempts := l.attempts + multiset{d}) else l;
    if effect == Forward || effect == Drop then tried
    else if room then tried.(accepted := tried.accepted + multiset{d})
    else tried.(refused := tried.refused + multiset{d})
  }

  lemma LedgerCarried(c: Settings, s: State, packet: Packet, effect: Effect, sent: bool)
    ensures LedgerOf(Carried(c, s, packet, effect, sent).journal, c.upstream) ==
            WithCarried(LedgerOf(s.journal, c.upstream), effect, Datagram(packet, c.upstream), HasRoom(c, s))
  {
    hide DecidedBag, AttemptBag, QueuedBag, Carried;
    var d := Datagram(packet, c.upstream);
    CarriedFate(c, s, packet, effect, sent);
    AttemptBagNext(s.journal.attempts, Attempt(d, sent));
    var delay := match effect case DelayBy(t) => t case DuplicateAfter(t) => t case _ => 0;
    QueuedBagNext(s.journal.accepted, Queued(d, delay));
    QueuedBagNext(s.journal.refused, Queued(d, delay));
    assert s.journal.refused + [] == s.journal.refused && s.journal.attempts + [] == s.journal.attempts;
  }

  /** Taking a decision and carrying it out keeps the balance. */
  lemma BalanceKept(l: Ledger, queue: multiset<Datagram>, decided: nat, stats: Stats,
                    effect: Effect, d: Datagram, room: bool, l': Ledger, queue': multiset<Datagram>, stats': Stats)
    requires Balanced(l, queue, decided, stats)
    requires l' == WithCarried(WithDecision(l, effect, d), effect, d, room)
    requires queue' == if (effect.DelayBy? || effect.DuplicateAfter?) && room then queue + multiset{d} else queue
    requires stats'.forwarded + stats'.sendErrors ==
             stats.forwarded + stats.sendErrors + if effect == Forward || effect.DuplicateAfter? then 1 else 0
    requires stats'.dropped == stats.dropped + if effect == Drop then 1 else 0
    requires stats'.delayed == stats.delayed + if effect.DelayBy? && room then 1 else 0
    requires stats'.duplicated == stats.duplicated + if effect.DuplicateAfter? && room then 1 else 0
    requires stats'.queueOverflows ==
             stats.queueOverflows + if (effect.DelayBy? || effect.DuplicateAfter?) && !room then 1 else 0
    ensures Balanced(l', queue', decided + 1, stats')
  {
    AttemptsKept(l, queue, effect, d, room);
    InsertionsKept(l, effect, d, room);
  }

  lemma AttemptsKept(l: Ledger, queue: multiset<Datagram>, effect: Effect, d: Datagram, room: bool)
    requires l.attempts + queue == l.forwards + l.copies + l.accepted
    ensures var l' := WithCarried(WithDecision(l, effect, d), effect, d, room);
            var queue' := if (effect.DelayBy? || effect.DuplicateAfter?) && room then queue + multiset{d} else queue;
            l'.attempts + queue' == l'.forwards + l'.copies + l'.accepted
  {
    var one := multiset{d};
    match effect {
      case Forward =>
        assert (l.attempts + one) + queue == (l.attempts + queue) + one;
      case Drop =>
      case DelayBy(_) =>
        assert l.attempts + (queue + one) == (l.attempts + queue) + one;
      case DuplicateAfter(_) =>
        DuplicateKept(l.attempts, queue, l.forwards, l.copies, l.accepted, one);
    }
  }

  lemma DuplicateKept(attempts: multiset<Datagram>, queue: multiset<Datagram>, forwards: multiset<Datagram>,
                      copies: multiset<Datagram>, accepted: multiset<Datagram>, one: multiset<Datagram>)
    requires attempts + queue == forwards + copies + accepted
    ensures (attempts + one) + queue == forwards + (copies + one) + accepted
    ensures (attempts + one) + (queue + one) == forwards + (copies + one) + (accepted + one)
  {
    var all := attempts + queue;
    assert (attempts + one) + queue == all + one;
    assert (attempts + one) + (queue + one) == all + one + one;
    assert forwards + (copies + one) + accepted == all + one;
    assert forwards + (copies + one) + (accepted + one) == (forwards + (copies + one) + accepted) + one;
  }

  lemma InsertionsKept(l: Ledger, effect: Effect, d: Datagram, room: bool)
    requires l.accepted + l.refused == l.delays + l.copies
    ensures var l' := WithCarried(WithDecision(l, effect, d), effect, d, room);
            l'.accepted + l'.refused == l'.delays + l'.copies
  {
    var one := multiset{d};
    assert (l.accepted + one) + l.refused == (l.accepted + l.refused) + one;
    assert l.accepted + (l.refused + one) == (l.accepted + l.refused) + one;
    assert (l.delays + one) + l.copies == (l.delays + l.copies) + one;
    assert l.delays + (l.copies + one) == (l.delays + l.copies) + one;
  }

  /** The invariant without the decision just taken, which is still to be carried out. */
  lemma ConservedWhenCarried(c: Settings, s: State, moved: State, packet: Packet, effect: Effect, sent: bool)
    requires Conserved(c, s)
    requires moved.queue == s.queue && moved.stats == s.stats
    requires moved.journal == s.journal.(decided := s.journal.decided + [Decided(packet, effect)])
    ensures Conserved(c, Carried(c, moved, packet, effect, sent))
  {
    hide LedgerOf, Balanced, WithCarried, WithDecision;
    var d := Datagram(packet, c.upstream);
    var l := LedgerOf(s.journal, c.upstream);
    LedgerDecided(s.journal, c.upstream, packet, effect);
    LedgerCarried(c, moved, packet, effect, sent);
    AttemptBagNext(s.journal.attempts, Attempt(d, sent));
    var done := Carried(c, moved, packet, effect, sent);
    var l' := LedgerOf(done.journal, c.upstream);
    BalanceKept(l, s.queue, |s.journal.decided|, s.stats, effect, d, HasRoom(c, s), l', done.queue, done.stats);
  }

  lemma BalancedByExpiry(l: Ledger, queue: multiset<Datagram>, decided: nat, stats: Stats, d: Datagram, stats': Stats)
    requires Balanced(l, queue, decided, stats) && d in queue
    requires stats' == stats.(forwarded := stats'.forwarded, sendErrors := stats'.sendErrors)
    requires stats'.forwarded + stats'.sendErrors == stats.forwarded + stats.sendErrors + 1
    ensures Balanced(l.(attempts := l.attempts + multiset{d}), queue - multiset{d}, decided, stats')
  {
    var left := queue - multiset{d};
    assert queue == left + multiset{d};
    assert (l.attempts + multiset{d}) + left == l.attempts + queue;
  }

  lemma ConservedByExpiry(c: Settings, s: State, datagram: Datagram, sent: bool)
    requires Conserved(c, s) && datagram in s.queue
    ensures Conserved(c, Handled(c, s, Expired(datagram, sent)))
  {
    hide DecidedBag, AttemptBag, QueuedBag, Balanced;
    AttemptBagNext(s.journal.attempts, Attempt(datagram, sent));
    var done := Handled(c, s, Expired(datagram, sent));
    BalancedByExpiry(LedgerOf(s.journal, c.upstream), s.queue, |s.journal.decided|, s.stats, datagram, done.stats);
    assert |done.queue| < |s.queue|;
  }

  lemma ConservedByStep(c: Settings, s: State, round: Round)
    requires Conserved(c, s) && Possible(s, round)
    ensures Conserved(c, Step(c, s, round))
  {
    hide Balanced, LedgerOf, DecideAll, Carried;
    var ready := Published(Adopted(Published(s, round.early), round.sole), round.late);
    assert Conserved(c, ready);
    match round.outcome {
      case ReceiveFailed =>
      case Expired(datagram, sent) =>
        ConservedByExpiry(c, ready, datagram, sent);
      case Arrived(payload, receivedAt, sent) =>
        var packet := Stamped(c, payload, receivedAt);
        var d := DecideAll(c.generator, ready.flow, packet, ready.rng);
        var moved := ready.(flow := d.operators, rng := d.rng,
                            journal := ready.journal.(decided := ready.journal.decided + [Decided(packet, d.effect)]));
        ConservedWhenCarried(c, ready, moved, packet, d.effect, sent);
    }
  }

  /** Conservation holds in every reachable state. */
  lemma {:induction false} ConservedAlways(c: Settings, flow: seq<Operator>, rng: Rng, rounds: seq<Round>)
    requires Run(c, Fresh(flow, rng), rounds)
    ensures Conserved(c, After(c, Fresh(flow, rng), rounds))
    decreases |rounds|
  {
    hide Conserved, Step;
    if rounds == [] {
      ConservedFresh(c, flow, rng);
    } else {
      var before := rounds[..|rounds| - 1];
      ConservedAlways(c, flow, rng, before);
      ConservedByStep(c, After(c, Fresh(flow, rng), before), rounds[|rounds| - 1]);
    }
  }

  lemma ConservedFresh(c: Settings, flow: seq<Operator>, rng: Rng)
    ensures Conserved(c, Fresh(flow, rng))
  {
  }

  /**
   * The books balance: packets received plus copies queued exceed what was attempted, dropped or
   * still waits by exactly the packets that were to be delayed and found no room, which are at most
   * the overflows counted. And the queue never exceeds its cap.
   */
  lemma BooksBalance(c: Settings, flow: seq<Operator>, rng: Rng, rounds: seq<Round>)
    requires Run(c, Fresh(flow, rng), rounds)
    ensures var s := After(c, Fresh(flow, rng), rounds);
            && s.stats.forwarded == SentCount(s.journal.attempts)
            && s.stats.sendErrors == |s.journal.attempts| - SentCount(s.journal.attempts)
    ensures var s := After(c, Fresh(flow, rng), rounds);
            var gap := |ReceivedPackets(c, rounds)| + s.stats.duplicated -
                       (s.stats.forwarded + s.stats.sendErrors + s.stats.dropped + |s.queue|);
            && gap == |DecidedBag(s.journal.decided, Delays, c.upstream)| - s.stats.delayed
            && 0 <= gap <= s.stats.queueOverflows
            && |s.queue| <= c.maxInFlight
  {
    ConservedAlways(c, flow, rng, rounds);
    EachDecidedOnce(c, flow, rng, rounds);
    var s := After(c, Fresh(flow, rng), rounds);
    var j := s.journal;
    assert |DecidedPackets(j.decided)| == |j.decided|;
    hide After, Step, ReceivedPackets, DecidedBag, AttemptBag, QueuedBag;
    assert |AttemptBag(j.attempts) + s.queue| == |AttemptBag(j.attempts)| + |s.queue|;
    assert |QueuedBag(j.accepted) + QueuedBag(j.refused)| == |j.accepted| + |j.refused|;
  }

  // ----- Fate of one packet -----

  predicate Tries(effect: Effect) {
    effect == Forward || effect.DuplicateAfter?
  }

  predicate Holds(effect: Effect) {
    effect.DelayBy? || effect.DuplicateAfter?
  }

  /**
   * What one turn of the loop does with a packet: decided once, then attempted and queued as the effect
   * says. The original of a duplicate is attempted even when its copy finds no room.
   */
  lemma PacketFate(c: Settings, s: State, round: Round) returns (effect: Effect)
    requires round.outcome.Arrived?
    ensures var payload := round.outcome.payload;
            var packet := Packet(payload, Extract(c.extractor, payload), round.outcome.receivedAt);
            var d := Datagram(packet, c.upstream);
            var j, j' := s.journal, Step(c, s, round).journal;
            && j'.decided == j.decided + [Decided(packet, effect)]
            && j'.attempts == j.attempts + (if Tries(effect) then [Attempt(d, round.outcome.sent)] else [])
            && (if Holds(effect) && |s.queue| < c.maxInFlight then
                  Step(c, s, round).queue == s.queue + multiset{d} &&
                  j'.accepted == j.accepted + [Queued(d, effect.delay)] && j'.refused == j.refused
                else
                  Step(c, s, round).queue == s.queue && j'.accepted == j.accepted &&
                  j'.refused == j.refused + (if Holds(effect) then [Queued(d, effect.delay)] else []))
  {
    hide DecideAll, Carried;
    var packet := Stamped(c, round.outcome.payload, round.outcome.receivedAt);
    var ready := Published(Adopted(Published(s, round.early), round.sole), round.late);
    var decision := DecideAll(c.generator, ready.flow, packet, ready.rng);
    var moved := ready.(flow := decision.operators, rng := decision.rng,
                        journal := s.journal.(decided := s.journal.decided + [Decided(packet, decision.effect)]));
    effect := decision.effect;
    CarriedFate(c, moved, packet, effect, round.outcome.sent);
  }

  /** What one decision does to the counters. */
  predicate CountedAs(before: Stats, after: Stats, effect: Effect, room: bool, sent: bool) {
    match effect
    case Forward =>
      after == if sent then before.(forwarded := before.forwarded + 1)
               else before.(sendErrors := before.sendErrors + 1)
    case Drop => after == before.(dropped := before.dropped + 1)
    case DelayBy(_) =>
      after == if room then before.(delayed := before.delayed + 1)
               else before.(queueOverflows := before.queueOverflows + 1)
    case DuplicateAfter(_) =>
      var tried := if sent then before.(forwarded := before.forwarded + 1)
                   else before.(sendErrors := before.sendErrors + 1);
      after == if room then tried.(duplicated := tried.duplicated + 1)
               else tried.(queueOverflows := tried.queueOverflows + 1)
  }

  /** And how it is counted: every counter, for every effect. */
  lemma PacketCounts(c: Settings, s: State, round: Round) returns (effect: Effect)
    requires round.outcome.Arrived?
    ensures exists packet :: Step(c, s, round).journal.decided == s.journal.decided + [Decided(packet, effect)]
    ensures CountedAs(s.stats, Step(c, s, round).stats, effect, |s.queue| < c.maxInFlight, round.outcome.sent)
  {
    hide DecideAll, Carried;
    var packet := Stamped(c, round.outcome.payload, round.outcome.receivedAt);
    var ready := Published(Adopted(Published(s, round.early), round.sole), round.late);
    var decision := DecideAll(c.generator, ready.flow, packet, ready.rng);
    var moved := ready.(flow := decision.operators, rng := decision.rng,
                        journal := s.journal.(decided := s.journal.decided + [Decided(packet, decision.effect)]));
    effect := decision.effect;
    CarriedFate(c, moved, packet, effect, round.outcome.sent);
    CarriedCounts(c, moved, packet, effect, round.outcome.sent);
  }

  lemma CarriedCounts(c: Settings, s: State, packet: Packet, effect: Effect, sent: bool)
    ensures CountedAs(s.stats, Carried(c, s, packet, effect, sent).stats, effect, |s.queue| < c.maxInFlight, sent)
  {
  }

  lemma CarriedFate(c: Settings, s: State, packet: Packet, effect: Effect, sent: bool)
    ensures var d := Datagram(packet, c.upstream);
            var s' := Carried(c, s, packet, effect, sent);
            var j, j' := s.journal, s'.journal;
            && j'.decided == j.decided
            && j'.attempts == j.attempts + (if Tries(effect) then [Attempt(d, sent)] else [])
            && (if Holds(effect) && |s.queue| < c.maxInFlight then
                  s'.queue == s.queue + multiset{d} &&
                  j'.accepted == j.accepted + [Queued(d, effect.delay)] && j'.refused == j.refused
                else
                  s'.queue == s.queue && j'.accepted == j.accepted &&
                  j'.refused == j.refused + (if Holds(effect) then [Queued(d, effect.delay)] else []))
  {
  }

  /** An operator that duplicates everything at once. */
  const ECHO: Operator := Custom(0, (state: nat, packet: Packet, rng: Rng) => (state, rng, DuplicateAfter(0)))

  /** A duplicate that meets a full queue: its original is sent, its copy overflows, and nothing is dropped. */
  lemma DuplicateMeetsFullQueue(c: Settings, receivedAt: nat)
    requires c.maxInFlight == 0
    ensures var s := Step(c, Fresh([ECHO], 0), Round(None, true, None, Arrived([], receivedAt, true)));
            && s.stats == Stats(1, 0, 0, 0, 0, 1)
            && s.journal.attempts == [Attempt(Datagram(Stamped(c, [], receivedAt), c.upstream), true)]
            && s.queue == multiset{}
  {
    hide Stamped;
    EchoDuplicates(c.generator, Stamped(c, [], receivedAt));
  }

  lemma EchoDuplicates(g: Generator, packet: Packet)
    ensures DecideAll(g, [ECHO], packet, 0) == Decision([ECHO], 0, DuplicateAfter(0))
  {
    assert [ECHO][1..] == [];
  }

  // ----- Every packet is decided once and attempted at most twice -----

  /** The packets received in a run, as the operators see them. */
  function ReceivedPackets(c: Settings, rounds: seq<Round>): (packets: seq<Packet>) {
    if rounds == [] then []
    else
      var before := ReceivedPackets(c, rounds[..|rounds| - 1]);
      match rounds[|rounds| - 1].outcome
      case Arrived(payload, receivedAt, _) => before + [Packet(payload, Extract(c.extractor, payload), receivedAt)]
      case _ => before
  }

  /** What arrives on the wire: some bytes at some instant. */
  datatype Arrival = Arrival(payload: bytes, at: nat)

  /** The arrivals of a run, read off its rounds alone. */
  function ArrivedIn(rounds: seq<Round>): (arrived: seq<Arrival>) {
    if rounds == [] then []
    else
      var before := ArrivedIn(rounds[..|rounds| - 1]);
      match rounds[|rounds| - 1].outcome
      case Arrived(payload, receivedAt, _) => before + [Arrival(payload, receivedAt)]
      case _ => before
  }

  lemma {:induction false} ReceivedAsArrived(c: Settings, rounds: seq<Round>)
    ensures |ReceivedPackets(c, rounds)| == |ArrivedIn(rounds)|
    ensures forall i :: 0 <= i < |ArrivedIn(rounds)| ==>
              var arrival := ArrivedIn(rounds)[i];
              ReceivedPackets(c, rounds)[i] ==
              Packet(arrival.payload, Extract(c.extractor, arrival.payload), arrival.at)
    decreases |rounds|
  {
    hide Extract;
    if rounds != [] {
      ReceivedAsArrived(c, rounds[..|rounds| - 1]);
    }
  }

  /**
   * In every run, the i-th packet decided has the bytes and the instant of the i-th arrival, untouched,
   * and the sequence number its extractor reads in these bytes.
   */
  lemma {:induction false} DecidedAsArrived(c: Settings, flow: seq<Operator>, rng: Rng, rounds: seq<Round>)
    ensures var decided := After(c, Fresh(flow, rng), rounds).journal.decided;
            var arrived := ArrivedIn(rounds);
            && |decided| == |arrived|
            && forall i :: 0 <= i < |arrived| ==>
                 var payload := arrived[i].payload;
                 decided[i].packet == Packet(payload, Extract(c.extractor, payload), arrived[i].at)
  {
    hide After, ReceivedPackets, ArrivedIn, Extract;
    EachDecidedOnce(c, flow, rng, rounds);
    ReceivedAsArrived(c, rounds);
    var decided := After(c, Fresh(flow, rng), rounds).journal.decided;
    forall i | 0 <= i < |decided| ensures decided[i].packet == DecidedPackets(decided)[i] {
    }
  }

  function DecidedPackets(decided: seq<Decided>): (packets: seq<Packet>) {
    seq(|decided|, i requires 0 <= i < |decided| => decided[i].packet)
  }

  lemma DecidedByStep(c: Settings, s: State, round: Round)
    ensures DecidedPackets(Step(c, s, round).journal.decided) ==
            DecidedPackets(s.journal.decided) +
            if round.outcome.Arrived? then [Stamped(c, round.outcome.payload, round.outcome.receivedAt)] else []
  {
    hide Step;
    if round.outcome.Arrived? {
      var effect := PacketFate(c, s, round);
    } else {
      NothingReceived(c, s, round);
    }
  }

  lemma NothingReceived(c: Settings, s: State, round: Round)
    requires !round.outcome.Arrived?
    ensures Step(c, s, round).journal.decided == s.journal.decided
  {
  }

  /** Whatever is published meanwhile, the packets decided are the packets received, each once, in order. */
  lemma {:induction false} EachDecidedOnce(c: Settings, flow: seq<Operator>, rng: Rng, rounds: seq<Round>)
    ensures DecidedPackets(After(c, Fresh(flow, rng), rounds).journal.decided) == ReceivedPackets(c, rounds)
    decreases |rounds|
  {
    hide Step, DecidedPackets;
    if rounds == [] {
      assert DecidedPackets([]) == [] by { NothingDecided(); }
    } else {
      var before := rounds[..|rounds| - 1];
      EachDecidedOnce(c, flow, rng, before);
      DecidedByStep(c, After(c, Fresh(flow, rng), before), rounds[|rounds| - 1]);
      assert ReceivedPackets(c, before) + [] == ReceivedPackets(c, before);
    }
  }

  lemma NothingDecided()
    ensures DecidedPackets([]) == []
  {
  }

  /** The datagrams a list of packets would be sent as. */
  function PacketBag(packets: seq<Packet>, to: Address): (bag: multiset<Datagram>) {
    if packets == [] then multiset{}
    else PacketBag(packets[..|packets| - 1], to) + multiset{Datagram(packets[|packets| - 1], to)}
  }

  lemma {:induction false} KindsMakeUp(decided: seq<Decided>, to: Address)
    ensures PacketBag(DecidedPackets(decided), to) ==
            DecidedBag(decided, Forwards, to) + DecidedBag(decided, Drops, to) +
            DecidedBag(decided, Delays, to) + DecidedBag(decided, Duplicates, to)
    decreases |decided|
  {
    hide DecidedBag, PacketBag;
    if decided == [] {
      EmptyBags(to);
      assert DecidedPackets(decided) == [];
    } else {
      var before := decided[..|decided| - 1];
      var last := decided[|decided| - 1];
      assert before + [last] == decided;
      KindsMakeUp(before, to);
      DecidedBagNext(before, last, Forwards, to);
      DecidedBagNext(before, last, Drops, to);
      DecidedBagNext(before, last, Delays, to);
      DecidedBagNext(before, last, Duplicates, to);
      assert DecidedPackets(decided) == DecidedPackets(before) + [last.packet];
      PacketBagNext(DecidedPackets(before), last.packet, to);
      OneMore(DecidedBag(before, Forwards, to), DecidedBag(before, Drops, to),
        DecidedBag(before, Delays, to), DecidedBag(before, Duplicates, to), Datagram(last.packet, to));
    }
  }

  lemma EmptyBags(to: Address)
    ensures PacketBag([], to) == multiset{}
    ensures forall kind :: DecidedBag([], kind, to) == multiset{}
  {
  }

  lemma PacketBagNext(packets: seq<Packet>, next: Packet, to: Address)
    ensures PacketBag(packets + [next], to) == PacketBag(packets, to) + multiset{Datagram(next, to)}
  {
    assert (packets + [next])[..|packets|] == packets;
  }

  lemma OneMore(a: multiset<Datagram>, b: multiset<Datagram>, c: multiset<Datagram>, d: multiset<Datagram>, x: Datagram)
    ensures (a + b + c + d) + multiset{x} == (a + multiset{x}) + b + c + d == a + (b + multiset{x}) + c + d
    ensures (a + b + c + d) + multiset{x} == a + b + (c + multiset{x}) + d == a + b + c + (d + multiset{x})
  {
  }

  /**
   * In every reachable state, a datagram was attempted or waits at most twice as often as it was
   * received; in particular nothing is ever sent that was not received.
   */
  lemma AtMostTwice(c: Settings, flow: seq<Operator>, rng: Rng, rounds: seq<Round>, d: Datagram)
    requires Run(c, Fresh(flow, rng), rounds)
    ensures var s := After(c, Fresh(flow, rng), rounds);
            AttemptBag(s.journal.attempts)[d] + s.queue[d] <= 2 * PacketBag(ReceivedPackets(c, rounds), c.upstream)[d]
  {
    hide DecidedBag, AttemptBag, QueuedBag, PacketBag, After, Run, ReceivedPackets;
    var s := After(c, Fresh(flow, rng), rounds);
    ConservedAlways(c, flow, rng, rounds);
    EachDecidedOnce(c, flow, rng, rounds);
    KindsMakeUp(s.journal.decided, c.upstream);
    var l := LedgerOf(s.journal, c.upstream);
    assert (l.attempts + s.queue)[d] == (l.forwards + l.copies + l.accepted)[d];
    assert (l.accepted + l.refused)[d] == (l.delays + l.copies)[d];
  }

  // ----- Draining the queue -----

  lemma {:induction false} AfterFirst(c: Settings, s: State, first: Round, later: seq<Round>)
    ensures After(c, s, [first] + later) == After(c, Step(c, s, first), later)
    decreases |later|
  {
    hide Step;
    var all := [first] + later;
    if later == [] {
      assert all[..0] == [] && all == [first];
    } else {
      assert all[..|all| - 1] == [first] + later[..|later| - 1];
      AfterFirst(c, s, first, later[..|later| - 1]);
    }
  }

  predicate OnlyExpiries(rounds: seq<Round>) {
    forall i :: 0 <= i < |rounds| ==> rounds[i].outcome.Expired?
  }

  lemma ExpiryStep(c: Settings, s: State, round: Round)
    requires round.outcome.Expired? && Possible(s, round)
    ensures var s' := Step(c, s, round);
            && |s'.queue| == |s.queue| - 1
            && AttemptBag(s'.journal.attempts) + s'.queue == AttemptBag(s.journal.attempts) + s.queue
            && s'.journal.decided == s.journal.decided && s'.rng == s.rng
  {
    hide AttemptBag;
    var d := round.outcome.datagram;
    AttemptBagNext(s.journal.attempts, Attempt(d, round.outcome.sent));
    var left := s.queue - multiset{d};
    assert s.queue == left + multiset{d};
    assert (AttemptBag(s.journal.attempts) + multiset{d}) + left == AttemptBag(s.journal.attempts) + s.queue;
  }

  /** With no further receives, every expiry takes one datagram out of the queue and attempts it. */
  lemma {:induction false} ExpiriesDrain(c: Settings, s: State, rounds: seq<Round>)
    requires Run(c, s, rounds) && OnlyExpiries(rounds)
    ensures var s' := After(c, s, rounds);
            && |s'.queue| == |s.queue| - |rounds|
            && (s'.queue == multiset{} <==> |rounds| == |s.queue|)
            && AttemptBag(s'.journal.attempts) + s'.queue == AttemptBag(s.journal.attempts) + s.queue
            && s'.journal.decided == s.journal.decided && s'.rng == s.rng
    decreases |rounds|
  {
    hide Step, AttemptBag, Possible;
    if rounds != [] {
      var before := rounds[..|rounds| - 1];
      ExpiriesDrain(c, s, before);
      ExpiryStep(c, After(c, s, before), rounds[|rounds| - 1]);
    }
  }

  /** And the queue can always be emptied so. */
  lemma {:induction false} DrainExists(c: Settings, s: State) returns (rounds: seq<Round>)
    ensures Run(c, s, rounds) && OnlyExpiries(rounds) && |rounds| == |s.queue|
    ensures After(c, s, rounds).queue == multiset{}
    decreases |s.queue|
  {
    if s.queue == multiset{} {
      rounds := [];
    } else {
      var d :| d in s.queue;
      var first := Round(None, true, None, Expired(d, true));
      ExpiryStep(c, s, first);
      var later := DrainExists(c, Step(c, s, first));
      rounds := [first] + later;
      RunFirst(c, s, first, later);
      AfterFirst(c, s, first, later);
    }
  }

  lemma {:induction false} RunFirst(c: Settings, s: State, first: Round, later: seq<Round>)
    requires Possible(s, first) && !first.outcome.ReceiveFailed? && Run(c, Step(c, s, first), later)
    ensures Run(c, s, [first] + later)
    decreases |later|
  {
    hide Step, Possible;
    var all := [first] + later;
    if later == [] {
      assert all[..0] == [];
    } else {
      var before := later[..|later| - 1];
      assert all[..|all| - 1] == [first] + before;
      RunFirst(c, s, first, before);
      AfterFirst(c, s, first, before);
    }
  }
}
