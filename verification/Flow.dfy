/** An ordered chain of operators: the first one that does not forward decides. */
module Flows {
  import opened Packets
  import opened RateLimiters
  import opened Operators

  datatype Decision = Decision(operators: seq<Operator>, rng: Rng, effect: Effect)

  /** One decision of the chain: the operators consulted move on, the others keep their state. */
  function DecideAll(g: Generator, operators: seq<Operator>, packet: Packet, rng: Rng): (d: Decision)
    ensures |d.operators| == |operators|
  {
    if operators == [] then Decision([], rng, Forward)
    else
      var v := DecideOne(g, operators[0], packet, rng);
      if v.effect == Forward then
        var rest := DecideAll(g, operators[1..], packet, v.rng);
        Decision([v.operator] + rest.operators, rest.rng, rest.effect)
      else Decision([v.operator] + operators[1..], v.rng, v.effect)
  }

  class Flow {
    var operators: seq<Operator>

    constructor (operators: seq<Operator>)
      ensures this.operators == operators
    {
      this.operators := operators;
    }

    method Decide(g: Generator, packet: Packet, rng: Rng) returns (effect: Effect, rng': Rng)
      modifies this
      ensures Decision(operators, rng', effect) == DecideAll(g, old(operators), packet, rng)
    {
      hide DecideOne, DecideAll;
      ghost var before := operators;
      rng' := rng;
      var i := 0;
      assert before[0..] == before && before[..0] + DecideAll(g, before, packet, rng).operators ==
                                      DecideAll(g, before, packet, rng).operators;
      while i < |operators|
        invariant i <= |operators| == |before| && operators[i..] == before[i..]
        invariant var rest := DecideAll(g, before[i..], packet, rng');
                  DecideAll(g, before, packet, rng) == Decision(operators[..i] + rest.operators, rest.rng, rest.effect)
      {
        ghost var done := operators[..i];
        assert before[i..][0] == operators[i] && before[i..][1..] == before[i + 1..];
        ConsultNext(g, done, before[i..], packet, rng');
        var v := DecideOne(g, operators[i], packet, rng');
        operators := operators[i := v.operator];
        rng' := v.rng;
        assert operators[..i + 1] == done + [v.operator] && operators[i + 1..] == before[i + 1..];
        if v.effect != Forward {
          assert operators == operators[..i + 1] + operators[i + 1..];
          return v.effect, rng';
        }
        i := i + 1;
      }
      NobodyLeft(g, packet, rng');
      assert operators[i..] == [] && operators[..i] + [] == operators;
      return Forward, rng';
    }
  }

  lemma NobodyLeft(g: Generator, packet: Packet, rng: Rng)
    ensures DecideAll(g, [], packet, rng) == Decision([], rng, Forward)
  {
  }

  lemma ConsultNext(g: Generator, done: seq<Operator>, left: seq<Operator>, packet: Packet, rng: Rng)
    requires left != []
    ensures var v := DecideOne(g, left[0], packet, rng);
            var d := DecideAll(g, left, packet, rng);
            var rest := DecideAll(g, left[1..], packet, v.rng);
            if v.effect == Forward then
              && done + d.operators == (done + [v.operator]) + rest.operators
              && d.rng == rest.rng && d.effect == rest.effect
            else done + d.operators == (done + [v.operator]) + left[1..] && d.rng == v.rng && d.effect == v.effect
  {
    hide DecideOne;
  }

  // ----- Laws of the chain -----

  /** B is consulted only when A forwards; otherwise it keeps its state and draws nothing. */
  lemma {:induction false} Concatenation(g: Generator, a: seq<Operator>, b: seq<Operator>, packet: Packet, rng: Rng)
    ensures var first := DecideAll(g, a, packet, rng);
            var second := DecideAll(g, b, packet, first.rng);
            DecideAll(g, a + b, packet, rng) ==
            if first.effect == Forward then Decision(first.operators + second.operators, second.rng, second.effect)
            else Decision(first.operators + b, first.rng, first.effect)
    decreases |a|
  {
    if a == [] {
      assert a + b == b;
      assert [] + DecideAll(g, b, packet, rng).operators == DecideAll(g, b, packet, rng).operators;
    } else {
      var v := DecideOne(g, a[0], packet, rng);
      assert (a + b)[1..] == a[1..] + b;
      if v.effect == Forward {
        Concatenation(g, a[1..], b, packet, v.rng);
      }
    }
  }

  /** A chain over a sequence of packets. */
  datatype Course = Course(operators: seq<Operator>, rng: Rng, effects: seq<Effect>)

  function RunFlow(g: Generator, operators: seq<Operator>, rng: Rng, packets: seq<Packet>): (c: Course)
    ensures |c.operators| == |operators| && |c.effects| == |packets|
  {
    if packets == [] then Course(operators, rng, [])
    else
      var before := RunFlow(g, operators, rng, packets[..|packets| - 1]);
      var d := DecideAll(g, before.operators, packets[|packets| - 1], before.rng);
      Course(d.operators, d.rng, before.effects + [d.effect])
  }

  /** Two chains over a sequence of packets, the second consulted only when the first forwards. */
  datatype Pair = Pair(first: seq<Operator>, second: seq<Operator>, rng: Rng, effects: seq<Effect>)

  function RunInTurn(g: Generator, a: seq<Operator>, b: seq<Operator>, rng: Rng, packets: seq<Packet>): (p: Pair) {
    if packets == [] then Pair(a, b, rng, [])
    else
      var n := |packets| - 1;
      var before := RunInTurn(g, a, b, rng, packets[..n]);
      var first := DecideAll(g, before.first, packets[n], before.rng);
      if first.effect != Forward then Pair(first.operators, before.second, first.rng, before.effects + [first.effect])
      else
        var second := DecideAll(g, before.second, packets[n], first.rng);
        Pair(first.operators, second.operators, second.rng, before.effects + [second.effect])
  }

  /** The concatenation law over any sequence of packets, for any operators. */
  lemma {:induction false} ConcatenationInTurn(
      g: Generator, a: seq<Operator>, b: seq<Operator>, rng: Rng, packets: seq<Packet>)
    ensures var p := RunInTurn(g, a, b, rng, packets);
            RunFlow(g, a + b, rng, packets) == Course(p.first + p.second, p.rng, p.effects)
    decreases |packets|
  {
    hide DecideAll;
    if packets != [] {
      var n := |packets| - 1;
      ConcatenationInTurn(g, a, b, rng, packets[..n]);
      var before := RunInTurn(g, a, b, rng, packets[..n]);
      Concatenation(g, before.first, before.second, packets[n], before.rng);
    }
  }

  /** The packets a chain forwarded. */
  function Passed(packets: seq<Packet>, effects: seq<Effect>): (passed: seq<Packet>)
    requires |packets| == |effects|
  {
    if packets == [] then []
    else
      var n := |packets| - 1;
      Passed(packets[..n], effects[..n]) + if effects[n] == Forward then [packets[n]] else []
  }

  /** The effects of a chain in two parts: the first part's, or the second's on what the first passed. */
  function Merged(first: seq<Effect>, second: seq<Effect>): (effects: seq<Effect>) {
    if first == [] then []
    else
      var n := |first| - 1;
      if first[n] != Forward then Merged(first[..n], second) + [first[n]]
      else if second == [] then Merged(first[..n], []) + [Forward]
      else Merged(first[..n], second[..|second| - 1]) + [second[|second| - 1]]
  }

  ghost predicate DrawNothing(operators: seq<Operator>) {
    forall i :: 0 <= i < |operators| ==> DrawsNothing(operators[i])
  }

  lemma {:induction false} DrawNothingKept(g: Generator, operators: seq<Operator>, packet: Packet, rng: Rng, rng': Rng)
    requires DrawNothing(operators)
    ensures var d := DecideAll(g, operators, packet, rng);
            && DrawNothing(d.operators) && d.rng == rng
            && DecideAll(g, operators, packet, rng') == Decision(d.operators, rng', d.effect)
    decreases |operators|
  {
    if operators != [] {
      DrawNothingKept(g, operators[1..], packet, rng, rng');
    }
  }

  /**
   * Over any sequence of packets, operators that draw nothing behind a chain A do not disturb A, and
   * see exactly the packets A forwards, as if they were alone.
   */
  lemma {:induction false} BehindSeesPassed(
      g: Generator, a: seq<Operator>, b: seq<Operator>, rng: Rng, packets: seq<Packet>)
    requires DrawNothing(b)
    ensures var first := RunFlow(g, a, rng, packets);
            var second := RunFlow(g, b, rng, Passed(packets, first.effects));
            && RunFlow(g, a + b, rng, packets) ==
               Course(first.operators + second.operators, first.rng, Merged(first.effects, second.effects))
            && DrawNothing(second.operators) && second.rng == rng
    decreases |packets|
  {
    if packets != [] {
      var n := |packets| - 1;
      BehindSeesPassed(g, a, b, rng, packets[..n]);
      BehindStep(g, a, b, rng, packets);
    }
  }

  lemma BehindStep(g: Generator, a: seq<Operator>, b: seq<Operator>, rng: Rng, packets: seq<Packet>)
    requires DrawNothing(b) && packets != []
    requires var shorter := packets[..|packets| - 1];
             var first := RunFlow(g, a, rng, shorter);
             var second := RunFlow(g, b, rng, Passed(shorter, first.effects));
             && RunFlow(g, a + b, rng, shorter) ==
                Course(first.operators + second.operators, first.rng, Merged(first.effects, second.effects))
             && DrawNothing(second.operators) && second.rng == rng
    ensures var first := RunFlow(g, a, rng, packets);
            var second := RunFlow(g, b, rng, Passed(packets, first.effects));
            && RunFlow(g, a + b, rng, packets) ==
               Course(first.operators + second.operators, first.rng, Merged(first.effects, second.effects))
            && DrawNothing(second.operators) && second.rng == rng
  {
    var n := |packets| - 1;
    var packet := packets[n];
    var first' := RunFlow(g, a, rng, packets[..n]);
    var passed' := Passed(packets[..n], first'.effects);
    var second' := RunFlow(g, b, rng, passed');
    var first := RunFlow(g, a, rng, packets);
    assert first.effects[..n] == first'.effects;
    Concatenation(g, first'.operators, second'.operators, packet, first'.rng);
    DrawNothingKept(g, second'.operators, packet, rng, first.rng);
    var passed := Passed(packets, first.effects);
    if first.effects[n] == Forward {
      assert passed == passed' + [packet];
      assert passed[..|passed| - 1] == passed';
      var second := RunFlow(g, b, rng, passed);
      assert second.effects[..|second.effects| - 1] == second'.effects;
    } else {
      assert passed == passed';
    }
  }

  function Arrivals(packets: seq<Packet>): (times: seq<nat>) {
    seq(|packets|, k requires 0 <= k < |packets| => packets[k].receivedAt)
  }

  /** Alone in a chain, the limiter forwards by its history of arrivals. */
  lemma {:induction false} LimiterAlone(g: Generator, capacity: nat, rng: Rng, packets: seq<Packet>)
    ensures var c := RunFlow(g, [Limiter(NewBucket(capacity))], rng, packets);
            && c.operators == [Limiter(After(BINARY64, capacity, Arrivals(packets), |packets|))]
            && forall k :: 0 <= k < |packets| ==>
                 c.effects[k] == if Forwarded(BINARY64, capacity, Arrivals(packets), k) then Forward else Drop
    decreases |packets|
  {
    hide RunFlow, After, Forwarded;
    if packets == [] {
      LimiterNoPackets(g, capacity, rng);
    } else {
      var n := |packets| - 1;
      LimiterAlone(g, capacity, rng, packets[..n]);
      var times, times' := Arrivals(packets), Arrivals(packets[..n]);
      forall k | 0 <= k < n
        ensures Forwarded(BINARY64, capacity, times', k) == Forwarded(BINARY64, capacity, times, k)
      {
        SameHistory(capacity, times', times, k);
      }
      SameHistory(capacity, times', times, n);
      LimiterNext(g, capacity, rng, packets);
    }
  }

  lemma LimiterNoPackets(g: Generator, capacity: nat, rng: Rng)
    ensures RunFlow(g, [Limiter(NewBucket(capacity))], rng, []).operators ==
            [Limiter(After(BINARY64, capacity, Arrivals([]), 0))]
  {
  }

  lemma LimiterNext(g: Generator, capacity: nat, rng: Rng, packets: seq<Packet>)
    requires packets != []
    requires var c := RunFlow(g, [Limiter(NewBucket(capacity))], rng, packets[..|packets| - 1]);
             c.operators == [Limiter(After(BINARY64, capacity, Arrivals(packets), |packets| - 1))]
    ensures var c' := RunFlow(g, [Limiter(NewBucket(capacity))], rng, packets[..|packets| - 1]);
            var c := RunFlow(g, [Limiter(NewBucket(capacity))], rng, packets);
            var n := |packets| - 1;
            && c.operators == [Limiter(After(BINARY64, capacity, Arrivals(packets), |packets|))]
            && c.effects == c'.effects + [if Forwarded(BINARY64, capacity, Arrivals(packets), n) then Forward else Drop]
  {
    hide DecideAll, DecideOnce;
    var n := |packets| - 1;
    var bucket := After(BINARY64, capacity, Arrivals(packets), n);
    DecideLimiter(g, bucket, packets[n], RunFlow(g, [Limiter(NewBucket(capacity))], rng, packets[..n]).rng);
    var decided := DecideOnce(BINARY64, bucket, packets[n].receivedAt);
    assert After(BINARY64, capacity, Arrivals(packets), n + 1) == decided.next;
    assert Forwarded(BINARY64, capacity, Arrivals(packets), n) <==> decided.effect == Forward;
  }

  lemma DecideLimiter(g: Generator, bucket: Bucket, packet: Packet, rng: Rng)
    ensures var decided := DecideOnce(BINARY64, bucket, packet.receivedAt);
            && DecideAll(g, [Limiter(bucket)], packet, rng) == Decision([Limiter(decided.next)], rng, decided.effect)
            && (decided.effect == Forward || decided.effect == Drop)
  {
    var alone := [Limiter(bucket)];
    assert alone[1..] == [];
  }

  lemma {:induction false} SameHistory(capacity: nat, a: seq<nat>, b: seq<nat>, k: nat)
    requires k <= |a| && k <= |b| && forall j :: 0 <= j < k ==> a[j] == b[j]
    ensures After(BINARY64, capacity, a, k) == After(BINARY64, capacity, b, k)
    ensures k < |a| && k < |b| && a[k] == b[k] ==>
              Forwarded(BINARY64, capacity, a, k) == Forwarded(BINARY64, capacity, b, k)
  {
    hide DecideOnce;
    if k > 0 {
      SameHistory(capacity, a, b, k - 1);
    }
  }

  /** Behind any chain, the limiter's verdicts are its history of the packets the chain forwarded. */
  lemma LimiterBehindChain(g: Generator, a: seq<Operator>, capacity: nat, rng: Rng, packets: seq<Packet>)
    ensures var first := RunFlow(g, a, rng, packets);
            var passed := Passed(packets, first.effects);
            var verdicts := seq(|passed|, k requires 0 <= k < |passed| =>
              if Forwarded(BINARY64, capacity, Arrivals(passed), k) then Forward else Drop);
            var whole := RunFlow(g, a + [Limiter(NewBucket(capacity))], rng, packets);
            whole.effects == Merged(first.effects, verdicts) && whole.rng == first.rng
  {
    hide RunFlow;
    var limiter := [Limiter(NewBucket(capacity))];
    var first := RunFlow(g, a, rng, packets);
    var passed := Passed(packets, first.effects);
    BehindSeesPassed(g, a, limiter, rng, packets);
    LimiterAlone(g, capacity, rng, passed);
    assert RunFlow(g, limiter, rng, passed).effects == seq(|passed|, k requires 0 <= k < |passed| =>
      if Forwarded(BINARY64, capacity, Arrivals(passed), k) then Forward else Drop);
  }

  /** How many of the first effects are Forward. */
  function ForwardCount(effects: seq<Effect>): (n: nat) {
    if effects == [] then 0
    else ForwardCount(effects[..|effects| - 1]) + if effects[|effects| - 1] == Forward then 1 else 0
  }

  /** Position by position: where the first part forwards, the next of the second part's effects. */
  lemma {:induction false} MergedAt(first: seq<Effect>, second: seq<Effect>, i: nat)
    requires i < |first| && |second| == ForwardCount(first)
    ensures |Merged(first, second)| == |first|
    ensures first[i] == Forward ==> ForwardCount(first[..i]) < |second|
    ensures Merged(first, second)[i] == if first[i] == Forward then second[ForwardCount(first[..i])] else first[i]
    decreases |first|
  {
    var n := |first| - 1;
    var second' := if first[n] == Forward then second[..|second| - 1] else second;
    if n > 0 {
      MergedAt(first[..n], second', if i < n then i else 0);
    }
    if i < n {
      assert first[..n][..i] == first[..i];
    }
  }
}
