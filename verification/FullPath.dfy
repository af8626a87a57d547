/** From publish calls through the transports to the handlers at the other end. */
module FullPath {
  import opened Types
  import opened CircuitBreaker
  import opened Sending
  import opened Codec
  import opened ProtocolAdapter
  import opened BridgeConfig
  import opened EndToEnd
  import Publish
  import PublishRuns
  import Inbound
  import InboundRuns

  /** A publish call and the configuration in force when it was made. */
  datatype Posting = Posting(call: Publish.Call, config: Config)

  function Calls(ps: seq<Posting>): seq<Publish.Call> {
    if ps == [] then [] else Calls(ps[..|ps| - 1]) + [ps[|ps| - 1].call]
  }

  function After(os: Publish.Oracles, ws: Publish.Wires, ps: seq<Posting>): Publish.Publisher {
    PublishRuns.Run(os, ws, Calls(ps))
  }

  lemma AfterOneMore(os: Publish.Oracles, ws: Publish.Wires, ps: seq<Posting>)
    requires ps != []
    ensures After(os, ws, ps) == Publish.Step(os, After(os, ws, ps[..|ps| - 1]), ps[|ps| - 1].call).state
  {
    var calls := Calls(ps);
    assert calls[..|calls| - 1] == Calls(ps[..|ps| - 1]);
  }

  // ---------------------------------------------------------------------------------------------
  // What a transport carries

  /** The transport accepted one of the sends made on it between two points. */
  ghost predicate AcceptedIn(o: Oracle, lo: nat, hi: nat) {
    exists n: nat :: lo <= n < hi && o.send(n) == Ok
  }

  /** This call's message went onto the transport of direction `d`. */
  ghost predicate TakenBy(os: Publish.Oracles, s: Publish.Publisher, c: Publish.Call, d: Direction) {
    AcceptedIn(Publish.OracleOf(os, d), Publish.WireOf(s.wires, d).sends,
               Publish.WireOf(Publish.Step(os, s, c).state.wires, d).sends)
  }

  /** The publishes whose message a transport accepted, in order. */
  ghost function Log(os: Publish.Oracles, ws: Publish.Wires, ps: seq<Posting>, d: Direction): seq<Posting> {
    if ps == [] then []
    else
      var init, p := ps[..|ps| - 1], ps[|ps| - 1];
      var before := Log(os, ws, init, d);
      if TakenBy(os, After(os, ws, init), p.call, d) then before + [p] else before
  }

  lemma {:induction false} AcceptedIffSuccesses(o: Oracle, lo: nat, hi: nat)
    requires lo <= hi
    ensures AcceptedIn(o, lo, hi) <==> Successes(o, lo, hi) > 0
    decreases hi
  {
    if lo < hi {
      AcceptedIffSuccesses(o, lo, hi - 1);
      if n: nat :| lo <= n < hi - 1 && o.send(n) == Ok {
        assert AcceptedIn(o, lo, hi);
      }
    }
  }

  /** A call that returns Ok put its message on exactly one transport, any other call on none. */
  lemma TakenOnce(os: Publish.Oracles, s: Publish.Publisher, c: Publish.Call)
    ensures One(TakenBy(os, s, c, VehicleToRobot)) + One(TakenBy(os, s, c, RobotToVehicle)) ==
            One(Publish.Step(os, s, c).ec == Ok)
  {
    PublishRuns.DeliversAtMostOnce(os, s, c);
    var ws := Publish.Step(os, s, c).state.wires;
    AcceptedIffSuccesses(os.v2r, s.wires.v2r.sends, ws.v2r.sends);
    AcceptedIffSuccesses(os.r2v, s.wires.r2v.sends, ws.r2v.sends);
  }

  lemma PrimaryWire(os: Publish.Oracles, s: Publish.Publisher, c: Publish.Call)
    requires c.transport.Some?
    ensures var d := c.transport.value;
            var out := SendWithBackpressure(Publish.OracleOf(os, d), Publish.WireOf(s.wires, d), c.policy);
            && Publish.WireOf(Publish.SendOut(os, s, c).state.wires, d) == out.wire
            && (AcceptedIn(Publish.OracleOf(os, d), Publish.WireOf(s.wires, d).sends, out.wire.sends) <==> out.ec == Ok)
  {
    var d := c.transport.value;
    var out := SendWithBackpressure(Publish.OracleOf(os, d), Publish.WireOf(s.wires, d), c.policy);
    SendsAtMostOnce(Publish.OracleOf(os, d), Publish.WireOf(s.wires, d), c.policy);
    AcceptedIffSuccesses(Publish.OracleOf(os, d), Publish.WireOf(s.wires, d).sends, out.wire.sends);
    if out.ec != Ok {
      PublishRuns.FailoverOnce(os, Publish.Sent(s, d, out), c, out.ec);
    }
  }

  /**
   * Which transport has it: the one the caller chose, unless failover rescued the message. Then it is the opposite
   * one, whose receiver is on the sender's own side.
   */
  lemma FailoverComesHome(os: Publish.Oracles, s: Publish.Publisher, c: Publish.Call)
    requires c.transport.Some?
    ensures var hits := Publish.Step(os, s, c).state.counts.failoverHits;
            TakenBy(os, s, c, Opposite(c.transport.value)) <==> hits == s.counts.failoverHits + 1
  {
    PublishRuns.StepCases(os, s, c);
    PublishRuns.StepCounts(os, s, c);
    TakenOnce(os, s, c);
    if PublishRuns.WasSent(s, c) {
      PrimaryWire(os, s.(buckets := Publish.Remember(s.buckets, c)), c);
      PublishRuns.SentOutcome(os, s, c);
    }
  }

  /** The two logs together hold as many messages as the bridge counted as sent. */
  lemma {:induction false} LogsHoldTx(os: Publish.Oracles, ws: Publish.Wires, ps: seq<Posting>)
    ensures |Log(os, ws, ps, VehicleToRobot)| + |Log(os, ws, ps, RobotToVehicle)| == After(os, ws, ps).counts.tx
  {
    if ps != [] {
      var init, c := ps[..|ps| - 1], ps[|ps| - 1].call;
      LogsHoldTx(os, ws, init);
      AfterOneMore(os, ws, ps);
      TakenOnce(os, After(os, ws, init), c);
      PublishRuns.StepCounts(os, After(os, ws, init), c);
    }
  }

  ghost predicate AllValid(log: seq<Posting>) {
    forall i :: 0 <= i < |log| ==> IsEnvelopeValid(log[i].call.e)
  }

  /** Only valid envelopes get onto a transport. */
  lemma {:induction false} LogIsValid(os: Publish.Oracles, ws: Publish.Wires, ps: seq<Posting>, d: Direction)
    ensures AllValid(Log(os, ws, ps, d))
  {
    if ps != [] {
      var init, c := ps[..|ps| - 1], ps[|ps| - 1].call;
      LogIsValid(os, ws, init, d);
      TakenOnce(os, After(os, ws, init), c);
      PublishRuns.DeliversAtMostOnce(os, After(os, ws, init), c);
    }
  }

  // ---------------------------------------------------------------------------------------------
  // What a receiver hears of it

  function Text(p: Posting): string {
    EncodeByProtocol(ResolveMode(p.config, p.call.e), p.call.e)
  }

  /** The receptions that brought a message; the rest are timeouts and errors. */
  function Heard(rs: seq<Inbound.Reception>): seq<Inbound.Reception> {
    if rs == [] then []
    else
      var before, r := Heard(rs[..|rs| - 1]), rs[|rs| - 1];
      if r.recvEc == Ok then before + [r] else before
  }

  /**
   * A transport that keeps order and neither changes nor repeats messages: reception `k` is message `taken[k]` of
   * the log. It may lose messages, as it does when the oldest is discarded to make room.
   */
  ghost predicate Transports(log: seq<Posting>, taken: seq<nat>, heard: seq<Inbound.Reception>) {
    && |heard| == |taken|
    && (forall i, k :: 0 <= i < k < |taken| ==> taken[i] < taken[k])
    && (forall k :: 0 <= k < |taken| ==>
          taken[k] < |log| && heard[k].recvEc == Ok && heard[k].text == Text(log[taken[k]]))
  }

  function Exchanges(log: seq<Posting>, taken: seq<nat>, heard: seq<Inbound.Reception>): (xs: seq<Exchange>)
    requires |heard| == |taken| && forall k :: 0 <= k < |taken| ==> taken[k] < |log|
    ensures |xs| == |heard|
    ensures forall k :: 0 <= k < |xs| ==> xs[k] == Exchange(log[taken[k]].config, log[taken[k]].call.e, heard[k])
  {
    seq(|heard|, k requires 0 <= k < |heard| => Exchange(log[taken[k]].config, log[taken[k]].call.e, heard[k]))
  }

  lemma {:induction false} ReceptionsOf(xs: seq<Exchange>, heard: seq<Inbound.Reception>)
    requires |xs| == |heard| && forall k :: 0 <= k < |xs| ==> xs[k].r == heard[k]
    ensures Receptions(xs) == heard
  {
    if xs != [] {
      var n := |xs| - 1;
      ReceptionsOf(xs[..n], heard[..n]);
      assert heard == heard[..n] + [heard[n]];
    }
  }

  lemma {:induction false} SilenceDeliversNothing(rs: seq<Inbound.Reception>)
    ensures InboundRuns.Deliveries(Heard(rs)) == InboundRuns.Deliveries(rs)
    ensures Inbound.Run(rs).rx == |Heard(rs)|
  {
    if rs != [] {
      var init := rs[..|rs| - 1];
      SilenceDeliversNothing(init);
      var before := Heard(init);
      assert (before + [rs[|rs| - 1]])[..|before|] == before;
    }
  }

  /**
   * Whatever was published in whatever order, under whatever configurations and with whatever retries and
   * failovers: the handlers at the end of a transport see, in order and once each, exactly the accepted messages
   * that arrived, were sent in legacy mode, came in time and were routable, whole but for the idempotency key.
   */
  lemma PublishedIsDelivered(
    os: Publish.Oracles, ws: Publish.Wires, ps: seq<Posting>, d: Direction, taken: seq<nat>, rs: seq<Inbound.Reception>)
    requires Transports(Log(os, ws, ps, d), taken, Heard(rs))
    ensures Inbound.Run(rs).routing.delivered == Expected(Exchanges(Log(os, ws, ps, d), taken, Heard(rs)))
  {
    var log := Log(os, ws, ps, d);
    var xs := Exchanges(log, taken, Heard(rs));
    LogIsValid(os, ws, ps, d);
    assert Faithful(xs);
    ReceptionsOf(xs, Heard(rs));
    DeliveriesAreExpected(xs);
    SilenceDeliversNothing(rs);
    InboundRuns.DeliveredInOrder(rs);
  }

  lemma {:induction false} IncreasingFits(taken: seq<nat>, n: nat)
    requires forall i, k :: 0 <= i < k < |taken| ==> taken[i] < taken[k]
    requires forall k :: 0 <= k < |taken| ==> taken[k] < n
    ensures |taken| <= n
  {
    if taken != [] {
      IncreasingFits(taken[..|taken| - 1], taken[|taken| - 1]);
    }
  }

  /**
   * Conservation from end to end: the two receivers together hear at most the messages the publisher counted as
   * sent, all of them exactly if neither transport lost one.
   */
  lemma HeardAtMostSent(
    os: Publish.Oracles, ws: Publish.Wires, ps: seq<Posting>,
    takenV: seq<nat>, rsV: seq<Inbound.Reception>, takenR: seq<nat>, rsR: seq<Inbound.Reception>)
    requires Transports(Log(os, ws, ps, VehicleToRobot), takenV, Heard(rsV))
    requires Transports(Log(os, ws, ps, RobotToVehicle), takenR, Heard(rsR))
    ensures var rx, tx := Inbound.Run(rsV).rx + Inbound.Run(rsR).rx, After(os, ws, ps).counts.tx;
            && rx <= tx
            && (rx == tx <==> |takenV| == |Log(os, ws, ps, VehicleToRobot)| &&
                              |takenR| == |Log(os, ws, ps, RobotToVehicle)|)
  {
    LogsHoldTx(os, ws, ps);
    SilenceDeliversNothing(rsV);
    SilenceDeliversNothing(rsR);
    IncreasingFits(takenV, |Log(os, ws, ps, VehicleToRobot)|);
    IncreasingFits(takenR, |Log(os, ws, ps, RobotToVehicle)|);
  }
}
