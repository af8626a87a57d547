/** From the sender's choice of protocol mode to the receiver's handlers. */
module EndToEnd {
  import opened Types
  import opened Codec
  import opened ProtocolAdapter
  import opened BridgeConfig
  import opened Inbound
  import opened InboundRuns

  /** The sender's mode: a locked policy and everything outside the canary are sent compact. */
  function ResolveMode(c: Config, e: Envelope): ProtocolMode {
    if c.table.defaultPolicy.lockPolicy then Compact
    else if c.protocolCanary.topicPrefix == "" then c.protocolMode
    else if !(c.protocolCanary.topicPrefix <= e.topic) then Compact
    else if (if e.timestampMs == 0 then 0 else e.timestampMs % 100) < c.protocolCanary.percent then c.protocolMode
    else Compact
  }

  /** A bridge configured for a mode uses it exactly for the unlocked messages its canary selects. */
  lemma ConfiguredModeIff(c: Config, e: Envelope)
    ensures var selected := c.protocolCanary.topicPrefix == "" ||
                            (c.protocolCanary.topicPrefix <= e.topic && e.timestampMs % 100 < c.protocolCanary.percent);
            ResolveMode(c, e) ==
              if selected && !c.table.defaultPolicy.lockPolicy then c.protocolMode else Compact
  {
  }

  /** A reception of what a bridge configured with `c` sends for `e`, unchanged on the way. */
  predicate Carries(r: Reception, c: Config, e: Envelope) {
    r.recvEc == Ok && r.text == EncodeByProtocol(ResolveMode(c, e), e)
  }

  /**
   * What a receiver in any mode does with a published message: schema 0 does not decode; a compact body arrives
   * without its endpoints and is refused as invalid; only the legacy format gets through, complete but for its key.
   */
  lemma PublishedThenReceived(s: Receiver, c: Config, e: Envelope, r: Reception)
    requires IsEnvelopeValid(e) && Carries(r, c, e)
    ensures var s1 := s.(rx := s.rx + 1);
            Inbound.Step(s, r) ==
            if e.schemaVersion == 0 then s1.(decodeFails := s.decodeFails + 1)
            else if ResolveMode(c, e) != LegacyPipe then s1.(invalidEnvelopes := s.invalidEnvelopes + 1)
            else Accept(s1, FullProjection(e), r)
    ensures Arrival(r) ==
            if e.schemaVersion >= 1 && ResolveMode(c, e) == LegacyPipe then Some(FullProjection(e)) else None
  {
    AllPairsInteroperate(ResolveMode(c, e), r.mode, e);
  }

  /** A reload does not update the receivers' mode; for messages of a bridge that makes no difference. */
  lemma StaleReceiverModeIsHarmless(s: Receiver, c: Config, e: Envelope, r: Reception, mode: ProtocolMode)
    requires Carries(r, c, e)
    ensures Inbound.Step(s, r.(mode := mode)) == Inbound.Step(s, r)
  {
    AllPairsInteroperate(ResolveMode(c, e), r.mode, e);
    AllPairsInteroperate(ResolveMode(c, e), mode, e);
    JudgeIgnoresMode(s.(rx := s.rx + 1), DecodeByProtocol(mode, r.text), r, mode);
  }

  lemma JudgeIgnoresMode(s: Receiver, decoded: Result<Envelope>, r: Reception, mode: ProtocolMode)
    ensures Judge(s, decoded, r.(mode := mode)) == Judge(s, decoded, r)
  {
  }

  // ---------------------------------------------------------------------------------------------
  // Whole conversations

  /** A valid message, the configuration it was sent under and how it was received. */
  datatype Exchange = Exchange(c: Config, e: Envelope, r: Reception)

  predicate Faithful(xs: seq<Exchange>) {
    forall i :: 0 <= i < |xs| ==> IsEnvelopeValid(xs[i].e) && Carries(xs[i].r, xs[i].c, xs[i].e)
  }

  function Receptions(xs: seq<Exchange>): seq<Reception> {
    if xs == [] then [] else Receptions(xs[..|xs| - 1]) + [xs[|xs| - 1].r]
  }

  predicate GetsThrough(x: Exchange) {
    && x.e.schemaVersion >= 1 && ResolveMode(x.c, x.e) == LegacyPipe
    && !TooLate(x.e, x.r.nowMs, x.r.maxLatencyMs) && x.r.route == RouteOk
  }

  /** The sent messages a handler should see, without their idempotency keys. */
  function Expected(xs: seq<Exchange>): seq<Envelope> {
    if xs == [] then []
    else
      var before, x := Expected(xs[..|xs| - 1]), xs[|xs| - 1];
      if GetsThrough(x) then before + [FullProjection(x.e)] else before
  }

  lemma {:induction false} DeliveriesAreExpected(xs: seq<Exchange>)
    requires Faithful(xs)
    ensures Deliveries(Receptions(xs)) == Expected(xs)
  {
    if xs != [] {
      var init, x := xs[..|xs| - 1], xs[|xs| - 1];
      DeliveriesAreExpected(init);
      PublishedThenReceived(FRESH_RECEIVER, x.c, x.e, x.r);
      assert Receptions(xs)[..|Receptions(init)|] == Receptions(init);
    }
  }

  /**
   * Over any conversation the handlers see exactly the legacy-mode, on-time, routable messages that were sent,
   * once each, in the order they were sent, with every field but the idempotency key.
   */
  lemma SentIsDelivered(xs: seq<Exchange>)
    requires Faithful(xs)
    ensures Inbound.Run(Receptions(xs)).routing.delivered == Expected(xs)
  {
    DeliveredInOrder(Receptions(xs));
    DeliveriesAreExpected(xs);
  }

  /** With a locked default policy, every decodable message is refused on arrival and none is ever delivered. */
  lemma {:induction false} LockedBridgeDeliversNothing(xs: seq<Exchange>)
    requires Faithful(xs)
    requires forall i :: 0 <= i < |xs| ==> xs[i].c.table.defaultPolicy.lockPolicy && xs[i].e.schemaVersion >= 1
    ensures var s := Inbound.Run(Receptions(xs)); s.invalidEnvelopes == s.rx == |xs| && s.routing.delivered == []
  {
    if xs != [] {
      var init, x := xs[..|xs| - 1], xs[|xs| - 1];
      LockedBridgeDeliversNothing(init);
      PublishedThenReceived(Inbound.Run(Receptions(init)), x.c, x.e, x.r);
      assert Receptions(xs)[..|Receptions(init)|] == Receptions(init);
    }
  }
}
