/** The publish path of the bridge: gates, idempotency window, sending, failover and accounting. */
module Publish {
  import opened Types
  import opened Decimal
  import opened CircuitBreaker
  import opened Sending
  import opened SlidingWindow
  import opened Tallies

  // ---------------------------------------------------------------------------------------------
  // Idempotency keys

  function FallbackKey(e: Envelope): string {
    e.topic + "|" + e.source + "|" + ToDecimal(e.sequence)
  }

  function IdempotencyKey(e: Envelope): string {
    if e.idempotencyKey == "" then FallbackKey(e) else e.idempotencyKey
  }

  lemma NoBarInDigits(a: string, x: string, i: nat)
    requires AllDigits(x) && |a| < i < |a| + 1 + |x|
    ensures (a + "|" + x)[i] != '|'
  {
    assert (a + "|" + x)[i] == x[i - |a| - 1];
    assert IsDigit(x[i - |a| - 1]);
  }

  /** Digits hold no '|', so the last '|' separates them from whatever comes before. */
  lemma LastBarSplits(a: string, b: string, x: string, y: string)
    requires AllDigits(x) && AllDigits(y) && a + "|" + x == b + "|" + y
    ensures a == b && x == y
  {
    var s := a + "|" + x;
    assert s[|a|] == '|' && s[|b|] == '|';
    if |a| < |b| {
      NoBarInDigits(a, x, |b|);
    } else if |b| < |a| {
      NoBarInDigits(b, y, |a|);
    } else {
      assert a == s[..|a|] && b == s[..|a|];
      assert x == s[|a| + 1..] && y == s[|a| + 1..];
    }
  }

  /** Within one topic two fallback keys coincide exactly when source and sequence do. */
  lemma FallbackKeyIsExact(e: Envelope, f: Envelope)
    requires e.topic == f.topic
    ensures FallbackKey(e) == FallbackKey(f) <==> e.source == f.source && e.sequence == f.sequence
  {
    if FallbackKey(e) == FallbackKey(f) {
      var a, b := e.topic + "|" + e.source, f.topic + "|" + f.source;
      LastBarSplits(a, b, ToDecimal(e.sequence), ToDecimal(f.sequence));
      DecimalInjective(e.sequence, f.sequence);
      var n := |e.topic| + 1;
      assert a[n..] == e.source && b[n..] == f.source;
    }
  }

  // ---------------------------------------------------------------------------------------------
  // One publish call

  type Buckets = map<string, seq<string>>

  datatype Wires = Wires(v2r: Wire, r2v: Wire)

  datatype Oracles = Oracles(v2r: Oracle, r2v: Oracle)

  function WireOf(ws: Wires, d: Direction): Wire {
    if d.VehicleToRobot? then ws.v2r else ws.r2v
  }

  function SetWire(ws: Wires, d: Direction, w: Wire): Wires {
    if d.VehicleToRobot? then ws.(v2r := w) else ws.(r2v := w)
  }

  function OracleOf(os: Oracles, d: Direction): Oracle {
    if d.VehicleToRobot? then os.v2r else os.r2v
  }

  datatype PublishCounts = PublishCounts(
    tx: nat,
    txFail: nat,
    invalidEnvelopes: nat,
    idempotencyDrops: nat,
    encodeFails: nat,
    backpressureDrops: nat,
    failoverHits: nat,
    transportErrors: nat)

  const NOTHING_PUBLISHED: PublishCounts := PublishCounts(0, 0, 0, 0, 0, 0, 0, 0)

  datatype Publisher = Publisher(
    wires: Wires,
    buckets: Buckets,
    breaker: Breaker,
    counts: PublishCounts,
    sentBy: PerKey)

  function FreshPublisher(ws: Wires): Publisher {
    Publisher(ws, map[], CLOSED, NOTHING_PUBLISHED, NO_KEYS)
  }

  /**
   * A call with everything it takes from outside: the running flag, the transport (`None` is a null pointer), the
   * authenticator's and the canary gate's verdicts, the configuration in force, the encoder's result, the resolved
   * policy and whether a flow slot was granted.
   */
  datatype Call = Call(
    running: bool,
    transport: Option<Direction>,
    e: Envelope,
    authentic: bool,
    canaryPass: bool,
    idempotencyTopics: seq<string>,
    window: Uint32,
    encodeEc: ErrorCode,
    policy: SlaPolicy,
    slotGranted: bool,
    failoverV2r: bool,
    failoverR2v: bool)

  function Limit(window: Uint32): (n: nat)
    ensures n >= 1 && n >= window && (n == 1 || n == window)
  {
    if window < 1 then 1 else window
  }

  function BucketAt(buckets: Buckets, topic: string): seq<string> {
    if topic in buckets then buckets[topic] else []
  }

  /** The call gets past the validity, authentication and canary gates. */
  predicate Admitted(c: Call) {
    c.running && c.transport.Some? && IsEnvelopeValid(c.e) && c.authentic && c.canaryPass
  }

  predicate Deduplicated(c: Call) {
    Admitted(c) && c.e.topic in c.idempotencyTopics
  }

  predicate IsDuplicate(buckets: Buckets, c: Call) {
    Deduplicated(c) && IdempotencyKey(c.e) in BucketAt(buckets, c.e.topic)
  }

  function Remember(buckets: Buckets, c: Call): Buckets {
    if !Deduplicated(c) then buckets
    else buckets[c.e.topic := Offer(BucketAt(buckets, c.e.topic), IdempotencyKey(c.e), Limit(c.window))]
  }

  datatype Published = Published(state: Publisher, ec: ErrorCode)

  function Refuse(s: Publisher, ec: ErrorCode): Published {
    Published(s.(counts := s.counts.(txFail := s.counts.txFail + 1)), ec)
  }

  /** The state after a message went through `SendWithBackpressure` on one transport. */
  function Sent(s: Publisher, d: Direction, out: Outcome): Publisher {
    s.(wires := SetWire(s.wires, d, out.wire),
       counts := s.counts.(backpressureDrops := s.counts.backpressureDrops + out.drops))
  }

  function Rescued(c: PublishCounts): PublishCounts {
    c.(failoverHits := c.failoverHits + 1, tx := c.tx + 1)
  }

  function Lost(c: PublishCounts): PublishCounts {
    c.(transportErrors := c.transportErrors + 1, txFail := c.txFail + 1)
  }

  function AfterFailover(s: Publisher, target: Direction, out: Outcome, primaryEc: ErrorCode): Published {
    var sent := Sent(s, target, out);
    if out.ec == Ok then Published(sent.(counts := Rescued(sent.counts)), Ok)
    else Published(sent.(counts := Lost(sent.counts)), primaryEc)
  }

  function Failover(os: Oracles, s: Publisher, c: Call, primaryEc: ErrorCode): Published
    requires c.transport.Some?
  {
    var failed := s.(breaker := OnFailure(s.breaker, DEFAULT_THRESHOLDS));
    var target := FailoverTarget(c.transport.value, c.failoverV2r, c.failoverR2v);
    if target.None? then Published(failed.(counts := Lost(s.counts)), primaryEc)
    else
      AfterFailover(failed, target.value,
                    SendWithBackpressure(OracleOf(os, target.value), WireOf(s.wires, target.value), c.policy),
                    primaryEc)
  }

  function Delivered(s: Publisher, c: Call): Published {
    Published(s.(breaker := OnSuccess(s.breaker, DEFAULT_THRESHOLDS), counts := s.counts.(tx := s.counts.tx + 1),
              sentBy := BumpAll(s.sentBy, c.e)), Ok)
  }

  function AfterPrimary(os: Oracles, s: Publisher, c: Call, out: Outcome): Published
    requires c.transport.Some?
  {
    var sent := Sent(s, c.transport.value, out);
    if out.ec == Ok then Delivered(sent, c) else Failover(os, sent, c, out.ec)
  }

  function SendOut(os: Oracles, s: Publisher, c: Call): Published
    requires c.transport.Some?
  {
    var d := c.transport.value;
    AfterPrimary(os, s, c, SendWithBackpressure(OracleOf(os, d), WireOf(s.wires, d), c.policy))
  }

  function Step(os: Oracles, s: Publisher, c: Call): Published {
    if !c.running || c.transport.None? then Refuse(s, ThreadStartFailed)
    else if !IsEnvelopeValid(c.e) || !c.authentic then
      Refuse(s.(counts := s.counts.(invalidEnvelopes := s.counts.invalidEnvelopes + 1)), InterconnectInvalidEnvelope)
    else if !c.canaryPass then Refuse(s, WouldBlock)
    else StepAdmitted(os, s, c)
  }

  function StepAdmitted(os: Oracles, s: Publisher, c: Call): Published
    requires c.transport.Some?
  {
    var s1, k := s.(buckets := Remember(s.buckets, c)), s.counts;
    if IsDuplicate(s.buckets, c) then Refuse(s1.(counts := k.(idempotencyDrops := k.idempotencyDrops + 1)), WouldBlock)
    else if c.encodeEc != Ok then Refuse(s1.(counts := k.(encodeFails := k.encodeFails + 1)), c.encodeEc)
    else if !c.slotGranted then
      Refuse(s1.(counts := k.(backpressureDrops := k.backpressureDrops + 1)), WouldBlock)
    else SendOut(os, s1, c)
  }

  // ---------------------------------------------------------------------------------------------
  // The object that runs it

  class PublishPath {
    const oracles: Oracles
    const orchestrator: TransportOrchestrator
    var wires: Wires
    var buckets: Buckets
    var txCount: nat
    var txFailCount: nat
    var invalidEnvelopeCount: nat
    var idempotencyDropCount: nat
    var encodeFailCount: nat
    var backpressureDropCount: nat
    var failoverHitCount: nat
    var transportErrorCount: nat
    var sentBy: PerKey

    /** The bridge never changes the orchestrator's policy. */
    ghost predicate Valid()
      reads orchestrator`thresholds
    {
      orchestrator.thresholds == DEFAULT_THRESHOLDS
    }

    ghost function State(): Publisher
      reads this, orchestrator`failStreak, orchestrator`successStreak, orchestrator`circuitOpen
    {
      Publisher(wires, buckets, orchestrator.State(), CountsNow(), sentBy)
    }

    ghost function CountsNow(): PublishCounts
      reads `txCount, `txFailCount, `invalidEnvelopeCount, `idempotencyDropCount, `encodeFailCount,
            `backpressureDropCount, `failoverHitCount, `transportErrorCount
    {
      PublishCounts(txCount, txFailCount, invalidEnvelopeCount, idempotencyDropCount, encodeFailCount,
             backpressureDropCount, failoverHitCount, transportErrorCount)
    }

    constructor (oracles: Oracles, ws: Wires)
      ensures Valid() && fresh(orchestrator) && State() == FreshPublisher(ws) && this.oracles == oracles
    {
      this.oracles := oracles;
      orchestrator := new TransportOrchestrator();
      wires, buckets := ws, map[];
      txCount, txFailCount, invalidEnvelopeCount, idempotencyDropCount := 0, 0, 0, 0;
      encodeFailCount, backpressureDropCount, failoverHitCount, transportErrorCount := 0, 0, 0, 0;
      sentBy := NO_KEYS;
    }

    method SendOnce(d: Direction) returns (ec: ErrorCode)
      modifies `wires
      ensures ec == OracleOf(oracles, d).send(WireOf(old(wires), d).sends)
      ensures wires == SetWire(old(wires), d, WireOf(old(wires), d).(sends := WireOf(old(wires), d).sends + 1))
    {
      var w := WireOf(wires, d);
      ec := OracleOf(oracles, d).send(w.sends);
      wires := SetWire(wires, d, w.(sends := w.sends + 1));
    }

    /** Retries while the transport would block; `pauses` lists the milliseconds slept between attempts. */
    method RetryOnWouldBlock(d: Direction, budget: RetryBudget) returns (ec: ErrorCode, pauses: seq<int>)
      modifies `wires
      ensures budget.maxRetries < 0 || budget.initialBackoffMs <= 0 || budget.maxBackoffMs < budget.initialBackoffMs ==>
                ec == InvalidParam && wires == old(wires) && pauses == []
      ensures RetryAllowed(budget) ==>
                var r := RetrySends(OracleOf(oracles, d), WireOf(old(wires), d).sends, budget.maxRetries + 1);
                ec == r.ec && wires == SetWire(old(wires), d, WireOf(old(wires), d).(sends := r.sends))
      ensures WireOf(old(wires), d).sends <= WireOf(wires, d).sends
      ensures |pauses| == Blocked(OracleOf(oracles, d), WireOf(old(wires), d).sends, WireOf(wires, d).sends)
      ensures forall k :: 0 <= k < |pauses| ==> pauses[k] == Backoff(budget, k)
    {
      pauses := [];
      if budget.maxRetries < 0 || budget.initialBackoffMs <= 0 || budget.maxBackoffMs < budget.initialBackoffMs {
        return InvalidParam, pauses;
      }
      ghost var o, w0 := OracleOf(oracles, d), WireOf(wires, d);
      var backoffMs := budget.initialBackoffMs;
      BackoffDoubles(budget, 0);
      var attempt := 0;
      while attempt <= budget.maxRetries
        invariant 0 <= attempt <= budget.maxRetries + 1
        invariant wires == SetWire(old(wires), d, w0.(sends := w0.sends + attempt))
        invariant |pauses| == attempt == Blocked(o, w0.sends, w0.sends + attempt)
        invariant backoffMs == Backoff(budget, attempt)
        invariant forall k :: 0 <= k < |pauses| ==> pauses[k] == Backoff(budget, k)
        invariant RetrySends(o, w0.sends, budget.maxRetries + 1) ==
                  RetrySends(o, w0.sends + attempt, budget.maxRetries + 1 - attempt)
      {
        ec := SendOnce(d);
        if ec != WouldBlock {
          return;
        }
        pauses := pauses + [backoffMs];
        BackoffDoubles(budget, attempt);
        backoffMs := Min(backoffMs * 2, budget.maxBackoffMs);
        attempt := attempt + 1;
      }
      ec := Timeout;
    }

    method PublishWithBackpressure(d: Direction, policy: SlaPolicy) returns (ec: ErrorCode)
      modifies `wires, `backpressureDropCount
      ensures var out := SendWithBackpressure(OracleOf(oracles, d), WireOf(old(wires), d), policy);
              && ec == out.ec && wires == SetWire(old(wires), d, out.wire)
              && backpressureDropCount == old(backpressureDropCount) + out.drops
    {
      ec := SendOnce(d);
      if ec == Ok || policy.drop == DropNew {
        return;
      }
      ec := DropOldestAndResend(d, policy, ec);
      if policy.retry.maxRetries > 0 && policy.retry.initialBackoffMs > 0 &&
         policy.retry.maxBackoffMs >= policy.retry.initialBackoffMs && ec == WouldBlock {
        var pauses;
        ec, pauses := RetryOnWouldBlock(d, policy.retry);
      }
    }

    method DropOldestAndResend(d: Direction, policy: SlaPolicy, sendEc: ErrorCode) returns (ec: ErrorCode)
      modifies `wires, `backpressureDropCount
      ensures var out := DiscardAndResend(OracleOf(oracles, d), WireOf(old(wires), d), policy, sendEc);
              && ec == out.ec && wires == SetWire(old(wires), d, out.wire)
              && backpressureDropCount == old(backpressureDropCount) + out.drops
    {
      ec := sendEc;
      if policy.drop == DropOldest || policy.backpressure == DropOldestFirst {
        if ec == Timeout || ec == ThreadQueueFull || ec == WouldBlock {
          var o, w := OracleOf(oracles, d), WireOf(wires, d);
          if o.canDiscard {
            wires := SetWire(wires, d, w.(discards := w.discards + 1));
            if o.discard(w.discards) == Ok {
              backpressureDropCount := backpressureDropCount + 1;
              ec := SendOnce(d);
            }
          }
        }
      }
    }

    /** Looks the key up in its topic's bucket and, if it is new, remembers it and trims the bucket. */
    method IsDuplicateWithinWindow(e: Envelope, window: Uint32) returns (duplicate: bool)
      modifies `buckets
      ensures duplicate <==> IdempotencyKey(e) in BucketAt(old(buckets), e.topic)
      ensures var bucket := BucketAt(old(buckets), e.topic);
              buckets == old(buckets)[e.topic := Offer(bucket, IdempotencyKey(e), Limit(window))]
    {
      var key := IdempotencyKey(e);
      var bucket := BucketAt(buckets, e.topic);
      for i := 0 to |bucket|
        invariant key !in bucket[..i]
      {
        if bucket[i] == key {
          buckets := buckets[e.topic := bucket];
          return true;
        }
      }
      assert bucket[..|bucket|] == bucket;
      var grown := bucket + [key];
      bucket := grown;
      while |bucket| > Limit(window)
        invariant |bucket| <= |grown| && bucket == grown[|grown| - |bucket|..]
        invariant |bucket| >= |LastOf(grown, Limit(window))|
      {
        bucket := bucket[1..];
      }
      buckets := buckets[e.topic := bucket];
      return false;
    }

    method Publish(c: Call) returns (ec: ErrorCode)
      requires Valid()
      modifies this, orchestrator
      ensures Valid()
      ensures State() == Step(oracles, old(State()), c).state
      ensures ec == Step(oracles, old(State()), c).ec
    {
      if !c.running || c.transport.None? {
        txFailCount := txFailCount + 1;
        return ThreadStartFailed;
      }
      if !IsEnvelopeValid(c.e) || !c.authentic {
        invalidEnvelopeCount := invalidEnvelopeCount + 1;
        txFailCount := txFailCount + 1;
        return InterconnectInvalidEnvelope;
      }
      if !c.canaryPass {
        txFailCount := txFailCount + 1;
        return WouldBlock;
      }
      ec := PublishAdmitted(c);
    }

    method PublishAdmitted(c: Call) returns (ec: ErrorCode)
      requires Valid() && Admitted(c)
      modifies this, orchestrator`failStreak, orchestrator`successStreak, orchestrator`circuitOpen
      ensures State() == StepAdmitted(oracles, old(State()), c).state
      ensures ec == StepAdmitted(oracles, old(State()), c).ec
    {
      var duplicate := DropAsDuplicate(c);
      if duplicate {
        txFailCount := txFailCount + 1;
        idempotencyDropCount := idempotencyDropCount + 1;
        return WouldBlock;
      }
      if c.encodeEc != Ok {
        txFailCount := txFailCount + 1;
        encodeFailCount := encodeFailCount + 1;
        return c.encodeEc;
      }
      if !c.slotGranted {
        txFailCount := txFailCount + 1;
        backpressureDropCount := backpressureDropCount + 1;
        return WouldBlock;
      }
      ec := SendAndAccount(c);
    }

    method DropAsDuplicate(c: Call) returns (duplicate: bool)
      requires Admitted(c)
      modifies `buckets
      ensures duplicate == IsDuplicate(old(buckets), c)
      ensures buckets == Remember(old(buckets), c)
    {
      duplicate := false;
      if c.e.topic in c.idempotencyTopics {
        duplicate := IsDuplicateWithinWindow(c.e, c.window);
      }
    }

    method SendAndAccount(c: Call) returns (ec: ErrorCode)
      requires Valid() && c.transport.Some?
      modifies `wires, `backpressureDropCount, `txCount, `txFailCount, `failoverHitCount,
               `transportErrorCount, `sentBy,
               orchestrator`failStreak, orchestrator`successStreak, orchestrator`circuitOpen
      ensures State() == SendOut(oracles, old(State()), c).state
      ensures ec == SendOut(oracles, old(State()), c).ec
    {
      ghost var before := State();
      ghost var d := c.transport.value;
      ghost var out := SendWithBackpressure(OracleOf(oracles, d), WireOf(wires, d), c.policy);
      ec := PublishWithBackpressure(c.transport.value, c.policy);
      assert State() == Sent(before, c.transport.value, out);
      if ec != Ok {
        ec := TryFailover(c, ec);
      } else {
        CountDelivery(c);
      }
    }

    method CountDelivery(c: Call)
      requires Valid()
      modifies `txCount, `sentBy,
               orchestrator`failStreak, orchestrator`successStreak, orchestrator`circuitOpen
      ensures State() == Delivered(old(State()), c).state
    {
      orchestrator.OnPrimarySendSuccess();
      txCount := txCount + 1;
      sentBy := BumpAll(sentBy, c.e);
    }

    method CountFailoverHit()
      modifies `txCount, `failoverHitCount
      ensures CountsNow() == Rescued(old(CountsNow()))
    {
      failoverHitCount := failoverHitCount + 1;
      txCount := txCount + 1;
    }

    method CountTransportError()
      modifies `txFailCount, `transportErrorCount
      ensures CountsNow() == Lost(old(CountsNow()))
    {
      txFailCount := txFailCount + 1;
      transportErrorCount := transportErrorCount + 1;
    }

    method TryFailover(c: Call, sendEc: ErrorCode) returns (ec: ErrorCode)
      requires Valid() && c.transport.Some?
      modifies `wires, `backpressureDropCount, `txCount, `txFailCount, `failoverHitCount, `transportErrorCount,
               orchestrator`failStreak, orchestrator`successStreak, orchestrator`circuitOpen
      ensures State() == Failover(oracles, old(State()), c, sendEc).state
      ensures ec == Failover(oracles, old(State()), c, sendEc).ec
    {
      ghost var before := State();
      orchestrator.OnPrimarySendFailure();
      ghost var failed := State();
      assert failed == before.(breaker := OnFailure(before.breaker, DEFAULT_THRESHOLDS));
      var target := orchestrator.ResolveFailover(c.transport.value, c.failoverV2r, c.failoverR2v);
      if target.None? {
        CountTransportError();
        assert State() == failed.(counts := Lost(before.counts));
        return sendEc;
      }
      ec := SendBackup(target.value, c.policy, sendEc);
    }

    method SendBackup(target: Direction, policy: SlaPolicy, sendEc: ErrorCode) returns (ec: ErrorCode)
      modifies `wires, `backpressureDropCount, `txCount, `txFailCount, `failoverHitCount, `transportErrorCount
      ensures var out := SendWithBackpressure(OracleOf(oracles, target), WireOf(old(wires), target), policy);
              var r := AfterFailover(old(State()), target, out, sendEc);
              State() == r.state && ec == r.ec
    {
      ghost var before := State();
      ghost var out := SendWithBackpressure(OracleOf(oracles, target), WireOf(wires, target), policy);
      var failoverEc := PublishWithBackpressure(target, policy);
      assert State() == Sent(before, target, out);
      if failoverEc == Ok {
        CountFailoverHit();
        return Ok;
      }
      CountTransportError();
      return sendEc;
    }
  }
}
