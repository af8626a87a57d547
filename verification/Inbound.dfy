/** The receive loop of the bridge: decoding, gates, the trace index, expiry, routing and accounting. */
module Inbound {
  import opened Types
  import opened ProtocolAdapter
  import opened SlidingWindow
  import opened Tallies

  const MAX_TRACES: nat := 1024

  // ---------------------------------------------------------------------------------------------
  // Expiry

  function EffectiveTtl(e: Envelope, maxLatencyMs: Uint32): Uint32 {
    if e.ttlMs == 0 then maxLatencyMs else if e.ttlMs <= maxLatencyMs then e.ttlMs else maxLatencyMs
  }

  predicate IsExpired(e: Envelope, nowMs: Uint64, maxLatencyMs: Uint32) {
    var ttl := EffectiveTtl(e, maxLatencyMs);
    ttl != 0 && nowMs >= e.timestampMs && nowMs - e.timestampMs > ttl
  }

  // ---------------------------------------------------------------------------------------------
  // The trace index

  datatype TraceIndex = TraceIndex(order: seq<string>, lastSeen: map<string, Uint64>)

  /** Evicts the first-inserted ids until the index fits. */
  function Trim(t: TraceIndex): TraceIndex
    decreases |t.order|
  {
    if |t.order| <= MAX_TRACES then t else Trim(TraceIndex(t.order[1..], t.lastSeen - {t.order[0]}))
  }

  function Note(t: TraceIndex, id: string, nowMs: Uint64): TraceIndex {
    var seen := t.lastSeen[id := nowMs];
    Trim(if id in t.lastSeen then TraceIndex(t.order, seen) else TraceIndex(t.order + [id], seen))
  }

  ghost predicate TraceOk(t: TraceIndex) {
    InStep(t.order, t.lastSeen) && |t.order| <= MAX_TRACES
  }

  /** The deque and the map hold the same ids. */
  ghost predicate InStep(order: seq<string>, seen: map<string, Uint64>) {
    Distinct(order) && forall id :: id in seen <==> id in order
  }

  lemma GrowsInStep(order: seq<string>, seen: map<string, Uint64>, id: string, nowMs: Uint64)
    requires InStep(order, seen) && id !in seen
    ensures InStep(order + [id], seen[id := nowMs])
  {
    assert forall i :: 0 <= i < |order| ==> order[i] in order;
  }

  lemma ShrinksInStep(order: seq<string>, seen: map<string, Uint64>)
    requires InStep(order, seen) && order != []
    ensures InStep(order[1..], seen - {order[0]})
  {
    assert order == [order[0]] + order[1..];
  }

  /** A known id only refreshes its time; a new one enters at the back and pushes out at most the oldest. */
  lemma NoteIsOffer(t: TraceIndex, id: string, nowMs: Uint64)
    requires TraceOk(t)
    ensures var t' := Note(t, id, nowMs);
            && TraceOk(t') && t'.order == Offer(t.order, id, MAX_TRACES)
            && id in t'.lastSeen && t'.lastSeen[id] == nowMs
            && forall k :: k in t'.lastSeen && k != id ==> k in t.lastSeen && t'.lastSeen[k] == t.lastSeen[k]
  {
    if id !in t.lastSeen {
      var grown, seen := t.order + [id], t.lastSeen[id := nowMs];
      assert InStep(t.order, t.lastSeen);
      GrowsInStep(t.order, t.lastSeen, id, nowMs);
      if |grown| > MAX_TRACES {
        ShrinksInStep(grown, seen);
        assert Trim(TraceIndex(grown, seen)) == TraceIndex(grown[1..], seen - {grown[0]});
        assert id == grown[1..][|t.order| - 1] && id in grown[1..];
      }
    }
  }

  // ---------------------------------------------------------------------------------------------
  // One iteration of the loop

  datatype RouteResult = RouteOk | NoHandler | HandlerError

  /** What one iteration gets from outside: the transport's answer, the clock, the resolved policy and the router. */
  datatype Reception = Reception(
    recvEc: ErrorCode,
    text: string,
    mode: ProtocolMode,
    traceNowMs: Uint64,
    maxLatencyMs: Uint32,
    nowMs: Uint64,
    route: RouteResult)

  /** The trace counters beside the trace index. */
  datatype Tracing = Tracing(present: nat, missing: nat, hits: nat, misses: nat, linked: nat, index: TraceIndex)

  /** What became of the messages that passed the gates. */
  datatype Routing = Routing(
    expired: nat,
    expiredBy: PerKey,
    routeMisses: nat,
    handlerErrors: nat,
    delivered: seq<Envelope>)

  datatype Receiver = Receiver(
    rx: nat,
    transportErrors: nat,
    decodeFails: nat,
    invalidEnvelopes: nat,
    rxBy: PerKey,
    tracing: Tracing,
    routing: Routing)

  const FRESH_RECEIVER: Receiver :=
    Receiver(0, 0, 0, 0, NO_KEYS, Tracing(0, 0, 0, 0, 0, TraceIndex([], map[])), Routing(0, NO_KEYS, 0, 0, []))

  function Traced(t: Tracing, e: Envelope, nowMs: Uint64): Tracing {
    if e.traceId == "" then t.(missing := t.missing + 1)
    else if e.traceId in t.index.lastSeen then
      Tracing(t.present + 1, t.missing, t.hits + 1, t.misses, t.linked + 1, Note(t.index, e.traceId, nowMs))
    else
      Tracing(t.present + 1, t.missing, t.hits, t.misses + 1, t.linked + 1, Note(t.index, e.traceId, nowMs))
  }

  function Routed(s: Routing, e: Envelope, r: Reception): Routing {
    if IsExpired(e, r.nowMs, r.maxLatencyMs) then s.(expired := s.expired + 1, expiredBy := BumpAll(s.expiredBy, e))
    else match r.route
      case RouteOk => s.(delivered := s.delivered + [e])
      case NoHandler => s.(routeMisses := s.routeMisses + 1)
      case HandlerError => s.(handlerErrors := s.handlerErrors + 1)
  }

  function Accept(s: Receiver, e: Envelope, r: Reception): Receiver {
    s.(rxBy := BumpAll(s.rxBy, e), tracing := Traced(s.tracing, e, r.traceNowMs), routing := Routed(s.routing, e, r))
  }

  function Judge(s: Receiver, decoded: Result<Envelope>, r: Reception): Receiver {
    if decoded.Failure? then s.(decodeFails := s.decodeFails + 1)
    else if !IsEnvelopeValid(decoded.value) then s.(invalidEnvelopes := s.invalidEnvelopes + 1)
    else Accept(s, decoded.value, r)
  }

  function Step(s: Receiver, r: Reception): Receiver {
    if r.recvEc == Timeout || r.recvEc == WouldBlock then s
    else if r.recvEc != Ok then s.(transportErrors := s.transportErrors + 1)
    else Judge(s.(rx := s.rx + 1), DecodeByProtocol(r.mode, r.text), r)
  }

  function RunFrom(s: Receiver, rs: seq<Reception>): Receiver {
    if rs == [] then s else Step(RunFrom(s, rs[..|rs| - 1]), rs[|rs| - 1])
  }

  function Run(rs: seq<Reception>): Receiver {
    RunFrom(FRESH_RECEIVER, rs)
  }

  /** A loop that continues where another stopped: what holds of every run holds across restarts. */
  lemma {:induction false} RunsJoin(s: Receiver, rs: seq<Reception>, more: seq<Reception>)
    ensures RunFrom(RunFrom(s, rs), more) == RunFrom(s, rs + more)
  {
    if more == [] {
      assert rs + more == rs;
    } else {
      var n := |more| - 1;
      assert (rs + more)[..|rs| + n] == rs + more[..n];
      RunsJoin(s, rs, more[..n]);
    }
  }

  // ---------------------------------------------------------------------------------------------
  // The object that runs it

  /** The member initializers of `MessageEnvelope`. */
  const BLANK_ENVELOPE: Envelope := Envelope(1, Event, BestEffort, 0, 0, 1000, "", "", "", "", "", "")

  class InboundLoop {
    var rxCount: nat
    var transportErrorCount: nat
    var decodeFailCount: nat
    var invalidEnvelopeCount: nat
    var rxBy: PerKey
    var traceIdPresentCount: nat
    var traceIdMissingCount: nat
    var traceIndexHitCount: nat
    var traceIndexMissCount: nat
    var traceLinkedEventCount: nat
    var insertOrder: seq<string>
    var lastSeenMs: map<string, Uint64>
    var expiredDropCount: nat
    var expiredBy: PerKey
    var routeMissCount: nat
    var handlerErrorCount: nat
    var delivered: seq<Envelope>

    ghost function TracingState(): Tracing
      reads `traceIdPresentCount, `traceIdMissingCount, `traceIndexHitCount, `traceIndexMissCount,
            `traceLinkedEventCount, `insertOrder, `lastSeenMs
    {
      Tracing(traceIdPresentCount, traceIdMissingCount, traceIndexHitCount, traceIndexMissCount,
              traceLinkedEventCount, TraceIndex(insertOrder, lastSeenMs))
    }

    ghost function RoutingState(): Routing
      reads `expiredDropCount, `expiredBy, `routeMissCount, `handlerErrorCount, `delivered
    {
      Routing(expiredDropCount, expiredBy, routeMissCount, handlerErrorCount, delivered)
    }

    ghost function State(): Receiver
      reads this
    {
      Receiver(rxCount, transportErrorCount, decodeFailCount, invalidEnvelopeCount, rxBy,
               TracingState(), RoutingState())
    }

    constructor ()
      ensures State() == FRESH_RECEIVER
    {
      rxCount, transportErrorCount, decodeFailCount, invalidEnvelopeCount, rxBy := 0, 0, 0, 0, NO_KEYS;
      traceIdPresentCount, traceIdMissingCount, traceIndexHitCount, traceIndexMissCount := 0, 0, 0, 0;
      traceLinkedEventCount, insertOrder, lastSeenMs := 0, [], map[];
      expiredDropCount, expiredBy, routeMissCount, handlerErrorCount, delivered := 0, NO_KEYS, 0, 0, [];
    }

    /** The loop over everything the transport yields until the bridge stops running; counters may already be up. */
    method ProcessInbound(rs: seq<Reception>)
      modifies this
      ensures State() == RunFrom(old(State()), rs)
    {
      for i := 0 to |rs|
        invariant State() == RunFrom(old(State()), rs[..i])
      {
        assert rs[..i + 1][..i] == rs[..i];
        ProcessOne(rs[i]);
      }
      assert rs[..|rs|] == rs;
    }

    method ProcessOne(r: Reception)
      modifies this
      ensures State() == Step(old(State()), r)
    {
      if r.recvEc == Timeout || r.recvEc == WouldBlock {
        return;
      }
      if r.recvEc != Ok {
        transportErrorCount := transportErrorCount + 1;
        return;
      }
      rxCount := rxCount + 1;
      var ec, envelope := DecodeInto(r.mode, r.text, BLANK_ENVELOPE);
      JudgeOne(if ec == Ok then Success(envelope) else Failure(ec), r);
    }

    method JudgeOne(decoded: Result<Envelope>, r: Reception)
      modifies this
      ensures State() == Judge(old(State()), decoded, r)
    {
      if decoded.Failure? {
        decodeFailCount := decodeFailCount + 1;
        return;
      }
      if !IsEnvelopeValid(decoded.value) {
        invalidEnvelopeCount := invalidEnvelopeCount + 1;
        return;
      }
      AcceptOne(decoded.value, r);
    }

    method AcceptOne(e: Envelope, r: Reception)
      modifies `rxBy, `traceIdPresentCount, `traceIdMissingCount, `traceIndexHitCount, `traceIndexMissCount,
               `traceLinkedEventCount, `insertOrder, `lastSeenMs,
               `expiredDropCount, `expiredBy, `routeMissCount, `handlerErrorCount, `delivered
      ensures rxBy == BumpAll(old(rxBy), e)
      ensures TracingState() == Traced(old(TracingState()), e, r.traceNowMs)
      ensures RoutingState() == Routed(old(RoutingState()), e, r)
    {
      rxBy := BumpAll(rxBy, e);
      TraceOne(e, r.traceNowMs);
      RouteOne(e, r);
    }

    method TraceOne(e: Envelope, nowMs: Uint64)
      modifies `traceIdPresentCount, `traceIdMissingCount, `traceIndexHitCount, `traceIndexMissCount,
               `traceLinkedEventCount, `insertOrder, `lastSeenMs
      ensures TracingState() == Traced(old(TracingState()), e, nowMs)
    {
      if e.traceId == "" {
        traceIdMissingCount := traceIdMissingCount + 1;
        return;
      }
      traceIdPresentCount := traceIdPresentCount + 1;
      if e.traceId in lastSeenMs {
        traceIndexHitCount := traceIndexHitCount + 1;
      } else {
        traceIndexMissCount := traceIndexMissCount + 1;
      }
      NoteTrace(e.traceId, nowMs);
      traceLinkedEventCount := traceLinkedEventCount + 1;
    }

    method NoteTrace(id: string, nowMs: Uint64)
      modifies `insertOrder, `lastSeenMs
      ensures TraceIndex(insertOrder, lastSeenMs) == Note(old(TraceIndex(insertOrder, lastSeenMs)), id, nowMs)
    {
      var isNew := id !in lastSeenMs;
      lastSeenMs := lastSeenMs[id := nowMs];
      if isNew {
        insertOrder := insertOrder + [id];
      }
      ghost var full := TraceIndex(insertOrder, lastSeenMs);
      while |insertOrder| > MAX_TRACES
        invariant Trim(TraceIndex(insertOrder, lastSeenMs)) == Trim(full)
      {
        var evict := insertOrder[0];
        insertOrder := insertOrder[1..];
        lastSeenMs := lastSeenMs - {evict};
      }
    }

    method RouteOne(e: Envelope, r: Reception)
      modifies `expiredDropCount, `expiredBy, `routeMissCount, `handlerErrorCount, `delivered
      ensures RoutingState() == Routed(old(RoutingState()), e, r)
    {
      if IsExpired(e, r.nowMs, r.maxLatencyMs) {
        expiredDropCount := expiredDropCount + 1;
        expiredBy := BumpAll(expiredBy, e);
        return;
      }
      match r.route {
        case RouteOk => delivered := delivered + [e];
        case NoHandler => routeMissCount := routeMissCount + 1;
        case HandlerError => handlerErrorCount := handlerErrorCount + 1;
      }
    }
  }
}
