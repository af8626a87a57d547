/** Whole runs of the receive loop: conservation of counters, the trace index and what is delivered. */
module InboundRuns {
  import opened Types
  import opened ProtocolAdapter
  import opened SlidingWindow
  import opened Tallies
  import opened Inbound

  // ---------------------------------------------------------------------------------------------
  // Reference views of a run

  /** The envelope a reception brings past the decoding and validity gates, if any. */
  function Arrival(r: Reception): Option<Envelope> {
    if r.recvEc == Ok && DecodeByProtocol(r.mode, r.text).Success? &&
       IsEnvelopeValid(DecodeByProtocol(r.mode, r.text).value)
    then Some(DecodeByProtocol(r.mode, r.text).value) else None
  }

  /** A message outlives its deadline: the policy's latency bound or its own time to live, whichever comes first. */
  predicate TooLate(e: Envelope, nowMs: Uint64, maxLatencyMs: Uint32) {
    maxLatencyMs > 0 && (nowMs > e.timestampMs + maxLatencyMs || (e.ttlMs > 0 && nowMs > e.timestampMs + e.ttlMs))
  }

  predicate Delivers(r: Reception) {
    Arrival(r).Some? && !TooLate(Arrival(r).value, r.nowMs, r.maxLatencyMs) && r.route == RouteOk
  }

  /** The arrivals of a run that reach a handler, in order of receipt. */
  function Deliveries(rs: seq<Reception>): seq<Envelope> {
    if rs == [] then []
    else
      var before, r := Deliveries(rs[..|rs| - 1]), rs[|rs| - 1];
      if Delivers(r) then before + [Arrival(r).value] else before
  }

  predicate Presents(r: Reception) {
    Arrival(r).Some? && Arrival(r).value.traceId != ""
  }

  /** The trace ids presented over a run, in order. */
  function TraceIds(rs: seq<Reception>): seq<string> {
    if rs == [] then []
    else
      var before, r := TraceIds(rs[..|rs| - 1]), rs[|rs| - 1];
      if Presents(r) then before + [Arrival(r).value.traceId] else before
  }

  /** When an id was last presented. */
  function LatestTime(rs: seq<Reception>, id: string): Option<Uint64> {
    if rs == [] then None
    else
      var r := rs[|rs| - 1];
      if Presents(r) && Arrival(r).value.traceId == id then Some(r.traceNowMs) else LatestTime(rs[..|rs| - 1], id)
  }

  // ---------------------------------------------------------------------------------------------
  // Expiry

  /** A latency bound of zero switches expiry off, even for messages with a time to live of their own. */
  lemma ExpiredIffTooLate(e: Envelope, nowMs: Uint64, maxLatencyMs: Uint32)
    ensures IsExpired(e, nowMs, maxLatencyMs) <==> TooLate(e, nowMs, maxLatencyMs)
  {
  }

  lemma StepByArrival(s: Receiver, r: Reception)
    requires Arrival(r).Some?
    ensures Step(s, r) == Accept(s.(rx := s.rx + 1), Arrival(r).value, r)
  {
  }

  /** Exactly the on-time, valid, handled messages are delivered, once each and in order of receipt. */
  lemma {:induction false} DeliveredInOrder(rs: seq<Reception>)
    ensures Run(rs).routing.delivered == Deliveries(rs)
  {
    if rs != [] {
      var init, r := rs[..|rs| - 1], rs[|rs| - 1];
      DeliveredInOrder(init);
      if Arrival(r).Some? {
        StepByArrival(Run(init), r);
        ExpiredIffTooLate(Arrival(r).value, r.nowMs, r.maxLatencyMs);
      }
    }
  }

  // ---------------------------------------------------------------------------------------------
  // Conservation

  predicate TracingBalanced(t: Tracing, passed: nat) {
    t.present + t.missing == passed && t.present == t.hits + t.misses == t.linked
  }

  ghost predicate RoutingBalanced(t: Routing, passed: nat) {
    t.expired + t.routeMisses + t.handlerErrors + |t.delivered| == passed && SameTotals(t.expiredBy, t.expired)
  }

  ghost predicate Balanced(s: Receiver) {
    var passed := s.rx - s.decodeFails - s.invalidEnvelopes;
    && passed >= 0 && SameTotals(s.rxBy, passed)
    && TracingBalanced(s.tracing, passed) && RoutingBalanced(s.routing, passed)
  }

  lemma RoutedKeepsBalance(t: Routing, e: Envelope, r: Reception, passed: nat)
    requires RoutingBalanced(t, passed)
    ensures RoutingBalanced(Routed(t, e, r), passed + 1)
  {
    TotalsMove(t.expiredBy, e, t.expired);
  }

  lemma AcceptKeepsBalance(s: Receiver, e: Envelope, r: Reception)
    requires Balanced(s)
    ensures Balanced(Accept(s.(rx := s.rx + 1), e, r))
  {
    var passed := s.rx - s.decodeFails - s.invalidEnvelopes;
    TotalsMove(s.rxBy, e, passed);
    RoutedKeepsBalance(s.routing, e, r, passed);
  }

  lemma StepKeepsBalance(s: Receiver, r: Reception)
    requires Balanced(s)
    ensures Balanced(Step(s, r))
  {
    if Arrival(r).Some? {
      StepByArrival(s, r);
      AcceptKeepsBalance(s, Arrival(r).value, r);
    }
  }

  /**
   * After any run, every received message is counted in exactly one of: undecodable, invalid, expired, without a
   * handler, failed in its handler, delivered; and the per-key maps and trace counters agree with those totals.
   */
  lemma InboundBalances(rs: seq<Reception>)
    ensures Balanced(Run(rs))
  {
    NothingIsBalanced(FRESH_RECEIVER, NO_KEYS, TraceIndex([], map[]));
    BalanceIsKept(FRESH_RECEIVER, rs);
  }

  lemma NothingIsBalanced(s: Receiver, none: PerKey, index: TraceIndex)
    requires SameTotals(none, 0)
    requires s == Receiver(0, s.transportErrors, 0, 0, none, Tracing(0, 0, 0, 0, 0, index), Routing(0, none, 0, 0, []))
    ensures Balanced(s)
  {
  }

  lemma {:induction false} BalanceIsKept(s: Receiver, rs: seq<Reception>)
    requires Balanced(s)
    ensures Balanced(RunFrom(s, rs))
  {
    if rs != [] {
      BalanceIsKept(s, rs[..|rs| - 1]);
      StepKeepsBalance(RunFrom(s, rs[..|rs| - 1]), rs[|rs| - 1]);
    }
  }

  // ---------------------------------------------------------------------------------------------
  // The trace index

  lemma StepTraces(s: Receiver, r: Reception)
    ensures Step(s, r).tracing.index ==
            if Presents(r) then Note(s.tracing.index, Arrival(r).value.traceId, r.traceNowMs) else s.tracing.index
  {
  }

  ghost predicate Indexes(t: TraceIndex, ids: seq<string>) {
    TraceOk(t) && t.order == Bucket(ids, MAX_TRACES)
  }

  lemma NoteIndexes(t: TraceIndex, ids: seq<string>, id: string, nowMs: Uint64)
    requires Indexes(t, ids)
    ensures Indexes(Note(t, id, nowMs), ids + [id])
  {
    NoteIsOffer(t, id, nowMs);
    PresentOneMore(ids, id, MAX_TRACES);
  }

  lemma {:induction false} IndexFollowsIds(rs: seq<Reception>)
    ensures Indexes(Run(rs).tracing.index, TraceIds(rs))
  {
    if rs != [] {
      var init, r := rs[..|rs| - 1], rs[|rs| - 1];
      IndexFollowsIds(init);
      StepTraces(Run(init), r);
      if Presents(r) {
        NoteIndexes(Run(init).tracing.index, TraceIds(init), Arrival(r).value.traceId, r.traceNowMs);
      }
    }
  }

  /** The index holds exactly the last 1024 accepted trace ids, each once; a hit never refreshes its place. */
  lemma TraceIndexIsWindow(rs: seq<Reception>)
    ensures var t := Run(rs).tracing.index;
            TraceOk(t) && t.order == LastOf(Accepted(TraceIds(rs), 1024), 1024)
  {
    IndexFollowsIds(rs);
    BucketIsWindow(TraceIds(rs), MAX_TRACES);
  }

  /** Every indexed id carries the time of its latest presentation. */
  lemma {:induction false} TraceTimesAreLatest(rs: seq<Reception>, id: string)
    ensures var t := Run(rs).tracing.index; id in t.lastSeen ==> LatestTime(rs, id) == Some(t.lastSeen[id])
  {
    if rs != [] {
      var init, r := rs[..|rs| - 1], rs[|rs| - 1];
      TraceTimesAreLatest(init, id);
      StepTraces(Run(init), r);
      if Presents(r) {
        TraceIndexIsWindow(init);
        NoteIsOffer(Run(init).tracing.index, Arrival(r).value.traceId, r.traceNowMs);
      }
    }
  }

  /** What a reception does to the hit and miss counters. */
  lemma StepLooksUp(s: Receiver, r: Reception)
    ensures var t, t' := s.tracing, Step(s, r).tracing;
            if !Presents(r) then t'.hits == t.hits && t'.misses == t.misses
            else if Arrival(r).value.traceId in t.index.lastSeen then t'.hits == t.hits + 1 && t'.misses == t.misses
            else t'.hits == t.hits && t'.misses == t.misses + 1
  {
  }

  /** Misses count the ids the window accepted, hits the rest. */
  lemma {:induction false} HitsAndMissesCount(rs: seq<Reception>)
    ensures var t := Run(rs).tracing; var ids := TraceIds(rs);
            t.misses == |Accepted(ids, MAX_TRACES)| && t.hits + t.misses == |ids|
  {
    if rs != [] {
      var init, r := rs[..|rs| - 1], rs[|rs| - 1];
      HitsAndMissesCount(init);
      StepLooksUp(Run(init), r);
      if Presents(r) {
        TraceIndexIsWindow(init);
        PresentOneMore(TraceIds(init), Arrival(r).value.traceId, MAX_TRACES);
      }
    }
  }

  // ---------------------------------------------------------------------------------------------
  // What each counter counts, on the receptions themselves

  /** How one reception ends. */
  datatype Fate = Silent | TransportFailed | Undecodable | Invalid | Expired | Unrouted | HandlerFailed | Handled

  function FateOf(r: Reception): Fate {
    if r.recvEc == Timeout || r.recvEc == WouldBlock then Silent
    else if r.recvEc != Ok then TransportFailed
    else match DecodeByProtocol(r.mode, r.text)
      case Failure(_) => Undecodable
      case Success(e) =>
        if e.source == "" || e.target == "" || e.topic == "" then Invalid
        else if TooLate(e, r.nowMs, r.maxLatencyMs) then Expired
        else match r.route
          case NoHandler => Unrouted
          case HandlerError => HandlerFailed
          case RouteOk => Handled
  }

  function CountOf(rs: seq<Reception>, f: Fate): nat {
    if rs == [] then 0 else CountOf(rs[..|rs| - 1], f) + One(FateOf(rs[|rs| - 1]) == f)
  }

  lemma StepFate(s: Receiver, r: Reception)
    ensures var s', f := Step(s, r), FateOf(r);
            && s'.rx == s.rx + One(f != Silent && f != TransportFailed)
            && s'.transportErrors == s.transportErrors + One(f == TransportFailed)
            && s'.decodeFails == s.decodeFails + One(f == Undecodable)
            && s'.invalidEnvelopes == s.invalidEnvelopes + One(f == Invalid)
            && s'.routing.expired == s.routing.expired + One(f == Expired)
            && s'.routing.routeMisses == s.routing.routeMisses + One(f == Unrouted)
            && s'.routing.handlerErrors == s.routing.handlerErrors + One(f == HandlerFailed)
  {
    if Arrival(r).Some? {
      StepByArrival(s, r);
      ExpiredIffTooLate(Arrival(r).value, r.nowMs, r.maxLatencyMs);
    }
  }

  /** Over every run each counter is the number of receptions that met that fate. */
  lemma {:induction false} CountersAreExact(rs: seq<Reception>)
    ensures var s := Run(rs);
            && s.transportErrors == CountOf(rs, TransportFailed)
            && s.decodeFails == CountOf(rs, Undecodable) && s.invalidEnvelopes == CountOf(rs, Invalid)
            && s.routing.expired == CountOf(rs, Expired) && s.routing.routeMisses == CountOf(rs, Unrouted)
            && s.routing.handlerErrors == CountOf(rs, HandlerFailed)
            && s.rx + CountOf(rs, Silent) + CountOf(rs, TransportFailed) == |rs|
  {
    if rs != [] {
      CountersAreExact(rs[..|rs| - 1]);
      StepFate(Run(rs[..|rs| - 1]), rs[|rs| - 1]);
    }
  }

  /** The envelopes that passed the gates, and those of them that came too late. */
  function Arrivals(rs: seq<Reception>): seq<Envelope> {
    if rs == [] then []
    else
      var before, r := Arrivals(rs[..|rs| - 1]), rs[|rs| - 1];
      if Arrival(r).Some? then before + [Arrival(r).value] else before
  }

  function LateArrivals(rs: seq<Reception>): seq<Envelope> {
    if rs == [] then []
    else
      var before, r := LateArrivals(rs[..|rs| - 1]), rs[|rs| - 1];
      if FateOf(r) == Expired then before + [Arrival(r).value] else before
  }

  lemma StepTallies(s: Receiver, r: Reception)
    ensures Step(s, r).rxBy == if Arrival(r).Some? then BumpAll(s.rxBy, Arrival(r).value) else s.rxBy
    ensures Step(s, r).routing.expiredBy ==
            if FateOf(r) == Expired then BumpAll(s.routing.expiredBy, Arrival(r).value) else s.routing.expiredBy
  {
    if Arrival(r).Some? {
      StepByArrival(s, r);
      ExpiredIffTooLate(Arrival(r).value, r.nowMs, r.maxLatencyMs);
    }
  }

  /** Each entry of the six per-key maps is the number of such messages received, or expired. */
  lemma {:induction false} TalliesAreExact(rs: seq<Reception>)
    ensures TalliesAll(Run(rs).rxBy, Arrivals(rs)) && TalliesAll(Run(rs).routing.expiredBy, LateArrivals(rs))
  {
    if rs != [] {
      var init, r := rs[..|rs| - 1], rs[|rs| - 1];
      var s := Run(init);
      TalliesAreExact(init);
      StepTallies(s, r);
      if Arrival(r).Some? {
        BumpAllTallies(s.rxBy, Arrivals(init), Arrival(r).value);
        BumpAllTallies(s.routing.expiredBy, LateArrivals(init), Arrival(r).value);
      }
    }
  }
}
