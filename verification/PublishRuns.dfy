/** Whole runs of publish calls: delivery, conservation of counters and the idempotency window. */
module PublishRuns {
  import opened Types
  import opened Decimal
  import opened CircuitBreaker
  import opened Sending
  import opened SlidingWindow
  import opened Tallies
  import opened Publish

  function Run(os: Oracles, ws: Wires, calls: seq<Call>): Publisher {
    if calls == [] then FreshPublisher(ws)
    else Step(os, Run(os, ws, calls[..|calls| - 1]), calls[|calls| - 1]).state
  }

  // ---------------------------------------------------------------------------------------------
  // One call

  /** Transports only ever move forward. */
  predicate Later(a: Wires, b: Wires) {
    a.v2r.sends <= b.v2r.sends && a.r2v.sends <= b.r2v.sends
  }

  /** Messages accepted by either transport between two points. */
  ghost function AcceptedBetween(os: Oracles, a: Wires, b: Wires): nat
    requires Later(a, b)
  {
    Successes(os.v2r, a.v2r.sends, b.v2r.sends) + Successes(os.r2v, a.r2v.sends, b.r2v.sends)
  }

  ghost predicate AcceptsOnce(os: Oracles, a: Wires, b: Wires, ok: bool) {
    Later(a, b) && AcceptedBetween(os, a, b) == One(ok)
  }

  /** One message on one transport, seen from both. */
  lemma SentOnce(os: Oracles, s: Publisher, d: Direction, p: SlaPolicy)
    ensures var out := SendWithBackpressure(OracleOf(os, d), WireOf(s.wires, d), p);
            var ws := Sent(s, d, out).wires;
            && AcceptsOnce(os, s.wires, ws, out.ec == Ok)
            && WireOf(ws, d).sends <= WireOf(s.wires, d).sends + RetriesAllowed(p) + 3
            && WireOf(ws, Opposite(d)) == WireOf(s.wires, Opposite(d))
  {
    SendsAtMostOnce(OracleOf(os, d), WireOf(s.wires, d), p);
  }

  predicate WithinBudget(a: Wires, b: Wires, d: Direction, p: SlaPolicy) {
    WireOf(b, d).sends <= WireOf(a, d).sends + RetriesAllowed(p) + 3
  }

  lemma FailoverOnce(os: Oracles, s: Publisher, c: Call, ec: ErrorCode)
    requires c.transport.Some? && ec != Ok
    ensures var r := Failover(os, s, c, ec); var d := c.transport.value;
            && AcceptsOnce(os, s.wires, r.state.wires, r.ec == Ok)
            && WithinBudget(s.wires, r.state.wires, Opposite(d), c.policy)
            && WireOf(r.state.wires, d) == WireOf(s.wires, d)
            && r.state.buckets == s.buckets
  {
    var failed := s.(breaker := OnFailure(s.breaker, DEFAULT_THRESHOLDS));
    var target := Opposite(c.transport.value);
    SentOnce(os, failed, target, c.policy);
    var out := SendWithBackpressure(OracleOf(os, target), WireOf(s.wires, target), c.policy);
    AfterFailoverWires(failed, target, out, ec);
  }

  lemma AfterFailoverWires(s: Publisher, target: Direction, out: Outcome, ec: ErrorCode)
    requires ec != Ok
    ensures var r := AfterFailover(s, target, out, ec);
            && r.state.wires == Sent(s, target, out).wires && r.state.buckets == s.buckets
            && (r.ec == Ok <==> out.ec == Ok)
  {
  }

  lemma SendOutOnce(os: Oracles, s: Publisher, c: Call)
    requires c.transport.Some?
    ensures var r := SendOut(os, s, c);
            && AcceptsOnce(os, s.wires, r.state.wires, r.ec == Ok)
            && (forall d :: WithinBudget(s.wires, r.state.wires, d, c.policy))
            && r.state.buckets == s.buckets
  {
    var d := c.transport.value;
    var out := SendWithBackpressure(OracleOf(os, d), WireOf(s.wires, d), c.policy);
    var sent := Sent(s, d, out);
    SentOnce(os, s, d, c.policy);
    if out.ec != Ok {
      FailoverOnce(os, sent, c, out.ec);
      AcceptedSplit(os, s.wires, sent.wires, Failover(os, sent, c, out.ec).state.wires);
    }
  }

  /**
   * A publish hands each transport at most max(0, max_retries) + 3 sends; the transports accept the message at
   * most once between them, and exactly once when the call returns Ok.
   */
  lemma DeliversAtMostOnce(os: Oracles, s: Publisher, c: Call)
    ensures var r := Step(os, s, c);
            && AcceptsOnce(os, s.wires, r.state.wires, r.ec == Ok)
            && (forall d :: WithinBudget(s.wires, r.state.wires, d, c.policy))
            && (r.ec == Ok ==> WasSent(s, c))
  {
    StepCases(os, s, c);
    if WasSent(s, c) {
      SendOutOnce(os, s.(buckets := Remember(s.buckets, c)), c);
    }
  }

  /** The call got as far as the transport. */
  predicate WasSent(s: Publisher, c: Call) {
    Admitted(c) && !IsDuplicate(s.buckets, c) && c.encodeEc == Ok && c.slotGranted
  }

  /** A call either reaches the transport or fails without touching it. */
  lemma StepCases(os: Oracles, s: Publisher, c: Call)
    ensures var r := Step(os, s, c); var s1 := s.(buckets := Remember(s.buckets, c));
            if WasSent(s, c) then r == SendOut(os, s1, c)
            else r.ec != Ok && r.state.wires == s.wires && r.state.buckets == s1.buckets && r.state.breaker == s.breaker
  {
  }

  function PrimaryOutcome(os: Oracles, s: Publisher, c: Call): Outcome
    requires c.transport.Some?
  {
    var d := c.transport.value;
    SendWithBackpressure(OracleOf(os, d), WireOf(s.wires, d), c.policy)
  }

  function BackupOutcome(os: Oracles, s: Publisher, c: Call): Outcome
    requires c.transport.Some?
  {
    var d := Opposite(c.transport.value);
    SendWithBackpressure(OracleOf(os, d), WireOf(s.wires, d), c.policy)
  }

  /**
   * A message that reaches the transport is lost only if the primary fails and the other transport is not enabled
   * or fails too; the caller then sees the primary's error, each outcome moves its own counter, and the drop counter
   * moves by the messages discarded to make room.
   */
  lemma SentOutcome(os: Oracles, s: Publisher, c: Call)
    requires WasSent(s, c)
    ensures var r, k := Step(os, s, c), s.counts;
            var primary, backup := PrimaryOutcome(os, s, c), BackupOutcome(os, s, c);
            var enabled := if c.transport.value == VehicleToRobot then c.failoverV2r else c.failoverR2v;
            var rescued := primary.ec != Ok && enabled && backup.ec == Ok;
            && r.ec == (if rescued then Ok else primary.ec)
            && r.state.counts.failoverHits == k.failoverHits + One(rescued)
            && r.state.counts.transportErrors == k.transportErrors + One(r.ec != Ok)
            && r.state.counts.backpressureDrops ==
               k.backpressureDrops + primary.drops + (if primary.ec != Ok && enabled then backup.drops else 0)
            && r.state.counts.idempotencyDrops == k.idempotencyDrops && r.state.counts.encodeFails == k.encodeFails
            && r.state.counts.invalidEnvelopes == k.invalidEnvelopes
            && WireOf(r.state.wires, c.transport.value) == primary.wire
            && WireOf(r.state.wires, Opposite(c.transport.value)) ==
               if primary.ec != Ok && enabled then backup.wire else WireOf(s.wires, Opposite(c.transport.value))
  {
    StepCases(os, s, c);
  }

  // ---------------------------------------------------------------------------------------------
  // Conservation over every run

  lemma AcceptedSplit(os: Oracles, a: Wires, b: Wires, c: Wires)
    requires Later(a, b) && Later(b, c)
    ensures AcceptedBetween(os, a, c) == AcceptedBetween(os, a, b) + AcceptedBetween(os, b, c)
  {
    SuccessesSplit(os.v2r, a.v2r.sends, b.v2r.sends, c.v2r.sends);
    SuccessesSplit(os.r2v, a.r2v.sends, b.r2v.sends, c.r2v.sends);
  }

  ghost predicate Balanced(os: Oracles, ws: Wires, s: Publisher, calls: nat) {
    && s.counts.tx + s.counts.txFail == calls
    && Later(ws, s.wires) && s.counts.tx == AcceptedBetween(os, ws, s.wires)
    && s.counts.failoverHits <= s.counts.tx && SameTotals(s.sentBy, s.counts.tx - s.counts.failoverHits)
  }

  /** A call for `e` is counted once, as failed or as sent; unless failover delivered it, under each of its keys. */
  ghost predicate CountsMove(s: Publisher, s': Publisher, e: Envelope, ec: ErrorCode) {
    var k, k' := s.counts, s'.counts;
    && k'.tx == k.tx + One(ec == Ok) && k'.txFail == k.txFail + One(ec != Ok)
    && ((s'.sentBy == s.sentBy && k'.failoverHits == k.failoverHits + One(ec == Ok))
        || (s'.sentBy == BumpAll(s.sentBy, e) && k'.failoverHits == k.failoverHits && ec == Ok))
  }

  lemma FailoverCounts(os: Oracles, s: Publisher, c: Call, ec: ErrorCode)
    requires c.transport.Some? && ec != Ok
    ensures var r := Failover(os, s, c, ec); CountsMove(s, r.state, c.e, r.ec)
  {
  }

  lemma PrimaryCounts(os: Oracles, s: Publisher, c: Call, out: Outcome)
    requires c.transport.Some?
    ensures var r := AfterPrimary(os, s, c, out); CountsMove(s, r.state, c.e, r.ec)
  {
    if out.ec != Ok {
      FailoverCounts(os, Sent(s, c.transport.value, out), c, out.ec);
    }
  }

  lemma StepCounts(os: Oracles, s: Publisher, c: Call)
    ensures var r := Step(os, s, c); CountsMove(s, r.state, c.e, r.ec)
  {
    if WasSent(s, c) {
      var d, s1 := c.transport.value, s.(buckets := Remember(s.buckets, c));
      PrimaryCounts(os, s1, c, SendWithBackpressure(OracleOf(os, d), WireOf(s1.wires, d), c.policy));
    }
  }

  /**
   * After any run: every call is counted once as sent or failed; `tx` is the number of messages the transports
   * accepted; and the messages not delivered by failover are the total of each per-key map.
   */
  lemma {:induction false} CountersBalance(os: Oracles, ws: Wires, calls: seq<Call>)
    ensures Balanced(os, ws, Run(os, ws, calls), |calls|)
  {
    if calls != [] {
      var init, c := calls[..|calls| - 1], calls[|calls| - 1];
      CountersBalance(os, ws, init);
      var s := Run(os, ws, init);
      StepCounts(os, s, c);
      TotalsMove(s.sentBy, c.e, s.counts.tx - s.counts.failoverHits);
      DeliversAtMostOnce(os, s, c);
      AcceptedSplit(os, ws, s.wires, Step(os, s, c).state.wires);
    }
  }

  // ---------------------------------------------------------------------------------------------
  // The idempotency window

  /** The keys presented for one topic over a run, in order. */
  function Presented(calls: seq<Call>, topic: string): seq<string> {
    if calls == [] then []
    else
      var before := Presented(calls[..|calls| - 1], topic);
      var c := calls[|calls| - 1];
      if Deduplicated(c) && c.e.topic == topic then before + [IdempotencyKey(c.e)] else before
  }

  predicate SameWindow(calls: seq<Call>, window: Uint32) {
    forall i :: 0 <= i < |calls| ==> calls[i].window == window
  }

  lemma StepBuckets(os: Oracles, s: Publisher, c: Call)
    ensures Step(os, s, c).state.buckets == Remember(s.buckets, c)
  {
    StepCases(os, s, c);
    if WasSent(s, c) {
      SendOutOnce(os, s.(buckets := Remember(s.buckets, c)), c);
    }
  }

  /** With a fixed window, a topic's bucket holds exactly the last max(1, window) keys accepted for that topic. */
  lemma {:induction false} WindowIsExact(os: Oracles, ws: Wires, calls: seq<Call>, window: Uint32, topic: string)
    requires SameWindow(calls, window)
    ensures var bucket := BucketAt(Run(os, ws, calls).buckets, topic);
            && bucket == Bucket(Presented(calls, topic), Limit(window))
            && bucket == LastOf(Accepted(Presented(calls, topic), Limit(window)), Limit(window))
            && Distinct(bucket)
  {
    BucketIsWindow(Presented(calls, topic), Limit(window));
    if calls != [] {
      var init, c := calls[..|calls| - 1], calls[|calls| - 1];
      WindowIsExact(os, ws, init, window, topic);
      StepBuckets(os, Run(os, ws, init), c);
      if Deduplicated(c) && c.e.topic == topic {
        var before, key := Presented(init, topic), IdempotencyKey(c.e);
        assert (before + [key])[..|before|] == before;
      }
    }
  }

  /** After a run, a deduplicated call is dropped exactly when its key is among the last accepted ones. */
  lemma DroppedIffRemembered(os: Oracles, ws: Wires, calls: seq<Call>, c: Call)
    requires SameWindow(calls, c.window) && Deduplicated(c)
    ensures var s := Run(os, ws, calls);
            Step(os, s, c).state.counts.idempotencyDrops == s.counts.idempotencyDrops + 1 <==>
            IdempotencyKey(c.e) in LastOf(Accepted(Presented(calls, c.e.topic), Limit(c.window)), Limit(c.window))
  {
    WindowIsExact(os, ws, calls, c.window, c.e.topic);
  }

  /** A key is spent by its first use, whatever became of that call: repeating it at once sends nothing. */
  lemma ImmediateRepeatIsDropped(os: Oracles, s: Publisher, c: Call, again: Call)
    requires Deduplicated(c) && Deduplicated(again)
    requires again.e.topic == c.e.topic && IdempotencyKey(again.e) == IdempotencyKey(c.e)
    ensures var s1 := Step(os, s, c).state; var r := Step(os, s1, again);
            && r.ec == WouldBlock && r.state.wires == s1.wires
            && r.state.counts.idempotencyDrops == s1.counts.idempotencyDrops + 1
  {
    StepBuckets(os, s, c);
    var bucket, key := BucketAt(s.buckets, c.e.topic), IdempotencyKey(c.e);
    if key !in bucket {
      var grown := bucket + [key];
      LastOfHas(grown, Limit(c.window), |bucket|);
    }
  }

  lemma {:induction false} PresentedConcat(a: seq<Call>, b: seq<Call>, topic: string)
    ensures Presented(a + b, topic) == Presented(a, topic) + Presented(b, topic)
  {
    if b == [] {
      assert a + b == a;
    } else {
      assert (a + b)[..|a + b| - 1] == a + b[..|b| - 1];
      PresentedConcat(a, b[..|b| - 1], topic);
    }
  }

  /** How many keys of the topic were accepted in the second part of a run. */
  function AcceptedSince(before: seq<Call>, later: seq<Call>, topic: string, limit: nat): int {
    |Accepted(Presented(before + later, topic), limit)| - |Accepted(Presented(before, topic), limit)|
  }

  /**
   * A key accepted by some call of a run is consumed for good: whatever became of that call, every later call with
   * the key is dropped as long as fewer than max(1, window) keys of the topic were accepted in between; after that,
   * if the key was not presented again, it is free.
   */
  lemma RepeatIsDropped(os: Oracles, ws: Wires, before: seq<Call>, c: Call, later: seq<Call>, again: Call)
    requires SameWindow(before + [c] + later, again.window) && Deduplicated(c) && Deduplicated(again)
    requires again.e.topic == c.e.topic && IdempotencyKey(again.e) == IdempotencyKey(c.e)
    requires !IsDuplicate(Run(os, ws, before).buckets, c)
    ensures var topic, limit := c.e.topic, Limit(again.window);
            var since := AcceptedSince(before + [c], later, topic, limit);
            var s := Run(os, ws, before + [c] + later); var r := Step(os, s, again);
            && since >= 0
            && (since < limit ==>
                  r.ec == WouldBlock && r.state.wires == s.wires &&
                  r.state.counts.idempotencyDrops == s.counts.idempotencyDrops + 1)
            && (since >= limit && IdempotencyKey(c.e) !in Presented(later, topic) ==>
                  r.state.counts.idempotencyDrops == s.counts.idempotencyDrops)
  {
    var topic, limit, key, calls := c.e.topic, Limit(again.window), IdempotencyKey(c.e), before + [c] + later;
    assert forall i :: 0 <= i < |before| ==> before[i] == calls[i];
    WindowIsExact(os, ws, before, again.window, topic);
    WindowIsExact(os, ws, calls, again.window, topic);
    var xs, ys := Presented(before, topic), Presented(later, topic);
    PresentedConcat(before, [c], topic);
    PresentedConcat(before + [c], later, topic);
    PresentedOne(c);
    RememberedUntil(xs, key, ys, limit);
    AcceptedGrows(xs + [key], ys, limit);
    DropsIffDuplicate(os, Run(os, ws, calls), again);
  }

  lemma PresentedOne(c: Call)
    requires Deduplicated(c)
    ensures Presented([c], c.e.topic) == [IdempotencyKey(c.e)]
  {
    assert [c][..0] == [];
  }

  lemma DropsIffDuplicate(os: Oracles, s: Publisher, c: Call)
    ensures var r := Step(os, s, c);
            if IsDuplicate(s.buckets, c)
            then r.ec == WouldBlock && r.state.wires == s.wires &&
                 r.state.counts.idempotencyDrops == s.counts.idempotencyDrops + 1
            else r.state.counts.idempotencyDrops == s.counts.idempotencyDrops
  {
    if WasSent(s, c) {
      SentOutcome(os, s, c);
    }
  }

  // ---------------------------------------------------------------------------------------------
  // The breaker sees the primary sends

  /** The outcomes of the primary sends of a run. */
  ghost function PrimaryOutcomes(os: Oracles, ws: Wires, calls: seq<Call>): seq<bool> {
    if calls == [] then []
    else
      var init, c := calls[..|calls| - 1], calls[|calls| - 1];
      var s := Run(os, ws, init);
      if !WasSent(s, c) then PrimaryOutcomes(os, ws, init)
      else
        PrimaryOutcomes(os, ws, init) + [PrimaryOutcome(os, s, c).ec == Ok]
  }

  lemma SendOutBreaker(os: Oracles, s: Publisher, c: Call)
    requires c.transport.Some?
    ensures var d := c.transport.value;
            SendOut(os, s, c).state.breaker ==
            if SendWithBackpressure(OracleOf(os, d), WireOf(s.wires, d), c.policy).ec == Ok
            then OnSuccess(s.breaker, DEFAULT_THRESHOLDS) else OnFailure(s.breaker, DEFAULT_THRESHOLDS)
  {
  }

  lemma {:induction false} BreakerFollowsSends(os: Oracles, ws: Wires, calls: seq<Call>)
    ensures Run(os, ws, calls).breaker == After(PrimaryOutcomes(os, ws, calls), DEFAULT_THRESHOLDS)
  {
    if calls != [] {
      var init := calls[..|calls| - 1];
      BreakerFollowsSends(os, ws, init);
      var s, c := Run(os, ws, init), calls[|calls| - 1];
      StepCases(os, s, c);
      if WasSent(s, c) {
        SendOutBreaker(os, s.(buckets := Remember(s.buckets, c)), c);
      }
      var before, after := PrimaryOutcomes(os, ws, init), PrimaryOutcomes(os, ws, calls);
      if after != before {
        assert after[..|before|] == before;
      }
    }
  }

  /** The circuit is open after a run exactly when its primary sends tripped it: 3 failures, then no 2 successes. */
  lemma CircuitOpenIff(os: Oracles, ws: Wires, calls: seq<Call>)
    ensures Run(os, ws, calls).breaker.open <==> Tripped(PrimaryOutcomes(os, ws, calls), 3, 2)
  {
    BreakerFollowsSends(os, ws, calls);
    OpenIffTripped(PrimaryOutcomes(os, ws, calls), DEFAULT_THRESHOLDS);
  }

  // ---------------------------------------------------------------------------------------------
  // The gates and the keys, on the call's own fields

  /**
   * Which gate refuses a call, in order: not running, invalid or unauthentic, canary, duplicate, encoding, flow
   * slot. Each has its own result code and counter; nothing but the counters and the topic's bucket changes.
   */
  lemma RefusedInOrder(os: Oracles, s: Publisher, c: Call)
    ensures var r, k, e := Step(os, s, c), s.counts, c.e;
            var bucket := if e.topic in s.buckets then s.buckets[e.topic] else [];
            var duplicate := e.topic in c.idempotencyTopics && IdempotencyKey(e) in bucket;
            var kept := s.(buckets := r.state.buckets);
            var failed := k.(txFail := k.txFail + 1);
            if !c.running || c.transport == None then r == Published(s.(counts := failed), ThreadStartFailed)
            else if e.source == "" || e.target == "" || e.topic == "" || !c.authentic then
              r == Published(s.(counts := failed.(invalidEnvelopes := k.invalidEnvelopes + 1)),
                             InterconnectInvalidEnvelope)
            else if !c.canaryPass then r == Published(s.(counts := failed), WouldBlock)
            else if duplicate then
              r == Published(kept.(counts := failed.(idempotencyDrops := k.idempotencyDrops + 1)), WouldBlock)
            else if c.encodeEc != Ok then
              r == Published(kept.(counts := failed.(encodeFails := k.encodeFails + 1)), c.encodeEc)
            else if !c.slotGranted then
              r == Published(kept.(counts := failed.(backpressureDrops := k.backpressureDrops + 1)), WouldBlock)
            else WasSent(s, c)
  {
  }

  /** A call that presents a key: it passes the first three gates and its topic is on the list. */
  predicate PresentsKey(c: Call) {
    && c.running && c.transport != None && c.e.source != "" && c.e.target != "" && c.e.topic != ""
    && c.authentic && c.canaryPass && c.e.topic in c.idempotencyTopics
  }

  function FallbackText(e: Envelope): string {
    e.topic + "|" + e.source + "|" + ToDecimal(e.sequence)
  }

  predicate DroppedAsDuplicate(os: Oracles, s: Publisher, c: Call) {
    Step(os, s, c).state.counts.idempotencyDrops == s.counts.idempotencyDrops + 1
  }

  /**
   * Two calls of one topic in a row, by their own fields: an explicit key counts as it is, whatever source and
   * sequence; an empty one stands for topic, source and sequence.
   */
  lemma KeysDecide(os: Oracles, s: Publisher, c: Call, d: Call)
    requires PresentsKey(c) && PresentsKey(d) && d.e.topic == c.e.topic
    ensures var dropped := DroppedAsDuplicate(os, Step(os, s, c).state, d);
            var k, l := c.e.idempotencyKey, d.e.idempotencyKey;
            && (k != "" && k == l ==> dropped)
            && (k == "" && l == "" && c.e.source == d.e.source && c.e.sequence == d.e.sequence ==> dropped)
            && (c.e.topic !in s.buckets || s.buckets[c.e.topic] == [] ==>
                  && (k != "" && l != "" ==> (dropped <==> k == l))
                  && (k == "" && l == "" ==> (dropped <==> c.e.source == d.e.source && c.e.sequence == d.e.sequence))
                  && (k != "" && l == "" ==> (dropped <==> k == FallbackText(d.e)))
                  && (k == "" && l != "" ==> (dropped <==> FallbackText(c.e) == l)))
  {
    KeyRemembered(os, s, c);
    DropsIffDuplicate(os, Step(os, s, c).state, d);
    FallbackKeyIsExact(c.e, d.e);
  }

  lemma KeyRemembered(os: Oracles, s: Publisher, c: Call)
    requires PresentsKey(c)
    ensures var after, key := Step(os, s, c).state.buckets, IdempotencyKey(c.e);
            && c.e.topic in after && key in after[c.e.topic]
            && (BucketAt(s.buckets, c.e.topic) == [] ==> after[c.e.topic] == [key])
  {
    StepBuckets(os, s, c);
    var bucket, key := BucketAt(s.buckets, c.e.topic), IdempotencyKey(c.e);
    if key !in bucket {
      LastOfHas(bucket + [key], Limit(c.window), |bucket|);
    }
  }

  // ---------------------------------------------------------------------------------------------
  // What the per-key counters and the drop counter count

  /** The messages of a run that their primary transport delivered. */
  ghost function PrimaryDeliveries(os: Oracles, ws: Wires, calls: seq<Call>): seq<Envelope> {
    if calls == [] then []
    else
      var init, c := calls[..|calls| - 1], calls[|calls| - 1];
      var before, s := PrimaryDeliveries(os, ws, init), Run(os, ws, init);
      if WasSent(s, c) && PrimaryOutcome(os, s, c).ec == Ok then before + [c.e] else before
  }

  lemma StepTallies(os: Oracles, s: Publisher, c: Call)
    ensures Step(os, s, c).state.sentBy ==
            if WasSent(s, c) && PrimaryOutcome(os, s, c).ec == Ok then BumpAll(s.sentBy, c.e) else s.sentBy
  {
    StepCases(os, s, c);
  }

  /** Each entry of the topic, channel and qos maps is the number of such messages their primary transport delivered. */
  lemma {:induction false} SentByIsExact(os: Oracles, ws: Wires, calls: seq<Call>)
    ensures TalliesAll(Run(os, ws, calls).sentBy, PrimaryDeliveries(os, ws, calls))
  {
    if calls != [] {
      var init, c := calls[..|calls| - 1], calls[|calls| - 1];
      SentByIsExact(os, ws, init);
      StepTallies(os, Run(os, ws, init), c);
      BumpAllTallies(Run(os, ws, init).sentBy, PrimaryDeliveries(os, ws, init), c.e);
    }
  }
}
