/** One message on one transport: backpressure, discard and capped exponential retry. */
module Sending {
  import opened Types

  /** A transport answers its n-th send and its n-th discard with a result code of its own choosing. */
  datatype Oracle = Oracle(send: nat -> ErrorCode, discard: nat -> ErrorCode, canDiscard: bool)

  /** How many sends and discards a transport has been asked for. */
  datatype Wire = Wire(sends: nat, discards: nat)

  // ---------------------------------------------------------------------------------------------
  // Retry

  datatype RetryOutcome = RetryOutcome(ec: ErrorCode, sends: nat)

  /** At most `left` further attempts, the next one being send number `n`. */
  function RetrySends(o: Oracle, n: nat, left: nat): RetryOutcome
    decreases left
  {
    if left == 0 then RetryOutcome(Timeout, n)
    else
      var ec := o.send(n);
      if ec != WouldBlock then RetryOutcome(ec, n + 1) else RetrySends(o, n + 1, left - 1)
  }

  /** The sends from number `lo` up to but not including `hi` that the transport answered with would-block. */
  ghost function Blocked(o: Oracle, lo: nat, hi: nat): nat
    requires lo <= hi
    decreases hi
  {
    if lo == hi then 0 else Blocked(o, lo, hi - 1) + One(o.send(hi - 1) == WouldBlock)
  }

  predicate RetryAllowed(b: RetryBudget) {
    b.maxRetries >= 0 && b.initialBackoffMs > 0 && b.maxBackoffMs >= b.initialBackoffMs
  }

  function Pow2(n: nat): (r: nat)
    ensures r >= 1
  {
    if n == 0 then 1 else 2 * Pow2(n - 1)
  }

  function Min(a: int, b: int): int {
    if a <= b then a else b
  }

  /** The k-th pause: doubled from the initial backoff, never above the cap. */
  function Backoff(b: RetryBudget, k: nat): int {
    Min(b.initialBackoffMs * Pow2(k), b.maxBackoffMs)
  }

  lemma BackoffDoubles(b: RetryBudget, k: nat)
    requires RetryAllowed(b)
    ensures Backoff(b, k + 1) == Min(Backoff(b, k) * 2, b.maxBackoffMs)
    ensures Backoff(b, 0) == b.initialBackoffMs
  {
    var x := b.initialBackoffMs * Pow2(k);
    assert b.initialBackoffMs * Pow2(k + 1) == x * 2;
  }

  // ---------------------------------------------------------------------------------------------
  // Backpressure

  datatype Outcome = Outcome(ec: ErrorCode, wire: Wire, drops: nat)

  predicate WorthDiscarding(p: SlaPolicy, ec: ErrorCode) {
    && (p.drop == DropOldest || p.backpressure == DropOldestFirst)
    && (ec == Timeout || ec == ThreadQueueFull || ec == WouldBlock)
  }

  /** Make room by dropping the oldest queued message, then send once more. */
  function DiscardAndResend(o: Oracle, w: Wire, p: SlaPolicy, ec: ErrorCode): Outcome {
    if !WorthDiscarding(p, ec) || !o.canDiscard then Outcome(ec, w, 0)
    else if o.discard(w.discards) != Ok then Outcome(ec, w.(discards := w.discards + 1), 0)
    else Outcome(o.send(w.sends), Wire(w.sends + 1, w.discards + 1), 1)
  }

  function RetryIfBlocked(o: Oracle, p: SlaPolicy, out: Outcome): Outcome {
    if p.retry.maxRetries > 0 && RetryAllowed(p.retry) && out.ec == WouldBlock then
      var r := RetrySends(o, out.wire.sends, p.retry.maxRetries + 1);
      out.(ec := r.ec, wire := out.wire.(sends := r.sends))
    else out
  }

  function SendWithBackpressure(o: Oracle, w: Wire, p: SlaPolicy): Outcome {
    var ec := o.send(w.sends);
    var w1 := w.(sends := w.sends + 1);
    if ec == Ok || p.drop == DropNew then Outcome(ec, w1, 0)
    else RetryIfBlocked(o, p, DiscardAndResend(o, w1, p, ec))
  }

  // ---------------------------------------------------------------------------------------------
  // At most one success

  /** The sends from number `lo` up to but not including `hi` that the transport accepted. */
  ghost function Successes(o: Oracle, lo: nat, hi: nat): nat
    requires lo <= hi
    decreases hi
  {
    if lo == hi then 0 else Successes(o, lo, hi - 1) + One(o.send(hi - 1) == Ok)
  }

  lemma {:induction false} SuccessesSplit(o: Oracle, a: nat, b: nat, c: nat)
    requires a <= b <= c
    ensures Successes(o, a, c) == Successes(o, a, b) + Successes(o, b, c)
    decreases c
  {
    if b < c {
      SuccessesSplit(o, a, b, c - 1);
    }
  }

  lemma {:induction false} RetrySucceedsOnce(o: Oracle, n: nat, left: nat)
    ensures n <= RetrySends(o, n, left).sends <= n + left
    ensures Successes(o, n, RetrySends(o, n, left).sends) == One(RetrySends(o, n, left).ec == Ok)
    decreases left
  {
    if left > 0 && o.send(n) == WouldBlock {
      RetrySucceedsOnce(o, n + 1, left - 1);
      SuccessesSplit(o, n, n + 1, RetrySends(o, n, left).sends);
    }
  }

  function RetriesAllowed(p: SlaPolicy): nat {
    if p.retry.maxRetries > 0 then p.retry.maxRetries else 0
  }

  /** A message is accepted at most once, exactly once iff the outcome is Ok, within a bounded number of sends. */
  lemma {:induction false} SendsAtMostOnce(o: Oracle, w: Wire, p: SlaPolicy)
    ensures var out := SendWithBackpressure(o, w, p);
            && w.sends < out.wire.sends <= w.sends + RetriesAllowed(p) + 3
            && Successes(o, w.sends, out.wire.sends) == One(out.ec == Ok)
  {
    var ec, w1 := o.send(w.sends), w.(sends := w.sends + 1);
    var mid := DiscardAndResend(o, w1, p, ec);
    var out := SendWithBackpressure(o, w, p);
    assert Successes(o, w.sends, w1.sends) == One(ec == Ok);
    if ec != Ok && p.drop != DropNew {
      SuccessesSplit(o, w.sends, w1.sends, mid.wire.sends);
      assert Successes(o, w.sends, mid.wire.sends) == One(mid.ec == Ok);
      if p.retry.maxRetries > 0 {
        RetrySucceedsOnce(o, mid.wire.sends, p.retry.maxRetries + 1);
      }
      SuccessesSplit(o, w.sends, mid.wire.sends, out.wire.sends);
    }
  }

  // ---------------------------------------------------------------------------------------------
  // What sending does, on the transport's answers and the policy's fields alone

  /** Sends from number `n` on: repeated while the answer is would-block, at most `left` times. */
  predicate RetryEnds(o: Oracle, n: nat, left: nat, ec: ErrorCode, end: nat) {
    && n < end <= n + left
    && (forall k :: n <= k < end - 1 ==> o.send(k) == WouldBlock)
    && if o.send(end - 1) == WouldBlock then end == n + left && ec == Timeout else ec == o.send(end - 1)
  }

  lemma {:induction false} RetryMeans(o: Oracle, n: nat, left: nat)
    requires left > 0
    ensures var r := RetrySends(o, n, left); RetryEnds(o, n, left, r.ec, r.sends)
    decreases left
  {
    if o.send(n) == WouldBlock && left > 1 {
      RetryMeans(o, n + 1, left - 1);
    }
  }

  /** A refused first send that the policy lets the bridge answer by dropping the oldest message. */
  predicate CallsForDiscard(o: Oracle, p: SlaPolicy, first: ErrorCode) {
    && (first == Timeout || first == ThreadQueueFull || first == WouldBlock) && p.drop != DropNew
    && (p.drop == DropOldest || p.backpressure == DropOldestFirst) && o.canDiscard
  }

  /** The policy has a usable retry budget and allows more than one attempt. */
  predicate CallsForRetry(p: SlaPolicy, ec: ErrorCode) {
    && ec == WouldBlock && p.drop != DropNew
    && p.retry.maxRetries > 0 && p.retry.initialBackoffMs > 0 && p.retry.maxBackoffMs >= p.retry.initialBackoffMs
  }

  /**
   * One message on one transport: the oldest queued message is discarded exactly when the first answer and the
   * policy call for it; only a successful discard counts as a drop and earns a second send; would-block after that
   * is retried within the budget; whatever comes last is the result.
   */
  lemma {:induction false} SendMeans(o: Oracle, w: Wire, p: SlaPolicy)
    ensures var out, first := SendWithBackpressure(o, w, p), o.send(w.sends);
            var dropped := CallsForDiscard(o, p, first) && o.discard(w.discards) == Ok;
            var second := if dropped then o.send(w.sends + 1) else first;
            var next := w.sends + 1 + One(dropped);
            && out.wire.discards == w.discards + One(CallsForDiscard(o, p, first))
            && out.drops == One(dropped)
            && if CallsForRetry(p, second) then RetryEnds(o, next, p.retry.maxRetries + 1, out.ec, out.wire.sends)
               else out.ec == second && out.wire.sends == next
  {
    if p.retry.maxRetries > 0 {
      var mid := DiscardAndResend(o, w.(sends := w.sends + 1), p, o.send(w.sends));
      RetryMeans(o, mid.wire.sends, p.retry.maxRetries + 1);
    }
  }
}
