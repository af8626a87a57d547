/** The failover circuit breaker of src/interconnect/transport_orchestrator.cpp. */
module CircuitBreaker {
  import opened Types

  /** The two streak counters are 32-bit and wrap around. */
  datatype Breaker = Breaker(failStreak: Uint32, successStreak: Uint32, open: bool)

  const CLOSED: Breaker := Breaker(0, 0, false)

  datatype Thresholds = Thresholds(breakAt: Uint32, recoverAt: Uint32)

  const DEFAULT_THRESHOLDS: Thresholds := Thresholds(3, 2)

  function OnFailure(b: Breaker, t: Thresholds): Breaker {
    var streak := Increment(b.failStreak);
    Breaker(streak, 0, b.open || streak >= t.breakAt)
  }

  function OnSuccess(b: Breaker, t: Thresholds): Breaker {
    var streak := Increment(b.successStreak);
    if b.open && streak >= t.recoverAt then Breaker(0, 0, false) else Breaker(0, streak, b.open)
  }

  datatype Direction = VehicleToRobot | RobotToVehicle

  class TransportOrchestrator {
    var thresholds: Thresholds
    var secondaryWeight: Uint32
    var failStreak: Uint32
    var successStreak: Uint32
    var circuitOpen: bool

    ghost function State(): Breaker
      reads `failStreak, `successStreak, `circuitOpen
    {
      Breaker(failStreak, successStreak, circuitOpen)
    }

    constructor ()
      ensures State() == CLOSED && thresholds == DEFAULT_THRESHOLDS
    {
      thresholds, secondaryWeight := DEFAULT_THRESHOLDS, 0;
      failStreak, successStreak, circuitOpen := 0, 0, false;
    }

    method OnPrimarySendFailure()
      modifies `failStreak, `successStreak, `circuitOpen
      ensures State() == OnFailure(old(State()), thresholds)
    {
      failStreak := Increment(failStreak);
      successStreak := 0;
      if failStreak >= thresholds.breakAt {
        circuitOpen := true;
      }
    }

    method OnPrimarySendSuccess()
      modifies `failStreak, `successStreak, `circuitOpen
      ensures State() == OnSuccess(old(State()), thresholds)
    {
      failStreak := 0;
      successStreak := Increment(successStreak);
      if circuitOpen && successStreak >= thresholds.recoverAt {
        circuitOpen := false;
        successStreak := 0;
      }
    }

    /** The target depends on the direction and its switch alone, in every breaker state and for every weight. */
    method ResolveFailover(primary: Direction, enableV2r: bool, enableR2v: bool) returns (r: Option<Direction>)
      ensures r == FailoverTarget(primary, enableV2r, enableR2v)
    {
      if circuitOpen {
        if primary == VehicleToRobot && enableV2r {
          return Some(RobotToVehicle);
        }
        if primary == RobotToVehicle && enableR2v {
          return Some(VehicleToRobot);
        }
      }
      if secondaryWeight > 0 {
        if primary == VehicleToRobot && enableV2r {
          return Some(RobotToVehicle);
        }
        if primary == RobotToVehicle && enableR2v {
          return Some(VehicleToRobot);
        }
      }
      if primary == VehicleToRobot && enableV2r {
        return Some(RobotToVehicle);
      }
      if primary == RobotToVehicle && enableR2v {
        return Some(VehicleToRobot);
      }
      return None;
    }
  }

  function Opposite(d: Direction): Direction {
    if d.VehicleToRobot? then RobotToVehicle else VehicleToRobot
  }

  function FailoverTarget(primary: Direction, enableV2r: bool, enableR2v: bool): Option<Direction> {
    if (if primary.VehicleToRobot? then enableV2r else enableR2v) then Some(Opposite(primary)) else None
  }

  // ---------------------------------------------------------------------------------------------
  // The breaker as a function of the history of primary sends (true is a success)

  function After(history: seq<bool>, t: Thresholds): Breaker {
    if history == [] then CLOSED
    else
      var before := After(history[..|history| - 1], t);
      if history[|history| - 1] then OnSuccess(before, t) else OnFailure(before, t)
  }

  /** A zero threshold acts as one. */
  function AtLeastOne(n: Uint32): nat {
    if n == 0 then 1 else n
  }

  /** The `n` outcomes before position `i` are all failures. */
  ghost predicate FailuresEndAt(h: seq<bool>, i: nat, n: nat) {
    n <= i <= |h| && forall k :: i - n <= k < i ==> !h[k]
  }

  ghost predicate RunAt(h: seq<bool>, j: nat, n: nat) {
    j + n <= |h| && forall k :: j <= k < j + n ==> h[k]
  }

  /** Somewhere at or after `from` there are `n` successes in a row. */
  ghost predicate SuccessRunIn(h: seq<bool>, from: nat, n: nat) {
    exists j: nat :: from <= j && RunAt(h, j, n)
  }

  /** The documented behaviour: tripped by enough consecutive failures and not recovered since. */
  ghost predicate Tripped(h: seq<bool>, breakAt: nat, recoverAt: nat) {
    exists i: nat :: FailuresEndAt(h, i, breakAt) && !SuccessRunIn(h, i, recoverAt)
  }

  function Trailing(h: seq<bool>, outcome: bool): nat {
    if h == [] || h[|h| - 1] != outcome then 0 else 1 + Trailing(h[..|h| - 1], outcome)
  }

  lemma {:induction false} TrailingMeans(h: seq<bool>, outcome: bool)
    ensures Trailing(h, outcome) <= |h|
    ensures forall k :: |h| - Trailing(h, outcome) <= k < |h| ==> h[k] == outcome
    ensures Trailing(h, outcome) < |h| ==> h[|h| - Trailing(h, outcome) - 1] != outcome
  {
    if h != [] && h[|h| - 1] == outcome {
      TrailingMeans(h[..|h| - 1], outcome);
    }
  }

  lemma FailuresSoFar(h: seq<bool>, n: nat)
    ensures FailuresEndAt(h, |h|, n) <==> n <= Trailing(h, false)
  {
    var f := Trailing(h, false);
    TrailingMeans(h, false);
    if f < n <= |h| {
      assert h[|h| - f - 1];
    }
  }

  lemma TrippedAfterFailure(h: seq<bool>, breakAt: nat, recoverAt: nat)
    requires breakAt >= 1 && recoverAt >= 1
    ensures Tripped(h + [false], breakAt, recoverAt) <==>
            Tripped(h, breakAt, recoverAt) || breakAt <= Trailing(h, false) + 1
  {
    var h' := h + [false];
    assert h'[..|h|] == h;
    FailuresSoFar(h', breakAt);
    if Tripped(h, breakAt, recoverAt) {
      var i: nat :| FailuresEndAt(h, i, breakAt) && !SuccessRunIn(h, i, recoverAt);
      assert FailuresEndAt(h', i, breakAt);
      forall j: nat | i <= j && RunAt(h', j, recoverAt) ensures RunAt(h, j, recoverAt) {
        assert !h'[|h|];
      }
    }
    if FailuresEndAt(h', |h'|, breakAt) {
      assert !SuccessRunIn(h', |h'|, recoverAt);
    }
    if Tripped(h', breakAt, recoverAt) && !FailuresEndAt(h', |h'|, breakAt) {
      var i: nat :| FailuresEndAt(h', i, breakAt) && !SuccessRunIn(h', i, recoverAt);
      assert i <= |h| && FailuresEndAt(h, i, breakAt);
      RunsOnlyGrow(h, false, i, recoverAt);
    }
  }

  lemma RunsOnlyGrow(h: seq<bool>, outcome: bool, from: nat, n: nat)
    ensures SuccessRunIn(h, from, n) ==> SuccessRunIn(h + [outcome], from, n)
  {
    if SuccessRunIn(h, from, n) {
      var j: nat :| from <= j && RunAt(h, j, n);
      assert RunAt(h + [outcome], j, n);
    }
  }

  lemma TrippedAfterSuccess(h: seq<bool>, breakAt: nat, recoverAt: nat)
    requires breakAt >= 1 && recoverAt >= 1
    ensures Tripped(h + [true], breakAt, recoverAt) <==>
            Tripped(h, breakAt, recoverAt) && Trailing(h, true) + 1 < recoverAt
  {
    var h', s := h + [true], Trailing(h, true);
    TrailingMeans(h, true);
    assert forall k :: 0 <= k < |h| ==> h'[k] == h[k];
    if Tripped(h', breakAt, recoverAt) {
      var i: nat :| FailuresEndAt(h', i, breakAt) && !SuccessRunIn(h', i, recoverAt);
      assert !h'[i - 1];
      assert FailuresEndAt(h, i, breakAt);
      RunsOnlyGrow(h, true, i, recoverAt);
      if recoverAt <= s + 1 {
        assert i <= |h| - s;
        assert RunAt(h', |h'| - recoverAt, recoverAt);
        assert false;
      }
    }
    if Tripped(h, breakAt, recoverAt) && s + 1 < recoverAt {
      var i: nat :| FailuresEndAt(h, i, breakAt) && !SuccessRunIn(h, i, recoverAt);
      assert FailuresEndAt(h', i, breakAt);
      forall j: nat | i <= j && RunAt(h', j, recoverAt) ensures RunAt(h, j, recoverAt) {
        if j + recoverAt == |h'| {
          assert false;
        }
      }
    }
  }

  ghost predicate TracksHistory(b: Breaker, h: seq<bool>, t: Thresholds) {
    && (b.open <==> Tripped(h, AtLeastOne(t.breakAt), AtLeastOne(t.recoverAt)))
    && b.failStreak == Trailing(h, false) % UINT32_MODULUS
    && (b.open ==> b.successStreak == Trailing(h, true) < AtLeastOne(t.recoverAt))
  }

  lemma IncrementIsModular(x: nat)
    ensures Increment(x % UINT32_MODULUS) == (x + 1) % UINT32_MODULUS
  {
  }

  lemma FailureTracked(b: Breaker, h: seq<bool>, t: Thresholds)
    requires TracksHistory(b, h, t)
    ensures TracksHistory(OnFailure(b, t), h + [false], t)
  {
    var breakAt, recoverAt, f := AtLeastOne(t.breakAt), AtLeastOne(t.recoverAt), Trailing(h, false);
    assert (h + [false])[..|h|] == h;
    IncrementIsModular(f);
    TrippedAfterFailure(h, breakAt, recoverAt);
    if breakAt <= f {
      LongFailuresTrip(h, breakAt, recoverAt);
    } else {
      assert Increment(b.failStreak) == f + 1;
    }
  }

  lemma SuccessTracked(b: Breaker, h: seq<bool>, t: Thresholds)
    requires TracksHistory(b, h, t)
    ensures TracksHistory(OnSuccess(b, t), h + [true], t)
  {
    assert (h + [true])[..|h|] == h;
    TrippedAfterSuccess(h, AtLeastOne(t.breakAt), AtLeastOne(t.recoverAt));
  }

  /**
   * For every history and every pair of thresholds the circuit is open exactly when enough consecutive failures
   * tripped it and no long enough run of successes came after; counter wrap-around never shows.
   */
  lemma {:induction false} OpenIffTripped(history: seq<bool>, t: Thresholds)
    ensures TracksHistory(After(history, t), history, t)
    ensures After(history, t).open <==> Tripped(history, AtLeastOne(t.breakAt), AtLeastOne(t.recoverAt))
  {
    if history == [] {
      assert forall i: nat :: !FailuresEndAt(history, i, AtLeastOne(t.breakAt));
    } else {
      var h, last := history[..|history| - 1], history[|history| - 1];
      assert history == h + [last];
      OpenIffTripped(h, t);
      if last {
        SuccessTracked(After(h, t), h, t);
      } else {
        FailureTracked(After(h, t), h, t);
      }
    }
  }

  lemma LongFailuresTrip(h: seq<bool>, breakAt: nat, recoverAt: nat)
    requires breakAt >= 1 && recoverAt >= 1 && Trailing(h, false) >= breakAt
    ensures Tripped(h, breakAt, recoverAt)
  {
    FailuresSoFar(h, breakAt);
    assert FailuresEndAt(h, |h|, breakAt) && !SuccessRunIn(h, |h|, recoverAt);
  }
}
