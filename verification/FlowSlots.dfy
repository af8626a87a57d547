/**
 * The in-flight limiter of one direction: AcquireFlowSlot and ReleaseFlowSlot interleaved at single atomic
 * read-modify-write steps by any number of publishers.
 */
module FlowSlots {
  import opened Types

  /**
   * `holding` are the publishers between a granted acquire and their release; `backingOut` are those whose
   * fetch_add went over the limit and whose compensating fetch_sub is still to come.
   */
  datatype Slots = Slots(limit: Uint32, counter: Uint32, holding: set<nat>, backingOut: set<nat>)

  function Decrement(c: Uint32): Uint32 {
    (c + UINT32_MODULUS - 1) % UINT32_MODULUS
  }

  datatype Action = Acquire(p: nat) | BackOut(p: nat) | Release(p: nat) | Tune(limit: Uint32)

  predicate Idle(s: Slots) {
    s.holding == {} && s.backingOut == {}
  }

  /** Publishers are threads 0, 1, ..., threads - 1, each in at most one call at a time. */
  predicate Enabled(s: Slots, a: Action, threads: nat) {
    match a
    case Acquire(p) => p < threads && p !in s.holding && p !in s.backingOut
    case BackOut(p) => p in s.backingOut
    case Release(p) => p in s.holding
    case Tune(_) => true
  }

  function Apply(s: Slots, a: Action): Slots {
    match a
    case Acquire(p) =>
      if s.limit == 0 then s.(holding := s.holding + {p})
      else
        var current := Increment(s.counter);
        if current > s.limit then s.(counter := current, backingOut := s.backingOut + {p})
        else s.(counter := current, holding := s.holding + {p})
    case BackOut(p) => s.(counter := Decrement(s.counter), backingOut := s.backingOut - {p})
    case Release(p) =>
      s.(counter := if s.limit == 0 then s.counter else Decrement(s.counter), holding := s.holding - {p})
    case Tune(limit) => s.(limit := limit, counter := 0)
  }

  /** Granted at once: the first step of an acquire already decides. */
  predicate Granted(s: Slots, p: nat) {
    p in Apply(s, Acquire(p)).holding
  }

  ghost predicate Inv(s: Slots, threads: nat) {
    && s.holding !! s.backingOut
    && (forall p :: p in s.holding ==> p < threads)
    && (forall p :: p in s.backingOut ==> p < threads)
    && (s.limit > 0 ==> s.counter == |s.holding| + |s.backingOut| && |s.holding| <= s.limit)
    && (s.limit == 0 ==> s.counter == 0 && s.backingOut == {})
  }

  lemma {:induction false} FewerThan(xs: set<nat>, n: nat)
    requires forall x :: x in xs ==> x < n
    ensures |xs| <= n
  {
    if n > 0 {
      var rest := xs - {n - 1};
      FewerThan(rest, n - 1);
      assert xs <= rest + {n - 1};
      if n - 1 in xs {
        assert xs == rest + {n - 1};
      } else {
        assert xs == rest;
      }
    } else {
      assert xs == {};
    }
  }

  /** Restarting the limiter is harmless exactly when nobody who will still subtract is in flight. */
  predicate SafeTune(s: Slots, limit: Uint32) {
    Idle(s) || (limit == 0 && s.backingOut == {})
  }

  lemma SafeTunePreserves(s: Slots, limit: Uint32, threads: nat)
    requires Inv(s, threads) && SafeTune(s, limit)
    ensures Inv(Apply(s, Tune(limit)), threads)
  {
  }

  lemma RoomForOne(s: Slots, p: nat, threads: nat)
    requires Inv(s, threads) && Enabled(s, Acquire(p), threads)
    ensures |s.holding| + |s.backingOut| + 1 <= threads
  {
    var all := s.holding + s.backingOut + {p};
    assert |all| == |s.holding| + |s.backingOut| + 1;
    FewerThan(all, threads);
  }

  lemma AcquirePreserves(s: Slots, p: nat, threads: nat)
    requires threads < UINT32_MODULUS && Inv(s, threads) && Enabled(s, Acquire(p), threads)
    ensures Inv(Apply(s, Acquire(p)), threads)
  {
    RoomForOne(s, p, threads);
    if s.limit > 0 {
      assert Increment(s.counter) == s.counter + 1;
      assert |s.holding + {p}| == |s.holding| + 1;
      assert |s.backingOut + {p}| == |s.backingOut| + 1;
    }
  }

  lemma LeavePreserves(s: Slots, a: Action, threads: nat)
    requires Inv(s, threads) && Enabled(s, a, threads) && (a.BackOut? || a.Release?)
    ensures Inv(Apply(s, a), threads)
  {
    if a.BackOut? {
      assert |s.backingOut - {a.p}| == |s.backingOut| - 1;
    } else {
      assert |s.holding - {a.p}| == |s.holding| - 1;
    }
    if s.limit > 0 {
      assert Decrement(s.counter) == s.counter - 1;
    }
  }

  lemma InvPreserved(s: Slots, a: Action, threads: nat)
    requires threads < UINT32_MODULUS && Inv(s, threads) && Enabled(s, a, threads)
    requires a.Tune? ==> SafeTune(s, a.limit)
    ensures Inv(Apply(s, a), threads)
  {
    match a
    case Acquire(p) => AcquirePreserves(s, p, threads);
    case BackOut(p) => LeavePreserves(s, a, threads);
    case Release(p) => LeavePreserves(s, a, threads);
    case Tune(limit) => SafeTunePreserves(s, limit, threads);
  }

  /** A run from a freshly tuned limiter; further tuning happens only when it is harmless. */
  ghost predicate IsRun(states: seq<Slots>, actions: seq<Action>, threads: nat) {
    && |states| == |actions| + 1
    && states[0].counter == 0 && Idle(states[0])
    && forall i :: 0 <= i < |actions| ==>
         && Enabled(states[i], actions[i], threads)
         && (actions[i].Tune? ==> SafeTune(states[i], actions[i].limit))
         && states[i + 1] == Apply(states[i], actions[i])
  }

  /**
   * In every reachable state a non-zero limit is respected, the counter is exactly the holders plus the refused
   * publishers yet to back out (so it never wraps), and it is zero when nobody is in a call.
   */
  lemma {:induction false} LimitRespected(states: seq<Slots>, actions: seq<Action>, threads: nat, n: nat)
    requires threads < UINT32_MODULUS && IsRun(states, actions, threads) && n < |states|
    ensures var s := states[n];
            && Inv(s, threads)
            && (s.limit > 0 ==> |s.holding| <= s.limit && s.counter == |s.holding| + |s.backingOut|)
            && (Idle(s) ==> s.counter == 0)
  {
    if n > 0 {
      LimitRespected(states, actions, threads, n - 1);
      InvPreserved(states[n - 1], actions[n - 1], threads);
    }
  }

  /** An acquire is granted exactly when holders and refused publishers still in transit leave room. */
  lemma GrantedIff(s: Slots, p: nat, threads: nat)
    requires threads < UINT32_MODULUS && Inv(s, threads) && Enabled(s, Acquire(p), threads)
    ensures Granted(s, p) <==> s.limit == 0 || |s.holding| + |s.backingOut| < s.limit
  {
    RoomForOne(s, p, threads);
  }

  /** Hence a publisher can be refused while no slot is held at all. */
  lemma RefusedWithoutHolders()
    ensures var s0 := Slots(1, 0, {}, {});
            var s1 := Apply(s0, Acquire(0));
            var s2 := Apply(s1, Acquire(1));
            var s3 := Apply(s2, Release(0));
            && IsRun([s0, s1, s2, s3], [Acquire(0), Acquire(1), Release(0)], 3)
            && s3.holding == {} && !Granted(s3, 2)
  {
    var s0 := Slots(1, 0, {}, {});
    var s1 := Apply(s0, Acquire(0));
    var s2 := Apply(s1, Acquire(1));
    var s3 := Apply(s2, Release(0));
    assert s3 == Slots(1, 1, {}, {1});
  }

  // ---------------------------------------------------------------------------------------------
  // What an unsafe restart does

  /** The subtractions still to come from those in flight. */
  function Owed(s: Slots): nat {
    |s.backingOut| + if s.limit == 0 then 0 else |s.holding|
  }

  /** The counter less what is owed, modulo 2^32. */
  function Balance(s: Slots): int {
    (s.counter - Owed(s)) % UINT32_MODULUS
  }

  lemma SubtractBoth(c: Uint32, owed: nat)
    requires owed > 0
    ensures (Decrement(c) - (owed - 1)) % UINT32_MODULUS == (c - owed) % UINT32_MODULUS
  {
    if c == 0 {
      assert (UINT32_MODULUS - owed) % UINT32_MODULUS == (0 - owed) % UINT32_MODULUS;
    }
  }

  lemma AddBoth(c: Uint32, owed: nat)
    ensures (Increment(c) - (owed + 1)) % UINT32_MODULUS == (c - owed) % UINT32_MODULUS
  {
    if c == UINT32_MODULUS - 1 {
      assert (0 - (owed + 1)) % UINT32_MODULUS == (UINT32_MODULUS - 1 - owed) % UINT32_MODULUS;
    }
  }

  lemma AcquireKeepsBalance(s: Slots, p: nat)
    requires p !in s.holding && p !in s.backingOut
    ensures Balance(Apply(s, Acquire(p))) == Balance(s)
  {
    assert |s.holding + {p}| == |s.holding| + 1 && |s.backingOut + {p}| == |s.backingOut| + 1;
    AddBoth(s.counter, Owed(s));
  }

  lemma LeaveKeepsBalance(s: Slots, a: Action)
    requires (a.BackOut? && a.p in s.backingOut) || (a.Release? && a.p in s.holding)
    ensures Balance(Apply(s, a)) == Balance(s)
  {
    if a.BackOut? {
      assert |s.backingOut - {a.p}| == |s.backingOut| - 1;
      SubtractBoth(s.counter, Owed(s));
    } else {
      assert |s.holding - {a.p}| == |s.holding| - 1;
      if s.limit > 0 {
        SubtractBoth(s.counter, Owed(s));
      }
    }
  }

  /** Until the next restart every step moves the counter and what is owed together. */
  lemma StepKeepsBalance(s: Slots, a: Action, threads: nat)
    requires Enabled(s, a, threads) && !a.Tune?
    ensures Balance(Apply(s, a)) == Balance(s)
  {
    if a.Acquire? {
      AcquireKeepsBalance(s, a.p);
    } else {
      LeaveKeepsBalance(s, a);
    }
  }

  /** Any steps of any publishers, but no restart. */
  ghost predicate Continues(states: seq<Slots>, actions: seq<Action>, threads: nat) {
    && |states| == |actions| + 1
    && forall i :: 0 <= i < |actions| ==>
         Enabled(states[i], actions[i], threads) && !actions[i].Tune? && states[i + 1] == Apply(states[i], actions[i])
  }

  lemma {:induction false} BalanceKept(states: seq<Slots>, actions: seq<Action>, threads: nat, n: nat)
    requires Continues(states, actions, threads) && n < |states|
    ensures Balance(states[n]) == Balance(states[0])
  {
    if n > 0 {
      BalanceKept(states, actions, threads, n - 1);
      StepKeepsBalance(states[n - 1], actions[n - 1], threads);
    }
  }

  lemma OwedFits(s: Slots, limit: Uint32, threads: nat)
    requires Inv(s, threads)
    ensures Owed(s.(limit := limit)) <= threads
    ensures Owed(s.(limit := limit)) == 0 <==> SafeTune(s, limit)
  {
    var all := s.holding + s.backingOut;
    assert |all| == |s.holding| + |s.backingOut|;
    FewerThan(all, threads);
  }

  /**
   * Restart the limiter in any state it can be in, let publishers come and go in any way until nobody is left: the
   * counter is then zero exactly when the restart was safe. Otherwise it stands below zero by the number of
   * publishers that were to subtract, wrapped around.
   */
  lemma TuneSafeIff(s: Slots, limit: Uint32, threads: nat, states: seq<Slots>, actions: seq<Action>)
    requires threads < UINT32_MODULUS && Inv(s, threads)
    requires Continues(states, actions, threads) && states[0] == Apply(s, Tune(limit)) && Idle(states[|actions|])
    ensures var left, owed := states[|actions|].counter, Owed(Apply(s, Tune(limit)));
            && (left == 0 <==> SafeTune(s, limit))
            && (!SafeTune(s, limit) ==> 0 < owed <= threads && left == UINT32_MODULUS - owed)
  {
    BalanceKept(states, actions, threads, |actions|);
    OwedFits(s, limit, threads);
    var owed := Owed(states[0]);
    assert owed > 0 ==> (0 - owed) % UINT32_MODULUS == UINT32_MODULUS - owed;
  }

  /**
   * What publishers see afterwards: with nobody in flight and `owed` subtractions too many, a lone publisher is
   * granted a slot exactly if a single one was owed or the limit reaches up to the wrapped counter. A refused one
   * changes nothing, so under any ordinary limit two owed subtractions shut the direction until the next restart.
   */
  lemma LoneAcquireIff(s: Slots, owed: nat, p: nat)
    requires Idle(s) && s.limit > 0 && 0 < owed < UINT32_MODULUS && s.counter == UINT32_MODULUS - owed
    ensures Granted(s, p) <==> owed == 1 || UINT32_MODULUS - owed + 1 <= s.limit
    ensures !Granted(s, p) ==> Apply(Apply(s, Acquire(p)), BackOut(p)) == s
  {
    if owed == 1 {
      assert Increment(s.counter) == 0;
    } else {
      assert Increment(s.counter) == s.counter + 1;
      assert Decrement(s.counter + 1) == s.counter;
      assert s.backingOut + {p} - {p} == s.backingOut;
    }
  }

  /** Before they leave: a restart lets the next publisher in however many already hold a slot. */
  lemma TuneAdmitsOneMore(s: Slots, limit: Uint32, p: nat)
    requires limit > 0
    ensures Granted(Apply(s, Tune(limit)), p)
  {
  }

  ghost predicate Sane(s: Slots, threads: nat) {
    s.holding !! s.backingOut && forall p :: p in s.holding || p in s.backingOut ==> p < threads
  }

  lemma SaneCount(s: Slots, threads: nat)
    requires Sane(s, threads)
    ensures |s.holding| + |s.backingOut| <= threads
  {
    var all := s.holding + s.backingOut;
    assert |all| == |s.holding| + |s.backingOut|;
    FewerThan(all, threads);
  }

  /** A counter that is `owed` too low says how many are in flight. */
  lemma InFlightFromCounter(counter: Uint32, n: nat, owed: nat)
    requires n < UINT32_MODULUS && owed < UINT32_MODULUS
    requires (counter - n) % UINT32_MODULUS == (0 - owed) % UINT32_MODULUS
    ensures n >= owed ==> n == counter + owed
  {
    var k, m := (counter - n) / UINT32_MODULUS, (0 - owed) / UINT32_MODULUS;
    assert counter - n + owed == UINT32_MODULUS * (k - m);
  }

  lemma AcquireBounded(s: Slots, p: nat, threads: nat, owed: nat)
    requires threads < UINT32_MODULUS && owed <= threads && s.limit > 0
    requires Sane(s, threads) && Enabled(s, Acquire(p), threads)
    requires Balance(s) == (0 - owed) % UINT32_MODULUS && |s.holding| <= s.limit + owed
    ensures Sane(Apply(s, Acquire(p)), threads) && |Apply(s, Acquire(p)).holding| <= s.limit + owed
  {
    var s' := Apply(s, Acquire(p));
    StepKeepsBalance(s, Acquire(p), threads);
    SaneCount(s', threads);
    InFlightFromCounter(s'.counter, Owed(s'), owed);
  }

  lemma LeaveBounded(s: Slots, a: Action, threads: nat)
    requires Sane(s, threads) && Enabled(s, a, threads) && (a.BackOut? || a.Release?)
    ensures Sane(Apply(s, a), threads) && |Apply(s, a).holding| <= |s.holding|
  {
    if a.Release? {
      assert |s.holding - {a.p}| == |s.holding| - 1;
    }
  }

  /** How far a restart can loosen the limit: never by more than the subtractions owed at the time. */
  lemma {:induction false} HoldersBounded(
    s: Slots, limit: Uint32, threads: nat, states: seq<Slots>, actions: seq<Action>, n: nat)
    requires threads < UINT32_MODULUS && Inv(s, threads) && limit > 0
    requires Continues(states, actions, threads) && states[0] == Apply(s, Tune(limit)) && n < |states|
    ensures states[n].limit == limit && Sane(states[n], threads)
    ensures |states[n].holding| <= limit + Owed(Apply(s, Tune(limit)))
  {
    OwedFits(s, limit, threads);
    if n > 0 {
      HoldersBounded(s, limit, threads, states, actions, n - 1);
      BalanceKept(states, actions, threads, n - 1);
      if actions[n - 1].Acquire? {
        AcquireBounded(states[n - 1], actions[n - 1].p, threads, Owed(Apply(s, Tune(limit))));
      } else {
        LeaveBounded(states[n - 1], actions[n - 1], threads);
      }
    }
  }

  /** Everybody in flight can leave, one after another. */
  lemma {:induction false} CanDrain(s: Slots, threads: nat) returns (states: seq<Slots>, actions: seq<Action>)
    ensures Continues(states, actions, threads) && states[0] == s && Idle(states[|actions|])
    decreases |s.holding| + |s.backingOut|
  {
    if Idle(s) {
      states, actions := [s], [];
    } else {
      var a: Action;
      if s.holding != {} {
        var p :| p in s.holding;
        a := Release(p);
        assert |s.holding - {p}| == |s.holding| - 1;
      } else {
        var p :| p in s.backingOut;
        a := BackOut(p);
        assert |s.backingOut - {p}| == |s.backingOut| - 1;
      }
      var later, rest := CanDrain(Apply(s, a), threads);
      states, actions := [s] + later, [a] + rest;
    }
  }

  /** Restarting the bridge under a publisher's feet makes the counter wrap to its largest value. */
  lemma TuneInFlightUnderflows()
    ensures var s := Apply(Apply(Apply(Slots(1, 0, {}, {}), Acquire(0)), Tune(1)), Release(0));
            Idle(s) && s.counter == UINT32_MODULUS - 1
  {
    var s1 := Apply(Slots(1, 0, {}, {}), Acquire(0));
    assert s1 == Slots(1, 1, {0}, {});
  }
}
