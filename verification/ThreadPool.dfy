/**
 * The bounded thread pool of src/core/thread_pool.cpp as interleaved steps: one step per mutex section, per
 * condition-variable notification and per task completion.
 */
module ThreadPool {

  type Task = int

  datatype RejectionPolicy = RejectNewTask | CallerRuns

  /** Where the one effective `Stop` call stands. */
  datatype StopPhase = NotStopping | MustNotify | Joining | Joined | Returned

  datatype Pool = Pool(
    capacity: nat,
    policy: RejectionPolicy,
    running: bool,
    queue: seq<Task>,
    // workers, by where they are in WorkerLoop
    asleep: set<nat>,
    checking: set<nat>,
    busy: map<nat, Task>,
    exited: set<nat>,
    // callers inside Enqueue after it released the mutex
    mustNotify: nat,
    callersDeciding: multiset<Task>,
    callersRunning: multiset<Task>,
    // counters
    submitted: nat,
    executed: nat,
    rejected: nat,
    stop: StopPhase,
    // history: tasks put on the queue, taken off it, and finished by workers, in that order
    enqueued: seq<Task>,
    dispatched: seq<Task>,
    finished: seq<Task>)

  datatype Action =
    | Enqueue(t: Task)
    | NotifyOne(w: nat)
    | NotifyNobody
    | CallerStarts(t: Task)
    | CallerFinishes(t: Task)
    | Wake(w: nat)
    | Check(w: nat)
    | Finish(w: nat)
    | StopBegins
    | NotifyAll
    | StopJoins
    | StopSwaps

  function Workers(s: Pool): set<nat> {
    s.asleep + s.checking + s.busy.Keys + s.exited
  }

  /** A started pool: every worker is about to check the queue for the first time. */
  ghost predicate Init(s: Pool) {
    && s.capacity >= 1 && s.running && s.stop == NotStopping
    && s.queue == [] && s.enqueued == [] && s.dispatched == [] && s.finished == []
    && s.checking != {} && s.asleep == {} && s.busy == map[] && s.exited == {}
    && s.mustNotify == 0 && s.callersDeciding == multiset{} && s.callersRunning == multiset{}
    && s.submitted == 0 && s.executed == 0 && s.rejected == 0
  }

  predicate Enabled(s: Pool, a: Action) {
    match a
    case Enqueue(_) => true
    case NotifyOne(w) => s.mustNotify > 0 && w in s.asleep
    case NotifyNobody => s.mustNotify > 0 && s.asleep == {}
    case CallerStarts(t) => t in s.callersDeciding
    case CallerFinishes(t) => t in s.callersRunning
    case Wake(w) => w in s.asleep
    case Check(w) => w in s.checking
    case Finish(w) => w in s.busy
    case StopBegins => true
    case NotifyAll => s.stop == MustNotify
    case StopJoins => s.stop == Joining && s.exited == Workers(s)
    case StopSwaps => s.stop == Joined
  }

  function Apply(s: Pool, a: Action): Pool
    requires Enabled(s, a)
  {
    match a
    case Enqueue(t) =>
      if !s.running then s
      else if |s.queue| >= s.capacity then
        s.(rejected := s.rejected + 1,
           callersDeciding := if s.policy.CallerRuns? then s.callersDeciding + multiset{t} else s.callersDeciding)
      else
        s.(queue := s.queue + [t], submitted := s.submitted + 1, mustNotify := s.mustNotify + 1,
           enqueued := s.enqueued + [t])
    case NotifyOne(w) => s.(mustNotify := s.mustNotify - 1, asleep := s.asleep - {w}, checking := s.checking + {w})
    case NotifyNobody => s.(mustNotify := s.mustNotify - 1)
    case CallerStarts(t) =>
      s.(callersDeciding := s.callersDeciding - multiset{t}, callersRunning := s.callersRunning + multiset{t},
         submitted := s.submitted + 1)
    case CallerFinishes(t) => s.(callersRunning := s.callersRunning - multiset{t}, executed := s.executed + 1)
    case Wake(w) => s.(asleep := s.asleep - {w}, checking := s.checking + {w})
    case Check(w) =>
      if s.queue != [] then
        s.(queue := s.queue[1..], checking := s.checking - {w}, busy := s.busy[w := s.queue[0]],
           dispatched := s.dispatched + [s.queue[0]])
      else if s.running then s.(checking := s.checking - {w}, asleep := s.asleep + {w})
      else s.(checking := s.checking - {w}, exited := s.exited + {w})
    case Finish(w) =>
      s.(busy := s.busy - {w}, checking := s.checking + {w}, executed := s.executed + 1,
         finished := s.finished + [s.busy[w]])
    case StopBegins => if !s.running then s else s.(running := false, stop := MustNotify)
    case NotifyAll => s.(asleep := {}, checking := s.checking + s.asleep, stop := Joining)
    case StopJoins => s.(stop := Joined)
    case StopSwaps => s.(queue := [], stop := Returned)
  }

  // ---------------------------------------------------------------------------------------------
  // The tasks being run by workers, as a multiset

  ghost function InHand(busy: map<nat, Task>): multiset<Task> {
    if busy == map[] then multiset{}
    else
      var w :| w in busy;
      multiset{busy[w]} + InHand(busy - {w})
  }

  lemma {:induction false} InHandWithout(busy: map<nat, Task>, w: nat)
    requires w in busy
    ensures InHand(busy) == multiset{busy[w]} + InHand(busy - {w})
    decreases |busy|
  {
    var first :| first in busy && InHand(busy) == multiset{busy[first]} + InHand(busy - {first});
    if first != w {
      var rest := busy - {first} - {w};
      assert rest == busy - {w} - {first};
      InHandWithout(busy - {first}, w);
      InHandWithout(busy - {w}, first);
      SwapAdded(busy[first], busy[w], InHand(rest));
    }
  }

  lemma SwapAdded(x: Task, y: Task, m: multiset<Task>)
    ensures multiset{x} + (multiset{y} + m) == multiset{y} + (multiset{x} + m)
  {
  }

  lemma InHandWith(busy: map<nat, Task>, w: nat, t: Task)
    requires w !in busy
    ensures InHand(busy[w := t]) == InHand(busy) + multiset{t}
  {
    InHandWithout(busy[w := t], w);
    assert busy[w := t] - {w} == busy;
  }

  // ---------------------------------------------------------------------------------------------
  // The invariant

  ghost predicate WorkersApart(s: Pool) {
    && s.asleep !! s.checking !! s.exited
    && s.busy.Keys !! s.asleep && s.busy.Keys !! s.checking && s.busy.Keys !! s.exited
    && Workers(s) != {}
  }

  ghost predicate Accounts(s: Pool) {
    && |s.queue| <= s.capacity
    && s.enqueued == s.dispatched + s.queue
    && multiset(s.dispatched) == multiset(s.finished) + InHand(s.busy)
    && s.submitted == |s.queue| + |s.busy| + |s.callersRunning| + s.executed
  }

  ghost predicate Draining(s: Pool) {
    && (s.stop == NotStopping <==> s.running)
    && (s.exited != {} ==> !s.running && s.queue == [])
    && (s.stop in {Joined, Returned} ==> s.exited == Workers(s))
  }

  /** Somebody is awake or about to be woken whenever there is work or a shutdown to notice. */
  ghost predicate NoLostWakeup(s: Pool) {
    && (s.queue != [] ==> s.mustNotify > 0 || s.checking != {} || s.busy != map[] || s.stop == MustNotify)
    && (s.stop in {Joining, Joined, Returned} ==> s.asleep == {})
  }

  ghost predicate Inv(s: Pool) {
    WorkersApart(s) && Accounts(s) && Draining(s) && NoLostWakeup(s)
  }

  lemma SizeWithout(busy: map<nat, Task>, w: nat)
    requires w in busy
    ensures |busy - {w}| == |busy| - 1
  {
    assert (busy - {w}).Keys == busy.Keys - {w};
    assert |busy - {w}| == |(busy - {w}).Keys|;
  }

  lemma SizeWith(busy: map<nat, Task>, w: nat, t: Task)
    requires w !in busy
    ensures |busy[w := t]| == |busy| + 1
  {
    assert busy[w := t] - {w} == busy;
    SizeWithout(busy[w := t], w);
  }

  lemma WorkersKept(s: Pool, a: Action)
    requires WorkersApart(s) && Enabled(s, a)
    ensures WorkersApart(Apply(s, a)) && Workers(Apply(s, a)) == Workers(s)
  {
    if a.Check? && s.queue != [] {
      assert s.busy[a.w := s.queue[0]].Keys == s.busy.Keys + {a.w};
    } else if a.Finish? {
      assert (s.busy - {a.w}).Keys == s.busy.Keys - {a.w};
    }
  }

  lemma DispatchAccounted(s: Pool, w: nat)
    requires Accounts(s) && w in s.checking && w !in s.busy && s.queue != []
    ensures Accounts(Apply(s, Check(w)))
  {
    DispatchBalances(s.dispatched, s.finished, s.busy, w, s.queue[0]);
    SizeWith(s.busy, w, s.queue[0]);
    HeadMoves(s.dispatched, s.queue);
  }

  lemma HeadMoves(before: seq<Task>, queue: seq<Task>)
    requires queue != []
    ensures (before + [queue[0]]) + queue[1..] == before + queue
  {
  }

  lemma DispatchBalances(dispatched: seq<Task>, finished: seq<Task>, busy: map<nat, Task>, w: nat, t: Task)
    requires w !in busy && multiset(dispatched) == multiset(finished) + InHand(busy)
    ensures multiset(dispatched + [t]) == multiset(finished) + InHand(busy[w := t])
  {
    InHandWith(busy, w, t);
  }

  lemma FinishAccounted(s: Pool, w: nat)
    requires Accounts(s) && w in s.busy
    ensures Accounts(Apply(s, Finish(w)))
  {
    InHandWithout(s.busy, w);
    SizeWithout(s.busy, w);
  }

  lemma AccountsKept(s: Pool, a: Action)
    requires Inv(s) && Enabled(s, a)
    ensures Accounts(Apply(s, a))
  {
    match a
    case Enqueue(t) => assert s.dispatched + (s.queue + [t]) == s.dispatched + s.queue + [t];
    case Check(w) =>
      if s.queue != [] {
        DispatchAccounted(s, w);
      }
    case Finish(w) => FinishAccounted(s, w);
    case StopSwaps => StoppedIsDrained(s);
    case _ =>
  }

  /** Once the workers are joined, the queue is empty: the final swap has nothing to discard. */
  lemma StoppedIsDrained(s: Pool)
    requires WorkersApart(s) && Draining(s) && s.stop in {Joined, Returned}
    ensures s.queue == [] && s.busy == map[] && s.checking == {} && s.asleep == {}
  {
    assert s.checking <= Workers(s) && s.asleep <= Workers(s) && s.busy.Keys <= Workers(s);
    assert s.busy.Keys == {};
  }

  predicate ByWorker(a: Action) {
    a.Check? || a.Finish?
  }

  predicate ByStop(a: Action) {
    a.StopBegins? || a.NotifyAll? || a.StopJoins? || a.StopSwaps?
  }

  lemma WorkerKeepsDraining(s: Pool, a: Action)
    requires WorkersApart(s) && Draining(s) && Enabled(s, a) && ByWorker(a)
    ensures Draining(Apply(s, a))
  {
    WorkersKept(s, a);
    if s.stop in {Joined, Returned} {
      StoppedIsDrained(s);
    }
  }

  lemma StopKeepsDraining(s: Pool, a: Action)
    requires WorkersApart(s) && Draining(s) && Enabled(s, a) && ByStop(a)
    ensures Draining(Apply(s, a))
  {
    WorkersKept(s, a);
    if s.stop in {Joined, Returned} {
      StoppedIsDrained(s);
    }
  }

  lemma OthersKeepDraining(s: Pool, a: Action)
    requires WorkersApart(s) && Draining(s) && Enabled(s, a) && !ByWorker(a) && !ByStop(a)
    ensures Draining(Apply(s, a))
  {
    WorkersKept(s, a);
    if s.stop in {Joined, Returned} {
      StoppedIsDrained(s);
    }
  }

  lemma DrainingKept(s: Pool, a: Action)
    requires WorkersApart(s) && Draining(s) && Enabled(s, a)
    ensures Draining(Apply(s, a))
  {
    if ByWorker(a) {
      WorkerKeepsDraining(s, a);
    } else if ByStop(a) {
      StopKeepsDraining(s, a);
    } else {
      OthersKeepDraining(s, a);
    }
  }

  lemma WorkerKeepsWakeup(s: Pool, a: Action)
    requires NoLostWakeup(s) && Enabled(s, a) && ByWorker(a) && (s.running <==> s.stop == NotStopping)
    ensures NoLostWakeup(Apply(s, a))
  {
    var s' := Apply(s, a);
    if a.Check? {
      assert s.queue != [] ==> a.w in s'.busy;
    } else {
      assert a.w in s'.checking;
    }
  }

  lemma StopKeepsWakeup(s: Pool, a: Action)
    requires WorkersApart(s) && Draining(s) && NoLostWakeup(s) && Enabled(s, a) && ByStop(a)
    ensures NoLostWakeup(Apply(s, a))
  {
    if a.NotifyAll? {
      WorkersKept(s, a);
      AwakeWorker(Apply(s, a));
    }
  }

  lemma OthersKeepWakeup(s: Pool, a: Action)
    requires WorkersApart(s) && Draining(s) && NoLostWakeup(s) && Enabled(s, a) && !ByWorker(a) && !ByStop(a)
    ensures NoLostWakeup(Apply(s, a))
  {
    if a.NotifyNobody? {
      AwakeWorker(s);
    } else if a.NotifyOne? || a.Wake? {
      assert a.w in Apply(s, a).checking;
    }
  }

  lemma WakeupKept(s: Pool, a: Action)
    requires WorkersApart(s) && Draining(s) && NoLostWakeup(s) && Enabled(s, a)
    ensures NoLostWakeup(Apply(s, a))
  {
    if ByWorker(a) {
      WorkerKeepsWakeup(s, a);
    } else if ByStop(a) {
      StopKeepsWakeup(s, a);
    } else {
      OthersKeepWakeup(s, a);
    }
  }

  lemma AwakeWorker(s: Pool)
    requires WorkersApart(s) && s.asleep == {} && (s.queue != [] ==> s.exited == {})
    ensures s.queue != [] ==> s.checking != {} || s.busy != map[]
  {
  }

  lemma InvKept(s: Pool, a: Action)
    requires Inv(s) && Enabled(s, a)
    ensures Inv(Apply(s, a))
  {
    WorkersKept(s, a);
    AccountsKept(s, a);
    DrainingKept(s, a);
    WakeupKept(s, a);
  }

  // ---------------------------------------------------------------------------------------------
  // Main results, over every interleaving

  ghost predicate IsRun(states: seq<Pool>, actions: seq<Action>) {
    && |states| == |actions| + 1 && Init(states[0])
    && forall i :: 0 <= i < |actions| ==>
         Enabled(states[i], actions[i]) && states[i + 1] == Apply(states[i], actions[i])
  }

  lemma {:induction false} InvAlways(states: seq<Pool>, actions: seq<Action>, n: nat)
    requires IsRun(states, actions) && n < |states|
    ensures Inv(states[n])
  {
    if n > 0 {
      InvAlways(states, actions, n - 1);
      InvKept(states[n - 1], actions[n - 1]);
    }
  }

  /** The queue never overflows, tasks leave it in the order they entered, and no submission is lost track of. */
  lemma PoolAccounts(states: seq<Pool>, actions: seq<Action>, n: nat)
    requires IsRun(states, actions) && n < |states|
    ensures var s := states[n];
            && |s.queue| <= s.capacity
            && s.dispatched <= s.enqueued && s.enqueued == s.dispatched + s.queue
            && multiset(s.dispatched) == multiset(s.finished) + InHand(s.busy)
            && s.submitted == |s.queue| + |s.busy| + |s.callersRunning| + s.executed
  {
    InvAlways(states, actions, n);
  }

  /** The swap at the end of Stop discards nothing, and by then every queued task ran exactly once. */
  lemma StopLosesNothing(states: seq<Pool>, actions: seq<Action>, n: nat)
    requires IsRun(states, actions) && n < |actions| && actions[n] == StopSwaps
    ensures states[n].queue == []
    ensures var s := states[n + 1];
            && s.dispatched == s.enqueued
            && multiset(s.finished) == multiset(s.enqueued)
            && s.submitted == |s.callersRunning| + s.executed
  {
    InvAlways(states, actions, n);
    AllRanWhenJoined(states[n]);
  }

  lemma AllRanWhenJoined(s: Pool)
    requires WorkersApart(s) && Accounts(s) && Draining(s) && s.stop == Joined
    ensures s.queue == [] && s.dispatched == s.enqueued && multiset(s.finished) == multiset(s.enqueued)
    ensures s.submitted == |s.callersRunning| + s.executed
  {
    StoppedIsDrained(s);
    assert s.dispatched + [] == s.dispatched;
  }

  /** Steps the pool takes by itself, without a new caller and without a spurious wake-up. */
  predicate Internal(a: Action) {
    !a.Enqueue? && !a.StopBegins? && !a.Wake?
  }

  /** No wake-up is lost: while work is queued or a Stop is under way, the pool can take a step of its own. */
  lemma NeverStuck(states: seq<Pool>, actions: seq<Action>, n: nat)
    requires IsRun(states, actions) && n < |states|
    requires states[n].queue != [] || states[n].stop in {MustNotify, Joining, Joined}
    ensures exists a :: Internal(a) && Enabled(states[n], a)
  {
    InvAlways(states, actions, n);
    var s := states[n];
    var a :=
      if s.stop == MustNotify then NotifyAll
      else if s.stop == Joined then StopSwaps
      else if s.checking != {} then (var w :| w in s.checking; Check(w))
      else if s.busy != map[] then (var w :| w in s.busy; Finish(w))
      else if s.stop == Joining then StopJoins
      else if s.asleep != {} then (var w :| w in s.asleep; NotifyOne(w))
      else NotifyNobody;
    assert Internal(a) && Enabled(s, a);
  }

  /** An upper bound on the worker steps left before a Stop can join everybody. */
  function Effort(s: Pool): nat {
    2 * |s.queue| + |s.busy| + |Workers(s) - s.exited|
  }

  lemma OneFewerLeft(workers: set<nat>, exited: set<nat>, w: nat)
    requires w in workers && w !in exited
    ensures |workers - (exited + {w})| == |workers - exited| - 1
  {
    assert workers - (exited + {w}) == (workers - exited) - {w};
  }

  lemma CheckAdvances(s: Pool, w: nat)
    requires WorkersApart(s) && !s.running && w in s.checking
    ensures Effort(Apply(s, Check(w))) < Effort(s)
  {
    WorkersKept(s, Check(w));
    if s.queue != [] {
      SizeWith(s.busy, w, s.queue[0]);
    } else {
      OneFewerLeft(Workers(s), s.exited, w);
    }
  }

  /** Every worker step brings the end of a Stop closer and no other step pushes it back. */
  lemma StopAdvances(s: Pool, a: Action)
    requires Inv(s) && Enabled(s, a) && s.stop == Joining && !a.StopJoins?
    ensures Apply(s, a).stop == Joining
    ensures Effort(Apply(s, a)) <= Effort(s)
    ensures a.Check? || a.Finish? ==> Effort(Apply(s, a)) < Effort(s)
  {
    WorkersKept(s, a);
    if a.Check? {
      CheckAdvances(s, a.w);
    } else if a.Finish? {
      SizeWithout(s.busy, a.w);
    }
  }

  /** While somebody is still to be joined, some worker has a step to take. */
  lemma JoiningCanMove(s: Pool)
    requires WorkersApart(s) && NoLostWakeup(s) && s.stop == Joining && s.exited != Workers(s)
    ensures Effort(s) > 0
    ensures exists w :: Enabled(s, Check(w)) || Enabled(s, Finish(w))
  {
    var w := SomebodyLeft(Workers(s), s.exited);
    assert w in s.checking || w in s.busy;
    assert Enabled(s, Check(w)) || Enabled(s, Finish(w));
  }

  lemma SomebodyLeft(workers: set<nat>, exited: set<nat>) returns (w: nat)
    requires exited <= workers && exited != workers
    ensures w in workers && w !in exited && |workers - exited| > 0
  {
    w :| w in workers && w !in exited;
    assert w in workers - exited;
  }

  function WorkerStep(a: Action): nat {
    if a.Check? || a.Finish? then 1 else 0
  }

  /** The worker steps among some actions. */
  function WorkerSteps(actions: seq<Action>): nat {
    if actions == [] then 0 else WorkerSteps(actions[..|actions| - 1]) + WorkerStep(actions[|actions| - 1])
  }

  lemma StepUsesEffort(states: seq<Pool>, actions: seq<Action>, i: nat)
    requires IsRun(states, actions) && i < |actions| && states[i].stop == Joining && !actions[i].StopJoins?
    ensures states[i + 1].stop == Joining && WorkerStep(actions[i]) + Effort(states[i + 1]) <= Effort(states[i])
  {
    InvAlways(states, actions, i);
    StopAdvances(states[i], actions[i]);
  }

  lemma WorkerStepsSnoc(actions: seq<Action>, m: nat, n: nat)
    requires m < n <= |actions|
    ensures WorkerSteps(actions[m..n]) == WorkerSteps(actions[m..n - 1]) + WorkerStep(actions[n - 1])
  {
    assert actions[m..n][..n - 1 - m] == actions[m..n - 1];
  }

  lemma {:induction false} StaysJoining(states: seq<Pool>, actions: seq<Action>, m: nat, n: nat)
    requires IsRun(states, actions) && m <= n <= |actions| && states[m].stop == Joining
    requires forall i :: m <= i < n ==> !actions[i].StopJoins?
    ensures states[n].stop == Joining
  {
    if m < n {
      StaysJoining(states, actions, m, n - 1);
      StepUsesEffort(states, actions, n - 1);
    }
  }

  predicate UsesEffort(s: Pool, a: Action, s': Pool) {
    WorkerStep(a) + Effort(s') <= Effort(s)
  }

  lemma {:induction false} EffortSums(states: seq<Pool>, actions: seq<Action>, m: nat, n: nat)
    requires |states| == |actions| + 1 && m <= n <= |actions|
    requires forall i :: m <= i < n ==> UsesEffort(states[i], actions[i], states[i + 1])
    ensures WorkerSteps(actions[m..n]) + Effort(states[n]) <= Effort(states[m])
  {
    if m < n {
      EffortSums(states, actions, m, n - 1);
      WorkerStepsSnoc(actions, m, n);
      assert UsesEffort(states[n - 1], actions[n - 1], states[n]);
    }
  }

  lemma StepsUseEffort(states: seq<Pool>, actions: seq<Action>, m: nat, n: nat)
    requires IsRun(states, actions) && m <= n <= |actions| && states[m].stop == Joining
    requires forall i :: m <= i < n ==> !actions[i].StopJoins?
    ensures WorkerSteps(actions[m..n]) + Effort(states[n]) <= Effort(states[m])
  {
    forall i | m <= i < n ensures UsesEffort(states[i], actions[i], states[i + 1]) {
      StaysJoining(states, actions, m, i);
      StepUsesEffort(states, actions, i);
    }
    EffortSums(states, actions, m, n);
  }

  /**
   * A Stop that has woken the workers comes to an end, in every run and whatever else callers do meanwhile: until
   * the join, some worker can always move, and the workers together move at most `Effort` times.
   */
  lemma StopEnds(states: seq<Pool>, actions: seq<Action>, m: nat, n: nat)
    requires IsRun(states, actions) && m <= n <= |actions| && states[m].stop == Joining
    requires forall i :: m <= i < n ==> !actions[i].StopJoins?
    ensures WorkerSteps(actions[m..n]) <= Effort(states[m])
    ensures Enabled(states[n], StopJoins) || exists w :: Enabled(states[n], Check(w)) || Enabled(states[n], Finish(w))
    ensures WorkerSteps(actions[m..n]) == Effort(states[m]) ==> Enabled(states[n], StopJoins)
  {
    StepsUseEffort(states, actions, m, n);
    StaysJoining(states, actions, m, n);
    InvAlways(states, actions, n);
    if !Enabled(states[n], StopJoins) {
      JoiningCanMove(states[n]);
    }
  }

  // ---------------------------------------------------------------------------------------------
  // What becomes of a submission

  /**
   * In every run: a running pool with room takes the task at the back of the queue and counts it as submitted; a
   * full one counts a rejection and leaves the task to its caller exactly under the caller-runs policy; a stopped
   * one does nothing.
   */
  lemma EnqueueMeans(states: seq<Pool>, actions: seq<Action>, n: nat)
    requires IsRun(states, actions) && n < |actions| && actions[n].Enqueue?
    ensures var s, s', t := states[n], states[n + 1], actions[n].t;
            if !s.running then s' == s
            else if |s.queue| < s.capacity then
              && s'.queue == s.queue + [t] && s'.enqueued == s.enqueued + [t]
              && s'.submitted == s.submitted + 1 && s'.rejected == s.rejected && s'.mustNotify == s.mustNotify + 1
              && s'.callersDeciding == s.callersDeciding
            else
              && s'.queue == s.queue && s'.submitted == s.submitted && s'.rejected == s.rejected + 1
              && s'.callersDeciding == (if s.policy == CallerRuns then s.callersDeciding + multiset{t}
                                        else s.callersDeciding)
  {
  }

  predicate MeetsFullQueue(s: Pool, a: Action) {
    a.Enqueue? && s.running && |s.queue| >= s.capacity
  }

  predicate FindsRoom(s: Pool, a: Action) {
    a.Enqueue? && s.running && |s.queue| < s.capacity
  }

  datatype StepCount = StepCount(submissions: nat, rejections: nat, completions: nat)

  /** What an observer of the first `n` steps would count. */
  function Observed(states: seq<Pool>, actions: seq<Action>, n: nat): StepCount
    requires n <= |actions| <= |states|
  {
    if n == 0 then StepCount(0, 0, 0)
    else
      var c, s, a := Observed(states, actions, n - 1), states[n - 1], actions[n - 1];
      StepCount(c.submissions + (if FindsRoom(s, a) || a.CallerStarts? then 1 else 0),
                c.rejections + (if MeetsFullQueue(s, a) then 1 else 0),
                c.completions + (if a.Finish? || a.CallerFinishes? then 1 else 0))
  }

  lemma StepIsCounted(s: Pool, a: Action)
    requires Enabled(s, a)
    ensures var s' := Apply(s, a);
            && s'.submitted == s.submitted + (if FindsRoom(s, a) || a.CallerStarts? then 1 else 0)
            && s'.rejected == s.rejected + (if MeetsFullQueue(s, a) then 1 else 0)
            && s'.executed == s.executed + (if a.Finish? || a.CallerFinishes? then 1 else 0)
            && s'.capacity == s.capacity && s'.policy == s.policy
  {
  }

  /** Over every run the counters are exact: rejections are the submissions that met a full queue, nothing else. */
  lemma {:induction false} CountersAreExact(states: seq<Pool>, actions: seq<Action>, n: nat)
    requires IsRun(states, actions) && n < |states|
    ensures var s, c := states[n], Observed(states, actions, n);
            s.submitted == c.submissions && s.rejected == c.rejections && s.executed == c.completions
  {
    if n > 0 {
      CountersAreExact(states, actions, n - 1);
      StepIsCounted(states[n - 1], actions[n - 1]);
    }
  }

  // ---------------------------------------------------------------------------------------------
  // What workers and Stop do

  /** A worker that looks at the queue takes its head; at an empty one it sleeps, or leaves once the pool is stopped. */
  lemma WorkerMeans(s: Pool, w: nat)
    requires WorkersApart(s) && w in s.checking
    ensures Enabled(s, Check(w))
    ensures var s' := Apply(s, Check(w));
            if s.queue != [] then
              && w in s'.busy && s'.busy[w] == s.queue[0] && s'.queue == s.queue[1..] && w !in s'.checking
              && Enabled(s', Finish(w)) && w in Apply(s', Finish(w)).checking && w !in Apply(s', Finish(w)).busy
            else if s.running then s' == s.(checking := s.checking - {w}, asleep := s.asleep + {w})
            else s' == s.(checking := s.checking - {w}, exited := s.exited + {w})
  {
  }

  /** A sleeping worker looks again when it is notified, or for no reason at all. */
  lemma SleepersWake(s: Pool, w: nat)
    requires w in s.asleep
    ensures Enabled(s, Wake(w)) && w in Apply(s, Wake(w)).checking
    ensures s.mustNotify > 0 ==> Enabled(s, NotifyOne(w)) && w in Apply(s, NotifyOne(w)).checking
  {
  }

  /** Callers may submit and stop at any time; the tasks handed back to callers are run by them. */
  lemma CallersMean(s: Pool, t: Task)
    ensures Enabled(s, Enqueue(t)) && Enabled(s, StopBegins)
    ensures t in s.callersDeciding ==>
              && Enabled(s, CallerStarts(t))
              && t in Apply(s, CallerStarts(t)).callersRunning
              && Enabled(Apply(s, CallerStarts(t)), CallerFinishes(t))
  {
  }

  /**
   * A Stop in its phases: it closes the pool to submissions once, wakes everybody, waits for every worker to leave,
   * and only then empties the queue. A second Stop does nothing.
   */
  lemma StopMeans(s: Pool)
    ensures var s' := Apply(s, StopBegins);
            if s.running then s' == s.(running := false, stop := MustNotify) else s' == s
    ensures Enabled(s, NotifyAll) <==> s.stop == MustNotify
    ensures s.stop == MustNotify ==>
              Apply(s, NotifyAll) == s.(asleep := {}, checking := s.checking + s.asleep, stop := Joining)
    ensures Enabled(s, StopJoins) <==> s.stop == Joining && s.exited == s.asleep + s.checking + s.busy.Keys + s.exited
    ensures Enabled(s, StopJoins) ==> Apply(s, StopJoins) == s.(stop := Joined)
    ensures Enabled(s, StopSwaps) <==> s.stop == Joined
    ensures s.stop == Joined ==> Apply(s, StopSwaps) == s.(queue := [], stop := Returned)
  {
  }
}
