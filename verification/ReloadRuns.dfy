/** Whole lives of a bridge: starts, stops, reloads and resolutions in any order. */
module ReloadRuns {
  import opened Types
  import opened PolicyEngine
  import opened PolicyCache
  import opened PolicySamples
  import CacheRuns
  import opened BridgeConfig
  import opened ConfigReload

  datatype Action =
    | Start(c: Config, s: Surroundings)
    | StartFrom(p: Option<Provider>, s: Surroundings)
    | Stop
    | Reload(p: Option<Provider>)
    | Resolve(e: Envelope)

  function Step(sig: Signature, b: Bridge, ev: Action): Bridge {
    match ev
    case Start(c, s) => StartStep(sig, b, c, s).bridge
    case StartFrom(p, s) => ProviderStartStep(sig, b, p, s).bridge
    case Stop => b.(running := false)
    case Reload(p) => ReloadStep(sig, b, p).bridge
    case Resolve(e) => Resolved(b, e)
  }

  function RunFrom(sig: Signature, b: Bridge, evs: seq<Action>): Bridge {
    if evs == [] then b else Step(sig, RunFrom(sig, b, evs[..|evs| - 1]), evs[|evs| - 1])
  }

  function Run(sig: Signature, evs: seq<Action>): Bridge {
    RunFrom(sig, FRESH_BRIDGE, evs)
  }

  // ---------------------------------------------------------------------------------------------
  // One reload

  /** The candidate got far enough to be put in place before it was checked. */
  predicate IsTried(b: Bridge, p: Provider) {
    && p.reloadEc == Ok && p.version != b.live.version && p.loadEc == Ok
    && !TooRisky(b.live.config, Normalized(p.config)) && KeepsLock(b.live.config, Normalized(p.config))
  }

  /**
   * A reload that does not return Ok leaves the configuration in force, the last known good one, and everything
   * derived from them as they were. Only a candidate that was tried leaves traces: its sampling settings and an
   * empty policy cache.
   */
  lemma FailedReloadIsAtomic(sig: Signature, b: Bridge, p: Option<Provider>)
    requires ReloadStep(sig, b, p).ec != Ok
    ensures var b' := ReloadStep(sig, b, p).bridge;
            && b'.live == b.live && b'.good == b.good
            && b'.running == b.running && b'.decodeMode == b.decodeMode && b'.tuning == b.tuning
            && (if p.Some? && IsTried(b, p.value) then b'.sampling == Sampling(p.value.config) && b'.cache == []
                else b'.sampling == b.sampling && b'.cache == b.cache)
  {
    if p.Some? && IsTried(b, p.value) {
      FailedTrialIsUndone(sig, b, p.value);
    } else if p.Some? {
      EarlyFailureTouchesNothing(sig, b, p.value);
    }
  }

  lemma EarlyFailureTouchesNothing(sig: Signature, b: Bridge, p: Provider)
    requires !IsTried(b, p)
    ensures var b' := Apply(sig, b, p).bridge; b' == b.(ledger := b'.ledger)
  {
  }

  lemma FailedTrialIsUndone(sig: Signature, b: Bridge, p: Provider)
    requires Trial(sig, b, p).ec != Ok
    ensures var b' := Trial(sig, b, p).bridge; b' == Tried(b, Normalized(p.config)).(ledger := b'.ledger)
  {
  }

  /**
   * A reload returns Ok exactly when there is nothing new or every guard passes; in the second case the new
   * configuration is in force, indexed, and known good, and the receivers' mode and the transports keep theirs.
   */
  lemma ReloadCommitsIff(sig: Signature, b: Bridge, p: Provider)
    ensures var r := ReloadStep(sig, b, Some(p)); var next := Normalized(p.config);
            && (r.ec == Ok <==>
                  p.reloadEc == Ok &&
                  (p.version == b.live.version || (IsTried(b, p) && IsUsable(next) && SignatureFits(sig, b, next))))
            && (r.ec == Ok && p.version != b.live.version ==>
                  && r.bridge.live == Loaded(Installed(p.config), p.version, p.source, SignatureOf(sig, next))
                  && r.bridge.good == r.bridge.live
                  && IsIndexed(r.bridge.live.config.table)
                  && r.bridge.decodeMode == b.decodeMode && r.bridge.tuning == b.tuning)
            && (r.ec == Ok && p.version == b.live.version ==>
                  r.bridge == b.(ledger := b.ledger.(status := Ok, reason := 0)))
  {
  }

  // ---------------------------------------------------------------------------------------------
  // Invariants of every run

  lemma InstalledIsIndexed(c: Config)
    ensures IsIndexed(Installed(c).table) && Installed(c).table.templates != []
  {
  }

  ghost predicate RunsIndexed(b: Bridge) {
    b.running ==> IsIndexed(b.live.config.table) && b.live.config.table.templates != []
  }

  lemma StartRunsIndexed(sig: Signature, b: Bridge, c: Config, s: Surroundings)
    requires RunsIndexed(b)
    ensures RunsIndexed(StartStep(sig, b, c, s).bridge)
  {
    InstalledIsIndexed(c);
  }

  lemma ReloadRunsIndexed(sig: Signature, b: Bridge, p: Provider)
    requires RunsIndexed(b)
    ensures RunsIndexed(Apply(sig, b, p).bridge)
  {
    InstalledIsIndexed(p.config);
  }

  lemma StepRunsIndexed(sig: Signature, b: Bridge, ev: Action)
    requires RunsIndexed(b)
    ensures RunsIndexed(Step(sig, b, ev))
  {
    match ev {
      case Start(c, s) => StartRunsIndexed(sig, b, c, s);
      case StartFrom(p, s) =>
        if p.Some? && p.value.loadEc == Ok {
          StartRunsIndexed(sig, Preloaded(sig, b, p.value), p.value.config, s);
        }
      case Reload(p) =>
        if p.Some? {
          ReloadRunsIndexed(sig, b, p.value);
        }
      case _ =>
    }
  }

  /** Whenever the bridge is running, its indexes are those a rebuild would produce. */
  lemma {:induction false} RunningIsIndexed(sig: Signature, evs: seq<Action>)
    ensures RunsIndexed(Run(sig, evs))
  {
    if evs != [] {
      var init := evs[..|evs| - 1];
      RunningIsIndexed(sig, init);
      StepRunsIndexed(sig, Run(sig, init), evs[|evs| - 1]);
    }
  }

  /** Every cached entry is the answer of the table in force for some envelope with its key. */
  ghost predicate CacheEarned(b: Bridge) {
    forall item :: item in b.cache ==> Earned(b.live.config.table, item)
  }

  ghost predicate Earned(t: PolicyTable, item: Item) {
    exists e :: KeyOf(e) == item.key && ResolveInternal(t, e) == item.entry
  }

  lemma AnswerEarned(b: Bridge, e: Envelope)
    requires CacheEarned(b)
    ensures Earned(b.live.config.table, Item(KeyOf(e), PolicyFor(b, e)))
  {
    if Find(b.cache, KeyOf(e)).Some? {
      CacheRuns.FindIsMember(b.cache, KeyOf(e));
    }
  }

  lemma ResolveKeepsEarned(b: Bridge, e: Envelope)
    requires CacheEarned(b)
    ensures CacheEarned(Resolved(b, e))
  {
    AnswerEarned(b, e);
    var added := Item(KeyOf(e), PolicyFor(b, e));
    forall item | item in Resolved(b, e).cache ensures Earned(b.live.config.table, item) {
      assert item == added || item in WithoutKey(b.cache, KeyOf(e));
      if item != added {
        CacheRuns.WithoutKeyKeeps(b.cache, KeyOf(e), item);
      }
    }
  }

  /** A start or a reload that changes the table in force empties the cache. */
  lemma StartKeepsEarned(sig: Signature, b: Bridge, c: Config, s: Surroundings)
    requires CacheEarned(b)
    ensures CacheEarned(StartStep(sig, b, c, s).bridge)
  {
  }

  lemma ReloadKeepsEarned(sig: Signature, b: Bridge, p: Provider)
    requires CacheEarned(b)
    ensures CacheEarned(Apply(sig, b, p).bridge)
  {
  }

  lemma StepKeepsEarned(sig: Signature, b: Bridge, ev: Action)
    requires CacheEarned(b)
    ensures CacheEarned(Step(sig, b, ev))
  {
    match ev {
      case Start(c, s) => StartKeepsEarned(sig, b, c, s);
      case StartFrom(p, s) =>
        if p.Some? && p.value.loadEc == Ok {
          StartKeepsEarned(sig, Preloaded(sig, b, p.value), p.value.config, s);
        }
      case Reload(p) =>
        if p.Some? {
          ReloadKeepsEarned(sig, b, p.value);
        }
      case Resolve(e) => ResolveKeepsEarned(b, e);
      case Stop =>
    }
  }

  lemma {:induction false} CacheStaysEarned(sig: Signature, evs: seq<Action>)
    ensures CacheEarned(Run(sig, evs))
  {
    if evs != [] {
      CacheStaysEarned(sig, evs[..|evs| - 1]);
      StepKeepsEarned(sig, Run(sig, evs[..|evs| - 1]), evs[|evs| - 1]);
    }
  }

  /** A reachable bridge whose table never tells envelopes of one key apart answers as that table says. */
  lemma PoliciesFollowTable(sig: Signature, evs: seq<Action>, e: Envelope)
    requires KeyDetermined(Run(sig, evs).live.config.table)
    ensures PolicyFor(Run(sig, evs), e) == ResolveInternal(Run(sig, evs).live.config.table, e)
  {
    var b := Run(sig, evs);
    CacheStaysEarned(sig, evs);
    AnswerEarned(b, e);
    var f :| KeyOf(f) == KeyOf(e) && ResolveInternal(b.live.config.table, f) == PolicyFor(b, e);
  }

  /**
   * What a rejected reload does to the policy of a message, for every bridge: it stays exactly when the candidate
   * was never put in place, or the message's key is not cached, or the cache agrees with the table in force.
   */
  lemma FailedReloadKeepsPolicyIff(sig: Signature, b: Bridge, p: Option<Provider>, e: Envelope)
    requires ReloadStep(sig, b, p).ec != Ok
    ensures var cached := Find(b.cache, KeyOf(e));
            PolicyFor(ReloadStep(sig, b, p).bridge, e) == PolicyFor(b, e) <==>
            p.None? || !IsTried(b, p.value) || cached.None? || cached.value == ResolveInternal(b.live.config.table, e)
  {
    FailedReloadIsAtomic(sig, b, p);
    var b' := ReloadStep(sig, b, p).bridge;
    if p.Some? && IsTried(b, p.value) {
      assert Find(b'.cache, KeyOf(e)).None?;
    } else {
      assert ResolverOf(b') == ResolverOf(b);
    }
  }

  /** So with such a table a rejected reload changes the policy of no message, in any reachable state. */
  lemma FailedReloadKeepsPolicies(sig: Signature, evs: seq<Action>, p: Option<Provider>, e: Envelope)
    requires KeyDetermined(Run(sig, evs).live.config.table)
    requires ReloadStep(sig, Run(sig, evs), p).ec != Ok
    ensures PolicyFor(ReloadStep(sig, Run(sig, evs), p).bridge, e) == PolicyFor(Run(sig, evs), e)
  {
    PoliciesFollowTable(sig, evs, e);
    FailedReloadKeepsPolicyIff(sig, Run(sig, evs), p, e);
  }

  // ---------------------------------------------------------------------------------------------
  // Accounting

  datatype ReloadTally = ReloadTally(calls: nat, noops: nat, providerFailures: nat, canaryRollbacks: nat)

  predicate HitsCanary(b: Bridge, ev: Action) {
    match ev
    case Start(c, s) => !b.running && s.haveTransports && CanaryBlocks(c, s.gate)
    case StartFrom(Some(p), s) => p.loadEc == Ok && !b.running && s.haveTransports && CanaryBlocks(p.config, s.gate)
    case _ => false
  }

  predicate IsCall(ev: Action) {
    ev.Reload? && ev.p.Some?
  }

  predicate IsNoop(b: Bridge, ev: Action) {
    IsCall(ev) && ev.p.value.reloadEc == Ok && ev.p.value.version == b.live.version
  }

  predicate IsProviderFailure(b: Bridge, ev: Action) {
    IsCall(ev) && (ev.p.value.reloadEc != Ok || (ev.p.value.version != b.live.version && ev.p.value.loadEc != Ok))
  }

  /** What an observer of the calls would count. */
  function Observed(sig: Signature, evs: seq<Action>): ReloadTally {
    if evs == [] then ReloadTally(0, 0, 0, 0)
    else
      var init, ev := evs[..|evs| - 1], evs[|evs| - 1];
      var t, b := Observed(sig, init), Run(sig, init);
      ReloadTally(t.calls + One(IsCall(ev)), t.noops + One(IsNoop(b, ev)),
            t.providerFailures + One(IsProviderFailure(b, ev)), t.canaryRollbacks + One(HitsCanary(b, ev)))
  }

  /** Exactly one of: a success, a failure with a rollback; nothing else is counted. */
  lemma TrialCounts(sig: Signature, b: Bridge, p: Provider)
    ensures var l, l' := b.ledger, Trial(sig, b, p).bridge.ledger;
            && l'.successes - l.successes + l'.fails - l.fails == 1
            && l'.fails - l.fails == l'.rollbacks - l.rollbacks
  {
  }

  lemma ReloadCounts(sig: Signature, b: Bridge, p: Provider)
    ensures var l, l', ev := b.ledger, Apply(sig, b, p).bridge.ledger, Reload(Some(p));
            && l'.successes - l.successes + l'.fails - l.fails + One(IsNoop(b, ev)) == 1
            && l'.fails - l.fails == l'.rollbacks - l.rollbacks + One(IsProviderFailure(b, ev))
  {
    if Screen(b, p) == Passes {
      TrialCounts(sig, b, p);
    }
  }

  lemma StartCounts(sig: Signature, b: Bridge, c: Config, s: Surroundings)
    ensures var l, l' := b.ledger, StartStep(sig, b, c, s).bridge.ledger;
            var blocked := One(HitsCanary(b, Start(c, s)));
            l'.successes == l.successes && l'.fails == l.fails + blocked && l'.rollbacks == l.rollbacks + blocked
  {
  }

  lemma StepCounts(sig: Signature, b: Bridge, ev: Action)
    ensures var l, l' := b.ledger, Step(sig, b, ev).ledger;
            && l'.successes - l.successes + l'.fails - l.fails + One(IsNoop(b, ev)) ==
               One(IsCall(ev)) + One(HitsCanary(b, ev))
            && l'.fails - l.fails == l'.rollbacks - l.rollbacks + One(IsProviderFailure(b, ev))
  {
    if IsCall(ev) {
      ReloadCounts(sig, b, ev.p.value);
    } else if ev.Start? {
      StartCounts(sig, b, ev.c, ev.s);
    } else if ev.StartFrom? && ev.p.Some? && ev.p.value.loadEc == Ok {
      StartCounts(sig, Preloaded(sig, b, ev.p.value), ev.p.value.config, ev.s);
    }
  }

  /**
   * After any run: each reload call succeeded, failed or found nothing new, each canary rejection of a start
   * counts as one more failure, and exactly the failures that were not the provider's were rolled back.
   */
  lemma {:induction false} LedgerBalances(sig: Signature, evs: seq<Action>)
    ensures var l, t := Run(sig, evs).ledger, Observed(sig, evs);
            && l.successes + l.fails + t.noops == t.calls + t.canaryRollbacks
            && l.fails == l.rollbacks + t.providerFailures
            && l.rollbacks <= l.fails
  {
    if evs != [] {
      var init := evs[..|evs| - 1];
      LedgerBalances(sig, init);
      StepCounts(sig, Run(sig, init), evs[|evs| - 1]);
    }
  }

  // ---------------------------------------------------------------------------------------------
  // The signature freezes

  predicate NoStarts(evs: seq<Action>) {
    forall i :: 0 <= i < |evs| ==> evs[i].Reload? || evs[i].Resolve? || evs[i].Stop?
  }

  lemma ReloadKeepsSignature(sig: Signature, b: Bridge, p: Provider)
    requires b.good.signature != 0
    ensures var b' := Apply(sig, b, p).bridge;
            b'.good.signature == b.good.signature && (b'.live == b.live || b'.live.signature == b.good.signature)
  {
  }

  /**
   * Once the known good signature is non-zero, no sequence of reloads changes it, and whatever such a sequence
   * puts in force was loaded with that very signature.
   */
  lemma {:induction false} SignatureFreezes(sig: Signature, b: Bridge, evs: seq<Action>)
    requires b.good.signature != 0 && NoStarts(evs)
    ensures var b' := RunFrom(sig, b, evs);
            b'.good.signature == b.good.signature && (b'.live == b.live || b'.live.signature == b.good.signature)
  {
    if evs != [] {
      var init, ev := evs[..|evs| - 1], evs[|evs| - 1];
      SignatureFreezes(sig, b, init);
      var before := RunFrom(sig, b, init);
      if ev.Reload? && ev.p.Some? {
        ReloadKeepsSignature(sig, before, ev.p.value);
      }
    }
  }
}
