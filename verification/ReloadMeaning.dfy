/** One reload and one start, spelled out on the fields of configurations, providers and signatures. */
module ReloadMeaning {
  import opened Types
  import opened BridgeConfig
  import opened ConfigReload

  /** The ledger after a reload: how it is reported and which counters moved. */
  predicate Reports(l: Ledger, l': Ledger, ec: ErrorCode, reason: nat, failed: bool, rolledBack: bool) {
    && l'.status == ec && l'.reason == reason
    && l'.fails == l.fails + One(failed) && l'.rollbacks == l.rollbacks + One(rolledBack)
  }

  predicate SamePolicyFields(p: SlaPolicy, q: SlaPolicy) {
    && p.maxLatencyMs == q.maxLatencyMs
    && p.receiveTimeoutMs == q.receiveTimeoutMs && p.sendTimeoutMs == q.sendTimeoutMs
    && p.backpressure == q.backpressure && p.drop == q.drop && p.retry.maxRetries == q.retry.maxRetries
    && p.retry.initialBackoffMs == q.retry.initialBackoffMs && p.retry.maxBackoffMs == q.retry.maxBackoffMs
  }

  /**
   * Every guard of a reload in order, on the configuration in force, the normalized candidate and the signatures,
   * with the code and reason it answers and whether it counts as a failure and a rollback.
   */
  lemma ReloadGuards(sig: Signature, b: Bridge, p: Provider)
    ensures var r, cur, next := ReloadStep(sig, b, Some(p)), b.live.config, Normalized(p.config);
            var l, l', mine, other := b.ledger, r.bridge.ledger, cur.table.defaultPolicy, next.table.defaultPolicy;
            var changed := One(other.maxLatencyMs != mine.maxLatencyMs) + One(next.protocolMode != cur.protocolMode) +
                           One(next.workerCount != cur.workerCount);
            var expected := b.good.signature;
            if p.reloadEc != Ok then r.ec == p.reloadEc && Reports(l, l', r.ec, 1, true, false)
            else if p.version == b.live.version then r.ec == Ok && Reports(l, l', Ok, 0, false, false)
            else if p.loadEc != Ok then r.ec == p.loadEc && Reports(l, l', r.ec, 2, true, false)
            else if cur.risk.enabled && cur.risk.autoRollback && changed >= cur.risk.threshold then
              r.ec == InvalidParam && Reports(l, l', InvalidParam, 6, true, true)
            else if mine.lockPolicy && !SamePolicyFields(mine, other) then
              r.ec == InvalidParam && Reports(l, l', InvalidParam, 5, true, true)
            else if expected != 0 && sig(HashedFields(next.table)) != expected then
              r.ec == QueueCreateFailed && Reports(l, l', QueueCreateFailed, 4, true, true)
            else if next.workerCount == 0 || next.queueCapacity == 0 || next.vehicleToRobot.name == "" ||
                    next.robotToVehicle.name == "" || other.retry.initialBackoffMs < 0 ||
                    other.retry.maxBackoffMs < other.retry.initialBackoffMs then
              r.ec == InvalidParam && Reports(l, l', InvalidParam, 3, true, true)
            else
              && r.ec == Ok && Reports(l, l', Ok, 0, false, false) && l'.successes == l.successes + 1
              && r.bridge.live == Loaded(Installed(p.config), p.version, p.source, sig(HashedFields(next.table)))
              && r.bridge.good == r.bridge.live && r.bridge.sampling == Sampling(p.config) && r.bridge.cache == []
              && r.bridge.running == b.running && r.bridge.decodeMode == b.decodeMode && r.bridge.tuning == b.tuning
    ensures ReloadStep(sig, b, None) == Transition(b, InvalidParam)
  {
    if Screen(b, p) == Passes {
      TrialInWords(sig, b, p);
    }
  }

  lemma TrialInWords(sig: Signature, b: Bridge, p: Provider)
    ensures var r, next, expected := Trial(sig, b, p), Normalized(p.config), b.good.signature;
            var l, l', retry := b.ledger, r.bridge.ledger, next.table.defaultPolicy.retry;
            if expected != 0 && sig(HashedFields(next.table)) != expected then
              r.ec == QueueCreateFailed && Reports(l, l', QueueCreateFailed, 4, true, true)
            else if next.workerCount == 0 || next.queueCapacity == 0 || next.vehicleToRobot.name == "" ||
                    next.robotToVehicle.name == "" || retry.initialBackoffMs < 0 ||
                    retry.maxBackoffMs < retry.initialBackoffMs then
              r.ec == InvalidParam && Reports(l, l', InvalidParam, 3, true, true)
            else
              && r.ec == Ok && Reports(l, l', Ok, 0, false, false) && l'.successes == l.successes + 1
              && r.bridge.live == Loaded(Installed(p.config), p.version, p.source, sig(HashedFields(next.table)))
              && r.bridge.good == r.bridge.live && r.bridge.sampling == Sampling(p.config) && r.bridge.cache == []
              && r.bridge.running == b.running && r.bridge.decodeMode == b.decodeMode && r.bridge.tuning == b.tuning
  {
  }

  /**
   * A start, on its own fields: a running bridge ignores it; missing transports and the canary refuse it; otherwise
   * the configuration is installed, the transports are tuned from its endpoints, and the bridge runs exactly if both
   * transports, the pool and both loops start. The first failure is the result.
   */
  lemma StartMeans(sig: Signature, b: Bridge, c: Config, s: Surroundings)
    ensures var r := StartStep(sig, b, c, s);
            var source := if b.live.source == "" then "direct" else b.live.source;
            if b.running then r == Transition(b, Ok)
            else if !s.haveTransports then r == Transition(b.(live := b.live.(source := source)), InvalidParam)
            else
              && r.bridge.decodeMode == c.protocolMode && r.bridge.sampling == Sampling(c) && r.bridge.cache == []
              && r.bridge.ledger.successes == b.ledger.successes
              && (b.good.version != 0 ==> r.bridge.good == b.good)
              && (b.good.version == 0 ==>
                    r.bridge.good ==
                    Loaded(Normalized(c), b.live.version, source, sig(HashedFields(Normalized(c).table))))
              && if c.canary.enabled && c.canary.percent < 100 && s.gate >= c.canary.percent then
                   && r.ec == WouldBlock && !r.bridge.running && r.bridge.live == r.bridge.good
                   && r.bridge.tuning == b.tuning
                   && Reports(b.ledger, r.bridge.ledger, WouldBlock, b.ledger.reason, true, true)
                 else
                   && IsFirstFailure(s, r.ec) && (r.bridge.running <==> r.ec == Ok) && r.bridge.ledger == b.ledger
                   && r.bridge.live.config == Installed(c) && r.bridge.live.version == b.live.version
                   && r.bridge.live.source == source
                   && r.bridge.live.signature ==
                      (if b.good.version != 0 then b.live.signature else r.bridge.good.signature)
                   && r.bridge.tuning.limitV2r == c.vehicleToRobot.flowLimit
                   && r.bridge.tuning.limitR2v == c.robotToVehicle.flowLimit
                   && r.bridge.tuning.thresholdV2r == c.vehicleToRobot.highPriorityThreshold
                   && r.bridge.tuning.thresholdR2v == c.robotToVehicle.highPriorityThreshold
                   && (r.bridge.tuning.failover <==> c.additionalEndpoints != [])
  {
  }

  /** The first thing that went wrong is the result; a loop the pool ran in its caller for want of room is fine. */
  predicate IsFirstFailure(s: Surroundings, ec: ErrorCode) {
    var pool := s.createV2r == Ok && s.createR2v == Ok && s.poolEc == Ok;
    var firstLoop := s.enqueueV2r == Ok || s.enqueueV2r == ThreadTaskRejected;
    var secondLoop := s.enqueueR2v == Ok || s.enqueueR2v == ThreadTaskRejected;
    && (ec == Ok <==> pool && firstLoop && secondLoop)
    && (s.createV2r != Ok ==> ec == s.createV2r)
    && (s.createV2r == Ok && s.createR2v != Ok ==> ec == s.createR2v)
    && (s.createV2r == Ok && s.createR2v == Ok && s.poolEc != Ok ==> ec == s.poolEc)
    && (pool && !firstLoop ==> ec == s.enqueueV2r)
    && (pool && firstLoop && !secondLoop ==> ec == s.enqueueR2v)
  }

  /** A start from a provider: a failed load changes nothing; otherwise the raw configuration is known good first. */
  lemma ProviderStartMeans(sig: Signature, b: Bridge, p: Provider, s: Surroundings)
    ensures var r, raw := ProviderStartStep(sig, b, Some(p), s), sig(HashedFields(p.config.table));
            if p.loadEc != Ok then r == Transition(b, p.loadEc)
            else
              r == StartStep(sig, b.(live := Loaded(b.live.config, p.version, p.source, raw),
                                     good := Loaded(p.config, p.version, p.source, raw)), p.config, s)
    ensures ProviderStartStep(sig, b, None, s) == Transition(b, InvalidParam)
  {
  }
}
