/** Starting, stopping and reloading the bridge: a configuration is committed as a whole or not at all. */
module ConfigReload {
  import opened Types
  import opened PolicyEngine
  import opened PolicyCache
  import opened BridgeConfig

  datatype Loaded = Loaded(config: Config, version: Uint64, source: string, signature: Uint64)

  /** What `ApplyTransportTuning` derives from a configuration. */
  datatype Tuning = Tuning(
    limitV2r: Uint32,
    limitR2v: Uint32,
    thresholdV2r: Uint32,
    thresholdR2v: Uint32,
    failover: bool)

  datatype Ledger = Ledger(successes: nat, fails: nat, rollbacks: nat, status: ErrorCode, reason: nat)

  /** `live` is the configuration in force, `good` the last known good one, `cache` the policy cache. */
  datatype Bridge = Bridge(
    running: bool,
    live: Loaded,
    good: Loaded,
    sampling: SamplingConfig,
    decodeMode: ProtocolMode,
    tuning: Tuning,
    cache: seq<Item>,
    ledger: Ledger)

  const NOTHING_LOADED: Loaded := Loaded(DEFAULT_CONFIG, 0, "", 0)

  const FRESH_BRIDGE: Bridge :=
    Bridge(false, NOTHING_LOADED, NOTHING_LOADED, SamplingConfig(10, 2000, 5000, 1000, false), LegacyPipe,
           Tuning(256, 256, 1, 1, false), [], Ledger(0, 0, 0, Ok, 0))

  /** One consultation of a configuration provider: what each of its calls returns. */
  datatype Provider = Provider(reloadEc: ErrorCode, version: Uint64, loadEc: ErrorCode, config: Config, source: string)

  datatype Transition = Transition(bridge: Bridge, ec: ErrorCode)

  // ---------------------------------------------------------------------------------------------
  // Reload

  function RiskScore(current: Config, next: Config): nat {
    One(next.table.defaultPolicy.maxLatencyMs != current.table.defaultPolicy.maxLatencyMs) +
    One(next.protocolMode != current.protocolMode) + One(next.workerCount != current.workerCount)
  }

  predicate TooRisky(current: Config, next: Config) {
    current.risk.enabled && current.risk.autoRollback && RiskScore(current, next) >= current.risk.threshold
  }

  predicate KeepsLock(current: Config, next: Config) {
    current.table.defaultPolicy.lockPolicy ==>
      HashPolicy(current.table.defaultPolicy) == HashPolicy(next.table.defaultPolicy)
  }

  predicate IsUsable(c: Config) {
    && c.workerCount > 0 && c.queueCapacity > 0 && c.vehicleToRobot.name != "" && c.robotToVehicle.name != ""
    && c.table.defaultPolicy.retry.initialBackoffMs >= 0
    && c.table.defaultPolicy.retry.maxBackoffMs >= c.table.defaultPolicy.retry.initialBackoffMs
  }

  function SignatureOf(sig: Signature, c: Config): Uint64 {
    sig(HashedFields(c.table))
  }

  predicate SignatureFits(sig: Signature, b: Bridge, next: Config) {
    b.good.signature == 0 || SignatureOf(sig, next) == b.good.signature
  }

  /** The guards a candidate meets before it is put in place. */
  datatype Verdict = ReloadFails | Unchanged | LoadFails | Risky | Locked | Passes

  function Screen(b: Bridge, p: Provider): Verdict {
    var next := Normalized(p.config);
    if p.reloadEc != Ok then ReloadFails
    else if p.version == b.live.version then Unchanged
    else if p.loadEc != Ok then LoadFails
    else if TooRisky(b.live.config, next) then Risky
    else if !KeepsLock(b.live.config, next) then Locked
    else Passes
  }

  function Debited(l: Ledger, ec: ErrorCode, reason: nat, rollback: bool): Ledger {
    Ledger(l.successes, l.fails + 1, l.rollbacks + One(rollback), ec, reason)
  }

  function Credited(l: Ledger): Ledger {
    Ledger(l.successes + 1, l.fails, l.rollbacks, Ok, 0)
  }

  function Rejected(b: Bridge, ec: ErrorCode, reason: nat, rollback: bool): Transition {
    Transition(b.(ledger := Debited(b.ledger, ec, reason, rollback)), ec)
  }

  /** The candidate was tried: sampling settings and the emptied cache outlive its rejection. */
  function Tried(b: Bridge, c: Config): Bridge {
    b.(sampling := Sampling(c), cache := [])
  }

  function Committed(sig: Signature, b: Bridge, p: Provider): Bridge {
    var loaded := Loaded(Installed(p.config), p.version, p.source, SignatureOf(sig, Normalized(p.config)));
    Tried(b, Normalized(p.config)).(live := loaded, good := loaded, ledger := Credited(b.ledger))
  }

  /** The candidate is in place and is checked: the signature first, then whether it can work at all. */
  function Trial(sig: Signature, b: Bridge, p: Provider): Transition {
    var next := Normalized(p.config);
    if !SignatureFits(sig, b, next) then Rejected(Tried(b, next), QueueCreateFailed, 4, true)
    else if !IsUsable(next) then Rejected(Tried(b, next), InvalidParam, 3, true)
    else Transition(Committed(sig, b, p), Ok)
  }

  /** A trial, outcome by outcome: what is in force, what is known good and what is counted. */
  lemma TrialParts(sig: Signature, b: Bridge, p: Provider, live: Loaded, good: Loaded, ledger: Ledger, ec: ErrorCode)
    requires ec == TrialCode(b.good.signature, SignatureOf(sig, Normalized(p.config)), Installed(p.config))
    requires live == if ec != Ok then b.live
                     else Loaded(Installed(p.config), p.version, p.source, SignatureOf(sig, Normalized(p.config)))
    requires good == if ec == Ok then live else b.good
    requires ledger == TrialLedger(b.ledger, ec)
    ensures var tried := Tried(b, Normalized(p.config));
            Trial(sig, b, p) == Transition(tried.(live := live, good := good, ledger := ledger), ec)
  {
  }

  function TrialCode(expected: Uint64, signature: Uint64, candidate: Config): ErrorCode {
    if expected != 0 && signature != expected then QueueCreateFailed
    else if !IsUsable(candidate) then InvalidParam
    else Ok
  }

  function TrialLedger(l: Ledger, ec: ErrorCode): Ledger {
    if ec == Ok then Credited(l) else Debited(l, ec, if ec == InvalidParam then 3 else 4, true)
  }

  function Apply(sig: Signature, b: Bridge, p: Provider): Transition {
    match Screen(b, p)
    case ReloadFails => Rejected(b, p.reloadEc, 1, false)
    case Unchanged => Transition(b.(ledger := b.ledger.(status := Ok, reason := 0)), Ok)
    case LoadFails => Rejected(b, p.loadEc, 2, false)
    case Risky => Rejected(b, InvalidParam, 6, true)
    case Locked => Rejected(b, InvalidParam, 5, true)
    case Passes => Trial(sig, b, p)
  }

  function ReloadStep(sig: Signature, b: Bridge, p: Option<Provider>): Transition {
    if p.None? then Transition(b, InvalidParam) else Apply(sig, b, p.value)
  }

  // ---------------------------------------------------------------------------------------------
  // Start and Stop

  /** What a start gets from outside: the canary's clock gate and the results of the transports and the worker pool. */
  datatype Surroundings = Surroundings(
    haveTransports: bool,
    gate: nat,
    createV2r: ErrorCode,
    createR2v: ErrorCode,
    poolEc: ErrorCode,
    enqueueV2r: ErrorCode,
    enqueueR2v: ErrorCode)

  function TuningOf(c: Config): Tuning {
    Tuning(c.vehicleToRobot.flowLimit, c.robotToVehicle.flowLimit, c.vehicleToRobot.highPriorityThreshold,
           c.robotToVehicle.highPriorityThreshold, c.additionalEndpoints != [])
  }

  predicate CanaryBlocks(c: Config, gate: nat) {
    c.canary.enabled && c.canary.percent < 100 && gate >= c.canary.percent
  }

  /** A full queue that rejects the task does not stop the bridge from starting. */
  predicate Tolerated(ec: ErrorCode) {
    ec == Ok || ec == ThreadTaskRejected
  }

  function LaunchCode(s: Surroundings): ErrorCode {
    if s.createV2r != Ok then s.createV2r
    else if s.createR2v != Ok then s.createR2v
    else if s.poolEc != Ok then s.poolEc
    else if !Tolerated(s.enqueueV2r) then s.enqueueV2r
    else if !Tolerated(s.enqueueR2v) then s.enqueueR2v
    else Ok
  }

  function SourceOr(source: string): string {
    if source == "" then "direct" else source
  }

  /** The first configuration is recorded as known good: normalized, but before templates and indexes are added. */
  function Recorded(sig: Signature, b: Bridge, c: Config): Loaded {
    if b.good.version != 0 then b.good
    else Loaded(Normalized(c), b.live.version, SourceOr(b.live.source), SignatureOf(sig, Normalized(c)))
  }

  function Configured(sig: Signature, b: Bridge, c: Config): Bridge {
    var good := Recorded(sig, b, c);
    var signature := if b.good.version != 0 then b.live.signature else good.signature;
    Tried(b, Normalized(c)).(live := Loaded(Installed(c), b.live.version, SourceOr(b.live.source), signature),
                 good := good, decodeMode := c.protocolMode)
  }

  function AfterCanary(b: Bridge, c: Config, s: Surroundings): Transition {
    if CanaryBlocks(c, s.gate) then
      var l := b.ledger;
      Transition(b.(live := b.good, ledger := l.(fails := l.fails + 1, rollbacks := l.rollbacks + 1,
                                                 status := WouldBlock)), WouldBlock)
    else Transition(b.(tuning := TuningOf(c), running := LaunchCode(s) == Ok), LaunchCode(s))
  }

  function StartStep(sig: Signature, b: Bridge, c: Config, s: Surroundings): Transition {
    if b.running then Transition(b, Ok)
    else if !s.haveTransports then Transition(b.(live := b.live.(source := SourceOr(b.live.source))), InvalidParam)
    else AfterCanary(Configured(sig, b, c), c, s)
  }

  /** `Start(provider)` records what it loaded as known good before it knows whether the bridge will start. */
  function Preloaded(sig: Signature, b: Bridge, p: Provider): Bridge {
    var good := Loaded(p.config, p.version, p.source, SignatureOf(sig, p.config));
    b.(live := good.(config := b.live.config), good := good)
  }

  function ProviderStartStep(sig: Signature, b: Bridge, p: Option<Provider>, s: Surroundings): Transition {
    if p.None? then Transition(b, InvalidParam)
    else if p.value.loadEc != Ok then Transition(b, p.value.loadEc)
    else StartStep(sig, Preloaded(sig, b, p.value), p.value.config, s)
  }

  // ---------------------------------------------------------------------------------------------
  // Resolution under the configuration in force

  function ResolverOf(b: Bridge): Resolver {
    Resolver(b.live.config.table, b.cache, NOTHING_RESOLVED)
  }

  function PolicyFor(b: Bridge, e: Envelope): Resolution {
    Answer(ResolverOf(b), e)
  }

  function Resolved(b: Bridge, e: Envelope): Bridge {
    b.(cache := AfterResolve(ResolverOf(b), e).items)
  }

  // ---------------------------------------------------------------------------------------------
  // The object that runs it

  class InterconnectBridge {
    const sig: Signature
    var running: bool
    var config: Config
    var loadedVersion: Uint64
    var loadedSource: string
    var lastLoadedSignature: Uint64
    var good: Loaded
    var sampling: SamplingConfig
    var decodeMode: ProtocolMode
    var tuning: Tuning
    var cacheItems: seq<Item>
    var ledger: Ledger

    ghost function Live(): Loaded
      reads `config, `loadedVersion, `loadedSource, `lastLoadedSignature
    {
      Loaded(config, loadedVersion, loadedSource, lastLoadedSignature)
    }

    ghost function State(): Bridge
      reads this
    {
      Bridge(running, Live(), good, sampling, decodeMode, tuning, cacheItems, ledger)
    }

    constructor (sig: Signature)
      ensures State() == FRESH_BRIDGE && this.sig == sig
    {
      this.sig := sig;
      running, config, loadedVersion, loadedSource, lastLoadedSignature := false, DEFAULT_CONFIG, 0, "", 0;
      good, sampling, decodeMode := NOTHING_LOADED, SamplingConfig(10, 2000, 5000, 1000, false), LegacyPipe;
      tuning, cacheItems, ledger := Tuning(256, 256, 1, 1, false), [], Ledger(0, 0, 0, Ok, 0);
    }

    /** Puts a normalized configuration in force: sampling settings, template rules, fresh indexes, empty cache. */
    method Install(next: Config)
      modifies `config, `sampling, `cacheItems
      ensures config == Equipped(next)
      ensures sampling == Sampling(next) && cacheItems == []
    {
      config := next;
      sampling := Sampling(next);
      if config.table.templates == [] {
        config := config.(table := config.table.(templates := [CONTROL_TEMPLATE, TELEMETRY_TEMPLATE]));
      }
      config := config.(table := Reindexed(config.table));
      cacheItems := [];
    }

    method Fail(ec: ErrorCode, reason: nat, rollback: bool)
      modifies `ledger
      ensures ledger == Debited(old(ledger), ec, reason, rollback)
    {
      ledger := Ledger(ledger.successes, ledger.fails + 1, ledger.rollbacks + One(rollback), ec, reason);
    }

    method ReloadConfigIfChanged(provider: Option<Provider>) returns (ec: ErrorCode)
      modifies this
      ensures State() == ReloadStep(sig, old(State()), provider).bridge
      ensures ec == ReloadStep(sig, old(State()), provider).ec
    {
      if provider.None? {
        return InvalidParam;
      }
      var p := provider.value;
      if p.reloadEc != Ok {
        Fail(p.reloadEc, 1, false);
        return p.reloadEc;
      }
      if p.version == loadedVersion {
        ledger := ledger.(status := Ok, reason := 0);
        return Ok;
      }
      if p.loadEc != Ok {
        Fail(p.loadEc, 2, false);
        return p.loadEc;
      }
      var next := NormalizePolicyDefaults(p.config);
      if TooRisky(config, next) {
        Fail(InvalidParam, 6, true);
        return InvalidParam;
      }
      if !KeepsLock(config, next) {
        Fail(InvalidParam, 5, true);
        return InvalidParam;
      }
      ec := TryAndCommit(p, next);
    }

    /** Installs the candidate, then checks it; a bad one is taken out again. */
    method TryAndCommit(p: Provider, next: Config) returns (ec: ErrorCode)
      requires next == Normalized(p.config)
      modifies `config, `loadedSource, `loadedVersion, `lastLoadedSignature, `good, `sampling, `cacheItems, `ledger
      ensures State() == Trial(sig, old(State()), p).bridge
      ensures ec == Trial(sig, old(State()), p).ec
    {
      var nextSignature := sig(HashedFields(next.table));
      var previous := Loaded(config, loadedVersion, loadedSource, lastLoadedSignature);
      ghost var before := State();
      Install(next);
      ec := CommitOrPutBack(p, nextSignature, previous);
      TrialParts(sig, before, p, Live(), good, ledger, ec);
      assert State() == Tried(before, Normalized(p.config)).(live := Live(), good := good, ledger := ledger);
    }

    method CommitOrPutBack(p: Provider, nextSignature: Uint64, previous: Loaded) returns (ec: ErrorCode)
      modifies `config, `loadedSource, `loadedVersion, `lastLoadedSignature, `good, `ledger
      ensures ec == TrialCode(old(good).signature, nextSignature, old(config))
      ensures Live() == if ec == Ok then Loaded(old(config), p.version, p.source, nextSignature) else previous
      ensures good == if ec == Ok then Live() else old(good)
      ensures ledger == TrialLedger(old(ledger), ec)
    {
      var signatureOk := good.signature == 0 || nextSignature == good.signature;
      if !IsUsable(config) || !signatureOk {
        PutBack(previous);
        ec := if signatureOk then InvalidParam else QueueCreateFailed;
        Fail(ec, if signatureOk then 3 else 4, true);
        return;
      }
      Commit(p, nextSignature);
      ec := Ok;
    }

    method Commit(p: Provider, signature: Uint64)
      modifies `loadedSource, `loadedVersion, `lastLoadedSignature, `good, `ledger
      ensures Live() == Loaded(config, p.version, p.source, signature) && good == Live()
      ensures ledger == Credited(old(ledger))
    {
      loadedSource, loadedVersion, lastLoadedSignature := p.source, p.version, signature;
      good := Loaded(config, loadedVersion, loadedSource, signature);
      ledger := Ledger(ledger.successes + 1, ledger.fails, ledger.rollbacks, Ok, 0);
    }

    method Start(c: Config, s: Surroundings) returns (ec: ErrorCode)
      modifies this
      ensures State() == StartStep(sig, old(State()), c, s).bridge
      ensures ec == StartStep(sig, old(State()), c, s).ec
    {
      if running {
        return Ok;
      }
      if loadedSource == "" {
        loadedSource := "direct";
      }
      if !s.haveTransports {
        return InvalidParam;
      }
      Configure(c);
      ec := PassCanaryAndLaunch(c, s);
    }

    method PassCanaryAndLaunch(c: Config, s: Surroundings) returns (ec: ErrorCode)
      requires !running && config == Installed(c)
      modifies this
      ensures State() == AfterCanary(old(State()), c, s).bridge
      ensures ec == AfterCanary(old(State()), c, s).ec
    {
      if config.canary.enabled && config.canary.percent < 100 && s.gate >= config.canary.percent {
        PutBack(good);
        ledger := ledger.(fails := ledger.fails + 1, rollbacks := ledger.rollbacks + 1, status := WouldBlock);
        return WouldBlock;
      }
      ec := Launch(s);
    }

    method PutBack(l: Loaded)
      modifies `config, `loadedSource, `loadedVersion, `lastLoadedSignature
      ensures Live() == l
    {
      config, loadedSource, loadedVersion, lastLoadedSignature := l.config, l.source, l.version, l.signature;
    }

    method Configure(c: Config)
      requires loadedSource != ""
      modifies `config, `good, `lastLoadedSignature, `sampling, `decodeMode, `cacheItems
      ensures State() == Configured(sig, old(State()), c)
    {
      var next := NormalizePolicyDefaults(c);
      RecordFirst(next);
      decodeMode := next.protocolMode;
      Install(next);
      assert config == Installed(c);
    }

    method RecordFirst(next: Config)
      modifies `good, `lastLoadedSignature
      ensures old(good).version != 0 ==> good == old(good) && lastLoadedSignature == old(lastLoadedSignature)
      ensures old(good).version == 0 ==>
                && good == Loaded(next, loadedVersion, loadedSource, SignatureOf(sig, next))
                && lastLoadedSignature == good.signature
    {
      if good.version == 0 {
        good := Loaded(next, loadedVersion, loadedSource, sig(HashedFields(next.table)));
        lastLoadedSignature := good.signature;
      }
    }

    method Launch(s: Surroundings) returns (ec: ErrorCode)
      requires !running
      modifies `running, `tuning
      ensures running == (LaunchCode(s) == Ok) && ec == LaunchCode(s) && tuning == TuningOf(config)
    {
      tuning := TuningOf(config);
      if s.createV2r != Ok {
        return s.createV2r;
      }
      if s.createR2v != Ok {
        return s.createR2v;
      }
      if s.poolEc != Ok {
        return s.poolEc;
      }
      running := true;
      if s.enqueueV2r != Ok && s.enqueueV2r != ThreadTaskRejected {
        Stop();
        return s.enqueueV2r;
      }
      if s.enqueueR2v != Ok && s.enqueueR2v != ThreadTaskRejected {
        Stop();
        return s.enqueueR2v;
      }
      return Ok;
    }

    method Stop()
      modifies `running
      ensures !running
    {
      running := false;
    }

    method StartFromProvider(provider: Option<Provider>, s: Surroundings) returns (ec: ErrorCode)
      modifies this
      ensures State() == ProviderStartStep(sig, old(State()), provider, s).bridge
      ensures ec == ProviderStartStep(sig, old(State()), provider, s).ec
    {
      if provider.None? {
        return InvalidParam;
      }
      var p := provider.value;
      if p.loadEc != Ok {
        return p.loadEc;
      }
      ghost var before := State();
      loadedSource, loadedVersion := p.source, p.version;
      lastLoadedSignature := sig(HashedFields(p.config.table));
      good := Loaded(p.config, p.version, p.source, lastLoadedSignature);
      assert State() == Preloaded(sig, before, p);
      ec := Start(p.config, s);
    }
  }
}
