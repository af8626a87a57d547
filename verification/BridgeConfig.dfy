/** The bridge configuration, its normalization and the part of it that the policy signature covers. */
module BridgeConfig {
  import opened Types
  import opened PolicyEngine
  import opened PolicySamples

  datatype Endpoint = Endpoint(name: string, flowLimit: Uint32, highPriorityThreshold: Uint32)

  datatype SamplingConfig = SamplingConfig(
    traceRatePercent: Uint32,
    traceIntervalMs: Uint64,
    slaViolationIntervalMs: Uint64,
    diagnosticsIntervalMs: Uint64,
    diagnosticsEnabled: bool)

  datatype RiskGuard = RiskGuard(enabled: bool, autoRollback: bool, threshold: Uint32)

  datatype ConfigCanary = ConfigCanary(enabled: bool, percent: Uint32)

  datatype ProtocolCanary = ProtocolCanary(topicPrefix: string, percent: Uint32)

  datatype Config = Config(
    vehicleToRobot: Endpoint,
    robotToVehicle: Endpoint,
    additionalEndpoints: seq<Endpoint>,
    workerCount: Uint64,
    queueCapacity: Uint64,
    sla: SlaPolicy,
    table: PolicyTable,
    receivePriority: Uint32,
    sampling: SamplingConfig,
    canary: ConfigCanary,
    protocolCanary: ProtocolCanary,
    risk: RiskGuard,
    protocolMode: ProtocolMode)

  const EMPTY_TABLE: PolicyTable := PolicyTable(DEFAULT_SLA_POLICY, [], [], [], map[], map[], map[])

  /** The member initializers of `BridgeConfig`. */
  const DEFAULT_CONFIG: Config :=
    Config(Endpoint("", 256, 1), Endpoint("", 256, 1), [], 2, 64, DEFAULT_SLA_POLICY, EMPTY_TABLE, 0,
           SamplingConfig(10, 2000, 5000, 1000, false), ConfigCanary(false, 100), ProtocolCanary("", 100),
           RiskGuard(false, true, 3), LegacyPipe)

  // ---------------------------------------------------------------------------------------------
  // Normalization

  /** The table was left at its defaults, so the flat SLA policy is the one the operator meant. */
  predicate Untouched(c: Config) {
    var p := c.table.defaultPolicy;
    && c.table.rules == [] && p.maxLatencyMs == 100
    && p.receiveTimeoutMs == 50 && p.sendTimeoutMs == 50 && p.backpressure == Reject
  }

  function NormalDefault(c: Config): SlaPolicy {
    var base := if Untouched(c) then c.sla else c.table.defaultPolicy;
    var drop :=
      if base.drop != DropNone then base.drop
      else if c.sla.drop != DropNone then c.sla.drop
      else if base.backpressure == DropOldestFirst then DropOldest
      else DropNone;
    base.(retry := if base.retry.maxRetries > 0 then base.retry else c.sla.retry, drop := drop)
  }

  function Normalized(c: Config): Config {
    c.(table := c.table.(defaultPolicy := NormalDefault(c)))
  }

  /** Four conditional updates of the default policy, in the order the source makes them. */
  method NormalizePolicyDefaults(config: Config) returns (n: Config)
    ensures n == Normalized(config)
  {
    var policy := config.table.defaultPolicy;
    if config.table.rules == [] && policy.maxLatencyMs == 100 && policy.receiveTimeoutMs == 50 &&
       policy.sendTimeoutMs == 50 && policy.backpressure == Reject {
      policy := config.sla;
    }
    if policy.retry.maxRetries <= 0 {
      policy := policy.(retry := config.sla.retry);
    }
    if policy.drop == DropNone {
      policy := policy.(drop := config.sla.drop);
    }
    if policy.drop == DropNone && policy.backpressure == DropOldestFirst {
      policy := policy.(drop := DropOldest);
    }
    n := config.(table := config.table.(defaultPolicy := policy));
  }

  /** Normalizing twice changes nothing more. */
  lemma NormalizeIsIdempotent(c: Config)
    ensures Normalized(Normalized(c)) == Normalized(c)
  {
    assert NormalDefault(Normalized(c)) == NormalDefault(c);
  }

  // ---------------------------------------------------------------------------------------------
  // What the policy signature covers

  datatype HashedPolicy = HashedPolicy(
    maxLatencyMs: Uint32,
    receiveTimeoutMs: int,
    sendTimeoutMs: int,
    backpressure: BackpressurePolicy,
    drop: DropPolicy,
    retry: RetryBudget)

  /** Everything but the sleep settings and the lock flag. */
  function HashPolicy(p: SlaPolicy): HashedPolicy {
    HashedPolicy(p.maxLatencyMs, p.receiveTimeoutMs, p.sendTimeoutMs, p.backpressure, p.drop, p.retry)
  }

  datatype HashedRule = HashedRule(
    priority: Uint32,
    anyChannel: bool,
    channel: ChannelType,
    anySource: bool,
    source: string,
    anyTarget: bool,
    target: string,
    anyQos: bool,
    qos: DeliveryQoS,
    topic: string,
    policy: HashedPolicy)

  function HashRule(r: PolicyRule): HashedRule {
    HashedRule(r.priority, r.anyChannel, r.channel, r.anySource, r.source, r.anyTarget, r.target, r.anyQos, r.qos,
               r.topic, HashPolicy(r.policy))
  }

  function HashRules(rules: seq<PolicyRule>): seq<HashedRule> {
    if rules == [] then [] else [HashRule(rules[0])] + HashRules(rules[1..])
  }

  datatype Hashed = Hashed(defaultPolicy: HashedPolicy, rules: seq<HashedRule>)

  /** The values folded into the signature: the default policy, then the rules of all layers one after another. */
  function HashedFields(t: PolicyTable): Hashed {
    Hashed(HashPolicy(t.defaultPolicy), HashRules(t.templates) + HashRules(t.rules) + HashRules(t.overrides))
  }

  /** Any way of folding them into 64 bits. */
  type Signature = Hashed -> Uint64

  /** A configuration whose hashed default policy normalization leaves alone. */
  predicate Settled(c: Config) {
    var own, sla := c.table.defaultPolicy, c.sla;
    if Untouched(c) then HashPolicy(sla) == HashPolicy(own)
    else
      && (own.retry.maxRetries <= 0 ==> own.retry == sla.retry)
      && (own.drop == DropNone ==> sla.drop == DropNone && own.backpressure != DropOldestFirst)
  }

  /** Normalization is invisible to every signature exactly on settled configurations. */
  lemma NormalizePreservesIff(c: Config)
    ensures HashedFields(Normalized(c).table) == HashedFields(c.table) <==> Settled(c)
  {
    assert HashedFields(Normalized(c).table).rules == HashedFields(c.table).rules;
  }

  lemma {:induction false} HashRulesConcat(a: seq<PolicyRule>, b: seq<PolicyRule>)
    ensures HashRules(a + b) == HashRules(a) + HashRules(b)
  {
    if a == [] {
      assert a + b == b;
    } else {
      assert (a + b)[1..] == a[1..] + b;
      HashRulesConcat(a[1..], b);
    }
  }

  lemma HashAllRules(t: PolicyTable)
    ensures HashedFields(t).rules == HashRules(AllRules(t))
  {
    HashRulesConcat(t.templates, t.rules);
    HashRulesConcat(t.templates + t.rules, t.overrides);
  }

  lemma {:induction false} HashRulesMeans(rules: seq<PolicyRule>)
    ensures |HashRules(rules)| == |rules|
    ensures forall i :: 0 <= i < |rules| ==> HashRules(rules)[i] == HashRule(rules[i])
  {
    if rules != [] {
      HashRulesMeans(rules[1..]);
    }
  }

  /**
   * Exactly which tables look the same to every signature: those with the same hashed default policy whose rules,
   * run together without regard to layers, agree one by one in the hashed fields.
   */
  lemma SignatureIgnoresLayers(t: PolicyTable, u: PolicyTable)
    ensures HashedFields(t) == HashedFields(u) <==>
            && HashPolicy(t.defaultPolicy) == HashPolicy(u.defaultPolicy)
            && |AllRules(t)| == |AllRules(u)|
            && forall i :: 0 <= i < |AllRules(t)| ==> HashRule(AllRules(t)[i]) == HashRule(AllRules(u)[i])
  {
    HashAllRules(t);
    HashAllRules(u);
    HashRulesMeans(AllRules(t));
    HashRulesMeans(AllRules(u));
    var a, b := HashRules(AllRules(t)), HashRules(AllRules(u));
    if |a| == |b| && forall i :: 0 <= i < |a| ==> a[i] == b[i] {
      assert a == b;
    }
  }

  // ---------------------------------------------------------------------------------------------
  // Putting a configuration in place

  function TemplateRule(priority: Uint32, channel: ChannelType, policy: SlaPolicy): PolicyRule {
    PolicyRule(priority, false, channel, true, "", true, "", true, BestEffort, "*", policy)
  }

  const CONTROL_TEMPLATE: PolicyRule :=
    TemplateRule(10, Control,
                 DEFAULT_SLA_POLICY.(maxLatencyMs := 50, backpressure := DropOldestFirst, drop := DropOldest))

  const TELEMETRY_TEMPLATE: PolicyRule := TemplateRule(5, Telemetry, DEFAULT_SLA_POLICY.(maxLatencyMs := 150))

  function WithTemplates(t: PolicyTable): PolicyTable {
    if t.templates != [] then t else t.(templates := [CONTROL_TEMPLATE, TELEMETRY_TEMPLATE])
  }

  /** A configuration as the bridge runs it: normalized, with template rules, indexed. */
  function Installed(c: Config): Config {
    Equipped(Normalized(c))
  }

  function Equipped(n: Config): Config {
    n.(table := Reindexed(WithTemplates(n.table)))
  }

  function Sampling(c: Config): SamplingConfig {
    var s := c.sampling;
    SamplingConfig(
      if s.traceRatePercent <= 100 then s.traceRatePercent else 100,
      if s.traceIntervalMs == 0 then 2000 else s.traceIntervalMs,
      if s.slaViolationIntervalMs == 0 then 5000 else s.slaViolationIntervalMs,
      if s.diagnosticsIntervalMs == 0 then 1000 else s.diagnosticsIntervalMs,
      s.diagnosticsEnabled)
  }

  // ---------------------------------------------------------------------------------------------
  // The values, field by field

  /**
   * What normalization makes of each field: the flat policy replaces a default policy left untouched, its retry
   * budget a budget without retries, its drop policy a missing one; a missing one under drop-oldest backpressure
   * becomes drop-oldest. Nothing else changes.
   */
  lemma NormalizedFields(c: Config)
    ensures var n, own, flat := Normalized(c), c.table.defaultPolicy, c.sla;
            var p := n.table.defaultPolicy;
            var base := if c.table.rules == [] && own.maxLatencyMs == 100 && own.receiveTimeoutMs == 50 &&
                           own.sendTimeoutMs == 50 && own.backpressure == Reject then flat else own;
            && n == c.(table := c.table.(defaultPolicy := p))
            && p == base.(retry := p.retry, drop := p.drop)
            && (base.retry.maxRetries > 0 ==> p.retry == base.retry)
            && (base.retry.maxRetries <= 0 ==> p.retry == flat.retry)
            && (base.drop != DropNone ==> p.drop == base.drop)
            && (base.drop == DropNone && flat.drop != DropNone ==> p.drop == flat.drop)
            && (base.drop == DropNone && flat.drop == DropNone ==>
                  p.drop == if base.backpressure == DropOldestFirst then DropOldest else DropNone)
  {
  }

  /** The signature covers every field of a policy but the two sleep settings and the lock. */
  lemma PolicyFieldsHashed(p: SlaPolicy, q: SlaPolicy)
    ensures HashPolicy(p) == HashPolicy(q) <==>
            p == q.(enableTimeoutSleep := p.enableTimeoutSleep, receiveTimeoutSleepMs := p.receiveTimeoutSleepMs,
                    lockPolicy := p.lockPolicy)
  {
  }

  /** ... and every field of a rule. */
  lemma RuleFieldsHashed(r: PolicyRule, s: PolicyRule)
    ensures HashRule(r) == HashRule(s) <==> r == s.(policy := r.policy) && HashPolicy(r.policy) == HashPolicy(s.policy)
  {
  }

  /** The settings in force: the rate is at most 100 percent, and a zero interval stands for its default. */
  lemma SamplingMeans(c: Config)
    ensures var s, own := Sampling(c), c.sampling;
            && s.traceRatePercent <= 100 && s.traceRatePercent <= own.traceRatePercent
            && (s.traceRatePercent == 100 || s.traceRatePercent == own.traceRatePercent)
            && s.traceIntervalMs == (if own.traceIntervalMs > 0 then own.traceIntervalMs else 2000)
            && s.slaViolationIntervalMs == (if own.slaViolationIntervalMs > 0 then own.slaViolationIntervalMs else 5000)
            && s.diagnosticsIntervalMs == (if own.diagnosticsIntervalMs > 0 then own.diagnosticsIntervalMs else 1000)
            && s.diagnosticsEnabled == own.diagnosticsEnabled
  {
  }

  lemma NothingMatches(e: Envelope)
    ensures !Applies([], e)
  {
    var none: seq<PolicyRule> := [];
    assert forall i: nat :: !Hits(none, i, e);
    ChosenIsFound(none, e);
  }

  /**
   * The policies of a bridge that was given no rules: control messages get 50 ms and drop-oldest, telemetry 150 ms and
   * rejection, both with the initial timeouts and retry budget; events get the default policy. No conflict is seen.
   */
  lemma DefaultTemplatesMean(t: PolicyTable, e: Envelope)
    requires t.templates == [] && t.rules == [] && t.overrides == []
    ensures var policy := ResolveInternal(Reindexed(WithTemplates(t)), e).policy;
            match e.channel
            case Control =>
              policy == SlaPolicy(50, 50, 50, DropOldestFirst, DropOldest, RetryBudget(0, 10, 200), true, 10, false)
            case Telemetry =>
              policy == SlaPolicy(150, 50, 50, Reject, DropNone, RetryBudget(0, 10, 200), true, 10, false)
            case Event => policy == t.defaultPolicy
  {
    var rules := [CONTROL_TEMPLATE, TELEMETRY_TEMPLATE];
    NothingMatches(e);
    ResolvePrecedence(Reindexed(WithTemplates(t)), e);
    assert Naming(rules, e.topic) == {};
    assert 0 in Everything(rules) && 1 in Everything(rules);
    match e.channel
    case Control => assert Chosen(rules, e, 0);
    case Telemetry => assert Chosen(rules, e, 1);
    case Event => assert !Applies(rules, e);
  }

  /** Templates of one's own are left as they are, and so is everything else. */
  lemma TemplatesOnlyFillAGap(t: PolicyTable)
    ensures t.templates != [] ==> WithTemplates(t) == t
    ensures WithTemplates(t) == t.(templates := WithTemplates(t).templates)
  {
  }
}
