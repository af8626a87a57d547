/** Where reloading falls short of its promises, each with the exact condition or a concrete case. */
module ReloadLimits {
  import opened Types
  import opened PolicyEngine
  import opened PolicySamples
  import opened PolicyCache
  import opened BridgeConfig
  import opened ConfigReload
  import opened ReloadRuns

  // ---------------------------------------------------------------------------------------------
  // Reloading unchanged policies

  function StartedFrom(sig: Signature, first: Provider, s: Surroundings): Transition {
    ProviderStartStep(sig, FRESH_BRIDGE, Some(first), s)
  }

  /** The same policies under a new version. */
  predicate SamePolicies(first: Provider, second: Provider) {
    && second.version != first.version
    && second.config.table == first.config.table && second.config.sla == first.config.sla
  }

  lemma SameNormalTable(c: Config, d: Config)
    requires c.table == d.table && c.sla == d.sla
    ensures Normalized(c).table == Normalized(d).table
  {
  }

  lemma StartedState(sig: Signature, first: Provider, s: Surroundings)
    requires first.loadEc == Ok && StartedFrom(sig, first, s).ec == Ok
    ensures var b := StartedFrom(sig, first, s).bridge;
            && b.live.config == Installed(first.config) && b.live.version == first.version
            && b.good.signature == if first.version == 0 then SignatureOf(sig, Normalized(first.config))
                                   else SignatureOf(sig, first.config)
  {
  }

  /**
   * A bridge started from a provider records the signature of the raw table but compares normalized ones. A reload
   * of the same policies that passes the other guards therefore commits exactly when normalization keeps the
   * signature (or the recorded one is missing).
   */
  lemma SamePoliciesReloadIff(sig: Signature, first: Provider, s: Surroundings, second: Provider)
    requires first.loadEc == Ok && StartedFrom(sig, first, s).ec == Ok && SamePolicies(first, second)
    requires IsTried(StartedFrom(sig, first, s).bridge, second) && IsUsable(Normalized(second.config))
    ensures var raw, normal := SignatureOf(sig, first.config), SignatureOf(sig, Normalized(first.config));
            var r := ReloadStep(sig, StartedFrom(sig, first, s).bridge, Some(second));
            && (r.ec == Ok <==> first.version == 0 || raw == 0 || normal == raw)
            && (r.ec != Ok ==> r.ec == QueueCreateFailed)
  {
    StartedState(sig, first, s);
    SameNormalTable(first.config, second.config);
    ReloadCommitsIff(sig, StartedFrom(sig, first, s).bridge, second);
  }

  /** The signature tells these two tables apart if they differ in a hashed field. */
  predicate Distinguishes(sig: Signature, t: PolicyTable, u: PolicyTable) {
    sig(HashedFields(t)) == sig(HashedFields(u)) ==> HashedFields(t) == HashedFields(u)
  }

  /** With a signature that does its job, the configurations that survive their own reload are the settled ones. */
  lemma SettledReloads(sig: Signature, first: Provider, s: Surroundings, second: Provider)
    requires first.loadEc == Ok && StartedFrom(sig, first, s).ec == Ok && SamePolicies(first, second)
    requires IsTried(StartedFrom(sig, first, s).bridge, second) && IsUsable(Normalized(second.config))
    requires first.version != 0 && SignatureOf(sig, first.config) != 0
    requires Distinguishes(sig, Normalized(first.config).table, first.config.table)
    ensures ReloadStep(sig, StartedFrom(sig, first, s).bridge, Some(second)).ec == Ok <==> Settled(first.config)
  {
    SamePoliciesReloadIff(sig, first, s, second);
    NormalizePreservesIff(first.config);
  }

  /** The configuration of the repository's reload test: default policies, one retry in the flat SLA policy. */
  const TEST_CONFIG: Config :=
    DEFAULT_CONFIG.(vehicleToRobot := Endpoint("reload_v2r", 256, 1), robotToVehicle := Endpoint("reload_r2v", 256, 1),
                    workerCount := 1, queueCapacity := 4, sla := DEFAULT_SLA_POLICY.(retry := RetryBudget(1, 5, 10)))

  const ALL_WELL: Surroundings := Surroundings(true, 0, Ok, Ok, Ok, Ok, Ok)

  /** That test expects its second load, which only changes the receive priority, to succeed. It is refused. */
  lemma ReloadTestExpectationFails(sig: Signature)
    requires SignatureOf(sig, TEST_CONFIG) != 0
    requires Distinguishes(sig, Normalized(TEST_CONFIG).table, TEST_CONFIG.table)
    ensures var first := Provider(Ok, 1, Ok, TEST_CONFIG, "static://reload");
            var second := Provider(Ok, 2, Ok, TEST_CONFIG.(receivePriority := 3), "static://reload-v2");
            var r := ReloadStep(sig, StartedFrom(sig, first, ALL_WELL).bridge, Some(second));
            && StartedFrom(sig, first, ALL_WELL).ec == Ok
            && r.ec == QueueCreateFailed && r.bridge.live.version == 1
  {
    var first := Provider(Ok, 1, Ok, TEST_CONFIG, "static://reload");
    var second := Provider(Ok, 2, Ok, TEST_CONFIG.(receivePriority := 3), "static://reload-v2");
    StartedState(sig, first, ALL_WELL);
    SettledReloads(sig, first, ALL_WELL, second);
    SamePoliciesReloadIff(sig, first, ALL_WELL, second);
    FailedReloadIsAtomic(sig, StartedFrom(sig, first, ALL_WELL).bridge, Some(second));
  }

  /** Another test expects an unusable candidate to be refused as such; the signature is blamed instead. */
  lemma RollbackTestExpectationFails(sig: Signature)
    requires SignatureOf(sig, TEST_CONFIG) != 0
    requires Distinguishes(sig, Normalized(TEST_CONFIG).table, TEST_CONFIG.table)
    ensures var first := Provider(Ok, 1, Ok, TEST_CONFIG, "static://base");
            var second := Provider(Ok, 2, Ok, TEST_CONFIG.(workerCount := 0), "static://bad");
            !IsUsable(second.config) &&
            ReloadStep(sig, StartedFrom(sig, first, ALL_WELL).bridge, Some(second)).ec == QueueCreateFailed
  {
    var first := Provider(Ok, 1, Ok, TEST_CONFIG, "static://base");
    var second := Provider(Ok, 2, Ok, TEST_CONFIG.(workerCount := 0), "static://bad");
    StartedState(sig, first, ALL_WELL);
    NormalizePreservesIff(TEST_CONFIG);
    SameNormalTable(TEST_CONFIG, second.config);
    assert IsTried(StartedFrom(sig, first, ALL_WELL).bridge, second);
  }

  /** A bridge started directly records the normalized signature, so the same policies always reload. */
  lemma DirectStartReloads(sig: Signature, c: Config, s: Surroundings, second: Provider)
    requires StartStep(sig, FRESH_BRIDGE, c, s).ec == Ok
    requires second.config.table == c.table && second.config.sla == c.sla
    requires IsTried(StartStep(sig, FRESH_BRIDGE, c, s).bridge, second) && IsUsable(Normalized(second.config))
    ensures ReloadStep(sig, StartStep(sig, FRESH_BRIDGE, c, s).bridge, Some(second)).ec == Ok
  {
    SameNormalTable(c, second.config);
    ReloadCommitsIff(sig, StartStep(sig, FRESH_BRIDGE, c, s).bridge, second);
  }

  // ---------------------------------------------------------------------------------------------
  // What the signature and the lock do not see

  const STRICT: SlaPolicy := DEFAULT_SLA_POLICY.(maxLatencyMs := 1)

  /** Two rules for the same topic in the template layer, or one of them promoted to the rule layer. */
  function Layered(templates: seq<PolicyRule>, rules: seq<PolicyRule>): PolicyTable {
    Reindexed(EMPTY_TABLE.(templates := templates, rules := rules))
  }

  lemma SplitLooksTheSame(high: PolicyRule, low: PolicyRule)
    ensures HashedFields(Layered([high, low], [])) == HashedFields(Layered([high], [low]))
  {
    var t, u := Layered([high, low], []), Layered([high], [low]);
    assert AllRules(t) == [high, low] && AllRules(u) == [high, low];
    SignatureIgnoresLayers(t, u);
  }

  /** Moving a rule to another layer changes which policy a message gets, and no signature notices. */
  lemma LayersEscapeTheSignature(sig: Signature)
    ensures var high, low := AnyRule(2, "*").(policy := STRICT), AnyRule(1, "*");
            var t, u := Layered([high, low], []), Layered([high], [low]);
            && sig(HashedFields(t)) == sig(HashedFields(u))
            && ResolveInternal(t, SampleEnvelope("s", "x")).policy == STRICT
            && ResolveInternal(u, SampleEnvelope("s", "x")).policy == DEFAULT_SLA_POLICY
  {
    var high, low := AnyRule(2, "*").(policy := STRICT), AnyRule(1, "*");
    var t, u, e := Layered([high, low], []), Layered([high], [low]), SampleEnvelope("s", "x");
    SplitLooksTheSame(high, low);
    NothingMatches(e);
    ResolvePrecedence(t, e);
    ResolvePrecedence(u, e);
    assert Naming([high, low], "x") == {} && Naming([low], "x") == {};
    assert Chosen([high, low], e, 0);
    assert Chosen([low], e, 0);
  }

  function Unlocked(c: Config): Config {
    c.(table := c.table.(defaultPolicy := c.table.defaultPolicy.(lockPolicy := false)),
       sla := c.sla.(lockPolicy := false))
  }

  /**
   * After a reload that put `p` in force, reloading the same configuration without its lock flags always gets past
   * the lock check and the signature check: both leave the flag itself out.
   */
  lemma LockCanBeLifted(sig: Signature, b: Bridge, p: Provider, again: Provider)
    requires ReloadStep(sig, b, Some(p)).ec == Ok && p.version != b.live.version
    requires again == Provider(Ok, again.version, Ok, Unlocked(p.config), again.source) && again.version != p.version
    requires !TooRisky(Installed(p.config), Normalized(again.config))
    ensures var r := ReloadStep(sig, ReloadStep(sig, b, Some(p)).bridge, Some(again));
            r.ec == Ok && !r.bridge.live.config.table.defaultPolicy.lockPolicy
  {
    ReloadCommitsIff(sig, b, p);
    UnlockedLooksTheSame(p.config);
    ReloadCommitsIff(sig, ReloadStep(sig, b, Some(p)).bridge, again);
  }

  lemma UnlockedLooksTheSame(c: Config)
    ensures HashedFields(Normalized(Unlocked(c)).table) == HashedFields(Normalized(c).table)
    ensures IsUsable(Normalized(Unlocked(c))) <==> IsUsable(Normalized(c))
  {
    assert HashPolicy(NormalDefault(Unlocked(c))) == HashPolicy(NormalDefault(c));
  }

  // ---------------------------------------------------------------------------------------------
  // What starting does to the last known good configuration

  /**
   * Starting a running bridge from a provider reports success and the new version, replaces the known good
   * configuration by one that was never checked, and keeps the old configuration in force; a later reload of that
   * version then finds nothing to do.
   */
  lemma StartWhileRunningMislabels(sig: Signature, b: Bridge, p: Provider, s: Surroundings)
    requires b.running && p.loadEc == Ok
    ensures var r := ProviderStartStep(sig, b, Some(p), s);
            && r.ec == Ok && r.bridge.live.config == b.live.config && r.bridge.live.version == p.version
            && r.bridge.good.config == p.config
            && (p.reloadEc == Ok ==> ReloadStep(sig, r.bridge, Some(p)).bridge.live == r.bridge.live)
  {
  }

  /** A start the canary refuses restores an earlier configuration exactly if one has a recorded non-zero version. */
  lemma CanaryRestoresIff(sig: Signature, b: Bridge, c: Config, s: Surroundings)
    requires !b.running && s.haveTransports && CanaryBlocks(c, s.gate)
    ensures var r := StartStep(sig, b, c, s);
            && r.ec == WouldBlock && !r.bridge.running && r.bridge.live == r.bridge.good
            && (if b.good.version != 0 then r.bridge.live == b.good else r.bridge.live.config == Normalized(c))
  {
  }

  /** Started from a provider it never does: what comes back is the very configuration that was refused. */
  lemma CanaryRestoresTheRefused(sig: Signature, b: Bridge, p: Provider, s: Surroundings)
    requires !b.running && p.loadEc == Ok && s.haveTransports && CanaryBlocks(p.config, s.gate)
    ensures var r := ProviderStartStep(sig, b, Some(p), s);
            && r.ec == WouldBlock && r.bridge.live.version == p.version
            && r.bridge.live.config == if p.version != 0 then p.config else Normalized(p.config)
  {
    CanaryRestoresIff(sig, Preloaded(sig, b, p), p.config, s);
  }

  // ---------------------------------------------------------------------------------------------
  // Endpoint tests and rejected reloads

  /** A configuration with one template rule, for messages from "a" only. */
  const SOURCE_RULE: PolicyRule := AnyRule(1, "*").(anySource := false, source := "a", policy := STRICT)

  const SOURCE_CONFIG: Config := DEFAULT_CONFIG.(table := EMPTY_TABLE.(templates := [SOURCE_RULE]))

  lemma SourceTable()
    ensures Installed(SOURCE_CONFIG).table == Layered([SOURCE_RULE], [])
    ensures ResolveInternal(Layered([SOURCE_RULE], []), SampleEnvelope("a", "x")).policy == STRICT
    ensures ResolveInternal(Layered([SOURCE_RULE], []), SampleEnvelope("b", "x")).policy == DEFAULT_SLA_POLICY
  {
    var t, first, second := Layered([SOURCE_RULE], []), SampleEnvelope("a", "x"), SampleEnvelope("b", "x");
    NothingMatches(first);
    NothingMatches(second);
    ResolvePrecedence(t, first);
    ResolvePrecedence(t, second);
    assert Naming([SOURCE_RULE], "x") == {};
    assert Chosen([SOURCE_RULE], first, 0);
    assert !Applies([SOURCE_RULE], second);
  }

  /** With a rule that tests the source, a rejected reload does change the policy of the next message. */
  lemma RejectedReloadChangesPolicy(sig: Signature)
    ensures var started := StartStep(sig, FRESH_BRIDGE, SOURCE_CONFIG, ALL_WELL).bridge;
            var b := Resolved(started, SampleEnvelope("a", "x"));
            var bad := Provider(Ok, 1, Ok, DEFAULT_CONFIG, "");
            var r := ReloadStep(sig, b, Some(bad));
            && started.running && r.ec != Ok
            && PolicyFor(b, SampleEnvelope("b", "x")).policy == STRICT
            && PolicyFor(r.bridge, SampleEnvelope("b", "x")).policy == DEFAULT_SLA_POLICY
  {
    SourceTable();
    var started := StartStep(sig, FRESH_BRIDGE, SOURCE_CONFIG, ALL_WELL).bridge;
    var first, second := SampleEnvelope("a", "x"), SampleEnvelope("b", "x");
    var bad := Provider(Ok, 1, Ok, DEFAULT_CONFIG, "");
    assert started.running && started.cache == [] && started.live.config == Installed(SOURCE_CONFIG);
    assert started.live.version == 0;
    RejectionForgets(sig, started, first, second, bad);
  }

  /** After one resolution a tried and rejected candidate gives the key's next message its own policy again. */
  lemma RejectionForgets(sig: Signature, b: Bridge, first: Envelope, second: Envelope, bad: Provider)
    requires b.cache == [] && KeyOf(first) == KeyOf(second) && IsTried(b, bad) && !IsUsable(Normalized(bad.config))
    ensures var b1 := Resolved(b, first); var r := ReloadStep(sig, b1, Some(bad));
            && r.ec != Ok
            && PolicyFor(b1, second) == ResolveInternal(b.live.config.table, first)
            && PolicyFor(r.bridge, second) == ResolveInternal(b.live.config.table, second)
  {
    var b1 := Resolved(b, first);
    assert Find(b.cache, KeyOf(first)).None?;
    assert b1.cache[0] == Item(KeyOf(first), PolicyFor(b, first));
    FailedReloadIsAtomic(sig, b1, Some(bad));
    assert Find(ReloadStep(sig, b1, Some(bad)).bridge.cache, KeyOf(second)).None?;
  }
}
