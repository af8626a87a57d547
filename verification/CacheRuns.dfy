/** Whole runs of policy lookups and rebuilds against the cache. */
module CacheRuns {
  import opened Types
  import opened PolicyEngine
  import opened PolicyCache
  import opened PolicySamples
  import opened Recency

  datatype Op = Resolve(e: Envelope) | Rebuild(t: PolicyTable)

  function Step(s: Resolver, op: Op): Resolver {
    match op
    case Resolve(e) => AfterResolve(s, e)
    case Rebuild(t) => AfterRebuild(s, t)
  }

  function Run(t: PolicyTable, ops: seq<Op>): Resolver {
    if ops == [] then FreshResolver(t) else Step(Run(t, ops[..|ops| - 1]), ops[|ops| - 1])
  }

  /** The envelopes resolved since the last rebuild, oldest first. */
  function Since(ops: seq<Op>): seq<Envelope> {
    if ops == [] then []
    else match ops[|ops| - 1]
      case Resolve(e) => Since(ops[..|ops| - 1]) + [e]
      case Rebuild(_) => []
  }

  function KeysOf(es: seq<Envelope>): seq<PolicyKey> {
    if es == [] then [] else KeysOf(es[..|es| - 1]) + [KeyOf(es[|es| - 1])]
  }

  // ---------------------------------------------------------------------------------------------
  // The list holds exactly the most recently used keys

  lemma {:induction false} KeysWithout(items: seq<Item>, key: PolicyKey)
    ensures Keys(WithoutKey(items, key)) == Without(Keys(items), key)
  {
    if items != [] {
      KeysWithout(items[1..], key);
      var head, rest := items[0], WithoutKey(items[1..], key);
      assert Keys(items)[1..] == Keys(items[1..]);
      if head.key == key {
        assert WithoutKey(items, key) == rest;
      } else {
        var kept := WithoutKey(items, key);
        assert kept[0] == head && kept[1..] == rest;
      }
    }
  }

  lemma {:induction false} KeysTake(items: seq<Item>, n: nat)
    ensures |Keys(items)| == |items| && Keys(Take(items, n)) == Take(Keys(items), n)
  {
    if items != [] {
      KeysTake(items[1..], if n == 0 then 0 else n - 1);
      if 0 < n < |items| {
        assert items[..n][1..] == items[1..][..n - 1];
      }
    }
  }

  lemma KeysUse(items: seq<Item>, key: PolicyKey, entry: Resolution)
    ensures Keys(Use(items, key, entry)) == Take([key] + Without(Keys(items), key), MAX_ENTRIES)
  {
    var rest := WithoutKey(items, key);
    KeysWithout(items, key);
    KeysTake([Item(key, entry)] + rest, MAX_ENTRIES);
    assert ([Item(key, entry)] + rest)[1..] == rest;
  }

  lemma UseTracksHistory(items: seq<Item>, uses: seq<PolicyKey>, key: PolicyKey, entry: Resolution)
    requires Keys(items) == Take(ByRecency(uses), MAX_ENTRIES)
    ensures Keys(Use(items, key, entry)) == Take(ByRecency(uses + [key]), MAX_ENTRIES)
  {
    KeysUse(items, key, entry);
    RecencyDistinct(uses);
    TruncatedUse(ByRecency(uses), key, MAX_ENTRIES);
    assert (uses + [key])[..|uses|] == uses;
  }

  lemma {:induction false} CacheTracksHistory(t: PolicyTable, ops: seq<Op>)
    ensures Keys(Run(t, ops).items) == Take(ByRecency(KeysOf(Since(ops))), MAX_ENTRIES)
  {
    if ops != [] && ops[|ops| - 1].Resolve? {
      var init, e := ops[..|ops| - 1], ops[|ops| - 1].e;
      CacheTracksHistory(t, init);
      var s, es := Run(t, init), Since(init);
      UseTracksHistory(s.items, KeysOf(es), KeyOf(e), Answer(s, e));
      assert (es + [e])[..|es|] == es;
    }
  }

  /**
   * After any run the cached keys are the `MAX_ENTRIES` (or fewer) distinct keys used most recently since the
   * last rebuild, newest first.
   */
  lemma LruIsExact(t: PolicyTable, ops: seq<Op>)
    ensures Keys(Run(t, ops).items) == Take(ByRecency(KeysOf(Since(ops))), 256)
    ensures Distinct(Keys(Run(t, ops).items))
  {
    var uses := KeysOf(Since(ops));
    CacheTracksHistory(t, ops);
    RecencyDistinct(uses);
    TakeDistinct(ByRecency(uses), MAX_ENTRIES);
  }

  // ---------------------------------------------------------------------------------------------
  // What a cached answer means

  lemma {:induction false} WithoutKeyKeeps(items: seq<Item>, key: PolicyKey, item: Item)
    requires item in WithoutKey(items, key)
    ensures item in items
  {
    if items[0].key == key || item != items[0] {
      WithoutKeyKeeps(items[1..], key, item);
    }
  }

  lemma {:induction false} FindIsMember(items: seq<Item>, key: PolicyKey)
    requires Find(items, key).Some?
    ensures Item(key, Find(items, key).value) in items
  {
    if items[0].key != key {
      FindIsMember(items[1..], key);
    } else {
      assert items[0] == Item(key, Find(items, key).value);
    }
  }

  lemma {:induction false} FoundIffKeyed(items: seq<Item>, key: PolicyKey)
    ensures Find(items, key).Some? <==> key in Keys(items)
  {
    if items != [] {
      FoundIffKeyed(items[1..], key);
    }
  }

  lemma {:induction false} FindWithout(items: seq<Item>, gone: PolicyKey, key: PolicyKey)
    requires key != gone
    ensures Find(WithoutKey(items, gone), key) == Find(items, key)
  {
    if items != [] {
      FindWithout(items[1..], gone, key);
      var rest := WithoutKey(items[1..], gone);
      if items[0].key == gone {
        assert WithoutKey(items, gone) == rest;
      } else {
        assert WithoutKey(items, gone)[1..] == rest;
      }
    }
  }

  lemma {:induction false} FindTaken(items: seq<Item>, n: nat, key: PolicyKey)
    requires key in Keys(Take(items, n))
    ensures Find(Take(items, n), key) == Find(items, key)
  {
    if n < |items| {
      assert n > 0;
      if items[0].key != key {
        assert items[..n][1..] == items[1..][..n - 1];
        FindTaken(items[1..], n - 1, key);
      }
    }
  }

  /** A use puts its entry in front and leaves the entries of the other keys it keeps as they were. */
  lemma FindUsed(items: seq<Item>, used: PolicyKey, entry: Resolution, key: PolicyKey)
    requires key in Keys(Use(items, used, entry))
    ensures Find(Use(items, used, entry), key) == if key == used then Some(entry) else Find(items, key)
  {
    var all := [Item(used, entry)] + WithoutKey(items, used);
    FindTaken(all, MAX_ENTRIES, key);
    if key != used {
      FindWithout(items, used, key);
      assert all[1..] == WithoutKey(items, used);
    }
  }

  /** The key is among the `MAX_ENTRIES` used most recently. */
  predicate Remembered(es: seq<Envelope>, key: PolicyKey) {
    key in Take(ByRecency(KeysOf(es)), MAX_ENTRIES)
  }

  /** Resolution `i` is the one that last brought this key in: it was not remembered before and has been ever since. */
  ghost predicate Filled(es: seq<Envelope>, key: PolicyKey, i: nat) {
    && i < |es| && KeyOf(es[i]) == key && !Remembered(es[..i], key)
    && forall j :: i < j <= |es| ==> Remembered(es[..j], key)
  }

  /** What a lookup finds is decided by the history of keys alone. */
  lemma FoundIffRemembered(t: PolicyTable, ops: seq<Op>, key: PolicyKey)
    ensures Find(Run(t, ops).items, key).Some? <==> Remembered(Since(ops), key)
  {
    CacheTracksHistory(t, ops);
    FoundIffKeyed(Run(t, ops).items, key);
  }

  lemma FilledBefore(es: seq<Envelope>, e: Envelope, key: PolicyKey, i: nat)
    requires Filled(es + [e], key, i) && i < |es|
    ensures Filled(es, key, i)
  {
    assert (es + [e])[..i] == es[..i];
    forall j | i < j <= |es| ensures Remembered(es[..j], key) {
      assert (es + [e])[..j] == es[..j];
    }
  }

  /** The entry of a key is the answer computed for the envelope that last brought the key in. */
  lemma {:induction false} FoundIsFillers(t: PolicyTable, ops: seq<Op>, key: PolicyKey, i: nat)
    requires Filled(Since(ops), key, i)
    ensures Find(Run(t, ops).items, key) == Some(ResolveInternal(Run(t, ops).table, Since(ops)[i]))
  {
    var init, e := ops[..|ops| - 1], ops[|ops| - 1].e;
    var s, es := Run(t, init), Since(init);
    assert (es + [e])[..|es| + 1] == es + [e];
    CacheTracksHistory(t, ops);
    FindUsed(s.items, KeyOf(e), Answer(s, e), key);
    if i == |es| {
      assert (es + [e])[..i] == es;
      FoundIffRemembered(t, init, key);
    } else {
      FilledBefore(es, e, key, i);
      FoundIsFillers(t, init, key, i);
    }
  }

  lemma RememberedStays(es: seq<Envelope>, e: Envelope, key: PolicyKey)
    requires Remembered(es + [e], key) && KeyOf(e) != key
    ensures Remembered(es, key)
  {
    var uses := KeysOf(es);
    assert (es + [e])[..|es|] == es;
    assert (uses + [KeyOf(e)])[..|uses|] == uses;
    RecencyDistinct(uses);
    TruncatedUse(ByRecency(uses), KeyOf(e), MAX_ENTRIES);
    WithoutMembers(Take(ByRecency(uses), MAX_ENTRIES), KeyOf(e));
  }

  lemma FilledStill(es: seq<Envelope>, e: Envelope, key: PolicyKey, i: nat)
    requires Filled(es, key, i) && Remembered(es + [e], key)
    ensures Filled(es + [e], key, i)
  {
    assert (es + [e])[..i] == es[..i];
    forall j | i < j <= |es + [e]| ensures Remembered((es + [e])[..j], key) {
      if j <= |es| {
        assert (es + [e])[..j] == es[..j];
      } else {
        assert (es + [e])[..j] == es + [e];
      }
    }
  }

  lemma FilledNow(es: seq<Envelope>, e: Envelope)
    requires !Remembered(es, KeyOf(e)) && Remembered(es + [e], KeyOf(e))
    ensures Filled(es + [e], KeyOf(e), |es|)
  {
    assert (es + [e])[..|es|] == es && (es + [e])[..|es| + 1] == es + [e];
  }

  /** A remembered key was brought in by exactly one resolution. */
  lemma {:induction false} SomebodyFilled(es: seq<Envelope>, key: PolicyKey) returns (i: nat)
    requires Remembered(es, key)
    ensures Filled(es, key, i)
  {
    var n := |es| - 1;
    var init, e := es[..n], es[n];
    assert es == init + [e];
    if Remembered(init, key) {
      i := SomebodyFilled(init, key);
      FilledStill(init, e, key, i);
    } else {
      i := n;
      if KeyOf(e) != key {
        RememberedStays(init, e, key);
      }
      FilledNow(init, e);
    }
  }

  /**
   * What a call answers, for every table and every run: if its key is no longer remembered, the uncached answer;
   * otherwise the answer for the one envelope that last brought the key in.
   */
  lemma AnswerIsEarned(t: PolicyTable, ops: seq<Op>, e: Envelope)
    ensures var s, es, key := Run(t, ops), Since(ops), KeyOf(e);
            && s.table == TableAfter(t, ops)
            && (!Remembered(es, key) ==> Answer(s, e) == ResolveInternal(s.table, e))
            && (Remembered(es, key) ==> exists i: nat :: Filled(es, key, i))
            && (forall i: nat :: Filled(es, key, i) ==> Answer(s, e) == ResolveInternal(s.table, es[i]))
  {
    var es, key := Since(ops), KeyOf(e);
    TableIsCurrent(t, ops);
    FoundIffRemembered(t, ops, key);
    if Remembered(es, key) {
      var i := SomebodyFilled(es, key);
    }
    forall i: nat | Filled(es, key, i) ensures Answer(Run(t, ops), e) == ResolveInternal(Run(t, ops).table, es[i]) {
      FoundIsFillers(t, ops, key, i);
    }
  }

  // ---------------------------------------------------------------------------------------------
  // Transparency

  /** The table in force after a run, indexes rebuilt. */
  function TableAfter(t: PolicyTable, ops: seq<Op>): PolicyTable {
    if ops == [] then Reindexed(t)
    else match ops[|ops| - 1]
      case Resolve(_) => TableAfter(t, ops[..|ops| - 1])
      case Rebuild(next) => Reindexed(next)
  }

  lemma {:induction false} TableIsCurrent(t: PolicyTable, ops: seq<Op>)
    ensures Run(t, ops).table == TableAfter(t, ops)
  {
    if ops != [] {
      TableIsCurrent(t, ops[..|ops| - 1]);
    }
  }

  /** This call gets the policy the table gives it. */
  predicate AnsweredByTable(t: PolicyTable, ops: seq<Op>, e: Envelope) {
    Answer(Run(t, ops), e) == ResolveInternal(TableAfter(t, ops), e)
  }

  /** One call is answered by the table exactly when whoever brought its key in, if anybody, has the same policy. */
  lemma CallIsTransparentIff(t: PolicyTable, ops: seq<Op>, e: Envelope)
    ensures AnsweredByTable(t, ops, e) <==>
            forall i: nat :: Filled(Since(ops), KeyOf(e), i) ==>
              ResolveInternal(TableAfter(t, ops), Since(ops)[i]) == ResolveInternal(TableAfter(t, ops), e)
  {
    AnswerIsEarned(t, ops, e);
  }

  /** If the table in force looks at the key alone, every answer is the uncached one, whatever tables came before it. */
  lemma CacheIsTransparent(t: PolicyTable, ops: seq<Op>, e: Envelope)
    requires KeyDetermined(TableAfter(t, ops))
    ensures AnsweredByTable(t, ops, e)
  {
    CallIsTransparentIff(t, ops, e);
  }

  /** Two envelopes the table tells apart, resolved one after the other, are answered alike. */
  lemma SecondGetsFirstsPolicy(t: PolicyTable, ops: seq<Op>, first: Envelope, second: Envelope)
    requires KeyOf(first) == KeyOf(second) && Since(ops) == []
    ensures Since(ops + [Resolve(first)]) == [first] && TableAfter(t, ops + [Resolve(first)]) == TableAfter(t, ops)
    ensures Answer(Run(t, ops + [Resolve(first)]), second) == ResolveInternal(TableAfter(t, ops), first)
  {
    var longer := ops + [Resolve(first)];
    assert longer[..|ops|] == ops && Since(longer) == [first];
    FirstFills(first);
    AnswerIsEarned(t, longer, second);
  }

  lemma FirstFills(first: Envelope)
    ensures Filled([first], KeyOf(first), 0)
  {
    assert KeysOf([]) == [] && ByRecency<PolicyKey>([]) == [];
    assert [first][..0] == [] && [first][..1] == [first];
    assert KeysOf([first]) == [KeyOf(first)];
    assert ByRecency([KeyOf(first)]) == [KeyOf(first)];
  }

  /**
   * The exact condition on a table: the cache in front of it is transparent in every run of resolutions if and
   * only if the table never tells two envelopes of the same key apart, which its finitely many samples decide.
   */
  lemma TransparentIff(t: PolicyTable)
    ensures (forall ops, e :: TableAfter(t, ops) == Reindexed(t) ==> AnsweredByTable(t, ops, e)) <==>
            KeyDetermined(Reindexed(t))
    ensures KeyDetermined(Reindexed(t)) <==> KeyDeterminedOnSamples(Reindexed(t))
  {
    SamplesDecide(Reindexed(t));
    if KeyDetermined(Reindexed(t)) {
      forall ops, e | TableAfter(t, ops) == Reindexed(t) ensures AnsweredByTable(t, ops, e) {
        CacheIsTransparent(t, ops, e);
      }
    } else {
      var e, f :| KeyOf(e) == KeyOf(f) && ResolveInternal(Reindexed(t), e) != ResolveInternal(Reindexed(t), f);
      SecondGetsFirstsPolicy(t, [], e, f);
      assert !AnsweredByTable(t, [] + [Resolve(e)], f);
    }
  }

  datatype UncachedCounts = UncachedCounts(resolutions: nat, overrides: nat, conflicts: nat)

  /** The counters of a bridge without a cache. */
  function UncachedTally(t: PolicyTable, ops: seq<Op>): UncachedCounts {
    if ops == [] then UncachedCounts(0, 0, 0)
    else
      var before := UncachedTally(t, ops[..|ops| - 1]);
      match ops[|ops| - 1]
      case Rebuild(_) => before
      case Resolve(e) =>
        var r := ResolveInternal(TableAfter(t, ops[..|ops| - 1]), e);
        UncachedCounts(before.resolutions + 1, before.overrides + One(r.overrideApplied),
                       before.conflicts + One(r.conflict))
  }

  /** Every call is a hit or a miss, whatever the table. */
  lemma {:induction false} HitsAndMissesSplitCalls(t: PolicyTable, ops: seq<Op>)
    ensures var s := Run(t, ops);
            s.counts.cacheHits + s.counts.cacheMisses == s.counts.policyHits == UncachedTally(t, ops).resolutions
  {
    if ops != [] {
      HitsAndMissesSplitCalls(t, ops[..|ops| - 1]);
    }
  }

  /** What one call adds to the counters: a hit exactly if its key is remembered, and the flags of its answer. */
  lemma CallIsCounted(t: PolicyTable, ops: seq<Op>, e: Envelope)
    ensures var c, c', r := Run(t, ops).counts, Run(t, ops + [Resolve(e)]).counts, Answer(Run(t, ops), e);
            var hit := Remembered(Since(ops), KeyOf(e));
            && c'.cacheHits == c.cacheHits + One(hit) && c'.cacheMisses == c.cacheMisses + One(!hit)
            && c'.policyHits == c.policyHits + 1
            && c'.overrides == c.overrides + One(r.overrideApplied)
            && c'.conflicts == c.conflicts + One(r.conflict)
  {
    assert (ops + [Resolve(e)])[..|ops|] == ops;
    FoundIffRemembered(t, ops, KeyOf(e));
  }

  /** A rebuild leaves every counter alone. */
  lemma RebuildKeepsCounts(t: PolicyTable, ops: seq<Op>, next: PolicyTable)
    ensures Run(t, ops + [Rebuild(next)]).counts == Run(t, ops).counts
  {
    assert (ops + [Rebuild(next)])[..|ops|] == ops;
  }

  /** No table in force during the run tells envelopes of one key apart. */
  ghost predicate AllDetermined(t: PolicyTable, ops: seq<Op>) {
    KeyDetermined(TableAfter(t, ops)) && (ops == [] || AllDetermined(t, ops[..|ops| - 1]))
  }

  /** Then the counters count as if there were no cache. */
  lemma {:induction false} CountersAreTransparent(t: PolicyTable, ops: seq<Op>)
    requires AllDetermined(t, ops)
    ensures var c := Run(t, ops).counts;
            UncachedTally(t, ops) == UncachedCounts(c.policyHits, c.overrides, c.conflicts)
  {
    if ops != [] {
      var init := ops[..|ops| - 1];
      CountersAreTransparent(t, init);
      if ops[|ops| - 1].Resolve? {
        CacheIsTransparent(t, init, ops[|ops| - 1].e);
      }
    }
  }

  /** One rule that tests the source is enough to break this: the second sender gets the first one's policy. */
  lemma EndpointTestsDefeatTheCache()
    ensures var strict := DEFAULT_SLA_POLICY.(maxLatencyMs := 1);
            var rule := AnyRule(1, "*").(anySource := false, source := "a", policy := strict);
            var table := PolicyTable(DEFAULT_SLA_POLICY, [], [rule], [], map[], map[], map[]);
            var first, second := SampleEnvelope("a", "x"), SampleEnvelope("b", "x");
            && Answer(Run(table, [Resolve(first)]), second).policy == strict
            && ResolveInternal(TableAfter(table, [Resolve(first)]), second).policy == DEFAULT_SLA_POLICY
  {
    var strict := DEFAULT_SLA_POLICY.(maxLatencyMs := 1);
    var rule := AnyRule(1, "*").(anySource := false, source := "a", policy := strict);
    var table := PolicyTable(DEFAULT_SLA_POLICY, [], [rule], [], map[], map[], map[]);
    var first, second := SampleEnvelope("a", "x"), SampleEnvelope("b", "x");
    OneRuleDecides(table, rule, first);
    OneRuleDecides(table, rule, second);
    SecondGetsFirstsPolicy(table, [], first, second);
    assert [] + [Resolve(first)] == [Resolve(first)];
  }

  lemma OneRuleDecides(t: PolicyTable, rule: PolicyRule, e: Envelope)
    requires t.templates == [] && t.rules == [rule] && t.overrides == [] && !NamesTopic(rule)
    ensures ResolveInternal(Reindexed(t), e).policy == if RuleMatches(rule, e) then rule.policy else t.defaultPolicy
  {
    var empty: seq<PolicyRule> := [];
    assert forall i: nat :: !Hits(empty, i, e);
    ChosenIsFound(empty, e);
    ResolvePrecedence(Reindexed(t), e);
    assert Naming([rule], e.topic) == {};
    if RuleMatches(rule, e) {
      assert 0 in CandidateSet([rule], e.topic) && Chosen([rule], e, 0);
    } else {
      assert !Applies([rule], e);
    }
  }
}
