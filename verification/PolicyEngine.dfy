/** Rule matching, the per-topic rule index and layered policy resolution. */
module PolicyEngine {
  import opened Types

  // ---------------------------------------------------------------------------------------------
  // One rule against one envelope

  /** A rule whose topic is neither empty nor "*" names a topic; every other rule is a wildcard. */
  predicate NamesTopic(r: PolicyRule) {
    r.topic != "" && r.topic != "*"
  }

  predicate Names(r: PolicyRule, topic: string) {
    NamesTopic(r) && r.topic == topic
  }

  predicate RuleMatches(r: PolicyRule, e: Envelope) {
    && (r.anyChannel || r.channel == e.channel)
    && (r.anySource || r.source == e.source)
    && (r.anyTarget || r.target == e.target)
    && (r.anyQos || r.qos == e.qos)
    && (NamesTopic(r) ==> r.topic == e.topic)
  }

  predicate Hits(rules: seq<PolicyRule>, i: nat, e: Envelope) {
    i < |rules| && RuleMatches(rules[i], e)
  }

  // ---------------------------------------------------------------------------------------------
  // Best match in a layer

  datatype Match = NoMatch | Matched(at: nat, priority: Uint32, tied: bool)

  /**
   * Independent meaning of a layer's answer over a set of candidate rules: the earliest rule of the highest
   * matching priority, flagged when a second matching candidate has that priority.
   */
  ghost predicate BestAmong(rules: seq<PolicyRule>, candidates: set<nat>, e: Envelope, m: Match) {
    match m
    case NoMatch => forall i :: i in candidates ==> !Hits(rules, i, e)
    case Matched(at, priority, tied) =>
      && at in candidates && Hits(rules, at, e) && rules[at].priority == priority
      && (forall i :: i in candidates && Hits(rules, i, e) ==> rules[i].priority <= priority)
      && (forall i :: i in candidates && Hits(rules, i, e) && rules[i].priority == priority ==> at <= i)
      && (tied <==> exists i :: i in candidates && i != at && Hits(rules, i, e) && rules[i].priority == priority)
  }

  lemma BestIsUnique(rules: seq<PolicyRule>, candidates: set<nat>, e: Envelope, m: Match, n: Match)
    requires BestAmong(rules, candidates, e, m) && BestAmong(rules, candidates, e, n)
    ensures m == n
  {
  }

  function Consider(rules: seq<PolicyRule>, best: Match, i: nat, e: Envelope): Match {
    if !Hits(rules, i, e) then best
    else if best.NoMatch? || rules[i].priority > best.priority then Matched(i, rules[i].priority, false)
    else if rules[i].priority == best.priority then best.(tied := true)
    else best
  }

  function Scan(rules: seq<PolicyRule>, order: seq<nat>, e: Envelope): Match {
    if order == [] then NoMatch
    else Consider(rules, Scan(rules, order[..|order| - 1], e), order[|order| - 1], e)
  }

  predicate Ascending(order: seq<nat>) {
    forall p, q :: 0 <= p < q < |order| ==> order[p] < order[q]
  }

  ghost function Elements(order: seq<nat>): set<nat> {
    set i | i in order
  }

  lemma AscendingSnoc(order: seq<nat>, n: nat)
    requires Ascending(order) && forall i :: i in order ==> i < n
    ensures Ascending(order + [n]) && Elements(order + [n]) == Elements(order) + {n}
  {
    forall p, q | 0 <= p < q < |order| + 1 ensures (order + [n])[p] < (order + [n])[q] {
      assert order[p] in order;
    }
  }

  lemma {:induction false} ScanFindsBest(rules: seq<PolicyRule>, order: seq<nat>, e: Envelope)
    requires Ascending(order)
    ensures BestAmong(rules, Elements(order), e, Scan(rules, order, e))
  {
    if order != [] {
      var n := |order| - 1;
      var init, last := order[..n], order[n];
      ScanFindsBest(rules, init, e);
      assert Elements(order) == Elements(init) + {last} by {
        assert order == init + [last];
      }
      assert forall i :: i in Elements(init) ==> i < last;
      ConsiderKeepsBest(rules, Elements(init), e, Scan(rules, init, e), last);
    }
  }

  lemma ConsiderKeepsBest(rules: seq<PolicyRule>, candidates: set<nat>, e: Envelope, m: Match, last: nat)
    requires BestAmong(rules, candidates, e, m)
    requires forall i :: i in candidates ==> i < last
    ensures BestAmong(rules, candidates + {last}, e, Consider(rules, m, last, e))
  {
    var all := candidates + {last};
    if Hits(rules, last, e) && m.Matched? && rules[last].priority == m.priority {
      assert last in all && last != m.at;
    }
  }

  // ---------------------------------------------------------------------------------------------
  // The topic index

  type TopicIndex = map<string, seq<nat>>

  function AddToIndex(index: TopicIndex, r: PolicyRule, i: nat): TopicIndex {
    if !NamesTopic(r) then index
    else index[r.topic := (if r.topic in index then index[r.topic] else []) + [i]]
  }

  function IndexOf(rules: seq<PolicyRule>): TopicIndex {
    if rules == [] then map[]
    else AddToIndex(IndexOf(rules[..|rules| - 1]), rules[|rules| - 1], |rules| - 1)
  }

  /** The rules that name a topic, as positions. */
  ghost function Naming(rules: seq<PolicyRule>, topic: string): set<nat> {
    set i: nat | i < |rules| && Names(rules[i], topic)
  }

  ghost predicate IndexedAt(rules: seq<PolicyRule>, index: TopicIndex, topic: string) {
    && (topic in index <==> Naming(rules, topic) != {})
    && (topic in index ==> Ascending(index[topic]) && Elements(index[topic]) == Naming(rules, topic))
  }

  /** The index lists, for every topic some rule names, exactly the rules that name it, in order. */
  lemma {:induction false} IndexIsExact(rules: seq<PolicyRule>, topic: string)
    ensures IndexedAt(rules, IndexOf(rules), topic)
  {
    if rules != [] {
      var n := |rules| - 1;
      var init, r := rules[..n], rules[n];
      IndexIsExact(init, topic);
      if Names(r, topic) {
        assert Naming(rules, topic) == Naming(init, topic) + {n};
        var before := if topic in IndexOf(init) then IndexOf(init)[topic] else [];
        assert IndexOf(rules)[topic] == before + [n];
        assert forall i :: i in before ==> i in Elements(before);
        AscendingSnoc(before, n);
      } else {
        assert Naming(rules, topic) == Naming(init, topic);
      }
    }
  }

  method IndexRules(rules: seq<PolicyRule>) returns (index: TopicIndex)
    ensures index == IndexOf(rules)
    ensures forall topic :: IndexedAt(rules, index, topic)
  {
    index := map[];
    for i := 0 to |rules|
      invariant index == IndexOf(rules[..i])
    {
      var rule := rules[i];
      assert rules[..i + 1][..i] == rules[..i];
      if rule.topic != "" && rule.topic != "*" {
        index := index[rule.topic := (if rule.topic in index then index[rule.topic] else []) + [i]];
      }
    }
    assert rules[..|rules|] == rules;
    forall topic ensures IndexedAt(rules, index, topic) {
      IndexIsExact(rules, topic);
    }
  }

  function AllPositions(n: nat): (order: seq<nat>)
    ensures |order| == n && Ascending(order)
    ensures forall i :: 0 <= i < n ==> order[i] == i
    ensures forall i :: i in order <==> 0 <= i < n
  {
    var order := seq(n, i => i);
    assert forall i :: 0 <= i < n ==> i in order by {
      forall i | 0 <= i < n ensures i in order {
        assert order[i] == i;
      }
    }
    order
  }

  function Candidates(rules: seq<PolicyRule>, index: TopicIndex, topic: string): seq<nat> {
    if topic in index then index[topic] else AllPositions(|rules|)
  }

  function FindBest(rules: seq<PolicyRule>, index: TopicIndex, e: Envelope): Match {
    Scan(rules, Candidates(rules, index, e.topic), e)
  }

  /** The rules a lookup looks at: those that name the topic if there are any, otherwise every rule. */
  ghost function CandidateSet(rules: seq<PolicyRule>, topic: string): set<nat> {
    if Naming(rules, topic) != {} then Naming(rules, topic) else Everything(rules)
  }

  ghost function Everything(rules: seq<PolicyRule>): set<nat> {
    Elements(AllPositions(|rules|))
  }

  lemma FindBestMeans(rules: seq<PolicyRule>, e: Envelope)
    ensures BestAmong(rules, CandidateSet(rules, e.topic), e, FindBest(rules, IndexOf(rules), e))
  {
    IndexIsExact(rules, e.topic);
    var order := Candidates(rules, IndexOf(rules), e.topic);
    ScanFindsBest(rules, order, e);
    assert Elements(order) == CandidateSet(rules, e.topic);
  }

  /** `FindBestPolicyMatch`; the index may be stale or hold positions beyond the rules. */
  method FindBestPolicyMatch(rules: seq<PolicyRule>, index: TopicIndex, e: Envelope) returns (m: Match)
    ensures m == FindBest(rules, index, e)
    ensures index == IndexOf(rules) ==> BestAmong(rules, CandidateSet(rules, e.topic), e, m)
  {
    var order := Candidates(rules, index, e.topic);
    m := NoMatch;
    for k := 0 to |order|
      invariant m == Scan(rules, order[..k], e)
    {
      var i := order[k];
      assert order[..k + 1][..k] == order[..k];
      if i < |rules| && RuleMatches(rules[i], e) {
        var rule := rules[i];
        if m.NoMatch? || rule.priority > m.priority {
          m := Matched(i, rule.priority, false);
        } else if rule.priority == m.priority {
          m := m.(tied := true);
        }
      }
    }
    assert order[..|order|] == order;
    FindBestMeans(rules, e);
  }

  // ---------------------------------------------------------------------------------------------
  // Strings no rule mentions

  /** A string longer than any source, target or topic in the rules. */
  function Unmentioned(rules: seq<PolicyRule>): (u: string)
    ensures forall i :: 0 <= i < |rules| ==>
              |rules[i].topic| < |u| && |rules[i].source| < |u| && |rules[i].target| < |u|
  {
    if rules == [] then "u"
    else
      var r, rest := rules[0], Unmentioned(rules[1..]);
      if |r.topic| < |rest| && |r.source| < |rest| && |r.target| < |rest| then rest
      else r.topic + r.source + r.target + rest
  }

  lemma NobodyNames(rules: seq<PolicyRule>)
    ensures Naming(rules, Unmentioned(rules)) == {}
  {
    forall i: nat | i < |rules| ensures !Names(rules[i], Unmentioned(rules)) {
      assert |rules[i].topic| < |Unmentioned(rules)|;
    }
  }

  // ---------------------------------------------------------------------------------------------
  // Index against plain scan

  function FullScan(rules: seq<PolicyRule>, e: Envelope): Match {
    Scan(rules, AllPositions(|rules|), e)
  }

  lemma FullScanMeans(rules: seq<PolicyRule>, e: Envelope)
    ensures BestAmong(rules, Everything(rules), e, FullScan(rules, e))
  {
    ScanFindsBest(rules, AllPositions(|rules|), e);
    assert Elements(AllPositions(|rules|)) == Everything(rules);
  }

  /** A matching wildcard rule that would have changed the answer `m` had it been looked at. */
  predicate WouldChange(rules: seq<PolicyRule>, w: nat, e: Envelope, m: Match) {
    && Hits(rules, w, e) && !NamesTopic(rules[w])
    && (m.NoMatch? || rules[w].priority > m.priority
        || (rules[w].priority == m.priority && (w < m.at || !m.tied)))
  }

  /** A matching rule that names the topic of the envelope: what a lookup in a naming layer looks at. */
  predicate NamedHit(rules: seq<PolicyRule>, i: nat, e: Envelope) {
    Hits(rules, i, e) && NamesTopic(rules[i])
  }

  predicate Rival(rules: seq<PolicyRule>, i: nat, w: nat, e: Envelope)
    requires w < |rules|
  {
    NamedHit(rules, i, e) && rules[i].priority == rules[w].priority
  }

  /**
   * A matching wildcard rule that would have counted next to the matching rules that name the topic: none of them
   * has a higher priority, and of those with the same one it precedes all or meets at most one.
   */
  ghost predicate Overlooked(rules: seq<PolicyRule>, w: nat, e: Envelope) {
    && Hits(rules, w, e) && !NamesTopic(rules[w])
    && (forall i: nat :: NamedHit(rules, i, e) ==> rules[i].priority <= rules[w].priority)
    && ((forall i: nat :: Rival(rules, i, w, e) ==> w < i)
        || (forall i: nat, j: nat :: Rival(rules, i, w, e) && Rival(rules, j, w, e) ==> i == j))
  }

  predicate IsNamed(rules: seq<PolicyRule>, topic: string) {
    exists i :: 0 <= i < |rules| && Names(rules[i], topic)
  }

  ghost predicate HidesWildcard(rules: seq<PolicyRule>, e: Envelope) {
    IsNamed(rules, e.topic) && exists w: nat :: Overlooked(rules, w, e)
  }

  lemma NamedIffNaming(rules: seq<PolicyRule>, topic: string)
    ensures IsNamed(rules, topic) <==> Naming(rules, topic) != {}
  {
    if i: nat :| i < |rules| && Names(rules[i], topic) {
      assert i in Naming(rules, topic);
    }
  }

  /** Being overlooked, a property of the rules, is what changes the lookup's answer. */
  lemma OverlookedChanges(rules: seq<PolicyRule>, w: nat, e: Envelope, m: Match)
    requires BestAmong(rules, Naming(rules, e.topic), e, m)
    ensures Overlooked(rules, w, e) <==> WouldChange(rules, w, e, m)
  {
    assert forall i: nat :: NamedHit(rules, i, e) <==> i in Naming(rules, e.topic) && Hits(rules, i, e);
    if m.Matched? && Hits(rules, w, e) && !NamesTopic(rules[w]) {
      assert NamedHit(rules, m.at, e);
      if rules[w].priority == m.priority {
        assert Rival(rules, m.at, w, e);
        if m.tied {
          var other :| other in Naming(rules, e.topic) && other != m.at && Rival(rules, other, w, e);
        }
      }
    }
  }

  /** The index answers as the plain scan does, unless it hides a wildcard rule that would have counted. */
  lemma IndexAgreesWithScanIff(rules: seq<PolicyRule>, e: Envelope)
    ensures FindBest(rules, IndexOf(rules), e) == FullScan(rules, e) <==> !HidesWildcard(rules, e)
  {
    var m, full := FindBest(rules, IndexOf(rules), e), FullScan(rules, e);
    FindBestMeans(rules, e);
    FullScanMeans(rules, e);
    NamedIffNaming(rules, e.topic);
    if Naming(rules, e.topic) == {} {
      BestIsUnique(rules, Everything(rules), e, m, full);
    } else {
      ScanDiffersIff(rules, e, m, full);
      SomeOverlookedIff(rules, e, m);
    }
  }

  lemma SomeOverlookedIff(rules: seq<PolicyRule>, e: Envelope, m: Match)
    requires BestAmong(rules, Naming(rules, e.topic), e, m)
    ensures (exists w: nat :: Overlooked(rules, w, e)) <==> (exists w: nat :: WouldChange(rules, w, e, m))
  {
    forall w: nat ensures Overlooked(rules, w, e) <==> WouldChange(rules, w, e, m) {
      OverlookedChanges(rules, w, e, m);
    }
  }

  lemma ScanDiffersIff(rules: seq<PolicyRule>, e: Envelope, m: Match, full: Match)
    requires BestAmong(rules, Naming(rules, e.topic), e, m) && BestAmong(rules, Everything(rules), e, full)
    ensures m != full <==> exists w: nat :: WouldChange(rules, w, e, m)
  {
    if w: nat :| WouldChange(rules, w, e, m) {
      assert w in Everything(rules);
      assert !BestAmong(rules, Everything(rules), e, m);
    } else {
      NothingHidden(rules, e, m);
      BestIsUnique(rules, Everything(rules), e, m, full);
    }
  }

  lemma NothingHidden(rules: seq<PolicyRule>, e: Envelope, m: Match)
    requires BestAmong(rules, Naming(rules, e.topic), e, m)
    requires forall w: nat :: !WouldChange(rules, w, e, m)
    ensures BestAmong(rules, Everything(rules), e, m)
  {
    forall i | i in Everything(rules) && Hits(rules, i, e) && i !in Naming(rules, e.topic)
      ensures m.Matched? && rules[i].priority <= m.priority
      ensures rules[i].priority == m.priority ==> m.at <= i && m.tied
    {
      assert !WouldChange(rules, i, e, m);
    }
    assert Naming(rules, e.topic) <= Everything(rules);
  }

  /** The easy case a table author can rely on: no wildcard rule matches the envelope. */
  lemma NoWildcardNoDifference(rules: seq<PolicyRule>, e: Envelope)
    requires forall i :: 0 <= i < |rules| && !NamesTopic(rules[i]) ==> !RuleMatches(rules[i], e)
    ensures FindBest(rules, IndexOf(rules), e) == FullScan(rules, e)
  {
    IndexAgreesWithScanIff(rules, e);
  }

  function AnyRule(priority: Uint32, topic: string): PolicyRule {
    PolicyRule(priority, true, Event, true, "", true, "", true, BestEffort, topic, DEFAULT_SLA_POLICY)
  }

  function SampleEnvelope(source: string, topic: string): Envelope {
    Envelope(1, Event, BestEffort, 0, 0, 1000, source, "t", topic, "", "", "")
  }

  /** Agreement does fail: a low-priority rule naming the topic hides a high-priority wildcard. */
  lemma IndexHidesWildcardExample()
    ensures var rules := [AnyRule(1, "a"), AnyRule(2, "*")];
            FindBest(rules, IndexOf(rules), SampleEnvelope("s", "a")) != FullScan(rules, SampleEnvelope("s", "a"))
  {
    var rules, e := [AnyRule(1, "a"), AnyRule(2, "*")], SampleEnvelope("s", "a");
    assert Names(rules[0], "a") && Overlooked(rules, 1, e);
    IndexAgreesWithScanIff(rules, e);
  }

  // ---------------------------------------------------------------------------------------------
  // Three layers

  datatype PolicyTable = PolicyTable(
    defaultPolicy: SlaPolicy,
    templates: seq<PolicyRule>,
    rules: seq<PolicyRule>,
    overrides: seq<PolicyRule>,
    templateIndex: TopicIndex,
    ruleIndex: TopicIndex,
    overrideIndex: TopicIndex)

  function Reindexed(t: PolicyTable): PolicyTable {
    t.(templateIndex := IndexOf(t.templates), ruleIndex := IndexOf(t.rules), overrideIndex := IndexOf(t.overrides))
  }

  predicate IsIndexed(t: PolicyTable) {
    t == Reindexed(t)
  }

  datatype Resolution = Resolution(policy: SlaPolicy, overrideApplied: bool, conflict: bool)

  predicate Outranks(lower: Match, upper: Match) {
    upper.Matched? && lower.Matched? && upper.priority < lower.priority
  }

  predicate IsTied(m: Match) {
    m.Matched? && m.tied
  }

  function PolicyAt(rules: seq<PolicyRule>, m: Match): Option<SlaPolicy> {
    if m.Matched? && m.at < |rules| then Some(rules[m.at].policy) else None
  }

  function Combine(t: PolicyTable, o: Match, r: Match, b: Match): Resolution {
    var policy :=
      if PolicyAt(t.overrides, o).Some? then PolicyAt(t.overrides, o).value
      else if PolicyAt(t.rules, r).Some? then PolicyAt(t.rules, r).value
      else if PolicyAt(t.templates, b).Some? then PolicyAt(t.templates, b).value
      else t.defaultPolicy;
    Resolution(policy, o.Matched?,
               IsTied(o) || IsTied(r) || IsTied(b) || Outranks(r, o) || Outranks(b, o) || Outranks(b, r))
  }

  function ResolveInternal(t: PolicyTable, e: Envelope): Resolution {
    Combine(t, FindBest(t.overrides, t.overrideIndex, e), FindBest(t.rules, t.ruleIndex, e),
            FindBest(t.templates, t.templateIndex, e))
  }

  /** A matching rule a layer would use: earliest of the highest priority among the layer's candidates. */
  ghost predicate Chosen(rules: seq<PolicyRule>, e: Envelope, i: nat) {
    var c := CandidateSet(rules, e.topic);
    && i in c && Hits(rules, i, e)
    && forall j :: j in c && Hits(rules, j, e) ==>
         rules[j].priority < rules[i].priority || (rules[j].priority == rules[i].priority && i <= j)
  }

  /** A layer takes part in a resolution when one of its candidates matches. */
  ghost predicate Applies(rules: seq<PolicyRule>, e: Envelope) {
    exists i :: i in CandidateSet(rules, e.topic) && Hits(rules, i, e)
  }

  lemma ChosenIsFound(rules: seq<PolicyRule>, e: Envelope)
    ensures Applies(rules, e) <==> FindBest(rules, IndexOf(rules), e).Matched?
    ensures forall i: nat :: Chosen(rules, e, i) ==>
              FindBest(rules, IndexOf(rules), e).Matched? && FindBest(rules, IndexOf(rules), e).at == i
  {
    FindBestMeans(rules, e);
  }

  /**
   * Layer precedence, stated on the rules alone: the chosen override wins; without an applicable override the
   * chosen rule; without either the chosen template; otherwise the default.
   */
  lemma ResolvePrecedence(t: PolicyTable, e: Envelope)
    requires IsIndexed(t)
    ensures var res := ResolveInternal(t, e);
            && (res.overrideApplied <==> Applies(t.overrides, e))
            && (forall i: nat :: Chosen(t.overrides, e, i) ==> res.policy == t.overrides[i].policy)
            && (!Applies(t.overrides, e) ==> forall i: nat :: Chosen(t.rules, e, i) ==> res.policy == t.rules[i].policy)
            && (!Applies(t.overrides, e) && !Applies(t.rules, e) ==>
                  forall i: nat :: Chosen(t.templates, e, i) ==> res.policy == t.templates[i].policy)
            && (!Applies(t.overrides, e) && !Applies(t.rules, e) && !Applies(t.templates, e) ==>
                  res.policy == t.defaultPolicy)
  {
    ChosenIsFound(t.overrides, e);
    ChosenIsFound(t.rules, e);
    ChosenIsFound(t.templates, e);
  }

  // ---------------------------------------------------------------------------------------------
  // What a resolution depends on

  datatype PolicyKey = PolicyKey(topic: string, channel: ChannelType, qos: DeliveryQoS)

  function KeyOf(e: Envelope): PolicyKey {
    PolicyKey(e.topic, e.channel, e.qos)
  }

  predicate EndpointFreeRules(rules: seq<PolicyRule>) {
    forall i :: 0 <= i < |rules| ==> rules[i].anySource && rules[i].anyTarget
  }

  /** No rule of any layer tests the source or the target. */
  predicate EndpointFree(t: PolicyTable) {
    EndpointFreeRules(t.templates) && EndpointFreeRules(t.rules) && EndpointFreeRules(t.overrides)
  }

  lemma {:induction false} ScanSeesOnlyKey(rules: seq<PolicyRule>, order: seq<nat>, e: Envelope, f: Envelope)
    requires EndpointFreeRules(rules) && KeyOf(e) == KeyOf(f)
    ensures Scan(rules, order, e) == Scan(rules, order, f)
  {
    if order != [] {
      ScanSeesOnlyKey(rules, order[..|order| - 1], e, f);
    }
  }

  /** Without endpoint tests a resolution is a function of topic, channel and qos, for any index. */
  lemma ResolveSeesOnlyKey(t: PolicyTable, e: Envelope, f: Envelope)
    requires EndpointFree(t) && KeyOf(e) == KeyOf(f)
    ensures ResolveInternal(t, e) == ResolveInternal(t, f)
  {
    ScanSeesOnlyKey(t.overrides, Candidates(t.overrides, t.overrideIndex, e.topic), e, f);
    ScanSeesOnlyKey(t.rules, Candidates(t.rules, t.ruleIndex, e.topic), e, f);
    ScanSeesOnlyKey(t.templates, Candidates(t.templates, t.templateIndex, e.topic), e, f);
  }
}
