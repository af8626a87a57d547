/** Finitely many envelopes that stand for all: what a policy table can tell apart. */
module PolicySamples {
  import opened Types
  import opened PolicyEngine

  /** All rules of a table, the layers run together. */
  function AllRules(t: PolicyTable): seq<PolicyRule> {
    t.templates + t.rules + t.overrides
  }

  function Sources(rules: seq<PolicyRule>): set<string> {
    set i | 0 <= i < |rules| :: rules[i].source
  }

  function Targets(rules: seq<PolicyRule>): set<string> {
    set i | 0 <= i < |rules| :: rules[i].target
  }

  function Topics(rules: seq<PolicyRule>): set<string> {
    set i | 0 <= i < |rules| :: rules[i].topic
  }

  function Sample(source: string, target: string, topic: string, c: ChannelType, q: DeliveryQoS): Envelope {
    Envelope(1, c, q, 0, 0, 0, source, target, topic, "", "", "")
  }

  /** Every combination of strings the rules mention, or one they do not, with every channel and qos. */
  function Samples(rules: seq<PolicyRule>): set<Envelope> {
    var u := {Unmentioned(rules)};
    set source <- Sources(rules) + u, target <- Targets(rules) + u, topic <- Topics(rules) + u,
        c: ChannelType, q: DeliveryQoS :: Sample(source, target, topic, c, q)
  }

  function Known(s: string, mentioned: set<string>, unmentioned: string): string {
    if s in mentioned then s else unmentioned
  }

  /** The sample that stands for an envelope. */
  function Simplified(rules: seq<PolicyRule>, e: Envelope): Envelope {
    var u := Unmentioned(rules);
    Sample(Known(e.source, Sources(rules), u), Known(e.target, Targets(rules), u), Known(e.topic, Topics(rules), u),
           e.channel, e.qos)
  }

  lemma SimplifiedIsSample(rules: seq<PolicyRule>, e: Envelope)
    ensures Simplified(rules, e) in Samples(rules)
  {
  }

  lemma SimplifiedMatches(rules: seq<PolicyRule>, i: nat, e: Envelope)
    requires i < |rules|
    ensures RuleMatches(rules[i], Simplified(rules, e)) <==> RuleMatches(rules[i], e)
    ensures Names(rules[i], Simplified(rules, e).topic) <==> Names(rules[i], e.topic)
  {
    var r, u := rules[i], Unmentioned(rules);
    assert r.source in Sources(rules) && r.target in Targets(rules) && r.topic in Topics(rules);
    assert |r.topic| < |u| && |r.source| < |u| && |r.target| < |u|;
  }

  /** A layer cannot tell the two envelopes apart. */
  ghost predicate StandsFor(rules: seq<PolicyRule>, f: Envelope, e: Envelope) {
    forall i :: 0 <= i < |rules| ==>
      && (RuleMatches(rules[i], f) <==> RuleMatches(rules[i], e))
      && (Names(rules[i], f.topic) <==> Names(rules[i], e.topic))
  }

  lemma FindBestAlike(rules: seq<PolicyRule>, f: Envelope, e: Envelope)
    requires StandsFor(rules, f, e)
    ensures FindBest(rules, IndexOf(rules), f) == FindBest(rules, IndexOf(rules), e)
  {
    FindBestMeans(rules, f);
    FindBestMeans(rules, e);
    assert Naming(rules, f.topic) == Naming(rules, e.topic);
    var candidates := CandidateSet(rules, e.topic);
    assert forall i: nat :: Hits(rules, i, f) <==> Hits(rules, i, e);
    BestIsUnique(rules, candidates, e, FindBest(rules, IndexOf(rules), f), FindBest(rules, IndexOf(rules), e));
  }

  lemma SimplifiedStandsFor(all: seq<PolicyRule>, before: nat, rules: seq<PolicyRule>, e: Envelope)
    requires before + |rules| <= |all| && all[before..before + |rules|] == rules
    ensures StandsFor(rules, Simplified(all, e), e)
  {
    forall i | 0 <= i < |rules|
      ensures RuleMatches(rules[i], Simplified(all, e)) <==> RuleMatches(rules[i], e)
      ensures Names(rules[i], Simplified(all, e).topic) <==> Names(rules[i], e.topic)
    {
      assert rules[i] == all[before + i];
      SimplifiedMatches(all, before + i, e);
    }
  }

  /** A table resolves every envelope as it resolves the sample that stands for it. */
  lemma SimplifiedResolvesAlike(t: PolicyTable, e: Envelope)
    requires IsIndexed(t)
    ensures ResolveInternal(t, Simplified(AllRules(t), e)) == ResolveInternal(t, e)
  {
    var all, a, b := AllRules(t), |t.templates|, |t.templates + t.rules|;
    SimplifiedStandsFor(all, 0, t.templates, e);
    SimplifiedStandsFor(all, a, t.rules, e);
    SimplifiedStandsFor(all, b, t.overrides, e);
    FindBestAlike(t.templates, Simplified(all, e), e);
    FindBestAlike(t.rules, Simplified(all, e), e);
    FindBestAlike(t.overrides, Simplified(all, e), e);
  }

  // ---------------------------------------------------------------------------------------------
  // Tables that look at the key alone

  /** The table never tells two envelopes of the same topic, channel and qos apart. */
  ghost predicate KeyDetermined(t: PolicyTable) {
    forall e, f :: KeyOf(e) == KeyOf(f) ==> ResolveInternal(t, e) == ResolveInternal(t, f)
  }

  /** The same for the table's samples only, which a program can go through. */
  predicate KeyDeterminedOnSamples(t: PolicyTable) {
    var samples := Samples(AllRules(t));
    forall e, f :: e in samples && f in samples && KeyOf(e) == KeyOf(f) ==>
      ResolveInternal(t, e) == ResolveInternal(t, f)
  }

  /** The samples decide it. */
  lemma SamplesDecide(t: PolicyTable)
    requires IsIndexed(t)
    ensures KeyDetermined(t) <==> KeyDeterminedOnSamples(t)
  {
    if KeyDeterminedOnSamples(t) {
      var all := AllRules(t);
      forall e, f | KeyOf(e) == KeyOf(f) ensures ResolveInternal(t, e) == ResolveInternal(t, f) {
        SimplifiedIsSample(all, e);
        SimplifiedIsSample(all, f);
        SimplifiedResolvesAlike(t, e);
        SimplifiedResolvesAlike(t, f);
        assert KeyOf(Simplified(all, e)) == KeyOf(Simplified(all, f));
      }
    }
  }

  /** A condition that can be read off the rules: none tests source or target. It is sufficient. */
  lemma EndpointFreeIsDetermined(t: PolicyTable)
    requires EndpointFree(t)
    ensures KeyDetermined(t)
  {
    forall e, f | KeyOf(e) == KeyOf(f) ensures ResolveInternal(t, e) == ResolveInternal(t, f) {
      ResolveSeesOnlyKey(t, e, f);
    }
  }
}
