/** The policy linter's conflict report, and what a clean report guarantees. */
module PolicyLint {
  import opened Types
  import opened PolicyEngine

  /** Rule against rule: `RuleMatches(left, right)`. */
  predicate RulesOverlap(l: PolicyRule, r: PolicyRule) {
    && (l.anyChannel || r.anyChannel || l.channel == r.channel)
    && (l.anySource || r.anySource || l.source == r.source)
    && (l.anyTarget || r.anyTarget || l.target == r.target)
    && (l.anyQos || r.anyQos || l.qos == r.qos)
    && (NamesTopic(l) && NamesTopic(r) ==> l.topic == r.topic)
  }

  /** An envelope built from whatever either rule insists on. */
  function CommonEnvelope(l: PolicyRule, r: PolicyRule): Envelope {
    Envelope(1, if l.anyChannel then r.channel else l.channel, if l.anyQos then r.qos else l.qos, 0, 0, 0,
             if l.anySource then r.source else l.source, if l.anyTarget then r.target else l.target,
             if NamesTopic(l) then l.topic else r.topic, "", "", "")
  }

  /** Two rules overlap exactly when some envelope matches both. */
  lemma OverlapIffCommonEnvelope(l: PolicyRule, r: PolicyRule)
    ensures RulesOverlap(l, r) <==> exists e :: RuleMatches(l, e) && RuleMatches(r, e)
  {
    if RulesOverlap(l, r) {
      var e := CommonEnvelope(l, r);
      assert RuleMatches(l, e) && RuleMatches(r, e);
    }
  }

  predicate Conflicting(rules: seq<PolicyRule>, i: nat, j: nat) {
    i < j < |rules| && rules[i].priority == rules[j].priority && RulesOverlap(rules[i], rules[j])
  }

  /** One layer of `CollectPolicyConflicts`: every conflicting pair, each once. */
  method CollectConflicts(rules: seq<PolicyRule>) returns (pairs: seq<(nat, nat)>)
    ensures forall i: nat, j: nat :: (i, j) in pairs <==> Conflicting(rules, i, j)
    ensures forall p, q :: 0 <= p < q < |pairs| ==> pairs[p] != pairs[q]
  {
    pairs := [];
    for i := 0 to |rules|
      invariant forall a: nat, b: nat :: (a, b) in pairs <==> a < i && Conflicting(rules, a, b)
      invariant forall p, q :: 0 <= p < q < |pairs| ==> pairs[p] != pairs[q]
    {
      for j := i + 1 to |rules|
        invariant forall a: nat, b: nat :: (a, b) in pairs <==>
                    (a < i || (a == i && b < j)) && Conflicting(rules, a, b)
        invariant forall p, q :: 0 <= p < q < |pairs| ==> pairs[p] != pairs[q]
      {
        if rules[i].priority == rules[j].priority && RulesOverlap(rules[i], rules[j]) {
          assert (i, j) !in pairs;
          pairs := pairs + [(i, j)];
        }
      }
    }
  }

  // ---------------------------------------------------------------------------------------------
  // Which reported pairs can meet in a lookup

  /** A lookup for this envelope looks at both rules, and both match. */
  ghost predicate MeetAt(rules: seq<PolicyRule>, i: nat, j: nat, e: Envelope) {
    i in CandidateSet(rules, e.topic) && j in CandidateSet(rules, e.topic) && Hits(rules, i, e) && Hits(rules, j, e)
  }

  /**
   * A reported pair can meet in a lookup exactly when both rules name a topic or neither does: wherever a rule that
   * names the topic matches, the index hides the wildcards.
   */
  lemma ReportedPairMeetsIff(rules: seq<PolicyRule>, i: nat, j: nat)
    requires Conflicting(rules, i, j)
    ensures (exists e :: MeetAt(rules, i, j, e)) <==> (NamesTopic(rules[i]) <==> NamesTopic(rules[j]))
  {
    var l, r := rules[i], rules[j];
    if NamesTopic(l) && NamesTopic(r) {
      var e := CommonEnvelope(l, r);
      assert i in Naming(rules, e.topic) && j in Naming(rules, e.topic);
      assert MeetAt(rules, i, j, e);
    } else if !NamesTopic(l) && !NamesTopic(r) {
      NobodyNames(rules);
      var e := CommonEnvelope(l, r).(topic := Unmentioned(rules));
      assert MeetAt(rules, i, j, e);
    } else {
      forall e | Hits(rules, i, e) && Hits(rules, j, e) ensures !MeetAt(rules, i, j, e) {
        assert (if NamesTopic(l) then i else j) in Naming(rules, e.topic);
      }
    }
  }

  // ---------------------------------------------------------------------------------------------
  // Which of them raise the flag

  /** No rule the lookup looks at and that matches outranks this one. */
  ghost predicate OnTop(rules: seq<PolicyRule>, i: nat, e: Envelope)
    requires i < |rules|
  {
    forall k :: k in CandidateSet(rules, e.topic) && Hits(rules, k, e) ==> rules[k].priority <= rules[i].priority
  }

  /** A reported pair that meets in this lookup with nothing above it. */
  ghost predicate TopPair(rules: seq<PolicyRule>, i: nat, j: nat, e: Envelope) {
    Conflicting(rules, i, j) && MeetAt(rules, i, j, e) && OnTop(rules, i, e)
  }

  /** This lookup raises the resolver's conflict flag. */
  predicate Flagged(rules: seq<PolicyRule>, e: Envelope) {
    IsTied(FindBest(rules, IndexOf(rules), e))
  }

  lemma TieHasTopPair(rules: seq<PolicyRule>, e: Envelope)
    requires Flagged(rules, e)
    ensures exists i: nat, j: nat :: TopPair(rules, i, j, e)
  {
    var m := FindBest(rules, IndexOf(rules), e);
    FindBestMeans(rules, e);
    var j :| j in CandidateSet(rules, e.topic) && j != m.at && Hits(rules, j, e) && rules[j].priority == m.priority;
    OverlapIffCommonEnvelope(rules[m.at], rules[j]);
    assert TopPair(rules, m.at, j, e);
  }

  lemma TopPairTies(rules: seq<PolicyRule>, i: nat, j: nat, e: Envelope)
    requires TopPair(rules, i, j, e)
    ensures Flagged(rules, e)
  {
    FindBestMeans(rules, e);
  }

  /** The resolver's conflict flag, lookup by lookup: raised exactly for a reported pair on top. */
  lemma TieIffTopPair(rules: seq<PolicyRule>, e: Envelope)
    ensures Flagged(rules, e) <==> exists i: nat, j: nat :: TopPair(rules, i, j, e)
  {
    if Flagged(rules, e) {
      TieHasTopPair(rules, e);
    }
    if i: nat, j: nat :| TopPair(rules, i, j, e) {
      TopPairTies(rules, i, j, e);
    }
  }

  /**
   * The envelope of this channel and qos that matches the pair and as few other rules as possible: where neither
   * rule insists on a string, one that no rule mentions.
   */
  function Evasive(rules: seq<PolicyRule>, i: nat, j: nat, c: ChannelType, q: DeliveryQoS): Envelope
    requires i < |rules| && j < |rules|
  {
    var l, r, u := rules[i], rules[j], Unmentioned(rules);
    Envelope(1, c, q, 0, 0, 0,
             if !l.anySource then l.source else if !r.anySource then r.source else u,
             if !l.anyTarget then l.target else if !r.anyTarget then r.target else u,
             if NamesTopic(l) then l.topic else if NamesTopic(r) then r.topic else u, "", "", "")
  }

  /** Whatever matches the evasive envelope matches every envelope of its channel and qos in which the pair meets. */
  lemma EvasiveMatchesLess(rules: seq<PolicyRule>, i: nat, j: nat, e: Envelope, k: nat)
    requires Hits(rules, i, e) && Hits(rules, j, e) && Hits(rules, k, Evasive(rules, i, j, e.channel, e.qos))
    ensures Hits(rules, k, e)
  {
    var u := Unmentioned(rules);
    assert |rules[k].topic| < |u| && |rules[k].source| < |u| && |rules[k].target| < |u|;
  }

  lemma EvasiveKeepsCandidates(rules: seq<PolicyRule>, i: nat, j: nat, e: Envelope)
    requires i < |rules| && j < |rules| && MeetAt(rules, i, j, e)
    ensures CandidateSet(rules, Evasive(rules, i, j, e.channel, e.qos).topic) == CandidateSet(rules, e.topic)
  {
    if !NamesTopic(rules[i]) && !NamesTopic(rules[j]) {
      NobodyNames(rules);
      assert i !in Naming(rules, e.topic);
    }
  }

  lemma EvasiveTopPair(rules: seq<PolicyRule>, i: nat, j: nat, e: Envelope)
    requires TopPair(rules, i, j, e)
    ensures TopPair(rules, i, j, Evasive(rules, i, j, e.channel, e.qos))
  {
    var f := Evasive(rules, i, j, e.channel, e.qos);
    EvasiveKeepsCandidates(rules, i, j, e);
    forall k | k in CandidateSet(rules, f.topic) && Hits(rules, k, f) ensures rules[k].priority <= rules[i].priority {
      EvasiveMatchesLess(rules, i, j, e, k);
    }
  }

  /** One of the pair's six evasive lookups, one for each channel and qos, has it on top. */
  ghost predicate RealPair(rules: seq<PolicyRule>, i: nat, j: nat) {
    i < j < |rules| && exists c, q :: TopPair(rules, i, j, Evasive(rules, i, j, c, q))
  }

  /** Exactly the real pairs can ever be on top of a lookup; every other reported pair is a false alarm. */
  lemma ReportedPairTiesIff(rules: seq<PolicyRule>, i: nat, j: nat)
    ensures (exists e :: TopPair(rules, i, j, e)) <==> RealPair(rules, i, j)
  {
    if e :| TopPair(rules, i, j, e) {
      EvasiveTopPair(rules, i, j, e);
    }
  }

  lemma FlagShowsRealPair(rules: seq<PolicyRule>, e: Envelope)
    requires Flagged(rules, e)
    ensures exists i: nat, j: nat :: RealPair(rules, i, j)
  {
    TieHasTopPair(rules, e);
    var i: nat, j: nat :| TopPair(rules, i, j, e);
    ReportedPairTiesIff(rules, i, j);
  }

  lemma RealPairIsFlagged(rules: seq<PolicyRule>, i: nat, j: nat)
    requires RealPair(rules, i, j)
    ensures exists e :: Flagged(rules, e)
  {
    var c, q :| TopPair(rules, i, j, Evasive(rules, i, j, c, q));
    TopPairTies(rules, i, j, Evasive(rules, i, j, c, q));
  }

  /** ... and so for a whole layer: finitely many lookups decide whether any lookup can ever be flagged. */
  lemma {:induction false} LayerTiesIff(rules: seq<PolicyRule>)
    ensures (exists e :: Flagged(rules, e)) <==> (exists i: nat, j: nat :: RealPair(rules, i, j))
  {
    if e :| Flagged(rules, e) {
      FlagShowsRealPair(rules, e);
    }
    if i: nat, j: nat :| RealPair(rules, i, j) {
      RealPairIsFlagged(rules, i, j);
    }
  }

  /** A layer without a reported pair never raises the resolver's conflict flag, whatever is looked up. */
  lemma CleanLayerNeverTies(rules: seq<PolicyRule>, e: Envelope)
    requires forall i: nat, j: nat :: !Conflicting(rules, i, j)
    ensures !Flagged(rules, e)
  {
    TieIffTopPair(rules, e);
  }

  /** Even a layer whose every reported pair mixes a named and a wildcard rule never raises the flag. */
  lemma MixedPairsNeverTie(rules: seq<PolicyRule>, e: Envelope)
    requires forall i: nat, j: nat :: Conflicting(rules, i, j) ==> NamesTopic(rules[i]) != NamesTopic(rules[j])
    ensures !Flagged(rules, e)
  {
    TieIffTopPair(rules, e);
    if i: nat, j: nat :| TopPair(rules, i, j, e) {
      ReportedPairMeetsIff(rules, i, j);
    }
  }

  /** A false alarm because the rules never meet: the pair is reported, yet no lookup is ever flagged. */
  lemma ReportedPairMayNeverTie(e: Envelope)
    ensures var rules := [AnyRule(1, "a"), AnyRule(1, "*")];
            Conflicting(rules, 0, 1) && !Flagged(rules, e)
  {
    MixedPairsNeverTie([AnyRule(1, "a"), AnyRule(1, "*")], e);
  }

  /** A false alarm because a third rule outranks them: this pair meets in every lookup and is never flagged. */
  lemma ShadowedPairNeverTies(e: Envelope)
    ensures var rules := [AnyRule(1, "*"), AnyRule(1, "*"), AnyRule(2, "*")];
            && Conflicting(rules, 0, 1) && MeetAt(rules, 0, 1, e)
            && !Flagged(rules, e)
  {
    var rules := [AnyRule(1, "*"), AnyRule(1, "*"), AnyRule(2, "*")];
    assert Naming(rules, e.topic) == {};
    assert 0 in Everything(rules) && 1 in Everything(rules) && 2 in Everything(rules);
    assert Hits(rules, 2, e);
    TieIffTopPair(rules, e);
  }

  // ---------------------------------------------------------------------------------------------
  // The flag of a whole resolution

  lemma FoundIsChosen(rules: seq<PolicyRule>, e: Envelope)
    ensures var m := FindBest(rules, IndexOf(rules), e);
            m.Matched? ==> Chosen(rules, e, m.at) && rules[m.at].priority == m.priority
  {
    FindBestMeans(rules, e);
  }

  ghost predicate HasTopPair(rules: seq<PolicyRule>, e: Envelope) {
    exists i: nat, j: nat :: TopPair(rules, i, j, e)
  }

  /** The rule the lower layer would use has a higher priority than the one the upper layer uses. */
  ghost predicate Overruled(upper: seq<PolicyRule>, lower: seq<PolicyRule>, e: Envelope) {
    exists i: nat, j: nat :: Chosen(upper, e, i) && Chosen(lower, e, j) && upper[i].priority < lower[j].priority
  }

  lemma OverruledIffFound(upper: seq<PolicyRule>, lower: seq<PolicyRule>, e: Envelope)
    ensures var m, n := FindBest(upper, IndexOf(upper), e), FindBest(lower, IndexOf(lower), e);
            Overruled(upper, lower, e) <==> m.Matched? && n.Matched? && m.priority < n.priority
  {
    ChosenIsFound(upper, e);
    ChosenIsFound(lower, e);
    FoundIsChosen(upper, e);
    FoundIsChosen(lower, e);
  }

  /**
   * When a resolution reports a conflict, stated on the rules alone: some layer has two candidates on top, or the
   * rule one layer uses has a lower priority than the rule a layer below it would use.
   */
  lemma ConflictIff(t: PolicyTable, e: Envelope)
    requires IsIndexed(t)
    ensures ResolveInternal(t, e).conflict <==>
            || HasTopPair(t.overrides, e) || HasTopPair(t.rules, e) || HasTopPair(t.templates, e)
            || Overruled(t.overrides, t.rules, e) || Overruled(t.overrides, t.templates, e)
            || Overruled(t.rules, t.templates, e)
  {
    TieIffTopPair(t.overrides, e);
    TieIffTopPair(t.rules, e);
    TieIffTopPair(t.templates, e);
    OverruledIffFound(t.overrides, t.rules, e);
    OverruledIffFound(t.overrides, t.templates, e);
    OverruledIffFound(t.rules, t.templates, e);
  }
}
