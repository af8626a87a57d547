/** Per-key counters (`topic_tx_count_[topic] += 1U`) and their totals. */
module Tallies {
  import opened Types

  function Bump<K(==)>(m: map<K, nat>, k: K): map<K, nat> {
    m[k := (if k in m then m[k] else 0) + 1]
  }

  ghost function Total<K(!new)>(m: map<K, nat>): nat {
    if m == map[] then 0
    else
      var k :| k in m;
      m[k] + Total(m - {k})
  }

  /** The total does not depend on the order in which keys are visited. */
  lemma {:induction false} TotalWithout<K(!new)>(m: map<K, nat>, k: K)
    requires k in m
    ensures Total(m) == m[k] + Total(m - {k})
    decreases |m|
  {
    var first :| first in m && Total(m) == m[first] + Total(m - {first});
    if first != k {
      TotalWithout(m - {first}, k);
      TotalWithout(m - {k}, first);
      assert m - {first} - {k} == m - {k} - {first};
    }
  }

  lemma BumpAddsOne<K(!new)>(m: map<K, nat>, k: K)
    ensures Total(Bump(m, k)) == Total(m) + 1
  {
    TotalWithout(Bump(m, k), k);
    assert Bump(m, k) - {k} == m - {k};
    if k in m {
      TotalWithout(m, k);
    } else {
      assert m - {k} == m;
    }
  }

  // ---------------------------------------------------------------------------------------------
  // The topic, channel and qos counters of one kind of event

  datatype PerKey = PerKey(topic: map<string, nat>, channel: map<ChannelType, nat>, qos: map<DeliveryQoS, nat>)

  const NO_KEYS: PerKey := PerKey(map[], map[], map[])

  function BumpAll(k: PerKey, e: Envelope): PerKey {
    PerKey(Bump(k.topic, e.topic), Bump(k.channel, e.channel), Bump(k.qos, e.qos))
  }

  ghost predicate SameTotals(k: PerKey, n: nat) {
    Total(k.topic) == n && Total(k.channel) == n && Total(k.qos) == n
  }

  lemma TotalsMove(k: PerKey, e: Envelope, n: nat)
    requires SameTotals(k, n)
    ensures SameTotals(BumpAll(k, e), n + 1)
  {
    BumpAddsOne(k.topic, e.topic);
    BumpAddsOne(k.channel, e.channel);
    BumpAddsOne(k.qos, e.qos);
  }

  // ---------------------------------------------------------------------------------------------
  // What each entry counts

  /** Every entry is the number of occurrences of its key, and there are no others. */
  ghost predicate Tallies<K(!new)>(m: map<K, nat>, keys: seq<K>) {
    forall k :: (k in m <==> k in keys) && (k in m ==> m[k] == multiset(keys)[k])
  }

  lemma BumpTallies<K(!new)>(m: map<K, nat>, keys: seq<K>, k: K)
    requires Tallies(m, keys)
    ensures Tallies(Bump(m, k), keys + [k])
  {
    assert k !in keys ==> multiset(keys)[k] == 0;
    assert multiset(keys + [k]) == multiset(keys) + multiset{k};
  }

  function TopicsOf(es: seq<Envelope>): seq<string> {
    if es == [] then [] else TopicsOf(es[..|es| - 1]) + [es[|es| - 1].topic]
  }

  function ChannelsOf(es: seq<Envelope>): seq<ChannelType> {
    if es == [] then [] else ChannelsOf(es[..|es| - 1]) + [es[|es| - 1].channel]
  }

  function QosOf(es: seq<Envelope>): seq<DeliveryQoS> {
    if es == [] then [] else QosOf(es[..|es| - 1]) + [es[|es| - 1].qos]
  }

  /** The three maps count these messages, by topic, by channel and by qos. */
  ghost predicate TalliesAll(k: PerKey, es: seq<Envelope>) {
    Tallies(k.topic, TopicsOf(es)) && Tallies(k.channel, ChannelsOf(es)) && Tallies(k.qos, QosOf(es))
  }

  lemma BumpAllTallies(k: PerKey, es: seq<Envelope>, e: Envelope)
    requires TalliesAll(k, es)
    ensures TalliesAll(BumpAll(k, e), es + [e])
  {
    assert (es + [e])[..|es|] == es;
    BumpTallies(k.topic, TopicsOf(es), e.topic);
    BumpTallies(k.channel, ChannelsOf(es), e.channel);
    BumpTallies(k.qos, QosOf(es), e.qos);
  }
}
