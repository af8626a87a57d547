/** The bounded least-recently-used cache in front of policy resolution. */
module PolicyCache {
  import opened Types
  import opened PolicyEngine
  import opened Recency

  const MAX_ENTRIES: nat := 256

  datatype Item = Item(key: PolicyKey, entry: Resolution)

  // ---------------------------------------------------------------------------------------------
  // The cache as a value: a list of items, most recently used first

  function Keys(items: seq<Item>): seq<PolicyKey> {
    if items == [] then [] else [items[0].key] + Keys(items[1..])
  }

  function WithoutKey(items: seq<Item>, key: PolicyKey): seq<Item> {
    if items == [] then []
    else (if items[0].key == key then [] else [items[0]]) + WithoutKey(items[1..], key)
  }

  function Find(items: seq<Item>, key: PolicyKey): Option<Resolution> {
    if items == [] then None
    else if items[0].key == key then Some(items[0].entry)
    else Find(items[1..], key)
  }

  /** Put an item at the front, dropping an older item of the same key and whatever no longer fits. */
  function Use(items: seq<Item>, key: PolicyKey, entry: Resolution): seq<Item> {
    Take([Item(key, entry)] + WithoutKey(items, key), MAX_ENTRIES)
  }

  datatype ResolverCounts = ResolverCounts(
    cacheHits: nat,
    cacheMisses: nat,
    policyHits: nat,
    overrides: nat,
    conflicts: nat)

  const NOTHING_RESOLVED: ResolverCounts := ResolverCounts(0, 0, 0, 0, 0)

  datatype Resolver = Resolver(table: PolicyTable, items: seq<Item>, counts: ResolverCounts)

  function FreshResolver(t: PolicyTable): Resolver {
    Resolver(Reindexed(t), [], NOTHING_RESOLVED)
  }

  function Counted(c: ResolverCounts, r: Resolution, hit: bool): ResolverCounts {
    ResolverCounts(c.cacheHits + One(hit), c.cacheMisses + One(!hit), c.policyHits + 1,
                   c.overrides + One(r.overrideApplied), c.conflicts + One(r.conflict))
  }

  /** The answer of one `ResolvePolicy` call. */
  function Answer(s: Resolver, e: Envelope): Resolution {
    var cached := Find(s.items, KeyOf(e));
    if cached.Some? then cached.value else ResolveInternal(s.table, e)
  }

  function AfterResolve(s: Resolver, e: Envelope): Resolver {
    var r := Answer(s, e);
    s.(items := Use(s.items, KeyOf(e), r), counts := Counted(s.counts, r, Find(s.items, KeyOf(e)).Some?))
  }

  /** `RebuildPolicyIndex` after a new table was put in place: fresh indexes, empty cache. */
  function AfterRebuild(s: Resolver, t: PolicyTable): Resolver {
    s.(table := Reindexed(t), items := [])
  }

  // ---------------------------------------------------------------------------------------------
  // The cache as the source keeps it: list nodes with stable identities and a key index

  datatype LruList = LruList(order: seq<nat>, nodes: map<nat, Item>, index: map<PolicyKey, nat>, nextId: nat)

  /** The list visits every node once. */
  ghost predicate Listed(order: seq<nat>, nodes: map<nat, Item>) {
    Distinct(order) && forall id :: id in nodes <==> id in order
  }

  /** The index maps each cached key to the list node that holds it, and knows no other key. */
  ghost predicate Mapped(nodes: map<nat, Item>, index: map<PolicyKey, nat>, nextId: nat) {
    && (forall id :: id in nodes ==> id < nextId && nodes[id].key in index && index[nodes[id].key] == id)
    && (forall k :: k in index ==> index[k] in nodes && nodes[index[k]].key == k)
  }

  ghost predicate Coherent(l: LruList) {
    Listed(l.order, l.nodes) && Mapped(l.nodes, l.index, l.nextId)
  }

  function ItemsAt(order: seq<nat>, nodes: map<nat, Item>): (r: seq<Item>)
    requires forall id :: id in order ==> id in nodes
    ensures |r| == |order|
  {
    if order == [] then [] else [nodes[order[0]]] + ItemsAt(order[1..], nodes)
  }

  lemma {:induction false} ItemAt(order: seq<nat>, nodes: map<nat, Item>)
    requires forall id :: id in order ==> id in nodes
    ensures forall i :: 0 <= i < |order| ==> ItemsAt(order, nodes)[i] == nodes[order[i]]
  {
    if order != [] {
      ItemAt(order[1..], nodes);
    }
  }

  ghost function Items(l: LruList): seq<Item>
    requires Coherent(l)
  {
    ItemsAt(l.order, l.nodes)
  }

  lemma {:induction false} ItemsWithout(order: seq<nat>, nodes: map<nat, Item>, id: nat)
    requires forall n :: n in order ==> n in nodes
    requires id in nodes && forall n :: n in order && nodes[n].key == nodes[id].key ==> n == id
    ensures forall n :: n in Without(order, id) ==> n in nodes
    ensures ItemsAt(Without(order, id), nodes) == WithoutKey(ItemsAt(order, nodes), nodes[id].key)
  {
    WithoutMembers(order, id);
    if order != [] {
      var n, rest := order[0], order[1..];
      assert order == [n] + rest;
      ItemsWithout(rest, nodes, id);
      var items := ItemsAt(order, nodes);
      assert items[0] == nodes[n] && items[1..] == ItemsAt(rest, nodes);
      if n == id {
        assert Without(order, id) == Without(rest, id);
      } else {
        var kept := Without(order, id);
        assert kept == [n] + Without(rest, id) && kept[1..] == Without(rest, id);
        assert nodes[n].key != nodes[id].key;
      }
    }
  }

  lemma {:induction false} ItemsConcat(a: seq<nat>, b: seq<nat>, nodes: map<nat, Item>)
    requires forall id :: id in a + b ==> id in nodes
    ensures forall id :: id in a || id in b ==> id in nodes
    ensures ItemsAt(a + b, nodes) == ItemsAt(a, nodes) + ItemsAt(b, nodes)
  {
    assert forall id :: id in a || id in b ==> id in a + b;
    if a == [] {
      assert a + b == b;
    } else {
      assert (a + b)[1..] == a[1..] + b;
      ItemsConcat(a[1..], b, nodes);
    }
  }

  lemma {:induction false} ItemsUntouched(order: seq<nat>, nodes: map<nat, Item>, id: nat, item: Item)
    requires id !in order && forall n :: n in order ==> n in nodes
    ensures ItemsAt(order, nodes[id := item]) == ItemsAt(order, nodes)
  {
    if order != [] {
      ItemsUntouched(order[1..], nodes, id, item);
    }
  }

  lemma {:induction false} WithoutKeyAbsent(items: seq<Item>, key: PolicyKey)
    requires forall i :: 0 <= i < |items| ==> items[i].key != key
    ensures WithoutKey(items, key) == items
  {
    if items != [] {
      WithoutKeyAbsent(items[1..], key);
    }
  }

  lemma {:induction false} FindAt(items: seq<Item>, i: nat)
    requires i < |items| && forall j :: 0 <= j < i ==> items[j].key != items[i].key
    ensures Find(items, items[i].key) == Some(items[i].entry)
  {
    if i > 0 {
      FindAt(items[1..], i - 1);
    }
  }

  lemma {:induction false} FindAbsent(items: seq<Item>, key: PolicyKey)
    requires forall i :: 0 <= i < |items| ==> items[i].key != key
    ensures Find(items, key) == None
  {
    if items != [] {
      FindAbsent(items[1..], key);
    }
  }

  lemma ListedKey(l: LruList, i: nat)
    requires Coherent(l) && i < |l.order|
    ensures var k := Items(l)[i].key; k in l.index && l.index[k] == l.order[i]
  {
    ItemAt(l.order, l.nodes);
    assert l.order[i] in l.nodes;
  }

  lemma IndexMisses(l: LruList, key: PolicyKey)
    requires Coherent(l) && key !in l.index
    ensures Find(Items(l), key) == None && WithoutKey(Items(l), key) == Items(l)
  {
    var items := Items(l);
    forall i | 0 <= i < |items| ensures items[i].key != key {
      ListedKey(l, i);
    }
    FindAbsent(items, key);
    WithoutKeyAbsent(items, key);
  }

  lemma IndexHits(l: LruList, key: PolicyKey)
    requires Coherent(l) && key in l.index
    ensures Find(Items(l), key) == Some(l.nodes[l.index[key]].entry)
  {
    var items, id := Items(l), l.index[key];
    assert id in l.order;
    var i :| 0 <= i < |l.order| && l.order[i] == id;
    ItemAt(l.order, l.nodes);
    forall j | 0 <= j < i ensures items[j].key != key {
      ListedKey(l, j);
    }
    FindAt(items, i);
  }

  /** `splice` to the front: no node is created or moved in memory, only relinked. */
  function ToFront(l: LruList, id: nat): LruList {
    l.(order := [id] + Without(l.order, id))
  }

  lemma ToFrontMeans(l: LruList, key: PolicyKey)
    requires Coherent(l) && key in l.index
    ensures var id := l.index[key]; var l' := ToFront(l, id);
            Coherent(l') && Items(l') == [l.nodes[id]] + WithoutKey(Items(l), key) && |l'.order| == |l.order|
  {
    var id := l.index[key];
    var rest := Without(l.order, id);
    WithoutMembers(l.order, id);
    WithoutDistinct(l.order, id);
    WithoutOne(l.order, id);
    ItemsWithout(l.order, l.nodes, id);
    PrependListed(id, rest, l.nodes);
  }

  lemma PrependListed(id: nat, rest: seq<nat>, nodes: map<nat, Item>)
    requires Distinct(rest) && id !in rest
    requires forall n :: n in nodes <==> n == id || n in rest
    ensures Listed([id] + rest, nodes)
    ensures ItemsAt([id] + rest, nodes) == [nodes[id]] + ItemsAt(rest, nodes)
  {
    var order := [id] + rest;
    assert order[1..] == rest;
    assert forall n :: n in order <==> n == id || n in rest;
    forall i, j | 0 <= i < j < |order| ensures order[i] != order[j] {
      assert order[j] == rest[j - 1] && rest[j - 1] in rest;
      assert i > 0 ==> order[i] == rest[i - 1];
    }
  }

  function SetEntry(l: LruList, id: nat, item: Item): LruList {
    l.(nodes := l.nodes[id := item])
  }

  lemma SetFrontMeans(l: LruList, entry: Resolution)
    requires Coherent(l) && l.order != []
    ensures var item := Item(l.nodes[l.order[0]].key, entry);
            var l' := SetEntry(l, l.order[0], item);
            Coherent(l') && Items(l') == [item] + Items(l)[1..]
  {
    var id := l.order[0];
    assert forall j :: 0 < j < |l.order| ==> l.order[j] != id;
    ItemsUntouched(l.order[1..], l.nodes, id, Item(l.nodes[id].key, entry));
  }

  function Pushed(l: LruList, item: Item): LruList {
    LruList([l.nextId] + l.order, l.nodes[l.nextId := item], l.index[item.key := l.nextId], l.nextId + 1)
  }

  lemma MapOneMore(nodes: map<nat, Item>, index: map<PolicyKey, nat>, id: nat, item: Item)
    requires Mapped(nodes, index, id) && item.key !in index
    ensures Mapped(nodes[id := item], index[item.key := id], id + 1)
  {
    var nodes', index' := nodes[id := item], index[item.key := id];
    forall n | n in nodes' ensures n < id + 1 && nodes'[n].key in index' && index'[nodes'[n].key] == n {
      assert n != id ==> nodes'[n] == nodes[n] && nodes[n].key != item.key;
    }
    forall k | k in index' ensures index'[k] in nodes' && nodes'[index'[k]].key == k {
      assert k != item.key ==> index'[k] == index[k] && index[k] in nodes && index[k] != id;
    }
  }

  lemma PushedMeans(l: LruList, item: Item)
    requires Coherent(l) && item.key !in l.index
    ensures Coherent(Pushed(l, item)) && Items(Pushed(l, item)) == [item] + Items(l)
  {
    assert l.nextId !in l.nodes;
    MapOneMore(l.nodes, l.index, l.nextId, item);
    ItemsUntouched(l.order, l.nodes, l.nextId, item);
    PrependListed(l.nextId, l.order, l.nodes[l.nextId := item]);
  }

  function Popped(l: LruList): LruList
    requires l.order != [] && l.order[|l.order| - 1] in l.nodes
  {
    var n := |l.order| - 1;
    var last := l.order[n];
    LruList(l.order[..n], l.nodes - {last}, l.index - {l.nodes[last].key}, l.nextId)
  }

  lemma MapOneLess(nodes: map<nat, Item>, index: map<PolicyKey, nat>, nextId: nat, id: nat)
    requires Mapped(nodes, index, nextId) && id in nodes
    ensures Mapped(nodes - {id}, index - {nodes[id].key}, nextId)
  {
    var nodes', index' := nodes - {id}, index - {nodes[id].key};
    forall n | n in nodes' ensures n < nextId && nodes'[n].key in index' && index'[nodes'[n].key] == n {
      assert n in nodes && n != id;
      assert nodes[n].key != nodes[id].key;
    }
    forall k | k in index' ensures index'[k] in nodes' && nodes'[index'[k]].key == k {
      assert k in index && index[k] in nodes && nodes[index[k]].key == k;
    }
  }

  lemma {:induction false} ItemsShrunk(order: seq<nat>, nodes: map<nat, Item>, id: nat)
    requires id !in order && forall n :: n in order ==> n in nodes
    ensures ItemsAt(order, nodes - {id}) == ItemsAt(order, nodes)
  {
    if order != [] {
      ItemsShrunk(order[1..], nodes, id);
    }
  }

  lemma UnlistLast(order: seq<nat>, nodes: map<nat, Item>)
    requires Listed(order, nodes) && order != []
    ensures var n := |order| - 1;
            Listed(order[..n], nodes - {order[n]}) && order[n] !in order[..n]
  {
    var n := |order| - 1;
    assert order == order[..n] + [order[n]];
  }

  lemma PoppedMeans(l: LruList)
    requires Coherent(l) && l.order != []
    ensures Coherent(Popped(l)) && Items(Popped(l)) == Items(l)[..|l.order| - 1]
  {
    var n := |l.order| - 1;
    var rest, last := l.order[..n], l.order[n];
    assert l.order == rest + [last];
    UnlistLast(l.order, l.nodes);
    MapOneLess(l.nodes, l.index, l.nextId, last);
    ItemsShrunk(rest, l.nodes, last);
    ItemsConcat(rest, [last], l.nodes);
  }

  /** `StorePolicyCache` on the list. */
  function Stored(l: LruList, key: PolicyKey, entry: Resolution): LruList {
    if key in l.index then SetEntry(ToFront(l, l.index[key]), l.index[key], Item(key, entry))
    else
      var pushed := Pushed(l, Item(key, entry));
      var last := pushed.order[|pushed.order| - 1];
      if |pushed.order| > MAX_ENTRIES && last in pushed.nodes then Popped(pushed) else pushed
  }

  lemma StoredMeans(l: LruList, key: PolicyKey, entry: Resolution)
    requires Coherent(l) && |l.order| <= MAX_ENTRIES
    ensures Coherent(Stored(l, key, entry)) && |Stored(l, key, entry).order| <= MAX_ENTRIES
    ensures Items(Stored(l, key, entry)) == Use(Items(l), key, entry)
  {
    if key in l.index {
      ToFrontMeans(l, key);
      SetFrontMeans(ToFront(l, l.index[key]), entry);
    } else {
      NewKeyStored(l, key, entry);
    }
  }

  lemma NewKeyStored(l: LruList, key: PolicyKey, entry: Resolution)
    requires Coherent(l) && |l.order| <= MAX_ENTRIES && key !in l.index
    ensures Coherent(Stored(l, key, entry)) && |Stored(l, key, entry).order| <= MAX_ENTRIES
    ensures Items(Stored(l, key, entry)) == Use(Items(l), key, entry)
  {
    IndexMisses(l, key);
    PushedMeans(l, Item(key, entry));
    if |l.order| == MAX_ENTRIES {
      PoppedMeans(Pushed(l, Item(key, entry)));
    }
  }

  class PolicyResolver {
    var table: PolicyTable
    var cache: LruList
    var cacheHitCount: nat
    var cacheMissCount: nat
    var policyHitCount: nat
    var overrideCount: nat
    var conflictCount: nat

    ghost predicate Valid()
      reads this
    {
      Coherent(cache) && |cache.order| <= MAX_ENTRIES
    }

    ghost function State(): Resolver
      requires Valid()
      reads this
    {
      Resolver(table, Items(cache), CountsNow())
    }

    ghost function CountsNow(): ResolverCounts
      reads `cacheHitCount, `cacheMissCount, `overrideCount, `conflictCount, `policyHitCount
    {
      ResolverCounts(cacheHitCount, cacheMissCount, policyHitCount, overrideCount, conflictCount)
    }

    constructor (t: PolicyTable)
      ensures Valid() && State() == FreshResolver(t)
    {
      table := Reindexed(t);
      cache := LruList([], map[], map[], 0);
      cacheHitCount, cacheMissCount, policyHitCount, overrideCount, conflictCount := 0, 0, 0, 0, 0;
    }

    method LookupPolicyCache(e: Envelope) returns (r: Option<Resolution>)
      requires Valid()
      modifies `cache
      ensures Valid()
      ensures r == Find(old(State()).items, KeyOf(e))
      ensures State() == if r.None? then old(State())
                         else old(State()).(items := Use(old(State()).items, KeyOf(e), r.value))
    {
      var key := KeyOf(e);
      if key !in cache.index {
        IndexMisses(cache, key);
        return None;
      }
      IndexHits(cache, key);
      ToFrontMeans(cache, key);
      var id := cache.index[key];
      r := Some(cache.nodes[id].entry);
      cache := ToFront(cache, id);
    }

    method StorePolicyCache(e: Envelope, r: Resolution)
      requires Valid()
      modifies `cache
      ensures Valid()
      ensures State() == old(State()).(items := Use(old(State()).items, KeyOf(e), r))
    {
      StoredMeans(cache, KeyOf(e), r);
      cache := Stored(cache, KeyOf(e), r);
    }

    method ResolvePolicy(e: Envelope) returns (policy: SlaPolicy)
      requires Valid()
      modifies this
      ensures Valid()
      ensures policy == Answer(old(State()), e).policy
      ensures State() == AfterResolve(old(State()), e)
    {
      var cached := LookupPolicyCache(e);
      if cached.Some? {
        CountResolution(cached.value, true);
        return cached.value.policy;
      }
      var r := ResolveUncached(e);
      StorePolicyCache(e, r);
      CountResolution(r, false);
      return r.policy;
    }

    method CountResolution(r: Resolution, hit: bool)
      modifies `cacheHitCount, `cacheMissCount, `overrideCount, `conflictCount, `policyHitCount
      ensures CountsNow() == Counted(old(CountsNow()), r, hit)
    {
      if hit {
        cacheHitCount := cacheHitCount + 1;
      } else {
        cacheMissCount := cacheMissCount + 1;
      }
      if r.overrideApplied {
        overrideCount := overrideCount + 1;
      }
      if r.conflict {
        conflictCount := conflictCount + 1;
      }
      policyHitCount := policyHitCount + 1;
    }

    method ResolveUncached(e: Envelope) returns (r: Resolution)
      ensures r == ResolveInternal(table, e)
    {
      var o := FindBestPolicyMatch(table.overrides, table.overrideIndex, e);
      var l := FindBestPolicyMatch(table.rules, table.ruleIndex, e);
      var b := FindBestPolicyMatch(table.templates, table.templateIndex, e);
      r := Combine(table, o, l, b);
    }

    method RebuildPolicyIndex(t: PolicyTable)
      requires Valid()
      modifies `table, `cache
      ensures Valid()
      ensures State() == AfterRebuild(old(State()), t)
    {
      var templateIndex := IndexRules(t.templates);
      var ruleIndex := IndexRules(t.rules);
      var overrideIndex := IndexRules(t.overrides);
      table := t.(templateIndex := templateIndex, ruleIndex := ruleIndex, overrideIndex := overrideIndex);
      cache := LruList([], map[], map[], cache.nextId);
    }
  }
}
