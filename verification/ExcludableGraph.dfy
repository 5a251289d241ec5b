/** Combining one shared hierarchy with one contracted core per exclude filter. */
module ExcludableGraph {
  import opened EdgeContainers

  /** Node ids are indices of every filter. */
  ghost predicate InFilters(edges: seq<QueryEdge>, filters: seq<seq<bool>>) {
    forall k, i :: 0 <= k < |edges| && 0 <= i < |filters| ==>
        edges[k].source < |filters[i]| && edges[k].target < |filters[i]|
  }

  /** Some non-core edge with this key has both ends allowed by the filter. */
  ghost predicate AllowedKey(edges: seq<QueryEdge>, filter: seq<bool>, key: Key)
    requires forall k :: 0 <= k < |edges| ==> edges[k].source < |filter| && edges[k].target < |filter|
  {
    exists k :: 0 <= k < |edges| && KeyOf(edges[k]) == key && Allowed(filter, edges[k])
  }

  ghost predicate IsCoreEdge(core: seq<bool>, e: QueryEdge) {
    e.source < |core| && e.target < |core| && core[e.source] && core[e.target]
  }

  /** `rest` holds the edges that do not join two core nodes, each in its place and as often as in `edges`. */
  ghost predicate KeepsNonCore(edges: seq<QueryEdge>, core: seq<bool>, rest: seq<QueryEdge>, at: seq<nat>) {
    && |at| == |rest|
    && (forall m :: 0 <= m < |at| ==> at[m] < |edges| && rest[m] == edges[at[m]] && !IsCoreEdge(core, rest[m]))
    && (forall m, n :: 0 <= m < n < |at| ==> at[m] < at[n])
    && (forall k :: 0 <= k < |edges| && !IsCoreEdge(core, edges[k]) ==> k in at)
  }

  /** Drops the edges between two core nodes, keeping the order and the number of the others. */
  method NonCoreEdges(edges: seq<QueryEdge>, core: seq<bool>) returns (rest: seq<QueryEdge>, ghost at: seq<nat>)
    requires forall k :: 0 <= k < |edges| ==> edges[k].source < |core| && edges[k].target < |core|
    ensures KeepsNonCore(edges, core, rest, at)
    ensures forall e :: e in rest <==> e in edges && !IsCoreEdge(core, e)
  {
    rest, at := [], [];
    for i := 0 to |edges|
      invariant KeepsNonCore(edges[..i], core, rest, at)
    {
      if !(core[edges[i].source] && core[edges[i].target]) {
        rest, at := rest + [edges[i]], at + [i];
        assert at[|at| - 1] == i;
      }
    }
    assert edges[..|edges|] == edges;
    KeptAre(edges, core, rest, at);
  }

  lemma KeptAre(edges: seq<QueryEdge>, core: seq<bool>, rest: seq<QueryEdge>, at: seq<nat>)
    requires KeepsNonCore(edges, core, rest, at)
    ensures forall e :: e in rest <==> e in edges && !IsCoreEdge(core, e)
  {
    forall e | e in edges && !IsCoreEdge(core, e) ensures e in rest {
      var k :| 0 <= k < |edges| && edges[k] == e;
      var m :| 0 <= m < |at| && at[m] == k;
      assert rest[m] == e;
    }
  }

  /** The filters select exactly the allowed non-core edges. */
  ghost predicate Prepared(nonCore: seq<QueryEdge>, filters: seq<seq<bool>>, flags: seq<Flags>)
    requires |filters| <= 8 && InFilters(nonCore, filters)
  {
    && |flags| == |nonCore|
    && forall k, i :: 0 <= k < |nonCore| && 0 <= i < |filters| ==>
        (Has(flags[k], i) <==> Allowed(filters[i], nonCore[k]))
  }

  method PrepareContainer(nonCore: seq<QueryEdge>, filters: seq<seq<bool>>) returns (container: ContractedEdgeContainer)
    requires |filters| <= 8 && InFilters(nonCore, filters)
    ensures fresh(container) && container.Valid() && container.index == 0 && container.edges == nonCore
    ensures Prepared(nonCore, filters, container.flags)
  {
    container := new ContractedEdgeContainer();
    container.Insert(nonCore);
    for n := 0 to |filters|
      invariant fresh(container) && container.Valid() && container.index == 0 && container.edges == nonCore
      invariant forall k, i :: 0 <= k < |nonCore| && 0 <= i < n ==>
              (Has(container.flags[k], i) <==> Allowed(filters[i], nonCore[k]))
    {
      hide Has;
      container.Filter(filters[n], n);
    }
  }

  /** After the first `n` merges, filter `i` selects its allowed non-core edges and, once merged, its core. */
  ghost predicate Combined(nonCore: seq<QueryEdge>, filters: seq<seq<bool>>, cores: seq<seq<QueryEdge>>, n: nat,
        edges: seq<QueryEdge>, flags: seq<Flags>)
    requires |filters| <= 8 && |cores| == |filters| && InFilters(nonCore, filters)
  {
    forall i, key :: 0 <= i < |filters| ==>
        (Picks(edges, flags, i, key) <==> AllowedKey(nonCore, filters[i], key) || (i < n && InKeys(cores[i], key)))
  }

  lemma PreparedIsCombined(nonCore: seq<QueryEdge>, filters: seq<seq<bool>>, cores: seq<seq<QueryEdge>>,
        flags: seq<Flags>)
    requires |filters| <= 8 && |cores| == |filters| && InFilters(nonCore, filters) && Prepared(nonCore, filters, flags)
    ensures Combined(nonCore, filters, cores, 0, nonCore, flags)
  {
    hide Has;
    forall i, key | 0 <= i < |filters| ensures Picks(nonCore, flags, i, key) <==> AllowedKey(nonCore, filters[i], key) {
      if AllowedKey(nonCore, filters[i], key) {
        var k :| 0 <= k < |nonCore| && KeyOf(nonCore[k]) == key && Allowed(filters[i], nonCore[k]);
        assert Has(flags[k], i);
      }
    }
  }

  // ---- duplicates over all merges

  /** The keys of the non-core edges and of the first `n` cores. */
  ghost function KnownKeys(nonCore: seq<QueryEdge>, cores: seq<seq<QueryEdge>>, n: nat): iset<Key> {
    iset key | InKeys(nonCore, key) || exists m :: 0 <= m < n && m < |cores| && InKeys(cores[m], key)
  }

  /** The first core has no doubles behind the non-core edges, and each further one fits what came before. */
  ghost predicate NeverDoubled(nonCore: seq<QueryEdge>, cores: seq<seq<QueryEdge>>, n: nat)
    requires n <= |cores|
  {
    forall m :: 0 <= m < n ==>
      if m == 0 then NoDoubles(nonCore, cores[0]) else FitsBehind(KnownKeys(nonCore, cores, m), cores[m])
  }

  /** Sorted lists without duplicates meet that. */
  lemma StrictNeverDoubled(nonCore: seq<QueryEdge>, cores: seq<seq<QueryEdge>>)
    requires StrictlySorted(nonCore) && forall i :: 0 <= i < |cores| ==> StrictlySorted(cores[i])
    ensures NeverDoubled(nonCore, cores, |cores|)
  {
    hide StrictlySorted, NoDoubles, FitsBehind, KnownKeys;
    forall m | 0 <= m < |cores|
      ensures if m == 0 then NoDoubles(nonCore, cores[0]) else FitsBehind(KnownKeys(nonCore, cores, m), cores[m])
    {
      StrictHaveNoDoubles(nonCore, cores[m]);
      StrictFits(KnownKeys(nonCore, cores, m), cores[m]);
    }
  }

  lemma StartsKnown(nonCore: seq<QueryEdge>, cores: seq<seq<QueryEdge>>)
    ensures KeysOf(nonCore) == KnownKeys(nonCore, cores, 0)
  {}

  /** Merging adds the keys of the new edges. */
  lemma KeysGrow(edges: seq<QueryEdge>, flags: seq<Flags>, added: seq<QueryEdge>, bit: nat, edges': seq<QueryEdge>,
        flags': seq<Flags>)
    requires bit < 8
    requires forall key :: Picks(edges', flags', bit, key) <==> Picks(edges, flags, bit, key) || InKeys(added, key)
    requires forall e :: e in edges ==> e in edges'
    requires forall e :: e in edges' ==> e in edges || e in added
    ensures KeysOf(edges') == KeysOf(edges) + KeysOf(added)
  {
    hide Has;
    forall key ensures key in KeysOf(edges') <==> key in KeysOf(edges) + KeysOf(added) {
      if InKeys(edges', key) {
        var k :| 0 <= k < |edges'| && KeyOf(edges'[k]) == key;
        assert edges'[k] in edges';
      }
      if InKeys(edges, key) {
        var k :| 0 <= k < |edges| && KeyOf(edges[k]) == key;
        assert edges[k] in edges';
      }
      if InKeys(added, key) {
        assert Picks(edges', flags', bit, key);
      }
    }
  }

  /** One more core: the condition extends, and so do the known keys. */
  lemma NextCore(nonCore: seq<QueryEdge>, cores: seq<seq<QueryEdge>>, n: nat, before: seq<QueryEdge>,
        after: seq<QueryEdge>)
    requires n < |cores| && KeysOf(before) == KnownKeys(nonCore, cores, n)
    requires KeysOf(after) == KeysOf(before) + KeysOf(cores[n])
    requires StrictlySorted(after) <==> NoDoubles(before, cores[n])
    requires if n == 0 then before == nonCore
             else Sorted(before) && (StrictlySorted(before) <==> NeverDoubled(nonCore, cores, n))
    ensures KeysOf(after) == KnownKeys(nonCore, cores, n + 1)
    ensures StrictlySorted(after) <==> NeverDoubled(nonCore, cores, n + 1)
  {
    hide InKeys, Sorted, StrictlySorted, NoDoubles, FitsBehind;
    if n > 0 { SortedNoDoubles(before, cores[n]); }
    forall key ensures key in KnownKeys(nonCore, cores, n + 1) <==>
                       key in KnownKeys(nonCore, cores, n) || InKeys(cores[n], key)
    {
    }
  }

  /**
   * `edges` is the edge list of the contracted graph, `core` its shared core and `cores[i]` the edge
   * list after contracting the part of the core that filter `i` allows. Filter `i` of the result
   * selects, up to the fields of `mergeCompare`, exactly the non-core edges with both ends allowed
   * by filter `i` and the edges of `cores[i]`. No edge is stored twice if and only if `NeverDoubled`.
   */
  method CombineCores(edges: seq<QueryEdge>, core: seq<bool>, filters: seq<seq<bool>>, cores: seq<seq<QueryEdge>>)
    returns (nonCore: seq<QueryEdge>, merged: seq<QueryEdge>, edgeFilters: seq<seq<bool>>)
    requires |filters| <= 8 && |cores| == |filters| && InFilters(edges, filters)
    requires forall k :: 0 <= k < |edges| ==> edges[k].source < |core| && edges[k].target < |core|
    ensures forall e :: e in nonCore <==> e in edges && !IsCoreEdge(core, e)
    ensures InFilters(nonCore, filters)
    ensures |edgeFilters| == |filters| && forall i :: 0 <= i < |filters| ==> |edgeFilters[i]| == |merged|
    ensures forall i, key :: 0 <= i < |filters| ==>
            (Selects(merged, edgeFilters[i], key) <==> AllowedKey(nonCore, filters[i], key) || InKeys(cores[i], key))
    ensures forall i, e :: 0 <= i < |filters| ==>
            (Chosen(merged, edgeFilters[i], e) <==> AllowedEdge(nonCore, filters[i], e) || Listed(cores[i], e))
    ensures |filters| > 0 ==> Sorted(merged)
    ensures |filters| > 0 ==> (StrictlySorted(merged) <==> NeverDoubled(nonCore, cores, |cores|))
    ensures |filters| == 0 ==> merged == nonCore
  {
    ghost var at: seq<nat>;
    nonCore, at := NonCoreEdges(edges, core);
    assert InFilters(nonCore, filters) by { InFiltersKept(edges, nonCore, filters); }
    var container := PrepareContainer(nonCore, filters);
    PreparedIsCombined(nonCore, filters, cores, container.flags);
    hide Picks, Has, AllowedKey, InKeys, Sorted, StrictlySorted, NoDoubles, InFilters;
    hide NeverDoubled, KnownKeys;
    StartsKnown(nonCore, cores);
    for n := 0 to |filters|
      invariant fresh(container) && container.Valid() && container.index == n
      invariant Combined(nonCore, filters, cores, n, container.edges, container.flags)
      invariant n > 0 ==> Sorted(container.edges)
      invariant n == 0 ==> container.edges == nonCore
      invariant n > 0 ==> (StrictlySorted(container.edges) <==> NeverDoubled(nonCore, cores, n))
      invariant KeysOf(container.edges) == KnownKeys(nonCore, cores, n)
    {
      ghost var before, flags := container.edges, container.flags;
      container.Merge(cores[n]);
      KeysGrow(before, flags, cores[n], n, container.edges, container.flags);
      NextCore(nonCore, cores, n, before, container.edges);
    }
    merged := container.edges;
    edgeFilters := container.MakeEdgeFilters();
    forall i, key | 0 <= i < |filters|
      ensures Selects(merged, edgeFilters[i], key) <==> AllowedKey(nonCore, filters[i], key) || InKeys(cores[i], key)
    {
      SelectsIsPicks(merged, container.flags, edgeFilters[i], i, key);
    }
    hide Selects, Chosen, AllowedEdge, Listed, KeyOf;
    forall i, e | 0 <= i < |filters|
      ensures Chosen(merged, edgeFilters[i], e) <==> AllowedEdge(nonCore, filters[i], e) || Listed(cores[i], e)
    {
      ChosenMeans(merged, edgeFilters[i], e);
      AllowedMeans(nonCore, filters[i], e);
      PicksMeans(cores[i], [], 0, e);
    }
  }

  /** The boolean vector selects an edge that agrees with `e` in the eight fields. */
  ghost predicate Chosen(edges: seq<QueryEdge>, filter: seq<bool>, e: QueryEdge) {
    exists k :: 0 <= k < |edges| && k < |filter| && SameFields(edges[k], e) && filter[k]
  }

  /** Some edge with both ends allowed agrees with `e` in the eight fields. */
  ghost predicate AllowedEdge(edges: seq<QueryEdge>, filter: seq<bool>, e: QueryEdge)
    requires forall k :: 0 <= k < |edges| ==> edges[k].source < |filter| && edges[k].target < |filter|
  {
    exists k :: 0 <= k < |edges| && SameFields(edges[k], e) && filter[edges[k].source] && filter[edges[k].target]
  }

  lemma ChosenMeans(edges: seq<QueryEdge>, filter: seq<bool>, e: QueryEdge)
    ensures Selects(edges, filter, KeyOf(e)) <==> Chosen(edges, filter, e)
  {
    hide SameFields, KeyOf;
    forall k | 0 <= k < |edges| ensures SameFields(edges[k], e) <==> KeyOf(edges[k]) == KeyOf(e) {
      MergableIff(edges[k], e);
    }
  }

  lemma AllowedMeans(edges: seq<QueryEdge>, filter: seq<bool>, e: QueryEdge)
    requires forall k :: 0 <= k < |edges| ==> edges[k].source < |filter| && edges[k].target < |filter|
    ensures AllowedKey(edges, filter, KeyOf(e)) <==> AllowedEdge(edges, filter, e)
  {
    hide SameFields, KeyOf;
    forall k | 0 <= k < |edges| ensures SameFields(edges[k], e) <==> KeyOf(edges[k]) == KeyOf(e) {
      MergableIff(edges[k], e);
    }
  }

  /** The nodes no filter excludes, which the first contraction is restricted to. */
  method AlwaysAllowed(filters: seq<seq<bool>>, n: nat) returns (allowed: seq<bool>)
    requires forall i :: 0 <= i < |filters| ==> |filters[i]| == n
    ensures |allowed| == n
    ensures forall v :: 0 <= v < n ==> (allowed[v] <==> forall i :: 0 <= i < |filters| ==> filters[i][v])
  {
    allowed := seq(n, _ => true);
    for k := 0 to |filters|
      invariant |allowed| == n
      invariant forall v :: 0 <= v < n ==> (allowed[v] <==> forall i :: 0 <= i < k ==> filters[i][v])
    {
      ghost var before := allowed;
      for node := 0 to n
        invariant |allowed| == n
        invariant forall v :: 0 <= v < node ==> (allowed[v] <==> before[v] && filters[k][v])
        invariant forall v :: node <= v < n ==> allowed[v] == before[v]
      {
        allowed := allowed[node := allowed[node] && filters[k][node]];
      }
    }
  }

  predicate ExcludesNothing(filter: seq<bool>) {
    forall v :: 0 <= v < |filter| ==> filter[v]
  }

  /**
   * `contractExcludableGraph`, given what its contractions yield: `full` is the edge list after
   * contracting everything, which is all there is to do for a single filter that excludes nothing.
   */
  method ContractExcludable(full: seq<QueryEdge>, edges: seq<QueryEdge>, core: seq<bool>, filters: seq<seq<bool>>,
        cores: seq<seq<QueryEdge>>)
    returns (ghost nonCore: seq<QueryEdge>, merged: seq<QueryEdge>, edgeFilters: seq<seq<bool>>)
    requires |filters| <= 8 && |cores| == |filters| && InFilters(edges, filters)
    requires forall k :: 0 <= k < |edges| ==> edges[k].source < |core| && edges[k].target < |core|
    ensures |edgeFilters| == |filters| && forall i :: 0 <= i < |filters| ==> |edgeFilters[i]| == |merged|
    ensures if |filters| == 1 && forall v :: 0 <= v < |filters[0]| ==> filters[0][v] then
              merged == full && forall k :: 0 <= k < |full| ==> edgeFilters[0][k]
            else
              && InFilters(nonCore, filters) && (forall e :: e in nonCore <==> e in edges && !IsCoreEdge(core, e))
              && forall i, e :: 0 <= i < |filters| ==>
                (Chosen(merged, edgeFilters[i], e) <==> AllowedEdge(nonCore, filters[i], e) || Listed(cores[i], e))
  {
    if |filters| == 1 && ExcludesNothing(filters[0]) {
      return [], full, [seq(|full|, _ => true)];
    }
    nonCore, merged, edgeFilters := CombineCores(edges, core, filters, cores);
  }

  /** The boolean vector selects an edge with this key. */
  ghost predicate Selects(edges: seq<QueryEdge>, filter: seq<bool>, key: Key) {
    exists k :: 0 <= k < |edges| && k < |filter| && KeyOf(edges[k]) == key && filter[k]
  }

  lemma SelectsIsPicks(edges: seq<QueryEdge>, flags: seq<Flags>, filter: seq<bool>, i: nat, key: Key)
    requires i < 8 && |flags| == |edges| == |filter|
    requires forall k :: 0 <= k < |edges| ==> (filter[k] <==> Has(flags[k], i))
    ensures Selects(edges, filter, key) <==> Picks(edges, flags, i, key)
  {
    hide Has;
    if Picks(edges, flags, i, key) {
      var k :| 0 <= k < |edges| && k < |flags| && KeyOf(edges[k]) == key && Has(flags[k], i);
      assert filter[k];
    }
  }

  lemma InFiltersKept(edges: seq<QueryEdge>, rest: seq<QueryEdge>, filters: seq<seq<bool>>)
    requires InFilters(edges, filters) && forall e :: e in rest ==> e in edges
    ensures InFilters(rest, filters)
  {
    forall k, i | 0 <= k < |rest| && 0 <= i < |filters|
      ensures rest[k].source < |filters[i]| && rest[k].target < |filters[i]|
    {
      assert rest[k] in edges;
      var n :| 0 <= n < |edges| && edges[n] == rest[k];
    }
  }

  /** If contracting the allowed core adds no edge at an excluded node, nothing selected touches one. */
  lemma NothingExcludedIsSelected(nonCore: seq<QueryEdge>, filter: seq<bool>, core: seq<QueryEdge>,
        merged: seq<QueryEdge>, edgeFilter: seq<bool>, k: nat)
    requires forall n :: 0 <= n < |nonCore| ==> nonCore[n].source < |filter| && nonCore[n].target < |filter|
    requires forall key :: Selects(merged, edgeFilter, key) <==> AllowedKey(nonCore, filter, key) || InKeys(core, key)
    requires forall n :: 0 <= n < |core| ==>
            core[n].source < |filter| && core[n].target < |filter| && Allowed(filter, core[n])
    requires k < |merged| && k < |edgeFilter| && edgeFilter[k]
    ensures merged[k].source < |filter| && merged[k].target < |filter| && Allowed(filter, merged[k])
  {
    var key := KeyOf(merged[k]);
    assert Selects(merged, edgeFilter, key);
    if AllowedKey(nonCore, filter, key) {
      var n :| 0 <= n < |nonCore| && KeyOf(nonCore[n]) == key && Allowed(filter, nonCore[n]);
    } else {
      var n :| 0 <= n < |core| && KeyOf(core[n]) == key;
    }
  }
}
