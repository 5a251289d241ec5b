/** From the edges on disk to the base graph: both directions of every edge, tidied and grouped by source. */
module EdgeReaders {
  import opened Typedefs
  import opened Walks
  import opened CellOverlay

  /** An edge of the edge-based graph as it is read from disk. */
  datatype RawEdge = RawEdge(source: nat, target: nat, weight: int, duration: int, distance: real,
                             forward: bool, backward: bool)

  /** An entry of the adjacency array, still with its source. */
  datatype DirectedEdge = DirectedEdge(source: nat, edge: Edge)

  // ---- splitting

  /** What driving an edge costs; it weighs at least 1. */
  function CostOf(x: RawEdge): Cost {
    Cost(if x.weight > 1 then x.weight else 1, x.duration, x.distance)
  }

  function Entry(from: nat, to: nat, x: RawEdge, forward: bool, backward: bool): DirectedEdge {
    DirectedEdge(from, Edge(to, CostOf(x), forward, backward))
  }

  function Opposite(d: DirectedEdge): DirectedEdge {
    DirectedEdge(d.edge.target, Edge(d.source, d.edge.cost, d.edge.backward, d.edge.forward))
  }

  /** `d` is the edge as seen from its source, or as seen from its target. */
  ghost predicate Gives(x: RawEdge, d: DirectedEdge) {
    && Costs(x, d.edge.cost)
    && ((d.source == x.source && d.edge.target == x.target && d.edge.forward == x.forward
         && d.edge.backward == x.backward)
        || (d.source == x.target && d.edge.target == x.source && d.edge.forward == x.backward
            && d.edge.backward == x.forward))
  }

  /** Both views of every valid edge, and nothing else. */
  ghost predicate SplitOf(raw: seq<RawEdge>, directed: seq<DirectedEdge>) {
    forall d :: d in directed <==> exists x :: x in raw && x.weight != INVALID_EDGE_WEIGHT && Gives(x, d)
  }

  /** `splitBidirectionalEdges`: each edge seen from both ends, with a weight of at least 1. */
  method SplitBidirectionalEdges(edges: seq<RawEdge>) returns (directed: seq<DirectedEdge>)
    ensures SplitOf(edges, directed)
    ensures forall d :: d in directed ==> Opposite(d) in directed && d.edge.cost.weight >= 1
  {
    directed := [];
    for i := 0 to |edges|
      invariant SplitOf(edges[..i], directed)
    {
      var x := edges[i];
      assert edges[..i + 1] == edges[..i] + [x];
      if x.weight != INVALID_EDGE_WEIGHT {
        directed := directed + [Entry(x.source, x.target, x, x.forward, x.backward)];
        directed := directed + [Entry(x.target, x.source, x, x.backward, x.forward)];
      }
    }
    assert edges[..|edges|] == edges;
    forall d | d in directed ensures Opposite(d) in directed && d.edge.cost.weight >= 1 {
      var x :| x in edges && x.weight != INVALID_EDGE_WEIGHT && Gives(x, d);
      assert Gives(x, Opposite(d));
    }
  }

  // ---- what the edges on disk mean

  /** The edge can be driven from `u` to `v`. */
  predicate Drives(x: RawEdge, u: nat, v: nat) {
    && x.weight != INVALID_EDGE_WEIGHT
    && ((x.source == u && x.target == v && x.forward) || (x.source == v && x.target == u && x.backward))
  }

  /** Some edge on disk can be driven from `u` to `v` at this cost. */
  ghost predicate OnDisk(raw: seq<RawEdge>, u: nat, v: nat, c: Cost) {
    exists x :: x in raw && Drives(x, u, v) && Costs(x, c)
  }

  /** What an edge on disk costs: its own numbers, but it weighs at least 1. */
  ghost predicate Costs(x: RawEdge, c: Cost) {
    && c.duration == x.duration && c.distance == x.distance
    && (x.weight >= 1 ==> c.weight == x.weight) && (x.weight < 1 ==> c.weight == 1)
  }

  ghost predicate HasRoad(edges: seq<Edge>, v: nat, weight: int) {
    exists e :: e in edges && e.target == v && e.forward && e.cost.weight <= weight
  }

  /** Its roads are edges on disk, and of those from one node to another it has one that weighs least. */
  ghost predicate RoadsOf(raw: seq<RawEdge>, graph: seq<seq<Edge>>) {
    && (forall u: nat, e :: u < |graph| && e in graph[u] && e.forward ==>
        u != e.target && OnDisk(raw, u, e.target, e.cost))
    && (forall x, u: nat, v: nat :: x in raw && Drives(x, u, v) && u != v ==>
        u < |graph| && (x.weight >= 1 ==> HasRoad(graph[u], v, x.weight)) && (x.weight < 1 ==> HasRoad(graph[u], v, 1)))
  }

  /** Some edge on disk can be driven from `u` to `v`. */
  ghost predicate CanDrive(raw: seq<RawEdge>, u: nat, v: nat) {
    exists x :: x in raw && Drives(x, u, v)
  }

  /** Its backward edges are the roads that lead the other way. */
  ghost predicate BackRoadsOf(raw: seq<RawEdge>, graph: seq<seq<Edge>>) {
    forall u: nat, v: nat :: u < |graph| ==>
      (SeenFrom(graph[u], v) <==> u != v && CanDrive(raw, v, u))
  }

  /** No edge that can be driven is open both ways. */
  ghost predicate OneWayOnDisk(raw: seq<RawEdge>) {
    forall x :: x in raw && x.weight != INVALID_EDGE_WEIGHT ==> !(x.forward && x.backward)
  }

  /** All its roads weigh least. */
  ghost predicate OnlyLightest(raw: seq<RawEdge>, graph: seq<seq<Edge>>) {
    forall u: nat, e, x :: u < |graph| && e in graph[u] && e.forward && x in raw && Drives(x, u, e.target) ==>
      (x.weight >= 1 ==> e.cost.weight <= x.weight) && (x.weight < 1 ==> e.cost.weight <= 1)
  }

  lemma EntryIsOnDisk(raw: seq<RawEdge>, directed: seq<DirectedEdge>, d: DirectedEdge)
    requires SplitOf(raw, directed) && d in directed && d.edge.forward
    ensures OnDisk(raw, d.source, d.edge.target, d.edge.cost)
  {
    var x :| x in raw && x.weight != INVALID_EDGE_WEIGHT && Gives(x, d);
    assert Drives(x, d.source, d.edge.target) && Costs(x, d.edge.cost);
  }

  lemma OnDiskIsEntry(raw: seq<RawEdge>, directed: seq<DirectedEdge>, x: RawEdge, u: nat, v: nat)
    returns (d: DirectedEdge)
    requires SplitOf(raw, directed) && x in raw && Drives(x, u, v)
    ensures d in directed && d.source == u && d.edge.target == v && d.edge.forward && d.edge.cost == CostOf(x)
  {
    d := if x.source == u && x.target == v && x.forward then Entry(u, v, x, x.forward, x.backward)
         else Entry(u, v, x, x.backward, x.forward);
    assert Gives(x, d);
  }

  lemma SplitIsOneWay(raw: seq<RawEdge>, directed: seq<DirectedEdge>, sorted: seq<DirectedEdge>)
    requires SplitOf(raw, directed) && OneWayOnDisk(raw) && forall d :: d in sorted <==> d in directed
    ensures OneWay(sorted)
  {
    forall k | 0 <= k < |sorted| ensures !(sorted[k].edge.forward && sorted[k].edge.backward) {
      assert sorted[k] in directed;
      var x :| x in raw && x.weight != INVALID_EDGE_WEIGHT && Gives(x, sorted[k]);
    }
  }

  // ---- sorting

  /** By source, target, forward edges first, then weight. */
  predicate Before(a: DirectedEdge, b: DirectedEdge) {
    if a.source != b.source then a.source < b.source
    else if a.edge.target != b.edge.target then a.edge.target < b.edge.target
    else if a.edge.forward != b.edge.forward then a.edge.forward
    else a.edge.cost.weight < b.edge.cost.weight
  }

  ghost predicate Sorted(edges: seq<DirectedEdge>) {
    forall i, j :: 0 <= i < j < |edges| ==> !Before(edges[j], edges[i])
  }

  method Sort(edges: seq<DirectedEdge>) returns (sorted: seq<DirectedEdge>)
    ensures Sorted(sorted) && forall d :: d in sorted <==> d in edges
  {
    sorted := [];
    for i := 0 to |edges|
      invariant Sorted(sorted) && forall d :: d in sorted <==> d in edges[..i]
    {
      var k := |sorted|;
      while k > 0 && Before(edges[i], sorted[k - 1])
        invariant 0 <= k <= |sorted| && forall j :: k <= j < |sorted| ==> Before(edges[i], sorted[j])
      {
        k := k - 1;
      }
      assert sorted == sorted[..k] + sorted[k..] && edges[..i + 1] == edges[..i] + [edges[i]];
      InsertSorted(sorted, k, edges[i]);
      sorted := sorted[..k] + [edges[i]] + sorted[k..];
    }
    assert edges[..|edges|] == edges;
  }

  lemma InsertSorted(sorted: seq<DirectedEdge>, k: nat, d: DirectedEdge)
    requires Sorted(sorted) && k <= |sorted|
    requires forall j :: k <= j < |sorted| ==> Before(d, sorted[j])
    requires k > 0 ==> !Before(d, sorted[k - 1])
    ensures Sorted(sorted[..k] + [d] + sorted[k..])
  {
    var r := sorted[..k] + [d] + sorted[k..];
    forall i, j | 0 <= i < j < |r| ensures !Before(r[j], r[i]) {
      if j == k {
        assert i < k - 1 ==> !Before(sorted[k - 1], sorted[i]);
      }
    }
  }

  // ---- tidying

  predicate Joins(d: DirectedEdge, s: nat, t: nat) { d.source == s && d.edge.target == t }

  predicate Open(d: DirectedEdge, forward: bool) { if forward then d.edge.forward else d.edge.backward }

  /** Some edge from `s` to `t` is open in the given direction. */
  ghost predicate HasDirection(edges: seq<DirectedEdge>, s: nat, t: nat, forward: bool) {
    exists k :: 0 <= k < |edges| && Joins(edges[k], s, t) && Open(edges[k], forward)
  }

  ghost predicate Placed(edges: seq<DirectedEdge>, o: DirectedEdge) {
    exists k :: 0 <= k < |edges| && Joins(edges[k], o.source, o.edge.target)
  }

  /** An edge open in that direction has the same weight as `o`, and for the forward direction the same cost. */
  ghost predicate Priced(edges: seq<DirectedEdge>, o: DirectedEdge, forward: bool) {
    exists k :: 0 <= k < |edges| && Joins(edges[k], o.source, o.edge.target) && Open(edges[k], forward)
                && edges[k].edge.cost.weight == o.edge.cost.weight && (forward ==> edges[k].edge.cost == o.edge.cost)
  }

  /** No edge of the same ends and direction weighs less. */
  ghost predicate Lightest(edges: seq<DirectedEdge>, o: DirectedEdge, forward: bool) {
    forall k :: 0 <= k < |edges| && Joins(edges[k], o.source, o.edge.target) && Open(edges[k], forward)
                ==> o.edge.cost.weight <= edges[k].edge.cost.weight
  }

  /** No edge is open both ways. */
  ghost predicate OneWay(edges: seq<DirectedEdge>) {
    forall k :: 0 <= k < |edges| ==> !(edges[k].edge.forward && edges[k].edge.backward)
  }

  /** What one group of parallel edges is replaced by; `b` is the first backward edge, or the end. */
  function Tidied(edges: seq<DirectedEdge>, i: nat, j: nat, b: nat): seq<DirectedEdge>
    requires i < j <= |edges| && i <= b <= j
  {
    if edges[i].source == edges[i].edge.target then []
    else if b == i || b == j then [edges[i]]
    else if edges[i].edge.cost.weight == edges[b].edge.cost.weight then
      [edges[i].(edge := edges[i].edge.(backward := true))]
    else [edges[i], edges[b]]
  }

  /** The stretch from `i` to `j` holds all edges between two nodes, and `b` is its first backward edge or its end. */
  ghost predicate IsGroup(edges: seq<DirectedEdge>, i: nat, j: nat, b: nat) {
    && i < j <= |edges| && i <= b <= j && Sorted(edges)
    && (forall k :: i <= k < j ==> Joins(edges[k], edges[i].source, edges[i].edge.target))
    && (forall k :: i <= k < b ==> !edges[k].edge.backward) && (b < j ==> edges[b].edge.backward)
    && (i > 0 ==> !Joins(edges[i - 1], edges[i].source, edges[i].edge.target))
    && (j < |edges| ==> !Joins(edges[j], edges[i].source, edges[i].edge.target))
  }

  /** What tidying promises of the edges read so far. */
  ghost predicate Tidies(all: seq<DirectedEdge>, n: nat, output: seq<DirectedEdge>) {
    && n <= |all|
    && (forall s: nat, t: nat, forward ::
          HasDirection(output, s, t, forward) <==> s != t && HasDirection(all[..n], s, t, forward))
    && (forall o :: o in output ==> Placed(all, o))
    && (forall o, forward :: o in output && Open(o, forward) ==> Priced(all, o, forward))
    && (OneWay(all) ==> forall o, forward :: o in output && Open(o, forward) ==> Lightest(all, o, forward))
    && (forall k :: 0 <= k < n && all[k].edge.forward && all[k].source != all[k].edge.target ==> Kept(output, all[k]))
  }

  /** Some edge is open forward between the same ends and weighs no more. */
  ghost predicate Kept(output: seq<DirectedEdge>, d: DirectedEdge) {
    exists o :: o in output && Joins(o, d.source, d.edge.target) && Open(o, true)
                && o.edge.cost.weight <= d.edge.cost.weight
  }

  /** A group keeps its lightest edge open forward. */
  lemma GroupKeepsLightest(all: seq<DirectedEdge>, i: nat, j: nat, b: nat, k: nat)
    requires IsGroup(all, i, j, b) && i <= k < j && all[k].edge.forward && all[k].source != all[k].edge.target
    ensures Kept(Tidied(all, i, j, b), all[k])
  {
    assert k > i ==> !Before(all[k], all[i]);
    var o := Tidied(all, i, j, b)[0];
    assert o in Tidied(all, i, j, b) && Joins(o, all[k].source, all[k].edge.target);
  }

  lemma KeptOfConcat(a: seq<DirectedEdge>, b: seq<DirectedEdge>, d: DirectedEdge)
    requires Kept(a, d) || Kept(b, d)
    ensures Kept(a + b, d)
  {
    var o :| (o in a || o in b) && Joins(o, d.source, d.edge.target) && Open(o, true)
             && o.edge.cost.weight <= d.edge.cost.weight;
    assert o in a + b;
  }

  lemma GroupIsWhole(all: seq<DirectedEdge>, i: nat, j: nat, b: nat, k: nat)
    requires IsGroup(all, i, j, b) && k < |all| && Joins(all[k], all[i].source, all[i].edge.target)
    ensures i <= k < j
  {}

  lemma GroupDirections(all: seq<DirectedEdge>, i: nat, j: nat, b: nat, forward: bool)
    requires IsGroup(all, i, j, b) && all[i].source != all[i].edge.target
    ensures var g, s, t := Tidied(all, i, j, b), all[i].source, all[i].edge.target;
            HasDirection(g, s, t, forward) <==> exists k :: i <= k < j && Open(all[k], forward)
  {
    var g := Tidied(all, i, j, b);
    if k :| i <= k < j && Open(all[k], forward) {
      if forward {
        assert !Before(all[k], all[i]) || k == i;
        assert Open(g[0], true) && Joins(g[0], all[i].source, all[i].edge.target);
      } else {
        assert b < j;
        assert Open(g[|g| - 1], false) && Joins(g[|g| - 1], all[i].source, all[i].edge.target);
      }
    }
  }

  lemma GroupPrices(all: seq<DirectedEdge>, i: nat, j: nat, b: nat, o: DirectedEdge, forward: bool)
    requires IsGroup(all, i, j, b) && o in Tidied(all, i, j, b) && Open(o, forward)
    ensures Priced(all, o, forward)
    ensures OneWay(all) ==> Lightest(all, o, forward)
  {
    var k := if forward && o.edge.cost == all[i].edge.cost && all[i].edge.forward then i else b;
    assert b < j || o == all[i];
    if o == all[i] { k := i; }
    assert Joins(all[k], o.source, o.edge.target) && Open(all[k], forward)
        && all[k].edge.cost.weight == o.edge.cost.weight;
    if OneWay(all) {
      forall m | 0 <= m < |all| && Joins(all[m], o.source, o.edge.target) && Open(all[m], forward)
        ensures o.edge.cost.weight <= all[m].edge.cost.weight
      {
        GroupIsWhole(all, i, j, b, m);
        assert m > k ==> !Before(all[m], all[k]);
      }
    }
  }

  lemma DirectionsOfConcat(a: seq<DirectedEdge>, b: seq<DirectedEdge>, s: nat, t: nat, forward: bool)
    ensures HasDirection(a + b, s, t, forward) <==> HasDirection(a, s, t, forward) || HasDirection(b, s, t, forward)
  {
    if k :| 0 <= k < |a| && Joins(a[k], s, t) && Open(a[k], forward) { assert (a + b)[k] == a[k]; }
    if k :| 0 <= k < |b| && Joins(b[k], s, t) && Open(b[k], forward) { assert (a + b)[|a| + k] == b[k]; }
  }

  /** A group adds what it holds. */
  lemma GroupDirectionsAll(all: seq<DirectedEdge>, i: nat, j: nat, b: nat, s: nat, t: nat, forward: bool)
    requires IsGroup(all, i, j, b)
    ensures HasDirection(Tidied(all, i, j, b), s, t, forward) <==> s != t && HasDirection(all[i..j], s, t, forward)
  {
    var g, part := Tidied(all, i, j, b), all[i..j];
    assert forall k :: 0 <= k < |part| ==> part[k] == all[i + k];
    if Joins(all[i], s, t) && s != t {
      GroupDirections(all, i, j, b, forward);
      if k :| i <= k < j && Open(all[k], forward) { assert part[k - i] == all[k]; }
    }
  }

  lemma GroupExtends(all: seq<DirectedEdge>, i: nat, j: nat, b: nat, output: seq<DirectedEdge>)
    requires IsGroup(all, i, j, b) && Tidies(all, i, output)
    ensures Tidies(all, j, output + Tidied(all, i, j, b))
  {
    var g := Tidied(all, i, j, b);
    assert all[..j] == all[..i] + all[i..j];
    forall s: nat, t: nat, forward
      ensures HasDirection(output + g, s, t, forward) <==> s != t && HasDirection(all[..j], s, t, forward)
    {
      DirectionsOfConcat(output, g, s, t, forward);
      DirectionsOfConcat(all[..i], all[i..j], s, t, forward);
      GroupDirectionsAll(all, i, j, b, s, t, forward);
    }
    forall o | o in g ensures Placed(all, o) { assert Joins(all[i], o.source, o.edge.target); }
    hide HasDirection, Tidied, IsGroup, Placed, Kept;
    forall k | 0 <= k < j && all[k].edge.forward && all[k].source != all[k].edge.target
      ensures Kept(output + g, all[k])
    {
      if k >= i { GroupKeepsLightest(all, i, j, b, k); }
      KeptOfConcat(output, g, all[k]);
    }
    forall o, forward | o in g && Open(o, forward)
      ensures Priced(all, o, forward) && (OneWay(all) ==> Lightest(all, o, forward))
    {
      GroupPrices(all, i, j, b, o, forward);
    }
  }

  /** `prepareEdgesForUsageInGraph`: one or two edges for every pair of nodes, and no loops. */
  method PrepareEdges(edges: seq<DirectedEdge>) returns (sorted: seq<DirectedEdge>, output: seq<DirectedEdge>)
    ensures forall d :: d in sorted <==> d in edges
    ensures Tidies(sorted, |sorted|, output)
  {
    hide Tidies, Joins, IsGroup, Sorted;
    sorted := Sort(edges);
    output := [];
    var i := 0;
    NothingTidied(sorted);
    while i < |sorted|
      invariant i <= |sorted| && Tidies(sorted, i, output)
      invariant 0 < i < |sorted| ==> !Joins(sorted[i - 1], sorted[i].source, sorted[i].edge.target)
    {
      var j, b := FindGroup(sorted, i);
      GroupExtends(sorted, i, j, b, output);
      if sorted[i].source != sorted[i].edge.target {
        if b == i || b == j {
          output := output + [sorted[i]];
        } else if sorted[i].edge.cost.weight == sorted[b].edge.cost.weight {
          output := output + [sorted[i].(edge := sorted[i].edge.(backward := true))];
        } else {
          output := output + [sorted[i], sorted[b]];
        }
      } else {
        assert output + [] == output;
      }
      i := j;
    }
  }

  lemma NothingTidied(all: seq<DirectedEdge>)
    ensures Tidies(all, 0, [])
  {}

  /** The end of the group at `i`, and its first backward edge or its end. */
  method FindGroup(sorted: seq<DirectedEdge>, i: nat) returns (j: nat, b: nat)
    requires Sorted(sorted) && i < |sorted|
    requires i > 0 ==> !Joins(sorted[i - 1], sorted[i].source, sorted[i].edge.target)
    ensures IsGroup(sorted, i, j, b)
    ensures j < |sorted| ==> !Joins(sorted[j - 1], sorted[j].source, sorted[j].edge.target)
  {
    j := i;
    while j < |sorted| && Joins(sorted[j], sorted[i].source, sorted[i].edge.target)
      invariant i <= j <= |sorted|
      invariant forall k :: i <= k < j ==> Joins(sorted[k], sorted[i].source, sorted[i].edge.target)
    {
      j := j + 1;
    }
    b := i;
    while b < j && !sorted[b].edge.backward
      invariant i <= b <= j && forall k :: i <= k < b ==> !sorted[k].edge.backward
    {
      b := b + 1;
    }
  }

  // ---- the graph

  ghost predicate TargetsFit(graph: seq<seq<Edge>>) {
    forall u, e :: 0 <= u < |graph| && e in graph[u] ==> e.target < |graph|
  }

  /** Every road is seen at its other end, as an edge open backwards; its cost may differ there. */
  ghost predicate SeenBack(graph: seq<seq<Edge>>) {
    forall u, e :: 0 <= u < |graph| && e in graph[u] && e.forward ==> e.target < |graph| && SeenFrom(graph[e.target], u)
  }

  ghost predicate SeenFrom(edges: seq<Edge>, u: nat) {
    exists f :: f in edges && f.target == u && f.backward
  }

  ghost predicate WeightsPositive(graph: seq<seq<Edge>>) {
    forall u, e :: 0 <= u < |graph| && e in graph[u] && e.forward ==> e.cost.weight >= 1
  }

  /** The adjacency array of `n` nodes. */
  method BuildGraph(n: nat, edges: seq<DirectedEdge>) returns (graph: seq<seq<Edge>>)
    requires forall k :: 0 <= k < |edges| ==> edges[k].source < n
    ensures |graph| == n && forall u: nat, e :: u < n ==> (e in graph[u] <==> DirectedEdge(u, e) in edges)
  {
    graph := seq(n, _ => []);
    for i := 0 to |edges|
      invariant |graph| == n
      invariant forall u: nat, e :: u < n ==> (e in graph[u] <==> DirectedEdge(u, e) in edges[..i])
    {
      var d := edges[i];
      assert edges[..i + 1] == edges[..i] + [d];
      graph := graph[d.source := graph[d.source] + [d.edge]];
    }
    assert edges[..|edges|] == edges;
  }

  /** The whole way from disk to graph. */
  method LoadGraph(n: nat, raw: seq<RawEdge>) returns (graph: seq<seq<Edge>>)
    requires forall k :: 0 <= k < |raw| ==> raw[k].source < n && raw[k].target < n
    ensures |graph| == n && TargetsFit(graph) && SeenBack(graph) && WeightsPositive(graph)
    ensures RoadsOf(raw, graph) && BackRoadsOf(raw, graph) && (OneWayOnDisk(raw) ==> OnlyLightest(raw, graph))
  {
    var directed := SplitBidirectionalEdges(raw);
    forall d | d in directed ensures d.source < n && d.edge.target < n {
      var x :| x in raw && x.weight != INVALID_EDGE_WEIGHT && Gives(x, d);
      var k :| 0 <= k < |raw| && raw[k] == x;
    }
    var sorted, tidied := PrepareEdges(directed);
    TidiedFit(n, directed, sorted, tidied);
    graph := BuildGraph(n, tidied);
    TidiedGraph(n, directed, sorted, tidied, graph);
    TidiedIsOnDisk(raw, directed, sorted, tidied, graph);
    TidiedLeadsBack(raw, directed, sorted, tidied, graph);
    if OneWayOnDisk(raw) { TidiedIsLightest(raw, directed, sorted, tidied, graph); }
  }

  /** The roads of the graph are those on disk. */
  lemma TidiedIsOnDisk(raw: seq<RawEdge>, directed: seq<DirectedEdge>, sorted: seq<DirectedEdge>,
                       tidied: seq<DirectedEdge>, graph: seq<seq<Edge>>)
    requires SplitOf(raw, directed) && (forall d :: d in sorted <==> d in directed)
    requires Tidies(sorted, |sorted|, tidied) && forall d :: d in directed ==> d.source < |graph|
    requires forall u: nat, e :: u < |graph| ==> (e in graph[u] <==> DirectedEdge(u, e) in tidied)
    ensures RoadsOf(raw, graph)
  {
    hide SplitOf, Tidies, OnDisk;
    forall u: nat, e | u < |graph| && e in graph[u] && e.forward
      ensures u != e.target && OnDisk(raw, u, e.target, e.cost)
    {
      TidiedRoadIsOnDisk(raw, directed, sorted, tidied, DirectedEdge(u, e));
    }
    forall x, u: nat, v: nat | x in raw && Drives(x, u, v) && u != v
      ensures u < |graph| && (x.weight >= 1 ==> HasRoad(graph[u], v, x.weight))
      ensures u < |graph| && (x.weight < 1 ==> HasRoad(graph[u], v, 1))
    {
      var o := DiskRoadIsKept(raw, directed, sorted, tidied, x, u, v);
      assert o == DirectedEdge(u, o.edge) && o.edge in graph[u];
    }
  }

  /** The backward edges of the graph are the roads on disk that lead the other way. */
  lemma TidiedLeadsBack(raw: seq<RawEdge>, directed: seq<DirectedEdge>, sorted: seq<DirectedEdge>,
                        tidied: seq<DirectedEdge>, graph: seq<seq<Edge>>)
    requires SplitOf(raw, directed) && (forall d :: d in sorted <==> d in directed)
    requires Tidies(sorted, |sorted|, tidied)
    requires forall u: nat, e :: u < |graph| ==> (e in graph[u] <==> DirectedEdge(u, e) in tidied)
    ensures BackRoadsOf(raw, graph)
  {
    hide SplitOf, Tidies;
    forall u: nat, v: nat | u < |graph| ensures SeenFrom(graph[u], v) <==> u != v && CanDrive(raw, v, u) {
      TidiedBack(sorted, tidied, u, v);
      DirectedBack(raw, directed, sorted, u, v);
      if SeenFrom(graph[u], v) {
        var e :| e in graph[u] && e.target == v && e.backward;
        assert DirectedEdge(u, e) in tidied;
        var k :| 0 <= k < |tidied| && tidied[k] == DirectedEdge(u, e);
        assert Joins(tidied[k], u, v) && Open(tidied[k], false);
      }
      if HasDirection(tidied, u, v, false) {
        var k :| 0 <= k < |tidied| && Joins(tidied[k], u, v) && Open(tidied[k], false);
        assert tidied[k] == DirectedEdge(u, tidied[k].edge) && tidied[k] in tidied;
      }
    }
  }

  lemma TidiedBack(sorted: seq<DirectedEdge>, tidied: seq<DirectedEdge>, u: nat, v: nat)
    requires Tidies(sorted, |sorted|, tidied)
    ensures HasDirection(tidied, u, v, false) <==> u != v && HasDirection(sorted, u, v, false)
  {
    hide HasDirection;
    assert sorted[..|sorted|] == sorted;
  }

  lemma DirectedBack(raw: seq<RawEdge>, directed: seq<DirectedEdge>, sorted: seq<DirectedEdge>, u: nat, v: nat)
    requires SplitOf(raw, directed) && (forall d :: d in sorted <==> d in directed)
    ensures HasDirection(sorted, u, v, false) <==> CanDrive(raw, v, u)
  {
    if HasDirection(sorted, u, v, false) {
      var k :| 0 <= k < |sorted| && Joins(sorted[k], u, v) && Open(sorted[k], false);
      assert sorted[k] in directed;
      var x :| x in raw && x.weight != INVALID_EDGE_WEIGHT && Gives(x, sorted[k]);
      assert Drives(x, v, u);
    }
    if CanDrive(raw, v, u) {
      var x :| x in raw && Drives(x, v, u);
      var d := if x.source == v && x.target == u && x.forward then Entry(u, v, x, x.backward, x.forward)
               else Entry(u, v, x, x.forward, x.backward);
      assert Gives(x, d);
      assert d in sorted;
      var k :| 0 <= k < |sorted| && sorted[k] == d;
      assert Joins(sorted[k], u, v) && Open(sorted[k], false);
    }
  }

  lemma TidiedRoadIsOnDisk(raw: seq<RawEdge>, directed: seq<DirectedEdge>, sorted: seq<DirectedEdge>,
                           tidied: seq<DirectedEdge>, o: DirectedEdge)
    requires SplitOf(raw, directed) && (forall d :: d in sorted <==> d in directed)
    requires Tidies(sorted, |sorted|, tidied) && o in tidied && o.edge.forward
    ensures o.source != o.edge.target && OnDisk(raw, o.source, o.edge.target, o.edge.cost)
  {
    assert Open(o, true) && Priced(sorted, o, true);
    var k :| 0 <= k < |sorted| && Joins(sorted[k], o.source, o.edge.target) && Open(sorted[k], true)
             && sorted[k].edge.cost == o.edge.cost;
    assert sorted[k] in directed;
    EntryIsOnDisk(raw, directed, sorted[k]);
    var m :| 0 <= m < |tidied| && tidied[m] == o;
    assert HasDirection(tidied, o.source, o.edge.target, true);
  }

  lemma DiskRoadIsKept(raw: seq<RawEdge>, directed: seq<DirectedEdge>, sorted: seq<DirectedEdge>,
                       tidied: seq<DirectedEdge>, x: RawEdge, u: nat, v: nat)
    returns (o: DirectedEdge)
    requires SplitOf(raw, directed) && (forall d :: d in sorted <==> d in directed)
    requires Tidies(sorted, |sorted|, tidied) && x in raw && Drives(x, u, v) && u != v
    ensures o in tidied && o.source == u && o.edge.target == v && o.edge.forward
    ensures o.edge.cost.weight <= CostOf(x).weight && exists d :: d in directed && d.source == u
  {
    var d := OnDiskIsEntry(raw, directed, x, u, v);
    assert d in sorted;
    var k :| 0 <= k < |sorted| && sorted[k] == d;
    assert Kept(tidied, sorted[k]);
    o :| o in tidied && Joins(o, u, v) && Open(o, true) && o.edge.cost.weight <= d.edge.cost.weight;
  }

  lemma TidiedIsLightest(raw: seq<RawEdge>, directed: seq<DirectedEdge>, sorted: seq<DirectedEdge>,
                         tidied: seq<DirectedEdge>, graph: seq<seq<Edge>>)
    requires SplitOf(raw, directed) && OneWayOnDisk(raw) && (forall d :: d in sorted <==> d in directed)
    requires Tidies(sorted, |sorted|, tidied)
    requires forall u: nat, e :: u < |graph| ==> (e in graph[u] <==> DirectedEdge(u, e) in tidied)
    ensures OnlyLightest(raw, graph)
  {
    SplitIsOneWay(raw, directed, sorted);
    forall u: nat, e, x | u < |graph| && e in graph[u] && e.forward && x in raw && Drives(x, u, e.target)
      ensures (x.weight >= 1 ==> e.cost.weight <= x.weight) && (x.weight < 1 ==> e.cost.weight <= 1)
    {
      var o := DirectedEdge(u, e);
      assert o in tidied && Open(o, true) && Lightest(sorted, o, true);
      var d := OnDiskIsEntry(raw, directed, x, u, e.target);
      assert d in sorted;
      var k :| 0 <= k < |sorted| && sorted[k] == d;
    }
  }

  lemma TidiedFit(n: nat, directed: seq<DirectedEdge>, sorted: seq<DirectedEdge>, tidied: seq<DirectedEdge>)
    requires forall d :: d in directed ==> d.source < n && d.edge.target < n
    requires forall d :: d in sorted <==> d in directed
    requires Tidies(sorted, |sorted|, tidied)
    ensures forall o :: o in tidied ==> o.source < n && o.edge.target < n
  {
    forall o | o in tidied ensures o.source < n && o.edge.target < n {
      assert Placed(sorted, o);
      var k :| 0 <= k < |sorted| && Joins(sorted[k], o.source, o.edge.target);
      assert sorted[k] in directed;
    }
  }

  /** If the edges were seen from both ends, so are the roads of the graph. */
  lemma TidiedGraph(n: nat, directed: seq<DirectedEdge>, sorted: seq<DirectedEdge>, tidied: seq<DirectedEdge>,
                    graph: seq<seq<Edge>>)
    requires forall d :: d in directed ==> d.source < n && d.edge.target < n
    requires forall d :: d in directed ==> Opposite(d) in directed && d.edge.cost.weight >= 1
    requires forall d :: d in sorted <==> d in directed
    requires Tidies(sorted, |sorted|, tidied)
    requires |graph| == n && forall u: nat, e :: u < n ==> (e in graph[u] <==> DirectedEdge(u, e) in tidied)
    ensures TargetsFit(graph) && SeenBack(graph) && WeightsPositive(graph)
  {
    TidiedFit(n, directed, sorted, tidied);
    forall u, e | 0 <= u < |graph| && e in graph[u]
      ensures e.target < n && (e.forward ==> SeenFrom(graph[e.target], u))
    {
      var o := DirectedEdge(u, e);
      assert o in tidied;
      if e.forward {
        TidiedRoad(directed, sorted, tidied, o);
        var f :| f in tidied && Joins(f, e.target, u) && Open(f, false);
        assert f == DirectedEdge(e.target, f.edge);
      }
    }
    forall u, e | 0 <= u < |graph| && e in graph[u] && e.forward ensures e.cost.weight >= 1 {
      assert DirectedEdge(u, e) in tidied;
      TidiedRoad(directed, sorted, tidied, DirectedEdge(u, e));
    }
  }

  lemma TidiedRoad(directed: seq<DirectedEdge>, sorted: seq<DirectedEdge>, tidied: seq<DirectedEdge>, o: DirectedEdge)
    requires forall d :: d in directed ==> Opposite(d) in directed && d.edge.cost.weight >= 1
    requires forall d :: d in sorted <==> d in directed
    requires Tidies(sorted, |sorted|, tidied) && o in tidied && o.edge.forward
    ensures o.edge.cost.weight >= 1
    ensures exists f :: f in tidied && Joins(f, o.edge.target, o.source) && Open(f, false)
  {
    hide Kept, Lightest, OneWay, Placed;
    var s, t := o.source, o.edge.target;
    assert Open(o, true) && Priced(sorted, o, true);
    var k :| 0 <= k < |sorted| && Joins(sorted[k], s, t) && Open(sorted[k], true)
             && sorted[k].edge.cost.weight == o.edge.cost.weight;
    assert sorted[k] in directed;
    assert s != t by {
      var m :| 0 <= m < |tidied| && tidied[m] == o;
      assert HasDirection(tidied, s, t, true);
    }
    var back := Opposite(sorted[k]);
    assert back in sorted;
    var m :| 0 <= m < |sorted| && sorted[m] == back;
    assert sorted[..|sorted|] == sorted && HasDirection(sorted[..|sorted|], t, s, false);
    assert HasDirection(tidied, t, s, false);
    var f :| 0 <= f < |tidied| && Joins(tidied[f], t, s) && Open(tidied[f], false);
    assert tidied[f] in tidied;
  }
}
