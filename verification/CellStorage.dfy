/** The boundary lists of cells, as the cell storage collects them from the base graph. */
module CellStorages {
  import opened Typedefs
  import opened Walks
  import opened CellOverlay
  import opened CellCustomizer
  import opened EdgeReaders

  // ---- boundary nodes of one level

  ghost predicate OnBoundary(graph: seq<seq<Edge>>, cell: seq<nat>, v: nat)
    requires |cell| == |graph| && TargetsFit(graph) && v < |graph|
  {
    exists e :: e in graph[v] && cell[e.target] != cell[v]
  }

  ghost predicate LeadsInside(graph: seq<seq<Edge>>, cell: seq<nat>, v: nat)
    requires |cell| == |graph| && TargetsFit(graph) && v < |graph|
  {
    exists e :: e in graph[v] && cell[e.target] == cell[v] && e.forward
  }

  ghost predicate ComesFromInside(graph: seq<seq<Edge>>, cell: seq<nat>, v: nat)
    requires |cell| == |graph| && TargetsFit(graph) && v < |graph|
  {
    exists e :: e in graph[v] && cell[e.target] == cell[v] && e.backward
  }

  ghost function SourceNodes(graph: seq<seq<Edge>>, cell: seq<nat>): iset<nat>
    requires |cell| == |graph| && TargetsFit(graph)
  {
    iset v: nat | v < |graph| && OnBoundary(graph, cell, v) && LeadsInside(graph, cell, v)
  }

  /** A boundary node without edges inside its cell is kept as a destination nothing leads to. */
  ghost function DestinationNodes(graph: seq<seq<Edge>>, cell: seq<nat>): iset<nat>
    requires |cell| == |graph| && TargetsFit(graph)
  {
    iset v: nat | v < |graph| && OnBoundary(graph, cell, v)
        && (ComesFromInside(graph, cell, v) || !LeadsInside(graph, cell, v))
  }

  /** The lists name, cell by cell and in increasing order, exactly the nodes below `n` among `nodes`. */
  ghost predicate Names(lists: seq<seq<nat>>, cell: seq<nat>, nodes: iset<nat>, n: nat) {
    && n <= |cell|
    && (forall id: nat, v: nat {:trigger v in lists[id]} :: id < |lists| ==>
        (v in lists[id] <==> v < n && cell[v] == id && v in nodes))
    && (forall id: nat :: id < |lists| ==> Increasing(lists[id]))
  }

  ghost predicate Increasing(s: seq<nat>) {
    forall i, j :: 0 <= i < j < |s| ==> s[i] < s[j]
  }

  /** One look at the edges of a node. */
  method Classify(graph: seq<seq<Edge>>, cell: seq<nat>, node: nat)
    returns (boundary: bool, source: bool, destination: bool)
    requires |cell| == |graph| && TargetsFit(graph) && node < |graph|
    ensures boundary <==> OnBoundary(graph, cell, node)
    ensures source <==> LeadsInside(graph, cell, node)
    ensures destination <==> ComesFromInside(graph, cell, node)
  {
    boundary, source, destination := false, false, false;
    var edges := graph[node];
    for i := 0 to |edges|
      invariant boundary <==> exists e :: e in edges[..i] && cell[e.target] != cell[node]
      invariant source <==> exists e :: e in edges[..i] && cell[e.target] == cell[node] && e.forward
      invariant destination <==> exists e :: e in edges[..i] && cell[e.target] == cell[node] && e.backward
    {
      var e := edges[i];
      assert edges[..i + 1] == edges[..i] + [e];
      boundary := boundary || cell[e.target] != cell[node];
      source := source || (cell[e.target] == cell[node] && e.forward);
      destination := destination || (cell[e.target] == cell[node] && e.backward);
    }
    assert edges[..|edges|] == edges;
  }

  /**
   * The boundary lists of one level. The constructor collects pairs of cell and node and sorts them;
   * since nodes are visited in order, appending to the list of the cell gives the same lists.
   */
  method CollectBoundary(graph: seq<seq<Edge>>, cell: seq<nat>, cells: nat)
    returns (sources: seq<seq<nat>>, destinations: seq<seq<nat>>)
    requires |cell| == |graph| && TargetsFit(graph) && forall v :: 0 <= v < |graph| ==> cell[v] < cells
    ensures |sources| == |destinations| == cells
    ensures Names(sources, cell, SourceNodes(graph, cell), |graph|)
    ensures Names(destinations, cell, DestinationNodes(graph, cell), |graph|)
  {
    ghost var from, into := SourceNodes(graph, cell), DestinationNodes(graph, cell);
    sources, destinations := seq(cells, _ => []), seq(cells, _ => []);
    for node := 0 to |graph|
      invariant |sources| == |destinations| == cells
      invariant Names(sources, cell, from, node) && Names(destinations, cell, into, node)
    {
      var id := cell[node];
      var boundary, source, destination := Classify(graph, cell, node);
      assert node in from <==> boundary && source;
      assert node in into <==> boundary && (destination || !source);
      NameOne(sources, cell, from, node);
      NameOne(destinations, cell, into, node);
      hide SourceNodes, DestinationNodes, Names;
      if boundary {
        if source {
          sources := sources[id := sources[id] + [node]];
        }
        if destination {
          destinations := destinations[id := destinations[id] + [node]];
        }
        if !source && !destination {
          destinations := destinations[id := destinations[id] + [node]];
        }
      }
    }
  }

  lemma NameOne(lists: seq<seq<nat>>, cell: seq<nat>, nodes: iset<nat>, n: nat)
    requires n < |cell| && cell[n] < |lists| && Names(lists, cell, nodes, n)
    ensures Names(if n in nodes then lists[cell[n] := lists[cell[n]] + [n]] else lists, cell, nodes, n + 1)
  {
    var id := cell[n];
    forall i | 0 <= i < |lists[id]| ensures lists[id][i] < n {
      var v := lists[id][i];
      assert v in lists[id] <==> v < n && cell[v] == id && v in nodes;
    }
  }

  // ---- the lists serve customization

  /** The boundary lists of the input are those collected from `base` on every level. */
  ghost predicate StoredFrom(base: seq<seq<Edge>>, inp: Input)
    requires Shaped(inp) && |base| == inp.Nodes() && TargetsFit(base)
  {
    forall l :: 0 < l < inp.Levels() ==>
      && Names(inp.sources[l], inp.cell[l], SourceNodes(base, inp.cell[l]), |base|)
      && Names(inp.destinations[l], inp.cell[l], DestinationNodes(base, inp.cell[l]), |base|)
  }

  /** Every road is an edge of the base graph, perhaps with another cost. */
  ghost predicate RoadsAmong(base: seq<seq<Edge>>, inp: Input) {
    forall h :: h in Roads(inp) ==> IsRoad(base, h.from, h.to)
  }

  ghost predicate IsRoad(base: seq<seq<Edge>>, u: nat, v: nat) {
    u < |base| && v < |base| && exists e :: e in base[u] && e.target == v && e.forward
  }

  /** Both ends of a road see it. */
  lemma RoadSeen(base: seq<seq<Edge>>, cell: seq<nat>, u: nat, v: nat)
    requires SeenBack(base) && TargetsFit(base) && |cell| == |base| && IsRoad(base, u, v)
    ensures cell[u] != cell[v] ==> OnBoundary(base, cell, u) && OnBoundary(base, cell, v)
    ensures cell[u] == cell[v] ==> LeadsInside(base, cell, u) && ComesFromInside(base, cell, v)
  {
    var e :| e in base[u] && e.target == v && e.forward;
    assert SeenFrom(base[v], u);
  }

  /** What leaves a cell leaves the smaller cells in it. */
  lemma BoundaryBelow(base: seq<seq<Edge>>, inp: Input, l: nat, v: nat)
    requires Shaped(inp) && Nested(inp) && |base| == inp.Nodes() && TargetsFit(base) && 0 < l < inp.Levels() - 1
    requires v < |base|
    requires OnBoundary(base, inp.cell[l + 1], v)
    ensures OnBoundary(base, inp.cell[l], v)
  {
    var e :| e in base[v] && inp.cell[l + 1][e.target] != inp.cell[l + 1][v];
    assert !SameCell(inp, l + 1, e.target, v);
    assert !SameCell(inp, l, e.target, v);
  }

  lemma SourceMeans(base: seq<seq<Edge>>, inp: Input, l: nat, v: nat)
    requires Shaped(inp) && |base| == inp.Nodes() && TargetsFit(base) && StoredFrom(base, inp) && 0 < l < inp.Levels()
    requires v < |base|
    ensures IsSource(inp, l, v) <==> OnBoundary(base, inp.cell[l], v) && LeadsInside(base, inp.cell[l], v)
    ensures IsDestination(inp, l, v) <==>
              OnBoundary(base, inp.cell[l], v)
                  && (ComesFromInside(base, inp.cell[l], v) || !LeadsInside(base, inp.cell[l], v))
  {
    var id := inp.cell[l][v];
    assert v in inp.sources[l][id] <==> v in SourceNodes(base, inp.cell[l]);
    assert v in inp.destinations[l][id] <==> v in DestinationNodes(base, inp.cell[l]);
  }

  /** Lists collected from a base graph whose roads are seen at both ends miss nothing customization relies on. */
  lemma StorageCovers(base: seq<seq<Edge>>, inp: Input)
    requires Shaped(inp) && Nested(inp) && |base| == inp.Nodes() && TargetsFit(base) && SeenBack(base)
    requires StoredFrom(base, inp) && RoadsAmong(base, inp)
    ensures Covered(inp)
  {
    hide StoredFrom, Nested, OnBoundary, LeadsInside, ComesFromInside, IsSource, IsDestination;
    forall l: nat, h: Hop | 0 < l < inp.Levels() && h in Roads(inp) && SameCell(inp, l, h.from, h.to)
      ensures OnBoundary(base, inp.cell[l], h.from) ==> IsSource(inp, l, h.from)
      ensures OnBoundary(base, inp.cell[l], h.to) ==> IsDestination(inp, l, h.to)
    {
      RoadSeen(base, inp.cell[l], h.from, h.to);
      SourceMeans(base, inp, l, h.from);
      SourceMeans(base, inp, l, h.to);
    }
    forall l: nat, k: Hop | 0 < l < inp.Levels() && k in Roads(inp) && !SameCell(inp, l, k.from, k.to)
      ensures OnBoundary(base, inp.cell[l], k.from) && OnBoundary(base, inp.cell[l], k.to)
    {
      RoadSeen(base, inp.cell[l], k.from, k.to);
    }
    forall l: nat, v: nat | 0 < l < inp.Levels() - 1 && v < |base|
        && (IsSource(inp, l + 1, v) || IsDestination(inp, l + 1, v))
      ensures OnBoundary(base, inp.cell[l], v)
    {
      SourceMeans(base, inp, l + 1, v);
      BoundaryBelow(base, inp, l, v);
    }
  }

  /** And they name only nodes of their own cell; level 0 has no lists. */
  lemma StorageNamesOwnNodes(base: seq<seq<Edge>>, inp: Input)
    requires Shaped(inp) && |base| == inp.Nodes() && TargetsFit(base) && StoredFrom(base, inp)
    requires inp.Levels() > 0 ==>
            forall id :: 0 <= id < |inp.sources[0]| ==> inp.sources[0][id] == [] == inp.destinations[0][id]
    ensures ListsInCell(inp)
  {
    forall l, id, j | 0 <= l < |inp.sources| && 0 <= id < |inp.sources[l]| && 0 <= j < |inp.sources[l][id]|
      ensures IsSource(inp, l, inp.sources[l][id][j]) && inp.cell[l][inp.sources[l][id][j]] == id
    {
      NamedInOwnCell(inp.sources[l], inp.cell[l], SourceNodes(base, inp.cell[l]), |base|, id, j);
    }
    forall l, id, j | 0 <= l < |inp.destinations| && 0 <= id < |inp.destinations[l]|
        && 0 <= j < |inp.destinations[l][id]|
      ensures IsDestination(inp, l, inp.destinations[l][id][j]) && inp.cell[l][inp.destinations[l][id][j]] == id
    {
      NamedInOwnCell(inp.destinations[l], inp.cell[l], DestinationNodes(base, inp.cell[l]), |base|, id, j);
    }
  }

  lemma NamedInOwnCell(lists: seq<seq<nat>>, cell: seq<nat>, nodes: iset<nat>, n: nat, id: nat, j: nat)
    requires Names(lists, cell, nodes, n) && id < |lists| && j < |lists[id]|
    ensures lists[id][j] < |cell| && cell[lists[id][j]] == id
  {
    assert lists[id][j] in lists[id];
  }

  // ---- from the edges on disk to the input of customization

  /** The partition of `n` nodes: on each level every node has a cell, and cells lie inside cells of the next level. */
  ghost predicate IsPartition(cell: seq<seq<nat>>, counts: seq<nat>, n: nat) {
    && |cell| == |counts|
    && (forall l :: 0 <= l < |cell| ==> |cell[l]| == n)
    && (forall l, v :: 0 <= l < |cell| && 0 <= v < n ==> cell[l][v] < counts[l])
    && (forall l: nat, m: nat, u: nat, v: nat ::
        0 < l && m == l + 1 < |cell| && u < n && v < n && cell[l][u] == cell[l][v] ==>
        cell[m][u] == cell[m][v])
  }

  /** The lists of all levels; level 0 has cells but no lists. */
  method CollectAll(graph: seq<seq<Edge>>, cell: seq<seq<nat>>, counts: seq<nat>)
    returns (sources: seq<seq<seq<nat>>>, destinations: seq<seq<seq<nat>>>)
    requires TargetsFit(graph) && IsPartition(cell, counts, |graph|)
    ensures |sources| == |destinations| == |cell|
    ensures forall l :: 0 <= l < |cell| ==> |sources[l]| == |destinations[l]| == counts[l]
    ensures forall l :: 0 < l < |cell| ==> Names(sources[l], cell[l], SourceNodes(graph, cell[l]), |graph|)
    ensures forall l :: 0 < l < |cell| ==> Names(destinations[l], cell[l], DestinationNodes(graph, cell[l]), |graph|)
    ensures |cell| > 0 ==> forall id :: 0 <= id < counts[0] ==> sources[0][id] == [] == destinations[0][id]
  {
    hide Names, SourceNodes, DestinationNodes, TargetsFit;
    sources, destinations := [], [];
    for level := 0 to |cell|
      invariant |sources| == |destinations| == level
      invariant forall l :: 0 <= l < level ==> |sources[l]| == |destinations[l]| == counts[l]
      invariant forall l :: 0 < l < level ==> Names(sources[l], cell[l], SourceNodes(graph, cell[l]), |graph|)
      invariant forall l :: 0 < l < level ==> Names(destinations[l], cell[l], DestinationNodes(graph, cell[l]), |graph|)
      invariant level > 0 ==> forall id :: 0 <= id < counts[0] ==> sources[0][id] == [] == destinations[0][id]
    {
      if level == 0 {
        sources, destinations := [seq(counts[0], _ => [])], [seq(counts[0], _ => [])];
      } else {
        var from, into := CollectBoundary(graph, cell[level], counts[level]);
        sources, destinations := sources + [from], destinations + [into];
      }
    }
  }

  /** A graph with positive weights in which roads are seen from both ends, and its lists, are fit for customization. */
  lemma StoredIsFit(inp: Input)
    requires Shaped(inp) && Nested(inp) && TargetsFit(inp.graph) && SeenBack(inp.graph) && WeightsPositive(inp.graph)
    requires StoredFrom(inp.graph, inp)
    requires inp.Levels() > 0 ==>
            forall id :: 0 <= id < |inp.sources[0]| ==> inp.sources[0][id] == [] == inp.destinations[0][id]
    ensures Valid(inp) && ListsInCell(inp)
  {
    assert RoadsAmong(inp.graph, inp);
    StorageCovers(inp.graph, inp);
    StorageNamesOwnNodes(inp.graph, inp);
    hide Shaped, Nested, Covered, StoredFrom;
    assert Positive(Roads(inp));
  }

  /** Whatever is on disk, what reading and collecting make of it is ready for customization if its weights fit. */
  method PrepareInput(n: nat, raw: seq<RawEdge>, cell: seq<seq<nat>>, counts: seq<nat>, allowed: seq<bool>)
    returns (inp: Input)
    requires forall k :: 0 <= k < |raw| ==> raw[k].source < n && raw[k].target < n
    requires IsPartition(cell, counts, n) && |allowed| == n
    ensures inp.Nodes() == n && inp.cell == cell && inp.allowed == allowed
    ensures Valid(inp) && ListsInCell(inp)
    ensures Ready(inp) <==> WeightsFit(inp)
    ensures RoadsOf(raw, inp.graph) && BackRoadsOf(raw, inp.graph)
    ensures OneWayOnDisk(raw) ==> OnlyLightest(raw, inp.graph)
    ensures StoredFrom(inp.graph, inp)
  {
    var graph := LoadGraph(n, raw);
    var sources, destinations := CollectAll(graph, cell, counts);
    inp := Input(graph, cell, sources, destinations, allowed);
    hide Names, SourceNodes, DestinationNodes, SeenBack, WeightsPositive, RoadsOf, BackRoadsOf;
    hide OnlyLightest, OneWayOnDisk;
    assert Shaped(inp) by { assert forall u, e :: 0 <= u < n && 0 <= e < |graph[u]| ==> graph[u][e] in graph[u]; }
    assert Nested(inp);
    StoredIsFit(inp);
  }

  // ---- what the matrices say about the edges on disk

  /** The edges on disk between allowed nodes of one cell, as they can be driven. */
  ghost function DiskInCell(raw: seq<RawEdge>, cell: seq<seq<nat>>, allowed: seq<bool>, l: nat): iset<Hop> {
    iset h: Hop | OnDisk(raw, h.from, h.to, h.cost) && h.from < |allowed| && h.to < |allowed|
        && allowed[h.from] && allowed[h.to]
        && l < |cell| && h.from < |cell[l]| && h.to < |cell[l]| && cell[l][h.from] == cell[l][h.to]
  }

  /** No least weight along the edges on disk collides with the INVALID weight. */
  ghost predicate WeightsFitOnDisk(raw: seq<RawEdge>, cell: seq<seq<nat>>, allowed: seq<bool>) {
    forall l: nat, s: nat, d: nat, w ::
      LeastWeight(DiskInCell(raw, cell, allowed, l), s, d, w) ==> w < INVALID_EDGE_WEIGHT
  }

  lemma DiskIsPositive(raw: seq<RawEdge>, cell: seq<seq<nat>>, allowed: seq<bool>, l: nat)
    ensures Positive(DiskInCell(raw, cell, allowed, l))
  {}

  /** Inside every cell the graph keeps the lightest of the edges on disk. */
  lemma CellKeepsLightest(raw: seq<RawEdge>, inp: Input, l: nat)
    requires Shaped(inp) && RoadsOf(raw, inp.graph)
    ensures KeepsLightest(DiskInCell(raw, inp.cell, inp.allowed, l), InCell(inp, l))
  {
    var disk, arcs := DiskInCell(raw, inp.cell, inp.allowed, l), InCell(inp, l);
    DiskIsPositive(raw, inp.cell, inp.allowed, l);
    forall h | h in disk && h.from != h.to ensures HasLighter(arcs, h) {
      var x :| x in raw && Drives(x, h.from, h.to) && Costs(x, h.cost);
      assert HasRoad(inp.graph[h.from], h.to, h.cost.weight);
      var e :| e in inp.graph[h.from] && e.target == h.to && e.forward && e.cost.weight <= h.cost.weight;
      assert Hop(h.from, h.to, e.cost) in arcs;
    }
  }

  /** If least weights fit on disk, they fit in the graph. */
  lemma FitsAsOnDisk(raw: seq<RawEdge>, inp: Input)
    requires Shaped(inp) && RoadsOf(raw, inp.graph) && WeightsFitOnDisk(raw, inp.cell, inp.allowed)
    ensures WeightsFit(inp)
  {
    forall l: nat, s: nat, d: nat, c: Cost | Least(InCell(inp, l), s, d, c) ensures c.weight < INVALID_EDGE_WEIGHT {
      CellKeepsLightest(raw, inp, l);
      hide KeepsLightest, DiskInCell, InCell, Shaped, RoadsOf, Least, LeastWeight;
      LeastIsLeastWeight(InCell(inp, l), s, d, c);
      LightestIsKept(DiskInCell(raw, inp.cell, inp.allowed, l), InCell(inp, l), s, d, c.weight);
    }
  }

  /** A weight in the matrix is the least over the edges on disk, with the duration and distance of such a walk. */
  ghost predicate DiskEntry(raw: seq<RawEdge>, inp: Input, l: nat, s: nat, d: nat, weight: int, duration: int,
        distance: real) {
    var disk := DiskInCell(raw, inp.cell, inp.allowed, l);
    if s < |inp.allowed| && inp.allowed[s] && Connected(disk, s, d) then
      && weight != INVALID_EDGE_WEIGHT && LeastWeight(disk, s, d, weight)
      && Attains(disk, s, d, Cost(weight, duration, distance))
    else weight == INVALID_EDGE_WEIGHT && duration == MAXIMAL_EDGE_DURATION && distance == INVALID_EDGE_DISTANCE
  }

  lemma EntryIsOfDisk(raw: seq<RawEdge>, inp: Input, l: nat, s: nat, d: nat, weight: int, duration: int, distance: real)
    requires Shaped(inp) && RoadsOf(raw, inp.graph) && EntryOk(inp, l, s, d, weight, duration, distance)
    ensures DiskEntry(raw, inp, l, s, d, weight, duration, distance)
  {
    var disk, arcs := DiskInCell(raw, inp.cell, inp.allowed, l), InCell(inp, l);
    CellKeepsLightest(raw, inp, l);
    LightestIsKept(disk, arcs, s, d, weight);
    assert arcs <= disk;
    hide Shaped, RoadsOf, DiskInCell, InCell, KeepsLightest;
    if s < |inp.allowed| && inp.allowed[s] && Connected(arcs, s, d) {
      var c := Cost(weight, duration, distance);
      LeastIsLeastWeight(arcs, s, d, c);
      var p :| Walk(arcs, s, p, d) && Total(p) == c;
      WalkMonotone(arcs, disk, s, p, d);
    }
  }

  /** The row of `s` on level `l` tells, per destination, the least weight along the edges on disk. */
  ghost predicate DiskRow(raw: seq<RawEdge>, inp: Input, l: nat, s: nat, row: Row) {
    var destinations := Destinations(inp, l, s);
    && Sized(row, |destinations|)
    && forall j :: 0 <= j < |destinations| ==>
        DiskEntry(raw, inp, l, s, destinations[j], row.weights[j], row.durations[j], row.distances[j])
  }

  lemma RowIsOfDisk(raw: seq<RawEdge>, inp: Input, l: nat, s: nat, row: Row)
    requires Shaped(inp) && RoadsOf(raw, inp.graph) && RowOk(inp, l, s, row)
    ensures DiskRow(raw, inp, l, s, row)
  {
    var destinations := Destinations(inp, l, s);
    hide EntryOk, DiskEntry, Shaped, RoadsOf;
    forall j | 0 <= j < |destinations|
      ensures DiskEntry(raw, inp, l, s, destinations[j], row.weights[j], row.durations[j], row.distances[j])
    {
      EntryIsOfDisk(raw, inp, l, s, destinations[j], row.weights[j], row.durations[j], row.distances[j]);
    }
  }

  /**
   * From disk to matrix: whatever edges are read, every entry of every level is the least weight of
   * driving along them through allowed nodes of the cell, or INVALID if that is impossible.
   */
  method CustomizeEdges(n: nat, raw: seq<RawEdge>, cell: seq<seq<nat>>, counts: seq<nat>, allowed: seq<bool>)
    returns (inp: Input, metric: CellMetric)
    requires forall k :: 0 <= k < |raw| ==> raw[k].source < n && raw[k].target < n
    requires IsPartition(cell, counts, n) && |allowed| == n && WeightsFitOnDisk(raw, cell, allowed)
    ensures inp.Nodes() == n && inp.cell == cell && inp.allowed == allowed && Valid(inp)
    ensures RoadsOf(raw, inp.graph) && StoredFrom(inp.graph, inp)
    ensures forall l: nat, s: nat :: 0 < l < inp.Levels() && IsSource(inp, l, s) ==>
              (l, s) in metric.rows && DiskRow(raw, inp, l, s, metric.rows[(l, s)])
  {
    inp := PrepareInput(n, raw, cell, counts, allowed);
    FitsAsOnDisk(raw, inp);
    metric := new CellMetric(inp);
    Customize(inp, metric);
    hide RoadsOf, BackRoadsOf, StoredFrom, IsSource, RowOk, DiskRow, OneWayOnDisk, OnlyLightest, WeightsFitOnDisk;
    forall l: nat, s: nat | 0 < l < inp.Levels() && IsSource(inp, l, s)
      ensures (l, s) in metric.rows && DiskRow(raw, inp, l, s, metric.rows[(l, s)])
    {
      assert LevelOk(inp, metric.rows, l);
      RowIsOfDisk(raw, inp, l, s, metric.rows[(l, s)]);
    }
  }
}
