/** Customization of multi-level cells: one early-stopping search per source, level by level. */
module CellCustomizer {
  import opened FiniteSets
  import opened Typedefs
  import opened Walks
  import opened CellSearch
  import opened CellOverlay
  import opened QueryHeaps

  /** One matrix row, as three parallel vectors over the destinations of the cell. */
  datatype Row = Row(weights: seq<int>, durations: seq<int>, distances: seq<real>)

  function InvalidRow(n: nat): Row {
    Row(seq(n, _ => INVALID_EDGE_WEIGHT), seq(n, _ => MAXIMAL_EDGE_DURATION), seq(n, _ => INVALID_EDGE_DISTANCE))
  }

  function Destinations(inp: Input, l: nat, v: nat): seq<nat> {
    if l < |inp.destinations| && l < |inp.cell| && v < |inp.cell[l]| && inp.cell[l][v] < |inp.destinations[l]|
    then inp.destinations[l][inp.cell[l][v]] else []
  }

  ghost predicate Sized(row: Row, n: nat) {
    |row.weights| == |row.durations| == |row.distances| == n
  }

  /** An entry is the least cost of a walk of allowed nodes inside the cell, or INVALID if there is none. */
  ghost predicate EntryOk(inp: Input, l: nat, s: nat, d: nat, weight: int, duration: int, distance: real) {
    if s < |inp.allowed| && inp.allowed[s] && Connected(InCell(inp, l), s, d)
    then weight != INVALID_EDGE_WEIGHT && Least(InCell(inp, l), s, d, Cost(weight, duration, distance))
    else weight == INVALID_EDGE_WEIGHT && duration == MAXIMAL_EDGE_DURATION && distance == INVALID_EDGE_DISTANCE
  }

  ghost predicate RowOk(inp: Input, l: nat, s: nat, row: Row) {
    var destinations := Destinations(inp, l, s);
    && Sized(row, |destinations|)
    && forall j :: 0 <= j < |destinations| ==>
        EntryOk(inp, l, s, destinations[j], row.weights[j], row.durations[j], row.distances[j])
  }

  /** All rows of level `l` are right. */
  ghost predicate LevelOk(inp: Input, rows: map<(nat, nat), Row>, l: nat) {
    && (forall s: nat :: IsSource(inp, l, s) ==> (l, s) in rows && RowOk(inp, l, s, rows[(l, s)]))
    && (forall s: nat :: (l, s) in rows ==> IsSource(inp, l, s))
  }

  /** All rows of level `l` are as `MakeMetric` left them. */
  ghost predicate LevelFresh(inp: Input, rows: map<(nat, nat), Row>, l: nat) {
    && (forall s: nat :: IsSource(inp, l, s) ==>
        (l, s) in rows && rows[(l, s)] == InvalidRow(|Destinations(inp, l, s)|))
    && (forall s: nat :: (l, s) in rows ==> IsSource(inp, l, s))
  }

  /** No least cost collides with the INVALID weight. */
  ghost predicate WeightsFit(inp: Input) {
    forall l: nat, s: nat, d: nat, c: Cost :: Least(InCell(inp, l), s, d, c) ==> c.weight < INVALID_EDGE_WEIGHT
  }

  /** Boundary lists name only nodes of their own cell. */
  ghost predicate ListsInCell(inp: Input) {
    && (forall l, id, j :: 0 <= l < |inp.sources| && 0 <= id < |inp.sources[l]| && 0 <= j < |inp.sources[l][id]|
          ==> IsSource(inp, l, inp.sources[l][id][j]) && inp.cell[l][inp.sources[l][id][j]] == id)
    && (forall l, id, j ::
        0 <= l < |inp.destinations| && 0 <= id < |inp.destinations[l]| && 0 <= j < |inp.destinations[l][id]| ==>
        IsDestination(inp, l, inp.destinations[l][id][j]) && inp.cell[l][inp.destinations[l][id][j]] == id)
  }

  ghost predicate Ready(inp: Input) {
    Valid(inp) && ListsInCell(inp) && WeightsFit(inp)
  }

  lemma DestinationFacts(inp: Input, l: nat, s: nat, j: nat)
    requires ListsInCell(inp) && j < |Destinations(inp, l, s)|
    ensures IsDestination(inp, l, Destinations(inp, l, s)[j]) && SameCell(inp, l, s, Destinations(inp, l, s)[j])
  {}

  lemma MovesAreAllowed(inp: Input, l: nat, u: nat, p: seq<Hop>, v: nat)
    requires Walk(InCell(inp, l), u, p, v) && u != v
    ensures u < |inp.allowed| && v < |inp.allowed| && inp.allowed[u] && inp.allowed[v]
  {
    FirstHop(InCell(inp, l), u, p, v);
  }

  /** Correct rows give least costs to every connected pair, as the next level's search needs. */
  lemma RowsSolve(inp: Input, rows: map<(nat, nat), Row>, l: nat)
    requires LevelOk(inp, rows, l)
    ensures Solved(inp, l)
  {
    forall a: nat, b: nat | a != b && IsSource(inp, l, a) && IsDestination(inp, l, b) && SameCell(inp, l, a, b)
        && Connected(InCell(inp, l), a, b)
      ensures exists c :: Least(InCell(inp, l), a, b, c)
    {
      var destinations := Destinations(inp, l, a);
      var j :| 0 <= j < |destinations| && destinations[j] == b;
      var row := rows[(l, a)];
      assert EntryOk(inp, l, a, destinations[j], row.weights[j], row.durations[j], row.distances[j]);
      var p :| Walk(InCell(inp, l), a, p, b);
      MovesAreAllowed(inp, l, a, p, b);
      assert Least(InCell(inp, l), a, b, Cost(row.weights[j], row.durations[j], row.distances[j]));
    }
  }

  // ---- one search

  /** Where the search of `source` on level `l` stands: `todo` are arcs of the settled node being relaxed. */
  ghost predicate Searching(inp: Input, l: nat, source: nat, heap: QueryHeap, todo: iset<Hop>)
    reads heap
  {
    && heap.Valid() && |heap.positions| == inp.Nodes()
    && SearchInv(Overlay(inp, l), source, heap.labels, heap.open, todo)
  }

  /** `node` is settled and no settled node is heavier. */
  ghost predicate Current(heap: QueryHeap, node: nat)
    reads heap
  {
    && Settled(heap.labels, heap.open, node)
    && forall z :: Settled(heap.labels, heap.open, z) ==> heap.labels[z].cost.weight <= heap.labels[node].cost.weight
  }

  /** Insert, or decrease the key when the triple is lexicographically smaller. */
  method InsertOrDecrease(heap: QueryHeap, to: nat, cost: Cost, fromClique: bool)
    requires heap.Valid() && to < |heap.positions|
    requires Settled(heap.labels, heap.open, to) ==> !Less(cost, heap.labels[to].cost)
    modifies heap
    ensures heap.Valid() && |heap.positions| == old(|heap.positions|)
    ensures heap.labels == Improve(old(heap.labels), to, cost, fromClique)
    ensures heap.open == Opened(old(heap.labels), old(heap.open), to)
  {
    if !heap.WasInserted(to) {
      heap.Insert(to, cost.weight, fromClique, cost.duration, cost.distance);
    } else {
      var known := heap.GetHeapNode(to);
      if Less(cost, Cost(known.weight, known.duration, known.distance)) {
        heap.DecreaseKey(to, cost.weight);
        heap.SetData(to, fromClique, cost.duration, cost.distance);
      }
    }
  }

  /** Relaxes one arc of the overlay out of the current node, or an empty row entry from it to itself. */
  method RelaxArcTo(inp: Input, l: nat, ghost source: nat, heap: QueryHeap, ghost todo: iset<Hop>, node: nat, to: nat,
        cost: Cost, reached: Cost, fromClique: bool)
    requires Searching(inp, l, source, heap, todo) && Current(heap, node) && heap.labels[node].cost == reached
    requires to < inp.Nodes()
    requires Hop(node, to, cost) in (if fromClique then Clique(inp, l) else Border(inp, l))
            || (to == node && cost == ZERO)
    modifies heap
    ensures Searching(inp, l, source, heap, todo - iset{Hop(node, to, cost)}) && Current(heap, node)
    ensures heap.labels[node] == old(heap.labels[node])
    ensures heap.labels.Keys - heap.open == old(heap.labels.Keys - heap.open)
  {
    hide SearchInv, Clique, Border;
    ghost var h := Hop(node, to, cost);
    ghost var net := Overlay(inp, l);
    if to == node && cost == ZERO {
      StayPut(inp, l, source, heap.labels, heap.open, todo, node, h, fromClique);
    } else {
      UnfoldOverlay(inp, l, source, heap.labels, heap.open, todo);
      hide Good;
      SettledNotImproved(net, heap.labels, heap.open, node, h);
      RelaxArc(net, source, heap.labels, heap.open, todo, node, h, fromClique);
    }
    hide Overlay, Arcs;
    SettledStay(heap.labels, heap.open, to, Add(reached, cost), fromClique);
    hide Settled, Improve, Opened;
    InsertOrDecrease(heap, to, Add(reached, cost), fromClique);
  }

  lemma StayPut(inp: Input, l: nat, source: nat, labels: map<nat, Label>, open: set<nat>, todo: iset<Hop>, node: nat,
        h: Hop, fromClique: bool)
    requires SearchInv(Overlay(inp, l), source, labels, open, todo) && node in labels && h == Hop(node, node, ZERO)
    ensures Improve(labels, node, Add(labels[node].cost, ZERO), fromClique) == labels
    ensures Opened(labels, open, node) == open
    ensures SearchInv(Overlay(inp, l), source, labels, open, todo - iset{h})
  {
    hide Overlay, Triangle;
    assert h !in Arcs(Overlay(inp, l));
  }

  lemma SettledStay(labels: map<nat, Label>, open: set<nat>, to: nat, cost: Cost, fromClique: bool)
    requires open <= labels.Keys
    ensures Improve(labels, to, cost, fromClique).Keys - Opened(labels, open, to) == labels.Keys - open
  {}

  lemma UnfoldOverlay(inp: Input, l: nat, source: nat, labels: map<nat, Label>, open: set<nat>, todo: iset<Hop>)
    requires SearchInv(Overlay(inp, l), source, labels, open, todo)
    ensures Good(Overlay(inp, l)) && Overlay(inp, l).clique == Clique(inp, l)
    ensures Overlay(inp, l).direct == Border(inp, l)
  {}

  /** What row entry `j` of a source on the level below says about the clique arcs to that destination. */
  lemma CliqueEntry(inp: Input, l: nat, node: nat, row: Row, j: nat)
    requires Ready(inp) && l > 1 && RowOk(inp, l - 1, node, row) && IsSource(inp, l - 1, node)
    requires node < |inp.allowed| && inp.allowed[node] && j < |Destinations(inp, l - 1, node)|
    ensures var to := Destinations(inp, l - 1, node)[j];
            var cost := Cost(row.weights[j], row.durations[j], row.distances[j]);
            if row.weights[j] == INVALID_EDGE_WEIGHT then
              forall h :: h in Clique(inp, l) && h.from == node ==> h.to != to
            else
              && to < |inp.allowed| && inp.allowed[to]
              && (to == node ==> cost == ZERO)
              && (to != node ==> Hop(node, to, cost) in Clique(inp, l))
              && (forall h :: h in Clique(inp, l) && h.from == node && h.to == to ==> h == Hop(node, to, cost))
  {
    var destinations := Destinations(inp, l - 1, node);
    var to := destinations[j];
    var cost := Cost(row.weights[j], row.durations[j], row.distances[j]);
    var arcs := InCell(inp, l - 1);
    assert EntryOk(inp, l - 1, node, to, row.weights[j], row.durations[j], row.distances[j]);
    DestinationFacts(inp, l - 1, node, j);
    hide Ready, RowOk, Valid, ListsInCell;
    forall h | h in Clique(inp, l) && h.from == node && h.to == to
      ensures row.weights[j] != INVALID_EDGE_WEIGHT && h == Hop(node, to, cost)
    {
      var q :| Walk(arcs, node, q, to) && Total(q) == h.cost;
      LeastUnique(arcs, node, to, cost, h.cost);
    }
    if row.weights[j] != INVALID_EDGE_WEIGHT {
      var p :| Walk(arcs, node, p, to);
      if to == node {
        PositiveOf(inp, l - 1);
        LeastToSelf(arcs, node, cost);
      } else {
        MovesAreAllowed(inp, l - 1, node, p, to);
      }
    }
  }

  lemma PositiveOf(inp: Input, l: nat)
    requires Ready(inp)
    ensures Positive(InCell(inp, l))
  {
    hide WeightsFit, ListsInCell, Covered, Nested, Shaped;
  }

  lemma UseRow(inp: Input, l: nat, s: nat, row: Row)
    requires RowOk(inp, l, s, row)
    ensures Sized(row, |Destinations(inp, l, s)|)
  {}

  /** The clique half of `RelaxNode`: scans the row of `node` on the level below. */
  method RelaxClique(inp: Input, rows: map<(nat, nat), Row>, l: nat, ghost source: nat, heap: QueryHeap, node: nat,
        reached: Cost)
    returns (ghost todo: iset<Hop>)
    requires Ready(inp) && 1 < l < inp.Levels() && LevelOk(inp, rows, l - 1)
    requires node < inp.Nodes() == |inp.allowed| && inp.allowed[node]
    requires Searching(inp, l, source, heap, ArcsFrom(Overlay(inp, l), node)) && Current(heap, node)
    requires heap.labels[node].cost == reached
    modifies heap
    ensures Searching(inp, l, source, heap, todo) && Current(heap, node)
    ensures heap.labels[node] == old(heap.labels[node])
    ensures heap.labels.Keys - heap.open == old(heap.labels.Keys - heap.open)
    ensures todo <= ArcsFrom(Overlay(inp, l), node) && todo !! Clique(inp, l)
  {
    hide Ready, Searching, Overlay, Clique;
    todo := ArcsFrom(Overlay(inp, l), node);
    var destinations := Destinations(inp, l - 1, node);
    var row := if (l - 1, node) in rows then rows[(l - 1, node)] else Row([], [], []);
    ghost var isSource := IsSource(inp, l - 1, node);
    assert isSource ==> RowOk(inp, l - 1, node, row);
    assert !isSource ==> row == Row([], [], []);
    hide LevelOk, RowOk;
    var destination, duration, distance := 0, 0, 0;
    for i := 0 to |row.weights|
      invariant destination == duration == distance == i
      invariant Searching(inp, l, source, heap, todo) && Current(heap, node)
      invariant heap.labels[node] == old(heap.labels[node])
      invariant heap.labels.Keys - heap.open == old(heap.labels.Keys - heap.open)
      invariant todo <= ArcsFrom(Overlay(inp, l), node)
      invariant forall h :: h in todo && h in Clique(inp, l) ==> h.to !in destinations[..i]
    {
      UseRow(inp, l - 1, node, row);
      CliqueEntry(inp, l, node, row, i);
      assert destinations[..i + 1] == destinations[..i] + [destinations[i]];
      if row.weights[i] != INVALID_EDGE_WEIGHT {
        var to := destinations[destination];
        if !inp.allowed[to] {
          continue;
        }
        var cost := Cost(row.weights[i], row.durations[duration], row.distances[distance]);
        RelaxArcTo(inp, l, source, heap, todo, node, to, cost, reached, true);
        todo := todo - iset{Hop(node, to, cost)};
      }
      destination, duration, distance := destination + 1, duration + 1, distance + 1;
    }
    if isSource {
      UseRow(inp, l - 1, node, row);
      assert destinations[..|row.weights|] == destinations;
    }
    forall h | h in todo && h in Clique(inp, l) ensures false {
      CliqueEnds(inp, l, h);
    }
  }

  lemma CliqueEnds(inp: Input, l: nat, h: Hop)
    requires h in Clique(inp, l)
    ensures l > 1 && IsSource(inp, l - 1, h.from) && h.to in Destinations(inp, l - 1, h.from)
  {}

  /** The edge half of `RelaxNode`: edges inside the cell that leave the cell of the level below. */
  method RelaxEdges(inp: Input, l: nat, ghost source: nat, heap: QueryHeap, ghost before: iset<Hop>, node: nat,
        reached: Cost)
    requires Shaped(inp) && 0 < l < inp.Levels()
    requires node < inp.Nodes() && inp.allowed[node]
    requires Searching(inp, l, source, heap, before) && Current(heap, node) && heap.labels[node].cost == reached
    requires before <= ArcsFrom(Overlay(inp, l), node) && before !! Clique(inp, l)
    modifies heap
    ensures Searching(inp, l, source, heap, iset{})
    ensures heap.labels.Keys - heap.open == old(heap.labels.Keys - heap.open)
  {
    hide Searching, Clique, Roads, InCell;
    ghost var todo := before;
    var edges := inp.graph[node];
    for e := 0 to |edges|
      invariant Searching(inp, l, source, heap, todo) && Current(heap, node)
      invariant heap.labels[node].cost == reached && heap.labels.Keys - heap.open == old(heap.labels.Keys - heap.open)
      invariant todo <= before
      invariant forall i :: 0 <= i < e && edges[i].forward ==> Hop(node, edges[i].target, edges[i].cost) !in todo
    {
      var edge := edges[e];
      var to := edge.target;
      BorderEdge(inp, l, node, edge);
      // GetInternalEdgeRange yields the edges that stay in the cell of this level
      if !SameCell(inp, l, node, to) || !inp.allowed[to] {
        continue;
      }
      if edge.forward && (l == 1 || !SameCell(inp, l - 1, node, to)) {
        RelaxArcTo(inp, l, source, heap, todo, node, to, edge.cost, reached, false);
        todo := todo - iset{Hop(node, to, edge.cost)};
      }
    }
    forall h | h in todo ensures false {
      BorderHasEdge(inp, l, node, h);
    }
    assert todo == iset{};
  }

  lemma BorderEdge(inp: Input, l: nat, node: nat, edge: Edge)
    requires Shaped(inp) && 0 < l < inp.Levels() && node < inp.Nodes() && inp.allowed[node] && edge in inp.graph[node]
    ensures edge.target < inp.Nodes()
    ensures edge.forward ==> (Hop(node, edge.target, edge.cost) in Border(inp, l) <==>
              SameCell(inp, l, node, edge.target) && inp.allowed[edge.target]
                  && (l == 1 || !SameCell(inp, l - 1, node, edge.target)))
  {}

  lemma BorderHasEdge(inp: Input, l: nat, node: nat, h: Hop)
    requires h in ArcsFrom(Overlay(inp, l), node) && h !in Clique(inp, l) && node < inp.Nodes()
    ensures h in Border(inp, l)
    ensures exists i ::
            0 <= i < |inp.graph[node]| && inp.graph[node][i].forward
            && h == Hop(node, inp.graph[node][i].target, inp.graph[node][i].cost)
  {
    hide Clique;
    assert h in Roads(inp);
    var e :| e in inp.graph[h.from] && e.forward && e.target == h.to && e.cost == h.cost;
    var i :| 0 <= i < |inp.graph[node]| && inp.graph[node][i] == e;
  }

  method RelaxNode(inp: Input, rows: map<(nat, nat), Row>, l: nat, ghost source: nat, heap: QueryHeap, node: nat,
        reached: Cost)
    requires Ready(inp) && 0 < l < inp.Levels() && (l > 1 ==> LevelOk(inp, rows, l - 1))
    requires node < inp.Nodes() == |inp.allowed| && inp.allowed[node]
    requires Searching(inp, l, source, heap, ArcsFrom(Overlay(inp, l), node)) && Current(heap, node)
    requires heap.labels[node].cost == reached
    modifies heap
    ensures Searching(inp, l, source, heap, iset{})
    ensures heap.labels.Keys - heap.open == old(heap.labels.Keys - heap.open)
  {
    ShapedOf(inp);
    hide Ready, Shaped, SearchInv, Clique, LevelOk;
    ghost var todo := ArcsFrom(Overlay(inp, l), node);
    if l != 1 {
      if !heap.GetHeapNode(node).fromClique {
        todo := RelaxClique(inp, rows, l, source, heap, node, reached);
      } else {
        SkipClique(Overlay(inp, l), source, heap.labels, heap.open, todo, node);
        todo := todo - Clique(inp, l);
      }
    } else {
      NoClique(inp);
    }
    RelaxEdges(inp, l, source, heap, todo, node, reached);
  }

  lemma NoClique(inp: Input)
    ensures Clique(inp, 1) == iset{}
  {}

  lemma ShapedOf(inp: Input)
    requires Ready(inp)
    ensures Shaped(inp)
  {}

  // ---- one source: search, then fill its row

  /** A node labelled by the search is allowed. */
  lemma LabelledIsAllowed(inp: Input, l: nat, source: nat, labels: map<nat, Label>, open: set<nat>, v: nat)
    requires SearchInv(Overlay(inp, l), source, labels, open, iset{}) && v in labels
    requires source < |inp.allowed| && inp.allowed[source]
    ensures v < |inp.allowed| && inp.allowed[v]
  {
    hide Good, AllRelaxed, Ordered, Parented, Started;
    assert Attains(Arcs(Overlay(inp, l)), source, v, labels[v].cost);
    var p :| Walk(Arcs(Overlay(inp, l)), source, p, v) && Total(p) == labels[v].cost;
    if p != [] {
      var h := p[|p| - 1];
      assert h in Arcs(Overlay(inp, l)) && h.to == v;
      if h in Clique(inp, l) {
        var q :| Walk(InCell(inp, l - 1), h.from, q, h.to) && Total(q) == h.cost;
        MovesAreAllowed(inp, l - 1, h.from, q, h.to);
      }
    }
  }

  /** What the finished search knows about one destination. */
  ghost predicate Answered(inp: Input, l: nat, source: nat, labels: map<nat, Label>, d: nat) {
    if d in labels then Least(InCell(inp, l), source, d, labels[d].cost) else !Connected(InCell(inp, l), source, d)
  }

  lemma DestinationAnswered(inp: Input, l: nat, source: nat, labels: map<nat, Label>, open: set<nat>, d: nat)
    requires Ready(inp) && 0 < l < inp.Levels() && (l > 1 ==> Solved(inp, l - 1))
    requires SearchInv(Overlay(inp, l), source, labels, open, iset{})
    requires source < |inp.allowed| && inp.allowed[source] && IsSource(inp, l, source) && IsDestination(inp, l, d)
    requires d < |inp.allowed| && inp.allowed[d] ==> open == {} || Settled(labels, open, d)
    ensures Answered(inp, l, source, labels, d)
  {
    hide ListsInCell, WeightsFit, Valid, Solved, SearchInv;
    if d in labels {
      LabelledIsAllowed(inp, l, source, labels, open, d);
      SettledIsLeast(Overlay(inp, l), source, labels, open, d);
      OverlayKeepsLeast(inp, l, source, d, labels[d].cost);
    } else if d < |inp.allowed| && inp.allowed[d] {
      UnlabelledIsUnreachable(Overlay(inp, l), source, labels, d);
      OverlayKeepsLeast(inp, l, source, d, ZERO);
    } else {
      forall p | Walk(InCell(inp, l), source, p, d) ensures false {
        MovesAreAllowed(inp, l, source, p, d);
      }
    }
  }

  /** The search of one source: stops when the heap is empty or all allowed destinations are settled. */
  method Search(inp: Input, rows: map<(nat, nat), Row>, l: nat, heap: QueryHeap, source: nat)
    requires Ready(inp) && 0 < l < inp.Levels() && (l > 1 ==> LevelOk(inp, rows, l - 1))
    requires source < inp.Nodes() == |inp.allowed| && inp.allowed[source] && IsSource(inp, l, source)
    requires heap.Valid() && |heap.positions| == inp.Nodes()
    modifies heap
    ensures heap.Valid() && |heap.positions| == inp.Nodes()
    ensures forall d :: d in Destinations(inp, l, source) ==>
            d < inp.Nodes() && Answered(inp, l, source, heap.labels, d)
  {
    hide Ready, LevelOk, Solved, Overlay, SearchInv, Settled, Answered, QueryHeap.Valid;
    var destinations := Destinations(inp, l, source);
    PrepareSearch(inp, rows, l, source);
    var wanted := set d | d in destinations && inp.allowed[d];
    heap.Clear();
    heap.Insert(source, 0, false, 0, 0.0);
    StartSearch(Overlay(inp, l), source);
    var empty := heap.IsEmpty();
    while !empty && wanted != {}
      invariant empty <==> heap.open == {}
      invariant Searching(inp, l, source, heap, iset{})
      invariant forall d :: d in destinations && inp.allowed[d] ==> d in wanted || d in heap.labels.Keys - heap.open
      decreases Unsettled(inp, heap)
    {
      var node := SettleNext(inp, rows, l, heap, source);
      wanted := wanted - {node};
      empty := heap.IsEmpty();
    }
    forall d | d in destinations ensures Answered(inp, l, source, heap.labels, d) {
      assert d in heap.labels.Keys - heap.open ==>
          Settled(heap.labels, heap.open, d) by { IsSettled(heap.labels, heap.open, d); }
      DestinationAnswered(inp, l, source, heap.labels, heap.open, d);
    }
  }

  lemma IsSettled(labels: map<nat, Label>, open: set<nat>, d: nat)
    ensures d in labels.Keys - open <==> Settled(labels, open, d)
  {}

  lemma PrepareSearch(inp: Input, rows: map<(nat, nat), Row>, l: nat, source: nat)
    requires Ready(inp) && 0 < l < inp.Levels() && (l > 1 ==> LevelOk(inp, rows, l - 1))
    ensures Good(Overlay(inp, l)) && (l > 1 ==> Solved(inp, l - 1))
    ensures forall d :: d in Destinations(inp, l, source) ==> d < inp.Nodes() && IsDestination(inp, l, d)
  {
    hide LevelOk, Solved, Overlay, ListsInCell, WeightsFit, Valid;
    if l > 1 { RowsSolve(inp, rows, l - 1); }
    OverlayIsGood(inp, l);
    DestinationsAreNodes(inp, l, source);
  }

  /** Removes the lightest open node and relaxes it. */
  method SettleNext(inp: Input, rows: map<(nat, nat), Row>, l: nat, heap: QueryHeap, ghost source: nat)
    returns (node: nat)
    requires Ready(inp) && 0 < l < inp.Levels() && (l > 1 ==> LevelOk(inp, rows, l - 1))
    requires source < inp.Nodes() == |inp.allowed| && inp.allowed[source]
    requires Searching(inp, l, source, heap, iset{}) && heap.open != {}
    modifies heap
    ensures Searching(inp, l, source, heap, iset{})
    ensures heap.labels.Keys - heap.open == old(heap.labels.Keys - heap.open) + {node}
    ensures Unsettled(inp, heap) < old(Unsettled(inp, heap))
  {
    hide Ready, LevelOk, Overlay, SearchInv, QueryHeap.Valid;
    node := heap.DeleteMin();
    var known := heap.GetHeapNode(node);
    var reached := Cost(known.weight, known.duration, known.distance);
    PopMin(Overlay(inp, l), source, heap.labels, old(heap.open), node);
    LabelledIsAllowed(inp, l, source, heap.labels, old(heap.open), node);
    RelaxNode(inp, rows, l, source, heap, node, reached);
    SettledFit(inp, heap);
    assert node !in old(heap.labels.Keys - heap.open);
  }

  /** How many nodes are left to settle. */
  ghost function Unsettled(inp: Input, heap: QueryHeap): nat
    reads heap
  {
    var settled := |heap.labels.Keys - heap.open|;
    if settled <= inp.Nodes() then inp.Nodes() - settled else 0
  }

  lemma SettledFit(inp: Input, heap: QueryHeap)
    requires heap.Valid() && |heap.positions| == inp.Nodes()
    ensures |heap.labels.Keys - heap.open| <= inp.Nodes()
  {
    SubsetOfRange(heap.labels.Keys - heap.open, inp.Nodes());
  }

  lemma DestinationsAreNodes(inp: Input, l: nat, source: nat)
    requires Ready(inp) && 0 < l < inp.Levels()
    ensures forall d :: d in Destinations(inp, l, source) ==> d < inp.Nodes() && IsDestination(inp, l, d)
  {
    forall d | d in Destinations(inp, l, source) ensures d < inp.Nodes() && IsDestination(inp, l, d) {
      var j :| 0 <= j < |Destinations(inp, l, source)| && Destinations(inp, l, source)[j] == d;
      DestinationFacts(inp, l, source, j);
    }
  }

  /** The metric of one cell storage: a row for every source of every level. */
  class CellMetric {
    var rows: map<(nat, nat), Row>

    /** `MakeMetric`: every entry starts INVALID. */
    constructor (inp: Input)
      requires Shaped(inp)
      ensures forall l :: 0 < l < inp.Levels() ==> LevelFresh(inp, rows, l)
    {
      rows := map l: nat, s: nat | l < inp.Levels() && s < inp.Nodes()
          && IsSource(inp, l, s) :: (l, s) := InvalidRow(|Destinations(inp, l, s)|);
    }
  }

  lemma EntryFromAnswer(inp: Input, l: nat, source: nat, labels: map<nat, Label>, d: nat)
    requires WeightsFit(inp) && source < |inp.allowed| && inp.allowed[source] && Answered(inp, l, source, labels, d)
    ensures d in labels ==>
            EntryOk(inp, l, source, d, labels[d].cost.weight, labels[d].cost.duration, labels[d].cost.distance)
    ensures d !in labels ==>
            EntryOk(inp, l, source, d, INVALID_EDGE_WEIGHT, MAXIMAL_EDGE_DURATION, INVALID_EDGE_DISTANCE)
  {
    if d in labels {
      var p :| Walk(InCell(inp, l), source, p, d) && Total(p) == labels[d].cost;
      assert labels[d].cost == Cost(labels[d].cost.weight, labels[d].cost.duration, labels[d].cost.distance);
    }
  }

  /** Writes the keys of the destinations, or INVALID, into the row of `source`. */
  method FillRow(inp: Input, l: nat, heap: QueryHeap, source: nat, metric: CellMetric)
    requires Ready(inp) && source < inp.Nodes() == |inp.allowed| && inp.allowed[source]
    requires heap.Valid() && |heap.positions| == inp.Nodes()
    requires forall d :: d in Destinations(inp, l, source) ==>
            d < inp.Nodes() && Answered(inp, l, source, heap.labels, d)
    requires (l, source) in metric.rows && Sized(metric.rows[(l, source)], |Destinations(inp, l, source)|)
    modifies metric
    ensures (l, source) in metric.rows && RowOk(inp, l, source, metric.rows[(l, source)])
    ensures metric.rows == old(metric.rows)[(l, source) := metric.rows[(l, source)]]
  {
    hide Ready, QueryHeap.Valid, Answered, EntryOk;
    var destinations := Destinations(inp, l, source);
    for j := 0 to |destinations|
      invariant (l, source) in metric.rows && metric.rows == old(metric.rows)[(l, source) := metric.rows[(l, source)]]
      invariant Sized(metric.rows[(l, source)], |destinations|)
      invariant forall i :: 0 <= i < j ==>
        EntryOk(inp, l, source, destinations[i], metric.rows[(l, source)].weights[i],
            metric.rows[(l, source)].durations[i], metric.rows[(l, source)].distances[i])
    {
      var d := destinations[j];
      assert d in Destinations(inp, l, source);
      var inserted := heap.WasInserted(d);
      FitOf(inp);
      EntryFromAnswer(inp, l, source, heap.labels, d);
      var row := metric.rows[(l, source)];
      var weight := if inserted then heap.GetHeapNode(d).weight else INVALID_EDGE_WEIGHT;
      var duration := if inserted then heap.GetHeapNode(d).duration else MAXIMAL_EDGE_DURATION;
      var distance := if inserted then heap.GetHeapNode(d).distance else INVALID_EDGE_DISTANCE;
      metric.rows := metric.rows[(l, source) := Row(row.weights[j := weight], row.durations[j := duration],
          row.distances[j := distance])];
    }
  }

  lemma FitOf(inp: Input)
    requires Ready(inp)
    ensures WeightsFit(inp)
  {}

  /** What customizing cell `id` of level `l` may touch, and what it leaves behind. */
  ghost predicate RowsAfter(inp: Input, before: map<(nat, nat), Row>, after: map<(nat, nat), Row>, l: nat,
        nodes: seq<nat>) {
    && after.Keys == before.Keys
    && (forall key :: key in before && (key.0 != l || key.1 !in nodes) ==> after[key] == before[key])
    && (forall s :: s in nodes ==> (l, s) in after && RowOk(inp, l, s, after[(l, s)]))
  }

  lemma InvalidRowIsOk(inp: Input, l: nat, s: nat)
    requires s < |inp.allowed| && !inp.allowed[s]
    ensures RowOk(inp, l, s, InvalidRow(|Destinations(inp, l, s)|))
  {}

  function CellIds(n: nat): (ids: set<nat>)
    ensures forall id: nat :: id in ids <==> id < n
  {
    if n == 0 then {} else CellIds(n - 1) + {n - 1}
  }

  /** One turn of the source loop: disallowed sources keep their INVALID row. */
  method CustomizeSource(inp: Input, heap: QueryHeap, metric: CellMetric, l: nat, source: nat)
    requires Ready(inp) && 0 < l < inp.Levels() && source < inp.Nodes() == |inp.allowed| && IsSource(inp, l, source)
    requires l > 1 ==> LevelOk(inp, metric.rows, l - 1)
    requires (l, source) in metric.rows
    requires metric.rows[(l, source)] == InvalidRow(|Destinations(inp, l, source)|)
            || RowOk(inp, l, source, metric.rows[(l, source)])
    requires heap.Valid() && |heap.positions| == inp.Nodes()
    modifies heap, metric
    ensures heap.Valid() && |heap.positions| == inp.Nodes()
    ensures (l, source) in metric.rows && RowOk(inp, l, source, metric.rows[(l, source)])
    ensures metric.rows == old(metric.rows)[(l, source) := metric.rows[(l, source)]]
    ensures l > 1 ==> LevelOk(inp, metric.rows, l - 1)
  {
    hide Ready, QueryHeap.Valid, LevelOk, EntryOk;
    if !inp.allowed[source] {
      InvalidRowIsOk(inp, l, source);
    } else {
      Search(inp, metric.rows, l, heap, source);
      FillRow(inp, l, heap, source, metric);
      if l > 1 { OtherLevelKept(inp, old(metric.rows), metric.rows, l, source); }
    }
  }

  /** Customizes one cell: a search and a row for every allowed source. */
  method CustomizeCell(inp: Input, heap: QueryHeap, metric: CellMetric, l: nat, id: nat)
    requires Ready(inp) && Shaped(inp) && 0 < l < inp.Levels() && id < |inp.sources[l]|
    requires l > 1 ==> LevelOk(inp, metric.rows, l - 1)
    requires forall s :: s in inp.sources[l][id] ==>
      s < inp.Nodes() && IsSource(inp, l, s) && (l, s) in metric.rows
          && metric.rows[(l, s)] == InvalidRow(|Destinations(inp, l, s)|)
    requires heap.Valid() && |heap.positions| == inp.Nodes()
    modifies heap, metric
    ensures heap.Valid() && |heap.positions| == inp.Nodes()
    ensures RowsAfter(inp, old(metric.rows), metric.rows, l, inp.sources[l][id])
  {
    var sources := inp.sources[l][id];
    assert |inp.allowed| == inp.Nodes();
    hide Ready, Shaped, QueryHeap.Valid, RowOk, LevelOk, InvalidRow, IsSource, RowsAfter, Destinations;
    NoRowsYet(inp, metric.rows, l);
    for i := 0 to |sources|
      invariant heap.Valid() && |heap.positions| == inp.Nodes()
      invariant l > 1 ==> LevelOk(inp, metric.rows, l - 1)
      invariant RowsAfter(inp, old(metric.rows), metric.rows, l, sources[..i])
    {
      assert sources[..i + 1] == sources[..i] + [sources[i]] && sources[i] in sources;
      ghost var was := metric.rows;
      RowStillThere(inp, old(metric.rows), was, l, sources[..i], sources[i]);
      CustomizeSource(inp, heap, metric, l, sources[i]);
      SourceDone(inp, old(metric.rows), was, metric.rows, l, sources[..i], sources[i]);
    }
    assert sources[..|sources|] == sources;
  }

  lemma NoRowsYet(inp: Input, rows: map<(nat, nat), Row>, l: nat)
    ensures RowsAfter(inp, rows, rows, l, [])
  {}

  lemma RowStillThere(inp: Input, before: map<(nat, nat), Row>, rows: map<(nat, nat), Row>, l: nat, nodes: seq<nat>,
        source: nat)
    requires RowsAfter(inp, before, rows, l, nodes) && (l, source) in before
    ensures (l, source) in rows
    ensures (rows[(l, source)] == before[(l, source)] || RowOk(inp, l, source, rows[(l, source)]))
  {
    hide RowOk;
  }

  lemma SourceDone(inp: Input, before: map<(nat, nat), Row>, rows: map<(nat, nat), Row>, after: map<(nat, nat), Row>,
        l: nat, nodes: seq<nat>, source: nat)
    requires RowsAfter(inp, before, rows, l, nodes) && (l, source) in before
    requires (l, source) in after && RowOk(inp, l, source, after[(l, source)])
    requires after == rows[(l, source) := after[(l, source)]]
    ensures RowsAfter(inp, before, after, l, nodes + [source])
  {
    hide RowOk;
    assert source in nodes + [source] && forall s :: s in nodes ==> s in nodes + [source];
  }

  lemma OtherLevelKept(inp: Input, was: map<(nat, nat), Row>, rows: map<(nat, nat), Row>, l: nat, source: nat)
    requires l > 1 && LevelOk(inp, was, l - 1) && (l, source) in rows && rows == was[(l, source) := rows[(l, source)]]
    ensures LevelOk(inp, rows, l - 1)
  {
    hide RowOk;
  }

  /** Level `l` when only the cells in `remaining` are still as `MakeMetric` left them. */
  ghost predicate LevelPartly(inp: Input, rows: map<(nat, nat), Row>, l: nat, remaining: set<nat>) {
    && l < inp.Levels() && l < |inp.sources|
    && (forall s: nat :: (l, s) in rows ==> IsSource(inp, l, s))
    && (forall s: nat :: IsSource(inp, l, s) ==> (l, s) in rows)
    && (forall s: nat :: IsSource(inp, l, s) && inp.cell[l][s] in remaining ==>
        (l, s) in rows && rows[(l, s)] == InvalidRow(|Destinations(inp, l, s)|))
    && (forall s: nat :: IsSource(inp, l, s) && inp.cell[l][s] !in remaining ==>
        (l, s) in rows && RowOk(inp, l, s, rows[(l, s)]))
  }

  lemma CellDone(inp: Input, before: map<(nat, nat), Row>, after: map<(nat, nat), Row>, l: nat, remaining: set<nat>,
        id: nat)
    requires l < |inp.sources| && id < |inp.sources[l]| && id in remaining
    requires LevelPartly(inp, before, l, remaining) && ListsInCell(inp)
    requires RowsAfter(inp, before, after, l, inp.sources[l][id])
    ensures LevelPartly(inp, after, l, remaining - {id})
  {
    hide RowOk;
    forall s: nat | IsSource(inp, l, s) ensures (s in inp.sources[l][id]) <==> inp.cell[l][s] == id {
      if s in inp.sources[l][id] {
        var j :| 0 <= j < |inp.sources[l][id]| && inp.sources[l][id][j] == s;
      }
    }
  }

  lemma SourcesOf(inp: Input, rows: map<(nat, nat), Row>, l: nat, remaining: set<nat>, id: nat)
    requires Ready(inp) && LevelPartly(inp, rows, l, remaining) && id in remaining && 0 < l < inp.Levels()
    requires id < |inp.sources[l]|
    ensures forall s :: s in inp.sources[l][id] ==>
      s < inp.Nodes() && IsSource(inp, l, s) && (l, s) in rows && rows[(l, s)] == InvalidRow(|Destinations(inp, l, s)|)
  {
    hide RowOk, WeightsFit, Covered, Nested, Positive;
    forall s | s in inp.sources[l][id] ensures s < inp.Nodes() && IsSource(inp, l, s) && inp.cell[l][s] == id {
      var j :| 0 <= j < |inp.sources[l][id]| && inp.sources[l][id][j] == s;
      assert IsSource(inp, l, inp.sources[l][id][j]);
    }
  }

  /** Rows of other levels are untouched. */
  ghost predicate OthersKept(before: map<(nat, nat), Row>, after: map<(nat, nat), Row>, l: nat) {
    forall key: (nat, nat) :: key.0 != l ==>
        (key in before <==> key in after) && (key in before ==> after[key] == before[key])
  }

  lemma KeptLevel(inp: Input, before: map<(nat, nat), Row>, after: map<(nat, nat), Row>, l: nat, k: nat)
    requires OthersKept(before, after, l) && k != l
    ensures LevelOk(inp, before, k) ==> LevelOk(inp, after, k)
    ensures LevelFresh(inp, before, k) ==> LevelFresh(inp, after, k)
  {
    hide RowOk;
    forall s: nat ensures (k, s) in before <==> (k, s) in after {}
  }

  lemma CellKeepsOthers(inp: Input, before: map<(nat, nat), Row>, between: map<(nat, nat), Row>,
        after: map<(nat, nat), Row>, l: nat, nodes: seq<nat>)
    requires OthersKept(before, between, l) && RowsAfter(inp, between, after, l, nodes)
    ensures OthersKept(before, after, l)
  {
    hide RowOk;
  }

  lemma LevelStart(inp: Input, rows: map<(nat, nat), Row>, l: nat, all: set<nat>)
    requires LevelFresh(inp, rows, l) && l < inp.Levels() && l < |inp.sources| && all == CellIds(|inp.sources[l]|)
    ensures LevelPartly(inp, rows, l, all)
  {}

  lemma LevelEnd(inp: Input, rows: map<(nat, nat), Row>, l: nat)
    requires LevelPartly(inp, rows, l, {})
    ensures LevelOk(inp, rows, l)
  {
    hide RowOk;
  }

  lemma ListsOf(inp: Input)
    requires Ready(inp)
    ensures ListsInCell(inp)
  {}

  /** Customizes the cells of level `l` in an arbitrary order, as the parallel loop may. */
  method CustomizeLevel(inp: Input, heap: QueryHeap, metric: CellMetric, l: nat)
    requires Ready(inp) && Shaped(inp) && 0 < l < inp.Levels()
    requires l > 1 ==> LevelOk(inp, metric.rows, l - 1)
    requires LevelFresh(inp, metric.rows, l)
    requires heap.Valid() && |heap.positions| == inp.Nodes()
    modifies heap, metric
    ensures heap.Valid() && |heap.positions| == inp.Nodes()
    ensures LevelOk(inp, metric.rows, l) && OthersKept(old(metric.rows), metric.rows, l)
  {
    hide Ready, QueryHeap.Valid, LevelPartly, LevelOk, LevelFresh, RowsAfter, OthersKept;
    var remaining := CellIds(|inp.sources[l]|);
    LevelStart(inp, metric.rows, l, remaining);
    assert OthersKept(old(metric.rows), metric.rows, l) by { NothingChanged(metric.rows, l); }
    ListsOf(inp);
    while remaining != {}
      invariant heap.Valid() && |heap.positions| == inp.Nodes()
      invariant forall id :: id in remaining ==> id < |inp.sources[l]|
      invariant LevelPartly(inp, metric.rows, l, remaining)
      invariant OthersKept(old(metric.rows), metric.rows, l)
      decreases remaining
    {
      var id :| id in remaining;
      SourcesOf(inp, metric.rows, l, remaining, id);
      if l > 1 { KeptLevel(inp, old(metric.rows), metric.rows, l, l - 1); }
      ghost var was := metric.rows;
      CustomizeCell(inp, heap, metric, l, id);
      CellDone(inp, was, metric.rows, l, remaining, id);
      CellKeepsOthers(inp, old(metric.rows), was, metric.rows, l, inp.sources[l][id]);
      remaining := remaining - {id};
    }
    LevelEnd(inp, metric.rows, l);
  }

  lemma NothingChanged(rows: map<(nat, nat), Row>, l: nat)
    ensures OthersKept(rows, rows, l)
  {}

  // ---- what the matrices say, number by number

  /** `h` is a traversable edge between allowed nodes of one cell of level `l`. */
  ghost predicate Inside(inp: Input, l: nat, h: Hop) {
    && h.from < |inp.graph| && h.to < |inp.graph| && h.from < |inp.allowed| && h.to < |inp.allowed|
    && l < |inp.cell| && h.from < |inp.cell[l]| && h.to < |inp.cell[l]|
    && inp.allowed[h.from] && inp.allowed[h.to] && inp.cell[l][h.from] == inp.cell[l][h.to]
    && exists e :: e in inp.graph[h.from] && e.forward && e.target == h.to && e.cost == h.cost
  }

  /** `p` leads from `s` to `d` along such edges. */
  ghost predicate IsPath(inp: Input, l: nat, s: nat, p: seq<Hop>, d: nat) {
    && (forall k :: 0 <= k < |p| ==> Inside(inp, l, p[k]))
    && (forall j, k :: 0 <= j < |p| && k == j + 1 < |p| ==> p[k].from == p[j].to)
    && (if p == [] then s == d else p[0].from == s && p[|p| - 1].to == d)
  }

  /** No path weighs less; none of the same weight takes less time; none of the same weight and time is shorter. */
  ghost predicate NoneBetter(inp: Input, l: nat, s: nat, d: nat, weight: int, duration: int, distance: real) {
    forall p :: IsPath(inp, l, s, p, d) ==>
      && weight <= WeightSum(p)
      && (weight == WeightSum(p) ==> duration <= DurationSum(p))
      && (weight == WeightSum(p) && duration == DurationSum(p) ==> distance <= DistanceSum(p))
  }

  ghost predicate SomePath(inp: Input, l: nat, s: nat, d: nat) {
    exists p :: IsPath(inp, l, s, p, d)
  }

  /** Some path weighs, lasts and measures that much. */
  ghost predicate Taken(inp: Input, l: nat, s: nat, d: nat, weight: int, duration: int, distance: real) {
    exists p :: IsPath(inp, l, s, p, d)
                && weight == WeightSum(p) && duration == DurationSum(p) && distance == DistanceSum(p)
  }

  /** The entry for `d`: the best path there is, or the largest numbers if there is none. */
  ghost predicate EntryMeans(inp: Input, l: nat, s: nat, d: nat, weight: int, duration: int, distance: real) {
    if s < |inp.allowed| && inp.allowed[s] && SomePath(inp, l, s, d) then
      && weight != INVALID_EDGE_WEIGHT && Taken(inp, l, s, d, weight, duration, distance)
      && NoneBetter(inp, l, s, d, weight, duration, distance)
    else weight == INVALID_EDGE_WEIGHT && duration == MAXIMAL_EDGE_DURATION && distance == INVALID_EDGE_DISTANCE
  }

  /** The row of `s`: one entry per destination in the list of its cell, in the order of the list. */
  ghost predicate RowMeans(inp: Input, l: nat, s: nat, row: Row) {
    && l < |inp.cell| && l < |inp.destinations| && s < |inp.cell[l]| && inp.cell[l][s] < |inp.destinations[l]|
    && var ds := inp.destinations[l][inp.cell[l][s]];
       && |row.weights| == |row.durations| == |row.distances| == |ds|
       && forall j :: 0 <= j < |ds| ==>
           EntryMeans(inp, l, s, ds[j], row.weights[j], row.durations[j], row.distances[j])
  }

  lemma InsideIsInCell(inp: Input, l: nat, h: Hop)
    requires Shaped(inp)
    ensures Inside(inp, l, h) <==> h in InCell(inp, l)
  {}

  lemma {:induction false} PathIsWalk(inp: Input, l: nat, s: nat, p: seq<Hop>, d: nat)
    requires Shaped(inp) && IsPath(inp, l, s, p, d)
    ensures Walk(InCell(inp, l), s, p, d)
    decreases |p|
  {
    hide Inside, InCell, Shaped;
    if p != [] {
      var q := p[..|p| - 1];
      InsideIsInCell(inp, l, p[|p| - 1]);
      assert IsPath(inp, l, s, q, p[|p| - 1].from) by { PathFront(inp, l, s, p, d); }
      PathIsWalk(inp, l, s, q, p[|p| - 1].from);
    }
  }

  lemma PathFront(inp: Input, l: nat, s: nat, p: seq<Hop>, d: nat)
    requires p != [] && IsPath(inp, l, s, p, d)
    ensures IsPath(inp, l, s, p[..|p| - 1], p[|p| - 1].from)
  {
    hide Inside;
    if |p| > 1 { assert p[|p| - 1].from == p[|p| - 2].to; }
  }

  lemma {:induction false} WalkIsPath(inp: Input, l: nat, s: nat, p: seq<Hop>, d: nat)
    requires Shaped(inp) && Walk(InCell(inp, l), s, p, d)
    ensures IsPath(inp, l, s, p, d)
    decreases |p|
  {
    hide Inside, InCell, Shaped;
    if p != [] {
      var n := |p| - 1;
      InsideIsInCell(inp, l, p[n]);
      WalkIsPath(inp, l, s, p[..n], p[n].from);
      PathBack(inp, l, s, p, d);
    }
  }

  lemma PathBack(inp: Input, l: nat, s: nat, p: seq<Hop>, d: nat)
    requires p != [] && IsPath(inp, l, s, p[..|p| - 1], p[|p| - 1].from)
    requires Inside(inp, l, p[|p| - 1]) && p[|p| - 1].to == d
    ensures IsPath(inp, l, s, p, d)
  {
    hide Inside;
    var q := p[..|p| - 1];
    assert forall k :: 0 <= k < |q| ==> q[k] == p[k];
    if q != [] { assert q[|q| - 1] == p[|p| - 2]; }
  }

  lemma PathIffWalk(inp: Input, l: nat, s: nat, p: seq<Hop>, d: nat)
    requires Shaped(inp)
    ensures IsPath(inp, l, s, p, d) <==> Walk(InCell(inp, l), s, p, d)
  {
    if IsPath(inp, l, s, p, d) { PathIsWalk(inp, l, s, p, d); }
    if Walk(InCell(inp, l), s, p, d) { WalkIsPath(inp, l, s, p, d); }
  }

  lemma ConnectedMeans(inp: Input, l: nat, s: nat, d: nat)
    requires Shaped(inp)
    ensures Connected(InCell(inp, l), s, d) <==> SomePath(inp, l, s, d)
  {
    hide IsPath, Walk, InCell, Shaped;
    if p :| Walk(InCell(inp, l), s, p, d) { PathIffWalk(inp, l, s, p, d); }
    if p :| IsPath(inp, l, s, p, d) { PathIffWalk(inp, l, s, p, d); }
  }

  lemma AttainsMeans(inp: Input, l: nat, s: nat, d: nat, c: Cost)
    requires Shaped(inp) && Attains(InCell(inp, l), s, d, c)
    ensures Taken(inp, l, s, d, c.weight, c.duration, c.distance)
  {
    hide IsPath, Walk, InCell, Shaped;
    var p :| Walk(InCell(inp, l), s, p, d) && Total(p) == c;
    PathIffWalk(inp, l, s, p, d);
    TotalSums(p);
  }

  lemma BoundsMeans(inp: Input, l: nat, s: nat, d: nat, c: Cost)
    requires Shaped(inp) && Bounds(InCell(inp, l), s, d, c)
    ensures NoneBetter(inp, l, s, d, c.weight, c.duration, c.distance)
  {
    hide IsPath, Walk, InCell, Shaped, AtMost;
    forall p | IsPath(inp, l, s, p, d)
      ensures c.weight <= WeightSum(p) && (c.weight == WeightSum(p) ==> c.duration <= DurationSum(p))
      ensures c.weight == WeightSum(p) && c.duration == DurationSum(p) ==> c.distance <= DistanceSum(p)
    {
      PathIffWalk(inp, l, s, p, d);
      TotalSums(p);
      AtMostMeans(c, Total(p));
    }
  }

  lemma EntrySaysSo(inp: Input, l: nat, s: nat, d: nat, weight: int, duration: int, distance: real)
    requires Shaped(inp) && EntryOk(inp, l, s, d, weight, duration, distance)
    ensures EntryMeans(inp, l, s, d, weight, duration, distance)
  {
    hide Shaped, InCell, SomePath, Connected, Attains, Bounds, Taken, NoneBetter;
    ConnectedMeans(inp, l, s, d);
    if s < |inp.allowed| && inp.allowed[s] && SomePath(inp, l, s, d) {
      AttainsMeans(inp, l, s, d, Cost(weight, duration, distance));
      BoundsMeans(inp, l, s, d, Cost(weight, duration, distance));
    }
  }

  lemma RowSaysSo(inp: Input, l: nat, s: nat, row: Row)
    requires Shaped(inp) && IsSource(inp, l, s) && RowOk(inp, l, s, row)
    ensures RowMeans(inp, l, s, row)
  {
    var ds := inp.destinations[l][inp.cell[l][s]];
    assert ds == Destinations(inp, l, s);
    hide EntryOk, EntryMeans, Shaped, IsSource;
    forall j | 0 <= j < |ds|
      ensures EntryMeans(inp, l, s, ds[j], row.weights[j], row.durations[j], row.distances[j])
    {
      EntrySaysSo(inp, l, s, ds[j], row.weights[j], row.durations[j], row.distances[j]);
    }
  }

  /** There is such a row for every source in the lists of level `l`. */
  ghost predicate LevelMeans(inp: Input, rows: map<(nat, nat), Row>, l: nat) {
    forall id, k :: l < |inp.sources| && 0 <= id < |inp.sources[l]| && 0 <= k < |inp.sources[l][id]| ==>
      var s := inp.sources[l][id][k];
      (l, s) in rows && RowMeans(inp, l, s, rows[(l, s)])
  }

  lemma LevelSaysSo(inp: Input, rows: map<(nat, nat), Row>, l: nat)
    requires Shaped(inp) && ListsInCell(inp) && LevelOk(inp, rows, l)
    ensures LevelMeans(inp, rows, l)
  {
    hide RowOk, RowMeans, Shaped, IsSource;
    forall id, k | l < |inp.sources| && 0 <= id < |inp.sources[l]| && 0 <= k < |inp.sources[l][id]|
      ensures var s := inp.sources[l][id][k]; (l, s) in rows && RowMeans(inp, l, s, rows[(l, s)])
    {
      var s := inp.sources[l][id][k];
      assert IsSource(inp, l, s);
      RowSaysSo(inp, l, s, rows[(l, s)]);
    }
  }

  /**
   * Customizes every level, bottom up. Afterwards every entry of every level is the least
   * (weight, duration, distance) over walks of allowed nodes inside its cell, or INVALID.
   */
  method Customize(inp: Input, metric: CellMetric)
    requires Ready(inp)
    requires forall l :: 0 < l < inp.Levels() ==> LevelFresh(inp, metric.rows, l)
    modifies metric
    ensures forall l :: 0 < l < inp.Levels() ==> LevelOk(inp, metric.rows, l) && LevelMeans(inp, metric.rows, l)
  {
    ShapedOf(inp);
    hide Ready, Shaped, QueryHeap.Valid, LevelOk, LevelFresh, OthersKept, LevelMeans;
    var heap := new QueryHeap(inp.Nodes());
    var l := 1;
    while l < inp.Levels()
      invariant 1 <= l
      invariant fresh(heap) && heap.Valid() && |heap.positions| == inp.Nodes()
      invariant forall k :: 0 < k < l && k < inp.Levels() ==> LevelOk(inp, metric.rows, k)
      invariant forall k :: l <= k < inp.Levels() ==> LevelFresh(inp, metric.rows, k)
    {
      ghost var was := metric.rows;
      CustomizeLevel(inp, heap, metric, l);
      forall k | 0 < k < inp.Levels() && k != l
        ensures LevelOk(inp, was, k) ==> LevelOk(inp, metric.rows, k)
        ensures LevelFresh(inp, was, k) ==> LevelFresh(inp, metric.rows, k)
      {
        KeptLevel(inp, was, metric.rows, l, k);
      }
      l := l + 1;
    }
    forall k | 0 < k < inp.Levels() ensures LevelMeans(inp, metric.rows, k) {
      SaysSo(inp, metric.rows, k);
    }
  }

  lemma SaysSo(inp: Input, rows: map<(nat, nat), Row>, l: nat)
    requires Ready(inp) && LevelOk(inp, rows, l)
    ensures LevelMeans(inp, rows, l)
  {
    ShapedOf(inp);
    LevelSaysSo(inp, rows, l);
  }

  /** A correct level is determined by its input, so the order of the cells cannot matter. */
  lemma LevelIsDetermined(inp: Input, rows: map<(nat, nat), Row>, rows': map<(nat, nat), Row>, l: nat, s: nat)
    requires LevelOk(inp, rows, l) && LevelOk(inp, rows', l) && (l, s) in rows
    ensures (l, s) in rows' && rows'[(l, s)] == rows[(l, s)]
  {
    var destinations := Destinations(inp, l, s);
    var row, row' := rows[(l, s)], rows'[(l, s)];
    forall j | 0 <= j < |destinations|
      ensures row.weights[j] == row'.weights[j] && row.durations[j] == row'.durations[j]
      ensures row.distances[j] == row'.distances[j]
    {
      var c, c' := Cost(row.weights[j], row.durations[j], row.distances[j]),
          Cost(row'.weights[j], row'.durations[j], row'.distances[j]);
      assert EntryOk(inp, l, s, destinations[j], c.weight, c.duration, c.distance);
      assert EntryOk(inp, l, s, destinations[j], c'.weight, c'.duration, c'.distance);
      if Least(InCell(inp, l), s, destinations[j], c) && Least(InCell(inp, l), s, destinations[j], c') {
        LeastUnique(InCell(inp, l), s, destinations[j], c, c');
      }
    }
    assert row.weights == row'.weights && row.durations == row'.durations && row.distances == row'.distances;
  }
}
