/** Multi-level cells: the arcs of a level, and the overlay of border edges and lower-level cliques. */
module CellOverlay {
  import opened Walks
  import opened CellSearch

  /** One directed entry of the edge-based graph. */
  datatype Edge = Edge(target: nat, cost: Cost, forward: bool, backward: bool)

  /**
   * What customization is given. `cell[l][v]` is the cell of node `v` on level `l`; `sources[l][id]`
   * and `destinations[l][id]` are the boundary lists of a cell, in matrix order. Level 0 is unused.
   */
  datatype Input = Input(
    graph: seq<seq<Edge>>,
    cell: seq<seq<nat>>,
    sources: seq<seq<seq<nat>>>,
    destinations: seq<seq<seq<nat>>>,
    allowed: seq<bool>)
  {
    function Levels(): nat { |cell| }
    function Nodes(): nat { |graph| }
  }

  ghost predicate Shaped(inp: Input) {
    && |inp.allowed| == inp.Nodes()
    && |inp.cell| == |inp.sources| == |inp.destinations|
    && (forall u, e :: 0 <= u < inp.Nodes() && 0 <= e < |inp.graph[u]| ==> inp.graph[u][e].target < inp.Nodes())
    && (forall l :: 0 <= l < inp.Levels() ==> |inp.cell[l]| == inp.Nodes() && |inp.sources[l]| == |inp.destinations[l]|)
    && (forall l, v :: 0 <= l < inp.Levels() && 0 <= v < inp.Nodes() ==> inp.cell[l][v] < |inp.sources[l]|)
  }

  predicate IsSource(inp: Input, l: nat, v: nat) {
    l < |inp.sources| && l < |inp.cell| && v < |inp.cell[l]| && inp.cell[l][v] < |inp.sources[l]|
        && v in inp.sources[l][inp.cell[l][v]]
  }

  predicate IsDestination(inp: Input, l: nat, v: nat) {
    l < |inp.destinations| && l < |inp.cell| && v < |inp.cell[l]| && inp.cell[l][v] < |inp.destinations[l]|
        && v in inp.destinations[l][inp.cell[l][v]]
  }

  predicate SameCell(inp: Input, l: nat, u: nat, v: nat) {
    l < |inp.cell| && u < |inp.cell[l]| && v < |inp.cell[l]| && inp.cell[l][u] == inp.cell[l][v]
  }

  /** Every traversable edge, allowed or not. */
  ghost function Roads(inp: Input): iset<Hop> {
    iset h: Hop | h.from < inp.Nodes() && h.to < inp.Nodes()
        && exists e :: e in inp.graph[h.from] && e.forward && e.target == h.to && e.cost == h.cost
  }

  /** The arcs of the plain search on level `l`: edges between allowed nodes that stay in their cell. */
  ghost function InCell(inp: Input, l: nat): iset<Hop> {
    iset h: Hop | h in Roads(inp) && h.from < |inp.allowed| && h.to < |inp.allowed| && inp.allowed[h.from]
        && inp.allowed[h.to] && SameCell(inp, l, h.from, h.to)
  }

  /** Edges of level `l` that cross between two cells of the level below. */
  ghost function Border(inp: Input, l: nat): iset<Hop> {
    iset h: Hop | h in InCell(inp, l) && (l > 1 ==> !SameCell(inp, l - 1, h.from, h.to))
  }

  /** The rows of the level below as arcs: least costs between different boundary nodes of one cell. */
  ghost function Clique(inp: Input, l: nat): iset<Hop> {
    iset h: Hop | l > 1 && h.from != h.to && IsSource(inp, l - 1, h.from) && IsDestination(inp, l - 1, h.to)
        && SameCell(inp, l - 1, h.from, h.to) && Least(InCell(inp, l - 1), h.from, h.to, h.cost)
  }

  ghost function Overlay(inp: Input, l: nat): Network {
    Network(Border(inp, l), Clique(inp, l))
  }

  /** Cells of one level lie inside cells of the next. */
  ghost predicate Nested(inp: Input) {
    forall l: nat, u: nat, v: nat :: 0 < l < inp.Levels() - 1 && SameCell(inp, l, u, v) ==> SameCell(inp, l + 1, u, v)
  }

  /**
   * The boundary lists miss nothing: a node with an edge inside its cell is a source of it when
   * some edge enters the cell there or when it is a source on the next level; likewise destinations.
   */
  ghost predicate Covered(inp: Input) {
    && (forall l: nat, h: Hop, k: Hop ::
        0 < l < inp.Levels() && h in Roads(inp) && SameCell(inp, l, h.from, h.to) && k in Roads(inp) && k.to == h.from
        && !SameCell(inp, l, k.from, k.to) ==>
        IsSource(inp, l, h.from))
    && (forall l: nat, h: Hop, k: Hop ::
        0 < l < inp.Levels() && h in Roads(inp) && SameCell(inp, l, h.from, h.to) && k in Roads(inp) && k.from == h.to
        && !SameCell(inp, l, k.from, k.to) ==>
        IsDestination(inp, l, h.to))
    && (forall l: nat, h: Hop ::
        0 < l < inp.Levels() - 1 && h in Roads(inp) && SameCell(inp, l, h.from, h.to)
        && IsSource(inp, l + 1, h.from) ==>
        IsSource(inp, l, h.from))
    && (forall l: nat, h: Hop ::
        0 < l < inp.Levels() - 1 && h in Roads(inp) && SameCell(inp, l, h.from, h.to)
        && IsDestination(inp, l + 1, h.to) ==>
        IsDestination(inp, l, h.to))
  }

  ghost predicate Valid(inp: Input) {
    && Shaped(inp) && Nested(inp) && Covered(inp) && Positive(Roads(inp))
  }

  /** Every pair of different, connected boundary nodes on level `l` has a least cost. */
  ghost predicate Solved(inp: Input, l: nat) {
    forall a: nat, b: nat ::
      a != b && IsSource(inp, l, a) && IsDestination(inp, l, b) && SameCell(inp, l, a, b)
      && Connected(InCell(inp, l), a, b) ==>
      exists c :: Least(InCell(inp, l), a, b, c)
  }

  lemma LowerIsInside(inp: Input, l: nat)
    requires Nested(inp) && 1 < l < inp.Levels()
    ensures InCell(inp, l - 1) <= InCell(inp, l)
  {
    forall h | h in InCell(inp, l - 1) ensures h in InCell(inp, l) {
      assert SameCell(inp, l - 1, h.from, h.to);
    }
  }

  lemma {:induction false} WalkStaysInCell(inp: Input, l: nat, u: nat, p: seq<Hop>, v: nat)
    requires Walk(InCell(inp, l), u, p, v) && SameCell(inp, l, u, u)
    ensures SameCell(inp, l, u, v)
    decreases |p|
  {
    if p != [] {
      WalkStaysInCell(inp, l, u, p[..|p| - 1], p[|p| - 1].from);
    }
  }

  // ---- the overlay is a good network

  lemma CliquePositive(inp: Input, l: nat, h: Hop)
    requires Positive(Roads(inp)) && h in Clique(inp, l)
    ensures h.cost.weight > 0
  {
    var arcs := InCell(inp, l - 1);
    var p :| Walk(arcs, h.from, p, h.to) && Total(p) == h.cost;
    assert Positive(arcs);
    WalkWeight(arcs, h.from, p, h.to);
  }

  lemma CliqueTriangle(inp: Input, l: nat, h: Hop, k: Hop)
    requires l > 1 && Solved(inp, l - 1)
    requires h in Clique(inp, l) && k in Clique(inp, l) && h.to == k.from && h.from != k.to
    ensures Shortened(Clique(inp, l), h.from, k.to, Add(h.cost, k.cost))
  {
    var arcs := InCell(inp, l - 1);
    LeastTriangle(arcs, h.from, h.to, k.to, h.cost, k.cost);
    var p :| Walk(arcs, h.from, p, k.to) && Total(p) == Add(h.cost, k.cost);
    assert Connected(arcs, h.from, k.to) && SameCell(inp, l - 1, h.from, k.to);
    var c :| Least(arcs, h.from, k.to, c);
    assert Hop(h.from, k.to, c) in Clique(inp, l);
  }

  lemma OverlayIsGood(inp: Input, l: nat)
    requires Valid(inp) && 0 < l < inp.Levels() && (l > 1 ==> Solved(inp, l - 1))
    ensures Good(Overlay(inp, l))
  {
    var net := Overlay(inp, l);
    forall h | h in Arcs(net) ensures h.cost.weight > 0 {
      if h in net.clique { CliquePositive(inp, l, h); }
    }
    forall h, k | h in net.clique && k in net.clique && h.to == k.from && h.from != k.to
      ensures Shortened(net.clique, h.from, k.to, Add(h.cost, k.cost))
    {
      CliqueTriangle(inp, l, h, k);
    }
  }

  // ---- overlay walks are plain walks

  lemma {:induction false} OverlayIsSound(inp: Input, l: nat, u: nat, p: seq<Hop>, v: nat)
    requires Nested(inp) && 0 < l < inp.Levels() && Walk(Arcs(Overlay(inp, l)), u, p, v)
    ensures Attains(InCell(inp, l), u, v, Total(p))
    decreases |p|
  {
    var arcs := InCell(inp, l);
    if p == [] {
      assert Walk(arcs, u, [], v);
    } else {
      var h := p[|p| - 1];
      OverlayIsSound(inp, l, u, p[..|p| - 1], h.from);
      HopIsSound(inp, l, h);
      LeastTriangle(arcs, u, h.from, v, Total(p[..|p| - 1]), h.cost);
    }
  }

  lemma HopIsSound(inp: Input, l: nat, h: Hop)
    requires Nested(inp) && 0 < l < inp.Levels() && h in Arcs(Overlay(inp, l))
    ensures Attains(InCell(inp, l), h.from, h.to, h.cost)
  {
    var arcs := InCell(inp, l);
    if h in Clique(inp, l) {
      var p :| Walk(InCell(inp, l - 1), h.from, p, h.to) && Total(p) == h.cost;
      LowerIsInside(inp, l);
      WalkMonotone(InCell(inp, l - 1), arcs, h.from, p, h.to);
    } else {
      assert Walk(arcs, h.from, [], h.from);
      WalkSnoc(arcs, h.from, [], h);
    }
  }

  // ---- plain walks between boundary nodes have overlay walks that cost no more

  /** `a` is where a walk from `s` last entered its current cell of level `l - 1`. */
  ghost predicate Entered(inp: Input, l: nat, s: nat, a: nat)
    requires l > 0
  {
    a == s || exists k :: k in Roads(inp) && k.to == a && !SameCell(inp, l - 1, k.from, k.to)
  }

  /** Splits a plain walk into an overlay walk `o` to the last entry `a` and a rest `q` inside one lower cell. */
  lemma {:induction false} SplitWalk(inp: Input, l: nat, s: nat, p: seq<Hop>, x: nat)
    returns (a: nat, o: seq<Hop>, q: seq<Hop>)
    requires Valid(inp) && 1 < l < inp.Levels() && Solved(inp, l - 1) && IsSource(inp, l, s)
    requires Walk(InCell(inp, l), s, p, x)
    ensures Entered(inp, l, s, a) && Walk(Arcs(Overlay(inp, l)), s, o, a) && Walk(InCell(inp, l - 1), a, q, x)
    ensures AtMost(Add(Total(o), Total(q)), Total(p))
    decreases |p|
  {
    hide Valid, Solved, Overlay, InCell, Add, AtMost;
    if p == [] {
      NothingIsFree();
      a, o, q := s, [], [];
    } else {
      var h := p[|p| - 1];
      var a1, o1, q1 := SplitWalk(inp, l, s, p[..|p| - 1], h.from);
      a, o, q := ExtendSplit(inp, l, s, a1, o1, q1, h);
      AtMostAdd(Add(Total(o), Total(q)), Add(Total(o1), Total(q1)), Total(p[..|p| - 1]), h.cost);
    }
  }

  lemma ExtendSplit(inp: Input, l: nat, s: nat, a: nat, o: seq<Hop>, q: seq<Hop>, h: Hop)
    returns (a': nat, o': seq<Hop>, q': seq<Hop>)
    requires Valid(inp) && 1 < l < inp.Levels() && Solved(inp, l - 1) && IsSource(inp, l, s)
    requires Entered(inp, l, s, a) && Walk(Arcs(Overlay(inp, l)), s, o, a) && Walk(InCell(inp, l - 1), a, q, h.from)
    requires h in InCell(inp, l)
    ensures Entered(inp, l, s, a') && Walk(Arcs(Overlay(inp, l)), s, o', a') && Walk(InCell(inp, l - 1), a', q', h.to)
    ensures AtMost(Add(Total(o'), Total(q')), Add(Add(Total(o), Total(q)), h.cost))
  {
    hide Valid, Solved;
    if SameCell(inp, l - 1, h.from, h.to) {
      WalkSnoc(InCell(inp, l - 1), a, q, h);
      a', o', q' := a, o, q + [h];
    } else {
      assert h in Arcs(Overlay(inp, l)) && h in Roads(inp);
      var o1 := CrossCell(inp, l, s, a, o, q, h);
      hide Overlay, InCell;
      WalkSnoc(Arcs(Overlay(inp, l)), s, o1, h);
      a', o', q' := h.to, o1 + [h], [];
    }
  }

  /** The rest inside the lower cell is replaced by at most one clique arc before the cell is left through `h`. */
  lemma CrossCell(inp: Input, l: nat, s: nat, a: nat, o: seq<Hop>, q: seq<Hop>, h: Hop) returns (o': seq<Hop>)
    requires Valid(inp) && 1 < l < inp.Levels() && Solved(inp, l - 1) && IsSource(inp, l, s)
    requires Entered(inp, l, s, a) && Walk(Arcs(Overlay(inp, l)), s, o, a) && Walk(InCell(inp, l - 1), a, q, h.from)
    requires h in Roads(inp) && !SameCell(inp, l - 1, h.from, h.to)
    ensures Walk(Arcs(Overlay(inp, l)), s, o', h.from) && AtMost(Total(o'), Add(Total(o), Total(q)))
  {
    var arcs := InCell(inp, l - 1);
    if q == [] {
      o' := o;
    } else {
      var k := q[|q| - 1];
      assert k in arcs && k.to == h.from;
      assert IsDestination(inp, l - 1, h.from);
      o' := UseClique(inp, l, s, a, o, q, h.from);
    }
  }

  lemma UseClique(inp: Input, l: nat, s: nat, a: nat, o: seq<Hop>, q: seq<Hop>, x: nat) returns (o': seq<Hop>)
    requires Valid(inp) && 1 < l < inp.Levels() && Solved(inp, l - 1) && IsSource(inp, l, s)
    requires Entered(inp, l, s, a) && Walk(Arcs(Overlay(inp, l)), s, o, a)
    requires q != [] && Walk(InCell(inp, l - 1), a, q, x) && IsDestination(inp, l - 1, x)
    ensures Walk(Arcs(Overlay(inp, l)), s, o', x) && AtMost(Total(o'), Add(Total(o), Total(q)))
  {
    hide Nested, Shaped, Covered, Solved;
    var arcs := InCell(inp, l - 1);
    assert Positive(arcs);
    hide Valid, Positive, Entered, Walk, Total, InCell, Arcs, Overlay, IsSource, IsDestination;
    hide AtMost, Add;
    WalkWeight(arcs, a, q, x);
    if a == x {
      o' := o;
      AtMostAfter(Total(q), Total(q), Total(o));
    } else {
      var m := CliqueArc(inp, l, s, a, q, x);
      AtMostAfter(m.cost, Total(q), Total(o));
      WalkSnoc(Arcs(Overlay(inp, l)), s, o, m);
      o' := o + [m];
    }
  }

  lemma CliqueArc(inp: Input, l: nat, s: nat, a: nat, q: seq<Hop>, x: nat) returns (m: Hop)
    requires Valid(inp) && 1 < l < inp.Levels() && Solved(inp, l - 1) && IsSource(inp, l, s) && Entered(inp, l, s, a)
    requires q != [] && a != x && Walk(InCell(inp, l - 1), a, q, x) && IsDestination(inp, l - 1, x)
    ensures m in Arcs(Overlay(inp, l)) && m.from == a && m.to == x && AtMost(m.cost, Total(q))
  {
    hide Nested, Shaped, Covered;
    var arcs := InCell(inp, l - 1);
    FirstHop(arcs, a, q, x);
    EntryIsSource(inp, l, s, a, q[0]);
    WalkStaysInCell(inp, l - 1, a, q, x);
    assert Connected(arcs, a, x);
    var c :| Least(arcs, a, x, c);
    m := Hop(a, x, c);
    assert m in Clique(inp, l);
  }

  lemma EntryIsSource(inp: Input, l: nat, s: nat, a: nat, h: Hop)
    requires Covered(inp) && 1 < l < inp.Levels() && IsSource(inp, l, s) && Entered(inp, l, s, a)
    requires h in InCell(inp, l - 1) && h.from == a
    ensures IsSource(inp, l - 1, a)
  {
    assert h in Roads(inp) && SameCell(inp, l - 1, h.from, h.to);
    if a == s {
      assert IsSource(inp, (l - 1) + 1, h.from);
    } else {
      var k :| k in Roads(inp) && k.to == a && !SameCell(inp, l - 1, k.from, k.to);
    }
  }

  lemma OverlayIsComplete(inp: Input, l: nat, s: nat, p: seq<Hop>, d: nat) returns (o: seq<Hop>)
    requires Valid(inp) && 0 < l < inp.Levels() && (l > 1 ==> Solved(inp, l - 1))
    requires IsSource(inp, l, s) && IsDestination(inp, l, d) && Walk(InCell(inp, l), s, p, d)
    ensures Walk(Arcs(Overlay(inp, l)), s, o, d) && AtMost(Total(o), Total(p))
  {
    hide Valid, Solved;
    if l == 1 {
      assert InCell(inp, l) <= Arcs(Overlay(inp, l));
      WalkMonotone(InCell(inp, l), Arcs(Overlay(inp, l)), s, p, d);
      o := p;
    } else {
      var a, o', q := SplitWalk(inp, l, s, p, d);
      if q == [] {
        o := o';
      } else {
        ExitIsDestination(inp, l, q[|q| - 1]);
        o := UseClique(inp, l, s, a, o', q, d);
      }
    }
  }

  lemma ExitIsDestination(inp: Input, l: nat, h: Hop)
    requires Valid(inp) && 1 < l < inp.Levels() && IsDestination(inp, l, h.to) && h in InCell(inp, l - 1)
    ensures IsDestination(inp, l - 1, h.to)
  {
    assert h in Roads(inp) && SameCell(inp, l - 1, h.from, h.to) && IsDestination(inp, (l - 1) + 1, h.to);
  }

  /** Between boundary nodes the overlay has the same least costs as the plain cell. */
  lemma OverlayKeepsLeast(inp: Input, l: nat, s: nat, d: nat, c: Cost)
    requires Valid(inp) && 0 < l < inp.Levels() && (l > 1 ==> Solved(inp, l - 1))
    requires IsSource(inp, l, s) && IsDestination(inp, l, d)
    ensures Least(Arcs(Overlay(inp, l)), s, d, c) ==> Least(InCell(inp, l), s, d, c)
    ensures Connected(Arcs(Overlay(inp, l)), s, d) <==> Connected(InCell(inp, l), s, d)
  {
    hide Valid, Solved;
    if Least(Arcs(Overlay(inp, l)), s, d, c) {
      var o :| Walk(Arcs(Overlay(inp, l)), s, o, d) && Total(o) == c;
      NestedOf(inp);
      OverlayIsSound(inp, l, s, o, d);
      forall p | Walk(InCell(inp, l), s, p, d) ensures AtMost(c, Total(p)) {
        var o' := OverlayIsComplete(inp, l, s, p, d);
        assert AtMost(c, Total(o'));
      }
    }
    if Connected(InCell(inp, l), s, d) {
      var p :| Walk(InCell(inp, l), s, p, d);
      var o := OverlayIsComplete(inp, l, s, p, d);
    }
    if Connected(Arcs(Overlay(inp, l)), s, d) {
      var o :| Walk(Arcs(Overlay(inp, l)), s, o, d);
      NestedOf(inp);
      OverlayIsSound(inp, l, s, o, d);
      var p :| Walk(InCell(inp, l), s, p, d) && Total(p) == Total(o);
    }
  }

  lemma NestedOf(inp: Input)
    requires Valid(inp)
    ensures Nested(inp)
  {}
}
