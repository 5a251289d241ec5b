/** Lexicographic costs, walks over a set of arcs, and least walk costs. */
module Walks {

  /** Weight, duration and distance, compared in that order. */
  datatype Cost = Cost(weight: int, duration: int, distance: real)

  const ZERO := Cost(0, 0, 0.0)

  function Add(a: Cost, b: Cost): Cost {
    Cost(a.weight + b.weight, a.duration + b.duration, a.distance + b.distance)
  }

  predicate Less(a: Cost, b: Cost) {
    || a.weight < b.weight
    || (a.weight == b.weight && a.duration < b.duration)
    || (a.weight == b.weight && a.duration == b.duration && a.distance < b.distance)
  }

  predicate AtMost(a: Cost, b: Cost) {
    !Less(b, a)
  }

  lemma AtMostAdd(a: Cost, b: Cost, c: Cost, d: Cost)
    requires AtMost(a, Add(b, d)) && AtMost(b, c)
    ensures AtMost(a, Add(c, d))
  {}

  lemma AtMostAfter(a: Cost, b: Cost, c: Cost)
    ensures AtMost(a, b) ==> AtMost(Add(c, a), Add(c, b))
    ensures b.weight > 0 ==> AtMost(c, Add(c, b))
  {}

  lemma NothingIsFree()
    ensures AtMost(Add(ZERO, ZERO), ZERO)
  {}

  datatype Hop = Hop(from: nat, to: nat, cost: Cost)

  /** `p` leads from `u` to `v` along arcs of `arcs`. */
  ghost predicate Walk(arcs: iset<Hop>, u: nat, p: seq<Hop>, v: nat) {
    if p == [] then u == v
    else var h := p[|p| - 1]; h in arcs && h.to == v && Walk(arcs, u, p[..|p| - 1], h.from)
  }

  ghost function Total(p: seq<Hop>): Cost {
    if p == [] then ZERO else Add(Total(p[..|p| - 1]), p[|p| - 1].cost)
  }

  ghost predicate Attains(arcs: iset<Hop>, u: nat, v: nat, c: Cost) {
    exists p :: Walk(arcs, u, p, v) && Total(p) == c
  }

  ghost predicate Bounds(arcs: iset<Hop>, u: nat, v: nat, c: Cost) {
    forall p :: Walk(arcs, u, p, v) ==> AtMost(c, Total(p))
  }

  /** `c` is the least cost over all walks from `u` to `v`. */
  ghost predicate Least(arcs: iset<Hop>, u: nat, v: nat, c: Cost) {
    Attains(arcs, u, v, c) && Bounds(arcs, u, v, c)
  }

  ghost predicate Connected(arcs: iset<Hop>, u: nat, v: nat) {
    exists p :: Walk(arcs, u, p, v)
  }

  ghost predicate Positive(arcs: iset<Hop>) {
    forall h :: h in arcs ==> h.cost.weight > 0
  }

  lemma {:induction false} WalkSnoc(arcs: iset<Hop>, u: nat, p: seq<Hop>, h: Hop)
    requires Walk(arcs, u, p, h.from) && h in arcs
    ensures Walk(arcs, u, p + [h], h.to) && Total(p + [h]) == Add(Total(p), h.cost)
  {
    assert (p + [h])[..|p|] == p;
  }

  lemma {:induction false} WalkConcat(arcs: iset<Hop>, u: nat, p: seq<Hop>, v: nat, q: seq<Hop>, w: nat)
    requires Walk(arcs, u, p, v) && Walk(arcs, v, q, w)
    ensures Walk(arcs, u, p + q, w) && Total(p + q) == Add(Total(p), Total(q))
    decreases |q|
  {
    if q == [] {
      assert p + q == p;
    } else {
      var h := q[|q| - 1];
      WalkConcat(arcs, u, p, v, q[..|q| - 1], h.from);
      WalkSnoc(arcs, u, p + q[..|q| - 1], h);
      assert p + q == p + q[..|q| - 1] + [h];
    }
  }

  lemma {:induction false} WalkMonotone(arcs: iset<Hop>, wider: iset<Hop>, u: nat, p: seq<Hop>, v: nat)
    requires Walk(arcs, u, p, v) && arcs <= wider
    ensures Walk(wider, u, p, v)
    decreases |p|
  {
    if p != [] {
      WalkMonotone(arcs, wider, u, p[..|p| - 1], p[|p| - 1].from);
    }
  }

  /** The first hop of a walk that goes anywhere. */
  lemma {:induction false} FirstHop(arcs: iset<Hop>, u: nat, p: seq<Hop>, v: nat)
    requires Walk(arcs, u, p, v) && p != []
    ensures p[0] in arcs && p[0].from == u
    decreases |p|
  {
    if |p| > 1 {
      FirstHop(arcs, u, p[..|p| - 1], p[|p| - 1].from);
    }
  }

  lemma {:induction false} WalkWeight(arcs: iset<Hop>, u: nat, p: seq<Hop>, v: nat)
    requires Walk(arcs, u, p, v) && Positive(arcs)
    ensures p == [] || Total(p).weight > 0
    decreases |p|
  {
    if p != [] {
      WalkWeight(arcs, u, p[..|p| - 1], p[|p| - 1].from);
    }
  }

  /** A least cost is unique. */
  lemma LeastUnique(arcs: iset<Hop>, u: nat, v: nat, c: Cost, d: Cost)
    requires Least(arcs, u, v, c) && Least(arcs, u, v, d)
    ensures c == d
  {
    var p :| Walk(arcs, u, p, v) && Total(p) == c;
    var q :| Walk(arcs, u, q, v) && Total(q) == d;
    assert AtMost(c, Total(q)) && AtMost(d, Total(p));
  }

  /** Least costs obey the triangle inequality. */
  lemma LeastTriangle(arcs: iset<Hop>, u: nat, v: nat, w: nat, c: Cost, d: Cost)
    requires Attains(arcs, u, v, c) && Attains(arcs, v, w, d)
    ensures Attains(arcs, u, w, Add(c, d))
  {
    var p :| Walk(arcs, u, p, v) && Total(p) == c;
    var q :| Walk(arcs, v, q, w) && Total(q) == d;
    WalkConcat(arcs, u, p, v, q, w);
  }

  /** Without cost-free arcs the least cost of staying is zero. */
  lemma LeastToSelf(arcs: iset<Hop>, u: nat, c: Cost)
    requires Positive(arcs) && Least(arcs, u, u, c)
    ensures c == ZERO
  {
    assert Walk(arcs, u, [], u) && Total([]) == ZERO;
    var p :| Walk(arcs, u, p, u) && Total(p) == c;
    WalkWeight(arcs, u, p, u);
  }

  // ---- costs, number by number

  ghost function WeightSum(p: seq<Hop>): int {
    if p == [] then 0 else WeightSum(p[..|p| - 1]) + p[|p| - 1].cost.weight
  }

  ghost function DurationSum(p: seq<Hop>): int {
    if p == [] then 0 else DurationSum(p[..|p| - 1]) + p[|p| - 1].cost.duration
  }

  ghost function DistanceSum(p: seq<Hop>): real {
    if p == [] then 0.0 else DistanceSum(p[..|p| - 1]) + p[|p| - 1].cost.distance
  }

  /** The cost of a walk is what its hops weigh, last and measure together. */
  lemma {:induction false} TotalSums(p: seq<Hop>)
    ensures Total(p) == Cost(WeightSum(p), DurationSum(p), DistanceSum(p))
    decreases |p|
  {
    if p != [] { TotalSums(p[..|p| - 1]); }
  }

  /** A bound is met in weight; if the weights agree, in duration; if those agree too, in distance. */
  lemma AtMostMeans(a: Cost, b: Cost)
    requires AtMost(a, b)
    ensures a.weight <= b.weight
    ensures a.weight == b.weight ==> a.duration <= b.duration
    ensures a.weight == b.weight && a.duration == b.duration ==> a.distance <= b.distance
  {}

  // ---- least weights

  /** `w` is the least weight over all walks from `u` to `v`. */
  ghost predicate LeastWeight(arcs: iset<Hop>, u: nat, v: nat, w: int) {
    && (exists p :: Walk(arcs, u, p, v) && Total(p).weight == w)
    && (forall p :: Walk(arcs, u, p, v) ==> w <= Total(p).weight)
  }

  ghost predicate HasLighter(arcs: iset<Hop>, h: Hop) {
    exists k :: k in arcs && k.from == h.from && k.to == h.to && k.cost.weight <= h.cost.weight
  }

  /** `fewer` keeps, of the arcs from one node to another, at least one that weighs least. */
  ghost predicate KeepsLightest(arcs: iset<Hop>, fewer: iset<Hop>) {
    && fewer <= arcs && Positive(arcs)
    && forall h :: h in arcs && h.from != h.to ==> HasLighter(fewer, h)
  }

  lemma {:induction false} LighterWalk(arcs: iset<Hop>, fewer: iset<Hop>, u: nat, p: seq<Hop>, v: nat)
    returns (q: seq<Hop>)
    requires KeepsLightest(arcs, fewer) && Walk(arcs, u, p, v)
    ensures Walk(fewer, u, q, v) && Total(q).weight <= Total(p).weight
    decreases |p|
  {
    if p == [] {
      q := [];
    } else {
      var h := p[|p| - 1];
      q := LighterWalk(arcs, fewer, u, p[..|p| - 1], h.from);
      if h.from != h.to {
        assert HasLighter(fewer, h);
        var k :| k in fewer && k.from == h.from && k.to == h.to && k.cost.weight <= h.cost.weight;
        WalkSnoc(fewer, u, q, k);
        q := q + [k];
      }
    }
  }

  /** Then least weights and connections stay as they were. */
  lemma LightestIsKept(arcs: iset<Hop>, fewer: iset<Hop>, u: nat, v: nat, w: int)
    requires KeepsLightest(arcs, fewer)
    ensures LeastWeight(fewer, u, v, w) <==> LeastWeight(arcs, u, v, w)
    ensures Connected(fewer, u, v) <==> Connected(arcs, u, v)
  {
    forall q | Walk(fewer, u, q, v) ensures Walk(arcs, u, q, v) {
      WalkMonotone(fewer, arcs, u, q, v);
    }
    if LeastWeight(fewer, u, v, w) {
      forall p | Walk(arcs, u, p, v) ensures w <= Total(p).weight {
        var q := LighterWalk(arcs, fewer, u, p, v);
      }
    }
    if LeastWeight(arcs, u, v, w) {
      var p :| Walk(arcs, u, p, v) && Total(p).weight == w;
      var q := LighterWalk(arcs, fewer, u, p, v);
    }
    if p :| Walk(arcs, u, p, v) {
      var q := LighterWalk(arcs, fewer, u, p, v);
    }
  }

  lemma LeastIsLeastWeight(arcs: iset<Hop>, u: nat, v: nat, c: Cost)
    requires Least(arcs, u, v, c)
    ensures LeastWeight(arcs, u, v, c.weight)
  {
    forall p | Walk(arcs, u, p, v) ensures c.weight <= Total(p).weight {
      assert AtMost(c, Total(p));
    }
  }
}
