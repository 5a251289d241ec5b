/** The label-setting search inside one cell, over an abstract network of direct and clique arcs. */
module CellSearch {
  import opened Walks

  /** A heap entry: the tentative cost, and whether a clique arc set it. */
  datatype Label = Label(cost: Cost, fromClique: bool)

  datatype Network = Network(direct: iset<Hop>, clique: iset<Hop>)

  ghost function Arcs(net: Network): iset<Hop> {
    net.direct + net.clique
  }

  ghost predicate Shortened(clique: iset<Hop>, u: nat, v: nat, c: Cost) {
    exists h :: h in clique && h.from == u && h.to == v && AtMost(h.cost, c)
  }

  /** Two clique arcs in a row are never better than one. */
  ghost predicate Triangle(clique: iset<Hop>) {
    forall h, k :: h in clique && k in clique && h.to == k.from && h.from != k.to
                   ==> Shortened(clique, h.from, k.to, Add(h.cost, k.cost))
  }

  ghost predicate Good(net: Network) {
    Positive(Arcs(net)) && Triangle(net.clique)
  }

  ghost predicate Settled(labels: map<nat, Label>, open: set<nat>, v: nat) {
    v in labels && v !in open
  }

  ghost predicate Started(labels: map<nat, Label>, open: set<nat>, source: nat) {
    && open <= labels.Keys
    && source in labels && AtMost(labels[source].cost, ZERO)
  }

  ghost predicate Witnessed(net: Network, source: nat, labels: map<nat, Label>) {
    forall v :: v in labels ==> Attains(Arcs(net), source, v, labels[v].cost)
  }

  ghost predicate Relaxed(labels: map<nat, Label>, h: Hop) {
    h.from in labels && h.to in labels && AtMost(labels[h.to].cost, Add(labels[h.from].cost, h.cost))
  }

  /** Every arc out of a settled node is relaxed, except those still to do. */
  ghost predicate AllRelaxed(net: Network, labels: map<nat, Label>, open: set<nat>, todo: iset<Hop>) {
    forall h :: h in Arcs(net) && h !in todo && Settled(labels, open, h.from) ==> Relaxed(labels, h)
  }

  ghost predicate Ordered(labels: map<nat, Label>, open: set<nat>) {
    forall x, y :: Settled(labels, open, x) && y in open && y in labels ==>
        labels[x].cost.weight <= labels[y].cost.weight
  }

  ghost predicate HasParent(net: Network, labels: map<nat, Label>, open: set<nat>, v: nat) {
    v in labels
        && exists h ::
        h in net.clique && h.to == v && Settled(labels, open, h.from)
        && labels[v].cost == Add(labels[h.from].cost, h.cost)
  }

  /** A label set by a clique arc comes from a settled node. */
  ghost predicate Parented(net: Network, labels: map<nat, Label>, open: set<nat>) {
    forall v :: v in labels && labels[v].fromClique ==> HasParent(net, labels, open, v)
  }

  ghost predicate SearchInv(net: Network, source: nat, labels: map<nat, Label>, open: set<nat>, todo: iset<Hop>) {
    && Good(net) && Started(labels, open, source)
    && Witnessed(net, source, labels) && AllRelaxed(net, labels, open, todo)
    && Ordered(labels, open) && Parented(net, labels, open)
  }

  ghost function ArcsFrom(net: Network, v: nat): iset<Hop> {
    iset h | h in Arcs(net) && h.from == v
  }

  lemma StartSearch(net: Network, source: nat)
    requires Good(net)
    ensures SearchInv(net, source, map[source := Label(ZERO, false)], {source}, iset{})
  {
    assert Walk(Arcs(net), source, [], source) && Total([]) == ZERO;
  }

  /** Removing the node with the least weight leaves only its own arcs to do. */
  lemma PopMin(net: Network, source: nat, labels: map<nat, Label>, open: set<nat>, x: nat)
    requires SearchInv(net, source, labels, open, iset{})
    requires x in open
    requires forall y :: y in open ==> y in labels && x in labels && labels[x].cost.weight <= labels[y].cost.weight
    ensures SearchInv(net, source, labels, open - {x}, ArcsFrom(net, x))
    ensures Settled(labels, open - {x}, x)
    ensures forall z :: Settled(labels, open - {x}, z) ==> labels[z].cost.weight <= labels[x].cost.weight
  {
    var open' := open - {x};
    assert forall z :: Settled(labels, open', z) ==> z == x || Settled(labels, open, z);
    assert Parented(net, labels, open') by {
      forall v | v in labels && labels[v].fromClique ensures HasParent(net, labels, open', v) {
        assert HasParent(net, labels, open, v);
        var h :| h in net.clique && h.to == v && Settled(labels, open, h.from)
            && labels[v].cost == Add(labels[h.from].cost, h.cost);
        assert Settled(labels, open', h.from);
      }
    }
  }

  /** The labels after trying arc `h` with its source's label. */
  function Improve(labels: map<nat, Label>, to: nat, cost: Cost, fromClique: bool): map<nat, Label> {
    if to !in labels || Less(cost, labels[to].cost) then labels[to := Label(cost, fromClique)] else labels
  }

  function Opened(labels: map<nat, Label>, open: set<nat>, to: nat): set<nat> {
    if to !in labels then open + {to} else open
  }

  /** Only an open node or a new one can be improved, so `DecreaseKey` never meets a removed node. */
  lemma SettledNotImproved(net: Network, labels: map<nat, Label>, open: set<nat>, x: nat, h: Hop)
    requires Good(net) && h in Arcs(net) && h.from == x && Settled(labels, open, x)
    requires forall z :: Settled(labels, open, z) ==> labels[z].cost.weight <= labels[x].cost.weight
    ensures Settled(labels, open, h.to) ==> !Less(Add(labels[x].cost, h.cost), labels[h.to].cost)
  {}

  lemma RelaxArc(net: Network, source: nat, labels: map<nat, Label>, open: set<nat>, todo: iset<Hop>, x: nat, h: Hop,
        fromClique: bool)
    requires SearchInv(net, source, labels, open, todo)
    requires h in Arcs(net) && h.from == x && Settled(labels, open, x) && (fromClique ==> h in net.clique)
    requires forall z :: Settled(labels, open, z) ==> labels[z].cost.weight <= labels[x].cost.weight
    ensures var labels' := Improve(labels, h.to, Add(labels[x].cost, h.cost), fromClique);
            var open' := Opened(labels, open, h.to);
            && SearchInv(net, source, labels', open', todo - iset{h})
            && Settled(labels', open', x) && labels'[x] == labels[x]
            && (forall z :: Settled(labels', open', z) ==> labels'[z].cost.weight <= labels'[x].cost.weight)
  {
    hide Triangle, Witnessed, AllRelaxed, Parented;
    assert h.cost.weight > 0;
    hide Good;
    var labels' := Improve(labels, h.to, Add(labels[x].cost, h.cost), fromClique);
    var open' := Opened(labels, open, h.to);
    SettledNotImproved(net, labels, open, x, h);
    assert forall z :: Settled(labels', open', z) <==> Settled(labels, open, z);
    assert forall z :: Settled(labels, open, z) ==> labels'[z] == labels[z];
    assert Started(labels', open', source);
    RelaxKeepsWitness(net, source, labels, x, h, fromClique);
    assert Ordered(labels', open');
    RelaxKeepsRelaxed(net, labels, open, labels', open', todo, x, h);
    RelaxKeepsParents(net, labels, open, labels', open', x, h, fromClique);
  }

  lemma RelaxKeepsWitness(net: Network, source: nat, labels: map<nat, Label>, x: nat, h: Hop, fromClique: bool)
    requires Witnessed(net, source, labels) && h in Arcs(net) && h.from == x && x in labels
    ensures Witnessed(net, source, Improve(labels, h.to, Add(labels[x].cost, h.cost), fromClique))
  {
    assert Attains(Arcs(net), source, x, labels[x].cost);
    var p :| Walk(Arcs(net), source, p, x) && Total(p) == labels[x].cost;
    WalkSnoc(Arcs(net), source, p, h);
  }

  lemma RelaxKeepsRelaxed(net: Network, labels: map<nat, Label>, open: set<nat>, labels': map<nat, Label>,
        open': set<nat>, todo: iset<Hop>, x: nat, h: Hop)
    requires AllRelaxed(net, labels, open, todo)
    requires h.from == x && Settled(labels, open, x)
    requires forall z :: Settled(labels', open', z) <==> Settled(labels, open, z)
    requires forall z :: Settled(labels, open, z) ==> z in labels' && labels'[z] == labels[z]
    requires forall z :: z in labels ==> z in labels' && AtMost(labels'[z].cost, labels[z].cost)
    requires h.to in labels' && AtMost(labels'[h.to].cost, Add(labels[x].cost, h.cost))
    ensures AllRelaxed(net, labels', open', todo - iset{h})
  {
    forall k | k in Arcs(net) && k !in todo - iset{h} && Settled(labels', open', k.from) ensures Relaxed(labels', k) {
      assert Settled(labels, open, k.from);
      if k != h {
        assert Relaxed(labels, k);
      }
    }
  }

  lemma RelaxKeepsParents(net: Network, labels: map<nat, Label>, open: set<nat>, labels': map<nat, Label>,
        open': set<nat>, x: nat, h: Hop, fromClique: bool)
    requires Parented(net, labels, open)
    requires h.from == x && Settled(labels, open, x) && (fromClique ==> h in net.clique)
    requires forall z :: Settled(labels', open', z) <==> Settled(labels, open, z)
    requires forall z :: Settled(labels, open, z) ==> z in labels' && labels'[z] == labels[z]
    requires labels' == Improve(labels, h.to, Add(labels[x].cost, h.cost), fromClique)
    ensures Parented(net, labels', open')
  {
    forall v | v in labels' && labels'[v].fromClique ensures HasParent(net, labels', open', v) {
      if v == h.to && labels' != labels {
        assert h in net.clique && Settled(labels', open', h.from);
      } else {
        assert HasParent(net, labels, open, v);
        var k :| k in net.clique && k.to == v && Settled(labels, open, k.from)
            && labels[v].cost == Add(labels[k.from].cost, k.cost);
        assert Settled(labels', open', k.from);
      }
    }
  }

  /** A node reached by a clique arc need not scan its clique arcs: they are relaxed already. */
  lemma SkipClique(net: Network, source: nat, labels: map<nat, Label>, open: set<nat>, todo: iset<Hop>, x: nat)
    requires SearchInv(net, source, labels, open, todo) && todo <= ArcsFrom(net, x)
    requires Settled(labels, open, x) && labels[x].fromClique
    ensures SearchInv(net, source, labels, open, todo - net.clique)
  {
    assert HasParent(net, labels, open, x);
    var h :| h in net.clique && h.to == x && Settled(labels, open, h.from)
        && labels[x].cost == Add(labels[h.from].cost, h.cost);
    forall k | k in net.clique && k in todo ensures Relaxed(labels, k) {
      SkipOne(net, labels, open, todo, h, k);
    }
  }

  lemma SkipOne(net: Network, labels: map<nat, Label>, open: set<nat>, todo: iset<Hop>, h: Hop, k: Hop)
    requires Good(net) && AllRelaxed(net, labels, open, todo) && todo <= ArcsFrom(net, h.to)
    requires h in net.clique && k in net.clique && k.from == h.to
    requires Settled(labels, open, h.from) && Settled(labels, open, h.to)
    requires labels[h.to].cost == Add(labels[h.from].cost, h.cost)
    ensures Relaxed(labels, k)
  {
    hide Triangle, AllRelaxed;
    assert h in Arcs(net) && k in Arcs(net) && h.cost.weight > 0 && k.cost.weight > 0;
    hide Good;
    if h.from != k.to {
      var m := Shortcut(net, h, k);
      assert m !in todo;
      UseRelaxed(net, labels, open, todo, m);
    }
  }

  lemma Shortcut(net: Network, h: Hop, k: Hop) returns (m: Hop)
    requires Good(net) && h in net.clique && k in net.clique && h.to == k.from && h.from != k.to
    ensures m in net.clique && m in Arcs(net) && m.from == h.from && m.to == k.to && AtMost(m.cost, Add(h.cost, k.cost))
  {
    assert Shortened(net.clique, h.from, k.to, Add(h.cost, k.cost));
    hide Triangle, Good;
    m :| m in net.clique && m.from == h.from && m.to == k.to && AtMost(m.cost, Add(h.cost, k.cost));
  }

  lemma UseRelaxed(net: Network, labels: map<nat, Label>, open: set<nat>, todo: iset<Hop>, m: Hop)
    requires AllRelaxed(net, labels, open, todo) && m in Arcs(net) && m !in todo && Settled(labels, open, m.from)
    ensures Relaxed(labels, m)
  {}

  /** Every walk's end has a label that good, unless an open node is lighter than the walk. */
  lemma {:induction false} WalkIsCovered(net: Network, source: nat, labels: map<nat, Label>, open: set<nat>,
        p: seq<Hop>, v: nat)
    requires SearchInv(net, source, labels, open, iset{})
    requires Walk(Arcs(net), source, p, v)
    ensures || (v in labels && AtMost(labels[v].cost, Total(p)))
            || (exists y :: y in open && y in labels && labels[y].cost.weight < Total(p).weight)
    decreases |p|
  {
    if p != [] {
      var h := p[|p| - 1];
      WalkIsCovered(net, source, labels, open, p[..|p| - 1], h.from);
      assert h.cost.weight > 0;
      if h.from in labels && AtMost(labels[h.from].cost, Total(p[..|p| - 1])) {
        if h.from !in open {
          assert Settled(labels, open, h.from);
          assert Relaxed(labels, h);
        }
      }
    }
  }

  /** A settled label is the least cost over all walks. */
  lemma SettledIsLeast(net: Network, source: nat, labels: map<nat, Label>, open: set<nat>, v: nat)
    requires SearchInv(net, source, labels, open, iset{}) && Settled(labels, open, v)
    ensures Least(Arcs(net), source, v, labels[v].cost)
  {
    forall p | Walk(Arcs(net), source, p, v) ensures AtMost(labels[v].cost, Total(p)) {
      WalkIsCovered(net, source, labels, open, p, v);
    }
  }

  /** When nothing is open, a node without a label cannot be reached. */
  lemma UnlabelledIsUnreachable(net: Network, source: nat, labels: map<nat, Label>, v: nat)
    requires SearchInv(net, source, labels, {}, iset{}) && v !in labels
    ensures !Connected(Arcs(net), source, v)
  {
    forall p | Walk(Arcs(net), source, p, v) ensures false {
      WalkIsCovered(net, source, labels, {}, p, v);
    }
  }
}
