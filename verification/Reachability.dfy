/** Directed graphs as adjacency lists, and reachability along their edges. */
module Reachability {

  /** Nodes are 0..|adjacency|; `adjacency[u]` lists the targets of the edges leaving `u`. */
  datatype Graph = Graph(adjacency: seq<seq<nat>>) {
    function NumberOfNodes(): nat { |adjacency| }

    ghost predicate Valid() {
      forall u, e :: 0 <= u < |adjacency| && 0 <= e < |adjacency[u]| ==> adjacency[u][e] < |adjacency|
    }

    predicate HasEdge(u: nat, v: nat) {
      u < |adjacency| && v in adjacency[u]
    }
  }

  ghost predicate IsPath(g: Graph, p: seq<nat>) {
    && |p| > 0
    && (forall i :: 0 <= i < |p| ==> p[i] < g.NumberOfNodes())
    && (forall i :: 0 <= i < |p| - 1 ==> g.HasEdge(p[i], p[i + 1]))
  }

  ghost predicate Reachable(g: Graph, u: nat, v: nat) {
    exists p :: IsPath(g, p) && p[0] == u && p[|p| - 1] == v
  }

  ghost predicate StronglyConnected(g: Graph, u: nat, v: nat) {
    Reachable(g, u, v) && Reachable(g, v, u)
  }

  /** Reachability as one value, so that proofs can use its laws without its definition. */
  ghost function Reach(g: Graph): iset<(nat, nat)> {
    iset e: (nat, nat) | Reachable(g, e.0, e.1)
  }

  ghost predicate ReachLaws(g: Graph, r: iset<(nat, nat)>) {
    && (forall u: nat :: u < g.NumberOfNodes() ==> (u, u) in r)
    && (forall u: nat, v: nat :: g.HasEdge(u, v) ==> (u, v) in r)
    && (forall u: nat, v: nat, w: nat :: (u, v) in r && (v, w) in r ==> (u, w) in r)
  }

  lemma {:induction false} ReachObeysLaws(g: Graph)
    requires g.Valid()
    ensures ReachLaws(g, Reach(g))
  {
    var r := Reach(g);
    forall u: nat | u < g.NumberOfNodes() ensures (u, u) in r {
      assert IsPath(g, [u]);
    }
    forall u: nat, v: nat | g.HasEdge(u, v) ensures (u, v) in r {
      assert IsPath(g, [u, v]);
    }
    forall u: nat, v: nat, w: nat | (u, v) in r && (v, w) in r ensures (u, w) in r {
      var p :| IsPath(g, p) && p[0] == u && p[|p| - 1] == v;
      var q :| IsPath(g, q) && q[0] == v && q[|q| - 1] == w;
      var pq := p + q[1..];
      forall i | 0 <= i < |pq| - 1 ensures g.HasEdge(pq[i], pq[i + 1]) {
        if i >= |p| - 1 {
          assert pq[i] == q[i - |p| + 1] && pq[i + 1] == q[i - |p| + 2];
        }
      }
      assert IsPath(g, pq) && pq[0] == u && pq[|pq| - 1] == w;
    }
  }

  /** A labelling that no edge increases is not increased by any path. */
  lemma {:induction false} RanksFallAlongPaths(g: Graph, rank: seq<nat>, p: seq<nat>)
    requires |rank| == g.NumberOfNodes() && IsPath(g, p)
    requires forall u: nat, v: nat :: g.HasEdge(u, v) && v < |rank| ==> rank[v] <= rank[u]
    ensures rank[p[|p| - 1]] <= rank[p[0]]
    decreases |p|
  {
    if |p| > 1 {
      assert g.HasEdge(p[0], p[1]);
      assert forall i :: 0 <= i < |p[1..]| - 1 ==> g.HasEdge(p[1..][i], p[1..][i + 1]);
      RanksFallAlongPaths(g, rank, p[1..]);
    }
  }
}
