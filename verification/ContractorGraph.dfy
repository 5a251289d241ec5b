/** Building the contractor graph: both directions of every edge, sorted, and compacted in place. */
module ContractorGraph {
  import opened Typedefs
  import opened Walks

  type EdgeWeight = w: int | -0x8000_0000 <= w < 0x8000_0000

  datatype InputEdge = InputEdge(source: nat, target: nat, weight: EdgeWeight, duration: int, distance: real,
      turnId: nat, forward: bool, backward: bool)

  datatype ContractorEdge = ContractorEdge(
    source: nat, target: nat, weight: EdgeWeight, duration: int, distance: real,
    originalEdges: nat, id: nat, shortcut: bool, forward: bool, backward: bool)

  // ---- expansion

  function Max(x: EdgeWeight, y: EdgeWeight): EdgeWeight {
    if x >= y then x else y
  }

  function Along(e: InputEdge): ContractorEdge {
    ContractorEdge(e.source, e.target, Max(e.weight, 1), e.duration, e.distance, 1, e.turnId, false, e.forward,
        e.backward)
  }

  function Against(e: InputEdge): ContractorEdge {
    ContractorEdge(e.target, e.source, Max(e.weight, 1), e.duration, e.distance, 1, e.turnId, false, e.backward,
        e.forward)
  }

  /** Both directions of every edge with a valid weight. */
  method Expand(input: seq<InputEdge>) returns (edges: seq<ContractorEdge>)
    ensures ExpandsTo(input, edges)
  {
    edges := [];
    for i := 0 to |input|
      invariant forall e :: e in edges <==>
              exists x :: x in input[..i] && x.weight != INVALID_EDGE_WEIGHT && (e == Along(x) || e == Against(x))
    {
      ghost var was := edges;
      assert input[..i + 1] == input[..i] + [input[i]];
      if input[i].weight == INVALID_EDGE_WEIGHT {
        continue;
      }
      edges := edges + [Along(input[i])] + [Against(input[i])];
      forall e
        ensures e in edges <==>
          exists x :: x in input[..i + 1] && x.weight != INVALID_EDGE_WEIGHT && (e == Along(x) || e == Against(x))
      {
        if e in was {
          var x :| x in input[..i] && x.weight != INVALID_EDGE_WEIGHT && (e == Along(x) || e == Against(x));
          assert x in input[..i + 1];
        } else if e in edges {
          assert input[i] in input[..i + 1];
        }
      }
    }
    assert input[..|input|] == input;
  }

  // ---- sorting by source and target; edges with the same ends may come in any order

  predicate Before(a: ContractorEdge, b: ContractorEdge) {
    a.source < b.source || (a.source == b.source && a.target < b.target)
  }

  ghost predicate Sorted(edges: seq<ContractorEdge>) {
    forall i, j :: 0 <= i < j < |edges| ==> !Before(edges[j], edges[i])
  }

  method Sort(edges: seq<ContractorEdge>) returns (sorted: seq<ContractorEdge>)
    ensures Sorted(sorted) && multiset(sorted) == multiset(edges)
  {
    sorted := [];
    for i := 0 to |edges|
      invariant Sorted(sorted) && multiset(sorted) == multiset(edges[..i])
    {
      var k := |sorted|;
      while k > 0 && Before(edges[i], sorted[k - 1])
        invariant 0 <= k <= |sorted| && forall j :: k <= j < |sorted| ==> Before(edges[i], sorted[j])
      {
        k := k - 1;
      }
      assert sorted == sorted[..k] + sorted[k..];
      assert edges[..i + 1] == edges[..i] + [edges[i]];
      InsertSorted(sorted, k, edges[i]);
      sorted := sorted[..k] + [edges[i]] + sorted[k..];
    }
    assert edges[..|edges|] == edges;
  }

  lemma InsertSorted(sorted: seq<ContractorEdge>, k: nat, e: ContractorEdge)
    requires Sorted(sorted) && k <= |sorted|
    requires forall j :: k <= j < |sorted| ==> Before(e, sorted[j])
    requires k > 0 ==> !Before(e, sorted[k - 1])
    ensures Sorted(sorted[..k] + [e] + sorted[k..])
  {
    var r := sorted[..k] + [e] + sorted[k..];
    forall i, j | 0 <= i < j < |r| ensures !Before(r[j], r[i]) {
      if j == k {
        assert !Before(sorted[k - 1], sorted[i]) || i == k - 1;
        assert i < k - 1 ==> !Before(sorted[k - 1], sorted[i]);
      }
    }
  }

  // ---- what the compacted list means

  predicate Open(e: ContractorEdge, forward: bool) {
    if forward then e.forward else e.backward
  }

  predicate Matches(e: ContractorEdge, s: nat, t: nat, forward: bool) {
    e.source == s && e.target == t && Open(e, forward)
  }

  /** `w` is the least weight of the edges from `s` to `t` open in the given direction. */
  ghost predicate LeastOf(edges: seq<ContractorEdge>, s: nat, t: nat, forward: bool, w: int) {
    && (exists k :: 0 <= k < |edges| && Matches(edges[k], s, t, forward) && edges[k].weight == w)
    && (forall k :: 0 <= k < |edges| && Matches(edges[k], s, t, forward) ==> w <= edges[k].weight)
  }

  ghost predicate Has(edges: seq<ContractorEdge>, s: nat, t: nat, forward: bool, w: int) {
    exists k :: 0 <= k < |edges| && Matches(edges[k], s, t, forward) && edges[k].weight == w
  }

  /** `result` holds, for each ordered pair of different nodes and each direction, exactly the least weight. */
  ghost predicate Compacts(edges: seq<ContractorEdge>, result: seq<ContractorEdge>) {
    && (forall s: nat, t: nat, forward, w :: Has(result, s, t, forward, w) <==>
        s != t && LeastOf(edges, s, t, forward, w))
    && OnePerDirection(result)
  }

  /** No loops, no edge closed in both directions, and no two edges for one pair and direction. */
  ghost predicate OnePerDirection(result: seq<ContractorEdge>) {
    && (forall k :: 0 <= k < |result| ==>
        result[k].source != result[k].target && (result[k].forward || result[k].backward))
    && (forall j, k, forward :: 0 <= j < k < |result| && Matches(result[j], result[j].source, result[j].target, forward)
          ==> !Matches(result[k], result[j].source, result[j].target, forward))
  }

  ghost predicate ValidWeights(edges: seq<ContractorEdge>) {
    forall k :: 0 <= k < |edges| ==> 1 <= edges[k].weight < INVALID_EDGE_WEIGHT
  }

  /** `w` is the least weight in one direction over a group of parallel edges, or INVALID if there is none. */
  ghost predicate GroupLeast(edges: seq<ContractorEdge>, i: nat, j: nat, forward: bool, w: int) {
    && i <= j <= |edges|
    && (forall k :: i <= k < j && Open(edges[k], forward) ==> w <= edges[k].weight)
    && (w != INVALID_EDGE_WEIGHT ==> exists k :: i <= k < j && Open(edges[k], forward) && edges[k].weight == w)
  }

  datatype Quantity = Duration | Distance

  function Amount(e: ContractorEdge, q: Quantity): real {
    if q.Duration? then e.duration as real else e.distance
  }

  function Cap(q: Quantity): real {
    if q.Duration? then MAXIMAL_EDGE_DURATION as real else INVALID_EDGE_DISTANCE
  }

  /** `v` is the least amount of the edges from `s` to `t` open in the given direction, at most the cap. */
  ghost predicate LeastAmount(edges: seq<ContractorEdge>, s: nat, t: nat, forward: bool, q: Quantity, v: real) {
    && v <= Cap(q)
    && (forall k :: 0 <= k < |edges| && Matches(edges[k], s, t, forward) ==> v <= Amount(edges[k], q))
    && (v == Cap(q) || exists k :: 0 <= k < |edges| && Matches(edges[k], s, t, forward) && Amount(edges[k], q) == v)
  }

  /** The same over a group of parallel edges. */
  ghost predicate GroupAmount(edges: seq<ContractorEdge>, i: nat, j: nat, forward: bool, q: Quantity, v: real) {
    && i <= j <= |edges| && v <= Cap(q)
    && (forall k :: i <= k < j && Open(edges[k], forward) ==> v <= Amount(edges[k], q))
    && (v == Cap(q) || exists k :: i <= k < j && Open(edges[k], forward) && Amount(edges[k], q) == v)
  }

  /** The duration and the distance of `e` are the least ones of the group in one direction. */
  ghost predicate GroupAmounts(edges: seq<ContractorEdge>, i: nat, j: nat, forward: bool, e: ContractorEdge) {
    forall q :: GroupAmount(edges, i, j, forward, q, Amount(e, q))
  }

  /**
   * Every edge of `result` carries the least duration and the least distance of its forward
   * direction, or of its backward direction if it is only open backward.
   */
  ghost predicate Priced(edges: seq<ContractorEdge>, result: seq<ContractorEdge>) {
    forall k, q :: 0 <= k < |result| ==>
      LeastAmount(edges, result[k].source, result[k].target, result[k].forward, q, Amount(result[k], q))
  }

  /** Some edge between the same nodes has this id. */
  ghost predicate HasId(edges: seq<ContractorEdge>, e: ContractorEdge) {
    exists k :: 0 <= k < |edges| && edges[k].source == e.source && edges[k].target == e.target && edges[k].id == e.id
  }

  /** Every edge of `result` is original and carries the id of an edge between the same nodes. */
  ghost predicate Identified(edges: seq<ContractorEdge>, result: seq<ContractorEdge>) {
    forall k :: 0 <= k < |result| ==>
      HasId(edges, result[k]) && result[k].originalEdges == 1 && !result[k].shortcut
  }

  ghost predicate IsGroup(edges: seq<ContractorEdge>, i: nat, j: nat, s: nat, t: nat) {
    && i < j <= |edges|
    && (forall k :: i <= k < j ==> edges[k].source == s && edges[k].target == t)
    && (forall k :: 0 <= k < |edges| && !(i <= k < j) ==> edges[k].source != s || edges[k].target != t)
  }

  // ---- the in-place compaction

  /** Takes the smaller weight, the smaller duration and the smaller distance. */
  function Smaller(best: ContractorEdge, e: ContractorEdge): ContractorEdge {
    best.(
      weight := if e.weight < best.weight then e.weight else best.weight,
      duration := if e.duration < best.duration then e.duration else best.duration,
      distance := if e.distance < best.distance then e.distance else best.distance)
  }

  lemma SmallerKeeps(best: ContractorEdge, e: ContractorEdge)
    ensures var r := Smaller(best, e);
            r.id == best.id && r.originalEdges == best.originalEdges && r.shortcut == best.shortcut
            && r.source == best.source && r.target == best.target && r.forward == best.forward
                && r.backward == best.backward
  {}

  lemma GroupStarts(edges: seq<ContractorEdge>, i: nat, forward: bool, best: ContractorEdge)
    requires i <= |edges| && best.weight == INVALID_EDGE_WEIGHT
    requires best.duration == MAXIMAL_EDGE_DURATION && best.distance == INVALID_EDGE_DISTANCE
    ensures GroupLeast(edges, i, i, forward, best.weight) && GroupAmounts(edges, i, i, forward, best)
  {}

  lemma GroupGrows(edges: seq<ContractorEdge>, i: nat, j: nat, forward: bool, best: ContractorEdge)
    requires j < |edges| && GroupLeast(edges, i, j, forward, best.weight) && GroupAmounts(edges, i, j, forward, best)
    ensures var e := if Open(edges[j], forward) then Smaller(best, edges[j]) else best;
            GroupLeast(edges, i, j + 1, forward, e.weight) && GroupAmounts(edges, i, j + 1, forward, e)
  {
    var e := if Open(edges[j], forward) then Smaller(best, edges[j]) else best;
    forall q ensures GroupAmount(edges, i, j + 1, forward, q, Amount(e, q)) {
      assert GroupAmount(edges, i, j, forward, q, Amount(best, q));
    }
  }

  method ScanGroup(a: array<ContractorEdge>, i: nat)
    returns (j: nat, forwardEdge: ContractorEdge, reverseEdge: ContractorEdge)
    requires i < a.Length
    ensures i < j <= a.Length
    ensures forall k :: i <= k < j ==> a[k].source == a[i].source && a[k].target == a[i].target
    ensures j < a.Length ==> a[j].source != a[i].source || a[j].target != a[i].target
    ensures GroupLeast(a[..], i, j, true, forwardEdge.weight) && GroupLeast(a[..], i, j, false, reverseEdge.weight)
    ensures GroupAmounts(a[..], i, j, true, forwardEdge) && GroupAmounts(a[..], i, j, false, reverseEdge)
    ensures IsOriginal(forwardEdge, a[i].id) && IsOriginal(reverseEdge, a[i].id)
    ensures forwardEdge.source == reverseEdge.source == a[i].source
    ensures forwardEdge.target == reverseEdge.target == a[i].target
    ensures forwardEdge.forward && !forwardEdge.backward && !reverseEdge.forward && reverseEdge.backward
  {
    hide GroupLeast, GroupAmounts, Smaller;
    var source, target, id := a[i].source, a[i].target, a[i].id;
    forwardEdge := ContractorEdge(source, target, INVALID_EDGE_WEIGHT, MAXIMAL_EDGE_DURATION, INVALID_EDGE_DISTANCE, 1,
        id, false, true, false);
    reverseEdge := ContractorEdge(source, target, INVALID_EDGE_WEIGHT, MAXIMAL_EDGE_DURATION, INVALID_EDGE_DISTANCE, 1,
        id, false, false, true);
    j := i;
    GroupStarts(a[..], i, true, forwardEdge);
    GroupStarts(a[..], i, false, reverseEdge);
    while j < a.Length && a[j].source == source && a[j].target == target
      invariant i <= j <= a.Length && (j == i ==> a[j].source == source && a[j].target == target)
      invariant forall k :: i <= k < j ==> a[k].source == source && a[k].target == target
      invariant GroupLeast(a[..], i, j, true, forwardEdge.weight) && GroupLeast(a[..], i, j, false, reverseEdge.weight)
      invariant GroupAmounts(a[..], i, j, true, forwardEdge) && GroupAmounts(a[..], i, j, false, reverseEdge)
      invariant IsOriginal(forwardEdge, id) && IsOriginal(reverseEdge, id)
      invariant forwardEdge.source == reverseEdge.source == source && forwardEdge.target == reverseEdge.target == target
      invariant forwardEdge.forward && !forwardEdge.backward && !reverseEdge.forward && reverseEdge.backward
    {
      GroupGrows(a[..], i, j, true, forwardEdge);
      GroupGrows(a[..], i, j, false, reverseEdge);
      if a[j].forward {
        SmallerKeeps(forwardEdge, a[j]);
        forwardEdge := Smaller(forwardEdge, a[j]);
      }
      if a[j].backward {
        SmallerKeeps(reverseEdge, a[j]);
        reverseEdge := Smaller(reverseEdge, a[j]);
      }
      j := j + 1;
    }
  }

  predicate IsOriginal(e: ContractorEdge, id: nat) { e.id == id && e.originalEdges == 1 && !e.shortcut }

  /** What one group contributes to the result. */
  function Emitted(forwardEdge: ContractorEdge, reverseEdge: ContractorEdge): seq<ContractorEdge> {
    if forwardEdge.weight == reverseEdge.weight then
      if forwardEdge.weight != INVALID_EDGE_WEIGHT then [forwardEdge.(backward := true)] else []
    else
      (if forwardEdge.weight != INVALID_EDGE_WEIGHT then [forwardEdge] else []) +
      (if reverseEdge.weight != INVALID_EDGE_WEIGHT then [reverseEdge] else [])
  }

  /** A group emits two edges only if it held two, so writing never overtakes reading. */
  lemma EmitsNoMoreThanRead(edges: seq<ContractorEdge>, i: nat, j: nat, f: ContractorEdge, r: ContractorEdge)
    requires GroupLeast(edges, i, j, true, f.weight) && GroupLeast(edges, i, j, false, r.weight)
    ensures |Emitted(f, r)| <= j - i
  {}

  lemma EmittedMeans(f: ContractorEdge, r: ContractorEdge, s: nat, t: nat, forward: bool, w: int)
    requires f.source == r.source == s && f.target == r.target == t && f.forward && !f.backward && !r.forward
    requires r.backward
    ensures Has(Emitted(f, r), s, t, forward, w) <==>
            w == (if forward then f.weight else r.weight) && w != INVALID_EDGE_WEIGHT
  {
    var e := Emitted(f, r);
    if f.weight == r.weight != INVALID_EDGE_WEIGHT {
      assert Matches(e[0], s, t, forward);
    } else if f.weight != r.weight {
      if f.weight != INVALID_EDGE_WEIGHT { assert e[0] == f; }
      if r.weight != INVALID_EDGE_WEIGHT { assert e[|e| - 1] == r; }
    }
  }

  lemma HasAppend(a: seq<ContractorEdge>, b: seq<ContractorEdge>, s: nat, t: nat, forward: bool, w: int)
    ensures Has(a + b, s, t, forward, w) <==> Has(a, s, t, forward, w) || Has(b, s, t, forward, w)
  {
    if Has(a, s, t, forward, w) {
      var k :| 0 <= k < |a| && Matches(a[k], s, t, forward) && a[k].weight == w;
      assert (a + b)[k] == a[k];
    }
    if Has(b, s, t, forward, w) {
      var k :| 0 <= k < |b| && Matches(b[k], s, t, forward) && b[k].weight == w;
      assert (a + b)[|a| + k] == b[k];
    }
  }

  /** Least weights of other pairs are not affected by a group. */
  lemma LeastOutsideGroup(edges: seq<ContractorEdge>, i: nat, j: nat, s: nat, t: nat, x: nat, y: nat, forward: bool,
        w: int)
    requires j <= |edges| && IsGroup(edges[..j], i, j, s, t) && (x, y) != (s, t)
    ensures LeastOf(edges[..j], x, y, forward, w) <==> LeastOf(edges[..i], x, y, forward, w)
  {
    var before, after := edges[..i], edges[..j];
    assert forall k :: 0 <= k < i ==> before[k] == after[k];
    assert forall k :: 0 <= k < j && Matches(after[k], x, y, forward) ==> k < i;
    if LeastOf(after, x, y, forward, w) {
      var k :| 0 <= k < |after| && Matches(after[k], x, y, forward) && after[k].weight == w;
      assert before[k] == after[k];
    }
    if LeastOf(before, x, y, forward, w) {
      var k :| 0 <= k < |before| && Matches(before[k], x, y, forward) && before[k].weight == w;
      assert after[k] == before[k];
    }
  }

  /** Those of its own pair come from it alone. */
  lemma LeastInsideGroup(edges: seq<ContractorEdge>, i: nat, j: nat, s: nat, t: nat, forward: bool, w: int, m: int)
    requires j <= |edges| && IsGroup(edges[..j], i, j, s, t) && ValidWeights(edges)
    requires GroupLeast(edges, i, j, forward, m)
    ensures LeastOf(edges[..j], s, t, forward, w) <==> w == m && m != INVALID_EDGE_WEIGHT
  {
    var after := edges[..j];
    if LeastOf(after, s, t, forward, w) {
      var k :| 0 <= k < |after| && Matches(after[k], s, t, forward) && after[k].weight == w;
      assert i <= k < j;
      assert m <= edges[k].weight < INVALID_EDGE_WEIGHT;
      var n :| i <= n < j && Open(edges[n], forward) && edges[n].weight == m;
      assert Matches(after[n], s, t, forward);
    } else if m != INVALID_EDGE_WEIGHT {
      var n :| i <= n < j && Open(edges[n], forward) && edges[n].weight == m;
      assert Matches(after[n], s, t, forward) && after[n].weight == m;
      forall k | 0 <= k < |after| && Matches(after[k], s, t, forward) ensures m <= after[k].weight {
        assert i <= k < j;
      }
    }
  }

  /** A processed group of parallel edges extends the compacted list. */
  lemma GroupExtends(edges: seq<ContractorEdge>, i: nat, j: nat, result: seq<ContractorEdge>, f: ContractorEdge,
        r: ContractorEdge)
    requires i < j <= |edges| && ValidWeights(edges) && IsGroup(edges[..j], i, j, f.source, f.target)
    requires f.source != f.target
    requires GroupLeast(edges, i, j, true, f.weight) && GroupLeast(edges, i, j, false, r.weight)
    requires f.source == r.source && f.target == r.target && f.forward && !f.backward && !r.forward && r.backward
    requires Compacts(edges[..i], result)
    ensures Compacts(edges[..j], result + Emitted(f, r))
  {
    var emitted := Emitted(f, r);
    forall x: nat, y: nat, forward, w
      ensures Has(result + emitted, x, y, forward, w) <==> x != y && LeastOf(edges[..j], x, y, forward, w)
    {
      HasAppend(result, emitted, x, y, forward, w);
      EmittedMeans(f, r, f.source, f.target, forward, w);
      if (x, y) == (f.source, f.target) {
        LeastInsideGroup(edges, i, j, x, y, forward, w, if forward then f.weight else r.weight);
        NoneBefore(edges, i, j, x, y, forward, w);
      } else {
        LeastOutsideGroup(edges, i, j, f.source, f.target, x, y, forward, w);
      }
    }
    GroupUnique(edges, i, j, result, f, r);
  }

  lemma NoneBefore(edges: seq<ContractorEdge>, i: nat, j: nat, s: nat, t: nat, forward: bool, w: int)
    requires i <= j <= |edges| && IsGroup(edges[..j], i, j, s, t)
    ensures !LeastOf(edges[..i], s, t, forward, w)
  {
    assert forall k :: 0 <= k < i ==> edges[..i][k] == edges[..j][k];
  }

  /** No edge written so far has the ends of the group. */
  lemma GroupIsNew(edges: seq<ContractorEdge>, i: nat, j: nat, result: seq<ContractorEdge>, s: nat, t: nat)
    requires i < j <= |edges| && IsGroup(edges[..j], i, j, s, t) && Compacts(edges[..i], result)
    ensures forall k :: 0 <= k < |result| ==> result[k].source != s || result[k].target != t
  {
    forall k | 0 <= k < |result| ensures result[k].source != s || result[k].target != t {
      var forward := result[k].forward;
      assert Matches(result[k], result[k].source, result[k].target, forward);
      assert Has(result, result[k].source, result[k].target, forward, result[k].weight);
      NoneBefore(edges, i, j, s, t, forward, result[k].weight);
    }
  }

  lemma GroupUnique(edges: seq<ContractorEdge>, i: nat, j: nat, result: seq<ContractorEdge>, f: ContractorEdge,
        r: ContractorEdge)
    requires i < j <= |edges| && IsGroup(edges[..j], i, j, f.source, f.target) && f.source != f.target
    requires f.source == r.source && f.target == r.target && f.forward && !f.backward && !r.forward && r.backward
    requires Compacts(edges[..i], result)
    ensures OnePerDirection(result + Emitted(f, r))
  {
    var all := result + Emitted(f, r);
    GroupIsNew(edges, i, j, result, f.source, f.target);
    forall m, k, forward | 0 <= m < k < |all| && Matches(all[m], all[m].source, all[m].target, forward)
      ensures !Matches(all[k], all[m].source, all[m].target, forward)
    {
      if k < |result| {
        assert all[m] == result[m] && all[k] == result[k];
      }
    }
  }

  /** Least amounts of other pairs are not affected by a group. */
  lemma AmountOutsideGroup(edges: seq<ContractorEdge>, i: nat, j: nat, x: nat, y: nat, forward: bool, q: Quantity,
        v: real)
    requires i <= j <= |edges| && LeastAmount(edges[..i], x, y, forward, q, v)
    requires forall k :: i <= k < j ==> edges[k].source != x || edges[k].target != y
    ensures LeastAmount(edges[..j], x, y, forward, q, v)
  {
    hide Amount, Cap;
    var before, after := edges[..i], edges[..j];
    assert forall k :: 0 <= k < i ==> before[k] == after[k];
    if v != Cap(q) {
      var k :| 0 <= k < |before| && Matches(before[k], x, y, forward) && Amount(before[k], q) == v;
      assert after[k] == before[k];
    }
  }

  lemma AmountInsideGroup(edges: seq<ContractorEdge>, i: nat, j: nat, s: nat, t: nat, forward: bool, q: Quantity,
        v: real)
    requires j <= |edges| && IsGroup(edges[..j], i, j, s, t) && GroupAmount(edges, i, j, forward, q, v)
    ensures LeastAmount(edges[..j], s, t, forward, q, v)
  {
    hide Amount, Cap;
    var after := edges[..j];
    if v != Cap(q) {
      var k :| i <= k < j && Open(edges[k], forward) && Amount(edges[k], q) == v;
      assert Matches(after[k], s, t, forward);
    }
  }

  lemma GroupPriced(edges: seq<ContractorEdge>, i: nat, j: nat, result: seq<ContractorEdge>, f: ContractorEdge,
        r: ContractorEdge)
    requires i < j <= |edges| && IsGroup(edges[..j], i, j, f.source, f.target)
    requires f.source == r.source && f.target == r.target && f.forward && !r.forward
    requires GroupAmounts(edges, i, j, true, f) && GroupAmounts(edges, i, j, false, r)
    requires forall k :: 0 <= k < |result| ==> result[k].source != f.source || result[k].target != f.target
    requires Priced(edges[..i], result)
    ensures Priced(edges[..j], result + Emitted(f, r))
  {
    var all := result + Emitted(f, r);
    forall k, q | 0 <= k < |all|
      ensures LeastAmount(edges[..j], all[k].source, all[k].target, all[k].forward, q, Amount(all[k], q))
    {
      if k < |result| {
        assert forall n :: i <= n < j ==> edges[n] == edges[..j][n];
        AmountOutsideGroup(edges, i, j, all[k].source, all[k].target, all[k].forward, q, Amount(all[k], q));
      } else {
        var e := if all[k].forward then f else r;
        assert Amount(all[k], q) == Amount(e, q);
        AmountInsideGroup(edges, i, j, f.source, f.target, all[k].forward, q, Amount(e, q));
      }
    }
  }

  lemma IdentifiedGrows(edges: seq<ContractorEdge>, i: nat, j: nat, result: seq<ContractorEdge>)
    requires i <= j <= |edges| && Identified(edges[..i], result)
    ensures Identified(edges[..j], result)
  {
    forall k | 0 <= k < |result| ensures HasId(edges[..j], result[k]) {
      assert HasId(edges[..i], result[k]);
      var n :| 0 <= n < i && edges[..i][n].source == result[k].source && edges[..i][n].target == result[k].target
               && edges[..i][n].id == result[k].id;
      assert edges[..j][n] == edges[..i][n];
    }
  }

  lemma GroupIdentified(edges: seq<ContractorEdge>, i: nat, j: nat, result: seq<ContractorEdge>, f: ContractorEdge,
        r: ContractorEdge)
    requires i < j <= |edges| && Identified(edges[..i], result)
    requires f.source == r.source == edges[i].source && f.target == r.target == edges[i].target
    requires IsOriginal(f, edges[i].id) && IsOriginal(r, edges[i].id)
    ensures Identified(edges[..j], result + Emitted(f, r))
  {
    IdentifiedGrows(edges, i, j, result);
    assert edges[..j][i] == edges[i];
    assert HasId(edges[..j], f) && HasId(edges[..j], r) && HasId(edges[..j], f.(backward := true));
    hide HasId;
  }

  lemma LoopPriced(edges: seq<ContractorEdge>, i: nat, result: seq<ContractorEdge>)
    requires i < |edges| && edges[i].source == edges[i].target && OnePerDirection(result) && Priced(edges[..i], result)
    ensures Priced(edges[..i + 1], result)
  {
    forall k, q | 0 <= k < |result|
      ensures LeastAmount(edges[..i + 1], result[k].source, result[k].target, result[k].forward, q,
              Amount(result[k], q))
    {
      AmountOutsideGroup(edges, i, i + 1, result[k].source, result[k].target, result[k].forward, q,
          Amount(result[k], q));
    }
  }

  lemma LoopSkipped(edges: seq<ContractorEdge>, i: nat, result: seq<ContractorEdge>)
    requires i < |edges| && edges[i].source == edges[i].target && Compacts(edges[..i], result)
    ensures Compacts(edges[..i + 1], result)
  {
    var before, after := edges[..i], edges[..i + 1];
    forall s: nat, t: nat, forward, w | s != t
      ensures LeastOf(after, s, t, forward, w) <==> LeastOf(before, s, t, forward, w)
    {
      assert forall k :: 0 <= k < i ==> before[k] == after[k];
      if LeastOf(before, s, t, forward, w) {
        var k :| 0 <= k < |before| && Matches(before[k], s, t, forward) && before[k].weight == w;
        assert after[k] == before[k];
      }
    }
  }

  /** Group boundaries in a sorted list: nothing before or after shares the ends of the group. */
  lemma SortedGroup(edges: seq<ContractorEdge>, i: nat, j: nat)
    requires i < j <= |edges| && Sorted(edges)
    requires forall k :: i <= k < j ==> edges[k].source == edges[i].source && edges[k].target == edges[i].target
    requires i > 0 ==> Before(edges[i - 1], edges[i])
    ensures IsGroup(edges[..j], i, j, edges[i].source, edges[i].target)
  {
    forall k | 0 <= k < i ensures edges[k].source != edges[i].source || edges[k].target != edges[i].target {
      assert k < i - 1 ==> !Before(edges[i - 1], edges[k]);
    }
  }

  /** No written edge is ordered after `e`. */
  ghost predicate Behind(result: seq<ContractorEdge>, e: ContractorEdge) {
    |result| > 0 ==> !Before(e, result[|result| - 1])
  }

  lemma BehindAppend(edges: seq<ContractorEdge>, i: nat, j: nat, result: seq<ContractorEdge>, f: ContractorEdge,
        r: ContractorEdge)
    requires i < j <= |edges| && edges[i].source == edges[j - 1].source == f.source == r.source
    requires edges[i].target == edges[j - 1].target == f.target == r.target
    requires if i > 0 then Before(edges[i - 1], edges[i]) && Behind(result, edges[i - 1]) else result == []
    ensures Behind(result, f) && Behind(result + Emitted(f, r), edges[j - 1])
  {}

  lemma SortedAppend(result: seq<ContractorEdge>, f: ContractorEdge, r: ContractorEdge)
    requires Sorted(result) && f.source == r.source && f.target == r.target
    requires Behind(result, f)
    ensures Sorted(result + Emitted(f, r))
  {
    var all := result + Emitted(f, r);
    forall i, j | 0 <= i < j < |all| ensures !Before(all[j], all[i]) {
      if i < |result| <= j {
        assert i < |result| - 1 ==> !Before(result[|result| - 1], result[i]);
      }
    }
  }

  /** Writes what a group emits behind the edges written so far. */
  method Emit(a: array<ContractorEdge>, start: nat, forwardEdge: ContractorEdge, reverseEdge: ContractorEdge)
    returns (edge: nat)
    requires start + |Emitted(forwardEdge, reverseEdge)| <= a.Length
    modifies a
    ensures edge == start + |Emitted(forwardEdge, reverseEdge)|
    ensures a[..edge] == old(a[..start]) + Emitted(forwardEdge, reverseEdge)
    ensures forall k :: edge <= k < a.Length ==> a[k] == old(a[k])
  {
    edge := start;
    if forwardEdge.weight == reverseEdge.weight {
      if forwardEdge.weight != INVALID_EDGE_WEIGHT {
        a[edge] := forwardEdge.(backward := true);
        edge := edge + 1;
      }
    } else {
      if forwardEdge.weight != INVALID_EDGE_WEIGHT {
        a[edge] := forwardEdge;
        edge := edge + 1;
      }
      if reverseEdge.weight != INVALID_EDGE_WEIGHT {
        a[edge] := reverseEdge;
        edge := edge + 1;
      }
    }
  }

  /** What holds when the first `i` edges have been read and `result` written. */
  ghost predicate ReadSoFar(all: seq<ContractorEdge>, i: nat, result: seq<ContractorEdge>) {
    && |result| <= i <= |all| && Compacts(all[..i], result) && Priced(all[..i], result) && Sorted(result)
    && Identified(all[..i], result)
    && (0 < i < |all| && all[i].source != all[i].target ==> Before(all[i - 1], all[i]))
    && (i > 0 ==> Behind(result, all[i - 1]))
  }

  lemma LoopRead(all: seq<ContractorEdge>, i: nat, result: seq<ContractorEdge>)
    requires ReadSoFar(all, i, result) && Sorted(all) && i < |all| && all[i].source == all[i].target
    ensures ReadSoFar(all, i + 1, result)
  {
    LoopSkipped(all, i, result);
    LoopPriced(all, i, result);
    IdentifiedGrows(all, i, i + 1, result);
    hide Compacts, Priced, Identified;
    if i > 0 { assert !Before(all[i], all[i - 1]); }
    if i + 1 < |all| { assert !Before(all[i + 1], all[i]); }
  }

  lemma GroupRead(all: seq<ContractorEdge>, i: nat, j: nat, result: seq<ContractorEdge>, f: ContractorEdge,
        r: ContractorEdge)
    requires ReadSoFar(all, i, result) && Sorted(all) && ValidWeights(all) && i < j <= |all|
    requires f.source == r.source == all[i].source && f.target == r.target == all[i].target && f.source != f.target
    requires f.forward && !f.backward && !r.forward && r.backward
    requires forall k :: i <= k < j ==> all[k].source == all[i].source && all[k].target == all[i].target
    requires j < |all| ==> all[j].source != all[i].source || all[j].target != all[i].target
    requires GroupLeast(all, i, j, true, f.weight) && GroupLeast(all, i, j, false, r.weight)
    requires GroupAmounts(all, i, j, true, f) && GroupAmounts(all, i, j, false, r)
    requires IsOriginal(f, all[i].id) && IsOriginal(r, all[i].id)
    ensures i + |Emitted(f, r)| <= j && ReadSoFar(all, j, result + Emitted(f, r))
  {
    hide Compacts, GroupLeast, Emitted, ValidWeights, Priced, GroupAmounts, IsGroup, Identified, IsOriginal;
    assert all[j - 1].source == all[i].source && all[j - 1].target == all[i].target;
    SortedGroup(all, i, j);
    GroupExtends(all, i, j, result, f, r);
    GroupIsNew(all, i, j, result, f.source, f.target);
    GroupPriced(all, i, j, result, f, r);
    GroupIdentified(all, i, j, result, f, r);
    EmitsNoMoreThanRead(all, i, j, f, r);
    BehindAppend(all, i, j, result, f, r);
    SortedAppend(result, f, r);
    if j < |all| { assert !Before(all[j], all[j - 1]); }
  }

  /** Compacts the sorted array in place and returns the length of the result. */
  method Compact(a: array<ContractorEdge>) returns (edge: nat)
    requires Sorted(a[..]) && ValidWeights(a[..])
    modifies a
    ensures edge <= a.Length && Compacts(old(a[..]), a[..edge]) && Sorted(a[..edge])
    ensures Priced(old(a[..]), a[..edge]) && Identified(old(a[..]), a[..edge])
  {
    hide Compacts, Priced, GroupLeast, GroupAmounts, Emitted, Identified, IsOriginal;
    ghost var all := a[..];
    edge := 0;
    var i := 0;
    NothingCompacts();
    while i < a.Length
      invariant edge <= i <= a.Length && ReadSoFar(all, i, a[..edge])
      invariant forall k :: i <= k < a.Length ==> a[k] == all[k]
      decreases a.Length - i
    {
      assert a[i] == all[i];
      if a[i].source == a[i].target {
        LoopRead(all, i, a[..edge]);
        i := i + 1;
        continue;
      }
      ghost var result := a[..edge];
      var j, forwardEdge, reverseEdge := ScanGroup(a, i);
      SameGroupLeast(a[..], all, i, j, true, forwardEdge.weight);
      SameGroupLeast(a[..], all, i, j, false, reverseEdge.weight);
      SameGroupAmounts(a[..], all, i, j, true, forwardEdge);
      SameGroupAmounts(a[..], all, i, j, false, reverseEdge);
      GroupRead(all, i, j, result, forwardEdge, reverseEdge);
      hide ReadSoFar;
      edge := Emit(a, edge, forwardEdge, reverseEdge);
      i := j;
    }
    assert all[..i] == all;
  }

  lemma NothingCompacts()
    ensures Compacts([], []) && Priced([], []) && Identified([], [])
  {}

  lemma SameGroupLeast(edges: seq<ContractorEdge>, edges': seq<ContractorEdge>, i: nat, j: nat, forward: bool, w: int)
    requires GroupLeast(edges, i, j, forward, w) && |edges| == |edges'|
    requires forall k :: i <= k < |edges| ==> edges[k] == edges'[k]
    ensures GroupLeast(edges', i, j, forward, w)
  {}

  lemma SameGroupAmounts(edges: seq<ContractorEdge>, edges': seq<ContractorEdge>, i: nat, j: nat, forward: bool,
        e: ContractorEdge)
    requires GroupAmounts(edges, i, j, forward, e) && |edges| == |edges'|
    requires forall k :: i <= k < |edges| ==> edges[k] == edges'[k]
    ensures GroupAmounts(edges', i, j, forward, e)
  {
    hide Amount, Cap;
    forall q ensures GroupAmount(edges', i, j, forward, q, Amount(e, q)) {
      assert GroupAmount(edges, i, j, forward, q, Amount(e, q));
    }
  }

  // ---- the whole construction

  /** The input edge `x` can be driven from `u` to `v`. */
  predicate Drivable(x: InputEdge, u: nat, v: nat) {
    && x.weight != INVALID_EDGE_WEIGHT
    && ((x.source == u && x.target == v && x.forward) || (x.source == v && x.target == u && x.backward))
  }

  /** `w` is the least weight, raised to at least 1, of the input edges that can be driven from `u` to `v`. */
  ghost predicate LeastInput(input: seq<InputEdge>, u: nat, v: nat, w: int) {
    && (exists x :: x in input && Drivable(x, u, v) && (if x.weight >= 1 then w == x.weight else w == 1))
    && (forall x :: x in input && Drivable(x, u, v) ==> if x.weight >= 1 then w <= x.weight else w <= 1)
  }

  ghost predicate ExpandsTo(input: seq<InputEdge>, edges: seq<ContractorEdge>) {
    forall e :: e in edges <==>
        exists x :: x in input && x.weight != INVALID_EDGE_WEIGHT && (e == Along(x) || e == Against(x))
  }

  function InputAmount(x: InputEdge, q: Quantity): real {
    if q.Duration? then x.duration as real else x.distance
  }

  /** `a` is the least amount of the input edges that can be driven from `u` to `v`, at most the cap. */
  ghost predicate LeastInputAmount(input: seq<InputEdge>, u: nat, v: nat, q: Quantity, a: real) {
    && a <= Cap(q)
    && (forall x :: x in input && Drivable(x, u, v) ==> a <= InputAmount(x, q))
    && (a == Cap(q) || exists x :: x in input && Drivable(x, u, v) && InputAmount(x, q) == a)
  }

  /** Durations and distances of the graph, in the direction of travel an edge is made for. */
  ghost predicate PricedBy(input: seq<InputEdge>, result: seq<ContractorEdge>) {
    forall k, q :: 0 <= k < |result| ==>
      var e := result[k];
      if e.forward then LeastInputAmount(input, e.source, e.target, q, Amount(e, q))
      else LeastInputAmount(input, e.target, e.source, q, Amount(e, q))
  }

  /** Every edge of the graph is original and carries the id of a valid input edge between its nodes. */
  ghost predicate IdentifiedBy(input: seq<InputEdge>, result: seq<ContractorEdge>) {
    forall k :: 0 <= k < |result| ==>
      HasInput(input, result[k]) && result[k].originalEdges == 1 && !result[k].shortcut
  }

  ghost predicate HasInput(input: seq<InputEdge>, e: ContractorEdge) {
    exists x :: x in input && x.weight != INVALID_EDGE_WEIGHT && x.turnId == e.id
                && ((x.source == e.source && x.target == e.target) || (x.source == e.target && x.target == e.source))
  }

  lemma IdentifiedByInput(input: seq<InputEdge>, edges: seq<ContractorEdge>, result: seq<ContractorEdge>)
    requires ExpandsTo(input, edges) && Identified(edges, result)
    ensures IdentifiedBy(input, result)
  {
    forall k | 0 <= k < |result| ensures HasInput(input, result[k]) {
      assert HasId(edges, result[k]);
      var n :| 0 <= n < |edges| && edges[n].source == result[k].source && edges[n].target == result[k].target
               && edges[n].id == result[k].id;
      assert edges[n] in edges;
      var x :| x in input && x.weight != INVALID_EDGE_WEIGHT && (edges[n] == Along(x) || edges[n] == Against(x));
    }
  }

  lemma DrivableIsEntry(input: seq<InputEdge>, edges: seq<ContractorEdge>, s: nat, t: nat, forward: bool, x: InputEdge)
    returns (k: nat)
    requires ExpandsTo(input, edges) && x in input && (if forward then Drivable(x, s, t) else Drivable(x, t, s))
    ensures k < |edges| && Matches(edges[k], s, t, forward) && edges[k].weight == Max(x.weight, 1)
    ensures forall q :: Amount(edges[k], q) == InputAmount(x, q)
  {
    var e := if Matches(Along(x), s, t, forward) then Along(x) else Against(x);
    assert e in edges;
    k :| 0 <= k < |edges| && edges[k] == e;
  }

  lemma EntryIsDrivable(input: seq<InputEdge>, edges: seq<ContractorEdge>, s: nat, t: nat, forward: bool, k: nat)
    returns (x: InputEdge)
    requires ExpandsTo(input, edges) && k < |edges| && Matches(edges[k], s, t, forward)
    ensures x in input && (if forward then Drivable(x, s, t) else Drivable(x, t, s))
    ensures edges[k].weight == Max(x.weight, 1)
    ensures forall q :: Amount(edges[k], q) == InputAmount(x, q)
  {
    assert edges[k] in edges;
    x :| x in input && x.weight != INVALID_EDGE_WEIGHT && (edges[k] == Along(x) || edges[k] == Against(x));
  }

  lemma LeastOfEntries(input: seq<InputEdge>, edges: seq<ContractorEdge>, s: nat, t: nat, forward: bool, w: int)
    requires ExpandsTo(input, edges)
    ensures LeastOf(edges, s, t, forward, w) <==>
            if forward then LeastInput(input, s, t, w) else LeastInput(input, t, s, w)
  {
    hide ExpandsTo;
    var u, v := if forward then s else t, if forward then t else s;
    if LeastOf(edges, s, t, forward, w) {
      var k :| 0 <= k < |edges| && Matches(edges[k], s, t, forward) && edges[k].weight == w;
      var x := EntryIsDrivable(input, edges, s, t, forward, k);
      forall y | y in input && Drivable(y, u, v) ensures if y.weight >= 1 then w <= y.weight else w <= 1 {
        var j := DrivableIsEntry(input, edges, s, t, forward, y);
      }
    }
    if LeastInput(input, u, v, w) {
      var x :| x in input && Drivable(x, u, v) && (if x.weight >= 1 then w == x.weight else w == 1);
      var k := DrivableIsEntry(input, edges, s, t, forward, x);
      forall j | 0 <= j < |edges| && Matches(edges[j], s, t, forward) ensures w <= edges[j].weight {
        var y := EntryIsDrivable(input, edges, s, t, forward, j);
      }
    }
  }

  lemma AmountOfEntries(input: seq<InputEdge>, edges: seq<ContractorEdge>, s: nat, t: nat, forward: bool, q: Quantity,
        a: real)
    requires ExpandsTo(input, edges) && LeastAmount(edges, s, t, forward, q, a)
    ensures if forward then LeastInputAmount(input, s, t, q, a) else LeastInputAmount(input, t, s, q, a)
  {
    hide ExpandsTo, Amount, InputAmount, Cap;
    var u, v := if forward then s else t, if forward then t else s;
    forall y | y in input && Drivable(y, u, v) ensures a <= InputAmount(y, q) {
      var j := DrivableIsEntry(input, edges, s, t, forward, y);
    }
    if a != Cap(q) {
      var k :| 0 <= k < |edges| && Matches(edges[k], s, t, forward) && Amount(edges[k], q) == a;
      var x := EntryIsDrivable(input, edges, s, t, forward, k);
    }
  }

  lemma PricedByInput(input: seq<InputEdge>, edges: seq<ContractorEdge>, result: seq<ContractorEdge>)
    requires ExpandsTo(input, edges) && Priced(edges, result)
    ensures PricedBy(input, result)
  {
    hide ExpandsTo, LeastAmount, LeastInputAmount, Amount;
    forall k, q | 0 <= k < |result|
      ensures var e := result[k];
              if e.forward then LeastInputAmount(input, e.source, e.target, q, Amount(e, q))
              else LeastInputAmount(input, e.target, e.source, q, Amount(e, q))
    {
      var e := result[k];
      AmountOfEntries(input, edges, e.source, e.target, e.forward, q, Amount(e, q));
    }
  }

  /** The graph's edges: for each ordered pair and direction of travel exactly the least input weight. */
  ghost predicate Represents(input: seq<InputEdge>, result: seq<ContractorEdge>) {
    && (forall s: nat, t: nat, w :: Has(result, s, t, true, w) <==> s != t && LeastInput(input, s, t, w))
    && (forall s: nat, t: nat, w :: Has(result, s, t, false, w) <==> s != t && LeastInput(input, t, s, w))
    && OnePerDirection(result) && Sorted(result)
  }

  method ToContractorGraph(input: seq<InputEdge>) returns (result: seq<ContractorEdge>)
    ensures Represents(input, result) && PricedBy(input, result) && IdentifiedBy(input, result)
    ensures forall i, j :: 0 <= i < j < |result| ==>
              result[i].source < result[j].source
              || (result[i].source == result[j].source && result[i].target <= result[j].target)
  {
    var edges := Expand(input);
    var sorted := Sort(edges);
    assert ExpandsTo(input, sorted) by {
      forall e ensures e in sorted <==> e in edges {
        assert e in sorted <==> e in multiset(sorted);
      }
    }
    SortedWeights(input, sorted);
    var a := new ContractorEdge[|sorted|](i requires 0 <= i < |sorted| => sorted[i]);
    assert a[..] == sorted;
    var edge := Compact(a);
    result := a[..edge];
    PricedByInput(input, sorted, result);
    IdentifiedByInput(input, sorted, result);
    SortedMeans(result);
    hide ExpandsTo, OnePerDirection, Sorted, PricedBy, IdentifiedBy;
    forall s: nat, t: nat, w
      ensures Has(result, s, t, true, w) <==> s != t && LeastInput(input, s, t, w)
      ensures Has(result, s, t, false, w) <==> s != t && LeastInput(input, t, s, w)
    {
      LeastOfEntries(input, sorted, s, t, true, w);
      LeastOfEntries(input, sorted, s, t, false, w);
      assert Has(result, s, t, true, w) <==> s != t && LeastOf(sorted, s, t, true, w);
      assert Has(result, s, t, false, w) <==> s != t && LeastOf(sorted, s, t, false, w);
    }
  }

  lemma SortedMeans(edges: seq<ContractorEdge>)
    requires Sorted(edges)
    ensures forall i, j :: 0 <= i < j < |edges| ==>
              edges[i].source < edges[j].source
              || (edges[i].source == edges[j].source && edges[i].target <= edges[j].target)
  {}

  lemma SortedWeights(input: seq<InputEdge>, edges: seq<ContractorEdge>)
    requires ExpandsTo(input, edges)
    ensures ValidWeights(edges)
  {
    forall k | 0 <= k < |edges| ensures 1 <= edges[k].weight < INVALID_EDGE_WEIGHT {
      assert edges[k] in edges;
      var x :| x in input && x.weight != INVALID_EDGE_WEIGHT && (edges[k] == Along(x) || edges[k] == Against(x));
    }
  }

  // ---- consequences

  /** An edge of the graph joins two nodes and weighs least in each direction its flags open. */
  lemma EdgeMeans(input: seq<InputEdge>, result: seq<ContractorEdge>, k: nat)
    requires Represents(input, result) && k < |result|
    ensures var e := result[k];
            && e.source != e.target && (e.forward || e.backward)
            && (e.forward ==> LeastInput(input, e.source, e.target, e.weight))
            && (e.backward ==> LeastInput(input, e.target, e.source, e.weight))
  {
    var e := result[k];
    if e.forward { assert Matches(e, e.source, e.target, true) && Has(result, e.source, e.target, true, e.weight); }
    if e.backward { assert Matches(e, e.source, e.target, false) && Has(result, e.source, e.target, false, e.weight); }
  }

  /** An input edge that can be driven from one node to another has an edge forward and, at the other end, backward. */
  lemma EdgeIsThere(input: seq<InputEdge>, result: seq<ContractorEdge>, x: InputEdge, u: nat, v: nat)
    returns (j: nat, k: nat)
    requires Represents(input, result) && x in input && Drivable(x, u, v) && u != v
    ensures j < |result| && result[j].source == u && result[j].target == v && result[j].forward
    ensures k < |result| && result[k].source == v && result[k].target == u && result[k].backward
  {
    var w := LeastExists(input, u, v, x);
    assert Has(result, u, v, true, w) && Has(result, v, u, false, w);
    j :| 0 <= j < |result| && Matches(result[j], u, v, true) && result[j].weight == w;
    k :| 0 <= k < |result| && Matches(result[k], v, u, false) && result[k].weight == w;
  }

  /** The graph is symmetric: forward from `s` to `t` is backward from `t` to `s`. */
  lemma GraphIsSymmetric(input: seq<InputEdge>, result: seq<ContractorEdge>, s: nat, t: nat, w: int)
    requires Represents(input, result)
    ensures Has(result, s, t, true, w) <==> Has(result, t, s, false, w)
  {}

  ghost function Plain(w: int): Cost {
    Cost(w, 0, 0.0)
  }

  /** The arcs of the input, with weights raised to at least 1. */
  ghost function InputArcs(input: seq<InputEdge>): iset<Hop> {
    iset h: Hop | exists x :: x in input && Drivable(x, h.from, h.to)
                              && h.cost == Plain(if x.weight >= 1 then x.weight else 1)
  }

  /** The arcs a forward search follows in the graph. */
  ghost function ForwardArcs(result: seq<ContractorEdge>): iset<Hop> {
    iset h: Hop | Has(result, h.from, h.to, true, h.cost.weight) && h.cost == Plain(h.cost.weight)
  }

  lemma ForwardArcsAreInput(input: seq<InputEdge>, result: seq<ContractorEdge>)
    requires Represents(input, result)
    ensures ForwardArcs(result) <= InputArcs(input)
  {
    forall h | h in ForwardArcs(result) ensures h in InputArcs(input) {
      assert LeastInput(input, h.from, h.to, h.cost.weight);
    }
  }

  /** Finitely many drivable edges have a least one. */
  lemma {:induction false} LeastExists(input: seq<InputEdge>, u: nat, v: nat, x: InputEdge) returns (w: int)
    requires x in input && Drivable(x, u, v)
    ensures LeastInput(input, u, v, w) && w <= Max(x.weight, 1)
  {
    var best := x;
    var i := 0;
    while i < |input|
      invariant i <= |input| && best in input && Drivable(best, u, v) && Max(best.weight, 1) <= Max(x.weight, 1)
      invariant forall k :: 0 <= k < i && Drivable(input[k], u, v) ==> Max(best.weight, 1) <= Max(input[k].weight, 1)
    {
      if Drivable(input[i], u, v) && Max(input[i].weight, 1) < Max(best.weight, 1) {
        best := input[i];
      }
      i := i + 1;
    }
    w := Max(best.weight, 1);
  }

  /** Of the arcs of the input the graph keeps the lightest. */
  lemma ArcsKept(input: seq<InputEdge>, result: seq<ContractorEdge>)
    requires Represents(input, result)
    ensures KeepsLightest(InputArcs(input), ForwardArcs(result))
  {
    ForwardArcsAreInput(input, result);
    forall h | h in InputArcs(input) && h.from != h.to ensures HasLighter(ForwardArcs(result), h) {
      var x :| x in input && Drivable(x, h.from, h.to) && h.cost == Plain(if x.weight >= 1 then x.weight else 1);
      var w := LeastExists(input, h.from, h.to, x);
      assert Has(result, h.from, h.to, true, w);
      var k := Hop(h.from, h.to, Plain(w));
      assert k in ForwardArcs(result);
    }
  }

  /** Shortest distances of the graph are those of the input. */
  lemma DistancesKept(input: seq<InputEdge>, result: seq<ContractorEdge>, u: nat, v: nat, w: int)
    requires Represents(input, result)
    ensures LeastWeight(ForwardArcs(result), u, v, w) <==> LeastWeight(InputArcs(input), u, v, w)
    ensures Connected(ForwardArcs(result), u, v) <==> Connected(InputArcs(input), u, v)
  {
    ArcsKept(input, result);
    hide Represents, ForwardArcs, InputArcs, KeepsLightest;
    LightestIsKept(InputArcs(input), ForwardArcs(result), u, v, w);
  }
}
