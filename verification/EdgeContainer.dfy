/** Contracted edges with one flag bit per filter, kept sorted across merges. */
module EdgeContainers {
  import opened Permutations

  datatype QueryEdge = QueryEdge(source: nat, target: nat, turnId: nat, shortcut: bool, weight: int, duration: int,
      forward: bool, backward: bool, distance: real)

  /** The fields `mergeCompare` looks at: everything but the distance. */
  datatype Key = Key(source: nat, target: nat, shortcut: bool, turnId: nat, weight: int, duration: int, forward: bool,
      backward: bool)

  function KeyOf(e: QueryEdge): Key {
    Key(e.source, e.target, e.shortcut, e.turnId, e.weight, e.duration, e.forward, e.backward)
  }

  function Bit(b: bool): int {
    if b then 1 else 0
  }

  /** `mergeCompare`: lexicographic over (source, target, shortcut, turn id, weight, duration, forward, backward). */
  predicate MergeCompare(a: QueryEdge, b: QueryEdge) {
    if a.source != b.source then a.source < b.source
    else if a.target != b.target then a.target < b.target
    else if a.shortcut != b.shortcut then Bit(a.shortcut) < Bit(b.shortcut)
    else if a.turnId != b.turnId then a.turnId < b.turnId
    else if a.weight != b.weight then a.weight < b.weight
    else if a.duration != b.duration then a.duration < b.duration
    else if a.forward != b.forward then Bit(a.forward) < Bit(b.forward)
    else Bit(a.backward) < Bit(b.backward)
  }

  predicate Mergable(a: QueryEdge, b: QueryEdge) {
    !MergeCompare(a, b) && !MergeCompare(b, a)
  }

  /** `mergeCompare` orders edges strictly and totally up to the fields it looks at. */
  lemma CompareIsOrder(a: QueryEdge, b: QueryEdge, c: QueryEdge)
    ensures Mergable(a, b) <==> KeyOf(a) == KeyOf(b)
    ensures MergeCompare(a, b) && MergeCompare(b, c) ==> MergeCompare(a, c)
    ensures !(MergeCompare(a, b) && MergeCompare(b, a))
  {}

  lemma CompareStrict(a: QueryEdge, b: QueryEdge, c: QueryEdge)
    requires !MergeCompare(b, a)
    ensures MergeCompare(b, c) ==> MergeCompare(a, c)
    ensures !MergeCompare(c, b) ==> !MergeCompare(c, a)
  {}

  /** The eight fields agree; the distance may differ. */
  ghost predicate SameFields(a: QueryEdge, b: QueryEdge) {
    && a.source == b.source && a.target == b.target && a.shortcut == b.shortcut && a.turnId == b.turnId
    && a.weight == b.weight && a.duration == b.duration && a.forward == b.forward && a.backward == b.backward
  }

  /** Two edges can be merged if and only if source, target, kind, turn, weight, duration and both flags agree. */
  lemma MergableIff(a: QueryEdge, b: QueryEdge)
    ensures Mergable(a, b) <==>
            && a.source == b.source && a.target == b.target && a.shortcut == b.shortcut && a.turnId == b.turnId
            && a.weight == b.weight && a.duration == b.duration && a.forward == b.forward && a.backward == b.backward
    ensures SameFields(a, b) <==> Mergable(a, b)
    ensures SameFields(a, b) <==> KeyOf(a) == KeyOf(b)
  {}

  /** The first field in which two edges differ decides, in this order; false comes before true. */
  lemma FirstDifferenceDecides(a: QueryEdge, b: QueryEdge)
    ensures a.source < b.source ==> MergeCompare(a, b)
    ensures var ends := a.source == b.source && a.target == b.target;
            var kind := ends && a.shortcut == b.shortcut && a.turnId == b.turnId;
            var cost := kind && a.weight == b.weight && a.duration == b.duration;
            && (a.source == b.source && a.target < b.target ==> MergeCompare(a, b))
            && (ends && !a.shortcut && b.shortcut ==> MergeCompare(a, b))
            && (ends && a.shortcut == b.shortcut && a.turnId < b.turnId ==> MergeCompare(a, b))
            && (kind && a.weight < b.weight ==> MergeCompare(a, b))
            && (kind && a.weight == b.weight && a.duration < b.duration ==> MergeCompare(a, b))
            && (cost && !a.forward && b.forward ==> MergeCompare(a, b))
            && (cost && a.forward == b.forward && !a.backward && b.backward ==> MergeCompare(a, b))
  {}

  // ---- flag bits

  type Flags = bv8

  const ALL_FLAGS: Flags := 0xFF

  function Flag(i: nat): Flags
    requires i < 8
  {
    match i
    case 0 => 0x01
    case 1 => 0x02
    case 2 => 0x04
    case 3 => 0x08
    case 4 => 0x10
    case 5 => 0x20
    case 6 => 0x40
    case _ => 0x80
  }

  predicate Has(f: Flags, i: nat)
    requires i < 8
  {
    f & Flag(i) != 0
  }

  /** Filter `i` has the bit that stands for the `i`-th power of two. */
  lemma FlagIsShift(i: nat)
    requires i < 8
    ensures Flag(i) == 1 << i
  {}

  lemma FlagBits(f: Flags, i: nat, j: nat)
    requires i < 8 && j < 8
    ensures Has(ALL_FLAGS, j)
    ensures Has(Flag(i), j) <==> i == j
    ensures Has(f | Flag(i), j) <==> i == j || Has(f, j)
    ensures Has(f & !Flag(i), j) <==> i != j && Has(f, j)
  {
    OneFlag(i, j);
    FlagSet(f, i, j);
    FlagCleared(f, i, j);
  }

  lemma OneFlag(i: nat, j: nat)
    requires i < 8 && j < 8
    ensures Has(ALL_FLAGS, j)
    ensures Has(Flag(i), j) <==> i == j
  {}

  lemma FlagSet(f: Flags, i: nat, j: nat)
    requires i < 8 && j < 8
    ensures Has(f | Flag(i), j) <==> i == j || Has(f, j)
  {
    if i != j {
      DistinctBits(f, Flag(i), Flag(j));
    }
  }

  lemma FlagCleared(f: Flags, i: nat, j: nat)
    requires i < 8 && j < 8
    ensures Has(f & !Flag(i), j) <==> i != j && Has(f, j)
  {
    if i != j {
      DistinctBits(f, Flag(i), Flag(j));
    }
  }

  lemma DistinctBits(f: Flags, a: Flags, b: Flags)
    requires a & b == 0
    ensures (f | a) & b == f & b && (f & !a) & b == f & b
  {}

  // ---- edges with flags

  /** Filter `i` selects an edge with this key. */
  ghost predicate Picks(edges: seq<QueryEdge>, flags: seq<Flags>, i: nat, key: Key)
    requires i < 8
  {
    exists k :: 0 <= k < |edges| && k < |flags| && KeyOf(edges[k]) == key && Has(flags[k], i)
  }

  /** Filter `i` selects an edge that agrees with `e` in the eight fields. */
  ghost predicate Selected(edges: seq<QueryEdge>, flags: seq<Flags>, i: nat, e: QueryEdge)
    requires i < 8
  {
    exists k :: 0 <= k < |edges| && k < |flags| && SameFields(edges[k], e) && Has(flags[k], i)
  }

  /** Some edge of the list agrees with `e` in the eight fields. */
  ghost predicate Listed(edges: seq<QueryEdge>, e: QueryEdge) {
    exists k :: 0 <= k < |edges| && SameFields(edges[k], e)
  }

  lemma PicksMeans(edges: seq<QueryEdge>, flags: seq<Flags>, i: nat, e: QueryEdge)
    requires i < 8
    ensures Picks(edges, flags, i, KeyOf(e)) <==> Selected(edges, flags, i, e)
    ensures InKeys(edges, KeyOf(e)) <==> Listed(edges, e)
  {
    hide Has, SameFields, KeyOf;
    forall k | 0 <= k < |edges| ensures SameFields(edges[k], e) <==> KeyOf(edges[k]) == KeyOf(e) {
      MergableIff(edges[k], e);
    }
  }

  ghost predicate InKeys(edges: seq<QueryEdge>, key: Key) {
    exists k :: 0 <= k < |edges| && KeyOf(edges[k]) == key
  }

  ghost predicate Sorted(edges: seq<QueryEdge>) {
    forall i, j :: 0 <= i < j < |edges| ==> !MergeCompare(edges[j], edges[i])
  }

  /** Sorted and free of duplicates. */
  ghost predicate StrictlySorted(edges: seq<QueryEdge>) {
    forall i, j :: 0 <= i < j < |edges| ==> MergeCompare(edges[i], edges[j])
  }

  ghost predicate DistinctKeys(edges: seq<QueryEdge>) {
    forall i, j :: 0 <= i < j < |edges| ==> KeyOf(edges[i]) != KeyOf(edges[j])
  }

  lemma StrictlySortedIs(edges: seq<QueryEdge>)
    ensures StrictlySorted(edges) <==> Sorted(edges) && DistinctKeys(edges)
  {
    forall i, j | 0 <= i < j < |edges|
      ensures MergeCompare(edges[i], edges[j]) <==>
              !MergeCompare(edges[j], edges[i]) && KeyOf(edges[i]) != KeyOf(edges[j])
    {
      CompareIsOrder(edges[i], edges[j], edges[i]);
    }
  }

  // ---- the linear pass over the new edges

  /** What the pass has done to the flags and which new edges it has kept, after the first `i` of them. */
  ghost predicate Passed(edges: seq<QueryEdge>, flags: seq<Flags>, added: seq<QueryEdge>, i: nat, bit: nat,
        flags': seq<Flags>, kept: seq<QueryEdge>)
    requires bit < 8
  {
    && i <= |added| && |flags'| == |flags| == |edges|
    && (forall k, j: nat :: 0 <= k < |flags| && j < 8 && Has(flags[k], j) ==> Has(flags'[k], j))
    && (forall k, j: nat :: 0 <= k < |flags| && j < 8 && Has(flags'[k], j) && !Has(flags[k], j) ==>
        j == bit && InKeys(added[..i], KeyOf(edges[k])))
    && (forall e :: e in kept ==> e in added[..i])
    && (forall k :: 0 <= k < i ==> added[k] in kept || Picks(edges, flags', bit, KeyOf(added[k])))
  }

  /** The first stored edge that is not ordered before `e`, or the end. */
  ghost function FirstNotBelow(edges: seq<QueryEdge>, e: QueryEdge, from: nat): (p: nat)
    requires from <= |edges|
    ensures from <= p <= |edges| && (p < |edges| ==> !MergeCompare(edges[p], e))
    ensures forall m :: from <= m < p ==> MergeCompare(edges[m], e)
    decreases |edges| - from
  {
    if from == |edges| || !MergeCompare(edges[from], e) then from else FirstNotBelow(edges, e, from + 1)
  }

  /**
   * The pass recognises new edge `k` as stored: no earlier new edge is ordered after it, and it is
   * the first stored edge that is not ordered before it.
   */
  ghost predicate Recognised(edges: seq<QueryEdge>, added: seq<QueryEdge>, k: nat)
    requires k < |added|
  {
    && (forall j :: 0 <= j < k ==> !MergeCompare(added[k], added[j]))
    && var p := FirstNotBelow(edges, added[k], 0);
       p < |edges| && KeyOf(edges[p]) == KeyOf(added[k])
  }

  /** The first `n` new edges without those that are recognised. */
  ghost function Unrecognised(edges: seq<QueryEdge>, added: seq<QueryEdge>, n: nat): seq<QueryEdge>
    requires n <= |added|
  {
    if n == 0 then []
    else Unrecognised(edges, added, n - 1) + if Recognised(edges, added, n - 1) then [] else [added[n - 1]]
  }

  /** The pass stands behind every stored edge below one of the first `i` new ones, at one that is below none. */
  ghost predicate StandsAt(edges: seq<QueryEdge>, added: seq<QueryEdge>, i: nat, at: nat) {
    && i <= |added| && at <= |edges|
    && (forall m :: 0 <= m < at ==> BelowSome(added[..i], edges[m]))
    && (at < |edges| ==> forall j :: 0 <= j < i ==> !MergeCompare(edges[at], added[j]))
  }

  ghost predicate BelowSome(added: seq<QueryEdge>, e: QueryEdge) {
    exists j :: 0 <= j < |added| && MergeCompare(e, added[j])
  }

  lemma PassKeeps(edges: seq<QueryEdge>, flags: seq<Flags>, added: seq<QueryEdge>, i: nat, bit: nat, flags': seq<Flags>,
        kept: seq<QueryEdge>)
    requires bit < 8 && i < |added| && Passed(edges, flags, added, i, bit, flags', kept)
    ensures Passed(edges, flags, added, i + 1, bit, flags', kept + [added[i]])
  {
    assert added[..i + 1] == added[..i] + [added[i]];
    InKeysGrow(added, i);
  }

  lemma InKeysGrow(edges: seq<QueryEdge>, i: nat)
    requires i < |edges|
    ensures forall key :: InKeys(edges[..i], key) ==> InKeys(edges[..i + 1], key)
    ensures InKeys(edges[..i + 1], KeyOf(edges[i]))
  {
    forall key | InKeys(edges[..i], key) ensures InKeys(edges[..i + 1], key) {
      var k :| 0 <= k < i && KeyOf(edges[..i][k]) == key;
      assert KeyOf(edges[..i + 1][k]) == key;
    }
    assert edges[..i + 1][i] == edges[i];
  }

  lemma PassMarks(edges: seq<QueryEdge>, flags: seq<Flags>, added: seq<QueryEdge>, i: nat, bit: nat, flags': seq<Flags>,
        kept: seq<QueryEdge>, at: nat, marked: seq<Flags>)
    requires bit < 8 && i < |added| && Passed(edges, flags, added, i, bit, flags', kept)
    requires at < |edges| && KeyOf(edges[at]) == KeyOf(added[i])
    requires |marked| == |flags'| && forall n :: 0 <= n < |flags'| && n != at ==> marked[n] == flags'[n]
    requires at < |flags'| && Filtered(flags'[at], marked[at], bit, true)
    ensures Passed(edges, flags, added, i + 1, bit, marked, kept)
  {
    hide Has, Picks, InKeys;
    assert added[..i + 1] == added[..i] + [added[i]];
    InKeysGrow(added, i);
    forall k | 0 <= k < i + 1 ensures added[k] in kept || Picks(edges, marked, bit, KeyOf(added[k])) {
      MarkedPicks(edges, flags', bit, at, marked, KeyOf(added[k]));
    }
  }

  /** Marking an edge selects its key and no key less. */
  lemma MarkedPicks(edges: seq<QueryEdge>, flags: seq<Flags>, bit: nat, at: nat, marked: seq<Flags>, key: Key)
    requires bit < 8 && |flags| == |edges| == |marked| && at < |edges| && Has(marked[at], bit)
    requires forall n :: 0 <= n < |flags| && n != at ==> marked[n] == flags[n]
    ensures KeyOf(edges[at]) == key || Picks(edges, flags, bit, key) ==> Picks(edges, marked, bit, key)
  {
    hide Has, KeyOf;
    if Picks(edges, flags, bit, key) {
      var n :| 0 <= n < |edges| && n < |flags| && KeyOf(edges[n]) == key && Has(flags[n], bit);
      assert Has(marked[n], bit);
    }
  }

  lemma BelowSomeGrows(added: seq<QueryEdge>, i: nat, e: QueryEdge)
    requires i < |added|
    ensures BelowSome(added[..i], e) || MergeCompare(e, added[i]) ==> BelowSome(added[..i + 1], e)
  {
    var before, after := added[..i], added[..i + 1];
    if BelowSome(before, e) {
      var j :| 0 <= j < |before| && MergeCompare(e, before[j]);
      assert after[j] == before[j];
    }
    assert after[i] == added[i];
  }

  /** If every earlier new edge is at most the next one, all passed edges are below it. */
  lemma PassedAreBelow(edges: seq<QueryEdge>, added: seq<QueryEdge>, i: nat, at: nat, m: nat)
    requires StandsAt(edges, added, i, at) && i < |added| && m < at
    requires forall j :: 0 <= j < i ==> !MergeCompare(added[i], added[j])
    ensures MergeCompare(edges[m], added[i])
  {
    var before := added[..i];
    assert BelowSome(before, edges[m]);
    var j :| 0 <= j < |before| && MergeCompare(edges[m], before[j]);
    CompareIsOrder(edges[m], added[j], added[i]);
    CompareIsOrder(added[j], added[i], edges[m]);
  }

  lemma FirstIs(edges: seq<QueryEdge>, e: QueryEdge, p: nat)
    requires p <= |edges| && (p < |edges| ==> !MergeCompare(edges[p], e))
    requires forall m :: 0 <= m < p ==> MergeCompare(edges[m], e)
    ensures FirstNotBelow(edges, e, 0) == p
  {}

  /** A new edge ordered before the stored edge the pass stands at is not recognised. */
  lemma TooEarly(edges: seq<QueryEdge>, added: seq<QueryEdge>, i: nat, at: nat)
    requires StandsAt(edges, added, i, at) && i < |added| && (at < |edges| ==> MergeCompare(added[i], edges[at]))
    ensures !Recognised(edges, added, i) && StandsAt(edges, added, i + 1, at)
  {
    forall m | 0 <= m < at ensures BelowSome(added[..i + 1], edges[m]) { BelowSomeGrows(added, i, edges[m]); }
    if at < |edges| { CompareIsOrder(added[i], edges[at], added[i]); }
    hide BelowSome;
    if Recognised(edges, added, i) {
      forall m | 0 <= m < at ensures MergeCompare(edges[m], added[i]) { PassedAreBelow(edges, added, i, at, m); }
      FirstIs(edges, added[i], at);
    }
  }

  /** Otherwise the pass moves on to `to`, and the new edge is recognised exactly if it is the edge there. */
  lemma MovesOn(edges: seq<QueryEdge>, added: seq<QueryEdge>, i: nat, at: nat, to: nat)
    requires StandsAt(edges, added, i, at) && i < |added| && at < |edges| && !MergeCompare(added[i], edges[at])
    requires at <= to <= |edges| && (forall m :: at <= m < to ==> MergeCompare(edges[m], added[i]))
    requires to < |edges| ==> !MergeCompare(edges[to], added[i])
    ensures Recognised(edges, added, i) <==> to < |edges| && KeyOf(edges[to]) == KeyOf(added[i])
    ensures StandsAt(edges, added, i + 1, to)
  {
    forall j | 0 <= j < i ensures !MergeCompare(added[i], added[j]) {
      CompareStrict(added[j], edges[at], added[i]);
      CompareIsOrder(added[i], added[j], edges[at]);
    }
    forall m | 0 <= m < to ensures MergeCompare(edges[m], added[i]) {
      if m < at { PassedAreBelow(edges, added, i, at, m); }
    }
    FirstIs(edges, added[i], to);
    forall m | 0 <= m < to ensures BelowSome(added[..i + 1], edges[m]) { BelowSomeGrows(added, i, edges[m]); }
    if to < |edges| {
      forall j | 0 <= j <= i ensures !MergeCompare(edges[to], added[j]) {
        if j < i { CompareStrict(added[j], added[i], edges[to]); CompareIsOrder(edges[to], added[j], added[i]); }
      }
    }
  }

  /** The pass of `Merge`: marks stored edges it recognises among the new ones and keeps the other new edges. */
  method Pass(edges: seq<QueryEdge>, flags: seq<Flags>, added: seq<QueryEdge>, bit: nat)
    returns (flags': seq<Flags>, kept: seq<QueryEdge>)
    requires bit < 8 && |edges| == |flags|
    ensures Passed(edges, flags, added, |added|, bit, flags', kept)
    ensures kept == Unrecognised(edges, added, |added|)
  {
    hide Passed, StandsAt, Recognised, Filtered;
    flags', kept := flags, [];
    var at := 0;
    StartPass(edges, flags, added, bit);
    for i := 0 to |added|
      invariant at <= |edges| && |flags'| == |edges|
      invariant Passed(edges, flags, added, i, bit, flags', kept)
      invariant StandsAt(edges, added, i, at) && kept == Unrecognised(edges, added, i)
    {
      var edge := added[i];
      if at == |edges| || MergeCompare(edge, edges[at]) {
        PassKeeps(edges, flags, added, i, bit, flags', kept);
        TooEarly(edges, added, i, at);
        kept := kept + [edge];
        continue;
      }
      ghost var from := at;
      while at < |edges| && MergeCompare(edges[at], edge)
        invariant from <= at <= |edges| && forall m :: from <= m < at ==> MergeCompare(edges[m], edge)
      {
        at := at + 1;
      }
      MovesOn(edges, added, i, from, at);
      if at < |edges| { CompareIsOrder(edge, edges[at], edge); }
      if at < |edges| && Mergable(edge, edges[at]) {
        ghost var before := flags';
        FilterBit(flags'[at], bit, true);
        flags' := flags'[at := flags'[at] | Flag(bit)];
        PassMarks(edges, flags, added, i, bit, before, kept, at, flags');
        assert kept + [] == kept;
      } else {
        PassKeeps(edges, flags, added, i, bit, flags', kept);
        kept := kept + [edge];
      }
    }
  }

  lemma StartPass(edges: seq<QueryEdge>, flags: seq<Flags>, added: seq<QueryEdge>, bit: nat)
    requires bit < 8 && |edges| == |flags|
    ensures Passed(edges, flags, added, 0, bit, flags, []) && StandsAt(edges, added, 0, 0)
  {}

  // ---- when is the merged list free of duplicates?

  /**
   * Stored edges differ, every new edge that is stored already is recognised as such, and new
   * edges that are not stored differ.
   */
  ghost predicate NoDoubles(edges: seq<QueryEdge>, added: seq<QueryEdge>) {
    && DistinctKeys(edges)
    && (forall k :: 0 <= k < |added| && InKeys(edges, KeyOf(added[k])) ==> Recognised(edges, added, k))
    && (forall j, k :: 0 <= j < k < |added| && KeyOf(added[j]) == KeyOf(added[k]) ==> InKeys(edges, KeyOf(added[k])))
  }

  /** `kept` holds the unrecognised ones of the first `n` new edges, in order; `at` says where they come from. */
  ghost predicate KeptAt(edges: seq<QueryEdge>, added: seq<QueryEdge>, n: nat, kept: seq<QueryEdge>, at: seq<nat>) {
    && n <= |added| && |at| == |kept|
    && (forall m :: 0 <= m < |at| ==>
        at[m] < n && !Recognised(edges, added, at[m]) && kept[m] == added[at[m]])
    && (forall m, k :: 0 <= m < k < |at| ==> at[m] < at[k])
    && (forall k :: 0 <= k < n && !Recognised(edges, added, k) ==> k in at)
  }

  lemma KeptNext(edges: seq<QueryEdge>, added: seq<QueryEdge>, n: nat, kept: seq<QueryEdge>, at: seq<nat>)
    requires n < |added| && KeptAt(edges, added, n, kept, at)
    ensures if Recognised(edges, added, n) then KeptAt(edges, added, n + 1, kept, at)
            else KeptAt(edges, added, n + 1, kept + [added[n]], at + [n])
  {
    hide Recognised;
    if !Recognised(edges, added, n) { assert (at + [n])[|at|] == n; }
  }

  /** What is kept are the unrecognised new edges, in order. */
  lemma {:induction false} UnrecognisedAre(edges: seq<QueryEdge>, added: seq<QueryEdge>, n: nat) returns (at: seq<nat>)
    requires n <= |added|
    ensures KeptAt(edges, added, n, Unrecognised(edges, added, n), at)
    decreases n
  {
    hide Recognised;
    at := [];
    if n > 0 {
      hide KeptAt;
      at := UnrecognisedAre(edges, added, n - 1);
      var kept := Unrecognised(edges, added, n - 1);
      KeptNext(edges, added, n - 1, kept, at);
      if Recognised(edges, added, n - 1) {
        assert kept + [] == kept;
      } else {
        at := at + [n - 1];
      }
    }
  }

  lemma RecognisedIsStored(edges: seq<QueryEdge>, added: seq<QueryEdge>, k: nat)
    requires k < |added| && Recognised(edges, added, k)
    ensures InKeys(edges, KeyOf(added[k]))
  {}

  /** An unrecognised new edge is appended. */
  lemma UnrecognisedIsKept(edges: seq<QueryEdge>, added: seq<QueryEdge>, k: nat) returns (m: nat)
    requires k < |added| && !Recognised(edges, added, k)
    ensures m < |Unrecognised(edges, added, |added|)|
    ensures Unrecognised(edges, added, |added|)[m] == added[k]
  {
    var at := UnrecognisedAre(edges, added, |added|);
    m :| 0 <= m < |at| && at[m] == k;
  }

  lemma StoredTwice(edges: seq<QueryEdge>, added: seq<QueryEdge>, k: nat)
    requires k < |added| && InKeys(edges, KeyOf(added[k])) && !Recognised(edges, added, k)
    ensures !DistinctKeys(edges + Unrecognised(edges, added, |added|))
  {
    var all := edges + Unrecognised(edges, added, |added|);
    var m := UnrecognisedIsKept(edges, added, k);
    hide Recognised, Unrecognised;
    var i :| 0 <= i < |edges| && KeyOf(edges[i]) == KeyOf(added[k]);
    assert all[i] == edges[i] && all[|edges| + m] == added[k];
  }

  lemma AddedTwice(edges: seq<QueryEdge>, added: seq<QueryEdge>, j: nat, k: nat)
    requires j < k < |added| && KeyOf(added[j]) == KeyOf(added[k])
    requires !Recognised(edges, added, j) && !Recognised(edges, added, k)
    ensures !DistinctKeys(edges + Unrecognised(edges, added, |added|))
  {
    var kept := Unrecognised(edges, added, |added|);
    var all := edges + kept;
    var at := UnrecognisedAre(edges, added, |added|);
    hide Recognised, Unrecognised;
    var m :| 0 <= m < |at| && at[m] == j;
    var n :| 0 <= n < |at| && at[n] == k;
    assert all[|edges| + m] == kept[m] && all[|edges| + n] == kept[n];
  }

  /** Doubles end up as duplicates of the appended list. */
  lemma DoublesAreKept(edges: seq<QueryEdge>, added: seq<QueryEdge>)
    requires !NoDoubles(edges, added)
    ensures !DistinctKeys(edges + Unrecognised(edges, added, |added|))
  {
    hide Recognised, Unrecognised;
    if !DistinctKeys(edges) {
      var all := edges + Unrecognised(edges, added, |added|);
      var i, j :| 0 <= i < j < |edges| && KeyOf(edges[i]) == KeyOf(edges[j]);
      assert all[i] == edges[i] && all[j] == edges[j];
    } else if k :| 0 <= k < |added| && InKeys(edges, KeyOf(added[k])) && !Recognised(edges, added, k) {
      StoredTwice(edges, added, k);
    } else {
      hide InKeys, DistinctKeys;
      var j, k :| 0 <= j < k < |added| && KeyOf(added[j]) == KeyOf(added[k]) && !InKeys(edges, KeyOf(added[k]));
      if Recognised(edges, added, j) { RecognisedIsStored(edges, added, j); }
      if Recognised(edges, added, k) { RecognisedIsStored(edges, added, k); }
      AddedTwice(edges, added, j, k);
    }
  }

  /** Appending what is kept gives a list without duplicates if and only if there are no doubles. */
  lemma DistinctIffNoDoubles(edges: seq<QueryEdge>, added: seq<QueryEdge>)
    ensures DistinctKeys(edges + Unrecognised(edges, added, |added|)) <==> NoDoubles(edges, added)
  {
    if !NoDoubles(edges, added) {
      DoublesAreKept(edges, added);
    } else {
      var at := UnrecognisedAre(edges, added, |added|);
      var all := edges + Unrecognised(edges, added, |added|);
      hide Recognised, Unrecognised;
      forall i, j | 0 <= i < j < |all| ensures KeyOf(all[i]) != KeyOf(all[j]) {
        if j >= |edges| {
          var n := at[j - |edges|];
          assert all[j] == added[n] && !InKeys(edges, KeyOf(added[n]));
          if i >= |edges| { assert all[i] == added[at[i - |edges|]]; } else { assert all[i] == edges[i]; }
        }
      }
    }
  }

  /** Sorted lists without duplicates have no doubles. */
  lemma StrictHaveNoDoubles(edges: seq<QueryEdge>, added: seq<QueryEdge>)
    requires StrictlySorted(edges) && StrictlySorted(added)
    ensures NoDoubles(edges, added)
  {
    StrictlySortedIs(edges);
    StrictlySortedIs(added);
    forall k | 0 <= k < |added| && InKeys(edges, KeyOf(added[k])) ensures Recognised(edges, added, k) {
      RecognisedIff(edges, added, k);
      forall j | 0 <= j < k ensures !MergeCompare(added[k], added[j]) { CompareIsOrder(added[j], added[k], added[j]); }
    }
  }

  ghost function KeysOf(edges: seq<QueryEdge>): iset<Key> {
    iset key | InKeys(edges, key)
  }

  /** New edges with a known key come behind no greater one, and those that repeat have a known key. */
  ghost predicate FitsBehind(known: iset<Key>, added: seq<QueryEdge>) {
    && (forall j, k :: 0 <= j < k < |added| && KeyOf(added[k]) in known ==> !MergeCompare(added[k], added[j]))
    && (forall j, k :: 0 <= j < k < |added| && KeyOf(added[j]) == KeyOf(added[k]) ==> KeyOf(added[k]) in known)
  }

  lemma StrictFits(known: iset<Key>, added: seq<QueryEdge>)
    requires StrictlySorted(added)
    ensures FitsBehind(known, added)
  {
    StrictlySortedIs(added);
  }

  /** Behind a sorted list without duplicates a new edge is recognised exactly if it is stored and in order. */
  lemma RecognisedIff(edges: seq<QueryEdge>, added: seq<QueryEdge>, k: nat)
    requires StrictlySorted(edges) && k < |added| && InKeys(edges, KeyOf(added[k]))
    ensures Recognised(edges, added, k) <==> forall j :: 0 <= j < k ==> !MergeCompare(added[k], added[j])
  {
    var i :| 0 <= i < |edges| && KeyOf(edges[i]) == KeyOf(added[k]);
    CompareIsOrder(edges[i], added[k], added[k]);
    forall m | 0 <= m < i ensures MergeCompare(edges[m], added[k]) {
      assert MergeCompare(edges[m], edges[i]);
      CompareStrict(edges[m], edges[i], added[k]);
    }
    FirstIs(edges, added[k], i);
  }

  /** Behind a sorted list there are no doubles if and only if it has none itself and the new edges fit its keys. */
  lemma SortedNoDoubles(edges: seq<QueryEdge>, added: seq<QueryEdge>)
    requires Sorted(edges)
    ensures NoDoubles(edges, added) <==> StrictlySorted(edges) && FitsBehind(KeysOf(edges), added)
  {
    StrictlySortedIs(edges);
    if StrictlySorted(edges) {
      forall k | 0 <= k < |added| && InKeys(edges, KeyOf(added[k]))
        ensures Recognised(edges, added, k) <==> forall j :: 0 <= j < k ==> !MergeCompare(added[k], added[j])
      {
        RecognisedIff(edges, added, k);
      }
    }
    hide Recognised, InKeys, Sorted, StrictlySorted, DistinctKeys, MergeCompare;
  }

  /** Two stored edges that come again in the other order: the smaller one is stored a second time. */
  lemma SwappedEdgesAreDoubled(a: QueryEdge, b: QueryEdge)
    requires MergeCompare(a, b)
    ensures Unrecognised([a, b], [b, a], 2) == [a] && !NoDoubles([a, b], [b, a])
  {
    CompareIsOrder(a, b, a);
    CompareIsOrder(b, b, b);
    CompareIsOrder(a, a, a);
    var edges, added := [a, b], [b, a];
    FirstIs(edges, b, 1);
    assert Recognised(edges, added, 0) && !Recognised(edges, added, 1);
    assert Unrecognised(edges, added, 0) == [] && Unrecognised(edges, added, 1) == [];
    assert KeyOf(edges[0]) == KeyOf(added[1]);
  }

  // ---- appending and sorting

  /** What the merged flags select: what was selected, and for the merge's own bit every new edge. */
  lemma AppendedPicks(edges: seq<QueryEdge>, flags: seq<Flags>, added: seq<QueryEdge>, bit: nat, flags': seq<Flags>,
        kept: seq<QueryEdge>, tail: seq<Flags>, i: nat, key: Key)
    requires bit < 8 && i < 8 && Passed(edges, flags, added, |added|, bit, flags', kept)
    requires |tail| == |kept| && forall k :: 0 <= k < |tail| ==> tail[k] == Flag(bit)
    ensures Picks(edges + kept, flags' + tail, i, key) <==>
            Picks(edges, flags, i, key) || (i == bit && InKeys(added, key))
  {
    var all, bits := edges + kept, flags' + tail;
    assert added[..|added|] == added;
    FlagBits(0, bit, i);
    hide Has;
    if Picks(all, bits, i, key) {
      var k :| 0 <= k < |all| && k < |bits| && KeyOf(all[k]) == key && Has(bits[k], i);
      if k < |edges| {
        assert all[k] == edges[k] && bits[k] == flags'[k];
      } else {
        assert all[k] == kept[k - |edges|] && bits[k] == tail[k - |edges|];
        assert kept[k - |edges|] in added;
        var m :| 0 <= m < |added| && added[m] == kept[k - |edges|];
      }
    }
    if Picks(edges, flags, i, key) {
      var k :| 0 <= k < |edges| && k < |flags| && KeyOf(edges[k]) == key && Has(flags[k], i);
      assert all[k] == edges[k] && bits[k] == flags'[k] && Has(bits[k], i);
    }
    if i == bit && InKeys(added, key) {
      var m :| 0 <= m < |added| && KeyOf(added[m]) == key;
      if added[m] in kept {
        var n :| 0 <= n < |kept| && kept[n] == added[m];
        assert all[|edges| + n] == kept[n] && bits[|edges| + n] == tail[n];
      } else {
        var k :| 0 <= k < |edges| && k < |flags'| && KeyOf(edges[k]) == key && Has(flags'[k], bit);
        assert all[k] == edges[k] && bits[k] == flags'[k];
      }
    }
  }

  /** The order in which the stored edges have to be arranged. */
  method Ordering(edges: seq<QueryEdge>) returns (ordering: seq<nat>)
    ensures IsPermutation(ordering) && |ordering| == |edges|
    ensures forall i, j :: 0 <= i < j < |ordering| ==>
            ordering[i] < |edges| && ordering[j] < |edges| && !MergeCompare(edges[ordering[j]], edges[ordering[i]])
  {
    ordering := [];
    for n := 0 to |edges|
      invariant Ordered(edges, ordering, n)
    {
      var k := n;
      while k > 0 && MergeCompare(edges[n], edges[ordering[k - 1]])
        invariant 0 <= k <= n && forall j :: k <= j < n ==> MergeCompare(edges[n], edges[ordering[j]])
      {
        k := k - 1;
      }
      InsertOrdered(edges, ordering, n, k);
      ordering := ordering[..k] + [n] + ordering[k..];
    }
  }

  ghost predicate Ordered(edges: seq<QueryEdge>, ordering: seq<nat>, n: nat) {
    && |ordering| == n <= |edges|
    && (forall i :: 0 <= i < n ==> ordering[i] < n)
    && (forall i, j :: 0 <= i < j < n ==>
        ordering[i] != ordering[j] && !MergeCompare(edges[ordering[j]], edges[ordering[i]]))
  }

  lemma InsertOrdered(edges: seq<QueryEdge>, ordering: seq<nat>, n: nat, k: nat)
    requires Ordered(edges, ordering, n) && n < |edges| && k <= n
    requires forall j :: k <= j < n ==> MergeCompare(edges[n], edges[ordering[j]])
    requires k > 0 ==> !MergeCompare(edges[n], edges[ordering[k - 1]])
    ensures Ordered(edges, ordering[..k] + [n] + ordering[k..], n + 1)
  {
    var r := ordering[..k] + [n] + ordering[k..];
    forall i, j | 0 <= i < j < n + 1 ensures r[i] != r[j] && !MergeCompare(edges[r[j]], edges[r[i]]) {
      if j == k {
        if i < k - 1 { CompareStrict(edges[ordering[i]], edges[ordering[k - 1]], edges[n]); }
      } else if i == k {
        CompareIsOrder(edges[n], edges[r[j]], edges[n]);
      }
    }
  }

  // ---- rearranging edges and flags alike

  /** `t` lists the elements of `s` in the given order. */
  ghost predicate Arranged<T>(s: seq<T>, ordering: seq<nat>, t: seq<T>) {
    && |s| == |ordering| == |t| && IsPermutation(ordering)
    && forall i :: 0 <= i < |t| ==> t[i] == s[ordering[i]]
  }

  method Arrange<T>(s: seq<T>, ordering: seq<nat>) returns (t: seq<T>)
    requires IsPermutation(ordering) && |ordering| == |s|
    ensures Arranged(s, ordering, t)
  {
    var permutation := OrderingToPermutation(ordering);
    var a := new T[|s|](i requires 0 <= i < |s| => s[i]);
    assert a[..] == s;
    InplacePermutation(a, permutation);
    t := a[..];
    MovedIsOrdered(s, ordering, permutation, t);
  }

  /** A permutation reaches every position. */
  lemma Onto(p: seq<nat>, k: nat) returns (i: nat)
    requires IsPermutation(p) && k < |p|
    ensures i < |p| && p[i] == k
  {
    if k !in p { DistinctFit(p + [k], |p|); }
    i :| 0 <= i < |p| && p[i] == k;
  }

  lemma ArrangedPicks(edges: seq<QueryEdge>, flags: seq<Flags>, ordering: seq<nat>, edges': seq<QueryEdge>,
        flags': seq<Flags>, i: nat, key: Key)
    requires i < 8 && Arranged(edges, ordering, edges') && Arranged(flags, ordering, flags')
    ensures Picks(edges', flags', i, key) <==> Picks(edges, flags, i, key)
  {
    if Picks(edges, flags, i, key) {
      var k :| 0 <= k < |edges| && k < |flags| && KeyOf(edges[k]) == key && Has(flags[k], i);
      var n := Onto(ordering, k);
      assert KeyOf(edges'[n]) == key && Has(flags'[n], i);
    }
  }

  lemma ArrangedSorted(edges: seq<QueryEdge>, ordering: seq<nat>, edges': seq<QueryEdge>)
    requires Arranged(edges, ordering, edges')
    requires forall i, j :: 0 <= i < j < |ordering| ==>
            ordering[i] < |edges| && ordering[j] < |edges| && !MergeCompare(edges[ordering[j]], edges[ordering[i]])
    ensures Sorted(edges')
    ensures DistinctKeys(edges) <==> StrictlySorted(edges')
    ensures forall e :: e in edges' <==> e in edges
  {
    hide MergeCompare;
    assert Sorted(edges');
    if DistinctKeys(edges) {
      forall i, j | 0 <= i < j < |edges'| ensures KeyOf(edges'[i]) != KeyOf(edges'[j]) {
        assert ordering[i] != ordering[j];
      }
      StrictlySortedIs(edges');
    } else {
      var i, j :| 0 <= i < j < |edges| && KeyOf(edges[i]) == KeyOf(edges[j]);
      var m := Onto(ordering, i);
      var n := Onto(ordering, j);
      assert KeyOf(edges'[m]) == KeyOf(edges'[n]) && m != n;
      StrictlySortedIs(edges');
    }
    forall e ensures e in edges' <==> e in edges {
      if e in edges {
        var k :| 0 <= k < |edges| && edges[k] == e;
        var n := Onto(ordering, k);
        assert edges'[n] == e;
      }
    }
  }

  // ---- the container

  predicate Allowed(filter: seq<bool>, e: QueryEdge)
    requires e.source < |filter| && e.target < |filter|
  {
    filter[e.source] && filter[e.target]
  }

  function Masked(f: Flags, i: nat, allowed: bool): Flags
    requires i < 8
  {
    if allowed then f | Flag(i) else f & !Flag(i)
  }

  /** `f'` is `f` with bit `i` set to `allowed`. */
  ghost predicate Filtered(f: Flags, f': Flags, i: nat, allowed: bool) {
    forall j: nat :: j < 8 ==> (Has(f', j) <==> if j == i then allowed else Has(f, j))
  }

  lemma FilterBit(f: Flags, i: nat, allowed: bool)
    requires i < 8
    ensures Filtered(f, Masked(f, i, allowed), i, allowed)
  {
    var f' := Masked(f, i, allowed);
    forall j: nat | j < 8 ensures Has(f', j) <==> if j == i then allowed else Has(f, j) {
      FlagBits(f, i, j);
    }
  }

  lemma UseFiltered(f: Flags, f': Flags, i: nat, allowed: bool, j: nat)
    requires Filtered(f, f', i, allowed) && j < 8
    ensures Has(f', j) <==> if j == i then allowed else Has(f, j)
  {}

  class ContractedEdgeContainer {
    var index: nat
    var flags: seq<Flags>
    var edges: seq<QueryEdge>

    ghost predicate Valid()
      reads this
    {
      |flags| == |edges|
    }

    constructor ()
      ensures Valid() && index == 0 && edges == [] && flags == []
    {
      index, flags, edges := 0, [], [];
    }

    /** Every filter selects the inserted edges at first. */
    method Insert(newEdges: seq<QueryEdge>)
      requires Valid() && edges == []
      modifies this
      ensures Valid() && edges == newEdges && index == old(index)
      ensures forall k, i: nat :: 0 <= k < |flags| && i < 8 ==> Has(flags[k], i)
    {
      edges := newEdges;
      flags := seq(|newEdges|, _ => ALL_FLAGS);
      forall k, i: nat | 0 <= k < |flags| && i < 8 ensures Has(flags[k], i) {
        FlagBits(0, i, i);
      }
    }

    /** Filter `i` goes on to select exactly the edges with both ends allowed; other filters are not affected. */
    method Filter(filter: seq<bool>, i: nat)
      requires Valid() && i < 8
      requires forall k :: 0 <= k < |edges| ==> edges[k].source < |filter| && edges[k].target < |filter|
      modifies this`flags
      ensures Valid()
      ensures forall k, j: nat :: 0 <= k < |edges| && j < 8 ==>
              (Has(flags[k], j) <==> if j == i then Allowed(filter, edges[k]) else Has(old(flags)[k], j))
    {
      hide Filtered, Has, Masked;
      for n := 0 to |edges|
        invariant Valid()
        invariant forall k :: 0 <= k < n ==> Filtered(old(flags)[k], flags[k], i, Allowed(filter, edges[k]))
        invariant forall k :: n <= k < |edges| ==> flags[k] == old(flags)[k]
      {
        var allowed := filter[edges[n].source] && filter[edges[n].target];
        FilterBit(flags[n], i, allowed);
        flags := flags[n := Masked(flags[n], i, allowed)];
      }
      forall k, j: nat | 0 <= k < |edges| && j < 8
        ensures Has(flags[k], j) <==> if j == i then Allowed(filter, edges[k]) else Has(old(flags)[k], j)
      {
        UseFiltered(old(flags)[k], flags[k], i, Allowed(filter, edges[k]), j);
      }
    }

    /**
     * Merges new edges, in any order: the merge's own filter selects them as well, up to the fields
     * of `mergeCompare`, and no other filter changes. The result is sorted; it is free of duplicates
     * if and only if the stored and the new edges have no doubles.
     */
    method Merge(newEdges: seq<QueryEdge>)
      requires Valid() && index < 8
      modifies this
      ensures Valid() && index == old(index) + 1 && Sorted(edges)
      ensures forall i: nat, key :: i < 8 ==>
              (Picks(edges, flags, i, key) <==>
               Picks(old(edges), old(flags), i, key) || (i == old(index) && InKeys(newEdges, key)))
      ensures forall i: nat, e :: i < 8 ==>
              (Selected(edges, flags, i, e) <==>
               Selected(old(edges), old(flags), i, e) || (i == old(index) && Listed(newEdges, e)))
      ensures StrictlySorted(edges) <==> NoDoubles(old(edges), newEdges)
      ensures forall e :: e in old(edges) ==> e in edges
      ensures forall e :: e in edges ==> e in old(edges) || e in newEdges
    {
      hide Selected, Listed, KeyOf;
      ghost var edges0, flags0 := edges, flags;
      hide Passed, Picks, InKeys, Has, StrictlySorted, Sorted, DistinctKeys, IsPermutation, NoDoubles, Unrecognised;
      var bit := index;
      index := index + 1;
      var marked, kept := Pass(edges, flags, newEdges, bit);
      var tail := seq(|kept|, _ => Flag(bit));
      KeptSizes(edges, flags, newEdges, bit, marked, kept);
      ghost var all, bits := edges + kept, marked + tail;
      forall i: nat, key | i < 8
        ensures Picks(all, bits, i, key) <==> Picks(edges, flags, i, key) || (i == bit && InKeys(newEdges, key))
      {
        AppendedPicks(edges, flags, newEdges, bit, marked, kept, tail, i, key);
      }
      DistinctIffNoDoubles(edges, newEdges);
      edges, flags := edges + kept, marked + tail;
      var ordering := Ordering(edges);
      var sortedEdges := Arrange(edges, ordering);
      var sortedFlags := Arrange(flags, ordering);
      ArrangedSorted(edges, ordering, sortedEdges);
      forall i: nat, key | i < 8 ensures Picks(sortedEdges, sortedFlags, i, key) <==> Picks(edges, flags, i, key) {
        ArrangedPicks(edges, flags, ordering, sortedEdges, sortedFlags, i, key);
      }
      edges, flags := sortedEdges, sortedFlags;
      forall i: nat, e | i < 8
        ensures Selected(edges, flags, i, e) <==>
                Selected(edges0, flags0, i, e) || (i == bit && Listed(newEdges, e))
      {
        PicksMeans(edges, flags, i, e);
        PicksMeans(edges0, flags0, i, e);
        PicksMeans(newEdges, [], i, e);
      }
    }

    /** One vector of booleans per merge, parallel to the edges. */
    method MakeEdgeFilters() returns (filters: seq<seq<bool>>)
      requires Valid() && index <= 8
      ensures |filters| == index
      ensures forall i :: 0 <= i < index ==> |filters[i]| == |edges|
      ensures forall i, k :: 0 <= i < index && 0 <= k < |edges| ==> (filters[i][k] <==> Has(flags[k], i))
    {
      filters := [];
      for i := 0 to index
        invariant |filters| == i
        invariant forall j :: 0 <= j < i ==> |filters[j]| == |edges|
        invariant forall j, k :: 0 <= j < i && 0 <= k < |edges| ==> (filters[j][k] <==> Has(flags[k], j))
      {
        var filter: seq<bool> := [];
        for k := 0 to |flags|
          invariant |filter| == k && forall n :: 0 <= n < k ==> (filter[n] <==> Has(flags[n], i))
        {
          filter := filter + [flags[k] & Flag(i) != 0];
        }
        filters := filters + [filter];
      }
    }
  }

  lemma KeptSizes(edges: seq<QueryEdge>, flags: seq<Flags>, added: seq<QueryEdge>, bit: nat, flags': seq<Flags>,
        kept: seq<QueryEdge>)
    requires bit < 8 && Passed(edges, flags, added, |added|, bit, flags', kept)
    ensures |flags'| == |edges| && forall e :: e in kept ==> e in added
  {
    assert added[..|added|] == added;
  }
}
