/** Routes as legs of steps, and the merging of legs that do not start at a waypoint. */
module RouteResults {

  /** A step of an unpacked path; `rest` stands for everything merging leaves alone. */
  datatype PathData = PathData(weight: int, duration: int, rest: int)

  datatype Phantom = Phantom(forwardWeight: int, reverseWeight: int, forwardDuration: int, reverseDuration: int)

  datatype Ends = Ends(source: Phantom, target: Phantom)

  datatype Route = Route(legs: seq<seq<PathData>>, ends: seq<Ends>, sourceReversed: seq<bool>,
      targetReversed: seq<bool>, weight: int) {

    ghost predicate Valid() {
      |legs| == |ends| == |sourceReversed| == |targetReversed| && |legs| > 0
    }
  }

  // ---- totals

  datatype Quantity = Weight | Duration

  function Amount(step: PathData, q: Quantity): int {
    match q
    case Weight => step.weight
    case Duration => step.duration
  }

  function LegTotal(leg: seq<PathData>, q: Quantity): int {
    if leg == [] then 0 else LegTotal(leg[..|leg| - 1], q) + Amount(leg[|leg| - 1], q)
  }

  function LegsTotal(legs: seq<seq<PathData>>, q: Quantity): int {
    if legs == [] then 0 else LegsTotal(legs[..|legs| - 1], q) + LegTotal(legs[|legs| - 1], q)
  }

  /** `duration`: two nested loops over legs and steps. */
  method TotalDuration(r: Route) returns (total: int)
    ensures total == LegsTotal(r.legs, Duration)
  {
    total := 0;
    for i := 0 to |r.legs|
      invariant total == LegsTotal(r.legs[..i], Duration)
    {
      var leg := r.legs[i];
      for j := 0 to |leg|
        invariant total == LegsTotal(r.legs[..i], Duration) + LegTotal(leg[..j], Duration)
      {
        assert leg[..j + 1][..j] == leg[..j];
        total := total + leg[j].duration;
      }
      assert leg[..|leg|] == leg && r.legs[..i + 1][..i] == r.legs[..i];
    }
    assert r.legs[..|r.legs|] == r.legs;
  }

  // ---- what a merged leg contributes

  /** What the source phantom of leg `i` stands for, in the direction it is left. */
  function SourceAmount(r: Route, i: nat, q: Quantity): int
    requires r.Valid() && i < |r.legs|
  {
    var source := r.ends[i].source;
    match q
    case Weight => if r.sourceReversed[i] then source.reverseWeight else source.forwardWeight
    case Duration => if r.sourceReversed[i] then source.reverseDuration else source.forwardDuration
  }

  /** The steps of leg `i` when it is merged: its first step gets back what its source phantom left out. */
  function Merged(r: Route, i: nat): (leg: seq<PathData>)
    requires r.Valid() && i < |r.legs|
    ensures |leg| == |r.legs[i]|
  {
    var leg := r.legs[i];
    if leg == [] then []
    else [PathData(leg[0].weight + SourceAmount(r, i, Weight), leg[0].duration + SourceAmount(r, i, Duration),
        leg[0].rest)] + leg[1..]
  }

  /** Legs `from` to `until - 1` as one leg. */
  function Joined(r: Route, from: nat, until: nat): seq<PathData>
    requires r.Valid() && from < until <= |r.legs|
    decreases until
  {
    if until == from + 1 then r.legs[from] else Joined(r, from, until - 1) + Merged(r, until - 1)
  }

  /** The first `n` flags that are set, as positions: where legs of the collapsed route start. */
  function Starts(isWaypoint: seq<bool>, n: nat): (s: seq<nat>)
    requires n <= |isWaypoint|
    ensures forall k :: 0 <= k < |s| ==> s[k] < n && isWaypoint[s[k]]
    ensures forall j, k :: 0 <= j < k < |s| ==> s[j] < s[k]
    ensures forall i :: 0 <= i < n && isWaypoint[i] ==> i in s
  {
    if n == 0 then [] else Starts(isWaypoint, n - 1) + if isWaypoint[n - 1] then [n - 1] else []
  }

  /** The end (exclusive) of the stretch that starts at `starts[k]`. */
  function StretchEnd(starts: seq<nat>, n: nat, k: nat): nat
    requires k < |starts|
  {
    if k + 1 < |starts| then starts[k + 1] else n
  }

  /** Leg `k` of the collapsed route is the stretch from one waypoint to the next. */
  ghost predicate IsStretch(r: Route, c: Route, starts: seq<nat>, n: nat, k: nat)
    requires r.Valid() && k < |starts| == |c.legs| == |c.ends| == |c.sourceReversed| == |c.targetReversed|
  {
    var a, b := starts[k], StretchEnd(starts, n, k);
    && a < b <= |r.legs| && c.legs[k] == Joined(r, a, b)
    && c.ends[k] == Ends(r.ends[a].source, r.ends[b - 1].target)
    && c.sourceReversed[k] == r.sourceReversed[a] && c.targetReversed[k] == r.targetReversed[b - 1]
  }

  ghost predicate Collapsed(r: Route, isWaypoint: seq<bool>, n: nat, c: Route)
    requires r.Valid() && n <= |r.legs| <= |isWaypoint|
  {
    var starts := Starts(isWaypoint, n);
    && |starts| == |c.legs| == |c.ends| == |c.sourceReversed| == |c.targetReversed|
    && c.weight == r.weight
    && forall k :: 0 <= k < |starts| ==> IsStretch(r, c, starts, n, k)
  }

  /** `CollapseInternalRouteResult`. */
  method Collapse(leggy: Route, isWaypoint: seq<bool>) returns (collapsed: Route)
    requires leggy.Valid() && |isWaypoint| == |leggy.legs| + 1 && isWaypoint[0]
    ensures Collapsed(leggy, isWaypoint, |leggy.legs|, collapsed)
  {
    hide Starts, IsStretch, Merged, Joined;
    if |leggy.legs| == 1 {
      SingleLeg(leggy, isWaypoint);
      return leggy;
    }
    collapsed := Route([], [], [], [], leggy.weight);
    NoLegs(leggy, isWaypoint, collapsed);
    for i := 0 to |leggy.legs|
      invariant Collapsed(leggy, isWaypoint, i, collapsed) && (i > 0 ==> collapsed.legs != [])
    {
      if isWaypoint[i] {
        NewLeg(leggy, isWaypoint, i, collapsed);
        collapsed := Route(collapsed.legs + [leggy.legs[i]], collapsed.ends + [leggy.ends[i]],
                           collapsed.sourceReversed + [leggy.sourceReversed[i]],
                           collapsed.targetReversed + [leggy.targetReversed[i]], collapsed.weight);
      } else {
        LongerLeg(leggy, isWaypoint, i, collapsed);
        var last := |collapsed.legs| - 1;
        var leg := Append(collapsed.legs[last], leggy, i);
        collapsed := collapsed.(legs := collapsed.legs[last := leg],
                                ends := collapsed.ends[last := collapsed.ends[last].(target := leggy.ends[i].target)],
                                targetReversed := collapsed.targetReversed[last := leggy.targetReversed[i]]);
      }
    }
  }

  /** Copies the steps of leg `i` behind a leg, and adds what its source phantom left out. */
  method Append(lastSegment: seq<PathData>, leggy: Route, i: nat) returns (leg: seq<PathData>)
    requires leggy.Valid() && i < |leggy.legs|
    ensures leg == lastSegment + Merged(leggy, i)
  {
    leg := lastSegment;
    if leggy.legs[i] != [] {
      var oldSize := |leg|;
      leg := leg + leggy.legs[i];
      leg := leg[oldSize := leg[oldSize].(weight := leg[oldSize].weight + SourceAmount(leggy, i, Weight))];
      leg := leg[oldSize := leg[oldSize].(duration := leg[oldSize].duration + SourceAmount(leggy, i, Duration))];
    }
  }

  lemma NoLegs(r: Route, isWaypoint: seq<bool>, c: Route)
    requires r.Valid() && |r.legs| <= |isWaypoint| && c == Route([], [], [], [], r.weight)
    ensures Collapsed(r, isWaypoint, 0, c)
  {}

  lemma SingleLeg(r: Route, isWaypoint: seq<bool>)
    requires r.Valid() && |r.legs| == 1 && |isWaypoint| == 2 && isWaypoint[0]
    ensures Collapsed(r, isWaypoint, 1, r)
  {
    var none := Route([], [], [], [], r.weight);
    NoLegs(r, isWaypoint, none);
    hide Collapsed;
    NewLeg(r, isWaypoint, 0, none);
    assert WithNewLeg(r, 0, none) == r;
  }

  ghost function WithNewLeg(r: Route, i: nat, c: Route): Route
    requires r.Valid() && i < |r.legs|
  {
    Route(c.legs + [r.legs[i]], c.ends + [r.ends[i]], c.sourceReversed + [r.sourceReversed[i]],
          c.targetReversed + [r.targetReversed[i]], c.weight)
  }

  lemma NewStretch(r: Route, i: nat, c: Route, s: seq<nat>, k: nat)
    requires r.Valid() && i < |r.legs| && k <= |s| == |c.legs| == |c.ends| == |c.sourceReversed| == |c.targetReversed|
    requires k < |s| ==> IsStretch(r, c, s, i, k)
    ensures IsStretch(r, WithNewLeg(r, i, c), s + [i], i + 1, k)
  {
    hide Merged;
    if k < |s| {
      assert StretchEnd(s + [i], i + 1, k) == StretchEnd(s, i, k);
    }
  }

  lemma NewLeg(r: Route, isWaypoint: seq<bool>, i: nat, c: Route)
    requires r.Valid() && i < |r.legs| <= |isWaypoint| && isWaypoint[i] && Collapsed(r, isWaypoint, i, c)
    ensures Collapsed(r, isWaypoint, i + 1, WithNewLeg(r, i, c))
  {
    var n, s, s' := i + 1, Starts(isWaypoint, i), Starts(isWaypoint, i + 1);
    var c' := WithNewLeg(r, i, c);
    assert s' == s + [i];
    assert Joined(r, i, n) == r.legs[i];
    hide Starts, Joined, WithNewLeg;
    forall k | 0 <= k < |s'| ensures IsStretch(r, c', s', n, k) {
      NewStretch(r, i, c, s, k);
    }
  }

  ghost function WithLongerLeg(r: Route, i: nat, c: Route): Route
    requires r.Valid() && i < |r.legs| && 0 < |c.legs| == |c.ends| == |c.targetReversed|
  {
    var last := |c.legs| - 1;
    c.(legs := c.legs[last := c.legs[last] + Merged(r, i)],
       ends := c.ends[last := c.ends[last].(target := r.ends[i].target)],
       targetReversed := c.targetReversed[last := r.targetReversed[i]])
  }

  lemma LongerStretch(r: Route, i: nat, c: Route, s: seq<nat>, k: nat)
    requires r.Valid() && i < |r.legs| && k < |s| == |c.legs| == |c.ends| == |c.sourceReversed| == |c.targetReversed|
    requires IsStretch(r, c, s, i, k)
    ensures IsStretch(r, WithLongerLeg(r, i, c), s, i + 1, k)
  {
    hide Merged;
  }

  lemma LongerLeg(r: Route, isWaypoint: seq<bool>, i: nat, c: Route)
    requires r.Valid() && 0 < i < |r.legs| <= |isWaypoint| && !isWaypoint[i] && Collapsed(r, isWaypoint, i, c)
    requires c.legs != []
    ensures Collapsed(r, isWaypoint, i + 1, WithLongerLeg(r, i, c))
  {
    var n, s := i + 1, Starts(isWaypoint, i);
    var c' := WithLongerLeg(r, i, c);
    assert Starts(isWaypoint, n) == s + [] == s;
    hide Starts, Joined, WithLongerLeg;
    forall k | 0 <= k < |s| ensures IsStretch(r, c', s, n, k) {
      LongerStretch(r, i, c, s, k);
    }
  }

  // ---- what collapsing keeps

  /** The steps of all legs in one line. */
  function Flat(legs: seq<seq<PathData>>): seq<PathData> {
    if legs == [] then [] else Flat(legs[..|legs| - 1]) + legs[|legs| - 1]
  }

  /** The legs as they count in the collapsed route. */
  function Adjusted(r: Route, isWaypoint: seq<bool>, n: nat): seq<seq<PathData>>
    requires r.Valid() && n <= |r.legs| <= |isWaypoint|
  {
    if n == 0 then [] else Adjusted(r, isWaypoint, n - 1) + [AdjustedLeg(r, isWaypoint, n - 1)]
  }

  /** What merging adds: the source amounts of merged legs that have steps. */
  function AddedAmount(r: Route, isWaypoint: seq<bool>, n: nat, q: Quantity): int
    requires r.Valid() && n <= |r.legs| <= |isWaypoint|
  {
    if n == 0 then 0
    else AddedAmount(r, isWaypoint, n - 1, q)
         + if isWaypoint[n - 1] || r.legs[n - 1] == [] then 0 else SourceAmount(r, n - 1, q)
  }

  lemma {:induction false} LegTotalConcat(a: seq<PathData>, b: seq<PathData>, q: Quantity)
    ensures LegTotal(a + b, q) == LegTotal(a, q) + LegTotal(b, q)
    decreases |b|
  {
    if b == [] {
      assert a + b == a;
    } else {
      assert (a + b)[..|a + b| - 1] == a + b[..|b| - 1];
      LegTotalConcat(a, b[..|b| - 1], q);
    }
  }

  lemma MergedTotal(r: Route, i: nat, q: Quantity)
    requires r.Valid() && i < |r.legs|
    ensures LegTotal(Merged(r, i), q) == LegTotal(r.legs[i], q) + if r.legs[i] == [] then 0 else SourceAmount(r, i, q)
  {
    var leg := r.legs[i];
    if leg != [] {
      var first := Merged(r, i)[0];
      assert leg == [leg[0]] + leg[1..] && [first][..0] == [] && [leg[0]][..0] == [];
      LegTotalConcat([first], leg[1..], q);
      LegTotalConcat([leg[0]], leg[1..], q);
    }
  }

  lemma {:induction false} FlatTotal(legs: seq<seq<PathData>>, q: Quantity)
    ensures LegTotal(Flat(legs), q) == LegsTotal(legs, q)
    decreases |legs|
  {
    if legs != [] {
      FlatTotal(legs[..|legs| - 1], q);
      LegTotalConcat(Flat(legs[..|legs| - 1]), legs[|legs| - 1], q);
    }
  }

  lemma AddLeg(legs: seq<seq<PathData>>, leg: seq<PathData>, q: Quantity)
    ensures Flat(legs + [leg]) == Flat(legs) + leg
    ensures LegsTotal(legs + [leg], q) == LegsTotal(legs, q) + LegTotal(leg, q)
  {
    assert (legs + [leg])[..|legs + [leg]| - 1] == legs;
  }

  function AdjustedLeg(r: Route, isWaypoint: seq<bool>, i: nat): seq<PathData>
    requires r.Valid() && i < |r.legs| <= |isWaypoint|
  {
    if isWaypoint[i] then r.legs[i] else Merged(r, i)
  }

  /** A stretch is the adjusted legs it covers. */
  lemma {:induction false} StretchIsFlat(r: Route, isWaypoint: seq<bool>, a: nat, b: nat)
    requires r.Valid() && a < b <= |r.legs| <= |isWaypoint| && isWaypoint[a] && forall j :: a < j < b ==> !isWaypoint[j]
    ensures Flat(Adjusted(r, isWaypoint, b)) == Flat(Adjusted(r, isWaypoint, a)) + Joined(r, a, b)
    decreases b
  {
    hide Flat, Merged;
    AddLeg(Adjusted(r, isWaypoint, b - 1), AdjustedLeg(r, isWaypoint, b - 1), Weight);
    if b > a + 1 {
      StretchIsFlat(r, isWaypoint, a, b - 1);
      Associate(Flat(Adjusted(r, isWaypoint, a)), Joined(r, a, b - 1), Merged(r, b - 1));
    }
  }

  lemma Associate(a: seq<PathData>, b: seq<PathData>, c: seq<PathData>)
    ensures a + b + c == a + (b + c)
  {}

  lemma StretchHasNoWaypoint(isWaypoint: seq<bool>, n: nat, k: nat)
    requires n <= |isWaypoint| && k < |Starts(isWaypoint, n)|
    ensures var s := Starts(isWaypoint, n);
            isWaypoint[s[k]] && forall j :: s[k] < j < StretchEnd(s, n, k) ==> !isWaypoint[j]
  {
    var s := Starts(isWaypoint, n);
    forall j | s[k] < j < StretchEnd(s, n, k) ensures !isWaypoint[j] {
      forall m | 0 <= m < |s| ensures s[m] != j {
        if m > k + 1 { assert s[k + 1] < s[m]; }
      }
    }
  }

  lemma NoSteps(r: Route, isWaypoint: seq<bool>, legs: seq<seq<PathData>>)
    requires r.Valid() && |r.legs| <= |isWaypoint| && legs == []
    ensures Flat(Adjusted(r, isWaypoint, 0)) == [] == Flat(legs)
  {}

  lemma {:induction false} CollapsedIsAdjusted(r: Route, isWaypoint: seq<bool>, c: Route, k: nat)
    requires r.Valid() && |r.legs| < |isWaypoint| && isWaypoint[0] && Collapsed(r, isWaypoint, |r.legs|, c)
    requires k <= |c.legs|
    ensures var s, n := Starts(isWaypoint, |r.legs|), |r.legs|;
            Flat(c.legs[..k]) == Flat(Adjusted(r, isWaypoint, if k < |s| then s[k] else n))
    decreases k
  {
    hide Starts, Flat, Adjusted, Joined;
    var s, n := Starts(isWaypoint, |r.legs|), |r.legs|;
    if k == 0 {
      assert 0 in s;
      assert s[0] == 0;
      NoSteps(r, isWaypoint, c.legs[..0]);
    } else {
      CollapsedIsAdjusted(r, isWaypoint, c, k - 1);
      assert IsStretch(r, c, s, n, k - 1);
      StretchHasNoWaypoint(isWaypoint, n, k - 1);
      StretchIsFlat(r, isWaypoint, s[k - 1], StretchEnd(s, n, k - 1));
      AddLeg(c.legs[..k - 1], c.legs[k - 1], Weight);
      assert c.legs[..k] == c.legs[..k - 1] + [c.legs[k - 1]];
    }
  }

  /** The same steps in the same order; only weights and durations of first steps may differ. */
  ghost predicate SameSteps(a: seq<PathData>, b: seq<PathData>) {
    |a| == |b| && forall i :: 0 <= i < |a| ==> a[i].rest == b[i].rest
  }

  lemma {:induction false} AdjustedKeeps(r: Route, isWaypoint: seq<bool>, n: nat, q: Quantity)
    requires r.Valid() && n <= |r.legs| <= |isWaypoint|
    ensures SameSteps(Flat(Adjusted(r, isWaypoint, n)), Flat(r.legs[..n]))
    ensures LegsTotal(Adjusted(r, isWaypoint, n), q) == LegsTotal(r.legs[..n], q) + AddedAmount(r, isWaypoint, n, q)
    decreases n
  {
    if n > 0 {
      var i := n - 1;
      AdjustedKeeps(r, isWaypoint, i, q);
      AddLeg(Adjusted(r, isWaypoint, i), AdjustedLeg(r, isWaypoint, i), q);
      AddLeg(r.legs[..i], r.legs[i], q);
      assert r.legs[..n] == r.legs[..i] + [r.legs[i]];
      MergedTotal(r, i, q);
      assert SameSteps(AdjustedLeg(r, isWaypoint, i), r.legs[i]);
      hide Flat, LegsTotal, LegTotal, Merged, SourceAmount, AdjustedLeg;
      SameStepsConcat(Flat(Adjusted(r, isWaypoint, i)), AdjustedLeg(r, isWaypoint, i), Flat(r.legs[..i]), r.legs[i]);
    }
  }

  lemma SameStepsConcat(a: seq<PathData>, b: seq<PathData>, c: seq<PathData>, d: seq<PathData>)
    requires SameSteps(a, c) && SameSteps(b, d)
    ensures SameSteps(a + b, c + d)
  {}

  /**
   * Collapsing keeps every step in order, and the weight and the duration of the steps grow by
   * exactly what the source phantoms of the merged legs that have steps stand for.
   */
  lemma CollapseKeepsRoute(r: Route, isWaypoint: seq<bool>, c: Route, q: Quantity)
    requires r.Valid() && |r.legs| < |isWaypoint| && isWaypoint[0] && Collapsed(r, isWaypoint, |r.legs|, c)
    ensures SameSteps(Flat(c.legs), Flat(r.legs))
    ensures LegsTotal(c.legs, q) == LegsTotal(r.legs, q) + AddedAmount(r, isWaypoint, |r.legs|, q)
  {
    var n := |r.legs|;
    CollapsedIsAdjusted(r, isWaypoint, c, |c.legs|);
    AdjustedKeeps(r, isWaypoint, n, q);
    assert c.legs[..|c.legs|] == c.legs && r.legs[..n] == r.legs;
    FlatTotal(c.legs, q);
    FlatTotal(Adjusted(r, isWaypoint, n), q);
  }

  // ---- the same, number by number

  function StepWeights(leg: seq<PathData>): int {
    if leg == [] then 0 else StepWeights(leg[..|leg| - 1]) + leg[|leg| - 1].weight
  }

  function StepDurations(leg: seq<PathData>): int {
    if leg == [] then 0 else StepDurations(leg[..|leg| - 1]) + leg[|leg| - 1].duration
  }

  /** What the merged legs that have steps get back in weight: that of the direction their source is left in. */
  ghost function WeightsGivenBack(r: Route, isWaypoint: seq<bool>, n: nat): int
    requires r.Valid() && n <= |r.legs| <= |isWaypoint|
  {
    if n == 0 then 0
    else
      var source := r.ends[n - 1].source;
      WeightsGivenBack(r, isWaypoint, n - 1)
      + if isWaypoint[n - 1] || r.legs[n - 1] == [] then 0
        else if r.sourceReversed[n - 1] then source.reverseWeight else source.forwardWeight
  }

  ghost function DurationsGivenBack(r: Route, isWaypoint: seq<bool>, n: nat): int
    requires r.Valid() && n <= |r.legs| <= |isWaypoint|
  {
    if n == 0 then 0
    else
      var source := r.ends[n - 1].source;
      DurationsGivenBack(r, isWaypoint, n - 1)
      + if isWaypoint[n - 1] || r.legs[n - 1] == [] then 0
        else if r.sourceReversed[n - 1] then source.reverseDuration else source.forwardDuration
  }

  lemma {:induction false} TotalsMean(leg: seq<PathData>)
    ensures LegTotal(leg, Weight) == StepWeights(leg) && LegTotal(leg, Duration) == StepDurations(leg)
    decreases |leg|
  {
    if leg != [] { TotalsMean(leg[..|leg| - 1]); }
  }

  lemma {:induction false} AddedMeans(r: Route, isWaypoint: seq<bool>, n: nat)
    requires r.Valid() && n <= |r.legs| <= |isWaypoint|
    ensures AddedAmount(r, isWaypoint, n, Weight) == WeightsGivenBack(r, isWaypoint, n)
    ensures AddedAmount(r, isWaypoint, n, Duration) == DurationsGivenBack(r, isWaypoint, n)
    decreases n
  {
    if n > 0 { AddedMeans(r, isWaypoint, n - 1); }
  }

  /** Over all steps of all legs, collapsing adds the weights and the durations of those sources and nothing else. */
  lemma CollapseAdds(r: Route, isWaypoint: seq<bool>, c: Route)
    requires r.Valid() && |r.legs| < |isWaypoint| && isWaypoint[0] && Collapsed(r, isWaypoint, |r.legs|, c)
    ensures StepWeights(Flat(c.legs)) == StepWeights(Flat(r.legs)) + WeightsGivenBack(r, isWaypoint, |r.legs|)
    ensures StepDurations(Flat(c.legs)) == StepDurations(Flat(r.legs)) + DurationsGivenBack(r, isWaypoint, |r.legs|)
  {
    hide Collapsed, LegTotal, LegsTotal, AddedAmount, StepWeights, StepDurations, Flat;
    CollapseKeepsRoute(r, isWaypoint, c, Weight);
    CollapseKeepsRoute(r, isWaypoint, c, Duration);
    AddedMeans(r, isWaypoint, |r.legs|);
    TotalsMean(Flat(c.legs));
    TotalsMean(Flat(r.legs));
    FlatTotal(c.legs, Weight);
    FlatTotal(c.legs, Duration);
    FlatTotal(r.legs, Weight);
    FlatTotal(r.legs, Duration);
  }

  // ---- and step by step

  /** How many steps the legs from `a` up to `i` have. */
  function StepsBefore(r: Route, a: nat, i: nat): nat
    requires a <= i <= |r.legs|
  {
    if i == a then 0 else StepsBefore(r, a, i - 1) + |r.legs[i - 1]|
  }

  /** `step` is step `j` of leg `i`; the first step of a merged leg has what its source stands for on top. */
  ghost predicate Carries(r: Route, i: nat, j: nat, merged: bool, step: PathData)
    requires r.Valid() && i < |r.legs| && j < |r.legs[i]|
  {
    var was, source := r.legs[i][j], r.ends[i].source;
    if merged && j == 0 then
      && step.rest == was.rest
      && step.weight == was.weight + (if r.sourceReversed[i] then source.reverseWeight else source.forwardWeight)
      && step.duration == was.duration + if r.sourceReversed[i] then source.reverseDuration else source.forwardDuration
    else step == was
  }

  lemma {:induction false} JoinedSteps(r: Route, a: nat, b: nat)
    requires r.Valid() && a < b <= |r.legs|
    ensures |Joined(r, a, b)| == StepsBefore(r, a, b)
    decreases b
  {
    if b > a + 1 { JoinedSteps(r, a, b - 1); }
  }

  lemma MergedStep(r: Route, i: nat, j: nat)
    requires r.Valid() && i < |r.legs| && j < |r.legs[i]|
    ensures Carries(r, i, j, true, Merged(r, i)[j])
  {}

  lemma OneMoreLeg(r: Route, a: nat, b: nat)
    requires r.Valid() && a + 1 < b <= |r.legs|
    ensures Joined(r, a, b) == Joined(r, a, b - 1) + Merged(r, b - 1) && |Merged(r, b - 1)| == |r.legs[b - 1]|
  {}

  lemma StepAlone(r: Route, i: nat, j: nat)
    requires r.Valid() && i < |r.legs| && j < |r.legs[i]|
    ensures Joined(r, i, i + 1) == r.legs[i] && StepsBefore(r, i, i) == 0 && Carries(r, i, j, false, r.legs[i][j])
  {}

  lemma {:induction false} JoinedStep(r: Route, a: nat, b: nat, i: nat, j: nat)
    requires r.Valid() && a <= i < b <= |r.legs| && j < |r.legs[i]|
    ensures StepsBefore(r, a, i) + j < |Joined(r, a, b)|
    ensures Carries(r, i, j, i > a, Joined(r, a, b)[StepsBefore(r, a, i) + j])
    decreases b
  {
    hide *;
    if b == a + 1 {
      StepAlone(r, a, j);
    } else {
      OneMoreLeg(r, a, b);
      if i == b - 1 {
        JoinedSteps(r, a, i);
        MergedStep(r, i, j);
      } else {
        JoinedStep(r, a, b - 1, i, j);
      }
    }
  }

  /** Every step of every leg is in its place in the collapsed leg of its stretch, and nothing else is there. */
  lemma CollapsedStep(r: Route, isWaypoint: seq<bool>, c: Route, k: nat, i: nat, j: nat)
    requires r.Valid() && |r.legs| < |isWaypoint| && Collapsed(r, isWaypoint, |r.legs|, c)
    requires var s := Starts(isWaypoint, |r.legs|); k < |s| && s[k] <= i < StretchEnd(s, |r.legs|, k) && i < |r.legs|
    requires j < |r.legs[i]|
    ensures var s := Starts(isWaypoint, |r.legs|);
            var a, b := s[k], StretchEnd(s, |r.legs|, k);
            && k < |c.legs| && a <= i < b <= |r.legs| && |c.legs[k]| == StepsBefore(r, a, b)
            && StepsBefore(r, a, i) + j < |c.legs[k]|
            && Carries(r, i, j, i > a, c.legs[k][StepsBefore(r, a, i) + j])
  {
    hide Starts, Carries, Joined, StepsBefore;
    var s := Starts(isWaypoint, |r.legs|);
    assert IsStretch(r, c, s, |r.legs|, k);
    JoinedSteps(r, s[k], StretchEnd(s, |r.legs|, k));
    JoinedStep(r, s[k], StretchEnd(s, |r.legs|, k), i, j);
  }
}
