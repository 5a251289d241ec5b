/** A snapped point on a compressed geometry: how the weights of its segment are split between the two directions. */
module PhantomNodes {
  import opened Sums

  const INVALID_SEGMENT_WEIGHT: nat := 0x3F_FFFF
  const SPECIAL_SEGMENTID: nat := 0x7FFF_FFFF

  // ---- the segment data container

  /**
   * Geometry `id` has the nodes `index[id]` to `index[id + 1] - 1`. Entry `i` of the forward arrays belongs
   * to the segment that ends in node `i`, entry `i` of the reverse arrays to the segment that starts there.
   */
  datatype SegmentData = SegmentData(index: seq<nat>, forward: seq<nat>, reverse: seq<nat>) {

    ghost predicate Has(id: nat) {
      id + 1 < |index| && index[id] < index[id + 1] <= |forward| && index[id + 1] <= |reverse|
    }

    ghost function SegmentCount(id: nat): nat
      requires Has(id)
    {
      index[id + 1] - index[id] - 1
    }

    /** What it takes to go along physical segment `j`, from its node `j` to node `j + 1`. */
    ghost function Along(id: nat, j: nat): nat
      requires Has(id) && j < SegmentCount(id)
    {
      forward[index[id] + j + 1]
    }

    /** What it takes to go back along it. */
    ghost function Back(id: nat, j: nat): nat
      requires Has(id) && j < SegmentCount(id)
    {
      reverse[index[id] + j]
    }

    /** `GetForwardWeights`, `GetForwardDurations`. */
    function GetForward(id: nat): (w: seq<nat>)
      requires Has(id)
      ensures |w| == SegmentCount(id) && forall j :: 0 <= j < |w| ==> w[j] == Along(id, j)
    {
      forward[index[id] + 1..index[id + 1]]
    }

    /** `GetReverseWeights`, `GetReverseDurations`: the same segments, last one first. */
    function GetReverse(id: nat): (w: seq<nat>)
      requires Has(id)
      ensures |w| == SegmentCount(id) && forall j :: 0 <= j < |w| ==> w[|w| - 1 - j] == Back(id, j)
    {
      Reversed(reverse[index[id]..index[id + 1] - 1])
    }
  }

  function Reversed(s: seq<nat>): (r: seq<nat>)
    ensures |r| == |s| && forall i :: 0 <= i < |s| ==> r[|s| - 1 - i] == s[i]
  {
    if s == [] then [] else Reversed(s[1..]) + [s[0]]
  }

  /** Position `p` counted from the front of the forward list and from the back of the reverse list is one segment. */
  lemma SamePhysicalSegment(weights: SegmentData, id: nat, p: nat)
    requires weights.Has(id) && p < weights.SegmentCount(id)
    ensures var f, r := weights.GetForward(id), weights.GetReverse(id);
            |f| == |r| && f[p] == weights.Along(id, p) && r[|r| - p - 1] == weights.Back(id, p)
  {
    var r := weights.GetReverse(id);
    assert r[|r| - 1 - p] == weights.Back(id, p);
  }

  // ---- sums

  method Accumulate(s: seq<nat>, count: nat) returns (sum: nat)
    requires count <= |s|
    ensures sum == Sum(s[..count])
  {
    sum := 0;
    for i := 0 to count
      invariant sum == Sum(s[..i])
    {
      assert s[..i + 1][..i] == s[..i];
      sum := sum + s[i];
    }
  }

  lemma {:induction false} SumReversed(s: seq<nat>)
    ensures Sum(Reversed(s)) == Sum(s)
    decreases |s|
  {
    if s != [] {
      SumReversed(s[1..]);
      SumConcat(Reversed(s[1..]), [s[0]]);
      SumConcat([s[0]], s[1..]);
      SumOfOne(s[0]);
      hide Sum;
      assert [s[0]] + s[1..] == s;
    }
  }

  lemma SplitAt(s: seq<nat>, p: nat)
    requires p < |s|
    ensures Sum(s) == Sum(s[..p]) + s[p] + Sum(s[p + 1..])
  {
    hide Sum;
    SumOfOne(s[p]);
    SumConcat([s[p]], s[p + 1..]);
    SumConcat(s[..p], [s[p]] + s[p + 1..]);
    assert s == s[..p] + ([s[p]] + s[p + 1..]);
  }

  // ---- the split

  /** The nearest number between 0 and 1. */
  function Clamp(ratio: real): (r: real)
    ensures 0.0 <= r <= 1.0
    ensures 0.0 <= ratio <= 1.0 ==> r == ratio
    ensures (ratio <= 0.0 ==> r == 0.0) && (1.0 <= ratio ==> r == 1.0)
  {
    var atLeast := if 0.0 < ratio then ratio else 0.0;
    if atLeast < 1.0 then atLeast else 1.0
  }

  /** The cast to an integer drops the fraction. */
  function Part(whole: nat, ratio: real): (part: nat)
    requires 0.0 <= ratio <= 1.0
    ensures part <= whole
    ensures part as real <= whole as real * ratio < part as real + 1.0
  {
    PartBounds(whole, ratio);
    (whole as real * ratio).Floor
  }

  lemma PartBounds(whole: nat, ratio: real)
    requires 0.0 <= ratio <= 1.0
    ensures 0.0 <= whole as real * ratio <= whole as real
    ensures 0 <= (whole as real * ratio).Floor <= whole
  {
    assert whole as real * ratio <= whole as real * 1.0;
    var x := whole as real * ratio;
    assert x.Floor as real <= x < x.Floor as real + 1.0;
  }

  /** One quantity (weight or duration) of a phantom node. */
  datatype Split = Split(forward: nat, reverse: nat, forwardOffset: nat, reverseOffset: nat)

  /** The parts of `MakePhantomNode` that split a quantity at position `p` of a geometry. */
  method SplitQuantity(data: SegmentData, id: nat, p: nat, ratio: real, forwardId: nat, reverseId: nat)
    returns (s: Split)
    requires data.Has(id) && p < data.SegmentCount(id)
    ensures IsSplit(data, id, p, Clamp(ratio), forwardId != SPECIAL_SEGMENTID, reverseId != SPECIAL_SEGMENTID, s)
  {
    var forwards, reverses := data.GetForward(id), data.GetReverse(id);
    SamePhysicalSegment(data, id, p);
    var forwardOffset := Accumulate(forwards, p);
    var forward := forwards[p];
    var reverseOffset := Accumulate(reverses, |reverses| - p - 1);
    var reverse := reverses[|reverses| - p - 1];
    FarSegments(data, id, p);
    if forwardId != SPECIAL_SEGMENTID {
      forward := Part(forward, Clamp(ratio));
    }
    if reverseId != SPECIAL_SEGMENTID {
      reverse := reverse - Part(reverse, Clamp(ratio));
    }
    s := Split(forward, reverse, forwardOffset, reverseOffset);
  }

  /** Going along the first `n` segments. */
  ghost function AlongFirst(data: SegmentData, id: nat, n: nat): nat
    requires data.Has(id) && n <= data.SegmentCount(id)
  {
    Sum(data.GetForward(id)[..n])
  }

  /** Going back along the segments from `n` on. */
  ghost function BackFrom(data: SegmentData, id: nat, n: nat): nat
    requires data.Has(id) && n <= data.SegmentCount(id)
  {
    Sum(Backs(data, id)[n..])
  }

  /** The reverse quantities in the order of the segments. */
  ghost function Backs(data: SegmentData, id: nat): (b: seq<nat>)
    requires data.Has(id)
    ensures |b| == data.SegmentCount(id) && forall j :: 0 <= j < |b| ==> b[j] == data.Back(id, j)
  {
    data.reverse[data.index[id]..data.index[id + 1] - 1]
  }

  lemma {:induction false} ReversedFront(s: seq<nat>, n: nat)
    requires n <= |s|
    ensures Reversed(s)[..|s| - n] == Reversed(s[n..])
    decreases n
  {
    if n == 0 {
      assert s[0..] == s;
    } else {
      ReversedFront(s[1..], n - 1);
      assert s[n..] == s[1..][n - 1..];
    }
  }

  /** The front of the reverse list is the segments beyond `p`. */
  lemma FarSegments(data: SegmentData, id: nat, p: nat)
    requires data.Has(id) && p < data.SegmentCount(id)
    ensures var r := data.GetReverse(id); Sum(r[..|r| - p - 1]) == BackFrom(data, id, p + 1)
  {
    hide Sum, Reversed;
    var all := Backs(data, id);
    assert data.GetReverse(id) == Reversed(all);
    ReversedFront(all, p + 1);
    SumReversed(all[p + 1..]);
  }

  /** What the four numbers are, segment by physical segment. */
  ghost predicate IsSplit(data: SegmentData, id: nat, p: nat, ratio: real, forwardValid: bool, reverseValid: bool,
        s: Split)
    requires data.Has(id) && p < data.SegmentCount(id) && 0.0 <= ratio <= 1.0
  {
    && s.forwardOffset == AlongFirst(data, id, p) && s.reverseOffset == BackFrom(data, id, p + 1)
    && s.forward == (if forwardValid then Part(data.Along(id, p), ratio) else data.Along(id, p))
    && s.reverse == (if reverseValid then data.Back(id, p) - Part(data.Back(id, p), ratio) else data.Back(id, p))
  }

  ghost function AlongAll(data: SegmentData, id: nat): nat
    requires data.Has(id)
  {
    Sum(data.GetForward(id))
  }

  ghost function BackAll(data: SegmentData, id: nat): nat
    requires data.Has(id)
  {
    Sum(Backs(data, id))
  }

  lemma Totals(data: SegmentData, id: nat, p: nat)
    requires data.Has(id) && p < data.SegmentCount(id)
    ensures AlongFirst(data, id, p) + data.Along(id, p) <= AlongAll(data, id)
    ensures data.Back(id, p) + BackFrom(data, id, p + 1) <= BackAll(data, id)
  {
    SplitAt(data.GetForward(id), p);
    SplitAt(Backs(data, id), p);
  }

  /** In each direction, offset and part stay within that direction's total. */
  lemma StaysWithinTotal(data: SegmentData, id: nat, p: nat, ratio: real, forwardValid: bool, reverseValid: bool,
        s: Split)
    requires data.Has(id) && p < data.SegmentCount(id) && 0.0 <= ratio <= 1.0
    requires IsSplit(data, id, p, ratio, forwardValid, reverseValid, s)
    ensures s.forwardOffset + s.forward <= AlongAll(data, id) && s.reverse + s.reverseOffset <= BackAll(data, id)
  {
    Totals(data, id, p);
  }

  /** Both directions cost the same on every segment. */
  ghost predicate Mirrored(data: SegmentData, id: nat)
    requires data.Has(id)
  {
    forall j :: 0 <= j < data.SegmentCount(id) ==> data.Along(id, j) == data.Back(id, j)
  }

  /** When both directions cost the same, the four pieces add up to the whole: nothing is lost by truncation. */
  lemma PiecesAddUp(data: SegmentData, id: nat, p: nat, ratio: real, s: Split)
    requires data.Has(id) && p < data.SegmentCount(id) && 0.0 <= ratio <= 1.0
    requires IsSplit(data, id, p, ratio, true, true, s) && Mirrored(data, id)
    ensures s.forwardOffset + s.forward + s.reverse + s.reverseOffset == AlongAll(data, id) == BackAll(data, id)
  {
    var f, b := data.GetForward(id), Backs(data, id);
    assert f == b;
    SplitAt(f, p);
  }

  /** Moving the point along the segment never makes the part before it smaller. */
  lemma PartGrowsWithRatio(whole: nat, low: real, high: real)
    requires 0.0 <= low <= high <= 1.0
    ensures Part(whole, low) <= Part(whole, high)
  {
    assert whole as real * low <= whole as real * high;
    assert Part(whole, low) as real < Part(whole, high) as real + 1.0;
  }

  // ---- distances

  function RealSum(s: seq<real>): real {
    if s == [] then 0.0 else RealSum(s[..|s| - 1]) + s[|s| - 1]
  }

  lemma {:induction false} RealSumConcat(a: seq<real>, b: seq<real>)
    ensures RealSum(a + b) == RealSum(a) + RealSum(b)
    decreases |b|
  {
    if b == [] {
      assert a + b == a;
    } else {
      assert (a + b)[..|a + b| - 1] == a + b[..|b| - 1];
      RealSumConcat(a, b[..|b| - 1]);
    }
  }

  /** The two loops over the geometry: with the segment itself they cover its whole length. */
  method DistanceOffsets(lengths: seq<real>, p: nat) returns (before: real, after: real)
    requires p < |lengths|
    ensures before == RealSum(lengths[..p]) && before + lengths[p] + after == RealSum(lengths)
  {
    before := 0.0;
    for current := 0 to p
      invariant before == RealSum(lengths[..current])
    {
      assert lengths[..current + 1][..current] == lengths[..current];
      before := before + lengths[current];
    }
    after := 0.0;
    for current := p + 1 to |lengths|
      invariant before + lengths[p] + after == RealSum(lengths[..current])
    {
      assert lengths[..current + 1][..current] == lengths[..current];
      after := after + lengths[current];
    }
    assert lengths[..|lengths|] == lengths;
  }

  // ---- validity

  predicate SegmentsValid(s: seq<nat>) { INVALID_SEGMENT_WEIGHT !in s }

  datatype Validity = Validity(forwardSource: bool, forwardTarget: bool, reverseSource: bool, reverseTarget: bool)

  /**
   * A point is a valid source in a direction if the whole geometry can be traversed, and a valid
   * target if the part of it that leads up to and over the point's segment can.
   */
  method CheckValidity(weights: SegmentData, id: nat, p: nat) returns (v: Validity)
    requires weights.Has(id) && p < weights.SegmentCount(id)
    ensures v.forwardSource <==>
            forall j :: 0 <= j < weights.SegmentCount(id) ==> weights.Along(id, j) != INVALID_SEGMENT_WEIGHT
    ensures v.forwardTarget <==> forall j :: 0 <= j <= p ==> weights.Along(id, j) != INVALID_SEGMENT_WEIGHT
    ensures v.reverseSource <==>
            forall j :: 0 <= j < weights.SegmentCount(id) ==> weights.Back(id, j) != INVALID_SEGMENT_WEIGHT
    ensures v.reverseTarget <==>
            forall j :: p <= j < weights.SegmentCount(id) ==> weights.Back(id, j) != INVALID_SEGMENT_WEIGHT
  {
    var f, r := weights.GetForward(id), weights.GetReverse(id);
    v := Validity(SegmentsValid(f), SegmentsValid(f[..p + 1]), SegmentsValid(r), SegmentsValid(r[..|r| - p]));
    ValidAlong(weights, id, |f|);
    ValidAlong(weights, id, p + 1);
    ValidBack(weights, id, 0);
    ValidBack(weights, id, p);
    assert f[..|f|] == f && r[..|r| - 0] == r;
  }

  lemma ValidAlong(weights: SegmentData, id: nat, n: nat)
    requires weights.Has(id) && n <= weights.SegmentCount(id)
    ensures SegmentsValid(weights.GetForward(id)[..n]) <==>
            forall j :: 0 <= j < n ==> weights.Along(id, j) != INVALID_SEGMENT_WEIGHT
  {
    var f := weights.GetForward(id)[..n];
    if SegmentsValid(f) {
      forall j | 0 <= j < n ensures weights.Along(id, j) != INVALID_SEGMENT_WEIGHT { assert f[j] in f; }
    }
  }

  lemma ValidBack(weights: SegmentData, id: nat, n: nat)
    requires weights.Has(id) && n <= weights.SegmentCount(id)
    ensures var r := weights.GetReverse(id);
            SegmentsValid(r[..|r| - n]) <==> forall j :: n <= j < |r| ==> weights.Back(id, j) != INVALID_SEGMENT_WEIGHT
  {
    var whole := weights.GetReverse(id);
    var r := whole[..|whole| - n];
    if SegmentsValid(r) {
      forall j | n <= j < |whole| ensures weights.Back(id, j) != INVALID_SEGMENT_WEIGHT {
        assert r[|whole| - 1 - j] in r && whole[|whole| - 1 - j] == weights.Back(id, j);
      }
    } else {
      var i :| 0 <= i < |r| && r[i] == INVALID_SEGMENT_WEIGHT;
      assert whole[|whole| - 1 - (|whole| - 1 - i)] == weights.Back(id, |whole| - 1 - i);
    }
  }
}
