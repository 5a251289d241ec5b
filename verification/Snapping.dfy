/**
 * Snapping a coordinate to the road network: the nearest admissible segment and, if it lies in a
 * tiny component, the nearest admissible one in a big component. Distances, bearings and sides of
 * the road are inputs; candidates come in the order the spatial index yields them.
 */
module Snapping {

  /** A decision for the forward and for the reverse direction of a segment. */
  datatype Directions = Directions(forward: bool, reverse: bool)

  function And(a: Directions, b: Directions): Directions {
    Directions(a.forward && b.forward, a.reverse && b.reverse)
  }

  predicate Any(d: Directions) { d.forward || d.reverse }

  /** A candidate segment; `enabled` are its directions, and the other pairs are the facts the checks look up. */
  datatype Candidate = Candidate(
    id: nat, distance: real, tiny: bool, enabled: Directions, excluded: Directions, weightValid: Directions,
    startpoint: bool, atRight: bool, bearingInBounds: Directions)

  /** The four overloads: with or without a maximal distance, with or without a bearing. */
  datatype Query = Query(maxDistance: Option, withBearing: bool, curb: bool, useAllEdges: bool)

  datatype Option = None | Some(value: real)

  /** An accepted segment with the directions that remain enabled. */
  datatype Hit = Hit(id: nat, enabled: Directions)

  // ---- the checks

  function CheckSegmentExclude(c: Candidate): Directions {
    Directions(!(c.enabled.forward && c.excluded.forward), !(c.enabled.reverse && c.excluded.reverse))
  }

  function CheckSegmentBearing(c: Candidate): Directions {
    And(c.bearingInBounds, c.enabled)
  }

  function HasValidEdge(c: Candidate, useAllEdges: bool): Directions {
    if c.startpoint || useAllEdges then And(c.weightValid, c.enabled) else Directions(false, false)
  }

  function CheckApproach(c: Candidate, curb: bool): Directions {
    if c.enabled.forward && c.enabled.reverse && curb then Directions(c.atRight, !c.atRight) else Directions(true, true)
  }

  predicate TooFar(c: Candidate, q: Query) {
    q.maxDistance.Some? && c.distance > q.maxDistance.value
  }

  /** The directions in which a segment may be used at all. */
  function Admissible(c: Candidate, q: Query): Directions {
    var d := And(And(HasValidEdge(c, q.useAllEdges), CheckSegmentExclude(c)), CheckApproach(c, q.curb));
    if q.withBearing then And(CheckSegmentBearing(c), d) else d
  }

  predicate IsAdmissible(c: Candidate, q: Query) { Any(Admissible(c, q)) }

  // ---- what is to be found

  /** The first candidate from `i` on that is too far, or the end: the search looks no further. */
  function Cut(cs: seq<Candidate>, q: Query, i: nat): (n: nat)
    requires i <= |cs|
    ensures i <= n <= |cs| && (n < |cs| ==> TooFar(cs[n], q)) && forall k :: i <= k < n ==> !TooFar(cs[k], q)
    decreases |cs| - i
  {
    if i == |cs| || TooFar(cs[i], q) then i else Cut(cs, q, i + 1)
  }

  predicate Wanted(c: Candidate, q: Query, big: bool) {
    IsAdmissible(c, q) && (big ==> !c.tiny)
  }

  /** The first admissible candidate of the range (in a big component, if `big`), or its end. */
  function First(cs: seq<Candidate>, q: Query, big: bool, from: nat, until: nat): (k: nat)
    requires from <= until <= |cs|
    ensures from <= k <= until && (k < until ==> Wanted(cs[k], q, big))
    ensures forall j :: from <= j < k ==> !Wanted(cs[j], q, big)
    decreases until - from
  {
    if from == until || Wanted(cs[from], q, big) then from else First(cs, q, big, from + 1, until)
  }

  function HitOf(c: Candidate, q: Query): Hit {
    Hit(c.id, And(c.enabled, Admissible(c, q)))
  }

  /** Of the first `until` candidates: nothing; the nearest; or a nearest that is tiny and then the nearest big one. */
  function Answer(cs: seq<Candidate>, q: Query, until: nat): (hits: seq<Hit>)
    requires until <= |cs|
    ensures |hits| <= 2
  {
    var k := First(cs, q, false, 0, until);
    if k == until then []
    else if !cs[k].tiny then [HitOf(cs[k], q)]
    else
      var b := First(cs, q, true, k, until);
      if b == until then [HitOf(cs[k], q)] else [HitOf(cs[k], q), HitOf(cs[b], q)]
  }

  // ---- the search

  /** The flags the filter shares with the termination test. */
  class Flags {
    var hasSmallComponent: bool
    var hasBigComponent: bool

    constructor ()
      ensures !hasSmallComponent && !hasBigComponent
    {
      hasSmallComponent, hasBigComponent := false, false;
    }

    predicate UseSegment(c: Candidate)
      reads this
    {
      !hasSmallComponent || (!hasBigComponent && !c.tiny)
    }

    method Note(c: Candidate)
      modifies this
      ensures hasBigComponent == (old(hasBigComponent) || !c.tiny)
      ensures hasSmallComponent == (old(hasSmallComponent) || c.tiny)
    {
      hasBigComponent := hasBigComponent || !c.tiny;
      hasSmallComponent := hasSmallComponent || c.tiny;
    }

    /** The filter of the overloads without a bearing. */
    method Filter(c: Candidate, q: Query) returns (use: Directions)
      requires !q.withBearing
      modifies this
      ensures FilterDoes(c, q, use)
    {
      use := Directions(UseSegment(c), UseSegment(c));
      var validEdges := HasValidEdge(c, q.useAllEdges);
      var admissible := CheckSegmentExclude(c);
      use := And(use, admissible);
      use := And(use, validEdges);
      use := And(use, CheckApproach(c, q.curb));
      if use.forward || use.reverse {
        Note(c);
      }
    }

    /** The filter of the overloads with a bearing. */
    method FilterByBearing(c: Candidate, q: Query) returns (use: Directions)
      requires q.withBearing
      modifies this
      ensures FilterDoes(c, q, use)
    {
      use := Directions(UseSegment(c), UseSegment(c));
      var admissible := CheckSegmentExclude(c);
      if UseSegment(c) {
        use := And(CheckSegmentBearing(c), HasValidEdge(c, q.useAllEdges));
        use := And(use, admissible);
        use := And(use, CheckApproach(c, q.curb));
        if use.forward || use.reverse {
          Note(c);
        }
      }
    }

    /** Both filters let a segment through in its admissible directions, if it is still of use, and take note of it. */
    twostate predicate FilterDoes(c: Candidate, q: Query, use: Directions)
      reads this
    {
      && use == (if old(UseSegment(c)) then Admissible(c, q) else Directions(false, false))
      && hasBigComponent == (old(hasBigComponent) || (Any(use) && !c.tiny))
      && hasSmallComponent == (old(hasSmallComponent) || (Any(use) && c.tiny))
    }
  }

  /** What the flags say after the first `i` candidates. */
  ghost predicate FlagsOk(cs: seq<Candidate>, q: Query, i: nat, hasBig: bool, hasSmall: bool)
    requires i <= |cs|
  {
    var k := First(cs, q, false, 0, i);
    && (hasSmall <==> k < i && cs[k].tiny)
    && (hasBig <==> k < i && (!cs[k].tiny || First(cs, q, true, k, i) < i))
  }

  lemma FirstIs(cs: seq<Candidate>, q: Query, big: bool, from: nat, until: nat, k: nat)
    requires from <= k <= until <= |cs| && (k < until ==> Wanted(cs[k], q, big))
    requires forall j :: from <= j < k ==> !Wanted(cs[j], q, big)
    ensures First(cs, q, big, from, until) == k
  {}

  /** One more candidate: the first one stays, or the new one is the first, or there is still none. */
  lemma FirstGrows(cs: seq<Candidate>, q: Query, big: bool, from: nat, i: nat)
    requires from <= i < |cs|
    ensures var k := First(cs, q, big, from, i);
            First(cs, q, big, from, i + 1) == if k < i then k else if Wanted(cs[i], q, big) then i else i + 1
  {
    var k := First(cs, q, big, from, i);
    FirstIs(cs, q, big, from, i + 1, if k < i then k else if Wanted(cs[i], q, big) then i else i + 1);
  }

  /** One round of the search extends the answer to one more candidate. */
  lemma AnswerGrows(cs: seq<Candidate>, q: Query, i: nat, hasSmall: bool, use: Directions)
    requires i < |cs| && FlagsOk(cs, q, i, false, hasSmall)
    requires use == if !hasSmall || !cs[i].tiny then Admissible(cs[i], q) else Directions(false, false)
    ensures Answer(cs, q, i + 1) == Answer(cs, q, i) + (if Any(use) then [HitOf(cs[i], q)] else [])
    ensures FlagsOk(cs, q, i + 1, Any(use) && !cs[i].tiny, hasSmall || (Any(use) && cs[i].tiny))
  {
    hide First, Admissible, HitOf;
    var k := First(cs, q, false, 0, i);
    FirstGrows(cs, q, false, 0, i);
    FirstGrows(cs, q, true, k, i);
    if k == i && i < First(cs, q, false, 0, i + 1) {
    } else if k == i {
      FirstIs(cs, q, true, i, i + 1, if cs[i].tiny then i + 1 else i);
    }
  }

  /** Once a big component is found, further candidates change nothing. */
  lemma {:induction false} AnswerStays(cs: seq<Candidate>, q: Query, i: nat, j: nat, hasSmall: bool)
    requires i <= j <= |cs| && FlagsOk(cs, q, i, true, hasSmall)
    ensures Answer(cs, q, j) == Answer(cs, q, i)
    decreases j - i
  {
    hide Wanted, HitOf;
    if i < j {
      var k := First(cs, q, false, 0, i);
      FirstGrows(cs, q, false, 0, i);
      FirstGrows(cs, q, true, k, i);
      AnswerStays(cs, q, i + 1, j, hasSmall);
    }
  }

  /** The search of the spatial index: it asks whether to stop before it filters each candidate. */
  method Nearest(cs: seq<Candidate>, q: Query) returns (results: seq<Hit>)
    ensures results == Answer(cs, q, Cut(cs, q, 0))
  {
    hide First, Admissible, Answer, FlagsOk, Cut, TooFar;
    CutSteps(cs, q, 0);
    AnswerOfNone(cs, q);
    results := [];
    var flags := new Flags();
    var i := 0;
    while i < |cs|
      invariant i <= |cs| && Cut(cs, q, 0) == Cut(cs, q, i) && results == Answer(cs, q, i)
      invariant FlagsOk(cs, q, i, flags.hasBigComponent, flags.hasSmallComponent)
      invariant fresh(flags)
    {
      var c := cs[i];
      CutSteps(cs, q, i);
      if flags.hasBigComponent { AnswerNonEmpty(cs, q, i, flags.hasSmallComponent); }
      if (|results| > 0 && flags.hasBigComponent) || TooFar(c, q) {
        if flags.hasBigComponent { AnswerStays(cs, q, i, Cut(cs, q, i), flags.hasSmallComponent); }
        return;
      }
      ghost var hasSmall := flags.hasSmallComponent;
      var use: Directions;
      if q.withBearing {
        use := flags.FilterByBearing(c, q);
      } else {
        use := flags.Filter(c, q);
      }
      if use.forward || use.reverse {
        results := results + [Hit(c.id, And(c.enabled, use))];
      }
      AnswerGrows(cs, q, i, hasSmall, use);
      i := i + 1;
    }
    CutSteps(cs, q, i);
  }

  lemma CutSteps(cs: seq<Candidate>, q: Query, i: nat)
    requires i <= |cs|
    ensures i == |cs| || TooFar(cs[i], q) ==> Cut(cs, q, i) == i
    ensures i < |cs| && !TooFar(cs[i], q) ==> Cut(cs, q, i) == Cut(cs, q, i + 1)
  {}

  lemma AnswerOfNone(cs: seq<Candidate>, q: Query)
    ensures Answer(cs, q, 0) == [] && FlagsOk(cs, q, 0, false, false)
  {}

  lemma AnswerNonEmpty(cs: seq<Candidate>, q: Query, i: nat, hasSmall: bool)
    requires i <= |cs| && FlagsOk(cs, q, i, true, hasSmall)
    ensures Answer(cs, q, i) != []
  {}

  // ---- what the answer means when candidates come by distance

  ghost predicate ByDistance(cs: seq<Candidate>) {
    forall i, j :: 0 <= i <= j < |cs| ==> cs[i].distance <= cs[j].distance
  }

  /** A candidate that may be used: admissible, within the limit, and in a big component if `big`. */
  ghost predicate Eligible(cs: seq<Candidate>, q: Query, big: bool, k: nat) {
    k < |cs| && Wanted(cs[k], q, big) && !TooFar(cs[k], q)
  }

  ghost predicate IsNearest(cs: seq<Candidate>, q: Query, big: bool, k: nat) {
    Eligible(cs, q, big, k) && forall j: nat :: Eligible(cs, q, big, j) ==> cs[k].distance <= cs[j].distance
  }

  /** Candidate `k` is the first hit, and a second follows exactly if it is tiny and some eligible one is not. */
  ghost predicate IsFirstHit(cs: seq<Candidate>, q: Query, hits: seq<Hit>, k: nat) {
    && IsNearest(cs, q, false, k) && hits != [] && hits[0] == HitOf(cs[k], q)
    && (|hits| == 2 <==> cs[k].tiny && exists b: nat :: Eligible(cs, q, true, b))
  }

  ghost predicate IsSecondHit(cs: seq<Candidate>, q: Query, hits: seq<Hit>, b: nat) {
    IsNearest(cs, q, true, b) && |hits| == 2 && hits[1] == HitOf(cs[b], q)
  }

  /**
   * At most two segments are accepted: the nearest eligible one, if there is one, and exactly when
   * that is tiny and some eligible one is not, the nearest of those. Each keeps a direction enabled.
   */
  lemma AnswerIsNearest(cs: seq<Candidate>, q: Query)
    requires ByDistance(cs)
    ensures var hits := Answer(cs, q, Cut(cs, q, 0));
            && |hits| <= 2 && (forall h :: h in hits ==> Any(h.enabled))
            && (hits == [] <==> forall k: nat :: !Eligible(cs, q, false, k))
            && (hits != [] ==> exists k: nat :: IsFirstHit(cs, q, hits, k))
            && (|hits| == 2 ==> exists b: nat :: IsSecondHit(cs, q, hits, b))
  {
    var until := Cut(cs, q, 0);
    forall k: nat | k < |cs| ensures k < until <==> !TooFar(cs[k], q) {}
    var hits := Answer(cs, q, until);
    var k := First(cs, q, false, 0, until);
    if k < until {
      assert IsNearest(cs, q, false, k);
      var b := First(cs, q, true, k, until);
      assert b < until ==> Eligible(cs, q, true, b);
      assert IsFirstHit(cs, q, hits, k);
      if |hits| == 2 {
        assert IsSecondHit(cs, q, hits, b);
      }
    }
  }

  // ---- what makes a candidate eligible, fact by fact

  /** The forward direction may be used. */
  ghost predicate ForwardUsable(c: Candidate, q: Query) {
    && c.enabled.forward && c.weightValid.forward && !c.excluded.forward && (c.startpoint || q.useAllEdges)
    && (q.curb && c.enabled.reverse ==> c.atRight) && (q.withBearing ==> c.bearingInBounds.forward)
  }

  /** The reverse direction may be used. */
  ghost predicate ReverseUsable(c: Candidate, q: Query) {
    && c.enabled.reverse && c.weightValid.reverse && !c.excluded.reverse && (c.startpoint || q.useAllEdges)
    && (q.curb && c.enabled.forward ==> !c.atRight) && (q.withBearing ==> c.bearingInBounds.reverse)
  }

  /**
   * A direction is admissible if it is enabled, has a valid weight and is not excluded, the segment
   * may be started on, the bearing fits, and, on a two-way road to be reached at the curb, the point
   * lies on its side. The distance counts against the limit, if there is one.
   */
  lemma EligibleMeans(cs: seq<Candidate>, q: Query, big: bool, k: nat)
    ensures Eligible(cs, q, big, k) <==>
            && k < |cs| && (ForwardUsable(cs[k], q) || ReverseUsable(cs[k], q)) && (big ==> !cs[k].tiny)
            && (q.maxDistance.Some? ==> cs[k].distance <= q.maxDistance.value)
  {
    if k < |cs| { UsableMeans(cs[k], q); }
  }

  /** A hit names its candidate and keeps exactly the directions that may be used. */
  lemma HitMeans(c: Candidate, q: Query)
    ensures HitOf(c, q).id == c.id
    ensures HitOf(c, q).enabled == Directions(ForwardUsable(c, q), ReverseUsable(c, q))
  {
    UsableMeans(c, q);
  }

  lemma UsableMeans(c: Candidate, q: Query)
    ensures Admissible(c, q) == Directions(ForwardUsable(c, q), ReverseUsable(c, q))
  {}
}
