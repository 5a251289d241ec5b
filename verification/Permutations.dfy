/** Applying a permutation in place by following its cycles. */
module Permutations {

  /** `p` maps 0..n one-to-one onto itself. */
  ghost predicate IsPermutation(p: seq<nat>) {
    && (forall i :: 0 <= i < |p| ==> p[i] < |p|)
    && (forall i, j :: 0 <= i < j < |p| ==> p[i] != p[j])
  }

  /** `t` is `s` with every element moved from position `i` to position `p[i]`. */
  ghost predicate Moved<T>(s: seq<T>, p: seq<nat>, t: seq<T>) {
    && |s| == |p| == |t| && IsPermutation(p)
    && forall i :: 0 <= i < |s| ==> t[p[i]] == s[i]
  }

  /** The indices finished so far: closed under the permutation in both directions. */
  ghost predicate Closed(p: seq<nat>, done: seq<bool>) {
    && |done| == |p|
    && forall i :: 0 <= i < |p| && p[i] < |p| ==> (done[i] <==> done[p[i]])
  }

  /** A stretch of one cycle of `p`, from `cycle[0]` on. */
  ghost predicate OnCycle(p: seq<nat>, cycle: seq<nat>) {
    && |cycle| > 0
    && (forall m :: 0 <= m < |cycle| ==> cycle[m] < |p|)
    && (forall m, n :: 0 <= m < n < |cycle| ==> cycle[m] != cycle[n])
    && (forall m, n :: 0 <= m < n < |cycle| && n == m + 1 ==> cycle[m] < |p| && cycle[n] == p[cycle[m]])
  }

  lemma CycleIsShort(p: seq<nat>, cycle: seq<nat>)
    requires OnCycle(p, cycle)
    ensures |cycle| <= |p|
  {
    DistinctFit(cycle, |p|);
  }

  lemma DistinctFit(s: seq<nat>, n: nat)
    requires forall m :: 0 <= m < |s| ==> s[m] < n
    requires forall m, k :: 0 <= m < k < |s| ==> s[m] != s[k]
    ensures |s| <= n
    decreases n
  {
    if |s| > 0 {
      assert s[0] < n;
      if n - 1 in s {
        var m :| 0 <= m < |s| && s[m] == n - 1;
        DistinctFit(s[..m] + s[m + 1..], n - 1);
      } else {
        DistinctFit(s, n - 1);
      }
    }
  }

  /** The successor of the last element is new, or closes the cycle. */
  lemma NextOnCycle(p: seq<nat>, cycle: seq<nat>)
    requires IsPermutation(p) && OnCycle(p, cycle) && p[cycle[|cycle| - 1]] != cycle[0]
    ensures OnCycle(p, cycle + [p[cycle[|cycle| - 1]]])
  {
    var last := cycle[|cycle| - 1];
    forall m | 0 <= m < |cycle| ensures cycle[m] != p[last] {
      if m > 0 {
        assert cycle[m] == p[cycle[m - 1]];
        assert cycle[m - 1] != last;
      }
    }
  }

  /** The cycle through an unfinished index meets no finished one. */
  lemma CycleIsUnfinished(p: seq<nat>, done: seq<bool>, cycle: seq<nat>, m: nat)
    requires OnCycle(p, cycle) && Closed(p, done) && !done[cycle[0]] && m < |cycle|
    ensures !done[cycle[m]]
  {
    if m > 0 {
      CycleIsUnfinished(p, done, cycle, m - 1);
      assert cycle[m] == p[cycle[m - 1]];
    }
  }

  /** Finishing a whole cycle keeps the finished indices closed. */
  lemma CycleCloses(p: seq<nat>, done: seq<bool>, cycle: seq<nat>, done': seq<bool>)
    requires IsPermutation(p) && OnCycle(p, cycle) && p[cycle[|cycle| - 1]] == cycle[0] && Closed(p, done)
    requires |done'| == |done| && forall i :: 0 <= i < |done| ==> (done'[i] <==> done[i] || i in cycle)
    ensures Closed(p, done')
  {
    forall i | 0 <= i < |p| ensures i in cycle <==> p[i] in cycle {
      if i in cycle {
        var m :| 0 <= m < |cycle| && cycle[m] == i;
        if m + 1 < |cycle| { assert cycle[m + 1] == p[cycle[m]]; }
      }
      if p[i] in cycle {
        var m :| 0 <= m < |cycle| && cycle[m] == p[i];
        if m > 0 {
          assert p[cycle[m - 1]] == p[i];
          assert cycle[m - 1] == i;
        } else {
          assert p[cycle[|cycle| - 1]] == p[i];
          assert cycle[|cycle| - 1] == i;
        }
      }
    }
  }

  /** The state of the outer loop: finished elements are in place, the others untouched. */
  ghost predicate PartlyMoved<T>(s: seq<T>, p: seq<nat>, t: seq<T>, done: seq<bool>) {
    && |s| == |p| == |t| == |done|
    && (forall i :: 0 <= i < |s| && done[i] && p[i] < |t| ==> t[p[i]] == s[i])
    && (forall i :: 0 <= i < |s| && !done[i] ==> t[i] == s[i])
  }

  /** What following a cycle has done when its last element is still in the buffer. */
  ghost predicate CycleMoved<T>(s: seq<T>, t: seq<T>, cycle: seq<nat>) {
    && |s| == |t| && |cycle| > 0
    && (forall m, n :: 0 <= m < n < |cycle| && n == m + 1 ==>
        cycle[m] < |s| && cycle[n] < |t| && t[cycle[n]] == s[cycle[m]])
    && (forall i :: 0 <= i < |t| && (i !in cycle || i == cycle[0]) ==> t[i] == s[i])
  }

  lemma SwapOnCycle<T>(s: seq<T>, t: seq<T>, cycle: seq<nat>, next: nat, t': seq<T>)
    requires CycleMoved(s, t, cycle) && next < |t| && next !in cycle && forall m :: 0 <= m < |cycle| ==> cycle[m] < |s|
    requires forall m, n :: 0 <= m < n < |cycle| ==> cycle[m] != cycle[n]
    requires t' == t[next := s[cycle[|cycle| - 1]]]
    ensures CycleMoved(s, t', cycle + [next]) && t[next] == s[next]
  {
    var cycle' := cycle + [next];
    forall m, n | 0 <= m < n < |cycle'| && n == m + 1 ensures t'[cycle'[n]] == s[cycle'[m]] {
      if n < |cycle| { assert t[cycle[n]] == s[cycle[m]]; }
    }
  }

  /** A whole cycle is in place once the buffer has gone back to where it started. */
  lemma CycleInPlace<T>(s: seq<T>, p: seq<nat>, done: seq<bool>, t: seq<T>, cycle: seq<nat>, t': seq<T>)
    requires OnCycle(p, cycle) && p[cycle[|cycle| - 1]] == cycle[0] && |s| == |p| && CycleMoved(s, t, cycle)
    requires t' == t[cycle[0] := s[cycle[|cycle| - 1]]]
    requires Closed(p, done) && !done[cycle[0]]
    ensures forall i :: 0 <= i < |p| && i in cycle ==> p[i] < |p| && t'[p[i]] == s[i] && !done[i]
    ensures forall i :: 0 <= i < |p| && i !in cycle ==> t'[i] == s[i]
  {
    forall i | 0 <= i < |p| && i in cycle ensures p[i] < |p| && t'[p[i]] == s[i] && !done[i] {
      var m :| 0 <= m < |cycle| && cycle[m] == i;
      CycleIsUnfinished(p, done, cycle, m);
      if m + 1 < |cycle| {
        assert cycle[m + 1] == p[cycle[m]] && cycle[m + 1] != cycle[0];
        assert t[cycle[m + 1]] == s[cycle[m]];
      }
    }
  }

  lemma StartCycle<T>(s: seq<T>, p: seq<nat>, index: nat)
    requires index < |p|
    ensures OnCycle(p, [index]) && CycleMoved(s, s, [index])
  {}

  lemma CycleStep<T>(s: seq<T>, p: seq<nat>, t: seq<T>, cycle: seq<nat>, next: nat)
    requires IsPermutation(p) && OnCycle(p, cycle) && |s| == |p| && CycleMoved(s, t, cycle)
    requires next == p[cycle[|cycle| - 1]] != cycle[0]
    ensures OnCycle(p, cycle + [next]) && |cycle| < |p| && next < |p| && p[next] < |p|
    ensures CycleMoved(s, t[next := s[cycle[|cycle| - 1]]], cycle + [next]) && t[next] == s[next]
  {
    NextOnCycle(p, cycle);
    CycleIsShort(p, cycle + [next]);
    forall m | 0 <= m < |cycle| ensures cycle[m] != next {
      assert (cycle + [next])[m] != (cycle + [next])[|cycle|];
    }
    SwapOnCycle(s, t, cycle, next, t[next := s[cycle[|cycle| - 1]]]);
  }

  /** Swaps the buffer along the cycle of `index` until the cycle is about to close. */
  method SwapAlong<T>(a: array<T>, p: seq<nat>, done: seq<bool>, index: nat)
    returns (done': seq<bool>, buffer: T, oldIndex: nat, ghost cycle: seq<nat>)
    requires |p| == a.Length == |done| && IsPermutation(p) && index < |p|
    modifies a
    ensures OnCycle(p, cycle) && cycle[0] == index && oldIndex == cycle[|cycle| - 1] < |p| && p[oldIndex] == index
    ensures buffer == old(a[..])[oldIndex] && CycleMoved(old(a[..]), a[..], cycle)
    ensures |done'| == |done| && forall i :: 0 <= i < |done| ==> (done'[i] <==> done[i] || i in cycle[..|cycle| - 1])
  {
    ghost var s := a[..];
    cycle := [index];
    buffer := a[index];
    oldIndex := index;
    var newIndex := p[oldIndex];
    done' := done;
    StartCycle(s, p, index);
    assert newIndex < |p|;
    hide IsPermutation, OnCycle, CycleMoved;
    while newIndex != index
      invariant |cycle| > 0 && cycle[0] == index && oldIndex == cycle[|cycle| - 1] < |p|
      invariant newIndex == p[oldIndex] < |p|
      invariant OnCycle(p, cycle)
      invariant buffer == s[oldIndex] && CycleMoved(s, a[..], cycle)
      invariant |done'| == |done|
      invariant forall i :: 0 <= i < |done| ==> (done'[i] <==> done[i] || i in cycle[..|cycle| - 1])
      decreases |p| - |cycle|
    {
      CycleStep(s, p, a[..], cycle, newIndex);
      assert (cycle + [newIndex])[..|cycle|] == cycle == cycle[..|cycle| - 1] + [oldIndex];
      done' := done'[oldIndex := true];
      ghost var t := a[..][newIndex := buffer];
      a[newIndex], buffer := buffer, a[newIndex];
      assert a[..] == t;
      cycle := cycle + [newIndex];
      oldIndex, newIndex := newIndex, p[newIndex];
    }
  }

  /** From `t` and `done` to `t'` and `done'`: newly finished elements are in place, nothing else has moved. */
  ghost predicate CyclePlaced<T>(p: seq<nat>, t: seq<T>, done: seq<bool>, t': seq<T>, done': seq<bool>) {
    && |p| == |t| == |done| == |t'| == |done'| && Closed(p, done')
    && (forall i :: 0 <= i < |done| && done[i] ==> done'[i])
    && (forall i :: 0 <= i < |p| && done'[i] && !done[i] ==> p[i] < |t'| && t'[p[i]] == t[i])
    && (forall i :: 0 <= i < |p| && (done[i] || !done'[i]) ==> t'[i] == t[i])
  }

  lemma FinishCycle<T>(s: seq<T>, p: seq<nat>, done: seq<bool>, t: seq<T>, cycle: seq<nat>, done': seq<bool>)
    requires IsPermutation(p) && OnCycle(p, cycle) && p[cycle[|cycle| - 1]] == cycle[0] && |s| == |p|
    requires CycleMoved(s, t, cycle)
    requires Closed(p, done) && !done[cycle[0]]
    requires |done'| == |done| && forall i :: 0 <= i < |done| ==> (done'[i] <==> done[i] || i in cycle)
    ensures CyclePlaced(p, s, done, t[cycle[0] := s[cycle[|cycle| - 1]]], done') && done'[cycle[0]]
  {
    CycleInPlace(s, p, done, t, cycle, t[cycle[0] := s[cycle[|cycle| - 1]]]);
    CycleCloses(p, done, cycle, done');
    assert cycle[0] in cycle;
  }

  lemma MarkLast(done: seq<bool>, done': seq<bool>, cycle: seq<nat>)
    requires |done'| == |done| && |cycle| > 0 && cycle[|cycle| - 1] < |done|
    requires forall i :: 0 <= i < |done| ==> (done'[i] <==> done[i] || i in cycle[..|cycle| - 1])
    ensures forall i :: 0 <= i < |done| ==> (done'[cycle[|cycle| - 1] := true][i] <==> done[i] || i in cycle)
  {
    assert cycle == cycle[..|cycle| - 1] + [cycle[|cycle| - 1]];
  }

  /** Follows the cycle of an unfinished index, moving every element of it to its place. */
  method FollowCycle<T>(a: array<T>, p: seq<nat>, done: seq<bool>, index: nat) returns (done': seq<bool>)
    requires |p| == a.Length == |done| && IsPermutation(p) && index < |p| && Closed(p, done) && !done[index]
    modifies a
    ensures CyclePlaced(p, old(a[..]), done, a[..], done') && index < |done'| && done'[index]
    ensures forall i :: 0 <= i < |done| && done[i] ==> i < |done'| && done'[i]
  {
    var buffer, oldIndex;
    ghost var cycle;
    done', buffer, oldIndex, cycle := SwapAlong(a, p, done, index);
    MarkLast(done, done', cycle);
    done' := done'[oldIndex := true];
    hide IsPermutation, Closed, OnCycle, CycleMoved;
    FinishCycle(old(a[..]), p, done, a[..], cycle, done');
    ghost var t := a[..][index := buffer];
    a[index] := buffer;
    assert a[..] == t;
  }

  /** The first `n` indices are finished. */
  ghost predicate DoneTo(done: seq<bool>, n: nat) {
    n <= |done| && forall i :: 0 <= i < n ==> done[i]
  }

  /** Finishes the cycle of an unfinished index. */
  method PlaceCycle<T>(a: array<T>, p: seq<nat>, done: seq<bool>, index: nat, ghost s: seq<T>)
    returns (done': seq<bool>)
    requires |p| == a.Length == |done| && IsPermutation(p) && index < |p| && !done[index]
    requires Closed(p, done) && PartlyMoved(s, p, a[..], done)
    modifies a
    ensures |done'| == |done| && Closed(p, done') && PartlyMoved(s, p, a[..], done')
    ensures DoneTo(done, index) ==> DoneTo(done', index + 1)
  {
    hide IsPermutation, PartlyMoved, CyclePlaced, Closed;
    if p[index] == index {
      SelfCycle(s, p, a[..], done, index);
      return done[index := true];
    }
    ghost var t := a[..];
    done' := FollowCycle(a, p, done, index);
    CycleAdvances(s, p, t, done, a[..], done');
    SizeOf(p, done');
  }

  /** `inplacePermutation`: afterwards position `oldToNew[i]` holds what position `i` held. */
  method InplacePermutation<T>(a: array<T>, oldToNew: seq<nat>)
    requires |oldToNew| == a.Length && IsPermutation(oldToNew)
    modifies a
    ensures Moved(old(a[..]), oldToNew, a[..])
  {
    ghost var s := a[..];
    var wasReplaced := seq(a.Length, _ => false);
    hide IsPermutation, PartlyMoved, CyclePlaced, Closed, Moved;
    NothingMoved(s, oldToNew, wasReplaced);
    for index := 0 to a.Length
      invariant |wasReplaced| == a.Length
      invariant Closed(oldToNew, wasReplaced) && PartlyMoved(s, oldToNew, a[..], wasReplaced)
      invariant DoneTo(wasReplaced, index)
    {
      hide DoneTo;
      if !wasReplaced[index] {
        wasReplaced := PlaceCycle(a, oldToNew, wasReplaced, index, s);
      } else {
        DoneNext(wasReplaced, index);
      }
    }
    AllMoved(s, oldToNew, a[..], wasReplaced);
  }

  lemma DoneNext(done: seq<bool>, n: nat)
    requires n < |done| && done[n] && DoneTo(done, n)
    ensures DoneTo(done, n + 1)
  {}

  lemma SizeOf(p: seq<nat>, done: seq<bool>)
    requires Closed(p, done)
    ensures |done| == |p|
  {}

  lemma NothingMoved<T>(s: seq<T>, p: seq<nat>, done: seq<bool>)
    requires |s| == |p| == |done| && forall i :: 0 <= i < |done| ==> !done[i]
    ensures PartlyMoved(s, p, s, done) && Closed(p, done)
  {}

  lemma AllMoved<T>(s: seq<T>, p: seq<nat>, t: seq<T>, done: seq<bool>)
    requires IsPermutation(p) && PartlyMoved(s, p, t, done) && forall i :: 0 <= i < |done| ==> done[i]
    ensures Moved(s, p, t)
  {}

  lemma CycleAdvances<T>(s: seq<T>, p: seq<nat>, t: seq<T>, done: seq<bool>, t': seq<T>, done': seq<bool>)
    requires IsPermutation(p) && Closed(p, done) && PartlyMoved(s, p, t, done) && CyclePlaced(p, t, done, t', done')
    ensures PartlyMoved(s, p, t', done') && Closed(p, done')
  {}

  lemma SelfCycle<T>(s: seq<T>, p: seq<nat>, t: seq<T>, done: seq<bool>, index: nat)
    requires IsPermutation(p) && Closed(p, done) && PartlyMoved(s, p, t, done) && index < |p| && p[index] == index
    requires !done[index]
    ensures Closed(p, done[index := true]) && PartlyMoved(s, p, t, done[index := true])
  {
    CycleCloses(p, done, [index], done[index := true]);
  }

  /** `orderingToPermutation`: the inverse of an ordering. */
  method OrderingToPermutation(ordering: seq<nat>) returns (permutation: seq<nat>)
    requires IsPermutation(ordering)
    ensures IsPermutation(permutation) && |permutation| == |ordering|
    ensures forall i :: 0 <= i < |ordering| ==> permutation[ordering[i]] == i
  {
    var n := |ordering|;
    permutation := seq(n, _ => 0);
    for index := 0 to n
      invariant |permutation| == n && forall i :: 0 <= i < index ==> permutation[ordering[i]] == i
    {
      permutation := permutation[ordering[index] := index];
    }
    InverseIsPermutation(ordering, permutation);
  }

  lemma InverseIsPermutation(p: seq<nat>, q: seq<nat>)
    requires IsPermutation(p) && |q| == |p| && forall i :: 0 <= i < |p| ==> q[p[i]] == i
    ensures IsPermutation(q)
  {
    forall k | 0 <= k < |p| ensures q[k] < |p| && p[q[k]] == k {
      if k !in p { DistinctFit(p + [k], |p|); }
      var i :| 0 <= i < |p| && p[i] == k;
    }
  }

  /** Moving by the inverse of an ordering arranges the elements in that order. */
  lemma MovedIsOrdered<T>(s: seq<T>, ordering: seq<nat>, permutation: seq<nat>, t: seq<T>)
    requires IsPermutation(ordering) && Moved(s, permutation, t) && |ordering| == |s|
    requires forall i :: 0 <= i < |ordering| ==> ordering[i] < |permutation| && permutation[ordering[i]] == i
    ensures forall i :: 0 <= i < |ordering| ==> t[i] == s[ordering[i]]
  {}
}
