/** The step after the recursion: a finished node hands its low link up, or closes a component. */
module TarjanFinish {
  import opened FiniteSets
  import opened Sums
  import opened TarjanState
  import opened TarjanSteps

  function Min(x: nat, y: nat): nat {
    if x <= y then x else y
  }

  /** The node of the top frame is done: its frame is gone and its low link has reached its parent. */
  function Finish(s: State): State
    requires |s.recursion| > 0 && Top(s).v < |s.before| == |s.lowLink| && Top(s).parent < |s.lowLink|
  {
    var f := Top(s);
    s.(recursion := s.recursion[..|s.recursion| - 1],
       before := s.before[f.v := true],
       lowLink := s.lowLink[f.parent := Min(s.lowLink[f.parent], s.lowLink[f.v])])
  }

  ghost function Leave(a: Active, counter: nat): Active
    requires ActiveShape(a) && |a.node| > 0
  {
    var m := |a.node| - 1;
    Active(a.node[..m], a.parent[..m], a.pending[..m], if m > 0 then a.limit[..m][m - 1 := counter] else [])
  }

  /** The top frame is the innermost active one and nothing is pending above it. */
  ghost predicate DoneTop(s: State, a: Active) {
    && ActiveShape(a) && |a.node| > 0 && |s.recursion| > 0
    && a.pending[|a.node| - 1] == []
    && Top(s) == Frame(a.node[|a.node| - 1], a.parent[|a.node| - 1])
    && Top(s).v < |s.index| == |s.lowLink| == |s.before| == |s.onStack| && Top(s).parent < |s.index|
    && Top(s).parent == (if |a.node| == 1 then Top(s).v else a.node[|a.node| - 2])
  }

  // ---- parts common to both outcomes

  lemma LeaveKeepsFrames(n: nat, s: State, a: Active)
    requires DoneTop(s, a) && Parents(a.node, a.parent) && FrameChain(n, s.recursion, a)
    ensures FrameChain(n, Finish(s).recursion, Leave(a, s.counter))
    ensures Parents(Leave(a, s.counter).node, Leave(a, s.counter).parent)
  {
    var m := |a.node| - 1;
    assert s.recursion == Frames(a.node[..m], a.parent[..m], a.pending[..m]) + [Top(s)];
    assert Finish(s).recursion == Frames(a.node[..m], a.parent[..m], a.pending[..m]);
  }

  lemma LeaveKeepsEdges(w: World, s: State, a: Active)
    requires DoneTop(s, a) && EdgesSeen(w.edge, s.index, s.before, a.node, a.pending)
    requires PendingFrames(w.edge, s.index, a.node, a.pending)
    ensures EdgesSeen(w.edge, s.index, Finish(s).before, Leave(a, s.counter).node, Leave(a, s.counter).pending)
    ensures PendingFrames(w.edge, s.index, Leave(a, s.counter).node, Leave(a, s.counter).pending)
  {
    var m, v := |a.node| - 1, Top(s).v;
    forall y: nat | (v, y) in w.edge ensures Visited(s.index, y) {
      assert (a.node[m], y) in w.edge && !Asked(a.pending[m], y);
    }
  }

  lemma LeaveKeepsActive(s: State, a: Active)
    requires DoneTop(s, a) && ActiveNodes(s.index, s.onStack, s.before, a.node)
    ensures ActiveNodes(s.index, s.onStack, Finish(s).before, Leave(a, s.counter).node)
  {
    var m, v, node' := |a.node| - 1, Top(s).v, Leave(a, s.counter).node;
    forall x: nat | x < |s.before| && !Finish(s).before[x] ensures x in node' {
      assert x in a.node;
      var k :| 0 <= k < |a.node| && a.node[k] == x;
      assert node'[k] == x;
    }
    forall k | 0 <= k < |node'| ensures node'[k] != v {
      assert node'[k] == a.node[k];
    }
  }

  lemma LeaveKeepsLimits(s: State, a: Active)
    requires DoneTop(s, a) && Limits(s.index, s.counter, a.node, a.limit)
    ensures Limits(s.index, s.counter, Leave(a, s.counter).node, Leave(a, s.counter).limit)
  {}

  // ---- the node is not the root of a component

  /** Below the root of a component some outer active node is still reachable. */
  lemma NotRootHasOuter(w: World, s: State, a: Active) returns (k: nat)
    requires DoneTop(s, a) && s.lowLink[Top(s).v] < s.index[Top(s).v]
    requires Laws(w) && ActiveNodes(s.index, s.onStack, s.before, a.node)
    requires LowNumbers(w, s.index, s.lowLink, s.onStack, a.node) && BackReach(w, s.index, s.onStack, a.node)
    ensures k < |a.node| - 1 && a.node[k] < |s.index|
    ensures s.index[a.node[k]] <= s.lowLink[Top(s).v] && (Top(s).v, a.node[k]) in w.reach
  {
    hide BackReach, Laws;
    var v, m := Top(s).v, |a.node| - 1;
    assert a.node[m] == v && LowReached(w, s.index, s.onStack, v, s.lowLink[a.node[m]]);
    var y: nat :| Open(s.onStack, y) && y < |s.index| && s.index[y] == s.lowLink[v] && (v, y) in w.reach;
    k := ActiveBehind(w, s.index, s.onStack, a.node, y);
    Chain(w, v, y, a.node[k]);
  }

  lemma HandUpKeepsLow(w: World, s: State, a: Active)
    requires DoneTop(s, a) && Laws(w) && ActiveNodes(s.index, s.onStack, s.before, a.node)
    requires ForwardReach(w, s.index, s.onStack)
    requires LowNumbers(w, s.index, s.lowLink, s.onStack, a.node)
    ensures LowNumbers(w, s.index, Finish(s).lowLink, s.onStack, Leave(a, s.counter).node)
  {
    hide Laws, ForwardReach;
    var v, u, m, node', lowLink' := Top(s).v, Top(s).parent, |a.node| - 1, Leave(a, s.counter).node, Finish(s).lowLink;
    forall k | 0 <= k < |node'|
      ensures node'[k] < |s.index| && lowLink'[node'[k]] <= s.index[node'[k]]
      ensures LowReached(w, s.index, s.onStack, node'[k], lowLink'[node'[k]])
    {
      assert node'[k] == a.node[k] && Visited(s.index, a.node[k]);
      assert LowReached(w, s.index, s.onStack, a.node[k], s.lowLink[a.node[k]]);
      if a.node[k] == u && lowLink'[u] != s.lowLink[u] {
        assert LowReached(w, s.index, s.onStack, a.node[m], s.lowLink[a.node[m]]);
        var y: nat :| Open(s.onStack, y) && y < |s.index| && s.index[y] == s.lowLink[v] && (v, y) in w.reach;
        assert (u, v) in w.reach by { UseReach(w, s, u, v); }
        Chain(w, u, v, y);
      }
    }
  }

  lemma UseReach(w: World, s: State, x: nat, y: nat)
    requires ForwardReach(w, s.index, s.onStack) && Open(s.onStack, x) && Open(s.onStack, y) && s.index[x] <= s.index[y]
    ensures (x, y) in w.reach
  {}

  lemma HandUpKeepsBounds(w: World, s: State, a: Active)
    requires DoneTop(s, a) && |a.node| > 1 && ActiveNodes(s.index, s.onStack, s.before, a.node)
    requires Limits(s.index, s.counter, a.node, a.limit)
    requires LowBounds(w, s.index, s.lowLink, s.onStack, a.node, a.limit)
    ensures LowBounds(w, s.index, Finish(s).lowLink, s.onStack, Leave(a, s.counter).node, Leave(a, s.counter).limit)
  {
    hide Limits;
    var v, u, m, a', lowLink' := Top(s).v, Top(s).parent, |a.node| - 1, Leave(a, s.counter), Finish(s).lowLink;
    assert a.limit[m - 1] == s.index[v] && a.limit[m] == s.counter by { UseLimits(s, a, m); }
    assert Visited(s.index, a.node[m]) && Visited(s.index, a.node[m - 1]);
    forall k, x: nat, y: nat |
      0 <= k < |a'.node| && Open(s.onStack, x) && s.index[a'.node[k]] <= s.index[x] < a'.limit[k] && (x, y) in w.edge
          && Open(s.onStack, y)
      ensures lowLink'[a'.node[k]] <= s.index[y]
    {
      assert a'.node[k] == a.node[k];
      if k == m - 1 {
        if s.index[x] < s.index[v] {
          assert s.lowLink[a.node[k]] <= s.index[y];
        } else {
          assert s.index[a.node[m]] <= s.index[x] < a.limit[m] ==> s.lowLink[a.node[m]] <= s.index[y];
        }
      } else {
        assert a.node[k] != u && a'.limit[k] == a.limit[k];
        assert s.lowLink[a.node[k]] <= s.index[y];
      }
    }
  }

  lemma UseLimits(s: State, a: Active, k: nat)
    requires Limits(s.index, s.counter, a.node, a.limit) && k < |a.node|
    ensures k > 0 ==> a.node[k] < |s.index| && a.limit[k - 1] == s.index[a.node[k]]
    ensures k == |a.node| - 1 ==> a.limit[k] == s.counter
  {}

  lemma HandUpKeepsBack(w: World, s: State, a: Active)
    requires DoneTop(s, a) && Laws(w) && ActiveNodes(s.index, s.onStack, s.before, a.node)
    requires LowNumbers(w, s.index, s.lowLink, s.onStack, a.node) && BackReach(w, s.index, s.onStack, a.node)
    requires s.lowLink[Top(s).v] < s.index[Top(s).v]
    ensures BackReach(w, s.index, s.onStack, Leave(a, s.counter).node)
  {
    hide Laws, BackReach, LowNumbers;
    var v, m, node' := Top(s).v, |a.node| - 1, Leave(a, s.counter).node;
    var j := NotRootHasOuter(w, s, a);
    assert node'[j] == a.node[j];
    forall y: nat | Open(s.onStack, y) ensures BackToActive(w, s.index, node', y) {
      var k := ActiveBehind(w, s.index, s.onStack, a.node, y);
      if k == m {
        Chain(w, y, v, node'[j]);
      } else {
        assert node'[k] == a.node[k];
      }
    }
    UseBack(w, s.index, s.onStack, node');
  }

  /** A finished node that is not the root of a component leaves the invariants intact. */
  lemma HandUpKeepsInv(w: World, s: State, a: Active)
    requires DoneTop(s, a) && s.lowLink[Top(s).v] < s.index[Top(s).v]
    requires Inv(w, s, a)
    ensures Inv(w, Finish(s), Leave(a, s.counter))
  {
    hide Laws, Numbered, OpenOrClosed, StackInOrder, EdgesSeen, LowNumbers, LowBounds, ForwardReach, BackReach;
    hide Components, Sizes, Limits;
    hide ActiveNodes, PendingFrames, Parents, FrameChain;
    var _ := NotRootHasOuter(w, s, a);
    LeaveKeepsFrames(w.n, s, a);
    LeaveKeepsEdges(w, s, a);
    LeaveKeepsActive(s, a);
    LeaveKeepsLimits(s, a);
    HandUpKeepsLow(w, s, a);
    HandUpKeepsBounds(w, s, a);
    HandUpKeepsBack(w, s, a);
  }

  // ---- the node is the root of a component

  /** `t` is `s` with the stack popped down to and including `v`, all popped nodes in component `c`. */
  ghost predicate PoppedTo(s: State, v: nat, p: nat, t: State) {
    && p < |s.stack| && s.stack[p] == v && v < |s.index|
    && |s.index| == |s.onStack| == |t.onStack| == |s.component| == |t.component|
    && t == s.(stack := s.stack[..p], onStack := t.onStack, component := t.component,
        sizes := s.sizes + [|s.stack| - p])
    && (forall x: nat :: Open(t.onStack, x) <==> Open(s.onStack, x) && s.index[x] < s.index[v])
    && (forall x: nat :: x < |s.component| ==>
        t.component[x] == if Open(s.onStack, x) && s.index[v] <= s.index[x] then |s.sizes| else s.component[x])
  }

  lemma PopKeepsOpen(s: State, v: nat, p: nat, t: State)
    requires PoppedTo(s, v, p, t) && |s.sizes| != UNSET && Open(s.onStack, v)
    requires OpenOrClosed(s.index, s.onStack, s.component) && StackInOrder(s.index, s.onStack, s.stack)
    ensures OpenOrClosed(t.index, t.onStack, t.component) && StackInOrder(t.index, t.onStack, t.stack)
  {
    forall x: nat ensures Open(t.onStack, x) <==> Visited(s.index, x) && !Closed(t.component, x) {
      assert Open(s.onStack, x) <==> Visited(s.index, x) && !Closed(s.component, x);
    }
    forall i | 0 <= i < |t.stack| ensures Open(t.onStack, t.stack[i]) {
      assert Open(s.onStack, s.stack[i]) && s.index[s.stack[i]] < s.index[s.stack[p]];
    }
    forall x: nat | Open(t.onStack, x) ensures x in t.stack {
      assert Open(s.onStack, x) && x in s.stack;
      var i :| 0 <= i < |s.stack| && s.stack[i] == x;
      assert i < p;
      assert t.stack[i] == x;
    }
  }

  lemma PopKeepsActive(s: State, v: nat, p: nat, t: State, node: seq<nat>)
    requires PoppedTo(s, v, p, t) && ActiveNodes(s.index, s.onStack, s.before, node)
    requires forall k :: 0 <= k < |node| ==> node[k] < |s.index| && s.index[node[k]] < s.index[v]
    ensures ActiveNodes(t.index, t.onStack, t.before, node)
  {}

  lemma PopKeepsReach(w: World, s: State, a: Active, p: nat, t: State)
    requires DoneTop(s, a) && PoppedTo(s, Top(s).v, p, t)
    requires ForwardReach(w, s.index, s.onStack) && BackReach(w, s.index, s.onStack, a.node)
    ensures ForwardReach(w, s.index, t.onStack)
    ensures BackReach(w, s.index, t.onStack, Leave(a, s.counter).node)
  {
    hide BackReach;
    var node' := Leave(a, s.counter).node;
    forall y: nat | Open(t.onStack, y) ensures BackToActive(w, s.index, node', y) {
      var k := ActiveBehind(w, s.index, s.onStack, a.node, y);
      assert node'[k] == a.node[k];
    }
    UseBack(w, s.index, t.onStack, node');
  }

  /** A root hands nothing up: its low link is its own number. */
  lemma RootHandsNothingUp(w: World, s: State, a: Active, k: nat)
    requires DoneTop(s, a) && s.lowLink[Top(s).v] == s.index[Top(s).v] && k < |a.node| - 1
    requires ActiveNodes(s.index, s.onStack, s.before, a.node) && LowNumbers(w, s.index, s.lowLink, s.onStack, a.node)
    ensures a.node[k] < |s.index| && s.index[a.node[k]] < s.index[Top(s).v]
    ensures Finish(s).lowLink[a.node[k]] == s.lowLink[a.node[k]] <= s.index[a.node[k]]
  {
    var m := |a.node| - 1;
    assert s.index[a.node[k]] < s.index[a.node[m]];
  }

  lemma PopKeepsLow(w: World, s: State, a: Active, p: nat, t: State)
    requires DoneTop(s, a) && PoppedTo(s, Top(s).v, p, t) && s.lowLink[Top(s).v] == s.index[Top(s).v]
    requires ActiveNodes(s.index, s.onStack, s.before, a.node)
    requires LowNumbers(w, s.index, s.lowLink, s.onStack, a.node)
    ensures LowNumbers(w, s.index, Finish(s).lowLink, t.onStack, Leave(a, s.counter).node)
  {
    var node', m := Leave(a, s.counter).node, |a.node| - 1;
    forall k | 0 <= k < |node'|
      ensures node'[k] < |s.index| && Finish(s).lowLink[node'[k]] == s.lowLink[node'[k]]
      ensures LowReached(w, s.index, t.onStack, node'[k], s.lowLink[node'[k]])
    {
      assert node'[k] == a.node[k];
      RootHandsNothingUp(w, s, a, k);
      assert LowReached(w, s.index, s.onStack, a.node[k], s.lowLink[a.node[k]]);
      var y: nat :| Open(s.onStack, y) && y < |s.index| && s.index[y] == s.lowLink[a.node[k]]
          && (a.node[k], y) in w.reach;
      assert Open(t.onStack, y);
    }
  }

  lemma PopKeepsBounds(w: World, s: State, a: Active, p: nat, t: State)
    requires DoneTop(s, a) && PoppedTo(s, Top(s).v, p, t) && s.lowLink[Top(s).v] == s.index[Top(s).v]
    requires ActiveNodes(s.index, s.onStack, s.before, a.node) && Limits(s.index, s.counter, a.node, a.limit)
    requires LowNumbers(w, s.index, s.lowLink, s.onStack, a.node)
    requires LowBounds(w, s.index, s.lowLink, s.onStack, a.node, a.limit)
    ensures LowBounds(w, s.index, Finish(s).lowLink, t.onStack, Leave(a, s.counter).node, Leave(a, s.counter).limit)
  {
    hide Limits, LowNumbers, ActiveNodes;
    var v, a' := Top(s).v, Leave(a, s.counter);
    forall k | 0 <= k < |a'.node|
      ensures a'.node[k] < |s.index| && Finish(s).lowLink[a'.node[k]] == s.lowLink[a'.node[k]]
    {
      assert a'.node[k] == a.node[k];
      RootHandsNothingUp(w, s, a, k);
    }
    forall k, x: nat, y: nat |
      0 <= k < |a'.node| && Open(t.onStack, x) && s.index[a'.node[k]] <= s.index[x] < a'.limit[k] && (x, y) in w.edge
          && Open(t.onStack, y)
      ensures Finish(s).lowLink[a'.node[k]] <= s.index[y]
    {
      assert a'.node[k] == a.node[k];
      UseLimits(s, a, k + 1);
      assert s.index[x] < a.limit[k];
    }
  }

  /** The popped nodes have exactly the recorded size, and the component number stays below UNSET. */
  lemma PopKeepsSizes(s: State, v: nat, p: nat, t: State)
    requires PoppedTo(s, v, p, t) && Open(s.onStack, v) && |s.index| <= UNSET
    requires OpenOrClosed(s.index, s.onStack, s.component) && StackInOrder(s.index, s.onStack, s.stack)
    requires Sizes(s.component, s.sizes) && forall x: nat :: Closed(s.component, x) ==> s.component[x] < |s.sizes|
    ensures |s.sizes| < UNSET && Sizes(t.component, t.sizes)
  {
    var c, popped := |s.sizes|, set i | p <= i < |s.stack| :: s.stack[i];
    RoomForOne(s.component, v);
    PoppedAre(s, v, p, t);
    hide PoppedTo, OpenOrClosed, StackInOrder;
    DistinctCount(s.stack, p);
    SizesAfter(s.component, s.sizes, popped, t.component);
    assert t.sizes == s.sizes + [|popped|];
  }

  lemma SizesAfter(component: seq<nat>, sizes: seq<nat>, popped: set<nat>, component': seq<nat>)
    requires Sizes(component, sizes) && |component'| == |component| && popped != {} && |sizes| < UNSET
    requires forall x: nat :: Closed(component, x) ==> component[x] < |sizes|
    requires forall x: nat :: x in popped ==> x < |component| && component[x] == UNSET
    requires forall x: nat :: x < |component| ==> component'[x] == if x in popped then |sizes| else component[x]
    ensures Sizes(component', sizes + [|popped|])
  {
    var sizes' := sizes + [|popped|];
    assert Assigned(component') == Assigned(component) + popped;
    assert Members(component', |sizes|) == popped by {
      forall x: nat | x < |component| && x !in popped ensures component'[x] != |sizes| {
        assert component[x] != UNSET ==> Closed(component, x);
      }
    }
    forall d | 0 <= d < |sizes| ensures Members(component', d) == Members(component, d) {}
    assert sizes'[..|sizes|] == sizes;
  }

  lemma RoomForOne(component: seq<nat>, v: nat)
    requires v < |component| && component[v] == UNSET
    ensures |Assigned(component)| < |component|
  {
    SubsetOfRange(Assigned(component) + {v}, |component|);
  }

  lemma DistinctCount(stack: seq<nat>, p: nat)
    requires p <= |stack| && forall i, j :: p <= i < j < |stack| ==> stack[i] != stack[j]
    ensures |set i | p <= i < |stack| :: stack[i]| == |stack| - p
    decreases |stack| - p
  {
    if p < |stack| {
      DistinctCount(stack, p + 1);
      assert (set i | p <= i < |stack| :: stack[i]) == (set i | p + 1 <= i < |stack| :: stack[i]) + {stack[p]};
    }
  }

  lemma PoppedAre(s: State, v: nat, p: nat, t: State)
    requires PoppedTo(s, v, p, t) && Open(s.onStack, v)
    requires OpenOrClosed(s.index, s.onStack, s.component) && StackInOrder(s.index, s.onStack, s.stack)
    ensures s.component[v] == UNSET && v < |s.component|
    ensures forall i, j :: p <= i < j < |s.stack| ==> s.stack[i] != s.stack[j]
    ensures |t.component| == |s.component|
    ensures t.sizes == s.sizes + [|s.stack| - p]
    ensures var popped := set i | p <= i < |s.stack| :: s.stack[i];
            && (forall x: nat :: x in popped ==> x < |s.component| && s.component[x] == UNSET)
            && (forall x: nat :: x < |s.component| ==>
                t.component[x] == if x in popped then |s.sizes| else s.component[x])
  {
    var popped := set i | p <= i < |s.stack| :: s.stack[i];
    forall x: nat ensures x in popped <==> Open(s.onStack, x) && s.index[v] <= s.index[x] {
      if x in popped {
        var i :| p <= i < |s.stack| && s.stack[i] == x;
        assert Open(s.onStack, s.stack[i]);
      }
      if Open(s.onStack, x) && s.index[v] <= s.index[x] {
        var i :| 0 <= i < |s.stack| && s.stack[i] == x;
        assert i >= p;
      }
    }
  }

  /** Edges out of a popped node stay in its component or lead to an older one. */
  lemma PopKeepsComponents(w: World, s: State, a: Active, p: nat, t: State)
    requires DoneTop(s, a) && PoppedTo(s, Top(s).v, p, t) && s.lowLink[Top(s).v] == s.index[Top(s).v]
    requires Laws(w) && OpenOrClosed(s.index, s.onStack, s.component) && |s.sizes| < UNSET
    requires forall x: nat, y: nat :: Open(s.onStack, x) && s.index[Top(s).v] <= s.index[x] && (x, y) in w.edge
               ==> Visited(s.index, y) && (Open(s.onStack, y) ==> s.index[Top(s).v] <= s.index[y])
    requires forall x: nat, y: nat ::
            Open(s.onStack, x) && Open(s.onStack, y) && s.index[Top(s).v] <= s.index[x]
            && s.index[Top(s).v] <= s.index[y] ==>
            (x, y) in w.reach
    requires Components(w, s.component, |s.sizes|)
    ensures Components(w, t.component, |t.sizes|)
  {
    hide Laws;
    var c, v := |s.sizes|, Top(s).v;
    forall x: nat
      ensures Closed(t.component, x) <==>
        Closed(s.component, x) || (Open(s.onStack, x) && s.index[v] <= s.index[x])
    {
      assert Open(s.onStack, x) ==> !Closed(s.component, x);
    }
    forall x: nat, y: nat | Closed(t.component, x) && (x, y) in w.edge
      ensures Closed(t.component, y) && t.component[y] <= t.component[x]
    {
      if Closed(s.component, x) {
        assert Closed(s.component, y) && !Open(s.onStack, y) && !Open(s.onStack, x);
      } else {
        assert Visited(s.index, y);
        assert Open(s.onStack, y) || Closed(s.component, y);
      }
    }
  }

  /** Edges out of the nodes numbered from the root on. */
  lemma PoppedEdges(w: World, s: State, a: Active, x: nat, y: nat)
    requires DoneTop(s, a) && s.lowLink[Top(s).v] == s.index[Top(s).v]
    requires Numbered(s.index, s.counter) && OpenOrClosed(s.index, s.onStack, s.component)
    requires ActiveNodes(s.index, s.onStack, s.before, a.node) && Limits(s.index, s.counter, a.node, a.limit)
    requires EdgesSeen(w.edge, s.index, s.before, a.node, a.pending)
    requires LowBounds(w, s.index, s.lowLink, s.onStack, a.node, a.limit)
    requires Open(s.onStack, x) && s.index[Top(s).v] <= s.index[x] && (x, y) in w.edge
    ensures Visited(s.index, y) && (Open(s.onStack, y) ==> s.index[Top(s).v] <= s.index[y])
  {
    var m := |a.node| - 1;
    assert Visited(s.index, x);
    if !s.before[x] {
      var k :| 0 <= k < |a.node| && a.node[k] == x;
      assert k == m;
      assert !Asked(a.pending[m], y);
    }
    assert a.limit[m] == s.counter && s.index[x] < s.counter;
  }

  lemma PoppedMutual(w: World, s: State, a: Active, x: nat, y: nat)
    requires DoneTop(s, a) && Laws(w) && Open(s.onStack, Top(s).v)
    requires ActiveNodes(s.index, s.onStack, s.before, a.node)
    requires ForwardReach(w, s.index, s.onStack) && BackReach(w, s.index, s.onStack, a.node)
    requires Open(s.onStack, x) && Open(s.onStack, y) && s.index[Top(s).v] <= s.index[y]
    ensures (x, y) in w.reach
  {
    hide BackReach, Laws, ActiveNodes;
    OpenReachesInnermost(w, s.index, s.onStack, s.before, a.node, x);
    Chain(w, x, Top(s).v, y);
  }

  /** Closing a component keeps the invariants. */
  lemma CloseKeepsInv(w: World, s: State, a: Active, p: nat, t: State)
    requires DoneTop(s, a) && PoppedTo(s, Top(s).v, p, t) && s.lowLink[Top(s).v] == s.index[Top(s).v]
    requires Inv(w, s, a)
    ensures |t.sizes| <= UNSET
    ensures Inv(w, Finish(s).(stack := t.stack, onStack := t.onStack, component := t.component, sizes := t.sizes),
            Leave(a, s.counter))
  {
    hide Numbered, OpenOrClosed, StackInOrder, EdgesSeen, LowNumbers, LowBounds, ForwardReach, BackReach, Sizes, Limits;
    hide PendingFrames, Parents, FrameChain;
    var v, m := Top(s).v, |a.node| - 1;
    assert w.n <= UNSET && a.node[m] == v && Open(s.onStack, v);
    hide Laws;
    PopKeepsSizes(s, v, p, t);
    hide ActiveNodes, Components;
    forall x: nat, y: nat | Open(s.onStack, x) && s.index[v] <= s.index[x] && (x, y) in w.edge
      ensures Visited(s.index, y) && (Open(s.onStack, y) ==> s.index[v] <= s.index[y])
    {
      PoppedEdges(w, s, a, x, y);
    }
    forall x: nat, y: nat | Open(s.onStack, x) && Open(s.onStack, y) && s.index[v] <= s.index[x]
        && s.index[v] <= s.index[y]
      ensures (x, y) in w.reach
    {
      PoppedMutual(w, s, a, x, y);
    }
    PopKeepsComponents(w, s, a, p, t);
    PopKeepsRest(w, s, a, p, t);
  }

  lemma PopKeepsRest(w: World, s: State, a: Active, p: nat, t: State)
    requires DoneTop(s, a) && PoppedTo(s, Top(s).v, p, t) && s.lowLink[Top(s).v] == s.index[Top(s).v]
    requires |s.sizes| < UNSET && Sizes(t.component, t.sizes) && Components(w, t.component, |t.sizes|)
    requires Open(s.onStack, Top(s).v)
    requires Inv(w, s, a)
    ensures Inv(w, Finish(s).(stack := t.stack, onStack := t.onStack, component := t.component, sizes := t.sizes),
            Leave(a, s.counter))
  {
    hide Laws, Numbered, OpenOrClosed, StackInOrder, EdgesSeen, LowNumbers, LowBounds, ForwardReach, BackReach;
    hide Components, Sizes, Limits;
    hide ActiveNodes, PendingFrames, Parents, FrameChain;
    LeaveKeepsFrames(w.n, s, a);
    LeaveKeepsEdges(w, s, a);
    LeaveKeepsActive(s, a);
    LeaveKeepsLimits(s, a);
    PopKeepsOpen(s, Top(s).v, p, t);
    PopKeepsReach(w, s, a, p, t);
    PopKeepsLow(w, s, a, p, t);
    PopKeepsBounds(w, s, a, p, t);
    var a' := Leave(a, s.counter);
    forall k | 0 <= k < |a'.node| ensures a'.node[k] < |s.index| && s.index[a'.node[k]] < s.index[Top(s).v] {
      assert a'.node[k] == a.node[k];
      RootHandsNothingUp(w, s, a, k);
    }
    var s1 := Finish(s).(stack := t.stack, onStack := t.onStack, component := t.component, sizes := t.sizes);
    assert ActiveNodes(s.index, t.onStack, s1.before, a'.node) by {
      PopKeepsActive(s.(before := s1.before), Top(s).v, p, t.(before := s1.before), a'.node);
    }
  }
}
