/** Each step of the iterative Tarjan search keeps the invariants. */
module TarjanSteps {
  import opened FiniteSets
  import opened TarjanState

  function Top(s: State): Frame
    requires |s.recursion| > 0
  {
    s.recursion[|s.recursion| - 1]
  }

  /** The flag vector tells an active top frame from a pending one, even when stale frames remain below. */
  lemma TopIsActiveOrPending(w: World, s: State, a: Active)
    requires s.recursion != [] && |s.before| == w.n && FrameChain(w.n, s.recursion, a)
    requires ActiveNodes(s.index, s.onStack, s.before, a.node) && Parents(a.node, a.parent)
    requires PendingFrames(w.edge, s.index, a.node, a.pending)
    ensures Top(s).v < w.n && Top(s).parent < w.n
    ensures !s.before[Top(s).v] ==>
              && |a.node| > 0 && a.pending[|a.node| - 1] == []
              && Top(s) == Frame(a.node[|a.node| - 1], a.parent[|a.node| - 1])
    ensures s.before[Top(s).v] ==>
              if |a.node| == 0 then |s.recursion| == 1 && Top(s).parent == Top(s).v
              else a.pending[|a.node| - 1] != [] && Top(s) == a.pending[|a.node| - 1][|a.pending[|a.node| - 1]| - 1]
  {
    var f := Top(s);
    if |a.node| > 0 {
      var m := |a.node| - 1;
      var last := a.pending[m];
      if last != [] {
        assert f == last[|last| - 1];
        assert f in a.pending[m] && PendingFrame(w.edge, s.index, a.node[m], f);
      } else {
        assert f == Frame(a.node[m], a.parent[m]);
      }
    }
  }

  // ---- a frame whose node already has a number is dropped

  function DropTop(s: State): State
    requires |s.recursion| > 0
  {
    s.(recursion := s.recursion[..|s.recursion| - 1])
  }

  ghost function DropPending(a: Active): Active
    requires ActiveShape(a) && (|a.node| > 0 ==> a.pending[|a.node| - 1] != [])
  {
    if |a.node| == 0 then a else
    var m := |a.node| - 1;
    a.(pending := a.pending[m := a.pending[m][..|a.pending[m]| - 1]])
  }

  lemma FramesAfterDrop(a: Active)
    requires ActiveShape(a) && |a.node| > 0 && a.pending[|a.node| - 1] != []
    ensures var frames := Frames(a.node, a.parent, a.pending);
            |frames| > 0 && Frames(a.node, a.parent, DropPending(a).pending) == frames[..|frames| - 1]
  {
    assert DropPending(a).pending[..|a.node| - 1] == a.pending[..|a.node| - 1];
  }

  lemma DropStaleEdges(w: World, s: State, a: Active)
    requires ActiveShape(a) && (|a.node| > 0 ==> a.pending[|a.node| - 1] != [])
    requires EdgesSeen(w.edge, s.index, s.before, a.node, a.pending)
    requires |a.node| > 0 ==> Visited(s.index, a.pending[|a.node| - 1][|a.pending[|a.node| - 1]| - 1].v)
    ensures EdgesSeen(w.edge, s.index, s.before, a.node, DropPending(a).pending)
  {
    var a' := DropPending(a);
    forall k, y: nat | 0 <= k < |a.node| && (a.node[k], y) in w.edge && !Visited(s.index, y)
      ensures Asked(a'.pending[k], y)
    {
      assert Asked(a.pending[k], y);
      var f :| f in a.pending[k] && f.v == y;
      assert f in a'.pending[k];
    }
  }

  lemma DropStale(w: World, s: State, a: Active)
    requires |s.recursion| > 0 && Top(s).v < |s.before| && s.before[Top(s).v] && Visited(s.index, Top(s).v)
    requires Inv(w, s, a)
    ensures ActiveShape(a) && (|a.node| > 0 ==> a.pending[|a.node| - 1] != [])
    ensures Inv(w, DropTop(s), DropPending(a))
  {
    hide Laws, Numbered, OpenOrClosed, StackInOrder, LowNumbers, LowBounds, ForwardReach, BackReach, Components, Sizes;
    hide Limits;
    TopIsActiveOrPending(w, s, a);
    DropStaleEdges(w, s, a);
    if |a.node| > 0 { FramesAfterDrop(a); }
  }

  // ---- the outer loop pushes a root frame

  lemma PushRoot(w: World, s: State, a: Active, node: nat)
    requires Inv(w, s, a) && a.node == [] && s.recursion == []
    requires node < w.n && s.component[node] == UNSET
    ensures !Visited(s.index, node)
    ensures Inv(w, s.(recursion := [Frame(node, node)]), a)
  {
    assert Open(s.onStack, node) ==> BackToActive(w, s.index, a.node, node);
  }

  // ---- a new node is numbered, and its edges are scanned

  /** What the edge scan has done after the first `e` targets of `v`. */
  ghost predicate Scanned(index: seq<nat>, onStack: seq<bool>, targets: seq<nat>, v: nat, e: nat, pushed: seq<Frame>,
        low: nat) {
    && e <= |targets| && |index| == |onStack| && v < |index| && low <= index[v]
    && (forall j :: 0 <= j < e ==> targets[j] < |index|)
    && (forall f :: f in pushed ==> f.parent == v && f.v in targets[..e] && !Visited(index, f.v))
    && (forall j :: 0 <= j < e && !Visited(index, targets[j]) ==> Asked(pushed, targets[j]))
    && (forall j :: 0 <= j < e && Open(onStack, targets[j]) ==> low <= index[targets[j]])
    && (low == index[v] || exists j :: 0 <= j < e && Open(onStack, targets[j]) && index[targets[j]] == low)
  }

  function NumberNode(s: State, v: nat): State
    requires v < |s.index| == |s.lowLink| == |s.onStack| == |s.before|
  {
    s.(before := s.before[v := false],
       index := s.index[v := s.counter],
       lowLink := s.lowLink[v := s.counter],
       stack := s.stack + [v],
       onStack := s.onStack[v := true],
       counter := s.counter + 1)
  }

  ghost function Enter(a: Active, f: Frame, pushed: seq<Frame>, counter: nat): Active
    requires ActiveShape(a) && (|a.node| > 0 ==> a.pending[|a.node| - 1] != [])
  {
    Active(a.node + [f.v], a.parent + [f.parent], DropPending(a).pending + [pushed], a.limit + [counter + 1])
  }

  lemma CounterStaysBelow(index: seq<nat>, v: nat, c: nat)
    requires v < |index| && index[v] == UNSET && c != UNSET
    ensures |VisitedSet(index)| < |index|
    ensures |VisitedSet(index[v := c])| == |VisitedSet(index)| + 1
  {
    SubsetOfRange(VisitedSet(index) + {v}, |index|);
    assert VisitedSet(index[v := c]) == VisitedSet(index) + {v};
  }

  lemma NumberKeepsNumbers(index: seq<nat>, c: nat, v: nat)
    requires v < |index| && index[v] == UNSET && Numbered(index, c)
    ensures Numbered(index[v := c], c + 1)
  {
    assert forall x: nat :: Visited(index[v := c], x) ==> x == v || Visited(index, x);
  }

  lemma NumberKeepsOpen(index: seq<nat>, onStack: seq<bool>, component: seq<nat>, c: nat, v: nat)
    requires v < |index| && index[v] == UNSET != c && OpenOrClosed(index, onStack, component)
    ensures OpenOrClosed(index[v := c], onStack[v := true], component)
  {
    forall x: nat
      ensures Open(onStack[v := true], x) <==> Visited(index[v := c], x) && !Closed(component, x)
      ensures Closed(component, x) ==> Visited(index[v := c], x)
    {
      assert Open(onStack, x) <==> Visited(index, x) && !Closed(component, x);
      assert Closed(component, x) ==> Visited(index, x);
    }
  }

  lemma NumberKeepsStack(index: seq<nat>, onStack: seq<bool>, component: seq<nat>, stack: seq<nat>, c: nat, v: nat)
    requires v < |index| && index[v] == UNSET && Numbered(index, c)
    requires OpenOrClosed(index, onStack, component) && StackInOrder(index, onStack, stack)
    ensures StackInOrder(index[v := c], onStack[v := true], stack + [v])
  {
    var index', onStack', stack' := index[v := c], onStack[v := true], stack + [v];
    forall i | 0 <= i < |stack'| ensures Open(onStack', stack'[i]) {
      assert i < |stack| ==> Open(onStack, stack[i]);
    }
    forall i, j | 0 <= i < j < |stack'| ensures index'[stack'[i]] < index'[stack'[j]] {
      assert Open(onStack, stack[i]) && Visited(index, stack[i]);
      assert j < |stack| ==> Open(onStack, stack[j]) && Visited(index, stack[j]);
    }
    forall x: nat | Open(onStack', x) ensures x in stack' {
      if x != v { assert Open(onStack, x); }
    }
  }

  lemma NumberKeepsActive(index: seq<nat>, onStack: seq<bool>, before: seq<bool>, node: seq<nat>, c: nat, v: nat)
    requires v < |index| && index[v] == UNSET != c && Numbered(index, c)
    requires ActiveNodes(index, onStack, before, node)
    ensures ActiveNodes(index[v := c], onStack[v := true], before[v := false], node + [v])
  {
    var index', onStack', before', node' := index[v := c], onStack[v := true], before[v := false], node + [v];
    forall k | 0 <= k < |node'| ensures Open(onStack', node'[k]) && Visited(index', node'[k]) && !before'[node'[k]] {
      assert k < |node| ==> Open(onStack, node[k]) && Visited(index, node[k]);
    }
    forall x: nat | x < |before'| && !before'[x] ensures x in node' {
      if x != v { assert x in node; }
    }
    forall j, k | 0 <= j < k < |node'| ensures index'[node'[j]] < index'[node'[k]] {
      assert Visited(index, node[j]);
      assert k < |node| ==> Visited(index, node[k]);
    }
  }

  /** What holds of the frame `f` on top of the recursion stack when its node is new. */
  ghost predicate FreshTop(n: nat, recursion: seq<Frame>, a: Active, f: Frame) {
    && ActiveShape(a) && f.v < n
    && (|a.node| == 0 ==> f.parent == f.v && recursion == [f])
    && (|a.node| > 0 ==>
          && recursion == Frames(a.node, a.parent, a.pending)
          && a.pending[|a.node| - 1] != [] && f == a.pending[|a.node| - 1][|a.pending[|a.node| - 1]| - 1]
          && f.parent == a.node[|a.node| - 1])
  }

  lemma EnterKeepsFrames(n: nat, recursion: seq<Frame>, a: Active, f: Frame, pushed: seq<Frame>, c: nat)
    requires FreshTop(n, recursion, a, f) && Parents(a.node, a.parent)
    ensures FrameChain(n, recursion + pushed, Enter(a, f, pushed, c))
    ensures Parents(Enter(a, f, pushed, c).node, Enter(a, f, pushed, c).parent)
  {
    var a' := Enter(a, f, pushed, c);
    var m := |a.node|;
    assert a'.node[..m] == a.node && a'.parent[..m] == a.parent && a'.pending[..m] == DropPending(a).pending;
    if m > 0 {
      FramesAfterDrop(a);
      assert recursion == recursion[..|recursion| - 1] + [f];
    }
    assert recursion + pushed == Frames(a.node, a.parent, DropPending(a).pending) + [f] + pushed;
  }

  lemma EnterKeepsPending(w: World, s: State, a: Active, f: Frame, pushed: seq<Frame>, low: nat, targets: seq<nat>)
    requires Shape(w, s) && FreshTop(w.n, s.recursion, a, f) && s.index[f.v] == UNSET != s.counter
    requires Numbered(s.index, s.counter) && ActiveNodes(s.index, s.onStack, s.before, a.node)
    requires forall y: nat :: (f.v, y) in w.edge <==> y in targets
    requires Scanned(NumberNode(s, f.v).index, NumberNode(s, f.v).onStack, targets, f.v, |targets|, pushed, low)
    requires PendingFrames(w.edge, s.index, a.node, a.pending)
    ensures PendingFrames(w.edge, NumberNode(s, f.v).index, a.node + [f.v], DropPending(a).pending + [pushed])
  {
    var index', node', pending' := NumberNode(s, f.v).index, a.node + [f.v], DropPending(a).pending + [pushed];
    forall k, h | 0 <= k < |node'| && h in pending'[k] ensures PendingFrame(w.edge, index', node'[k], h) {
      if k < |a.node| {
        assert h in a.pending[k] && PendingFrame(w.edge, s.index, a.node[k], h);
        assert Visited(s.index, a.node[k]);
      } else {
        assert h.v in targets[..|targets|];
      }
    }
  }

  lemma EnterKeepsEdges(w: World, s: State, a: Active, f: Frame, pushed: seq<Frame>, low: nat, targets: seq<nat>)
    requires Shape(w, s) && FreshTop(w.n, s.recursion, a, f) && s.index[f.v] == UNSET != s.counter
    requires forall y: nat :: (f.v, y) in w.edge <==> y in targets
    requires Scanned(NumberNode(s, f.v).index, NumberNode(s, f.v).onStack, targets, f.v, |targets|, pushed, low)
    requires EdgesSeen(w.edge, s.index, s.before, a.node, a.pending)
    ensures EdgesSeen(w.edge, NumberNode(s, f.v).index, NumberNode(s, f.v).before, a.node + [f.v],
            DropPending(a).pending + [pushed])
  {
    var s', node', pending' := NumberNode(s, f.v), a.node + [f.v], DropPending(a).pending + [pushed];
    forall x: nat, y: nat | Visited(s'.index, x) && s'.before[x] && (x, y) in w.edge ensures Visited(s'.index, y) {
      assert x != f.v && Visited(s.index, x) && Visited(s.index, y);
    }
    forall k, y: nat | 0 <= k < |node'| && (node'[k], y) in w.edge && !Visited(s'.index, y)
      ensures Asked(pending'[k], y)
    {
      if k < |a.node| {
        assert !Visited(s.index, y) && Asked(a.pending[k], y);
        var h :| h in a.pending[k] && h.v == y;
        assert h in pending'[k];
      } else {
        var j :| 0 <= j < |targets| && targets[j] == y;
        assert Asked(pushed, targets[j]);
      }
    }
  }

  lemma LimitsBelowCounter(index: seq<nat>, onStack: seq<bool>, before: seq<bool>, counter: nat, node: seq<nat>,
        limit: seq<nat>, k: nat)
    requires Numbered(index, counter) && ActiveNodes(index, onStack, before, node)
    requires Limits(index, counter, node, limit) && k < |node|
    ensures limit[k] <= counter
    ensures k + 1 < |node| ==> limit[k] == index[node[k + 1]]
  {
    if k + 1 < |node| { assert Visited(index, node[k + 1]); }
  }

  lemma EnterKeepsLow(w: World, s: State, a: Active, f: Frame, pushed: seq<Frame>, low: nat, targets: seq<nat>)
    requires Laws(w) && Shape(w, s) && f.v < w.n && s.index[f.v] == UNSET
    requires OpenOrClosed(s.index, s.onStack, s.component)
    requires forall y: nat :: (f.v, y) in w.edge <==> y in targets
    requires Scanned(NumberNode(s, f.v).index, NumberNode(s, f.v).onStack, targets, f.v, |targets|, pushed, low)
    requires LowNumbers(w, s.index, s.lowLink, s.onStack, a.node) && f.v !in a.node
    ensures LowNumbers(w, NumberNode(s, f.v).index, s.lowLink[f.v := low], NumberNode(s, f.v).onStack, a.node + [f.v])
  {
    var s', node', lowLink' := NumberNode(s, f.v), a.node + [f.v], s.lowLink[f.v := low];
    forall k | 0 <= k < |node'|
      ensures lowLink'[node'[k]] <= s'.index[node'[k]]
      ensures LowReached(w, s'.index, s'.onStack, node'[k], lowLink'[node'[k]])
    {
      if k < |a.node| {
        assert LowReached(w, s.index, s.onStack, a.node[k], s.lowLink[a.node[k]]);
        var y: nat :| Open(s.onStack, y) && y < |s.index| && s.index[y] == s.lowLink[a.node[k]]
            && (a.node[k], y) in w.reach;
        assert Open(s'.onStack, y) && y != f.v;
      } else if low == s'.index[f.v] {
        assert Open(s'.onStack, f.v);
      } else {
        var j :| 0 <= j < |targets| && Open(s'.onStack, targets[j]) && s'.index[targets[j]] == low;
        assert (f.v, targets[j]) in w.edge;
      }
    }
  }

  lemma EnterKeepsBounds(w: World, s: State, a: Active, f: Frame, pushed: seq<Frame>, low: nat, targets: seq<nat>)
    requires Shape(w, s) && f.v < w.n && s.index[f.v] == UNSET && ActiveShape(a)
    requires Numbered(s.index, s.counter) && OpenOrClosed(s.index, s.onStack, s.component)
    requires ActiveNodes(s.index, s.onStack, s.before, a.node) && Limits(s.index, s.counter, a.node, a.limit)
    requires forall y: nat :: (f.v, y) in w.edge <==> y in targets
    requires Scanned(NumberNode(s, f.v).index, NumberNode(s, f.v).onStack, targets, f.v, |targets|, pushed, low)
    requires LowNumbers(w, s.index, s.lowLink, s.onStack, a.node)
    requires LowBounds(w, s.index, s.lowLink, s.onStack, a.node, a.limit)
    ensures LowBounds(w, NumberNode(s, f.v).index, s.lowLink[f.v := low], NumberNode(s, f.v).onStack, a.node + [f.v],
            a.limit + [s.counter + 1])
    ensures Limits(NumberNode(s, f.v).index, s.counter + 1, a.node + [f.v], a.limit + [s.counter + 1])
  {
    hide Limits, LowNumbers, Scanned;
    var s', node', lowLink', limit' := NumberNode(s, f.v), a.node + [f.v], s.lowLink[f.v := low],
        a.limit + [s.counter + 1];
    assert Limits(s'.index, s.counter + 1, node', limit') by { EnterKeepsLimits(s, a, f.v); }
    forall k | 0 <= k < |node'| ensures node'[k] < |s'.index| {
      assert k < |a.node| ==> Visited(s.index, a.node[k]);
    }
    forall k, x: nat, y: nat |
      0 <= k < |node'| && Open(s'.onStack, x) && s'.index[node'[k]] <= s'.index[x] < limit'[k] && (x, y) in w.edge
          && Open(s'.onStack, y)
      ensures lowLink'[node'[k]] <= s'.index[y]
    {
      if k < |a.node| {
        assert Visited(s.index, a.node[k]);
        LimitsBelowCounter(s.index, s.onStack, s.before, s.counter, a.node, a.limit, k);
        assert x != f.v && Open(s.onStack, x);
        assert s.lowLink[a.node[k]] <= s.index[a.node[k]] by { UseLowNumbers(w, s, a, k); }
        assert y != f.v ==> Open(s.onStack, y);
      } else {
        assert x == f.v || Open(s.onStack, x);
        UseScanned(s'.index, s'.onStack, targets, f.v, pushed, low, y);
      }
    }
  }

  lemma EnterKeepsLimits(s: State, a: Active, v: nat)
    requires v < |s.index| == |s.lowLink| == |s.onStack| == |s.before| && s.index[v] == UNSET && ActiveShape(a)
    requires ActiveNodes(s.index, s.onStack, s.before, a.node) && Limits(s.index, s.counter, a.node, a.limit)
    ensures Limits(NumberNode(s, v).index, s.counter + 1, a.node + [v], a.limit + [s.counter + 1])
  {
    var index', node', limit' := NumberNode(s, v).index, a.node + [v], a.limit + [s.counter + 1];
    forall k | 0 < k < |node'| ensures node'[k] < |index'| && limit'[k - 1] == index'[node'[k]] {
      if k < |a.node| { assert Visited(s.index, a.node[k]); }
    }
  }

  lemma UseLowNumbers(w: World, s: State, a: Active, k: nat)
    requires LowNumbers(w, s.index, s.lowLink, s.onStack, a.node) && k < |a.node|
    ensures a.node[k] < |s.index| && s.lowLink[a.node[k]] <= s.index[a.node[k]]
  {}

  lemma UseScanned(index: seq<nat>, onStack: seq<bool>, targets: seq<nat>, v: nat, pushed: seq<Frame>, low: nat, y: nat)
    requires Scanned(index, onStack, targets, v, |targets|, pushed, low) && y in targets && Open(onStack, y)
    ensures low <= index[y]
  {
    var j :| 0 <= j < |targets| && targets[j] == y;
    assert Open(onStack, targets[j]);
  }

  lemma Chain(w: World, u: nat, v: nat, x: nat)
    requires Laws(w) && (u, v) in w.reach && (v, x) in w.reach
    ensures (u, x) in w.reach
  {}

  /** The active node an open node reaches back to. */
  lemma ActiveBehind(w: World, index: seq<nat>, onStack: seq<bool>, node: seq<nat>, x: nat) returns (k: nat)
    requires BackReach(w, index, onStack, node) && Open(onStack, x)
    ensures k < |node| && node[k] < |index| && x < |index| && index[node[k]] <= index[x] && (x, node[k]) in w.reach
  {
    assert BackToActive(w, index, node, x);
    k :| 0 <= k < |node| && node[k] < |index| && index[node[k]] <= index[x] && (x, node[k]) in w.reach;
  }

  /** Every open node reaches the innermost active node. */
  lemma OpenReachesInnermost(w: World, index: seq<nat>, onStack: seq<bool>, before: seq<bool>, node: seq<nat>, x: nat)
    requires Laws(w) && ActiveNodes(index, onStack, before, node) && Open(onStack, x)
    requires ForwardReach(w, index, onStack) && BackReach(w, index, onStack, node)
    ensures |node| > 0 && (x, node[|node| - 1]) in w.reach
  {
    hide Laws, BackReach;
    var k := ActiveBehind(w, index, onStack, node, x);
    assert Open(onStack, node[k]) && Open(onStack, node[|node| - 1]);
    Chain(w, x, node[k], node[|node| - 1]);
  }

  lemma EnterKeepsForward(w: World, s: State, a: Active, v: nat)
    requires Laws(w) && Shape(w, s) && v < w.n && s.index[v] == UNSET
    requires Numbered(s.index, s.counter) && OpenOrClosed(s.index, s.onStack, s.component)
    requires ActiveNodes(s.index, s.onStack, s.before, a.node)
    requires |a.node| > 0 ==> (a.node[|a.node| - 1], v) in w.edge
    requires ForwardReach(w, s.index, s.onStack) && BackReach(w, s.index, s.onStack, a.node)
    ensures ForwardReach(w, s.index[v := s.counter], s.onStack[v := true])
  {
    hide BackReach, ActiveNodes, Numbered, OpenOrClosed, ForwardReach;
    var index', onStack', m := s.index[v := s.counter], s.onStack[v := true], |a.node| - 1;
    assert (v, v) in w.reach && (m >= 0 ==> (a.node[m], v) in w.reach);
    hide Laws;
    forall x: nat, y: nat | Open(onStack', x) && Open(onStack', y) && index'[x] <= index'[y] ensures (x, y) in w.reach {
      if x != v {
        assert Open(s.onStack, x);
        OpenReachesInnermost(w, s.index, s.onStack, s.before, a.node, x);
        Chain(w, x, a.node[m], v);
      }
      if y != v {
        assert Open(s.onStack, y);
        EarlierReachesLater(w, s, x, y);
      }
    }
    assert ForwardReach(w, index', onStack') by { UseForward(w, index', onStack'); }
  }

  lemma EarlierReachesLater(w: World, s: State, x: nat, y: nat)
    requires Numbered(s.index, s.counter) && OpenOrClosed(s.index, s.onStack, s.component)
    requires ForwardReach(w, s.index, s.onStack)
    requires Open(s.onStack, y) && x < |s.index|
    ensures Visited(s.index, y) && s.index[y] < s.counter
    ensures Open(s.onStack, x) && s.index[x] <= s.index[y] ==> (x, y) in w.reach
  {}

  lemma UseForward(w: World, index: seq<nat>, onStack: seq<bool>)
    requires |index| == |onStack|
    requires forall x: nat, y: nat :: Open(onStack, x) && Open(onStack, y) && index[x] <= index[y] ==> (x, y) in w.reach
    ensures ForwardReach(w, index, onStack)
  {}

  lemma EnterKeepsBack(w: World, s: State, a: Active, v: nat)
    requires Laws(w) && Shape(w, s) && v < w.n && s.index[v] == UNSET
    requires OpenOrClosed(s.index, s.onStack, s.component)
    requires ActiveNodes(s.index, s.onStack, s.before, a.node)
    requires BackReach(w, s.index, s.onStack, a.node)
    ensures BackReach(w, s.index[v := s.counter], s.onStack[v := true], a.node + [v])
  {
    hide BackReach;
    var index', onStack', node' := s.index[v := s.counter], s.onStack[v := true], a.node + [v];
    assert (v, v) in w.reach;
    hide Laws;
    forall x: nat | Open(onStack', x) ensures BackToActive(w, index', node', x) {
      if x == v {
        assert node'[|a.node|] == v;
      } else {
        assert Open(s.onStack, x) && Visited(s.index, x);
        var k := ActiveBehind(w, s.index, s.onStack, a.node, x);
        assert node'[k] == a.node[k] && Visited(s.index, a.node[k]);
      }
    }
    assert BackReach(w, index', onStack', node') by { UseBack(w, index', onStack', node'); }
  }

  lemma UseBack(w: World, index: seq<nat>, onStack: seq<bool>, node: seq<nat>)
    requires forall y: nat {:trigger BackToActive(w, index, node, y)} :: Open(onStack, y) ==>
            BackToActive(w, index, node, y)
    ensures BackReach(w, index, onStack, node)
  {}

  ghost function Visit(s: State, f: Frame, pushed: seq<Frame>, low: nat): State
    requires f.v < |s.index| == |s.lowLink| == |s.onStack| == |s.before|
  {
    NumberNode(s, f.v).(recursion := s.recursion + pushed, lowLink := s.lowLink[f.v := low])
  }

  lemma NewTopIsFresh(w: World, s: State, a: Active)
    requires |s.recursion| > 0 && Shape(w, s) && Top(s).v < w.n && s.before[Top(s).v] && s.index[Top(s).v] == UNSET
    requires w.n <= UNSET && FrameChain(w.n, s.recursion, a)
    requires ActiveNodes(s.index, s.onStack, s.before, a.node) && Parents(a.node, a.parent)
    requires PendingFrames(w.edge, s.index, a.node, a.pending)
    ensures FreshTop(w.n, s.recursion, a, Top(s)) && Top(s).v !in a.node
    ensures |a.node| > 0 ==> (a.node[|a.node| - 1], Top(s).v) in w.edge
    ensures s.counter < UNSET
  {
    TopIsActiveOrPending(w, s, a);
    assert |a.node| > 0 ==> PendingFrame(w.edge, s.index, a.node[|a.node| - 1], Top(s));
    CounterStaysBelow(s.index, Top(s).v, 0);
  }

  /** Numbering the node of the top frame and scanning its edges keeps the invariants. */
  lemma VisitKeepsInv(w: World, s: State, a: Active, pushed: seq<Frame>, low: nat, targets: seq<nat>)
    requires |s.recursion| > 0 && Shape(w, s) && Top(s).v < w.n && s.before[Top(s).v] && s.index[Top(s).v] == UNSET
    requires forall y: nat :: (Top(s).v, y) in w.edge <==> y in targets
    requires Scanned(NumberNode(s, Top(s).v).index, NumberNode(s, Top(s).v).onStack, targets, Top(s).v, |targets|,
            pushed, low)
    requires Inv(w, s, a)
    ensures |a.node| > 0 ==> a.pending[|a.node| - 1] != []
    ensures Inv(w, Visit(s, Top(s), pushed, low), Enter(a, Top(s), pushed, s.counter))
  {
    hide Numbered, OpenOrClosed, StackInOrder, EdgesSeen, LowNumbers, LowBounds, ForwardReach, BackReach, Components;
    hide Sizes, Limits, Scanned;
    hide ActiveNodes, PendingFrames, Parents, FrameChain;
    var f := Top(s);
    assert w.n <= UNSET;
    hide Laws;
    NewTopIsFresh(w, s, a);
    CounterStaysBelow(s.index, f.v, s.counter);
    NumberKeepsNumbers(s.index, s.counter, f.v);
    NumberKeepsOpen(s.index, s.onStack, s.component, s.counter, f.v);
    NumberKeepsStack(s.index, s.onStack, s.component, s.stack, s.counter, f.v);
    NumberKeepsActive(s.index, s.onStack, s.before, a.node, s.counter, f.v);
    EnterKeepsFrames(w.n, s.recursion, a, f, pushed, s.counter);
    EnterKeepsPending(w, s, a, f, pushed, low, targets);
    EnterKeepsEdges(w, s, a, f, pushed, low, targets);
    EnterKeepsLow(w, s, a, f, pushed, low, targets);
    EnterKeepsBounds(w, s, a, f, pushed, low, targets);
    EnterKeepsForward(w, s, a, f.v);
    EnterKeepsBack(w, s, a, f.v);
  }
}
