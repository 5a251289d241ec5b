/** Strongly connected components by an iterative Tarjan search with an explicit recursion stack. */
module TarjanScc {
  import opened Reachability
  import opened FiniteSets
  import opened Sums
  import opened TarjanState
  import opened TarjanSteps
  import opened TarjanFinish

  ghost function WorldOf(g: Graph): World {
    World(g.NumberOfNodes(), (iset e: (nat, nat) | g.HasEdge(e.0, e.1)), Reach(g))
  }

  lemma WorldObeysLaws(g: Graph)
    requires g.Valid() && g.NumberOfNodes() <= UNSET
    ensures Laws(WorldOf(g))
  {
    ReachObeysLaws(g);
    hide Reach;
  }

  /** What a finished run promises about the component ids and the component sizes. */
  ghost predicate IsSccDecomposition(g: Graph, component: seq<nat>, sizes: seq<nat>) {
    && |component| == g.NumberOfNodes()
    && (forall u: nat, v: nat :: u < |component| && v < |component| ==>
        (component[u] == component[v] <==> StronglyConnected(g, u, v)))
    && (forall u: nat, v: nat :: g.HasEdge(u, v) && v < |component| ==> component[v] <= component[u])
    && (forall v :: 0 <= v < |component| ==> component[v] < |sizes|)
    && (forall c :: 0 <= c < |sizes| ==> sizes[c] == |Members(component, c)| > 0)
    && Sum(sizes) == g.NumberOfNodes()
  }

  lemma MembersOfAll(component: seq<nat>)
    requires forall v :: 0 <= v < |component| ==> component[v] != UNSET
    ensures |Assigned(component)| == |component|
    decreases |component|
  {
    if |component| > 0 {
      var n := |component| - 1;
      MembersOfAll(component[..n]);
      assert Assigned(component) == Assigned(component[..n]) + {n};
    }
  }

  /** When every node is closed, the invariants say that the components are the SCCs. */
  lemma AllClosedIsDecomposition(g: Graph, component: seq<nat>, sizes: seq<nat>)
    requires g.Valid() && |component| == g.NumberOfNodes()
    requires forall v :: 0 <= v < |component| ==> Closed(component, v)
    requires Components(WorldOf(g), component, |sizes|) && Sizes(component, sizes)
    ensures IsSccDecomposition(g, component, sizes)
  {
    assert forall v :: 0 <= v < |component| && Closed(component, v) ==> component[v] != UNSET;
    MembersOfAll(component);
    forall u: nat, v: nat | g.HasEdge(u, v) && v < |component| ensures component[v] <= component[u] {
      assert (u, v) in WorldOf(g).edge && Closed(component, u);
    }
    forall u: nat, v: nat | u < |component| && v < |component|
      ensures component[u] == component[v] <==> StronglyConnected(g, u, v)
    {
      assert Closed(component, u) && Closed(component, v);
      if component[u] == component[v] {
        assert (u, v) in Reach(g) && (v, u) in Reach(g);
      }
      if StronglyConnected(g, u, v) {
        ReachableFalls(g, component, u, v);
        ReachableFalls(g, component, v, u);
      }
    }
    forall v | 0 <= v < |component| ensures component[v] < |sizes| {
      assert Closed(component, v);
    }
  }

  lemma ReachableFalls(g: Graph, rank: seq<nat>, u: nat, v: nat)
    requires |rank| == g.NumberOfNodes() && Reachable(g, u, v)
    requires forall x: nat, y: nat :: g.HasEdge(x, y) && y < |rank| ==> rank[y] <= rank[x]
    ensures u < |rank| && v < |rank| && rank[v] <= rank[u]
  {
    var p :| IsPath(g, p) && p[0] == u && p[|p| - 1] == v;
    RanksFallAlongPaths(g, rank, p);
  }

  /** What one turn of the main loop keeps and how it makes progress. */
  ghost predicate Progress(s: State, t: State) {
    && |s.index| == |t.index| && |s.component| == |t.component|
    && (t.counter > s.counter || (t.counter == s.counter && |t.recursion| < |s.recursion|))
    && (forall v: nat :: Visited(s.index, v) ==> Visited(t.index, v))
    && (forall v: nat :: Closed(s.component, v) ==> Closed(t.component, v))
  }

  lemma PositionOnStack(s: State, v: nat) returns (p: nat)
    requires StackInOrder(s.index, s.onStack, s.stack) && Open(s.onStack, v)
    ensures p < |s.stack| && s.stack[p] == v
    ensures forall x: nat :: Open(s.onStack, x) ==> x in s.stack && x < |s.index|
    ensures forall i, j :: 0 <= i < j < |s.stack| ==>
            s.stack[i] < |s.index| && s.stack[j] < |s.index| && s.index[s.stack[i]] < s.index[s.stack[j]]
    ensures forall i :: 0 <= i < |s.stack| ==> Open(s.onStack, s.stack[i])
  {
    p :| 0 <= p < |s.stack| && s.stack[p] == v;
  }

  class TarjanSCC {
    const graph: Graph
    var componentsIndex: seq<nat>
    var componentSizes: seq<nat>
    var sizeOneCount: nat

    constructor (g: Graph)
      requires g.Valid() && g.NumberOfNodes() <= UNSET
      ensures graph == g && IsNew()
    {
      graph := g;
      componentsIndex := seq(g.NumberOfNodes(), _ => UNSET);
      componentSizes := [];
      sizeOneCount := 0;
    }

    /** The state the constructor leaves and `Run` starts from. */
    ghost predicate IsNew()
      reads this
    {
      && graph.Valid() && graph.NumberOfNodes() <= UNSET
      && componentsIndex == seq(graph.NumberOfNodes(), _ => UNSET)
      && componentSizes == []
    }

    ghost predicate Finished()
      reads this
    {
      && IsSccDecomposition(graph, componentsIndex, componentSizes)
      && sizeOneCount == |set c | 0 <= c < |componentSizes| && componentSizes[c] == 1|
    }

    /** Runs the search to completion: the component ids are the strongly connected components. */
    method Run()
      requires IsNew()
      modifies this
      ensures Finished()
    {
      var n := graph.NumberOfNodes();
      hide Numbered, OpenOrClosed, StackInOrder, EdgesSeen, LowNumbers, LowBounds, ForwardReach, BackReach, Components;
      hide Sizes, Limits;
      hide Laws, ActiveNodes, PendingFrames, Parents, FrameChain, IsSccDecomposition, Reach;
      ghost var w := WorldOf(graph);
      WorldObeysLaws(graph);
      var s := State([], [], seq(n, _ => UNSET), seq(n, _ => UNSET), seq(n, _ => false), seq(n, _ => true),
          componentsIndex, componentSizes, 0);
      ghost var a := Active([], [], [], []);
      InitialInv(w, s, a);
      for node := 0 to n
        invariant Inv(w, s, a) && a.node == [] && s.recursion == []
        invariant forall v :: 0 <= v < node ==> Closed(s.component, v)
      {
        if s.component[node] == UNSET {
          PushRoot(w, s, a, node);
          s := s.(recursion := [Frame(node, node)]);
        }
        s, a := Drain(graph, s, a, node);
      }
      componentsIndex, componentSizes := s.component, s.sizes;
      AllClosedIsDecomposition(graph, componentsIndex, componentSizes);
      sizeOneCount := CountOnes(componentSizes);
    }

    method GetNumberOfComponents() returns (count: nat)
      requires Finished()
      ensures forall v :: 0 <= v < graph.NumberOfNodes() ==> componentsIndex[v] < count
      ensures forall c :: 0 <= c < count ==> Members(componentsIndex, c) != {}
    {
      count := |componentSizes|;
      assert forall c :: 0 <= c < count ==> componentSizes[c] == |Members(componentsIndex, c)| > 0;
    }

    method GetSizeOneCount() returns (count: nat)
      requires Finished()
      ensures count == |set c | 0 <= c < |componentSizes| && |Members(componentsIndex, c)| == 1|
    {
      count := sizeOneCount;
      assert (set c | 0 <= c < |componentSizes|
          && |Members(componentsIndex, c)| == 1) == (set c | 0 <= c < |componentSizes| && componentSizes[c] == 1);
    }

    method GetComponentSize(id: nat) returns (size: nat)
      requires Finished() && id < |componentSizes|
      ensures size == |set v | 0 <= v < graph.NumberOfNodes() && componentsIndex[v] == id|
    {
      size := componentSizes[id];
    }

    method GetComponentID(node: nat) returns (id: nat)
      requires Finished() && node < graph.NumberOfNodes()
      ensures forall v: nat :: v < graph.NumberOfNodes() ==>
              (componentsIndex[v] == id <==> StronglyConnected(graph, node, v))
    {
      id := componentsIndex[node];
    }
  }

  method CountOnes(sizes: seq<nat>) returns (count: nat)
    ensures count == |set c | 0 <= c < |sizes| && sizes[c] == 1|
  {
    count := 0;
    ghost var ones := {};
    for i := 0 to |sizes|
      invariant ones == (set c | 0 <= c < i && sizes[c] == 1) && count == |ones|
    {
      if sizes[i] == 1 {
        count := count + 1;
        ones := ones + {i};
      }
    }
  }

  lemma InitialInv(w: World, s: State, a: Active)
    requires Laws(w) && a == Active([], [], [], [])
    requires s == State([], [], seq(w.n, _ => UNSET), seq(w.n, _ => UNSET), seq(w.n, _ => false), seq(w.n, _ => true),
            seq(w.n, _ => UNSET), [], 0)
    ensures Inv(w, s, a)
  {
    hide Laws;
    assert VisitedSet(s.index) == {};
    assert Assigned(s.component) == {};
    assert forall x: nat :: !Open(s.onStack, x) && !Visited(s.index, x) && !Closed(s.component, x);
  }

  /** Empties the recursion stack; afterwards `node` and everything closed before are closed. */
  method Drain(g: Graph, start: State, ghost before: Active, node: nat) returns (s: State, ghost a: Active)
    requires node < |start.component| && before.node == []
    requires start.recursion == [Frame(node, node)] || (start.recursion == [] && Closed(start.component, node))
    requires g.Valid() && Inv(WorldOf(g), start, before)
    ensures Inv(WorldOf(g), s, a) && a.node == [] && s.recursion == []
    ensures |s.component| == |start.component| && Closed(s.component, node)
    ensures forall v: nat :: Closed(start.component, v) ==> Closed(s.component, v)
  {
    hide Numbered, OpenOrClosed, StackInOrder, EdgesSeen, LowNumbers, LowBounds, ForwardReach, BackReach, Components;
    hide Sizes, Limits;
    hide Laws, ActiveNodes, PendingFrames, Parents, FrameChain, WorldOf;
    s, a := start, before;
    CountersFit(WorldOf(g), s, a);
    if s.recursion == [] { ClosedIsVisited(WorldOf(g), s, a, node); }
    while s.recursion != []
      invariant Inv(WorldOf(g), s, a) && s.counter <= |s.index|
      invariant |s.component| == |start.component| && |s.index| == |start.index|
      invariant forall v: nat :: Closed(start.component, v) ==> Closed(s.component, v)
      invariant s.recursion == [Frame(node, node)] || Visited(s.index, node)
      decreases |start.index| - s.counter, |s.recursion|
    {
      ghost var previous := s;
      s, a := Step(g, s, a);
      CountersFit(WorldOf(g), s, a);
    }
    NoFramesNoOpen(WorldOf(g), s, a, node);
  }

  lemma CountersFit(w: World, s: State, a: Active)
    requires Inv(w, s, a)
    ensures s.counter <= |s.index|
  {
    hide Numbered, OpenOrClosed, StackInOrder, EdgesSeen, LowNumbers, LowBounds, ForwardReach, BackReach, Components;
    hide Sizes, Limits;
    hide Laws, ActiveNodes, PendingFrames, Parents, FrameChain;
    SubsetOfRange(VisitedSet(s.index), |s.index|);
  }

  lemma ClosedIsVisited(w: World, s: State, a: Active, v: nat)
    requires Inv(w, s, a) && Closed(s.component, v)
    ensures Visited(s.index, v)
  {
    hide Numbered, StackInOrder, EdgesSeen, LowNumbers, LowBounds, ForwardReach, BackReach, Components, Sizes, Limits;
    hide Laws, ActiveNodes, PendingFrames, Parents, FrameChain;
  }

  lemma NoFramesNoOpen(w: World, s: State, a: Active, v: nat)
    requires Inv(w, s, a) && s.recursion == [] && Visited(s.index, v)
    ensures a.node == [] && Closed(s.component, v)
  {
    hide Numbered, StackInOrder, EdgesSeen, LowNumbers, LowBounds, ForwardReach, Components, Sizes, Limits;
    hide Laws, ActiveNodes, PendingFrames, Parents;
    assert Open(s.onStack, v) ==> BackToActive(w, s.index, a.node, v);
  }

  /** One turn of the main loop. */
  method Step(g: Graph, s: State, ghost a: Active) returns (t: State, ghost b: Active)
    requires s.recursion != [] && g.Valid() && Inv(WorldOf(g), s, a)
    ensures Inv(WorldOf(g), t, b) && Progress(s, t)
    ensures s.recursion == [Frame(Top(s).v, Top(s).v)] ==> Visited(t.index, Top(s).v)
  {
    hide Numbered, OpenOrClosed, StackInOrder, EdgesSeen, LowNumbers, LowBounds, ForwardReach, BackReach, Components;
    hide Sizes, Limits;
    hide Laws, ActiveNodes, PendingFrames, Parents, FrameChain, Reach;
    var f := Top(s);
    TopFacts(WorldOf(g), s, a);
    if s.before[f.v] && s.index[f.v] != UNSET {
      DropStale(WorldOf(g), s, a);
      t, b := DropTop(s), DropPending(a);
    } else if s.before[f.v] {
      t, b := BeforeRecursion(g, s, a);
    } else {
      t, b := AfterRecursion(g, s, a);
    }
  }

  lemma TopFacts(w: World, s: State, a: Active)
    requires Inv(w, s, a) && s.recursion != []
    ensures Top(s).v < |s.index| && |s.index| == |s.before| == |s.lowLink| == |s.onStack| == |s.component| == w.n
    ensures !s.before[Top(s).v] ==> DoneTop(s, a) && Visited(s.index, Top(s).v) && Open(s.onStack, Top(s).v)
    ensures !s.before[Top(s).v] ==> s.lowLink[Top(s).v] <= s.index[Top(s).v]
  {
    hide Numbered, OpenOrClosed, StackInOrder, EdgesSeen, LowNumbers, LowBounds, ForwardReach, BackReach, Components;
    hide Sizes, Limits;
    hide Laws;
    TopIsActiveOrPending(w, s, a);
    if !s.before[Top(s).v] {
      UseLowNumbers(w, s, a, |a.node| - 1);
    }
  }

  /** Numbers the node of the top frame and scans its edges. */
  method BeforeRecursion(g: Graph, s: State, ghost a: Active) returns (t: State, ghost b: Active)
    requires s.recursion != [] && g.Valid()
    requires Top(s).v < |s.index| == |s.before| == |s.lowLink| == |s.onStack| == g.NumberOfNodes()
    requires s.before[Top(s).v] && s.index[Top(s).v] == UNSET
    requires Inv(WorldOf(g), s, a)
    ensures Inv(WorldOf(g), t, b) && Progress(s, t) && Visited(t.index, Top(s).v)
  {
    hide Inv, Reach;
    var f := Top(s);
    CounterFits(WorldOf(g), s, a);
    OpenIsVisited(WorldOf(g), s, a);
    t := NumberNode(s, f.v);
    ghost var numbered := t;
    ghost var pushed: seq<Frame> := [];
    var targets := g.adjacency[f.v];
    for e := 0 to |targets|
      invariant |t.lowLink| == |s.index|
      invariant t == numbered.(recursion := s.recursion + pushed, lowLink := s.lowLink[f.v := t.lowLink[f.v]])
      invariant Scanned(numbered.index, numbered.onStack, targets, f.v, e, pushed, t.lowLink[f.v])
    {
      var y := targets[e];
      ghost var was, low := pushed, t.lowLink[f.v];
      assert Open(numbered.onStack, y) ==> y == f.v || Open(s.onStack, y);
      if t.index[y] == UNSET {
        t := t.(recursion := t.recursion + [Frame(y, f.v)]);
        pushed := pushed + [Frame(y, f.v)];
        assert pushed[|was|] == Frame(y, f.v);
      } else if t.onStack[y] && t.index[y] < t.lowLink[f.v] {
        t := t.(lowLink := t.lowLink[f.v := t.index[y]]);
      }
      ScanOne(numbered.index, numbered.onStack, targets, f.v, e, was, low, pushed, t.lowLink[f.v]);
    }
    b := EnterTop(WorldOf(g), s, a, pushed, t.lowLink[f.v], targets);
    assert t == Visit(s, f, pushed, t.lowLink[f.v]);
  }

  lemma CounterFits(w: World, s: State, a: Active)
    requires s.recursion != [] && Top(s).v < |s.index| && s.index[Top(s).v] == UNSET
    requires Inv(w, s, a)
    ensures s.counter < UNSET && Shape(w, s)
  {
    hide Numbered, OpenOrClosed, StackInOrder, EdgesSeen, LowNumbers, LowBounds, ForwardReach, BackReach, Components;
    hide Sizes, Limits;
    hide ActiveNodes, PendingFrames, Parents, FrameChain;
    CounterStaysBelow(s.index, Top(s).v, 0);
  }

  lemma OpenIsVisited(w: World, s: State, a: Active)
    requires Inv(w, s, a)
    ensures forall x: nat :: Open(s.onStack, x) ==> Visited(s.index, x)
  {
    hide Numbered, StackInOrder, EdgesSeen, LowNumbers, LowBounds, ForwardReach, BackReach, Components, Sizes, Limits;
    hide Laws, ActiveNodes, PendingFrames, Parents, FrameChain;
  }

  lemma EnterTop(w: World, s: State, a: Active, pushed: seq<Frame>, low: nat, targets: seq<nat>) returns (b: Active)
    requires s.recursion != [] && Shape(w, s) && Top(s).v < w.n && s.before[Top(s).v] && s.index[Top(s).v] == UNSET
    requires forall y: nat :: (Top(s).v, y) in w.edge <==> y in targets
    requires Scanned(NumberNode(s, Top(s).v).index, NumberNode(s, Top(s).v).onStack, targets, Top(s).v, |targets|,
            pushed, low)
    requires Inv(w, s, a)
    ensures Inv(w, Visit(s, Top(s), pushed, low), b)
  {
    hide Numbered, OpenOrClosed, StackInOrder, EdgesSeen, LowNumbers, LowBounds, ForwardReach, BackReach, Components;
    hide Sizes, Limits;
    hide Laws, ActiveNodes, PendingFrames, Parents, FrameChain, Scanned;
    VisitKeepsInv(w, s, a, pushed, low, targets);
    b := Enter(a, Top(s), pushed, s.counter);
  }

  lemma ScanOne(index: seq<nat>, onStack: seq<bool>, targets: seq<nat>, v: nat, e: nat, was: seq<Frame>, low: nat,
        pushed: seq<Frame>, low': nat)
    requires Scanned(index, onStack, targets, v, e, was, low) && e < |targets| && targets[e] < |index|
    requires pushed == if Visited(index, targets[e]) then was else was + [Frame(targets[e], v)]
    requires low' ==
            if Visited(index, targets[e]) && Open(onStack, targets[e]) && index[targets[e]] < low then index[targets[e]]
            else low
    requires Open(onStack, targets[e]) ==> Visited(index, targets[e])
    ensures Scanned(index, onStack, targets, v, e + 1, pushed, low')
  {
    assert targets[..e + 1] == targets[..e] + [targets[e]];
    forall j | 0 <= j < e + 1 && !Visited(index, targets[j]) ensures Asked(pushed, targets[j]) {
      if j < e {
        var f :| f in was && f.v == targets[j];
        assert f in pushed;
      } else {
        assert Frame(targets[e], v) in pushed;
      }
    }
  }

  /** Hands the low link of the finished node to its parent and closes a component at its root. */
  method AfterRecursion(g: Graph, s: State, ghost a: Active) returns (t: State, ghost b: Active)
    requires s.recursion != [] && g.Valid()
    requires Top(s).v < |s.index| == |s.before| == |s.lowLink| == |s.onStack| == |s.component|
    requires !s.before[Top(s).v] && DoneTop(s, a) && Open(s.onStack, Top(s).v) && Visited(s.index, Top(s).v)
    requires s.lowLink[Top(s).v] <= s.index[Top(s).v]
    requires Inv(WorldOf(g), s, a)
    ensures Inv(WorldOf(g), t, b) && Progress(s, t) && t.index == s.index
  {
    hide Inv, WorldOf;
    var f := Top(s);
    t := Finish(s);
    b := Leave(a, s.counter);
    if t.lowLink[f.v] == t.index[f.v] {
      InvStack(WorldOf(g), s, a);
      ghost var p := PositionOnStack(s, f.v);
      hide StackInOrder;
      t := PopComponent(t, f.v, p);
      ghost var popped := s.(stack := t.stack, onStack := t.onStack, component := t.component, sizes := t.sizes);
      PoppedByPosition(s, f.v, p, popped);
      CloseKeepsInv(WorldOf(g), s, a, p, popped);
      ClosedStay(WorldOf(g), s, f.v, p, popped, a);
    } else {
      HandUpKeepsInv(WorldOf(g), s, a);
    }
  }

  /** The nodes of `stack` from `k` on have been taken off it and given component `id`; nothing else changed. */
  ghost predicate Taken(stack: seq<nat>, k: nat, id: nat, onStack: seq<bool>, component: seq<nat>, onStack': seq<bool>,
        component': seq<nat>) {
    && k <= |stack| && |onStack'| == |onStack| == |component'| == |component|
    && (forall x: nat :: x < |onStack| && x !in stack[k..] ==>
        onStack'[x] == onStack[x] && component'[x] == component[x])
    && (forall i :: k <= i < |stack| ==> stack[i] < |onStack| && !onStack'[stack[i]] && component'[stack[i]] == id)
  }

  lemma TakeOne(stack: seq<nat>, k: nat, id: nat, onStack: seq<bool>, component: seq<nat>, onStack': seq<bool>,
        component': seq<nat>)
    requires k < |stack| && stack[k] < |onStack| && Taken(stack, k + 1, id, onStack, component, onStack', component')
    ensures Taken(stack, k, id, onStack, component, onStack'[stack[k] := false], component'[stack[k] := id])
  {
    assert stack[k..] == [stack[k]] + stack[k + 1..];
  }

  /** Pops the Tarjan stack down to `v`, giving the popped nodes the next component id. */
  method PopComponent(s: State, v: nat, ghost p: nat) returns (t: State)
    requires p < |s.stack| && s.stack[p] == v && |s.component| == |s.onStack|
    requires forall i :: 0 <= i < |s.stack| ==> s.stack[i] < |s.onStack|
    requires forall i, j :: 0 <= i < j < |s.stack| ==> s.stack[i] != s.stack[j]
    ensures t == s.(stack := s.stack[..p], onStack := t.onStack, component := t.component,
            sizes := s.sizes + [|s.stack| - p])
    ensures Taken(s.stack, p, |s.sizes|, s.onStack, s.component, t.onStack, t.component)
  {
    t := s;
    var size := 0;
    var done := false;
    while !done
      invariant p <= |t.stack| <= |s.stack| && t.stack == s.stack[..|t.stack|] && size == |s.stack| - |t.stack|
      invariant done <==> |t.stack| == p
      invariant t == s.(stack := t.stack, onStack := t.onStack, component := t.component)
      invariant Taken(s.stack, |t.stack|, |s.sizes|, s.onStack, s.component, t.onStack, t.component)
      decreases |t.stack|, !done
    {
      var top := |t.stack| - 1;
      var vprime := t.stack[top];
      TakeOne(s.stack, top, |s.sizes|, s.onStack, s.component, t.onStack, t.component);
      t := t.(stack := t.stack[..top], onStack := t.onStack[vprime := false],
          component := t.component[vprime := |t.sizes|]);
      size := size + 1;
      done := v == vprime;
    }
    t := t.(sizes := t.sizes + [size]);
  }

  lemma InvStack(w: World, s: State, a: Active)
    requires Inv(w, s, a)
    ensures StackInOrder(s.index, s.onStack, s.stack)
  {
    hide Numbered, OpenOrClosed, StackInOrder, EdgesSeen, LowNumbers, LowBounds, ForwardReach, BackReach, Components;
    hide Sizes, Limits;
    hide Laws, ActiveNodes, PendingFrames, Parents, FrameChain;
  }

  lemma PoppedByPosition(s: State, v: nat, p: nat, t: State)
    requires p < |s.stack| && s.stack[p] == v
    requires |s.index| == |s.onStack| == |s.component| == |t.onStack| == |t.component|
    requires t == s.(stack := s.stack[..p], onStack := t.onStack, component := t.component,
            sizes := s.sizes + [|s.stack| - p])
    requires forall x: nat :: Open(s.onStack, x) ==> x in s.stack
    requires forall i, j :: 0 <= i < j < |s.stack| ==>
            s.stack[i] < |s.index| && s.stack[j] < |s.index| && s.index[s.stack[i]] < s.index[s.stack[j]]
    requires forall i :: 0 <= i < |s.stack| ==> Open(s.onStack, s.stack[i])
    requires forall x: nat :: x < |s.onStack| && x !in s.stack[p..] ==>
            t.onStack[x] == s.onStack[x] && t.component[x] == s.component[x]
    requires forall i :: p <= i < |s.stack| ==>
            s.stack[i] < |t.onStack| && !t.onStack[s.stack[i]] && t.component[s.stack[i]] == |s.sizes|
    ensures PoppedTo(s, v, p, t)
  {
    forall x: nat | x < |s.index| ensures x in s.stack[p..] <==> Open(s.onStack, x) && s.index[v] <= s.index[x] {
      AboveByPosition(s, v, p, x);
    }
    forall x: nat | x in s.stack[p..] ensures x < |s.index| && !t.onStack[x] && t.component[x] == |s.sizes| {
      var i :| p <= i < |s.stack| && s.stack[i] == x;
    }
  }

  lemma AboveByPosition(s: State, v: nat, p: nat, x: nat)
    requires p < |s.stack| && s.stack[p] == v && |s.index| == |s.onStack| && x < |s.index|
    requires Open(s.onStack, x) ==> x in s.stack
    requires forall i, j :: 0 <= i < j < |s.stack| ==>
            s.stack[i] < |s.index| && s.stack[j] < |s.index| && s.index[s.stack[i]] < s.index[s.stack[j]]
    requires forall i :: 0 <= i < |s.stack| ==> Open(s.onStack, s.stack[i])
    ensures v < |s.index| && (x in s.stack[p..] <==> Open(s.onStack, x) && s.index[v] <= s.index[x])
  {
    assert Open(s.onStack, s.stack[p]);
    if x in s.stack[p..] {
      var i :| p <= i < |s.stack| && s.stack[i] == x;
      assert Open(s.onStack, s.stack[i]);
    }
    if Open(s.onStack, x) && s.index[v] <= s.index[x] {
      var i :| 0 <= i < |s.stack| && s.stack[i] == x;
      assert i >= p;
      assert s.stack[p..][i - p] == x;
    }
  }

  lemma ClosedStay(w: World, s: State, v: nat, p: nat, t: State, a: Active)
    requires PoppedTo(s, v, p, t) && |t.sizes| <= UNSET
    requires Inv(w, s, a)
    ensures forall x: nat :: Closed(s.component, x) ==> Closed(t.component, x)
  {
    hide Numbered, StackInOrder, EdgesSeen, LowNumbers, LowBounds, ForwardReach, BackReach, Components, Sizes, Limits;
    hide Laws, ActiveNodes, PendingFrames, Parents, FrameChain;
  }
}
