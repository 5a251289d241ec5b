/** Iterative Tarjan search: the state of one run and the invariants every step keeps. */
module TarjanState {
  import opened Sums

  /** SPECIAL_NODEID and UINT_MAX: "no number yet", "no component yet". */
  const UNSET: nat := 0xFFFF_FFFF

  datatype Frame = Frame(v: nat, parent: nat)

  /**
   * The vectors and stacks of a run. `index`, `lowLink` and `onStack` are the three columns of the
   * node list; the tops of both stacks are their last elements.
   */
  datatype State = State(
    recursion: seq<Frame>,
    stack: seq<nat>,
    index: seq<nat>,
    lowLink: seq<nat>,
    onStack: seq<bool>,
    before: seq<bool>,
    component: seq<nat>,
    sizes: seq<nat>,
    counter: nat)

  /** The graph as the proof sees it: its size, its edges, and reachability along them. */
  datatype World = World(n: nat, edge: iset<(nat, nat)>, reach: iset<(nat, nat)>)

  ghost predicate Laws(w: World) {
    && w.n <= UNSET
    && (forall u: nat, v: nat :: (u, v) in w.edge ==> u < w.n && v < w.n && (u, v) in w.reach)
    && (forall u: nat :: u < w.n ==> (u, u) in w.reach)
    && (forall u: nat, v: nat, x: nat :: (u, v) in w.reach && (v, x) in w.reach ==> (u, x) in w.reach)
  }

  /**
   * Ghost view of the recursion stack. Entry k is the k-th frame whose node is in progress,
   * followed by the frames that node pushed and that are still pending. The node's descendants
   * so far, without those of entry k + 1, are numbered from its own number up to `limit[k]`.
   */
  datatype Active = Active(node: seq<nat>, parent: seq<nat>, pending: seq<seq<Frame>>, limit: seq<nat>)

  ghost predicate Visited(index: seq<nat>, v: nat) {
    v < |index| && index[v] != UNSET
  }

  ghost predicate Open(onStack: seq<bool>, v: nat) {
    v < |onStack| && onStack[v]
  }

  ghost predicate Closed(component: seq<nat>, v: nat) {
    v < |component| && component[v] != UNSET
  }

  ghost function VisitedSet(index: seq<nat>): set<nat> {
    set v | 0 <= v < |index| && index[v] != UNSET
  }

  ghost function Members(component: seq<nat>, c: nat): set<nat> {
    set v | 0 <= v < |component| && component[v] == c
  }

  ghost function Assigned(component: seq<nat>): set<nat> {
    set v | 0 <= v < |component| && component[v] != UNSET
  }

  ghost predicate Shape(w: World, s: State) {
    && |s.index| == |s.lowLink| == |s.onStack| == |s.before| == |s.component| == w.n
    && s.counter == |VisitedSet(s.index)|
  }

  ghost predicate Numbered(index: seq<nat>, counter: nat) {
    && (forall v: nat :: Visited(index, v) ==> index[v] < counter)
    && (forall v: nat, x: nat :: Visited(index, v) && Visited(index, x) && index[v] == index[x] ==> v == x)
  }

  /** A visited node is either on the Tarjan stack or in a component. */
  ghost predicate OpenOrClosed(index: seq<nat>, onStack: seq<bool>, component: seq<nat>) {
    && |index| == |onStack| == |component|
    && (forall v: nat :: Open(onStack, v) <==> Visited(index, v) && !Closed(component, v))
    && (forall v: nat :: Closed(component, v) ==> Visited(index, v))
  }

  /** The Tarjan stack holds exactly the open nodes, in the order they were numbered. */
  ghost predicate StackInOrder(index: seq<nat>, onStack: seq<bool>, stack: seq<nat>) {
    && |index| == |onStack|
    && (forall i :: 0 <= i < |stack| ==> Open(onStack, stack[i]))
    && (forall i, j :: 0 <= i < j < |stack| ==>
        Open(onStack, stack[i]) && Open(onStack, stack[j]) && index[stack[i]] < index[stack[j]])
    && (forall v: nat :: Open(onStack, v) ==> v in stack)
  }

  ghost predicate ActiveShape(a: Active) {
    |a.node| == |a.parent| == |a.pending| == |a.limit|
  }

  /** Active nodes are open, numbered in order, and exactly the nodes flagged "after recursion". */
  ghost predicate ActiveNodes(index: seq<nat>, onStack: seq<bool>, before: seq<bool>, node: seq<nat>) {
    && |index| == |onStack| == |before|
    && (forall k :: 0 <= k < |node| ==> Open(onStack, node[k]) && Visited(index, node[k]) && !before[node[k]])
    && (forall v: nat :: v < |before| && !before[v] ==> v in node)
    && (forall j, k :: 0 <= j < k < |node| ==>
        Visited(index, node[j]) && Visited(index, node[k]) && index[node[j]] < index[node[k]])
  }

  ghost predicate Parents(node: seq<nat>, parent: seq<nat>) {
    && |node| == |parent|
    && (forall k :: 0 <= k < |parent| ==> parent[k] == if k == 0 then node[0] else node[k - 1])
  }

  ghost function Frames(node: seq<nat>, parent: seq<nat>, pending: seq<seq<Frame>>): seq<Frame>
    requires |node| == |parent| == |pending|
    decreases |node|
  {
    if |node| == 0 then [] else
    var m := |node| - 1;
    Frames(node[..m], parent[..m], pending[..m]) + [Frame(node[m], parent[m])] + pending[m]
  }

  /** The recursion stack is the active frames, each followed by its own pending frames. */
  ghost predicate FrameChain(n: nat, recursion: seq<Frame>, a: Active) {
    && ActiveShape(a)
    && (|a.node| == 0 ==> |recursion| == 0 || exists v: nat :: v < n && recursion == [Frame(v, v)])
    && (|a.node| > 0 ==> recursion == Frames(a.node, a.parent, a.pending))
  }

  /** A pending frame was pushed by `u` for a target that had no number at that time. */
  ghost predicate PendingFrame(edge: iset<(nat, nat)>, index: seq<nat>, u: nat, f: Frame) {
    && f.parent == u && (u, f.v) in edge
    && u < |index| && f.v < |index|
    && (index[f.v] == UNSET || index[u] < index[f.v])
  }

  ghost predicate PendingFrames(edge: iset<(nat, nat)>, index: seq<nat>, node: seq<nat>, pending: seq<seq<Frame>>) {
    && |node| == |pending|
    && (forall k, f :: 0 <= k < |node| && f in pending[k] ==> PendingFrame(edge, index, node[k], f))
  }

  ghost predicate Asked(frames: seq<Frame>, y: nat) {
    exists f :: f in frames && f.v == y
  }

  /** No edge of a finished node, and no edge of an active node that is not pending, meets a new node. */
  ghost predicate EdgesSeen(edge: iset<(nat, nat)>, index: seq<nat>, before: seq<bool>, node: seq<nat>,
        pending: seq<seq<Frame>>) {
    && |index| == |before| && |node| == |pending|
    && (forall x: nat, y: nat :: Visited(index, x) && before[x] && (x, y) in edge ==> Visited(index, y))
    && (forall k, y: nat :: 0 <= k < |node| && (node[k], y) in edge ==> Visited(index, y) || Asked(pending[k], y))
  }

  ghost predicate Limits(index: seq<nat>, counter: nat, node: seq<nat>, limit: seq<nat>) {
    && |node| == |limit|
    && (forall k :: 0 < k < |node| ==> node[k] < |index| && limit[k - 1] == index[node[k]])
    && (|node| > 0 ==> limit[|node| - 1] == counter)
  }

  /** `lowLink` of an active node is the number of an open node it reaches ... */
  ghost predicate LowReached(w: World, index: seq<nat>, onStack: seq<bool>, u: nat, low: nat) {
    exists y: nat :: Open(onStack, y) && y < |index| && index[y] == low && (u, y) in w.reach
  }

  ghost predicate LowNumbers(w: World, index: seq<nat>, lowLink: seq<nat>, onStack: seq<bool>, node: seq<nat>) {
    && |index| == |lowLink|
    && (forall k :: 0 <= k < |node| ==> node[k] < |index| && lowLink[node[k]] <= index[node[k]])
    && (forall k :: 0 <= k < |node| ==> node[k] < |index| && LowReached(w, index, onStack, node[k], lowLink[node[k]]))
  }

  /** ... and no edge out of the nodes numbered under it leads to an open node with a smaller number. */
  ghost predicate LowBounds(w: World, index: seq<nat>, lowLink: seq<nat>, onStack: seq<bool>, node: seq<nat>,
        limit: seq<nat>) {
    && |index| == |lowLink| == |onStack| && |node| == |limit|
    && (forall k :: 0 <= k < |node| ==> node[k] < |index|)
    && (forall k, x: nat, y: nat ::
          0 <= k < |node| && Open(onStack, x) && index[node[k]] <= index[x] < limit[k] && (x, y) in w.edge
              && Open(onStack, y)
          ==> lowLink[node[k]] <= index[y])
  }

  /** Node `y` reaches an active node numbered no later than itself. */
  ghost predicate BackToActive(w: World, index: seq<nat>, node: seq<nat>, y: nat) {
    exists k ::
        0 <= k < |node| && node[k] < |index| && y < |index| && index[node[k]] <= index[y] && (y, node[k]) in w.reach
  }

  /** Every open node reaches every later open node ... */
  ghost predicate ForwardReach(w: World, index: seq<nat>, onStack: seq<bool>) {
    && |index| == |onStack|
    && (forall x: nat, y: nat :: Open(onStack, x) && Open(onStack, y) && index[x] <= index[y] ==> (x, y) in w.reach)
  }

  /** ... and reaches back to an active one. */
  ghost predicate BackReach(w: World, index: seq<nat>, onStack: seq<bool>, node: seq<nat>) {
    forall y: nat {:trigger BackToActive(w, index, node, y)} :: Open(onStack, y) ==> BackToActive(w, index, node, y)
  }

  /** Closed nodes: same component only if mutually reachable, and edges never lead to a higher component. */
  ghost predicate Components(w: World, component: seq<nat>, number: nat) {
    && (forall x: nat :: Closed(component, x) ==> component[x] < number)
    && (forall x: nat, y: nat :: Closed(component, x) && (x, y) in w.edge ==>
        Closed(component, y) && component[y] <= component[x])
    && (forall x: nat, y: nat :: Closed(component, x) && Closed(component, y) && component[x] == component[y] ==>
        (x, y) in w.reach)
  }

  /** Component ids are dense and the recorded sizes are the true sizes. */
  ghost predicate Sizes(component: seq<nat>, sizes: seq<nat>) {
    && |sizes| <= Sum(sizes) == |Assigned(component)|
    && (forall c :: 0 <= c < |sizes| ==> sizes[c] == |Members(component, c)| > 0)
  }

  ghost predicate Inv(w: World, s: State, a: Active) {
    && Laws(w) && Shape(w, s) && ActiveShape(a)
    && Numbered(s.index, s.counter)
    && OpenOrClosed(s.index, s.onStack, s.component)
    && StackInOrder(s.index, s.onStack, s.stack)
    && ActiveNodes(s.index, s.onStack, s.before, a.node)
    && Parents(a.node, a.parent)
    && FrameChain(w.n, s.recursion, a)
    && PendingFrames(w.edge, s.index, a.node, a.pending)
    && EdgesSeen(w.edge, s.index, s.before, a.node, a.pending)
    && Limits(s.index, s.counter, a.node, a.limit)
    && LowNumbers(w, s.index, s.lowLink, s.onStack, a.node)
    && LowBounds(w, s.index, s.lowLink, s.onStack, a.node, a.limit)
    && ForwardReach(w, s.index, s.onStack)
    && BackReach(w, s.index, s.onStack, a.node)
    && Components(w, s.component, |s.sizes|)
    && Sizes(s.component, s.sizes)
  }
}
