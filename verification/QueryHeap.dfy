/** The search heap: inserted nodes keep their key and data after they are removed. */
module QueryHeaps {
  import opened Walks
  import opened CellSearch

  datatype HeapNode = HeapNode(node: nat, weight: int, fromClique: bool, duration: int, distance: real, removed: bool)

  ghost function LabelOf(h: HeapNode): Label {
    Label(Cost(h.weight, h.duration, h.distance), h.fromClique)
  }

  /**
   * `positions` is an index storage that is never cleared, so an entry only counts when the heap
   * node it points to names the same graph node. `labels` and `open` are the abstract contents.
   */
  class QueryHeap {
    var inserted: seq<HeapNode>
    var positions: seq<nat>
    ghost var labels: map<nat, Label>
    ghost var open: set<nat>

    ghost predicate Valid()
      reads this
    {
      && open <= labels.Keys
      && (forall i :: 0 <= i < |inserted| ==> inserted[i].node < |positions| && positions[inserted[i].node] == i)
      && (forall i :: 0 <= i < |inserted| ==>
            && inserted[i].node in labels && labels[inserted[i].node] == LabelOf(inserted[i])
            && (inserted[i].node in open <==> !inserted[i].removed))
      && (forall v :: v in labels ==> v < |positions| && positions[v] < |inserted| && inserted[positions[v]].node == v)
    }

    constructor (numberOfNodes: nat)
      ensures Valid() && labels == map[] && open == {} && |positions| == numberOfNodes
    {
      inserted, positions := [], seq(numberOfNodes, _ => 0);
      labels, open := map[], {};
    }

    method Clear()
      requires Valid()
      modifies this
      ensures Valid() && labels == map[] && open == {} && positions == old(positions)
    {
      inserted := [];
      labels, open := map[], {};
    }

    method Insert(node: nat, weight: int, fromClique: bool, duration: int, distance: real)
      requires Valid() && node < |positions| && node !in labels
      modifies this
      ensures Valid() && |positions| == old(|positions|)
      ensures labels == old(labels)[node := Label(Cost(weight, duration, distance), fromClique)]
      ensures open == old(open) + {node}
    {
      positions := positions[node := |inserted|];
      inserted := inserted + [HeapNode(node, weight, fromClique, duration, distance, false)];
      labels := labels[node := Label(Cost(weight, duration, distance), fromClique)];
      open := open + {node};
    }

    predicate WasInserted(node: nat)
      requires Valid() && node < |positions|
      reads this
      ensures WasInserted(node) <==> node in labels
    {
      positions[node] < |inserted| && inserted[positions[node]].node == node
    }

    function GetHeapNode(node: nat): (h: HeapNode)
      requires Valid() && node < |positions| && node in labels
      reads this
      ensures LabelOf(h) == labels[node] && (h.removed <==> node !in open)
    {
      inserted[positions[node]]
    }

    /** `Empty` of the source, for the container of nodes not yet removed. */
    method IsEmpty() returns (empty: bool)
      requires Valid()
      ensures empty <==> open == {}
    {
      empty := forall i | 0 <= i < |inserted| :: inserted[i].removed;
      assert forall v :: v in labels ==> inserted[positions[v]].node == v;
    }

    /** Removes some node of least weight; ties may be broken either way. */
    method DeleteMin() returns (node: nat)
      requires Valid() && open != {}
      modifies this
      ensures Valid() && labels == old(labels) && positions == old(positions)
      ensures node in old(open) && open == old(open) - {node} && node in labels && node < |positions|
      ensures forall v :: v in old(open) ==> v in labels && labels[node].cost.weight <= labels[v].cost.weight
    {
      ghost var some :| some in open;
      assert some in labels && !inserted[positions[some]].removed;
      var best := 0;
      var found := false;
      for i := 0 to |inserted|
        invariant found ==> best < |inserted| && !inserted[best].removed
        invariant found ==>
                forall j :: 0 <= j < i && !inserted[j].removed ==> inserted[best].weight <= inserted[j].weight
        invariant !found ==> forall j :: 0 <= j < i ==> inserted[j].removed
      {
        if !inserted[i].removed && (!found || inserted[i].weight < inserted[best].weight) {
          best, found := i, true;
        }
      }
      node := inserted[best].node;
      forall v | v in open ensures v in labels && labels[node].cost.weight <= labels[v].cost.weight {
        assert inserted[positions[v]].node == v && !inserted[positions[v]].removed;
      }
      inserted := inserted[best := inserted[best].(removed := true)];
      open := open - {node};
    }

    method DecreaseKey(node: nat, weight: int)
      requires Valid() && node < |positions| && node in open && weight <= labels[node].cost.weight
      modifies this
      ensures Valid() && positions == old(positions) && open == old(open)
      ensures labels == old(labels)[node := old(labels)[node].(cost := old(labels)[node].cost.(weight := weight))]
    {
      var index := positions[node];
      assert node in labels;
      inserted := inserted[index := inserted[index].(weight := weight)];
      labels := labels[node := labels[node].(cost := labels[node].cost.(weight := weight))];
    }

    method SetData(node: nat, fromClique: bool, duration: int, distance: real)
      requires Valid() && node < |positions| && node in labels
      modifies this
      ensures Valid() && positions == old(positions) && open == old(open)
      ensures labels == old(labels)[node := Label(Cost(old(labels)[node].cost.weight, duration, distance), fromClique)]
    {
      var index := positions[node];
      inserted := inserted[index := inserted[index].(fromClique := fromClique, duration := duration,
          distance := distance)];
      labels := labels[node := Label(Cost(labels[node].cost.weight, duration, distance), fromClique)];
    }
  }
}
