/** The provider IDs, readiness and replica count a worker pool reconcile derives from the nodes. */
module ProviderIds {
  import opened ApiTypes

  /** `poolLabel` is the node's worker pool label, empty if it has none. */
  datatype Node = Node(poolLabel: string, providerID: string)

  /** The IDs of the nodes labelled with the name, in node order. */
  function IdsOf(nodes: seq<Node>, name: string): seq<string> {
    if nodes == [] then []
    else
      IdsOf(nodes[..|nodes| - 1], name)
      + (if nodes[|nodes| - 1].poolLabel == name then [nodes[|nodes| - 1].providerID] else [])
  }

  /** Go's conversion to int32 keeps the low 32 bits. */
  function ToInt32(n: int): (r: int32)
    ensures (r - n) % 0x1_0000_0000 == 0
    ensures -0x8000_0000 <= n < 0x8000_0000 ==> r == n
  {
    (n + 0x8000_0000) % 0x1_0000_0000 - 0x8000_0000
  }

  /** What the servers hold: the worker pool's list and readiness, the machine pool's replica count. */
  class PoolStatus {
    const name: string
    const minimum: int32
    var providerIDList: seq<string>
    var ready: bool
    var replicas: int32

    constructor (name: string, minimum: int32)
      ensures this.name == name && this.minimum == minimum
    {
      this.name, this.minimum := name, minimum;
      providerIDList, ready, replicas := [], false, 0;
    }

    /** Rebuilds the list from nothing on every call. Three version-checked writes, each of which may
        be refused and then ends the call: the list, the readiness, the replica count. */
    method UpdateStatus(nodes: seq<Node>, listAccepted: bool, readyAccepted: bool, replicasAccepted: bool) returns (ok: bool)
      modifies this
      ensures ok <==> listAccepted && readyAccepted && replicasAccepted
      ensures providerIDList == if listAccepted then IdsOf(nodes, name) else old(providerIDList)
      ensures ready == if listAccepted && readyAccepted then |IdsOf(nodes, name)| >= minimum else old(ready)
      ensures ok ==> (replicas - |IdsOf(nodes, name)|) % 0x1_0000_0000 == 0
      ensures ok && |IdsOf(nodes, name)| < 0x8000_0000 ==> replicas == |IdsOf(nodes, name)|
      ensures !ok ==> replicas == old(replicas)
    {
      var ids: seq<string> := [];
      for i := 0 to |nodes|
        invariant ids == IdsOf(nodes[..i], name)
      {
        assert nodes[..i + 1][..i] == nodes[..i];
        if nodes[i].poolLabel == name {
          ids := ids + [nodes[i].providerID];
        }
      }
      assert nodes[..|nodes|] == nodes;
      if !listAccepted {
        return false;
      }
      providerIDList := ids;
      if !readyAccepted {
        return false;
      }
      ready := |ids| >= minimum;
      if !replicasAccepted {
        return false;
      }
      replicas := ToInt32(|ids|);
      return true;
    }
  }

  function Total(nodes: seq<Node>, names: seq<string>): nat
    decreases |names|
  {
    if names == [] then 0 else |IdsOf(nodes, names[0])| + Total(nodes, names[1..])
  }

  /** How many nodes carry one of the names. */
  function Labelled(nodes: seq<Node>, names: seq<string>): nat {
    if nodes == [] then 0
    else Labelled(nodes[..|nodes| - 1], names) + (if nodes[|nodes| - 1].poolLabel in names then 1 else 0)
  }

  ghost predicate Distinct(names: seq<string>) {
    forall i, j :: 0 <= i < j < |names| ==> names[i] != names[j]
  }

  lemma {:induction false} OneMoreNode(nodes: seq<Node>, node: Node, names: seq<string>)
    requires Distinct(names)
    ensures Total(nodes + [node], names) == Total(nodes, names) + (if node.poolLabel in names then 1 else 0)
    decreases |names|
  {
    assert (nodes + [node])[..|nodes|] == nodes;
    if names != [] {
      OneMoreNode(nodes, node, names[1..]);
      assert node.poolLabel in names <==> node.poolLabel == names[0] || node.poolLabel in names[1..];
    }
  }

  /** Main result: with distinct pool names the lists together hold every node that carries one of
      the names exactly once, and so no more than there are nodes. */
  lemma {:induction false} NodesAreCountedOnce(nodes: seq<Node>, names: seq<string>)
    requires Distinct(names)
    ensures Total(nodes, names) == Labelled(nodes, names) <= |nodes|
    decreases |nodes|
  {
    if nodes == [] {
      NoNodes(names);
    } else {
      var n := |nodes| - 1;
      NodesAreCountedOnce(nodes[..n], names);
      OneMoreNode(nodes[..n], nodes[n], names);
      assert nodes[..n] + [nodes[n]] == nodes;
    }
  }

  /** The replica counts that reconciles of all pools report, added up. */
  function Reported(nodes: seq<Node>, names: seq<string>): int
    decreases |names|
  {
    if names == [] then 0 else ToInt32(|IdsOf(nodes, names[0])|) + Reported(nodes, names[1..])
  }

  lemma {:induction false} IdsAreNodes(nodes: seq<Node>, name: string)
    ensures |IdsOf(nodes, name)| <= |nodes|
  {
    if nodes != [] {
      IdsAreNodes(nodes[..|nodes| - 1], name);
    }
  }

  lemma {:induction false} ReportedIsTotal(nodes: seq<Node>, names: seq<string>)
    requires |nodes| < 0x8000_0000
    ensures Reported(nodes, names) == Total(nodes, names)
    decreases |names|
  {
    if names != [] {
      IdsAreNodes(nodes, names[0]);
      ReportedIsTotal(nodes, names[1..]);
    }
  }

  /** The reported replicas of pools with distinct names add up to the number of nodes that carry one
      of the names, and for a single pool are the nodes that carry its name. */
  lemma {:induction false} ReplicasAreCountedOnce(nodes: seq<Node>, names: seq<string>)
    requires Distinct(names) && |nodes| < 0x8000_0000
    ensures Reported(nodes, names) == |set k: nat | k < |nodes| && nodes[k].poolLabel in names|
  {
    ReportedIsTotal(nodes, names);
    NodesAreCountedOnce(nodes, names);
    LabelledIsASet(nodes, names);
  }

  lemma {:induction false} LabelledIsASet(nodes: seq<Node>, names: seq<string>)
    ensures Labelled(nodes, names) == |set k: nat | k < |nodes| && nodes[k].poolLabel in names|
  {
    var all := set k: nat | k < |nodes| && nodes[k].poolLabel in names;
    if nodes == [] {
      assert all == {};
    } else {
      var n := |nodes| - 1;
      LabelledIsASet(nodes[..n], names);
      var fewer := set k: nat | k < |nodes[..n]| && nodes[..n][k].poolLabel in names;
      assert all == if nodes[n].poolLabel in names then fewer + {n} else fewer;
    }
  }

  lemma {:induction false} NoNodes(names: seq<string>)
    ensures Total([], names) == 0
    decreases |names|
  {
    if names != [] {
      NoNodes(names[1..]);
    }
  }

  /** The list is the ordered selection: an increasing choice of node positions, all with the label,
      leaving out none. */
  lemma {:induction false} IdsAreTheOrderedSelection(nodes: seq<Node>, name: string) returns (positions: seq<nat>)
    ensures |positions| == |IdsOf(nodes, name)|
    ensures forall i :: 0 <= i < |positions| ==>
      positions[i] < |nodes| && nodes[positions[i]].poolLabel == name && IdsOf(nodes, name)[i] == nodes[positions[i]].providerID
    ensures forall i, j :: 0 <= i < j < |positions| ==> positions[i] < positions[j]
    ensures forall k: nat :: k < |nodes| && nodes[k].poolLabel == name ==> k in positions
    decreases |nodes|
  {
    if nodes == [] {
      positions := [];
    } else {
      var n := |nodes| - 1;
      positions := IdsAreTheOrderedSelection(nodes[..n], name);
      if nodes[n].poolLabel == name {
        positions := positions + [n];
      }
    }
  }
}
