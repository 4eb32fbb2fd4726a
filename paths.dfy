/** What `Tree.get_best_path` promises: a chain of parent links from a root
    down to the first node, in level order, whose total gain is maximal,
    provided that gain is positive; the first root otherwise. */
module Paths {
  import opened Dicts
  import opened Trade
  import opened Planning
  import opened Growth

  /** All indices of `order` address the arena. */
  ghost predicate InArena(nodes: seq<Node>, order: seq<nat>) {
    forall p :: 0 <= p < |order| ==> order[p] < |nodes|
  }

  /** What `get_best_path` needs: a first level with a first node, levels
      inside the arena, and parent links that always lead to an earlier
      node, so that following them ends. */
  ghost predicate PathReady(nodes: seq<Node>, levels: seq<seq<nat>>) {
    levels != [] && levels[0] != []
    && (forall k :: 0 <= k < |levels| ==> InArena(nodes, levels[k]))
    && ParentsFirst(nodes)
  }

  /** Depths count parent links: a root has depth 0, a child one more than
      its parent. */
  ghost predicate DepthsCount(nodes: seq<Node>) {
    forall i :: 0 <= i < |nodes| ==>
      if nodes[i].parent.None? then nodes[i].depth == 0
      else nodes[i].parent.value < |nodes|
           && nodes[i].depth == nodes[nodes[i].parent.value].depth + 1
  }

  /** `path` starts at a node without parent, and each later node is a child
      of the one before it. */
  ghost predicate IsChain(nodes: seq<Node>, path: seq<nat>) {
    path != [] && path[0] < |nodes| && nodes[path[0]].parent.None?
    && forall i :: 0 < i < |path| ==> path[i] < |nodes| && nodes[path[i]].parent == Some(path[i - 1])
  }

  /** Some node of `order` has a positive total gain. */
  ghost predicate BeatsZero(nodes: seq<Node>, order: seq<nat>)
    requires InArena(nodes, order)
  {
    exists p :: 0 <= p < |order| && nodes[order[p]].totalGain > 0
  }

  /** Position `q` holds a maximal gain of `order`, and no earlier position
      holds it. */
  ghost predicate FirstMax(nodes: seq<Node>, order: seq<nat>, q: nat)
    requires InArena(nodes, order)
  {
    q < |order|
    && (forall p :: 0 <= p < |order| ==> nodes[order[p]].totalGain <= nodes[order[q]].totalGain)
    && (forall p :: 0 <= p < q ==> nodes[order[p]].totalGain < nodes[order[q]].totalGain)
  }

  lemma FlattenInArena(nodes: seq<Node>, ls: seq<seq<nat>>)
    requires forall k :: 0 <= k < |ls| ==> InArena(nodes, ls[k])
    ensures InArena(nodes, Flatten(ls))
  {
    forall p | 0 <= p < |Flatten(ls)| ensures Flatten(ls)[p] < |nodes| {
      var k, j := FlattenMember(ls, Flatten(ls)[p]);
      assert InArena(nodes, ls[k]);
    }
  }

  /** A chain's nodes have the depths of their positions in it, so its
      length is one more than the depth of its last node. */
  lemma {:induction false} ChainDepth(nodes: seq<Node>, path: seq<nat>)
    requires IsChain(nodes, path) && DepthsCount(nodes)
    ensures nodes[Last(path)].depth == |path| - 1
  {
    if |path| == 1 {
      assert nodes[path[0]].depth == 0;
    } else {
      var init := path[..|path| - 1];
      assert IsChain(nodes, init);
      ChainDepth(nodes, init);
      assert nodes[Last(path)].parent == Some(Last(init));
    }
  }

  /** A chain is a single node exactly when its last node has no parent. */
  lemma ChainRoot(nodes: seq<Node>, path: seq<nat>)
    requires IsChain(nodes, path)
    ensures |path| == 1 <==> nodes[Last(path)].parent.None?
  {
    if |path| > 1 {
      assert nodes[path[|path| - 1]].parent == Some(path[|path| - 2]);
    }
  }

  /** Two chains that end at the same node are the same chain: the path to a
      node is determined by the parent links. */
  lemma {:induction false} ChainUnique(nodes: seq<Node>, a: seq<nat>, b: seq<nat>)
    requires IsChain(nodes, a) && IsChain(nodes, b) && Last(a) == Last(b)
    ensures a == b
    decreases |a|
  {
    ChainRoot(nodes, a);
    ChainRoot(nodes, b);
    if nodes[Last(a)].parent.None? {
      assert a == [Last(a)] && b == [Last(b)];
    } else {
      var a', b' := a[..|a| - 1], b[..|b| - 1];
      assert IsChain(nodes, a') && IsChain(nodes, b');
      assert nodes[Last(a)].parent == Some(Last(a'));
      assert nodes[Last(b)].parent == Some(Last(b'));
      ChainUnique(nodes, a', b');
      assert a == a' + [Last(a)] && b == b' + [Last(b)];
    }
  }

  /** A built tree meets what `get_best_path` needs, its depths count parent
      links, and its only node without parent is the root. */
  lemma WfPathReady(t: TreeState, stations: Dict<string, Station>)
    requires Wf(t, stations)
    ensures PathReady(t.nodes, t.levels) && DepthsCount(t.nodes)
    ensures forall i :: 0 <= i < |t.nodes| && t.nodes[i].parent.None? ==> i == 0
  {
    NodesParentsFirst(t.nodes, stations);
    forall k | 0 <= k < |t.levels| ensures InArena(t.nodes, t.levels[k]) {
      assert LevelWf(t.nodes, t.levels, k);
    }
    forall i | 0 <= i < |t.nodes|
      ensures if t.nodes[i].parent.None? then t.nodes[i].depth == 0
              else t.nodes[i].parent.value < |t.nodes|
                   && t.nodes[i].depth == t.nodes[t.nodes[i].parent.value].depth + 1
    {
      assert NodeWf(t.nodes, i, stations);
    }
    forall i | 0 <= i < |t.nodes| && t.nodes[i].parent.None? ensures i == 0 {
      assert NodeWf(t.nodes, i, stations);
    }
  }
}
