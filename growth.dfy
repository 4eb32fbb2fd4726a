/** `Tree.build` as a value, and the invariant of a built tree: levels are
    contiguous runs of the arena, level `k` holds the nodes of depth `k`,
    parents sit one level up, children lists match parent links, and money
    minus gain is the root's money everywhere. */
module Growth {
  import opened Dicts
  import opened Trade
  import opened Planning

  /** What `build` needs of its inputs so that no node raises `KeyError` or
      `ZeroDivisionError` (a sufficient condition, fixed before the build). */
  ghost predicate Ready(m: Merchant, stations: Dict<string, Station>) {
    Unique(m.stock) && m.currentStation in Keys(stations) && StationsReady(stations, Keys(m.stock))
    && (m.stock.Entry? || |Keys(stations)| <= 1)
  }

  // ---------------------------------------------------------------------
  // Children lists

  lemma {:induction false} ChildrenInPrefix(nodes: seq<Node>, ext: seq<Node>, i: nat, lo: nat, hi: nat)
    requires lo <= hi <= |nodes|
    ensures ChildrenIn(nodes + ext, i, lo, hi) == ChildrenIn(nodes, i, lo, hi)
    decreases hi
  {
    if hi > lo {
      ChildrenInPrefix(nodes, ext, i, lo, hi - 1);
      assert (nodes + ext)[hi - 1] == nodes[hi - 1];
    }
  }

  lemma {:induction false} ChildrenInSplit(nodes: seq<Node>, i: nat, lo: nat, mid: nat, hi: nat)
    requires lo <= mid <= hi <= |nodes|
    ensures ChildrenIn(nodes, i, lo, mid) + ChildrenIn(nodes, i, mid, hi) == ChildrenIn(nodes, i, lo, hi)
    decreases hi
  {
    if hi > mid {
      ChildrenInSplit(nodes, i, lo, mid, hi - 1);
    }
  }

  lemma {:induction false} ChildrenInNone(nodes: seq<Node>, i: nat, lo: nat, hi: nat)
    requires lo <= hi <= |nodes|
    requires forall j :: lo <= j < hi ==> nodes[j].parent != Some(i)
    ensures ChildrenIn(nodes, i, lo, hi) == []
    decreases hi
  {
    if hi > lo {
      ChildrenInNone(nodes, i, lo, hi - 1);
    }
  }

  // ---------------------------------------------------------------------
  // The invariant holds of the root and is kept by every level

  lemma InitWf(m: Merchant, stations: Dict<string, Station>)
    requires Ready(m, stations)
    ensures Wf(Init(m), stations)
  {
    var t := Init(m);
    assert Flatten(t.levels) == Flatten([]) + [0];
    assert NodeWf(t.nodes, 0, stations);
  }

  lemma WfReady(t: TreeState, stations: Dict<string, Station>)
    requires Wf(t, stations)
    ensures LevelReady(t, stations)
  {
    var level := Last(t.levels);
    assert LevelWf(t.nodes, t.levels, |t.levels| - 1);
    forall j | 0 <= j < |level|
      ensures level[j] < |t.nodes| && Expandable(t.nodes[level[j]], stations)
      ensures BindsGood(t.nodes[level[j]], stations) || !HasDestination(t.nodes[level[j]], stations)
    {
      var n := t.nodes[level[j]];
      assert NodeWf(t.nodes, level[j], stations);
      ReadyExpandable(n, stations, Keys(t.nodes[0].stock));
      if !n.stock.Entry? {
        assert Keys(n.stock) == [];
        NoDestination(n, stations);
      }
    }
  }

  lemma OldNodeWf(nodes: seq<Node>, off: seq<Node>, i: nat, stations: Dict<string, Station>)
    requires NodesWf(nodes, stations) && i < |nodes|
    ensures NodeWf(nodes + off, i, stations)
  {
    var all := nodes + off;
    assert NodeWf(nodes, i, stations);
    assert all[i] == nodes[i] && all[0] == nodes[0];
    if i > 0 {
      assert all[nodes[i].parent.value] == nodes[nodes[i].parent.value];
    }
  }

  lemma NewNodeWf(nodes: seq<Node>, off: seq<Node>, k: nat, level: seq<nat>, stations: Dict<string, Station>)
    requires NodesWf(nodes, stations) && k < |off| && Born(off[k], nodes, level, stations)
    ensures NodeWf(nodes + off, |nodes| + k, stations)
  {
    var all := nodes + off;
    var c := off[k];
    var pi := c.parent.value;
    assert all[|nodes| + k] == c;
    assert all[pi] == nodes[pi] && all[0] == nodes[0];
    assert NodeWf(nodes, 0, stations);
    assert NodeWf(nodes, pi, stations);
  }

  /** Appending children of existing nodes keeps every per-node fact. */
  lemma AppendNodesWf(nodes: seq<Node>, off: seq<Node>, level: seq<nat>, stations: Dict<string, Station>)
    requires NodesWf(nodes, stations) && AllBorn(off, nodes, level, stations)
    ensures NodesWf(nodes + off, stations)
  {
    var all := nodes + off;
    forall i | 0 <= i < |all| ensures NodeWf(all, i, stations) {
      if i < |nodes| {
        OldNodeWf(nodes, off, i, stations);
      } else {
        NewNodeWf(nodes, off, i - |nodes|, level, stations);
      }
    }
    assert all[0] == nodes[0];
  }

  /** A child of a node of the last level has the depth of the next level,
      and its parent is in the last level. */
  lemma NewLevelChild(t: TreeState, c: Node, stations: Dict<string, Station>)
    requires t.levels != [] && LevelsWf(t) && Born(c, t.nodes, Last(t.levels), stations)
    ensures c.depth == |t.levels| && c.parent.Some? && c.parent.value in Last(t.levels)
  {
    var level := Last(t.levels);
    var x :| 0 <= x < |level| && level[x] == c.parent.value;
    assert LevelWf(t.nodes, t.levels, |t.levels| - 1);
  }

  /** Level `k` of the grown tree, for `k` up to the new level, keeps the
      invariant. */
  lemma AppendLevelNodes(t: TreeState, off: seq<Node>, stations: Dict<string, Station>, k: nat)
    requires t.levels != [] && LevelsWf(t)
    requires off != [] && AllBorn(off, t.nodes, Last(t.levels), stations)
    requires k <= |t.levels|
    ensures var n0 := |t.nodes|;
            LevelWf(t.nodes + off, t.levels + [Range(n0, n0 + |off|)], k)
  {
    var n0 := |t.nodes|;
    var nodes, levels := t.nodes + off, t.levels + [Range(n0, n0 + |off|)];
    var m := |t.levels|;
    if k < m {
      assert levels[k] == t.levels[k];
      assert LevelWf(t.nodes, t.levels, k);
      if 0 < k {
        assert levels[k - 1] == t.levels[k - 1];
      }
      forall j | 0 <= j < |levels[k]| ensures nodes[levels[k][j]] == t.nodes[t.levels[k][j]] {
        assert t.levels[k][j] < n0;
      }
    } else {
      forall j | 0 <= j < |levels[k]|
        ensures levels[k][j] < |nodes| && nodes[levels[k][j]].depth == k
        ensures nodes[levels[k][j]].parent.Some? && nodes[levels[k][j]].parent.value in levels[k - 1]
      {
        assert levels[k][j] == n0 + j;
        assert nodes[n0 + j] == off[j];
        assert Born(off[j], t.nodes, Last(t.levels), stations);
        NewLevelChild(t, off[j], stations);
      }
      assert levels[k - 1] == Last(t.levels);
    }
  }

  /** A run of fresh indices appended as a level continues the level order. */
  lemma AppendFlatten(ls: seq<seq<nat>>, n0: nat, n1: nat)
    requires n0 <= n1 && Flatten(ls) == Range(0, n0)
    ensures Flatten(ls + [Range(n0, n1)]) == Range(0, n1)
  {
    assert (ls + [Range(n0, n1)])[..|ls|] == ls;
    assert Flatten(ls + [Range(n0, n1)]) == Range(0, n0) + Range(n0, n1);
  }

  /** Appending, as a new level, children of the last level keeps the facts
      about levels. */
  lemma AppendLevelWf(t: TreeState, off: seq<Node>, stations: Dict<string, Station>)
    requires t.levels != [] && LevelsWf(t) && Flatten(t.levels) == Range(0, |t.nodes|)
    requires off != [] && AllBorn(off, t.nodes, Last(t.levels), stations)
    ensures var r := TreeState(t.nodes + off, [], t.levels + [Range(|t.nodes|, |t.nodes| + |off|)]);
            Flatten(r.levels) == Range(0, |r.nodes|) && LevelsWf(r)
  {
    var n0, n1 := |t.nodes|, |t.nodes| + |off|;
    var r := TreeState(t.nodes + off, [], t.levels + [Range(n0, n1)]);
    AppendFlatten(t.levels, n0, n1);
    forall k | 0 <= k < |r.levels| ensures LevelWf(r.nodes, r.levels, k) {
      AppendLevelNodes(t, off, stations, k);
    }
  }

  /** Parents come before their children. */
  ghost predicate ParentsFirst(nodes: seq<Node>) {
    forall j :: 0 <= j < |nodes| && nodes[j].parent.Some? ==> nodes[j].parent.value < j
  }

  /** Relinking after appending children of existing nodes yields, for every
      node, the list of all nodes whose parent it is. */
  lemma RelinkWf(nodes: seq<Node>, children: seq<seq<nat>>, off: seq<Node>)
    requires |children| == |nodes| && ParentsFirst(nodes)
    requires forall i :: 0 <= i < |nodes| ==> children[i] == ChildrenIn(nodes, i, 0, |nodes|)
    requires forall k :: 0 <= k < |off| ==> off[k].parent.Some? && off[k].parent.value < |nodes|
    ensures var all := nodes + off; var r := Relink(children, all, |nodes|);
            forall i :: 0 <= i < |all| ==> r[i] == ChildrenIn(all, i, 0, |all|)
  {
    var all := nodes + off;
    var n0, n1 := |nodes|, |all|;
    var r := Relink(children, all, n0);
    forall i | 0 <= i < n1 ensures r[i] == ChildrenIn(all, i, 0, n1) {
      if i < n0 {
        ChildrenInPrefix(nodes, off, i, 0, n0);
        ChildrenInSplit(all, i, 0, n0, n1);
      } else {
        forall j | 0 <= j < n1 ensures all[j].parent != Some(i) {
          if j >= n0 {
            assert all[j] == off[j - n0];
          } else {
            assert all[j] == nodes[j];
          }
        }
        ChildrenInNone(all, i, 0, n1);
      }
    }
  }

  lemma NodesParentsFirst(nodes: seq<Node>, stations: Dict<string, Station>)
    requires NodesWf(nodes, stations)
    ensures ParentsFirst(nodes)
  {
    forall j | 0 <= j < |nodes| && nodes[j].parent.Some? ensures nodes[j].parent.value < j {
      assert NodeWf(nodes, j, stations);
    }
  }

  lemma BornParents(off: seq<Node>, nodes: seq<Node>, level: seq<nat>, stations: Dict<string, Station>)
    requires AllBorn(off, nodes, level, stations)
    ensures forall k :: 0 <= k < |off| ==> off[k].parent.Some? && off[k].parent.value < |nodes|
  {
    forall k | 0 <= k < |off| ensures off[k].parent.Some? && off[k].parent.value < |nodes| {
      assert Born(off[k], nodes, level, stations);
    }
  }

  /** `_add_level` keeps the invariant. */
  lemma StepWf(t: TreeState, stations: Dict<string, Station>)
    requires Wf(t, stations)
    ensures LevelReady(t, stations) && Wf(Step(t, stations), stations)
  {
    WfReady(t, stations);
    var level := Last(t.levels);
    var off := Offspring(t.nodes, level, stations);
    OffspringBorn(t.nodes, level, stations);
    var r := Step(t, stations);
    assert r.nodes == t.nodes + off;
    AppendNodesWf(t.nodes, off, level, stations);
    NodesParentsFirst(t.nodes, stations);
    BornParents(off, t.nodes, level, stations);
    RelinkWf(t.nodes, t.children, off);
    if off != [] {
      AppendLevelWf(t, off, stations);
      assert r.levels == t.levels + [Range(|t.nodes|, |t.nodes| + |off|)];
    } else {
      assert r.nodes == t.nodes && r.levels == t.levels;
    }
  }

  // ---------------------------------------------------------------------
  // `Tree.build`

  function Max(a: int, b: int): int {
    if a >= b then a else b
  }

  /** One `_add_level` on a well-formed tree: the arena and the levels grow
      at the end, by at most one level, and by none exactly when the last
      level has no offspring. */
  lemma StepShape(t: TreeState, stations: Dict<string, Station>)
    requires Wf(t, stations)
    ensures LevelReady(t, stations)
    ensures var s := Step(t, stations);
            Wf(s, stations) && LevelReady(s, stations)
            && |t.nodes| <= |s.nodes| && s.nodes[..|t.nodes|] == t.nodes
            && |t.levels| <= |s.levels| <= |t.levels| + 1 && s.levels[..|t.levels|] == t.levels
            && (|s.levels| == |t.levels| <==> Offspring(t.nodes, Last(t.levels), stations) == [])
            && (|s.levels| == |t.levels| ==> s.nodes == t.nodes && s.levels == t.levels)
  {
    StepWf(t, stations);
    var s := Step(t, stations);
    WfReady(s, stations);
    assert s.nodes[..|t.nodes|] == t.nodes;
    assert s.levels[..|t.levels|] == t.levels;
  }

  /** The loop of `build` from a tree whose last `_add_level` added a level:
      add levels while fewer than `maxDepth` exist, and stop as soon as one
      would be empty. */
  function Grow(t: TreeState, stations: Dict<string, Station>, maxDepth: int): (r: TreeState)
    requires Wf(t, stations)
    ensures Wf(r, stations)
    ensures |t.levels| <= |r.levels| <= Max(maxDepth, |t.levels|)
    ensures |t.nodes| <= |r.nodes| && r.nodes[..|t.nodes|] == t.nodes
    ensures r.levels[..|t.levels|] == t.levels
    ensures |r.levels| < maxDepth ==>
              LevelReady(r, stations) && Offspring(r.nodes, Last(r.levels), stations) == []
    decreases maxDepth - |t.levels|
  {
    if maxDepth > |t.levels| then
      StepShape(t, stations);
      var s := Step(t, stations);
      if |s.levels| == |t.levels| then s
      else
        var r := Grow(s, stations, maxDepth);
        PrefixTrans(t.nodes, s.nodes, r.nodes);
        PrefixTrans(t.levels, s.levels, r.levels);
        r
    else t
  }

  /** One round of the loop of `build`: once `maxDepth` levels exist the
      tree is grown; otherwise one `_add_level` either adds no level, and
      the tree is grown, or adds one and leaves the rest to the next round. */
  lemma GrowStep(t: TreeState, stations: Dict<string, Station>, maxDepth: int)
    requires Wf(t, stations)
    ensures LevelReady(t, stations)
    ensures maxDepth <= |t.levels| ==> Grow(t, stations, maxDepth) == t
    ensures maxDepth > |t.levels| ==>
              var s := Step(t, stations);
              Wf(s, stations) && |t.levels| <= |s.levels| <= |t.levels| + 1
              && (|s.levels| == |t.levels| ==> Grow(t, stations, maxDepth) == s)
              && (|s.levels| != |t.levels| ==> Grow(t, stations, maxDepth) == Grow(s, stations, maxDepth))
  {
    StepShape(t, stations);
  }

  lemma PrefixTrans<T>(a: seq<T>, b: seq<T>, c: seq<T>)
    requires |a| <= |b| <= |c| && b[..|a|] == a && c[..|b|] == b
    ensures c[..|a|] == a
  {
    assert c[..|a|] == c[..|b|][..|a|];
  }

  /** The tree `build(merchant, stations, max_depth)` leaves behind. */
  function Built(m: Merchant, stations: Dict<string, Station>, maxDepth: int): (r: TreeState)
    requires Ready(m, stations)
    ensures Wf(r, stations) && r.nodes[0] == Root(m) && r.levels[0] == [0]
    ensures 1 <= |r.levels| <= Max(maxDepth, 1)
    ensures |r.levels| < maxDepth ==>
              LevelReady(r, stations) && Offspring(r.nodes, Last(r.levels), stations) == []
  {
    InitWf(m, stations);
    Grow(Init(m), stations, maxDepth)
  }

  /** `build` starts growing from the root alone. */
  lemma BuiltFromInit(m: Merchant, stations: Dict<string, Station>, maxDepth: int)
    requires Ready(m, stations)
    ensures Wf(Init(m), stations) && Built(m, stations, maxDepth) == Grow(Init(m), stations, maxDepth)
  {
    InitWf(m, stations);
  }

  // ---------------------------------------------------------------------
  // Properties of a built tree

  lemma {:induction false} FlattenMember(ls: seq<seq<nat>>, x: nat) returns (k: nat, j: nat)
    requires x in Flatten(ls)
    ensures k < |ls| && j < |ls[k]| && ls[k][j] == x
  {
    var init := ls[..|ls| - 1];
    if x in Flatten(init) {
      k, j := FlattenMember(init, x);
      assert ls[k] == init[k];
    } else {
      k := |ls| - 1;
      var y :| 0 <= y < |Last(ls)| && Last(ls)[y] == x;
      j := y;
    }
  }

  /** Every node sits on the level of its depth, so no depth reaches the
      number of levels. */
  lemma DepthBound(t: TreeState, stations: Dict<string, Station>, i: nat)
    requires Wf(t, stations) && i < |t.nodes|
    ensures t.nodes[i].depth < |t.levels|
    ensures i in t.levels[t.nodes[i].depth]
  {
    assert Range(0, |t.nodes|)[i] == i;
    var k, j := FlattenMember(t.levels, i);
    assert LevelWf(t.nodes, t.levels, k);
  }

  /** Money minus total gain is the merchant's money at every node. */
  lemma BuiltConserves(m: Merchant, stations: Dict<string, Station>, maxDepth: int, i: nat)
    requires Ready(m, stations)
    requires i < |Built(m, stations, maxDepth).nodes|
    ensures var n := Built(m, stations, maxDepth).nodes[i]; n.money - n.totalGain == m.money
  {
    var t := Built(m, stations, maxDepth);
    assert NodeWf(t.nodes, i, stations);
  }

  /** With non-negative money and stock and sane prices, no node has negative
      money or negative stock. */
  lemma BuiltSolvent(m: Merchant, stations: Dict<string, Station>, maxDepth: int, i: nat)
    requires Ready(m, stations) && Sane(stations) && m.money >= 0 && NonNegStock(m.stock)
    requires i < |Built(m, stations, maxDepth).nodes|
    ensures Solvent(Built(m, stations, maxDepth).nodes[i])
  {
    var t := Built(m, stations, maxDepth);
    assert NodeWf(t.nodes, i, stations);
  }

  /** In a well-formed tree a node of level `k` has depth `k`; for `k > 0`
      its parent was made before it, sits on level `k - 1` and is one less
      deep. */
  lemma WfLevels(t: TreeState, stations: Dict<string, Station>, k: nat, j: nat)
    requires Wf(t, stations) && k < |t.levels| && j < |t.levels[k]|
    ensures var i := t.levels[k][j];
            i < |t.nodes| && t.nodes[i].depth == k
            && (k > 0 ==> t.nodes[i].parent.Some? && t.nodes[i].parent.value in t.levels[k - 1]
                          && t.nodes[i].parent.value < i && t.nodes[t.nodes[i].parent.value].depth == k - 1)
  {
    assert LevelWf(t.nodes, t.levels, k);
    if k > 0 {
      assert NodeWf(t.nodes, t.levels[k][j], stations);
    }
  }

  /** The levels of a built tree: level `k` holds nodes of depth `k` whose
      parents, made earlier, are on level `k - 1`. */
  lemma BuiltLevels(m: Merchant, stations: Dict<string, Station>, maxDepth: int, k: nat, j: nat)
    requires Ready(m, stations)
    requires k < |Built(m, stations, maxDepth).levels| && j < |Built(m, stations, maxDepth).levels[k]|
    ensures var t := Built(m, stations, maxDepth); var i := t.levels[k][j];
            i < |t.nodes| && t.nodes[i].depth == k
            && (k > 0 ==> t.nodes[i].parent.Some? && t.nodes[i].parent.value in t.levels[k - 1]
                          && t.nodes[i].parent.value < i && t.nodes[t.nodes[i].parent.value].depth == k - 1)
  {
    WfLevels(Built(m, stations, maxDepth), stations, k, j);
  }
}
