/** The breadth-first planning tree as a value: an arena of nodes addressed
    by index, the children list of every node, and the levels (lists of node
    indices, one list per depth). `Step` is what `Tree._add_level` does to it,
    `Grow` and `Built` what `Tree.build` does. */
module Planning {
  import opened Dicts
  import opened Trade

  datatype TreeState = TreeState(nodes: seq<Node>, children: seq<seq<nat>>, levels: seq<seq<nat>>)

  function Last<T>(s: seq<T>): T
    requires s != []
  {
    s[|s| - 1]
  }

  function Range(lo: nat, hi: nat): (r: seq<nat>)
    requires lo <= hi
    ensures |r| == hi - lo
    ensures forall i :: 0 <= i < |r| ==> r[i] == lo + i
  {
    seq(hi - lo, i requires 0 <= i < hi - lo => lo + i)
  }

  /** The levels read one after the other: the order in which
      `get_best_path` visits the nodes. */
  function Flatten(ls: seq<seq<nat>>): seq<nat>
  {
    if ls == [] then [] else Flatten(ls[..|ls| - 1]) + Last(ls)
  }

  /** `list(reversed(s))`. */
  function Reversed(s: seq<nat>): (r: seq<nat>)
    ensures |r| == |s|
    ensures forall i :: 0 <= i < |s| ==> r[i] == s[|s| - 1 - i]
  {
    seq(|s|, i requires 0 <= i < |s| => s[|s| - 1 - i])
  }

  /** Appending to a list and then reversing it puts the new element first:
      the chain that `get_best_path` grows upwards comes out root first. */
  lemma ReversedAppend(s: seq<nat>, x: nat)
    ensures Reversed(s + [x]) == [x] + Reversed(s)
  {
    var l, r := Reversed(s + [x]), [x] + Reversed(s);
    forall i | 0 <= i < |l| ensures l[i] == r[i] {
      if i > 0 {
        assert r[i] == Reversed(s)[i - 1];
      }
    }
  }

  /** Reversing twice gives the list back. */
  lemma ReversedTwice(s: seq<nat>)
    ensures Reversed(Reversed(s)) == s
  {
    var r := Reversed(Reversed(s));
    forall i | 0 <= i < |s| ensures r[i] == s[i] {
      assert r[i] == Reversed(s)[|s| - 1 - i];
    }
  }

  /** The tree right after `clear` and `_add_root`. */
  function Init(m: Merchant): TreeState
  {
    TreeState([Root(m)], [[]], [[0]])
  }

  /** Every node of `level` is in the arena and can be expanded. */
  ghost predicate LevelExpandable(nodes: seq<Node>, level: seq<nat>, stations: Dict<string, Station>) {
    forall j :: 0 <= j < |level| ==> level[j] < |nodes| && Expandable(nodes[level[j]], stations)
  }

  /** The travel loop of `_add_level` never passes on an unbound `good`:
      a node of `level` that has somewhere to move but enters neither the
      sell nor the buy loop comes after a node that entered one of them. */
  ghost predicate LevelTravelReady(nodes: seq<Node>, level: seq<nat>, stations: Dict<string, Station>) {
    forall j :: 0 <= j < |level| && level[j] < |nodes| && HasDestination(nodes[level[j]], stations)
                && !BindsGood(nodes[level[j]], stations) ==>
      exists i :: 0 <= i < j && level[i] < |nodes| && BindsGood(nodes[level[i]], stations)
  }

  /** `_add_level` raises nothing: every node of the last level can be
      expanded, and no move is made with `good` unbound. */
  ghost predicate LevelReady(t: TreeState, stations: Dict<string, Station>) {
    t.levels != [] && |t.children| == |t.nodes| && LevelExpandable(t.nodes, Last(t.levels), stations)
    && LevelTravelReady(t.nodes, Last(t.levels), stations)
  }

  /** `c` is a child of a node of `level` and inherits what it must from it. */
  ghost predicate Born(c: Node, nodes: seq<Node>, level: seq<nat>, stations: Dict<string, Station>) {
    c.parent.Some? && c.parent.value in level && c.parent.value < |nodes|
    && Heir(c, nodes[c.parent.value], c.parent.value, stations)
  }

  ghost predicate AllBorn(s: seq<Node>, nodes: seq<Node>, level: seq<nat>, stations: Dict<string, Station>) {
    forall k :: 0 <= k < |s| ==> Born(s[k], nodes, level, stations)
  }

  lemma AllBornConcat(a: seq<Node>, b: seq<Node>, nodes: seq<Node>, level: seq<nat>,
                      stations: Dict<string, Station>)
    requires AllBorn(a, nodes, level, stations) && AllBorn(b, nodes, level, stations)
    ensures AllBorn(a + b, nodes, level, stations)
  {
    forall k | 0 <= k < |a + b| ensures Born((a + b)[k], nodes, level, stations) {
      if k >= |a| {
        assert (a + b)[k] == b[k - |a|];
      }
    }
  }

  lemma AllBornWiden(s: seq<Node>, nodes: seq<Node>, level: seq<nat>, stations: Dict<string, Station>)
    requires level != [] && AllBorn(s, nodes, level[..|level| - 1], stations)
    ensures AllBorn(s, nodes, level, stations)
  {
    forall k | 0 <= k < |s| ensures Born(s[k], nodes, level, stations) {
      assert Born(s[k], nodes, level[..|level| - 1], stations);
      assert s[k].parent.value in level[..|level| - 1];
    }
  }

  /** The nodes `_add_level` makes for the nodes of `level`, in order. */
  function Offspring(nodes: seq<Node>, level: seq<nat>, stations: Dict<string, Station>): (r: seq<Node>)
    requires LevelExpandable(nodes, level, stations)
  {
    if level == [] then []
    else Offspring(nodes, level[..|level| - 1], stations) + Successors(nodes[Last(level)], Last(level), stations)
  }

  /** Every node of a level's offspring is a child of a node of that level
      and inherits what it must from it. */
  lemma {:induction false} OffspringBorn(nodes: seq<Node>, level: seq<nat>, stations: Dict<string, Station>)
    requires LevelExpandable(nodes, level, stations)
    ensures AllBorn(Offspring(nodes, level, stations), nodes, level, stations)
  {
    if level != [] {
      var init := level[..|level| - 1];
      var pi := Last(level);
      var r := Offspring(nodes, init, stations);
      var s := Successors(nodes[pi], pi, stations);
      OffspringBorn(nodes, init, stations);
      AllBornWiden(r, nodes, level, stations);
      SuccessorsHeirs(nodes[pi], pi, stations);
      assert AllBorn(s, nodes, level, stations) by {
        forall k | 0 <= k < |s| ensures Born(s[k], nodes, level, stations) {
          assert Heir(s[k], nodes[pi], pi, stations);
        }
      }
      AllBornConcat(r, s, nodes, level, stations);
    }
  }

  /** The indices in `lo..hi` of the nodes whose parent is `i`, in order. */
  function ChildrenIn(nodes: seq<Node>, i: nat, lo: nat, hi: nat): seq<nat>
    requires lo <= hi <= |nodes|
    decreases hi
  {
    if hi == lo then []
    else ChildrenIn(nodes, i, lo, hi - 1) + (if nodes[hi - 1].parent == Some(i) then [hi - 1] else [])
  }

  /** The children lists after nodes `n0..` were added: each earlier node's
      list gains the new nodes it is the parent of, in the order they were
      made; each new node starts with no children. */
  function Relink(children: seq<seq<nat>>, nodes: seq<Node>, n0: nat): (r: seq<seq<nat>>)
    requires |children| == n0 <= |nodes|
    ensures |r| == |nodes|
    ensures forall i :: 0 <= i < n0 ==> r[i] == children[i] + ChildrenIn(nodes, i, n0, |nodes|)
    ensures forall i :: n0 <= i < |nodes| ==> r[i] == []
  {
    seq(|nodes|, i requires 0 <= i < |nodes| =>
      if i < n0 then children[i] + ChildrenIn(nodes, i, n0, |nodes|) else [])
  }

  /** `Tree._add_level`: expand every node of the last level; a new level is
      added only when it is not empty. */
  function Step(t: TreeState, stations: Dict<string, Station>): (r: TreeState)
    requires LevelReady(t, stations)
  {
    var n0 := |t.nodes|;
    var level := Last(t.levels);
    var nodes := t.nodes + Offspring(t.nodes, level, stations);
    TreeState(nodes, Relink(t.children, nodes, n0),
              if |nodes| > n0 then t.levels + [Range(n0, |nodes|)] else t.levels)
  }

  // ---------------------------------------------------------------------
  // The invariant of a built tree

  /** Per node: a known station, money minus gain equal to the root's money,
      the root's goods, solvency when the root is solvent and prices are
      sane, and a parent made earlier, one level up. */
  ghost predicate NodeWf(nodes: seq<Node>, i: nat, stations: Dict<string, Station>)
    requires i < |nodes| && nodes != []
  {
    var n := nodes[i];
    n.currentStation in Keys(stations)
    && n.money - n.totalGain == nodes[0].money
    && Keys(n.stock) == Keys(nodes[0].stock)
    && (Sane(stations) && Solvent(nodes[0]) ==> Solvent(n))
    && (i > 0 ==> n.parent.Some? && n.parent.value < i && n.depth == nodes[n.parent.value].depth + 1)
  }

  ghost predicate NodesWf(nodes: seq<Node>, stations: Dict<string, Station>) {
    nodes != [] && nodes[0].parent == None && nodes[0].depth == 0 && nodes[0].totalGain == 0
    && Unique(nodes[0].stock) && StationsReady(stations, Keys(nodes[0].stock))
    && (nodes[0].stock.Entry? || |Keys(stations)| <= 1)
    && forall i :: 0 <= i < |nodes| ==> NodeWf(nodes, i, stations)
  }

  /** Level `k` is not empty and holds nodes of depth `k` whose parents are
      in level `k - 1`. */
  ghost predicate LevelWf(nodes: seq<Node>, levels: seq<seq<nat>>, k: nat)
    requires k < |levels|
  {
    levels[k] != []
    && forall j :: 0 <= j < |levels[k]| ==>
         levels[k][j] < |nodes| && nodes[levels[k][j]].depth == k
         && (0 < k ==> nodes[levels[k][j]].parent.Some? && nodes[levels[k][j]].parent.value in levels[k - 1])
  }

  ghost predicate LevelsWf(t: TreeState) {
    forall k :: 0 <= k < |t.levels| ==> LevelWf(t.nodes, t.levels, k)
  }

  /** Every node's children list holds exactly the nodes whose parent it is,
      in the order they were made. */
  ghost predicate LinksWf(t: TreeState)
    requires |t.children| == |t.nodes|
  {
    forall i :: 0 <= i < |t.nodes| ==> t.children[i] == ChildrenIn(t.nodes, i, 0, |t.nodes|)
  }

  ghost predicate Wf(t: TreeState, stations: Dict<string, Station>) {
    |t.children| == |t.nodes| && t.levels != [] && t.levels[0] == [0]
    && NodesWf(t.nodes, stations)
    && Flatten(t.levels) == Range(0, |t.nodes|)
    && LevelsWf(t) && LinksWf(t)
  }
}
