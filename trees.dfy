/** `Tree` of trade-sim/main.py as an object. Its nodes live in an arena
    (`nodes`), addressed by index; `children[i]` is node `i`'s list of
    children and `levels` its list of levels, as in the source. Each method
    is proved against the value-level model: `AddLevel` against `Step`,
    `Build` against `Built`, `GetBestPath` against the path predicates. */
module Trees {
  import opened Dicts
  import opened Trade
  import opened Planning
  import opened Growth
  import opened Paths

  /** `children` are the lists `children0` of the first `n0` nodes, extended
      by the nodes added since. */
  ghost predicate Linked(children0: seq<seq<nat>>, children: seq<seq<nat>>, nodes: seq<Node>, n0: nat) {
    |children0| == n0 <= |nodes| && children == Relink(children0, nodes, n0)
  }

  /** Adding a child of an earlier node `pi` appends its index to the list
      of `pi` and gives it an empty list of its own. */
  lemma RelinkAppend(children0: seq<seq<nat>>, nodes: seq<Node>, n0: nat, c: Node, pi: nat)
    requires |children0| == n0 <= |nodes| && c.parent == Some(pi) && pi < n0
    ensures var r := Relink(children0, nodes, n0);
            Relink(children0, nodes + [c], n0) == r[pi := r[pi] + [|nodes|]] + [[]]
  {
    var r := Relink(children0, nodes, n0);
    var r' := Relink(children0, nodes + [c], n0);
    var e := r[pi := r[pi] + [|nodes|]] + [[]];
    forall i | 0 <= i < |r'| ensures r'[i] == e[i] {
      if i < n0 {
        ChildrenInPrefix(nodes, [c], i, n0, |nodes|);
        assert (nodes + [c])[|nodes|] == c;
      }
    }
  }

  /** `Linked` survives adding a child of an earlier node. */
  lemma LinkedAppend(children0: seq<seq<nat>>, children: seq<seq<nat>>, nodes: seq<Node>, n0: nat,
                     c: Node, pi: nat)
    requires Linked(children0, children, nodes, n0) && c.parent == Some(pi) && pi < n0
    ensures Linked(children0, children[pi := children[pi] + [|nodes|]] + [[]], nodes + [c], n0)
  {
    RelinkAppend(children0, nodes, n0, c, pi);
  }

  /** One more stock entry adds at most its sale child: what is still to
      be made shrinks by that entry. */
  lemma SellsNext(base: seq<Node>, nodes: seq<Node>, node: Node, pi: nat, station: Station,
                  rest: Dict<Good, int>)
    requires rest.Entry? && Suffix(rest, node.stock) && SellsReady(rest, station)
    requires SellsReady(node.stock, station)
    requires nodes + SellChildren(node, pi, station, rest) == base + SellChildren(node, pi, station, node.stock)
    ensures Suffix(rest.rest, node.stock) && SellsReady(rest.rest, station) && rest.key in Keys(node.stock)
    ensures rest.value > 0 ==> rest.key in Keys(station.buyPrizes)
    ensures (if rest.value > 0 then nodes + [SellChild(node, pi, rest.key, station)] else nodes)
            + SellChildren(node, pi, station, rest.rest)
            == base + SellChildren(node, pi, station, node.stock)
  {
    SuffixKey(rest, node.stock);
    if rest.value > 0 {
      var c := SellChild(node, pi, rest.key, station);
      assert nodes + [c] + SellChildren(node, pi, station, rest.rest)
             == nodes + ([c] + SellChildren(node, pi, station, rest.rest));
    }
  }

  /** One more price entry adds at most its purchase child. */
  lemma BuysNext(base: seq<Node>, nodes: seq<Node>, node: Node, pi: nat, station: Station,
                 rest: Dict<Good, int>)
    requires rest.Entry? && Suffix(rest, station.sellPrizes) && BuysReady(node, station, rest)
    requires BuysReady(node, station, station.sellPrizes)
    requires nodes + BuyChildren(node, pi, station, rest)
             == base + BuyChildren(node, pi, station, station.sellPrizes)
    ensures Suffix(rest.rest, station.sellPrizes) && BuysReady(node, station, rest.rest)
    ensures rest.value <= node.money ==>
              rest.key in Keys(node.stock) && rest.key in Keys(station.sellPrizes)
              && Get(station.sellPrizes, rest.key).value != 0
    ensures (if rest.value <= node.money then nodes + [BuyChild(node, pi, rest.key, station)] else nodes)
            + BuyChildren(node, pi, station, rest.rest)
            == base + BuyChildren(node, pi, station, station.sellPrizes)
  {
    SuffixKey(rest, station.sellPrizes);
    if rest.value <= node.money {
      var c := BuyChild(node, pi, rest.key, station);
      assert nodes + [c] + BuyChildren(node, pi, station, rest.rest)
             == nodes + ([c] + BuyChildren(node, pi, station, rest.rest));
    }
  }

  /** One more station adds at most its move child. */
  lemma MovesNext(base: seq<Node>, nodes: seq<Node>, node: Node, pi: nat, stations: Dict<string, Station>,
                  rest: Dict<string, Station>)
    requires rest.Entry? && Suffix(rest, stations)
    requires nodes + TravelChildren(node, pi, stations, rest) == base + TravelChildren(node, pi, stations, stations)
    ensures Suffix(rest.rest, stations)
    ensures (if rest.key != node.currentStation && node.money >= TravelCost
             then nodes + [TravelChild(node, pi, rest.key)] else nodes)
            + TravelChildren(node, pi, stations, rest.rest)
            == base + TravelChildren(node, pi, stations, stations)
  {
    SuffixKey(rest, stations);
    if rest.key != node.currentStation && node.money >= TravelCost {
      var c := TravelChild(node, pi, rest.key);
      assert nodes + [c] + TravelChildren(node, pi, stations, rest.rest)
             == nodes + ([c] + TravelChildren(node, pi, stations, rest.rest));
    }
  }

  lemma AppendAssoc<T>(n1: seq<T>, n2: seq<T>, n3: seq<T>, a: seq<T>, b: seq<T>)
    requires n2 == n1 + a && n3 == n2 + b
    ensures n3 == n1 + (a + b)
  {
  }

  /** Four appends in a row append the four pieces at once. */
  lemma AppendChain<T>(n1: seq<T>, n2: seq<T>, n3: seq<T>, n4: seq<T>, n5: seq<T>,
                       a: seq<T>, b: seq<T>, c: seq<T>, d: seq<T>)
    requires n2 == n1 + a && n3 == n2 + b && n4 == n3 + c && n5 == n4 + d
    ensures n5 == n1 + (a + b + c + d)
  {
  }

  /** Before any node is added, relinking changes no children list. */
  lemma RelinkNone(children: seq<seq<nat>>, nodes: seq<Node>)
    requires |children| == |nodes|
    ensures Relink(children, nodes, |nodes|) == children
  {
    var r := Relink(children, nodes, |nodes|);
    forall i | 0 <= i < |nodes| ensures r[i] == children[i] {
      assert ChildrenIn(nodes, i, |nodes|, |nodes|) == [];
    }
  }

  /** The offspring of one more node of a level are that node's successors. */
  lemma OffspringNext(nodes: seq<Node>, level: seq<nat>, j: nat, stations: Dict<string, Station>)
    requires j < |level| && LevelExpandable(nodes, level, stations)
    ensures LevelExpandable(nodes, level[..j], stations) && LevelExpandable(nodes, level[..j + 1], stations)
    ensures Offspring(nodes, level[..j + 1], stations)
            == Offspring(nodes, level[..j], stations) + Successors(nodes[level[j]], level[j], stations)
  {
    assert level[..j + 1][..j] == level[..j];
  }

  lemma RangeAppend(lo: nat, hi: nat)
    requires lo <= hi
    ensures Range(lo, hi) + [hi] == Range(lo, hi + 1)
  {
  }

  /** Parent links followed from a node up to a root, reversed, form a
      chain from that root down to the node. */
  lemma ReversedChain(nodes: seq<Node>, chain: seq<nat>)
    requires chain != [] && forall i :: 0 <= i < |chain| ==> chain[i] < |nodes|
    requires forall i :: 0 < i < |chain| ==> nodes[chain[i - 1]].parent == Some(chain[i])
    requires nodes[Last(chain)].parent.None?
    ensures IsChain(nodes, Reversed(chain)) && Last(Reversed(chain)) == chain[0]
  {
    var path := Reversed(chain);
    forall i | 0 < i < |path| ensures path[i] < |nodes| && nodes[path[i]].parent == Some(path[i - 1]) {
      var k := |chain| - i;
      assert path[i] == chain[k - 1] && path[i - 1] == chain[k];
    }
  }

  class Tree {
    var nodes: seq<Node>
    var children: seq<seq<nat>>
    var levels: seq<seq<nat>>

    ghost function Abs(): TreeState
      reads this
    {
      TreeState(nodes, children, levels)
    }

    constructor()
      ensures nodes == [] && children == [] && levels == []
    {
      nodes := [];
      children := [];
      levels := [];
    }

    /** `clear`: no levels, and with them no reachable nodes. */
    method Clear()
      modifies this
      ensures nodes == [] && children == [] && levels == []
    {
      nodes := [];
      children := [];
      levels := [];
    }

    /** `_add_root`: a node made from the merchant, alone on a new level. */
    method AddRoot(m: Merchant)
      modifies this
      ensures nodes == old(nodes) + [Root(m)]
      ensures children == old(children) + [[]]
      ensures levels == old(levels) + [[|old(nodes)|]]
    {
      var idx := |nodes|;
      nodes := nodes + [Root(m)];
      children := children + [[]];
      levels := levels + [[idx]];
    }

    /** `_add_sell_node`: a new node selling all of `good`, registered as the
        last child of node `pi`. */
    method AddSellNode(pi: nat, good: Good, station: Station) returns (idx: nat)
      requires pi < |nodes| == |children|
      requires good in Keys(nodes[pi].stock) && good in Keys(station.buyPrizes)
      modifies this
      ensures idx == |old(nodes)|
      ensures nodes == old(nodes) + [SellChild(old(nodes)[pi], pi, good, station)]
      ensures children == old(children)[pi := old(children)[pi] + [idx]] + [[]]
      ensures levels == old(levels)
    {
      idx := |nodes|;
      nodes := nodes + [SellChild(nodes[pi], pi, good, station)];
      children := children[pi := children[pi] + [idx]] + [[]];
    }

    /** `_add_buy_node`: a new node spending what it can on `good`,
        registered as the last child of node `pi`. */
    method AddBuyNode(pi: nat, good: Good, station: Station) returns (idx: nat)
      requires pi < |nodes| == |children|
      requires good in Keys(nodes[pi].stock) && good in Keys(station.sellPrizes)
      requires Get(station.sellPrizes, good).value != 0
      modifies this
      ensures idx == |old(nodes)|
      ensures nodes == old(nodes) + [BuyChild(old(nodes)[pi], pi, good, station)]
      ensures children == old(children)[pi := old(children)[pi] + [idx]] + [[]]
      ensures levels == old(levels)
    {
      idx := |nodes|;
      nodes := nodes + [BuyChild(nodes[pi], pi, good, station)];
      children := children[pi := children[pi] + [idx]] + [[]];
    }

    /** `_add_travel_node`: a new node at `destination`, registered as the
        last child of node `pi`. */
    method AddTravelNode(pi: nat, destination: string) returns (idx: nat)
      requires pi < |nodes| == |children|
      modifies this
      ensures idx == |old(nodes)|
      ensures nodes == old(nodes) + [TravelChild(old(nodes)[pi], pi, destination)]
      ensures children == old(children)[pi := old(children)[pi] + [idx]] + [[]]
      ensures levels == old(levels)
    {
      idx := |nodes|;
      nodes := nodes + [TravelChild(nodes[pi], pi, destination)];
      children := children[pi := children[pi] + [idx]] + [[]];
    }

    /** `_add_do_nothing_node`: a new idle node, registered as the last child
        of node `pi`. */
    method AddDoNothingNode(pi: nat) returns (idx: nat)
      requires pi < |nodes| == |children|
      modifies this
      ensures idx == |old(nodes)|
      ensures nodes == old(nodes) + [IdleChild(old(nodes)[pi], pi)]
      ensures children == old(children)[pi := old(children)[pi] + [idx]] + [[]]
      ensures levels == old(levels)
    {
      idx := |nodes|;
      nodes := nodes + [IdleChild(nodes[pi], pi)];
      children := children[pi := children[pi] + [idx]] + [[]];
    }

    /** The `# sell` loop of `_add_level` for node `pi`. */
    method AddSells(pi: nat, station: Station, ghost n0: nat, ghost children0: seq<seq<nat>>,
                    newLevel: seq<nat>) returns (level': seq<nat>)
      requires pi < n0 && Linked(children0, children, nodes, n0) && newLevel == Range(n0, |nodes|)
      requires SellsReady(nodes[pi].stock, station)
      modifies this
      ensures Linked(children0, children, nodes, n0) && level' == Range(n0, |nodes|)
      ensures nodes == old(nodes) + SellChildren(old(nodes)[pi], pi, station, old(nodes)[pi].stock)
      ensures levels == old(levels)
    {
      var node := nodes[pi];
      ghost var base := nodes;
      level' := newLevel;
      var rest := node.stock;
      while rest.Entry?
        invariant Suffix(rest, node.stock) && SellsReady(rest, station)
        invariant nodes + SellChildren(node, pi, station, rest) == base + SellChildren(node, pi, station, node.stock)
        invariant pi < |nodes| && nodes[pi] == node
        invariant Linked(children0, children, nodes, n0) && level' == Range(n0, |nodes|)
        invariant levels == old(levels)
        decreases rest
      {
        SellsNext(base, nodes, node, pi, station, rest);
        if rest.value > 0 {
          ghost var before, links := nodes, children;
          var idx := AddSellNode(pi, rest.key, station);
          LinkedAppend(children0, links, before, n0, SellChild(node, pi, rest.key, station), pi);
          RangeAppend(n0, idx);
          level' := level' + [idx];
        }
        rest := rest.rest;
      }
    }

    /** The `# buy` loop of `_add_level` for node `pi`. */
    method AddBuys(pi: nat, station: Station, ghost n0: nat, ghost children0: seq<seq<nat>>,
                   newLevel: seq<nat>) returns (level': seq<nat>)
      requires pi < n0 && Linked(children0, children, nodes, n0) && newLevel == Range(n0, |nodes|)
      requires BuysReady(nodes[pi], station, station.sellPrizes)
      modifies this
      ensures Linked(children0, children, nodes, n0) && level' == Range(n0, |nodes|)
      ensures nodes == old(nodes) + BuyChildren(old(nodes)[pi], pi, station, station.sellPrizes)
      ensures levels == old(levels)
    {
      var node := nodes[pi];
      ghost var base := nodes;
      level' := newLevel;
      var rest := station.sellPrizes;
      while rest.Entry?
        invariant Suffix(rest, station.sellPrizes) && BuysReady(node, station, rest)
        invariant nodes + BuyChildren(node, pi, station, rest)
                  == base + BuyChildren(node, pi, station, station.sellPrizes)
        invariant pi < |nodes| && nodes[pi] == node
        invariant Linked(children0, children, nodes, n0) && level' == Range(n0, |nodes|)
        invariant levels == old(levels)
        decreases rest
      {
        BuysNext(base, nodes, node, pi, station, rest);
        if rest.value <= node.money {
          ghost var before, links := nodes, children;
          var idx := AddBuyNode(pi, rest.key, station);
          LinkedAppend(children0, links, before, n0, BuyChild(node, pi, rest.key, station), pi);
          RangeAppend(n0, idx);
          level' := level' + [idx];
        }
        rest := rest.rest;
      }
    }

    /** The `# travel` loop of `_add_level` for node `pi`. */
    method AddMoves(pi: nat, stations: Dict<string, Station>, ghost n0: nat, ghost children0: seq<seq<nat>>,
                    newLevel: seq<nat>) returns (level': seq<nat>)
      requires pi < n0 && Linked(children0, children, nodes, n0) && newLevel == Range(n0, |nodes|)
      modifies this
      ensures Linked(children0, children, nodes, n0) && level' == Range(n0, |nodes|)
      ensures nodes == old(nodes) + TravelChildren(old(nodes)[pi], pi, stations, stations)
      ensures levels == old(levels)
    {
      var node := nodes[pi];
      ghost var base := nodes;
      level' := newLevel;
      var rest := stations;
      while rest.Entry?
        invariant Suffix(rest, stations)
        invariant nodes + TravelChildren(node, pi, stations, rest) == base + TravelChildren(node, pi, stations, stations)
        invariant pi < |nodes| && nodes[pi] == node
        invariant Linked(children0, children, nodes, n0) && level' == Range(n0, |nodes|)
        invariant levels == old(levels)
        decreases rest
      {
        MovesNext(base, nodes, node, pi, stations, rest);
        if rest.key != node.currentStation && node.money >= TravelCost {
          ghost var before, links := nodes, children;
          var idx := AddTravelNode(pi, rest.key);
          LinkedAppend(children0, links, before, n0, TravelChild(node, pi, rest.key), pi);
          RangeAppend(n0, idx);
          level' := level' + [idx];
        }
        rest := rest.rest;
      }
    }

    /** The `# do nothing` step of `_add_level` for node `pi`. */
    method AddIdle(pi: nat, ghost n0: nat, ghost children0: seq<seq<nat>>,
                   newLevel: seq<nat>) returns (level': seq<nat>)
      requires pi < n0 && Linked(children0, children, nodes, n0) && newLevel == Range(n0, |nodes|)
      modifies this
      ensures Linked(children0, children, nodes, n0) && level' == Range(n0, |nodes|)
      ensures nodes == old(nodes) + IdleChildren(old(nodes)[pi], pi)
      ensures levels == old(levels)
    {
      var node := nodes[pi];
      level' := newLevel;
      if node.money >= DoNothingCost {
        ghost var before, links := nodes, children;
        var idx := AddDoNothingNode(pi);
        LinkedAppend(children0, links, before, n0, IdleChild(node, pi), pi);
        RangeAppend(n0, idx);
        level' := level' + [idx];
      }
    }

    /** The body of the loop of `_add_level` for node `pi`: its sales,
        purchases, moves and idling, in that order. */
    method AddSuccessors(pi: nat, stations: Dict<string, Station>, ghost n0: nat,
                         ghost children0: seq<seq<nat>>, newLevel: seq<nat>) returns (level': seq<nat>)
      requires pi < n0 && Linked(children0, children, nodes, n0) && newLevel == Range(n0, |nodes|)
      requires Expandable(nodes[pi], stations)
      modifies this
      ensures Linked(children0, children, nodes, n0) && level' == Range(n0, |nodes|)
      ensures nodes == old(nodes) + Successors(old(nodes)[pi], pi, stations)
      ensures levels == old(levels)
    {
      var node := nodes[pi];
      var station := Get(stations, node.currentStation).value;
      ghost var n1 := nodes;
      level' := AddSells(pi, station, n0, children0, newLevel);
      ghost var n2 := nodes;
      level' := AddBuys(pi, station, n0, children0, level');
      ghost var n3 := nodes;
      level' := AddMoves(pi, stations, n0, children0, level');
      ghost var n4 := nodes;
      level' := AddIdle(pi, n0, children0, level');
      SuccessorsSplit(node, pi, stations);
      AppendChain(n1, n2, n3, n4, nodes, SellChildren(node, pi, station, node.stock),
                  BuyChildren(node, pi, station, station.sellPrizes),
                  TravelChildren(node, pi, stations, stations), IdleChildren(node, pi));
    }

    /** The loop of `_add_level` over the nodes of `last`: each one's
        successors are appended, in order, and linked to their parents. */
    method ExpandLevel(last: seq<nat>, stations: Dict<string, Station>) returns (newLevel: seq<nat>)
      requires |children| == |nodes| && LevelExpandable(nodes, last, stations)
      modifies this
      ensures nodes == old(nodes) + Offspring(old(nodes), last, stations)
      ensures children == Relink(old(children), nodes, |old(nodes)|)
      ensures newLevel == Range(|old(nodes)|, |nodes|) && levels == old(levels)
    {
      ghost var nodes0, children0 := nodes, children;
      var n0 := |nodes|;
      newLevel := [];
      var j := 0;
      assert last[..0] == [];
      RelinkNone(children0, nodes);
      while j < |last|
        invariant 0 <= j <= |last|
        invariant LevelExpandable(nodes0, last[..j], stations)
        invariant nodes == nodes0 + Offspring(nodes0, last[..j], stations)
        invariant Linked(children0, children, nodes, n0) && newLevel == Range(n0, |nodes|)
        invariant levels == old(levels)
      {
        var pi := last[j];
        OffspringNext(nodes0, last, j, stations);
        assert nodes[pi] == nodes0[pi];
        ghost var before := nodes;
        newLevel := AddSuccessors(pi, stations, n0, children0, newLevel);
        AppendAssoc(nodes0, before, nodes, Offspring(nodes0, last[..j], stations),
                    Successors(nodes0[pi], pi, stations));
        j := j + 1;
      }
      assert last[..j] == last;
    }

    /** `_add_level`: expand every node of the last level, in order, and
        append the new nodes as a level when there are any. */
    method AddLevel(stations: Dict<string, Station>)
      requires LevelReady(Abs(), stations)
      modifies this
      ensures Abs() == Step(old(Abs()), stations)
    {
      var newLevel := ExpandLevel(levels[|levels| - 1], stations);
      if |newLevel| > 0 {
        levels := levels + [newLevel];
      }
    }

    /** `build`: start from the merchant's root and add levels while fewer
        than `maxDepth` exist and the previous call added one. */
    method Build(m: Merchant, stations: Dict<string, Station>, maxDepth: int)
      requires Ready(m, stations)
      modifies this
      ensures Abs() == Built(m, stations, maxDepth)
    {
      var lastLevel := 0;
      Clear();
      AddRoot(m);
      assert Abs() == Init(m);
      BuiltFromInit(m, stations, maxDepth);
      while maxDepth > |levels| && lastLevel != |levels|
        invariant Wf(Abs(), stations)
        invariant lastLevel != |levels| ==> Grow(Abs(), stations, maxDepth) == Built(m, stations, maxDepth)
        invariant lastLevel == |levels| ==> Abs() == Built(m, stations, maxDepth)
        decreases maxDepth - |levels|, if lastLevel != |levels| then 1 else 0
      {
        ghost var t := Abs();
        GrowStep(t, stations, maxDepth);
        lastLevel := |levels|;
        AddLevel(stations);
      }
      GrowStep(Abs(), stations, maxDepth);
    }

    /** The scan of `get_best_path`: the first node, in level order, whose
        total gain beats every earlier one and zero; the first root when no
        gain is positive. */
    method BestNode() returns (best: nat)
      requires PathReady(nodes, levels)
      ensures best < |nodes| && InArena(nodes, Flatten(levels))
      ensures BeatsZero(nodes, Flatten(levels)) ==>
                exists q: nat :: FirstMax(nodes, Flatten(levels), q) && Flatten(levels)[q] == best
      ensures !BeatsZero(nodes, Flatten(levels)) ==> best == levels[0][0]
    {
      FlattenInArena(nodes, levels);
      var maxGain: int := 0;
      best := levels[0][0];
      assert InArena(nodes, levels[0]);
      ghost var q: nat := 0;
      ghost var seen: seq<nat> := [];
      var k := 0;
      while k < |levels|
        invariant 0 <= k <= |levels|
        invariant seen == Flatten(levels[..k])
        invariant InArena(nodes, seen) && best < |nodes|
        invariant Picked(nodes, seen, best, maxGain, q, levels[0][0])
      {
        assert InArena(nodes, levels[k]);
        best, maxGain, q := ScanLevel(levels[k], seen, best, maxGain, q, levels[0][0]);
        seen := seen + levels[k];
        assert levels[..k + 1][..k] == levels[..k];
        k := k + 1;
      }
      assert levels[..k] == levels;
      PickedResult(nodes, seen, best, maxGain, q, levels[0][0]);
    }

    /** The inner loop of the scan, over the nodes of one level. */
    method ScanLevel(level: seq<nat>, ghost seen: seq<nat>, best: nat, maxGain: int, ghost q: nat, ghost root: nat)
      returns (best': nat, maxGain': int, ghost q': nat)
      requires InArena(nodes, seen) && InArena(nodes, level) && best < |nodes|
      requires Picked(nodes, seen, best, maxGain, q, root)
      ensures InArena(nodes, seen + level) && best' < |nodes|
      ensures Picked(nodes, seen + level, best', maxGain', q', root)
    {
      best', maxGain', q' := best, maxGain, q;
      ghost var s := seen;
      var j := 0;
      while j < |level|
        invariant 0 <= j <= |level|
        invariant s == seen + level[..j]
        invariant InArena(nodes, s) && best' < |nodes|
        invariant Picked(nodes, s, best', maxGain', q', root)
      {
        var node := level[j];
        PickedStep(nodes, s, best', maxGain', q', root, node);
        if nodes[node].totalGain > maxGain' {
          maxGain' := nodes[node].totalGain;
          best' := node;
          q' := |s|;
        }
        s := s + [node];
        assert level[..j + 1] == level[..j] + [node];
        j := j + 1;
      }
      assert level[..j] == level;
    }

    /** The parent links followed from `best` up to a root, reversed. */
    method PathTo(best: nat) returns (path: seq<nat>)
      requires best < |nodes| && ParentsFirst(nodes)
      ensures IsChain(nodes, path) && Last(path) == best
    {
      var chain: seq<nat> := [best];
      while nodes[chain[|chain| - 1]].parent.Some?
        invariant chain != [] && chain[0] == best
        invariant forall i :: 0 <= i < |chain| ==> chain[i] < |nodes|
        invariant forall i :: 0 < i < |chain| ==> nodes[chain[i - 1]].parent == Some(chain[i])
        decreases chain[|chain| - 1]
      {
        chain := chain + [nodes[chain[|chain| - 1]].parent.value];
      }
      ReversedChain(nodes, chain);
      path := Reversed(chain);
    }

    /** `get_best_path`: the chain of ancestors, from the root, of the first
        node in level order with the largest positive total gain; the root
        alone when no gain is positive. */
    method GetBestPath() returns (path: seq<nat>)
      requires PathReady(nodes, levels)
      ensures IsChain(nodes, path)
      ensures InArena(nodes, Flatten(levels))
      ensures BeatsZero(nodes, Flatten(levels)) ==>
                exists q: nat :: FirstMax(nodes, Flatten(levels), q) && Last(path) == Flatten(levels)[q]
      ensures !BeatsZero(nodes, Flatten(levels)) ==> Last(path) == levels[0][0]
      ensures DepthsCount(nodes) ==> |path| == nodes[Last(path)].depth + 1
    {
      var best := BestNode();
      path := PathTo(best);
      if DepthsCount(nodes) {
        ChainDepth(nodes, path);
      }
    }
  }

  /** While scanning `seen`: `maxGain` is at least every gain seen and zero;
      when it is positive, `best` is the first node of `seen` (at `q`) with
      that gain; otherwise `best` is still the first root. */
  ghost predicate Picked(nodes: seq<Node>, seen: seq<nat>, best: nat, maxGain: int, q: nat, root: nat)
    requires InArena(nodes, seen) && best < |nodes|
  {
    maxGain >= 0
    && (forall p :: 0 <= p < |seen| ==> nodes[seen[p]].totalGain <= maxGain)
    && (maxGain > 0 ==> FirstMax(nodes, seen, q) && seen[q] == best && nodes[best].totalGain == maxGain)
    && (maxGain == 0 ==> best == root)
  }

  /** One step of the scan keeps `Picked`. */
  lemma PickedStep(nodes: seq<Node>, seen: seq<nat>, best: nat, maxGain: int, q: nat, root: nat, x: nat)
    requires InArena(nodes, seen) && best < |nodes| && x < |nodes|
    requires Picked(nodes, seen, best, maxGain, q, root)
    ensures InArena(nodes, seen + [x])
    ensures nodes[x].totalGain > maxGain ==> Picked(nodes, seen + [x], x, nodes[x].totalGain, |seen|, root)
    ensures nodes[x].totalGain <= maxGain ==> Picked(nodes, seen + [x], best, maxGain, q, root)
  {
    var s := seen + [x];
    assert forall p :: 0 <= p < |seen| ==> s[p] == seen[p];
  }

  /** At the end of the scan, `Picked` is what `get_best_path` promises. */
  lemma PickedResult(nodes: seq<Node>, all: seq<nat>, best: nat, maxGain: int, q: nat, root: nat)
    requires InArena(nodes, all) && best < |nodes|
    requires Picked(nodes, all, best, maxGain, q, root)
    ensures BeatsZero(nodes, all) ==> exists q': nat :: FirstMax(nodes, all, q') && all[q'] == best
    ensures !BeatsZero(nodes, all) ==> best == root
  {
    if BeatsZero(nodes, all) {
      var p :| 0 <= p < |all| && nodes[all[p]].totalGain > 0;
      assert maxGain > 0;
    }
  }
}
