# trade-sim planning tree, modelled in Dafny

trade-sim simulates merchants who trade goods between stations. Each merchant
plans by building a bounded breadth-first tree of what it could do next. The
root is the merchant's current state: its money, its stock and its station. A
node's children are its possible next actions, made in this order:

- sell the whole stock of a good the merchant holds, at the station's buying
  price;
- buy as many units of a good as the money pays for, at the station's selling
  price;
- move to another station, which costs 2;
- do nothing, which costs 1.

`Tree.build` adds one level of children at a time. It stops after `max_depth`
levels, or as soon as a level would be empty. `Tree.get_best_path` returns
the chain of nodes from the root to the first node, in level order, with
the largest total gain. When no node gains anything, it returns the root
alone.

The project has the following modules:

- `Dicts` (dicts.dfy): Python dictionaries, as association lists that keep
  insertion order. `Put` replaces an existing key in place and appends a new
  one, as `d[k] = v` does.
- `Trade` (trade.dfy): stations, merchants and nodes. It has the four child
  constructors (`_add_sell_node`, `_add_buy_node`, `_add_travel_node`,
  `_add_do_nothing_node`) as functions and the children of one node in their
  exact order (`Successors`). It also states when expanding a node raises
  nothing.
- `Planning` (planning.dfy): the tree as a value. `TreeState` holds an arena
  of nodes addressed by index, every node's children list and the levels as
  lists of indices. `Step` is what `_add_level` does to it. The module also
  holds the invariant `Wf` of a built tree.
- `Growth` (growth.dfy): `Grow` and `Built`, which describe `build` as a
  value. `Step` keeps `Wf`, and this module proves it together with the
  properties of a built tree: depths, parents, money conservation and
  solvency.
- `Paths` (paths.dfy): what `get_best_path` promises, namely parent chains
  and the first maximum.
- `Trees` (trees.dfy): `class Tree` with the fields `nodes`, `children` and
  `levels`. Every method of the source's `Tree` has a counterpart
  that changes the fields in place. The two long ones are split into one
  method per loop: `_add_level` into `AddSells`, `AddBuys`, `AddMoves`,
  `AddIdle`, `AddSuccessors` and `ExpandLevel`, and `get_best_path` into
  `BestNode`, `ScanLevel` and `PathTo`. The model's path holds the indices
  of the nodes in the arena, not the node objects. The top-level methods are
  proved against the value model:
  - `AddLevel` against `Step`;
  - `Build` against `Built`;
  - `GetBestPath` against the chain and first-maximum predicates.
- `Scenario` (scenario.dfy): the example world of `main.py`. It works out
  the children of the nodes along one plan (buy one unit for 9, move, sell
  it for 14, a gain of 3). It does not compute which path `get_best_path`
  picks for the source's depth of 8.

Python raises errors the model does not execute: a `KeyError` for a missing
station or price, a `ZeroDivisionError` for a zero selling price, and an
`UnboundLocalError` for the loop variable `good` (see below). These become
preconditions:

- per node, `Expandable`;
- per level, `LevelReady`, which adds `LevelTravelReady`;
- for a whole build, the static `Ready`.

`math.floor(money / price)` is `FloorDiv`, which rounds the exact quotient
down for either sign of the price. Python's floating-point division is not
modelled.

## Model

| member | source | states |
|---|---|---|
| Dicts.PutEffect | trade-sim/main.py:50-53 | `d[k] = v` makes `k` map to `v`, leaves every other key's value alone, and keeps the key order, appending a new key at the end |
| Dicts.PutUnique | trade-sim/main.py:50-53 | assignment never repeats a key |
| Trade.AddGood | trade-sim/main.py:50-53 | `add_good` sets the good's stock, selling price and buying price, and changes no other good's entries |
| Trade.FloorDivIsFloor | trade-sim/main.py:164 | `FloorDiv(m, p)` is the floor of `m / p` for a positive and for a negative `p` |
| Trade.SellEffect | trade-sim/main.py:144-160 | a sale is linked to its parent one level deeper, keeps money minus gain and the set of goods, and stays at the station. It adds stock × buying price to the money, sets that good's stock to 0 and leaves the other goods alone |
| Trade.BuyEffect | trade-sim/main.py:162-179 | a purchase is linked to its parent one level deeper, keeps money minus gain and the set of goods, stays at the station and changes only the stock of the good bought |
| Trade.BuyAmount | trade-sim/main.py:162-179 | at a positive price the stock grows by `money / price` and the money left is `money % price`, so `0 <= money < price`. At least one unit is bought when the price is affordable |
| Trade.TravelChild | trade-sim/main.py:181-194 | a move goes to the destination with the same stock, one level deeper, and costs the travel cost in money and in gain |
| Trade.IdleChild | trade-sim/main.py:196-209 | doing nothing keeps station and stock and costs the idle cost |
| Trade.SellSolvent | trade-sim/main.py:144-160 | selling at non-negative prices keeps money and every stock non-negative |
| Trade.BuySolvent | trade-sim/main.py:162-179 | buying at a positive price keeps money and every stock non-negative |
| Trade.SellChildrenFacts | trade-sim/main.py:123-126 | every node made by the sell loop is a sale from this node at its station that keeps money minus gain, Keys, uniqueness and solvency |
| Trade.BuyChildrenFacts | trade-sim/main.py:128-131 | every node made by the buy loop is a purchase from this node with the same guarantees |
| Trade.TravelChildrenFacts | trade-sim/main.py:133-136 | every node made by the travel loop moves, with the same stock, to a known station other than the current one |
| Trade.DestinationMoves | trade-sim/main.py:133-136 | the travel loop makes a node exactly when some station other than the current one exists and the money covers the travel cost |
| Trade.NoDestination | trade-sim/main.py:133-136 | with only the current station there is nowhere to move |
| Trade.IdleChildren | trade-sim/main.py:138-140 | the do-nothing branch makes one node exactly when the money covers the idle cost |
| Trade.SuccessorsHeirs | trade-sim/main.py:116-140 | every child of a node is linked to it one level deeper, keeps money minus gain and the set of goods, stands at a known station, keeps stock keys unique and stays solvent under sane prices |
| Trade.ReadyExpandable | trade-sim/main.py:116-140 | under the static condition on stations and goods, expanding a node at a known station raises no `KeyError` and no `ZeroDivisionError` |
| Planning.ReversedAppend | trade-sim/main.py:102-105 | reversing a list that was grown at its end puts the last element appended first, so the chain collected from the best node upwards comes out starting at the root |
| Planning.ReversedTwice | trade-sim/main.py:105 | reversing is its own inverse: reversing twice gives the list back |
| Planning.OffspringBorn | trade-sim/main.py:118-140 | every node `_add_level` makes is a child of a node of the last level and inherits what it must from its parent |
| Growth.InitWf | trade-sim/main.py:107-114 | the tree right after `clear` and `_add_root` is well formed |
| Growth.WfReady | trade-sim/main.py:116-140 | in a tree built from ready inputs, `_add_level` raises nothing |
| Growth.StepWf | trade-sim/main.py:116-142 | `_add_level` keeps the whole invariant. That covers levels, depths, parents, children lists, money minus gain and solvency |
| Growth.StepShape | trade-sim/main.py:116-142 | `_add_level` only appends nodes and at most one level. It appends a level exactly when the new level would be non-empty, and otherwise changes nothing |
| Growth.RelinkWf | trade-sim/main.py:144-209 | after a level is added, every node's children list is exactly the list of nodes whose parent it is, in creation order |
| Growth.AppendLevelWf | trade-sim/main.py:141-142 | the appended level continues the level order and holds nodes one level deeper, whose parents are on the previous level |
| Growth.GrowStep | trade-sim/main.py:83-85 | one round of the `build` loop: at `max_depth` it stops, otherwise it adds one level or stops when none was added |
| Growth.Grow | trade-sim/main.py:83-85 | growing keeps the invariant, keeps the existing nodes and levels as prefixes and stays within `max(max_depth, levels)`. If it ends below `max_depth`, the next level was empty |
| Growth.Built | trade-sim/main.py:76-85 | the built tree is well formed with the merchant's root at index 0 and `1 <= len(levels) <= max(1, max_depth)`. When it has fewer than `max_depth` levels, the last level has no children |
| Growth.DepthBound | trade-sim/main.py:76-85 | every node sits on the level of its depth, so its depth is less than the number of levels |
| Growth.BuiltConserves | trade-sim/main.py:144-209 | at every node, money minus total gain equals the merchant's money |
| Growth.BuiltSolvent | trade-sim/main.py:144-209 | with non-negative money and stock and sane prices, no node has negative money or stock |
| Growth.WfLevels | trade-sim/main.py:116-142 | level `k` holds nodes of depth `k`. For `k > 0`, each parent was made earlier, sits on level `k - 1` and is one less deep |
| Growth.BuiltLevels | trade-sim/main.py:76-142 | the same holds in the tree `build` leaves behind |
| Paths.ChainDepth | trade-sim/main.py:96-105 | a chain of parent links from a root has length depth + 1 |
| Paths.ChainRoot | trade-sim/main.py:96-97 | a chain is a single node exactly when its last node has no parent |
| Paths.ChainUnique | trade-sim/main.py:96-105 | the chain from a root to a node is determined by the parent links |
| Paths.WfPathReady | trade-sim/main.py:87-105 | a built tree meets what `get_best_path` needs, its depths count parent links, and only the root lacks a parent |
| Trees.RelinkAppend | trade-sim/main.py:158 | registering one more child appends its index to its parent's list and gives it an empty list |
| Trees.SellsNext | trade-sim/main.py:123-126 | one more stock entry adds exactly its sale node when its stock is positive |
| Trees.BuysNext | trade-sim/main.py:128-131 | one more price entry adds exactly its purchase node when the price is affordable |
| Trees.MovesNext | trade-sim/main.py:133-136 | one more station adds exactly its move node when it is another station and the move is affordable |
| Trees.OffspringNext | trade-sim/main.py:118-140 | the new nodes for one more node of the level are that node's successors |
| Trees.ReversedChain | trade-sim/main.py:98-105 | the parent links followed upwards and then reversed form a chain from the root down to the chosen node |
| Trees.PickedStep | trade-sim/main.py:91-94 | the scan keeps the first strictly larger gain, so it ends at the first maximum |
| Trees.Tree.constructor | trade-sim/main.py:70-71 | a new tree has no levels |
| Trees.Tree.Clear | trade-sim/main.py:73-74 | `clear` leaves no levels and with them no nodes |
| Trees.Tree.AddRoot | trade-sim/main.py:107-114 | the merchant's root node is appended alone on a new level |
| Trees.Tree.AddSellNode | trade-sim/main.py:144-160 | appends the sale node and registers it as the last child of its parent. The parent and every level are unchanged |
| Trees.Tree.AddBuyNode | trade-sim/main.py:162-179 | appends the purchase node and registers it as the last child of its parent. The parent and every level are unchanged |
| Trees.Tree.AddTravelNode | trade-sim/main.py:181-194 | appends the move node and registers it as the last child of its parent. The parent and every level are unchanged |
| Trees.Tree.AddDoNothingNode | trade-sim/main.py:196-209 | appends the idle node and registers it as the last child of its parent. The parent and every level are unchanged |
| Trees.Tree.AddSells | trade-sim/main.py:123-126 | the sell loop appends exactly the node's sale children in stock order and keeps the children lists linked |
| Trees.Tree.AddBuys | trade-sim/main.py:128-131 | the buy loop appends exactly the node's purchase children in price-list order |
| Trees.Tree.AddMoves | trade-sim/main.py:133-136 | the travel loop appends exactly the node's move children in station order |
| Trees.Tree.AddIdle | trade-sim/main.py:138-140 | the do-nothing branch appends the idle child when affordable |
| Trees.Tree.AddSuccessors | trade-sim/main.py:118-140 | one pass of the loop body appends exactly that node's successors |
| Trees.Tree.ExpandLevel | trade-sim/main.py:118-140 | the loop over the last level appends exactly the offspring of its nodes, in level order, registers each new node with its parent and returns the indices of the new nodes |
| Trees.Tree.AddLevel | trade-sim/main.py:116-142 | `_add_level` leaves the tree `Step` describes. Offspring of the last level are appended in order, children lists are extended, and a new level is added only when it is non-empty |
| Trees.Tree.Build | trade-sim/main.py:76-85 | `build` leaves exactly the tree `Built` describes |
| Trees.PickedResult | trade-sim/main.py:87-94 | when the scan is over, its choice is the first maximum if some gain is positive, and the first root otherwise |
| Trees.Tree.ScanLevel | trade-sim/main.py:92-94 | scanning one more level keeps the choice at the first strictly largest gain seen so far |
| Trees.Tree.BestNode | trade-sim/main.py:87-94 | the scan ends at the first node, in level order, with the largest gain when that gain is positive, and at the first root otherwise |
| Trees.Tree.PathTo | trade-sim/main.py:96-105 | following parent links up from a node and reversing gives a chain from a root that ends at that node |
| Trees.Tree.GetBestPath | trade-sim/main.py:87-105 | the result is a parent chain from a root. It ends at the first node in level order with the largest gain when some gain is positive, and at the first root otherwise. Its length is depth + 1 |
| Scenario.WorldReady | trade-sim/main.py:222-238 | the example world meets the conditions of `build`, with sane prices |
| Scenario.RootChildren | trade-sim/main.py:116-140 | the example root has three children: buy one unit (money 2, gain −9), move (money 9), wait (money 10) |
| Scenario.BoughtChildren | trade-sim/main.py:116-140 | after buying, the children are: sell back (gain 0), move with exactly the travel cost (money 0, gain −11), wait |
| Scenario.MovedChildren | trade-sim/main.py:116-140 | at the second station the only child sells the unit for 14, ending with money 14 and gain 3 |

## Left out

- Trees.Tree.Build: requires the static condition `Ready` on the merchant and the stations. It asks for:
  - every station's prices to name only the merchant's goods, never at 0;
  - every station to buy every such good;
  - the merchant to hold some good unless only one station exists.

  The source raises an error only when a node actually reaches such a case. The exact per-level condition is the precondition of `Trees.Tree.AddLevel` (`LevelReady`).
- Errors are preconditions rather than modelled exceptions. These are `KeyError` for an unknown station, a missing buying price or a good bought but not held, `ZeroDivisionError` for a zero selling price, and `UnboundLocalError` when a move is made before any node of the level has entered the sell or buy loop.
- `_add_travel_node` takes the loop variable `good` and never uses it, so the model's move constructor has no such argument. Only its possible `UnboundLocalError` is kept, as `LevelTravelReady`.
- Python's float division inside `math.floor` is modelled as exact rational floor division; rounding of very large integers is not modelled.
- `Trees.Tree.Clear` also empties the arena of nodes. In the source, `clear` only drops the levels, and the nodes become unreachable garbage.
- The root shares the merchant's stock dictionary (no copy), while children use deep copies. Node values in the model are immutable, so this aliasing is not observable and is not modelled.
- Node children are kept in the tree's `children` field, one list per node, not inside the node objects.
- World, `add_station`, `add_merchant`, `build_trees` and `Merchant.build_tree` are thin wiring. Only the world of `set_up_station` and `set_up_merchants` is modelled, as constants.
- The graphviz output (`visualize_tree_graphviz`, `visualize_best_path`), every `print` and the `__main__` block are I/O and are left out.
- `Station.stock` is recorded but never read by the planner, and no capacity limit applies to what a station sells; the model records it and does not use it.
- The `goap` package and its tests are a separate stub and are not part of this model.
- Keys of a Python dict are unique. The model's dictionaries may repeat a key, but every one built with `Put` does not (`Dicts.PutUnique`), and the merchant's stock is required to have unique keys.
