/** The trading domain of the planner: stations with their price lists, the
    merchant whose state is the root of a plan, the planning node, and the
    four actions (sell, buy, move, do nothing) that make a node's children. */
module Trade {
  import opened Dicts

  type Good = string

  const TravelCost: int := 2
  const DoNothingCost: int := 1

  datatype Action = Move | Buy | Sell | DoNothing

  /** `sellPrizes` is what the station charges, `buyPrizes` what it pays. */
  datatype Station = Station(name: string, stock: Dict<Good, int>,
                             sellPrizes: Dict<Good, int>, buyPrizes: Dict<Good, int>)

  datatype Merchant = Merchant(name: string, currentStation: string,
                               money: int, stock: Dict<Good, int>)

  /** One planning node. The node's list of children is kept by the tree,
      beside the nodes, since it is the only part of a node that changes
      after the node is made. */
  datatype Node = Node(action: Action, money: int, stock: Dict<Good, int>,
                       currentStation: string, totalGain: int,
                       parent: Option<nat>, depth: nat)

  /** `Station.add_good`: record a good with its stock and both prices. */
  function AddGood(s: Station, good: Good, number: int, sellPrize: int, buyPrize: int): (r: Station)
    ensures r.name == s.name
    ensures Get(r.stock, good) == Some(number)
    ensures Get(r.sellPrizes, good) == Some(sellPrize)
    ensures Get(r.buyPrizes, good) == Some(buyPrize)
    ensures forall g :: g != good ==> Get(r.stock, g) == Get(s.stock, g)
    ensures forall g :: g != good ==> Get(r.sellPrizes, g) == Get(s.sellPrizes, g)
    ensures forall g :: g != good ==> Get(r.buyPrizes, g) == Get(s.buyPrizes, g)
  {
    PutEffect(s.stock, good, number);
    PutEffect(s.sellPrizes, good, sellPrize);
    PutEffect(s.buyPrizes, good, buyPrize);
    s.(stock := Put(s.stock, good, number),
       sellPrizes := Put(s.sellPrizes, good, sellPrize),
       buyPrizes := Put(s.buyPrizes, good, buyPrize))
  }

  /** `math.floor(m / p)`: Dafny's `/` rounds down only for a positive divisor. */
  function FloorDiv(m: int, p: int): int
    requires p != 0
  {
    if p > 0 then m / p else (-m) / (-p)
  }

  /** FloorDiv is the quotient rounded towards minus infinity. */
  lemma FloorDivIsFloor(m: int, p: int)
    requires p != 0
    ensures p > 0 ==> FloorDiv(m, p) * p <= m < FloorDiv(m, p) * p + p
    ensures p < 0 ==> FloorDiv(m, p) * p >= m > FloorDiv(m, p) * p + p
  {
    var q := FloorDiv(m, p);
    if p < 0 {
      assert q * (-p) <= -m < q * (-p) + (-p);
    }
  }

  lemma Remainder(m: int, p: int)
    requires p > 0
    ensures m - (m / p) * p == m % p
    ensures p <= m ==> m / p >= 1
  {
  }

  /** The root of a merchant's tree, made by `Tree._add_root`. */
  function Root(m: Merchant): Node
  {
    Node(DoNothing, m.money, m.stock, m.currentStation, 0, None, 0)
  }

  // ---------------------------------------------------------------------
  // Invariants every child keeps with respect to its parent

  /** A child's link to its parent, and the money/gain bookkeeping: every
      action changes money and total gain by the same amount, and never
      adds or removes a good from the stock. */
  ghost predicate ChildOf(c: Node, p: Node, pi: nat) {
    c.parent == Some(pi) && c.depth == p.depth + 1
    && c.money - c.totalGain == p.money - p.totalGain
    && Keys(c.stock) == Keys(p.stock)
  }

  /** No good is held in a negative amount. */
  ghost predicate NonNegStock(d: Dict<Good, int>) {
    d.Entry? ==> d.value >= 0 && NonNegStock(d.rest)
  }

  ghost predicate Positive(d: Dict<Good, int>) {
    d.Entry? ==> d.value > 0 && Positive(d.rest)
  }

  /** No debt and no negative stock. */
  ghost predicate Solvent(n: Node) {
    n.money >= 0 && NonNegStock(n.stock)
  }

  /** Prices for which solvency is kept: positive selling prices and
      non-negative buying prices. */
  ghost predicate StationSane(s: Station) {
    Positive(s.sellPrizes) && NonNegStock(s.buyPrizes)
  }

  ghost predicate Sane(stations: Dict<string, Station>) {
    stations.Entry? ==> StationSane(stations.value) && Sane(stations.rest)
  }

  lemma {:induction false} GetNonNeg(d: Dict<Good, int>, g: Good)
    requires Get(d, g).Some? && NonNegStock(d)
    ensures Get(d, g).value >= 0
  {
    if d.key != g {
      GetNonNeg(d.rest, g);
    }
  }

  lemma {:induction false} GetPositive(d: Dict<Good, int>, g: Good)
    requires Get(d, g).Some? && Positive(d)
    ensures Get(d, g).value > 0
  {
    if d.key != g {
      GetPositive(d.rest, g);
    }
  }

  lemma {:induction false} GetSane(stations: Dict<string, Station>, name: string)
    requires Get(stations, name).Some? && Sane(stations)
    ensures StationSane(Get(stations, name).value)
  {
    if stations.key != name {
      GetSane(stations.rest, name);
    }
  }

  /** Storing a non-negative amount keeps a stock non-negative. */
  lemma {:induction false} PutNonNeg(d: Dict<Good, int>, g: Good, v: int)
    requires NonNegStock(d) && v >= 0
    ensures NonNegStock(Put(d, g, v))
  {
    if d.Entry? && d.key != g {
      PutNonNeg(d.rest, g, v);
    }
  }

  // ---------------------------------------------------------------------
  // The four kinds of child (`_add_sell_node`, `_add_buy_node`,
  // `_add_travel_node`, `_add_do_nothing_node`)

  /** Sell the whole stock of `good` at the station's buying price. */
  function SellChild(p: Node, pi: nat, good: Good, station: Station): (c: Node)
    requires good in Keys(p.stock) && good in Keys(station.buyPrizes)
  {
    var proceeds := Get(p.stock, good).value * Get(station.buyPrizes, good).value;
    Node(Sell, p.money + proceeds, Put(p.stock, good, 0), p.currentStation,
         p.totalGain + proceeds, Some(pi), p.depth + 1)
  }

  /** A sale turns the whole stock of the good into money at the station's
      buying price, and changes nothing else. */
  lemma SellEffect(p: Node, pi: nat, good: Good, station: Station)
    requires good in Keys(p.stock) && good in Keys(station.buyPrizes)
    ensures var c := SellChild(p, pi, good, station);
            ChildOf(c, p, pi) && c.action == Sell && c.currentStation == p.currentStation
            && c.money == p.money + Get(p.stock, good).value * Get(station.buyPrizes, good).value
            && Get(c.stock, good) == Some(0)
            && (forall g :: g != good ==> Get(c.stock, g) == Get(p.stock, g))
            && (Unique(p.stock) ==> Unique(c.stock))
  {
    PutEffect(p.stock, good, 0);
    if Unique(p.stock) {
      PutUnique(p.stock, good, 0);
    }
  }

  /** As many units of `good` as the money pays for, at the station's
      selling price; the rest of the money is kept. */
  function BuyChild(p: Node, pi: nat, good: Good, station: Station): (c: Node)
    requires good in Keys(p.stock) && good in Keys(station.sellPrizes)
    requires Get(station.sellPrizes, good).value != 0
  {
    var price := Get(station.sellPrizes, good).value;
    var bought := FloorDiv(p.money, price);
    var spent := bought * price;
    Node(Buy, p.money - spent, Put(p.stock, good, Get(p.stock, good).value + bought), p.currentStation,
         p.totalGain - spent, Some(pi), p.depth + 1)
  }

  /** A purchase changes only the stock of the good bought. */
  lemma BuyEffect(p: Node, pi: nat, good: Good, station: Station)
    requires good in Keys(p.stock) && good in Keys(station.sellPrizes)
    requires Get(station.sellPrizes, good).value != 0
    ensures var c := BuyChild(p, pi, good, station);
            ChildOf(c, p, pi) && c.action == Buy && c.currentStation == p.currentStation
            && Get(c.stock, good).Some?
            && (forall g :: g != good ==> Get(c.stock, g) == Get(p.stock, g))
            && (Unique(p.stock) ==> Unique(c.stock))
  {
    var v := Get(p.stock, good).value + FloorDiv(p.money, Get(station.sellPrizes, good).value);
    PutEffect(p.stock, good, v);
    if Unique(p.stock) {
      PutUnique(p.stock, good, v);
    }
  }

  /** At a positive price a purchase buys `money / price` units and keeps
      the remainder, so at least one unit when the price is affordable. */
  lemma BuyAmount(p: Node, pi: nat, good: Good, station: Station)
    requires good in Keys(p.stock) && good in Keys(station.sellPrizes)
    requires Get(station.sellPrizes, good).value > 0
    ensures var c := BuyChild(p, pi, good, station); var price := Get(station.sellPrizes, good).value;
            Get(c.stock, good) == Some(Get(p.stock, good).value + p.money / price)
            && c.money == p.money % price && 0 <= c.money < price
            && (price <= p.money ==> Get(c.stock, good).value >= Get(p.stock, good).value + 1)
  {
    var price := Get(station.sellPrizes, good).value;
    PutEffect(p.stock, good, Get(p.stock, good).value + FloorDiv(p.money, price));
    Remainder(p.money, price);
  }

  /** Move to `destination`, paying the travel cost. */
  function TravelChild(p: Node, pi: nat, destination: string): (c: Node)
    ensures ChildOf(c, p, pi) && c.action == Move
    ensures c.currentStation == destination && c.stock == p.stock
    ensures c.money == p.money - TravelCost
    ensures Solvent(p) && p.money >= TravelCost ==> Solvent(c)
  {
    Node(Move, p.money - TravelCost, p.stock, destination,
         p.totalGain - TravelCost, Some(pi), p.depth + 1)
  }

  /** Stay, paying the idle cost. */
  function IdleChild(p: Node, pi: nat): (c: Node)
    ensures ChildOf(c, p, pi) && c.action == DoNothing
    ensures c.currentStation == p.currentStation && c.stock == p.stock
    ensures c.money == p.money - DoNothingCost
    ensures Solvent(p) && p.money >= DoNothingCost ==> Solvent(c)
  {
    Node(DoNothing, p.money - DoNothingCost, p.stock, p.currentStation,
         p.totalGain - DoNothingCost, Some(pi), p.depth + 1)
  }

  lemma ProductNonNeg(a: int, b: int)
    requires a >= 0 && b >= 0
    ensures a * b >= 0
  {
  }

  /** Selling at a non-negative price keeps a solvent merchant solvent. */
  lemma SellSolvent(p: Node, pi: nat, good: Good, station: Station)
    requires good in Keys(p.stock) && good in Keys(station.buyPrizes)
    requires Solvent(p) && NonNegStock(station.buyPrizes)
    ensures Solvent(SellChild(p, pi, good, station))
  {
    GetNonNeg(p.stock, good);
    GetNonNeg(station.buyPrizes, good);
    ProductNonNeg(Get(p.stock, good).value, Get(station.buyPrizes, good).value);
    PutNonNeg(p.stock, good, 0);
  }

  /** Buying at a positive price keeps a solvent merchant solvent: the money
      left is a remainder, and the number bought is not negative. */
  lemma BuySolvent(p: Node, pi: nat, good: Good, station: Station)
    requires good in Keys(p.stock) && good in Keys(station.sellPrizes)
    requires Get(station.sellPrizes, good).value > 0
    requires Solvent(p)
    ensures Solvent(BuyChild(p, pi, good, station))
  {
    var price := Get(station.sellPrizes, good).value;
    GetNonNeg(p.stock, good);
    BuyAmount(p, pi, good, station);
    assert p.money / price >= 0;
    PutNonNeg(p.stock, good, Get(p.stock, good).value + p.money / price);
  }

  // ---------------------------------------------------------------------
  // The children `_add_level` gives one node, in the order it makes them

  /** `stations[node.current_station]`. */
  function StationOf(p: Node, stations: Dict<string, Station>): Station
    requires p.currentStation in Keys(stations)
  {
    Get(stations, p.currentStation).value
  }

  /** Every remaining stock entry with positive stock finds the station's
      buying price. */
  ghost predicate SellsReady(rest: Dict<Good, int>, station: Station) {
    rest.Entry? ==> (rest.value > 0 ==> rest.key in Keys(station.buyPrizes)) && SellsReady(rest.rest, station)
  }

  /** Every remaining affordable good is in the node's stock, and its price
      (the first entry for it) is not zero. */
  ghost predicate BuysReady(p: Node, station: Station, rest: Dict<Good, int>) {
    rest.Entry? ==>
      (rest.value <= p.money ==> rest.key in Keys(p.stock) && Get(station.sellPrizes, rest.key) != Some(0))
      && BuysReady(p, station, rest.rest)
  }

  /** Expanding `p` raises no `KeyError` and no `ZeroDivisionError`. */
  ghost predicate Expandable(p: Node, stations: Dict<string, Station>) {
    p.currentStation in Keys(stations)
    && SellsReady(p.stock, StationOf(p, stations))
    && BuysReady(p, StationOf(p, stations), StationOf(p, stations).sellPrizes)
  }

  /** The sell or the buy loop of `_add_level` runs at least once for `p`,
      which binds the loop variable `good` that the travel loop passes on. */
  ghost predicate BindsGood(p: Node, stations: Dict<string, Station>) {
    p.stock.Entry? || (p.currentStation in Keys(stations) && StationOf(p, stations).sellPrizes.Entry?)
  }

  /** Some remaining station is one `p` would move to. */
  ghost predicate HasDestination(p: Node, rest: Dict<string, Station>) {
    rest.Entry? && ((rest.key != p.currentStation && p.money >= TravelCost) || HasDestination(p, rest.rest))
  }

  /** With a single station, the node's own, there is nowhere to move. */
  lemma NoDestination(p: Node, rest: Dict<string, Station>)
    requires |Keys(rest)| <= 1 && (rest.Entry? ==> rest.key == p.currentStation)
    ensures !HasDestination(p, rest)
  {
    if rest.Entry? {
      assert Keys(rest.rest) == [];
    }
  }

  /** Sale children, one per remaining stock entry whose stock is positive,
      in stock order. */
  function SellChildren(p: Node, pi: nat, station: Station, rest: Dict<Good, int>): seq<Node>
    requires Suffix(rest, p.stock) && SellsReady(rest, station)
  {
    if rest.Empty? then []
    else
      SuffixKey(rest, p.stock);
      var r := SellChildren(p, pi, station, rest.rest);
      if rest.value > 0 then [SellChild(p, pi, rest.key, station)] + r else r
  }

  /** Every node of `r` is a sale made from node `pi` at its station that
      keeps the stock free of repeated goods, and solvency under sane prices. */
  ghost predicate Sales(r: seq<Node>, p: Node, pi: nat, station: Station) {
    forall k :: 0 <= k < |r| ==>
      ChildOf(r[k], p, pi) && r[k].action == Sell && r[k].currentStation == p.currentStation
      && (Unique(p.stock) ==> Unique(r[k].stock))
      && (Solvent(p) && StationSane(station) ==> Solvent(r[k]))
  }

  lemma {:induction false} SellChildrenFacts(p: Node, pi: nat, station: Station, rest: Dict<Good, int>)
    requires Suffix(rest, p.stock) && SellsReady(rest, station)
    ensures Sales(SellChildren(p, pi, station, rest), p, pi, station)
  {
    if rest.Entry? {
      SuffixKey(rest, p.stock);
      SellChildrenFacts(p, pi, station, rest.rest);
      if rest.value > 0 {
        var c := SellChild(p, pi, rest.key, station);
        var r := SellChildren(p, pi, station, rest.rest);
        SellEffect(p, pi, rest.key, station);
        if Solvent(p) && StationSane(station) {
          SellSolvent(p, pi, rest.key, station);
        }
        assert forall k :: 0 < k < |[c] + r| ==> ([c] + r)[k] == r[k - 1];
      }
    }
  }

  /** Purchase children, one per remaining entry of the station's selling
      prices whose price is at most the node's money, in price-list order. */
  function BuyChildren(p: Node, pi: nat, station: Station, rest: Dict<Good, int>): seq<Node>
    requires Suffix(rest, station.sellPrizes) && BuysReady(p, station, rest)
  {
    if rest.Empty? then []
    else
      SuffixKey(rest, station.sellPrizes);
      var r := BuyChildren(p, pi, station, rest.rest);
      if rest.value <= p.money then [BuyChild(p, pi, rest.key, station)] + r else r
  }

  /** Every node of `r` is a purchase made from node `pi` at its station
      that keeps the stock free of repeated goods, and solvency under sane
      prices. */
  ghost predicate Purchases(r: seq<Node>, p: Node, pi: nat, station: Station) {
    forall k :: 0 <= k < |r| ==>
      ChildOf(r[k], p, pi) && r[k].action == Buy && r[k].currentStation == p.currentStation
      && (Unique(p.stock) ==> Unique(r[k].stock))
      && (Solvent(p) && StationSane(station) ==> Solvent(r[k]))
  }

  lemma {:induction false} BuyChildrenFacts(p: Node, pi: nat, station: Station, rest: Dict<Good, int>)
    requires Suffix(rest, station.sellPrizes) && BuysReady(p, station, rest)
    ensures Purchases(BuyChildren(p, pi, station, rest), p, pi, station)
  {
    if rest.Entry? {
      SuffixKey(rest, station.sellPrizes);
      BuyChildrenFacts(p, pi, station, rest.rest);
      if rest.value <= p.money {
        var c := BuyChild(p, pi, rest.key, station);
        var r := BuyChildren(p, pi, station, rest.rest);
        BuyEffect(p, pi, rest.key, station);
        if Solvent(p) && StationSane(station) {
          GetPositive(station.sellPrizes, rest.key);
          BuySolvent(p, pi, rest.key, station);
        }
        assert forall k :: 0 < k < |[c] + r| ==> ([c] + r)[k] == r[k - 1];
      }
    }
  }

  /** Move children, one per remaining station that is not the node's own,
      provided the node can pay the travel cost. */
  function TravelChildren(p: Node, pi: nat, stations: Dict<string, Station>, rest: Dict<string, Station>)
    : seq<Node>
    requires Suffix(rest, stations)
  {
    if rest.Empty? then []
    else
      SuffixKey(rest, stations);
      var r := TravelChildren(p, pi, stations, rest.rest);
      if rest.key != p.currentStation && p.money >= TravelCost then [TravelChild(p, pi, rest.key)] + r
      else r
  }

  /** Every node of `r` is a move made from node `pi`, with its stock, to
      another known station, keeping solvency. */
  ghost predicate Moves(r: seq<Node>, p: Node, pi: nat, stations: Dict<string, Station>) {
    forall k :: 0 <= k < |r| ==>
      ChildOf(r[k], p, pi) && r[k].action == Move && r[k].stock == p.stock
      && r[k].currentStation in Keys(stations) && r[k].currentStation != p.currentStation
      && (Solvent(p) ==> Solvent(r[k]))
  }

  lemma {:induction false} TravelChildrenFacts(p: Node, pi: nat, stations: Dict<string, Station>,
                                               rest: Dict<string, Station>)
    requires Suffix(rest, stations)
    ensures Moves(TravelChildren(p, pi, stations, rest), p, pi, stations)
  {
    if rest.Entry? {
      SuffixKey(rest, stations);
      TravelChildrenFacts(p, pi, stations, rest.rest);
      if rest.key != p.currentStation && p.money >= TravelCost {
        var c := TravelChild(p, pi, rest.key);
        var r := TravelChildren(p, pi, stations, rest.rest);
        assert forall k :: 0 < k < |[c] + r| ==> ([c] + r)[k] == r[k - 1];
      }
    }
  }

  /** A node has somewhere to move exactly when it has move children. */
  lemma {:induction false} DestinationMoves(p: Node, pi: nat, stations: Dict<string, Station>,
                                            rest: Dict<string, Station>)
    requires Suffix(rest, stations)
    ensures HasDestination(p, rest) <==> TravelChildren(p, pi, stations, rest) != []
  {
    if rest.Entry? {
      SuffixKey(rest, stations);
      DestinationMoves(p, pi, stations, rest.rest);
    }
  }

  /** The idle child, when the node can pay the idle cost. */
  function IdleChildren(p: Node, pi: nat): (r: seq<Node>)
    ensures |r| <= 1
    ensures |r| == 1 <==> p.money >= DoNothingCost
    ensures forall k :: 0 <= k < |r| ==>
      ChildOf(r[k], p, pi) && r[k].action == DoNothing && r[k].stock == p.stock
      && r[k].currentStation == p.currentStation && (Solvent(p) ==> Solvent(r[k]))
  {
    if p.money >= DoNothingCost then [IdleChild(p, pi)] else []
  }

  /** What a child inherits from its parent: the link, the bookkeeping, a
      known station, a stock without repeated goods, and solvency when
      prices are sane. */
  ghost predicate Heir(c: Node, p: Node, pi: nat, stations: Dict<string, Station>) {
    ChildOf(c, p, pi) && c.currentStation in Keys(stations)
    && (Unique(p.stock) ==> Unique(c.stock))
    && (Solvent(p) && Sane(stations) ==> Solvent(c))
  }

  ghost predicate Heirs(s: seq<Node>, p: Node, pi: nat, stations: Dict<string, Station>) {
    forall k :: 0 <= k < |s| ==> Heir(s[k], p, pi, stations)
  }

  lemma HeirsConcat(a: seq<Node>, b: seq<Node>, p: Node, pi: nat, stations: Dict<string, Station>)
    requires Heirs(a, p, pi, stations) && Heirs(b, p, pi, stations)
    ensures Heirs(a + b, p, pi, stations)
  {
    forall k | 0 <= k < |a + b| ensures Heir((a + b)[k], p, pi, stations) {
      if k >= |a| {
        assert (a + b)[k] == b[k - |a|];
      }
    }
  }

  /** All children `_add_level` makes for node `pi`: sales, then purchases,
      then moves, then idling. */
  function Successors(p: Node, pi: nat, stations: Dict<string, Station>): (r: seq<Node>)
    requires Expandable(p, stations)
  {
    var station := StationOf(p, stations);
    SellChildren(p, pi, station, p.stock) + BuyChildren(p, pi, station, station.sellPrizes)
    + TravelChildren(p, pi, stations, stations) + IdleChildren(p, pi)
  }

  /** Every child of an expandable node inherits what it must from it. */
  lemma SuccessorsHeirs(p: Node, pi: nat, stations: Dict<string, Station>)
    requires Expandable(p, stations)
    ensures Heirs(Successors(p, pi, stations), p, pi, stations)
  {
    var station := StationOf(p, stations);
    var sells := SellChildren(p, pi, station, p.stock);
    var buys := BuyChildren(p, pi, station, station.sellPrizes);
    var moves := TravelChildren(p, pi, stations, stations);
    var idles := IdleChildren(p, pi);
    if Sane(stations) {
      GetSane(stations, p.currentStation);
    }
    SellChildrenFacts(p, pi, station, p.stock);
    BuyChildrenFacts(p, pi, station, station.sellPrizes);
    TravelChildrenFacts(p, pi, stations, stations);
    assert Heirs(sells, p, pi, stations);
    assert Heirs(buys, p, pi, stations);
    assert Heirs(moves, p, pi, stations);
    assert Heirs(idles, p, pi, stations);
    HeirsConcat(sells, buys, p, pi, stations);
    HeirsConcat(sells + buys, moves, p, pi, stations);
    HeirsConcat(sells + buys + moves, idles, p, pi, stations);
  }

  /** The four groups of `Successors`, one after the other. */
  lemma SuccessorsSplit(p: Node, pi: nat, stations: Dict<string, Station>)
    requires Expandable(p, stations)
    ensures var station := StationOf(p, stations);
            Successors(p, pi, stations)
            == SellChildren(p, pi, station, p.stock) + BuyChildren(p, pi, station, station.sellPrizes)
               + TravelChildren(p, pi, stations, stations) + IdleChildren(p, pi)
  {
  }

  // ---------------------------------------------------------------------
  // A condition on the inputs of `build` under which no node raises

  /** Every remaining price is for one of `goods` and is not zero. */
  ghost predicate PricesReady(d: Dict<Good, int>, goods: seq<Good>) {
    d.Entry? ==> d.key in goods && d.value != 0 && PricesReady(d.rest, goods)
  }

  /** A station prices only goods of `goods`, never at zero, and pays for
      every one of them. */
  ghost predicate StationReady(s: Station, goods: seq<Good>) {
    PricesReady(s.sellPrizes, goods) && forall g :: g in goods ==> g in Keys(s.buyPrizes)
  }

  ghost predicate StationsReady(stations: Dict<string, Station>, goods: seq<Good>) {
    stations.Entry? ==> StationReady(stations.value, goods) && StationsReady(stations.rest, goods)
  }

  lemma {:induction false} GetStationReady(stations: Dict<string, Station>, name: string, goods: seq<Good>)
    requires StationsReady(stations, goods) && Get(stations, name).Some?
    ensures StationReady(Get(stations, name).value, goods)
  {
    if stations.key != name {
      GetStationReady(stations.rest, name, goods);
    }
  }

  /** The first price for a listed good is for one of `goods` and not zero. */
  lemma {:induction false} PricesGet(d: Dict<Good, int>, goods: seq<Good>, g: Good)
    requires PricesReady(d, goods) && g in Keys(d)
    ensures g in goods && Get(d, g) != Some(0)
  {
    if d.key != g {
      PricesGet(d.rest, goods, g);
    }
  }

  lemma {:induction false} SellsReadyAll(rest: Dict<Good, int>, station: Station)
    requires forall g :: g in Keys(rest) ==> g in Keys(station.buyPrizes)
    ensures SellsReady(rest, station)
  {
    if rest.Entry? {
      assert rest.key in Keys(rest);
      SellsReadyAll(rest.rest, station);
    }
  }

  lemma {:induction false} BuysReadyAll(p: Node, station: Station, rest: Dict<Good, int>, goods: seq<Good>)
    requires Suffix(rest, station.sellPrizes) && PricesReady(station.sellPrizes, goods)
    requires Keys(p.stock) == goods
    ensures BuysReady(p, station, rest)
  {
    if rest.Entry? {
      SuffixKey(rest, station.sellPrizes);
      PricesGet(station.sellPrizes, goods, rest.key);
      BuysReadyAll(p, station, rest.rest, goods);
    }
  }

  /** Under the static condition, every node holding the merchant's goods at
      a known station can be expanded. */
  lemma ReadyExpandable(p: Node, stations: Dict<string, Station>, goods: seq<Good>)
    requires StationsReady(stations, goods) && Keys(p.stock) == goods
    requires p.currentStation in Keys(stations)
    ensures Expandable(p, stations)
  {
    var station := StationOf(p, stations);
    GetStationReady(stations, p.currentStation, goods);
    SellsReadyAll(p.stock, station);
    BuysReadyAll(p, station, station.sellPrizes, goods);
  }
}
