/** The world `main.py` sets up: two stations trading `good_a` at 9 and 14,
    and a merchant with 11 money at the first one. The lemmas work out the
    first level of its plan and the plan that buys, moves and sells. */
module Scenario {
  import opened Dicts
  import opened Trade
  import opened Planning
  import opened Growth

  const Station1: string := "station 1"
  const Station2: string := "station 2"
  const GoodA: Good := "good_a"

  function EmptyStation(name: string): Station {
    Station(name, Empty, Empty, Empty)
  }

  /** A station holding none of `good_a`, selling and buying it at `price`. */
  function Market(name: string, price: int): Station {
    Station(name, Entry(GoodA, 0, Empty), Entry(GoodA, price, Empty), Entry(GoodA, price, Empty))
  }

  /** `set_up_station`. */
  function World(): Dict<string, Station> {
    Put(Put(Empty, Station1, AddGood(EmptyStation(Station1), GoodA, 0, 9, 9)),
        Station2, AddGood(EmptyStation(Station2), GoodA, 0, 14, 14))
  }

  /** `set_up_merchants`. */
  function Merchant1(): Merchant {
    Merchant("merchant 1", Station1, 11, Put(Empty, GoodA, 0))
  }

  lemma WorldShape()
    ensures World() == Entry(Station1, Market(Station1, 9), Entry(Station2, Market(Station2, 14), Empty))
    ensures Merchant1().stock == Entry(GoodA, 0, Empty) && Station1 != Station2
  {
    assert Station1 != Station2 by {
      assert Station1[8] != Station2[8];
    }
  }

  /** The example world meets what `build` needs, with sane prices. */
  lemma WorldReady()
    ensures Ready(Merchant1(), World()) && Sane(World())
  {
    WorldShape();
    var goods := Keys(Merchant1().stock);
    assert goods == [GoodA];
  }

  /** The root's children, in the order `_add_level` makes them: nothing to
      sell, buy one unit for 9, move to the second station, or wait. */
  lemma RootChildren()
    ensures Expandable(Root(Merchant1()), World())
    ensures Successors(Root(Merchant1()), 0, World()) ==
      [Node(Buy, 2, Entry(GoodA, 1, Empty), Station1, -9, Some(0), 1),
       Node(Move, 9, Entry(GoodA, 0, Empty), Station2, -2, Some(0), 1),
       Node(DoNothing, 10, Entry(GoodA, 0, Empty), Station1, -1, Some(0), 1)]
  {
    WorldShape();
    WorldReady();
    var p := Root(Merchant1());
    var station := Market(Station1, 9);
    ReadyExpandable(p, World(), [GoodA]);
    assert StationOf(p, World()) == station;
    assert SellChildren(p, 0, station, p.stock) == [];
    assert FloorDiv(11, 9) == 1;
    assert BuyChild(p, 0, GoodA, station) == Node(Buy, 2, Entry(GoodA, 1, Empty), Station1, -9, Some(0), 1);
    assert BuyChildren(p, 0, station, station.sellPrizes) == [BuyChild(p, 0, GoodA, station)];
    assert TravelChildren(p, 0, World(), World()) == [TravelChild(p, 0, Station2)];
    SuccessorsSplit(p, 0, World());
  }

  /** After buying, at node `pi`: sell the unit back for 9, move to the
      second station with exactly the travel cost, or wait. */
  lemma BoughtChildren(pi: nat)
    ensures var b := Node(Buy, 2, Entry(GoodA, 1, Empty), Station1, -9, Some(0), 1);
            Expandable(b, World())
            && Successors(b, pi, World()) ==
               [Node(Sell, 11, Entry(GoodA, 0, Empty), Station1, 0, Some(pi), 2),
                Node(Move, 0, Entry(GoodA, 1, Empty), Station2, -11, Some(pi), 2),
                Node(DoNothing, 1, Entry(GoodA, 1, Empty), Station1, -10, Some(pi), 2)]
  {
    WorldShape();
    WorldReady();
    var b := Node(Buy, 2, Entry(GoodA, 1, Empty), Station1, -9, Some(0), 1);
    var station := Market(Station1, 9);
    ReadyExpandable(b, World(), [GoodA]);
    assert StationOf(b, World()) == station;
    assert SellChildren(b, pi, station, b.stock) == [SellChild(b, pi, GoodA, station)];
    assert BuyChildren(b, pi, station, station.sellPrizes) == [];
    assert TravelChildren(b, pi, World(), World().rest) == [TravelChild(b, pi, Station2)];
    assert TravelChildren(b, pi, World(), World()) == [TravelChild(b, pi, Station2)];
    SuccessorsSplit(b, pi, World());
  }

  /** Having moved with the unit, at node `pi`: the only child sells it for
      14, ending with 14 money, a total gain of 3. */
  lemma MovedChildren(pi: nat)
    ensures var v := Node(Move, 0, Entry(GoodA, 1, Empty), Station2, -11, Some(1), 2);
            Expandable(v, World())
            && Successors(v, pi, World()) == [Node(Sell, 14, Entry(GoodA, 0, Empty), Station2, 3, Some(pi), 3)]
  {
    WorldShape();
    WorldReady();
    var v := Node(Move, 0, Entry(GoodA, 1, Empty), Station2, -11, Some(1), 2);
    var station := Market(Station2, 14);
    ReadyExpandable(v, World(), [GoodA]);
    assert StationOf(v, World()) == station;
    assert SellChildren(v, pi, station, v.stock) == [SellChild(v, pi, GoodA, station)];
    assert BuyChildren(v, pi, station, station.sellPrizes) == [];
    assert TravelChildren(v, pi, World(), World().rest) == [];
    assert TravelChildren(v, pi, World(), World()) == [];
    SuccessorsSplit(v, pi, World());
  }
}
