// A run in which a replace trims the book, so that consumers of the feed keep an order that the book has dropped.
module FeedGaps {
  import opened OrderBook
  import opened Simulation
  import opened Feed

  const NOTHING := Sim(EMPTY, 0, 0)

  /** One bid a level, from 20 down. */
  function Bids(n: nat): seq<Level> {
    seq(n, i requires 0 <= i < n => Level(20 - i, [i + 1]))
  }

  function Bid(id: nat, price: int, y: Symbol): Order {
    Order(id, y.locate, Buy, price, LOT, 0, [])
  }

  function Orders(n: nat, y: Symbol): map<nat, Order> {
    if n == 0 then map[] else Orders(n - 1, y)[n := Bid(n, 21 - n, y)]
  }

  lemma {:induction false} OrdersUpTo(n: nat, y: Symbol)
    ensures forall id :: id in Orders(n, y) ==> 1 <= id <= n
  {
    if n > 0 {
      OrdersUpTo(n - 1, y);
    }
  }

  function Filled(n: nat, y: Symbol): Sim {
    Sim(State(Bids(n), [], Orders(n, y)), n, 0)
  }

  /** Bids one tick apart, as they can be drawn at a current price of 21 and a tick of 1. */
  function Fillings(n: nat): seq<Action> {
    seq(n, i requires 0 <= i < n => Place(Buy, 20 - i, 1, []))
  }

  lemma BidsRank(n: nat, price: int)
    requires price <= 20 - n + 1
    ensures Rank(Bids(n), Buy, price) == if price == 20 - n + 1 && n > 0 then n - 1 else n
  {
    RankIs(Bids(n), Buy, price, if price == 20 - n + 1 && n > 0 then n - 1 else n);
  }

  lemma NoTrim(b: State, side: Side)
    requires |b.Levels(side)| <= MAX_LEVELS
    ensures Trim(b, side) == b
  {
    assert b.orders - {} == b.orders;
  }

  lemma FillOne(n: nat, y: Symbol)
    requires n < MAX_LEVELS
    ensures Act(Filled(n, y), Place(Buy, 20 - n, 1, []), y) == Filled(n + 1, y)
  {
    var s, a := Filled(n, y), Place(Buy, 20 - n, 1, []);
    var o := NewOrder(s, a, y);
    assert o == Bid(n + 1, 20 - n, y);
    BidsRank(n, 20 - n);
    assert Insert(Bids(n), Buy, 20 - n, n + 1) == Bids(n + 1);
    NoTrim(AddUntrimmed(s.book, o), Buy);
  }

  lemma FillingsGrow(n: nat)
    requires n > 0
    ensures Fillings(n) == Fillings(n - 1) + [Place(Buy, 21 - n, 1, [])]
  {
  }

  lemma FillNone(y: Symbol)
    ensures Filled(0, y) == NOTHING && Fillings(0) == []
  {
    assert Bids(0) == [];
  }

  lemma {:induction false} FillAll(n: nat, y: Symbol)
    requires n <= MAX_LEVELS
    ensures LegalRun(NOTHING, Fillings(n), y) && Run(NOTHING, Fillings(n), y) == Filled(n, y)
  {
    if n == 0 {
      FillNone(y);
    } else {
      FillAll(n - 1, y);
      FillOne(n - 1, y);
      OneMoreAction(NOTHING, Fillings(n - 1), Place(Buy, 21 - n, 1, []), y);
      FillingsGrow(n);
    }
  }

  // -------------------------------------------------------------------------------------------------
  // The last level gets a second order, which is then moved one tick further

  function Crowded(y: Symbol): Sim {
    Sim(State(Bids(10)[9 := Level(11, [10, 11])], [], Orders(10, y)[11 := Bid(11, 11, y)]), 11, 0)
  }

  lemma CrowdLastLevel(y: Symbol)
    ensures Act(Filled(10, y), Place(Buy, 11, 1, []), y) == Crowded(y)
  {
    var s := Filled(10, y);
    var o := NewOrder(s, Place(Buy, 11, 1, []), y);
    assert o == Bid(11, 11, y);
    BidsRank(10, 11);
    assert [10] + [11] == [10, 11];
    NoTrim(AddUntrimmed(s.book, o), Buy);
  }

  lemma {:induction false} IdsOfBids(n: nat)
    ensures |Ids(Bids(n))| == n && forall i :: 0 <= i < n ==> Ids(Bids(n))[i] == i + 1
  {
    if n > 0 {
      IdsOfBids(n - 1);
      assert Bids(n) == Bids(n - 1) + [Level(21 - n, [n])];
      IdsConcat(Bids(n - 1), [Level(21 - n, [n])]);
      IdsOne(Level(21 - n, [n]));
    }
  }

  lemma LastPick(y: Symbol)
    ensures |Crowded(y).book.Resting()| == 11 && Crowded(y).book.Resting()[10] == 11
  {
    var levels := Crowded(y).book.bids;
    assert levels == Bids(9) + [Level(11, [10, 11])];
    IdsConcat(Bids(9), [Level(11, [10, 11])]);
    IdsOne(Level(11, [10, 11]));
    IdsOfBids(9);
    assert Crowded(y).book.Resting() == Ids(levels) + [];
  }

  lemma {:induction false} RemoveFromLast(levels: seq<Level>, last: Level, id: nat)
    requires id !in Ids(levels) && id in last.ids && RemoveFirst(last.ids, id) != []
    ensures RemoveFrom(levels + [last], id) == levels + [Level(last.price, RemoveFirst(last.ids, id))]
  {
    if levels == [] {
      assert [] + [last] == [last] && [last][1..] == [];
    } else {
      assert (levels + [last])[1..] == levels[1..] + [last];
      RemoveFromLast(levels[1..], last, id);
    }
  }

  lemma LastRemoved(y: Symbol)
    ensures Remove(Crowded(y).book, 11) == Filled(10, y).book
  {
    var b := Crowded(y).book;
    assert b.bids == Bids(9) + [Level(11, [10, 11])];
    IdsOfBids(9);
    assert RemoveFirst([10, 11], 11) == [10] by {
      assert [10, 11][1..] == [11] && [11][1..] == [];
      assert RemoveFirst([11], 11) == [];
    }
    RemoveFromLast(Bids(9), Level(11, [10, 11]), 11);
    assert Bids(9) + [Level(11, [10])] == Bids(10);
    OrdersUpTo(10, y);
    assert b.orders - {11} == Orders(10, y);
  }

  /** An order one tick below ten levels is trimmed at once. */
  lemma EleventhLevelIsTrimmed(o: Order, y: Symbol)
    requires o == Bid(12, 10, y)
    ensures Evicted(Filled(10, y).book, o) == [12]
  {
    BidsRank(10, 10);
    var levels := Insert(Bids(10), Buy, 10, 12);
    assert levels == Bids(10) + [Level(10, [12])];
    assert Trimmed(levels) == [Level(10, [12])];
    IdsOne(Level(10, [12]));
  }

  lemma AmendTrims(y: Symbol)
    ensures var a := Amend(10, 10, 1);
            Legal(Crowded(y), a) && Lost(Crowded(y), a) == map[12 := Image(Bid(12, 10, y))]
  {
    var s, a := Crowded(y), Amend(10, 10, 1);
    LastPick(y);
    LastRemoved(y);
    var o := Incoming(s, a);
    assert o == Bid(12, 10, y);
    EleventhLevelIsTrimmed(o, y);
    assert SetOf([12]) == {12};
    var b := Filled(10, y).book;
    assert Part(b.orders[o.id := o], {12}) == map[12 := Image(o)];
  }

  function Crowding(): seq<Action> {
    Fillings(10) + [Place(Buy, 11, 1, [])]
  }

  lemma CrowdingRun(y: Symbol)
    ensures LegalRun(NOTHING, Crowding(), y) && Run(NOTHING, Crowding(), y) == Crowded(y)
  {
    FillAll(10, y);
    CrowdLastLevel(y);
    OneMoreAction(NOTHING, Fillings(10), Place(Buy, 11, 1, []), y);
  }

  lemma {:induction false} PlacingLosesNothing(s: Sim, actions: seq<Action>, y: Symbol)
    requires forall i :: 0 <= i < |actions| ==> actions[i].Place?
    ensures RunLost(s, actions, y) == map[]
    decreases |actions|
  {
    if actions != [] {
      PlacingLosesNothing(s, actions[..|actions| - 1], y);
      PlusNothing(map[]);
    }
  }

  lemma OneMoreLost(s: Sim, actions: seq<Action>, a: Action, y: Symbol)
    ensures RunLost(s, actions + [a], y) == RunLost(s, actions, y) + Lost(Run(s, actions, y), a)
  {
    assert (actions + [a])[..|actions|] == actions;
  }

  /** From an empty book: ten levels, a second order on the last one, and its move by one tick. The replace is
      published, but the new order never rests. */
  lemma SomeReplaceTrims(y: Symbol)
    ensures var actions := Crowding() + [Amend(10, 10, 1)];
            && LegalRun(NOTHING, actions, y)
            && RunLost(NOTHING, actions, y) == map[12 := Image(Bid(12, 10, y))]
            && !NothingTrimmed(NOTHING, actions, y)
  {
    var a, lost := Amend(10, 10, 1), map[12 := Image(Bid(12, 10, y))];
    CrowdingRun(y);
    AmendTrims(y);
    OneMoreAction(NOTHING, Crowding(), a, y);
    OneMoreLost(NOTHING, Crowding(), a, y);
    PlacingLosesNothing(NOTHING, Crowding(), y);
    PlusNothing(lost);
    assert 12 in lost;
    NothingLost(NOTHING, Crowding() + [a], y);
  }

  /** At a tick of 1, that price can be drawn for that order. */
  lemma TrimCanBeDrawn()
    ensures Floored(SnapPrice(11 + (-1) * 1, 1), 1) == 10
  {
  }
}
