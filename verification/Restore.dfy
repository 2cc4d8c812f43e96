// Rebuilding a book from its stored orders: RestoreOrder of internal/orderbook/book.go over the rows that
// internal/persist/snapshot.go reads back, in whatever order they come.
module Restore {
  import opened OrderBook
  import Sequences

  function RestoreAll(rows: seq<Order>): State
    decreases |rows|
  {
    if rows == [] then EMPTY else Add(RestoreAll(rows[..|rows| - 1]), rows[|rows| - 1])
  }

  /** Rows of a book: different orders, each with the id, side and price of an order of the book. */
  ghost predicate PartOf(rows: seq<Order>, b: State) {
    && (forall i, j :: 0 <= i < j < |rows| ==> rows[i].id != rows[j].id)
    && (forall i :: 0 <= i < |rows| ==> IsAt(rows[i].id, rows[i].side, rows[i].price, b.orders))
  }

  /** And every order of the book is among them. */
  ghost predicate RowsOf(rows: seq<Order>, b: State) {
    PartOf(rows, b) && forall id :: id in b.orders ==> exists i :: 0 <= i < |rows| && rows[i].id == id
  }

  // -------------------------------------------------------------------------------------------------
  // A part of a book's orders needs no more levels than the book

  function Prices(levels: seq<Level>): (p: seq<int>)
    ensures |p| == |levels|
  {
    seq(|levels|, i requires 0 <= i < |levels| => levels[i].price)
  }

  function Before(side: Side): (int, int) -> bool {
    (p: int, q: int) => Better(side, p, q)
  }

  lemma SortedPrices(levels: seq<Level>, side: Side)
    requires BestFirst(levels, side)
    ensures Sequences.Sorted(Before(side), Prices(levels))
  {
  }

  lemma {:induction false} DistinctSubset(p: seq<int>, q: seq<int>)
    requires forall i, j :: 0 <= i < j < |p| ==> p[i] != p[j]
    requires forall x :: x in p ==> x in q
    ensures |p| <= |q|
  {
    if p != [] {
      var x := p[0];
      assert x in p;
      var k :| 0 <= k < |q| && q[k] == x;
      var rest := q[..k] + q[k + 1..];
      forall y | y in p[1..]
        ensures y in rest
      {
        var j :| 1 <= j < |p| && p[j] == y;
        assert p[0] != p[j];
        assert y in p;
        var m :| 0 <= m < |q| && q[m] == y;
        assert y == if m < k then rest[m] else rest[m - 1];
      }
      DistinctSubset(p[1..], rest);
    }
  }

  /** Every order of the first index is in the second one, at the same place. */
  ghost predicate Within(orders: map<nat, Order>, larger: map<nat, Order>) {
    forall id :: id in orders ==> SamePlace(id, orders, larger)
  }

  lemma PriceOfBook(s: State, b: State, side: Side, i: nat)
    requires Consistent(s) && Consistent(b) && Within(s.orders, b.orders) && i < |s.Levels(side)|
    ensures s.Levels(side)[i].price in Prices(b.Levels(side))
  {
    var level := s.Levels(side)[i];
    assert LevelOk(level, side, s.orders);
    var id := level.ids[0];
    assert IsAt(id, side, level.price, s.orders);
    assert SamePlace(id, s.orders, b.orders);
    RestsOnItsSide(b, id, side);
    var j := LevelOf(b.Levels(side), id);
    assert LevelOk(b.Levels(side)[j], side, b.orders) && IsAt(id, side, b.Levels(side)[j].price, b.orders);
    assert Prices(b.Levels(side))[j] == level.price;
  }

  lemma PricesOfBook(s: State, b: State, side: Side)
    requires Consistent(s) && Consistent(b) && Within(s.orders, b.orders)
    ensures forall p :: p in Prices(s.Levels(side)) ==> p in Prices(b.Levels(side))
    ensures |s.Levels(side)| <= |b.Levels(side)|
  {
    var p, q := Prices(s.Levels(side)), Prices(b.Levels(side));
    forall x | x in p
      ensures x in q
    {
      var i :| 0 <= i < |p| && p[i] == x;
      PriceOfBook(s, b, side, i);
    }
    forall i, j | 0 <= i < j < |p|
      ensures p[i] != p[j]
    {
      assert Better(side, s.Levels(side)[i].price, s.Levels(side)[j].price);
    }
    DistinctSubset(p, q);
  }

  // -------------------------------------------------------------------------------------------------
  // Restoring evicts nothing

  lemma TrimNothing(b: State, side: Side)
    requires |b.Levels(side)| <= MAX_LEVELS
    ensures Trim(b, side) == b && Ids(Trimmed(b.Levels(side))) == []
  {
    assert b.orders - {} == b.orders;
  }

  lemma AddedIsWithin(s: State, b: State, o: Order)
    requires Within(s.orders, b.orders) && IsAt(o.id, o.side, o.price, b.orders) && o.id !in s.orders
    ensures Within(AddUntrimmed(s, o).orders, b.orders)
  {
  }

  /** One more row of a book goes in without driving anything out. */
  lemma RestoreOne(s: State, b: State, o: Order)
    requires WellFormed(s) && WellFormed(b) && Within(s.orders, b.orders)
    requires IsAt(o.id, o.side, o.price, b.orders) && o.id !in s.orders
    ensures Evicted(s, o) == [] && Add(s, o) == AddUntrimmed(s, o)
    ensures WellFormed(Add(s, o)) && Within(Add(s, o).orders, b.orders)
  {
    AddUntrimmedKeeps(s, o);
    AddKeeps(s, o);
    AddedIsWithin(s, b, o);
    PricesOfBook(AddUntrimmed(s, o), b, o.side);
    TrimNothing(AddUntrimmed(s, o), o.side);
  }

  /** The index of the restored part: exactly the rows. */
  ghost predicate Indexes(orders: map<nat, Order>, rows: seq<Order>) {
    && (forall i :: 0 <= i < |rows| ==> rows[i].id in orders && orders[rows[i].id] == rows[i])
    && (forall id :: id in orders ==> exists i :: 0 <= i < |rows| && rows[i].id == id)
  }

  lemma IndexesMore(orders: map<nat, Order>, rows: seq<Order>, o: Order)
    requires Indexes(orders, rows) && o.id !in orders
    ensures Indexes(orders[o.id := o], rows + [o])
  {
    var more := rows + [o];
    forall id | id in orders || id == o.id
      ensures exists i :: 0 <= i < |more| && more[i].id == id
    {
      if id == o.id {
        assert more[|rows|].id == id;
      } else {
        var i :| 0 <= i < |rows| && rows[i].id == id;
        assert more[i].id == id;
      }
    }
  }

  lemma LastRowIsNew(orders: map<nat, Order>, rows: seq<Order>, b: State)
    requires PartOf(rows, b) && rows != [] && Indexes(orders, rows[..|rows| - 1])
    ensures rows[|rows| - 1].id !in orders
  {
    var init, o := rows[..|rows| - 1], rows[|rows| - 1];
    forall i | 0 <= i < |init|
      ensures init[i].id != o.id
    {
      assert rows[i].id != rows[|rows| - 1].id;
    }
  }

  lemma InitAndLast(rows: seq<Order>)
    requires rows != []
    ensures rows[..|rows| - 1] + [rows[|rows| - 1]] == rows
  {
  }

  lemma FewerRows(b: State, rows: seq<Order>)
    requires PartOf(rows, b) && rows != []
    ensures PartOf(rows[..|rows| - 1], b)
  {
  }

  /** What restoring some rows of a book comes to. */
  ghost predicate PartRestored(rows: seq<Order>, b: State) {
    var s := RestoreAll(rows);
    WellFormed(s) && Within(s.orders, b.orders) && Indexes(s.orders, rows)
  }

  /** The last row finds the others restored, and evicts nothing. */
  lemma RestoreLast(b: State, rows: seq<Order>)
    requires WellFormed(b) && PartOf(rows, b) && rows != [] && PartRestored(rows[..|rows| - 1], b)
    ensures PartRestored(rows, b)
    ensures var s, o := RestoreAll(rows[..|rows| - 1]), rows[|rows| - 1];
            Evicted(s, o) == [] && Add(s, o) == AddUntrimmed(s, o)
  {
    var init, o := rows[..|rows| - 1], rows[|rows| - 1];
    var s := RestoreAll(init);
    LastRowIsNew(s.orders, rows, b);
    RestoreOne(s, b, o);
    IndexesMore(s.orders, init, o);
    InitAndLast(rows);
  }

  /** Restoring some rows of a book, in any order, evicts none of them. */
  lemma {:induction false} PartRestores(b: State, rows: seq<Order>)
    requires WellFormed(b) && PartOf(rows, b)
    ensures PartRestored(rows, b)
    decreases |rows|
  {
    if rows != [] {
      FewerRows(b, rows);
      PartRestores(b, rows[..|rows| - 1]);
      RestoreLast(b, rows);
    }
  }

  // -------------------------------------------------------------------------------------------------
  // The restored book

  lemma SamePrices(p: seq<int>, q: seq<int>, side: Side)
    requires Sequences.Sorted(Before(side), p) && Sequences.Sorted(Before(side), q)
    requires (forall x :: x in p ==> x in q) && forall x :: x in q ==> x in p
    ensures p == q
  {
    forall e: int
      ensures e in p <==> e in q
    {
    }
    Sequences.SortedIsUnique(Before(side), p, q);
  }

  lemma SameLevels(s: State, b: State, side: Side)
    requires Consistent(s) && Consistent(b) && Within(s.orders, b.orders) && Within(b.orders, s.orders)
    ensures Prices(s.Levels(side)) == Prices(b.Levels(side))
  {
    PricesOfBook(s, b, side);
    PricesOfBook(b, s, side);
    SortedPrices(s.Levels(side), side);
    SortedPrices(b.Levels(side), side);
    SamePrices(Prices(s.Levels(side)), Prices(b.Levels(side)), side);
  }

  lemma OneLevelPerPrice(levels: seq<Level>, side: Side, i: nat, j: nat)
    requires BestFirst(levels, side) && i < |levels| && j < |levels|
    ensures levels[i].price == levels[j].price ==> i == j
  {
    if i < j {
      assert Better(side, levels[i].price, levels[j].price);
    } else if j < i {
      assert Better(side, levels[j].price, levels[i].price);
    }
  }

  /** At each price, the same orders. */
  lemma SameOrdersOnLevel(s: State, b: State, side: Side, i: nat)
    requires Consistent(s) && Consistent(b) && Within(s.orders, b.orders) && Within(b.orders, s.orders)
    requires i < |s.Levels(side)| && i < |b.Levels(side)| && s.Levels(side)[i].price == b.Levels(side)[i].price
    ensures multiset(s.Levels(side)[i].ids) == multiset(b.Levels(side)[i].ids)
  {
    var x, y := s.Levels(side)[i].ids, b.Levels(side)[i].ids;
    forall id
      ensures multiset(x)[id] == multiset(y)[id]
    {
      OnlyLevel(s, side, i, id);
      OnlyLevel(b, side, i, id);
      assert id in s.orders ==> SamePlace(id, s.orders, b.orders);
      assert id in b.orders ==> SamePlace(id, b.orders, s.orders);
    }
  }

  /** Two books have the same levels with the same orders, up to the order within each queue. */
  ghost predicate SameUpToQueues(s: State, b: State) {
    && |s.bids| == |b.bids| && |s.asks| == |b.asks|
    && (forall i :: 0 <= i < |s.bids| ==> SameUpToQueue(s.bids[i], b.bids[i]))
    && (forall i :: 0 <= i < |s.asks| ==> SameUpToQueue(s.asks[i], b.asks[i]))
  }

  ghost predicate SameUpToQueue(l: Level, m: Level) {
    l.price == m.price && multiset(l.ids) == multiset(m.ids)
  }

  lemma RowsCover(b: State, rows: seq<Order>, s: State)
    requires RowsOf(rows, b) && Indexes(s.orders, rows)
    ensures Within(b.orders, s.orders)
  {
    forall id | id in b.orders
      ensures SamePlace(id, b.orders, s.orders)
    {
      var i :| 0 <= i < |rows| && rows[i].id == id;
      assert IsAt(rows[i].id, rows[i].side, rows[i].price, b.orders);
    }
  }

  /** Restoring all of a book's rows, in any order, gives the book's levels and the orders on each. */
  lemma RestoresLevels(b: State, rows: seq<Order>)
    requires WellFormed(b) && RowsOf(rows, b)
    ensures WellFormed(RestoreAll(rows)) && SameUpToQueues(RestoreAll(rows), b)
  {
    var s := RestoreAll(rows);
    PartRestores(b, rows);
    RowsCover(b, rows, s);
    SameLevels(s, b, Buy);
    SameLevels(s, b, Sell);
    forall i | 0 <= i < |s.bids|
      ensures SameUpToQueue(s.bids[i], b.bids[i])
    {
      assert s.bids[i].price == Prices(s.bids)[i] == Prices(b.bids)[i];
      SameOrdersOnLevel(s, b, Buy, i);
    }
    forall i | 0 <= i < |s.asks|
      ensures SameUpToQueue(s.asks[i], b.asks[i])
    {
      assert s.asks[i].price == Prices(s.asks)[i] == Prices(b.asks)[i];
      SameOrdersOnLevel(s, b, Sell, i);
    }
  }

  // -------------------------------------------------------------------------------------------------
  // Depth

  function SharesOf(id: nat, orders: map<nat, Order>): int {
    if id in orders then orders[id].shares else 0
  }

  lemma {:induction false} TotalWithout(ids: seq<nat>, k: nat, orders: map<nat, Order>)
    requires k < |ids|
    ensures TotalShares(ids, orders) == TotalShares(ids[..k] + ids[k + 1..], orders) + SharesOf(ids[k], orders)
    decreases |ids|
  {
    var n := |ids| - 1;
    var fewer := ids[..k] + ids[k + 1..];
    if k == n {
      assert fewer == ids[..n];
    } else {
      TotalWithout(ids[..n], k, orders);
      assert ids[..n][..k] + ids[..n][k + 1..] == fewer[..n - 1];
      assert fewer[n - 1] == ids[n];
    }
  }

  lemma WithoutAt(ids: seq<nat>, k: nat)
    requires k < |ids|
    ensures multiset(ids[..k] + ids[k + 1..]) == multiset(ids) - multiset{ids[k]}
  {
    assert ids == ids[..k] + [ids[k]] + ids[k + 1..];
  }

  /** A level's total does not depend on the order of its queue. */
  lemma {:induction false} TotalOfQueue(x: seq<nat>, y: seq<nat>, orders: map<nat, Order>)
    requires multiset(x) == multiset(y)
    ensures TotalShares(x, orders) == TotalShares(y, orders)
    decreases |x|
  {
    if x == [] {
      assert |multiset(y)| == |y|;
    } else {
      var n := |x| - 1;
      assert x[n] in multiset(y);
      var k :| 0 <= k < |y| && y[k] == x[n];
      WithoutAt(x, n);
      WithoutAt(y, k);
      assert x[..n] + x[n + 1..] == x[..n];
      TotalOfQueue(x[..n], y[..k] + y[k + 1..], orders);
      TotalWithout(y, k, orders);
    }
  }

  lemma SameDepthOfSide(l: seq<Level>, m: seq<Level>, orders: map<nat, Order>)
    requires |l| == |m| && forall i :: 0 <= i < |l| ==> SameUpToQueue(l[i], m[i])
    ensures DepthOf(l, orders) == DepthOf(m, orders)
  {
    forall i | 0 <= i < |l|
      ensures DepthOf(l, orders)[i] == DepthOf(m, orders)[i]
    {
      assert SameUpToQueue(l[i], m[i]);
      assert |multiset(l[i].ids)| == |l[i].ids| && |multiset(m[i].ids)| == |m[i].ids|;
      TotalOfQueue(l[i].ids, m[i].ids, orders);
    }
  }

  lemma SameDepth(s: State, b: State)
    requires s.orders == b.orders && SameUpToQueues(s, b)
    ensures Depth(s) == Depth(b)
  {
    SameDepthOfSide(s.bids, b.bids, b.orders);
    SameDepthOfSide(s.asks, b.asks, b.orders);
    assert |s.bids| > 0 ==> SameUpToQueue(s.bids[0], b.bids[0]);
    assert |s.asks| > 0 ==> SameUpToQueue(s.asks[0], b.asks[0]);
  }

  lemma SameIndex(b: State, rows: seq<Order>, s: State)
    requires RowsOf(rows, b) && Indexes(s.orders, rows)
    requires forall i :: 0 <= i < |rows| ==> rows[i].id in b.orders && b.orders[rows[i].id] == rows[i]
    ensures s.orders == b.orders
  {
    forall id | id in s.orders
      ensures id in b.orders && s.orders[id] == b.orders[id]
    {
      var i :| 0 <= i < |rows| && rows[i].id == id;
    }
    forall id | id in b.orders
      ensures id in s.orders
    {
      var i :| 0 <= i < |rows| && rows[i].id == id;
    }
  }

  /** The round trip: restoring a book's own orders, in any order, gives the same index and the same depth. */
  lemma RoundTrip(b: State, rows: seq<Order>)
    requires WellFormed(b) && RowsOf(rows, b)
    requires forall i :: 0 <= i < |rows| ==> rows[i].id in b.orders && b.orders[rows[i].id] == rows[i]
    ensures RestoreAll(rows).orders == b.orders
    ensures SameUpToQueues(RestoreAll(rows), b)
    ensures Depth(RestoreAll(rows)) == Depth(b)
  {
    var s := RestoreAll(rows);
    PartRestores(b, rows);
    RestoresLevels(b, rows);
    SameIndex(b, rows, s);
    SameDepth(s, b);
  }

  // -------------------------------------------------------------------------------------------------
  // Queue order

  /** The ids of the rows at a price, in the order of the rows. */
  function AtPrice(rows: seq<Order>, side: Side, price: int): seq<nat> {
    if rows == [] then []
    else
      var o := rows[|rows| - 1];
      AtPrice(rows[..|rows| - 1], side, price) + (if o.side == side && o.price == price then [o.id] else [])
  }

  /** Every queue of a side is in the order of the rows. */
  ghost predicate QueuedAs(levels: seq<Level>, side: Side, rows: seq<Order>) {
    forall i :: 0 <= i < |levels| ==> levels[i].ids == AtPrice(rows, side, levels[i].price)
  }

  lemma {:induction false} NoneAtPrice(rows: seq<Order>, side: Side, price: int)
    requires forall i :: 0 <= i < |rows| ==> rows[i].side != side || rows[i].price != price
    ensures AtPrice(rows, side, price) == []
  {
    if rows != [] {
      NoneAtPrice(rows[..|rows| - 1], side, price);
    }
  }

  lemma AtPriceGrows(rows: seq<Order>, o: Order, side: Side, price: int)
    ensures AtPrice(rows + [o], side, price) ==
            AtPrice(rows, side, price) + if o.side == side && o.price == price then [o.id] else []
  {
    assert (rows + [o])[..|rows|] == rows;
  }

  lemma NoLevelAt(levels: seq<Level>, side: Side, price: int)
    requires BestFirst(levels, side)
    requires var k := Rank(levels, side, price); k == |levels| || levels[k].price != price
    ensures forall i :: 0 <= i < |levels| ==> levels[i].price != price
  {
    var k := Rank(levels, side, price);
    forall i | k < i < |levels|
      ensures levels[i].price != price
    {
      assert Better(side, levels[k].price, levels[i].price);
    }
  }

  /** A price without a level has no row. */
  lemma NoRowAt(s: State, rows: seq<Order>, side: Side, price: int)
    requires Consistent(s) && Indexes(s.orders, rows)
    requires forall i :: 0 <= i < |s.Levels(side)| ==> s.Levels(side)[i].price != price
    ensures AtPrice(rows, side, price) == []
  {
    forall i | 0 <= i < |rows|
      ensures rows[i].side != side || rows[i].price != price
    {
      if rows[i].side == side {
        RestsOnItsSide(s, rows[i].id, side);
        var j := LevelOf(s.Levels(side), rows[i].id);
        assert LevelOk(s.Levels(side)[j], side, s.orders);
        assert IsAt(rows[i].id, side, s.Levels(side)[j].price, s.orders);
      }
    }
    NoneAtPrice(rows, side, price);
  }

  lemma OtherQueueStays(level: Level, side: Side, rows: seq<Order>, o: Order)
    requires level.ids == AtPrice(rows, side, level.price) && (o.side != side || o.price != level.price)
    ensures level.ids == AtPrice(rows + [o], side, level.price)
  {
    AtPriceGrows(rows, o, side, level.price);
    assert AtPrice(rows, side, level.price) + [] == AtPrice(rows, side, level.price);
  }

  lemma JoinQueue(levels: seq<Level>, rows: seq<Order>, o: Order, k: nat)
    requires BestFirst(levels, o.side) && QueuedAs(levels, o.side, rows) && k < |levels| && levels[k].price == o.price
    ensures QueuedAs(levels[k := Level(o.price, levels[k].ids + [o.id])], o.side, rows + [o])
  {
    AtPriceGrows(rows, o, o.side, o.price);
    forall i | 0 <= i < |levels| && i != k
      ensures levels[i].ids == AtPrice(rows + [o], o.side, levels[i].price)
    {
      OneLevelPerPrice(levels, o.side, i, k);
      OtherQueueStays(levels[i], o.side, rows, o);
    }
  }

  lemma StartQueue(levels: seq<Level>, rows: seq<Order>, o: Order, k: nat)
    requires QueuedAs(levels, o.side, rows) && k <= |levels| && AtPrice(rows, o.side, o.price) == []
    requires forall i :: 0 <= i < |levels| ==> levels[i].price != o.price
    ensures QueuedAs(levels[..k] + [Level(o.price, [o.id])] + levels[k..], o.side, rows + [o])
  {
    AtPriceGrows(rows, o, o.side, o.price);
    assert [] + [o.id] == [o.id];
    var more := levels[..k] + [Level(o.price, [o.id])] + levels[k..];
    forall i | 0 <= i < |more|
      ensures more[i].ids == AtPrice(rows + [o], o.side, more[i].price)
    {
      if i < k {
        OtherQueueStays(levels[i], o.side, rows, o);
      } else if k < i {
        OtherQueueStays(levels[i - 1], o.side, rows, o);
      }
    }
  }

  lemma QueuesGrow(s: State, rows: seq<Order>, o: Order)
    requires Consistent(s) && Indexes(s.orders, rows) && QueuedAs(s.Levels(o.side), o.side, rows)
    ensures QueuedAs(Insert(s.Levels(o.side), o.side, o.price, o.id), o.side, rows + [o])
  {
    var levels := s.Levels(o.side);
    var k := Rank(levels, o.side, o.price);
    if k < |levels| && levels[k].price == o.price {
      JoinQueue(levels, rows, o, k);
    } else {
      NoLevelAt(levels, o.side, o.price);
      NoRowAt(s, rows, o.side, o.price);
      StartQueue(levels, rows, o, k);
    }
  }

  lemma QueuesStay(levels: seq<Level>, side: Side, rows: seq<Order>, o: Order)
    requires QueuedAs(levels, side, rows) && o.side != side
    ensures QueuedAs(levels, side, rows + [o])
  {
    forall i | 0 <= i < |levels|
      ensures levels[i].ids == AtPrice(rows + [o], side, levels[i].price)
    {
      AtPriceGrows(rows, o, side, levels[i].price);
      assert AtPrice(rows, side, levels[i].price) + [] == AtPrice(rows, side, levels[i].price);
    }
  }

  ghost predicate BothQueuedAs(s: State, rows: seq<Order>) {
    QueuedAs(s.bids, Buy, rows) && QueuedAs(s.asks, Sell, rows)
  }

  lemma RestoreOneQueues(s: State, rows: seq<Order>, o: Order)
    requires Consistent(s) && Indexes(s.orders, rows) && BothQueuedAs(s, rows)
    ensures BothQueuedAs(AddUntrimmed(s, o), rows + [o])
  {
    QueuesGrow(s, rows, o);
    QueuesStay(s.Levels(Other(o.side)), Other(o.side), rows, o);
  }

  lemma LastRowJoins(b: State, rows: seq<Order>)
    requires WellFormed(b) && PartOf(rows, b) && rows != []
    ensures var init := rows[..|rows| - 1];
            && Consistent(RestoreAll(init)) && Indexes(RestoreAll(init).orders, init)
            && RestoreAll(rows) == AddUntrimmed(RestoreAll(init), rows[|rows| - 1])
  {
    FewerRows(b, rows);
    PartRestores(b, rows[..|rows| - 1]);
    RestoreLast(b, rows);
  }

  lemma RestoreLastQueues(b: State, rows: seq<Order>)
    requires WellFormed(b) && PartOf(rows, b) && rows != []
    requires BothQueuedAs(RestoreAll(rows[..|rows| - 1]), rows[..|rows| - 1])
    ensures BothQueuedAs(RestoreAll(rows), rows)
  {
    var init, o := rows[..|rows| - 1], rows[|rows| - 1];
    LastRowJoins(b, rows);
    RestoreOneQueues(RestoreAll(init), init, o);
    InitAndLast(rows);
  }

  /** The restored queues are in the order of the rows. */
  lemma {:induction false} RestoredQueues(b: State, rows: seq<Order>)
    requires WellFormed(b) && PartOf(rows, b)
    ensures BothQueuedAs(RestoreAll(rows), rows)
    decreases |rows|
  {
    if rows != [] {
      FewerRows(b, rows);
      RestoredQueues(b, rows[..|rows| - 1]);
      RestoreLastQueues(b, rows);
    }
  }

  lemma LevelsFromQueues(l: seq<Level>, m: seq<Level>, side: Side, rows: seq<Order>)
    requires Prices(l) == Prices(m) && QueuedAs(l, side, rows)
    ensures l == m <==> QueuedAs(m, side, rows)
  {
    if QueuedAs(m, side, rows) {
      forall i | 0 <= i < |m|
        ensures l[i] == m[i]
      {
        assert l[i].price == Prices(l)[i] == Prices(m)[i] == m[i].price;
      }
    }
  }

  /** A book survives the round trip unchanged exactly if its rows come back in the order of its queues. */
  lemma RoundTripIsExactIff(b: State, rows: seq<Order>)
    requires WellFormed(b) && RowsOf(rows, b)
    requires forall i :: 0 <= i < |rows| ==> rows[i].id in b.orders && b.orders[rows[i].id] == rows[i]
    ensures RestoreAll(rows) == b <==> QueuedAs(b.bids, Buy, rows) && QueuedAs(b.asks, Sell, rows)
  {
    var s := RestoreAll(rows);
    RoundTrip(b, rows);
    RestoredQueues(b, rows);
    PartRestores(b, rows);
    RowsCover(b, rows, s);
    SameLevels(s, b, Buy);
    SameLevels(s, b, Sell);
    LevelsFromQueues(s.bids, b.bids, Buy, rows);
    LevelsFromQueues(s.asks, b.asks, Sell, rows);
  }

  lemma AddBid(b: State, o: Order, ids: seq<nat>)
    requires o.side == Buy && b.bids == (if ids == [] then [] else [Level(o.price, ids)])
    ensures Add(b, o) == State([Level(o.price, ids + [o.id])], b.asks, b.orders[o.id := o])
  {
    RankIs(b.bids, Buy, o.price, 0);
    TrimNothing(AddUntrimmed(b, o), Buy);
    assert [] + [Level(o.price, [o.id])] + [] == [Level(o.price, [o.id])] && [] + [o.id] == [o.id];
    assert Insert(b.bids, Buy, o.price, o.id) == [Level(o.price, ids + [o.id])];
    assert AddUntrimmed(b, o).bids == [Level(o.price, ids + [o.id])];
  }

  lemma AddSecond(o: Order, p: Order)
    requires o.id != p.id && o.side == Buy == p.side && o.price == p.price
    ensures RestoreAll([o, p]) == State([Level(o.price, [o.id, p.id])], [], map[o.id := o, p.id := p])
  {
    var first := State([Level(o.price, [o.id])], [], map[o.id := o]);
    AddBid(EMPTY, o, []);
    assert [] + [o.id] == [o.id] && EMPTY.orders[o.id := o] == first.orders;
    assert [o][..0] == [] && [o][0] == o;
    assert RestoreAll([o]) == Add(EMPTY, o) == first;
    AddBid(first, p, [o.id]);
    assert [o.id] + [p.id] == [o.id, p.id];
    assert first.orders[p.id := p] == map[o.id := o, p.id := p];
    assert [o, p][..1] == [o] && [o, p][1] == p;
    assert RestoreAll([o, p]) == Add(RestoreAll([o]), p);
  }

  lemma SwappedRows(o: Order, p: Order, b: State)
    requires o.id != p.id && o.side == Buy == p.side && o.price == p.price
    requires b.orders == map[o.id := o, p.id := p]
    ensures RowsOf([p, o], b)
  {
    var rows := [p, o];
    assert rows[0] == p && rows[1] == o;
  }

  /** Two orders of one queue that come back in the wrong order change places. */
  lemma QueueChanges(o: Order, p: Order)
    requires o.id != p.id && o.side == Buy == p.side && o.price == p.price
    ensures RowsOf([p, o], RestoreAll([o, p]))
    ensures RestoreAll([o, p]).bids == [Level(o.price, [o.id, p.id])]
    ensures RestoreAll([p, o]).bids == [Level(o.price, [p.id, o.id])]
    ensures RestoreAll([p, o]) != RestoreAll([o, p])
  {
    AddSecond(o, p);
    AddSecond(p, o);
    SwappedRows(o, p, RestoreAll([o, p]));
    assert [o.id, p.id][0] != [p.id, o.id][0];
    assert RestoreAll([o, p]).bids[0].ids != RestoreAll([p, o]).bids[0].ids;
  }
}
