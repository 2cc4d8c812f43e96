// The simulated order flow of internal/orderbook/simulator.go on values: what each action does to a book,
// which messages it publishes, and what holds over every run.
//
// An action's fields are what the random draws come to. Legal says which picks and sizes the draws can make;
// prices are left free, so that what holds here holds for every path of the market price.
module Simulation {
  import opened Bytes
  import opened Itch
  import opened OrderBook

  const LOT := 100
  const MAX_SHARES := 1000
  const ORDERS_PER_LEVEL := 3

  /** What a simulator is made for: one symbol, with its tick size in ten-thousandths. */
  datatype Symbol = Symbol(locate: Word16, tick: int)

  /** A book together with the two global counters. */
  datatype Sim = Sim(book: State, lastId: nat, lastMatch: nat)

  datatype Action =
    | Place(side: Side, price: int, lots: int, mpid: seq<Byte>)
    | Cancel(pick: nat)
    | Amend(pick: nat, price: int, lots: int)
    | Execute(aggressor: Side, lots: int)

  // -------------------------------------------------------------------------------------------------
  // Prices

  /** Division rounded to the nearest integer, halves away from zero. */
  function RoundDiv(p: int, t: int): int
    requires t > 0
  {
    if p >= 0 then (2 * p + t) / (2 * t) else -((t - 2 * p) / (2 * t))
  }

  function SnapPrice(price: int, tick: int): int
    requires tick > 0
  {
    RoundDiv(price, tick) * tick
  }

  function Floored(price: int, tick: int): int {
    if price < tick then tick else price
  }

  /** The price some ticks away from the current one, away from the other side. */
  function Quote(side: Side, current: int, offset: int, tick: int): int
    requires tick > 0
  {
    SnapPrice(if side == Buy then current - offset * tick else current + offset * tick, tick)
  }

  // -------------------------------------------------------------------------------------------------
  // Actions

  /** The order an id on a level leads to. In a consistent book it always leads to an indexed one. */
  function Lookup(b: State, id: nat): Order {
    if id in b.orders then b.orders[id] else Order(id, 0, Buy, 0, 0, 0, [])
  }

  function NewOrder(s: Sim, a: Action, y: Symbol): Order
    requires a.Place?
  {
    Order(s.lastId + 1, y.locate, a.side, a.price, a.lots * LOT, 0, a.mpid)
  }

  /** Whether an execution finds something to execute: both best prices set, and a queue to hit. */
  predicate CanExecute(b: State, aggressor: Side) {
    && Best(b.bids) != 0
    && Best(b.asks) != 0
    && Ids(b.Levels(Other(aggressor))) != []
  }

  /** The resting order an execution hits: the first of the first level of the other side. */
  function Target(b: State, aggressor: Side): nat
    requires CanExecute(b, aggressor)
  {
    Ids(b.Levels(Other(aggressor)))[0]
  }

  function TradeShares(a: Action, resting: int): int
    requires a.Execute?
  {
    if a.lots * LOT <= 0 then resting else a.lots * LOT
  }

  /** Whether an action finds what it needs; if not, it does nothing. */
  predicate Effective(s: Sim, a: Action) {
    match a
    case Place(_, _, _, _) => true
    case Cancel(pick) => pick < |s.book.Resting()|
    case Amend(pick, _, _) => pick < |s.book.Resting()|
    case Execute(aggressor, _) => CanExecute(s.book, aggressor)
  }

  /** The order that a cancel or an amendment picks. */
  function Picked(s: Sim, a: Action): nat
    requires (a.Cancel? || a.Amend?) && Effective(s, a)
  {
    s.book.Resting()[a.pick]
  }

  /** The order that an amendment puts in the place of the one it picks. */
  function Incoming(s: Sim, a: Action): Order
    requires a.Amend? && Effective(s, a)
  {
    Replacement(Lookup(s.book, Picked(s, a)), s.lastId + 1, a.price, a.lots * LOT)
  }

  /** The order that an execution hits, and the shares it takes. */
  function Hit(s: Sim, a: Action): Order
    requires a.Execute? && Effective(s, a)
  {
    Lookup(s.book, Target(s.book, a.aggressor))
  }

  function Fill(s: Sim, a: Action): int
    requires a.Execute? && Effective(s, a)
  {
    TradeShares(a, Hit(s, a).shares)
  }

  // -------------------------------------------------------------------------------------------------
  // Messages

  function SideByte(side: Side): Byte {
    if side == Buy then 'B' as int else 'S' as int
  }

  function AddMessage(o: Order, y: Symbol): Message {
    BLANK.(kind := if o.mpid != [] then ADD_ORDER_MPID else ADD_ORDER, stockLocate := y.locate, orderRef := o.id,
           side := SideByte(o.side), shares := o.shares, price := o.price, mpid := o.mpid)
  }

  function DeleteMessage(id: nat, y: Symbol): Message {
    BLANK.(kind := ORDER_DELETE, stockLocate := y.locate, orderRef := id)
  }

  function ReplaceMessage(oldId: nat, newId: nat, price: int, shares: int, y: Symbol): Message {
    BLANK.(kind := ORDER_REPLACE, stockLocate := y.locate, orderRef := newId, origOrderRef := oldId, shares := shares,
           price := price)
  }

  function ExecutedMessage(o: Order, shares: int, matchNumber: nat, y: Symbol): Message {
    BLANK.(kind := ORDER_EXECUTED, stockLocate := y.locate, orderRef := o.id, shares := shares,
           matchNumber := matchNumber, price := o.price)
  }

  function TradeMessage(o: Order, aggressor: Side, shares: int, matchNumber: nat, y: Symbol): Message {
    BLANK.(kind := TRADE, stockLocate := y.locate, orderRef := o.id, shares := shares, price := o.price,
           matchNumber := matchNumber, side := SideByte(aggressor))
  }

  /** A delete for every evicted order other than the new one. */
  function Deletes(evicted: seq<nat>, id: nat, y: Symbol): seq<Message> {
    if evicted == [] then []
    else
      Deletes(evicted[..|evicted| - 1], id, y)
      + (if evicted[|evicted| - 1] == id then [] else [DeleteMessage(evicted[|evicted| - 1], y)])
  }

  /** The messages for an added order; none at all for the order itself if it never rested. */
  function AddMessages(o: Order, evicted: seq<nat>, y: Symbol): seq<Message> {
    (if o.id in evicted then [] else [AddMessage(o, y)]) + Deletes(evicted, o.id, y)
  }

  function Messages(s: Sim, a: Action, y: Symbol): seq<Message> {
    if !Effective(s, a) then []
    else
      match a
      case Place(_, _, _, _) => AddMessages(NewOrder(s, a, y), Evicted(s.book, NewOrder(s, a, y)), y)
      case Cancel(_) => [DeleteMessage(Picked(s, a), y)]
      case Amend(_, _, _) =>
        var o := Incoming(s, a);
        [ReplaceMessage(Picked(s, a), o.id, o.price, o.shares, y)]
      case Execute(aggressor, _) =>
        [ExecutedMessage(Hit(s, a), Fill(s, a), s.lastMatch + 1, y),
         TradeMessage(Hit(s, a), aggressor, Fill(s, a), s.lastMatch + 1, y)]
  }

  // -------------------------------------------------------------------------------------------------
  // Which draws the generator can make

  predicate Legal(s: Sim, a: Action) {
    match a
    case Place(_, _, lots, _) => 1 <= lots <= 10
    case Cancel(pick) => s.book.Resting() == [] || pick < |s.book.Resting()|
    case Amend(pick, _, lots) => (s.book.Resting() == [] || pick < |s.book.Resting()|) && 1 <= lots <= 10
    case Execute(aggressor, lots) =>
      CanExecute(s.book, aggressor) ==>
        var shares := Lookup(s.book, Target(s.book, aggressor)).shares;
        if shares / LOT <= 1 then lots == 1 else 1 <= lots <= shares / LOT
  }

  // -------------------------------------------------------------------------------------------------
  // The invariants of every run

  ghost predicate Issued(orders: map<nat, Order>, lastId: nat) {
    forall id :: id in orders ==> id <= lastId
  }

  /** Shares are signed 32-bit numbers. */
  ghost predicate Sized(orders: map<nat, Order>) {
    forall id :: id in orders ==> orders[id].shares < 0x8000_0000
  }

  /** What every book in use satisfies, also one that has been restored. */
  ghost predicate Inv(s: Sim) {
    WellFormed(s.book) && Issued(s.book.orders, s.lastId) && Sized(s.book.orders)
  }

  /** Sizes are positive multiples of the lot, and no larger than an order can be made. */
  ghost predicate InLots(orders: map<nat, Order>) {
    forall id :: id in orders ==> 0 < orders[id].shares <= MAX_SHARES && orders[id].shares % LOT == 0
  }

  ghost predicate Increasing(s: seq<nat>) {
    forall j, k :: 0 <= j < k < |s| ==> s[j] < s[k]
  }

  /** Within a level, the queue is in the order of ids, which is the order of arrival. */
  ghost predicate Queued(levels: seq<Level>) {
    forall i :: 0 <= i < |levels| ==> Increasing(levels[i].ids)
  }

  /** What a book that was seeded and never restored satisfies besides. */
  ghost predicate Orderly(b: State) {
    InLots(b.orders) && Queued(b.bids) && Queued(b.asks)
  }

  // -------------------------------------------------------------------------------------------------
  // One action

  function Placed(s: Sim, a: Action, y: Symbol): Sim
    requires a.Place?
  {
    Sim(Add(s.book, NewOrder(s, a, y)), s.lastId + 1, s.lastMatch)
  }

  function Cancelled(s: Sim, a: Action): Sim
    requires a.Cancel? && Effective(s, a)
  {
    s.(book := Remove(s.book, Picked(s, a)))
  }

  function Amended(s: Sim, a: Action): Sim
    requires a.Amend? && Effective(s, a)
  {
    Sim(Add(Remove(s.book, Picked(s, a)), Incoming(s, a)), s.lastId + 1, s.lastMatch)
  }

  function Executed(s: Sim, a: Action): Sim
    requires a.Execute? && Effective(s, a)
  {
    Sim(Reduce(s.book, Hit(s, a).id, Fill(s, a)), s.lastId, s.lastMatch + 1)
  }

  function Act(s: Sim, a: Action, y: Symbol): Sim {
    if !Effective(s, a) then s
    else
      match a
      case Place(_, _, _, _) => Placed(s, a, y)
      case Cancel(_) => Cancelled(s, a)
      case Amend(_, _, _) => Amended(s, a)
      case Execute(_, _) => Executed(s, a)
  }

  lemma TargetIsIndexed(b: State, aggressor: Side)
    requires Consistent(b) && CanExecute(b, aggressor)
    ensures Target(b, aggressor) in b.orders && b.orders[Target(b, aggressor)].side == Other(aggressor)
    ensures b.orders[Target(b, aggressor)].id == Target(b, aggressor)
  {
    assert Target(b, aggressor) in Ids(b.Levels(Other(aggressor)));
    RestsOnItsSide(b, Target(b, aggressor), Other(aggressor));
  }

  /** An execution takes at least one lot, and hits an order of the other side. */
  lemma ExecutedSize(s: Sim, a: Action)
    requires WellFormed(s.book) && a.Execute? && Effective(s, a) && Legal(s, a)
    ensures Hit(s, a).id in s.book.orders && Hit(s, a) == s.book.orders[Hit(s, a).id]
    ensures Hit(s, a).side == Other(a.aggressor)
    ensures 1 <= a.lots && Fill(s, a) == a.lots * LOT
  {
    TargetIsIndexed(s.book, a.aggressor);
  }

  lemma WholeLots(lots: int, shares: int)
    ensures lots * LOT % LOT == 0
    ensures 1 <= lots <= 10 ==> 0 < lots * LOT <= MAX_SHARES
    ensures 0 < shares && shares % LOT == 0 && (if shares / LOT <= 1 then lots == 1 else 1 <= lots <= shares / LOT) ==>
              0 < lots * LOT <= shares && (shares - lots * LOT) % LOT == 0
  {
  }

  /** In an orderly book it takes at most what rests. */
  lemma ExecutedFits(s: Sim, a: Action)
    requires WellFormed(s.book) && InLots(s.book.orders) && a.Execute? && Effective(s, a) && Legal(s, a)
    ensures 0 < Fill(s, a) <= Hit(s, a).shares && (Hit(s, a).shares - Fill(s, a)) % LOT == 0
  {
    ExecutedSize(s, a);
    WholeLots(a.lots, Hit(s, a).shares);
  }

  // -------------------------------------------------------------------------------------------------
  // Every legal action keeps the first invariant

  /** Orders of an index that grew by one order at most. */
  ghost predicate GrewBy(orders: map<nat, Order>, before: map<nat, Order>, o: Order) {
    forall id :: id in orders ==> (id == o.id && orders[id] == o) || (id in before && orders[id] == before[id])
  }

  lemma AddGrows(b: State, o: Order)
    ensures GrewBy(Add(b, o).orders, b.orders, o)
  {
  }

  lemma GrownKeeps(orders: map<nat, Order>, before: map<nat, Order>, o: Order, lastId: nat)
    requires GrewBy(orders, before, o) && Issued(before, lastId) && Sized(before)
    requires o.id == lastId + 1 && o.shares <= MAX_SHARES
    ensures Issued(orders, lastId + 1) && Sized(orders)
  {
  }

  lemma AddKeepsInv(s: Sim, o: Order)
    requires Inv(s) && o.id == s.lastId + 1 && o.shares <= MAX_SHARES
    ensures Inv(Sim(Add(s.book, o), s.lastId + 1, s.lastMatch))
  {
    AddKeeps(s.book, o);
    AddGrows(s.book, o);
    GrownKeeps(Add(s.book, o).orders, s.book.orders, o, s.lastId);
  }

  lemma RemoveShrinks(b: State, id: nat, lastId: nat)
    requires Issued(b.orders, lastId) && Sized(b.orders)
    ensures Issued(Remove(b, id).orders, lastId) && Sized(Remove(b, id).orders)
  {
  }

  lemma RemoveKeepsInv(s: Sim, id: nat)
    requires Inv(s)
    ensures Inv(s.(book := Remove(s.book, id)))
  {
    RemoveKeeps(s.book, id);
    RemoveShrinks(s.book, id, s.lastId);
  }

  lemma ReduceShrinks(b: State, id: nat, quantity: int, lastId: nat)
    requires Issued(b.orders, lastId) && Sized(b.orders) && 0 < quantity
    ensures Issued(Reduce(b, id, quantity).orders, lastId) && Sized(Reduce(b, id, quantity).orders)
  {
  }

  lemma ReduceKeepsInv(s: Sim, id: nat, quantity: int)
    requires Inv(s) && 0 < quantity
    ensures Inv(Sim(Reduce(s.book, id, quantity), s.lastId, s.lastMatch + 1))
  {
    ReduceKeeps(s.book, id, quantity);
    ReduceShrinks(s.book, id, quantity, s.lastId);
  }

  lemma PlaceKeeps(s: Sim, a: Action, y: Symbol)
    requires Inv(s) && a.Place? && Legal(s, a)
    ensures Inv(Placed(s, a, y))
  {
    WholeLots(a.lots, 0);
    AddKeepsInv(s, NewOrder(s, a, y));
  }

  lemma AmendKeeps(s: Sim, a: Action)
    requires Inv(s) && a.Amend? && Effective(s, a) && Legal(s, a)
    ensures Inv(Amended(s, a))
  {
    WholeLots(a.lots, 0);
    RemoveKeepsInv(s, Picked(s, a));
    AddKeepsInv(s.(book := Remove(s.book, Picked(s, a))), Incoming(s, a));
  }

  lemma ExecuteKeeps(s: Sim, a: Action)
    requires Inv(s) && a.Execute? && Effective(s, a) && Legal(s, a)
    ensures Inv(Executed(s, a))
  {
    ExecutedSize(s, a);
    ReduceKeepsInv(s, Hit(s, a).id, Fill(s, a));
  }

  /** Every legal action keeps the invariant. */
  lemma ActKeeps(s: Sim, a: Action, y: Symbol)
    requires Inv(s) && Legal(s, a)
    ensures Inv(Act(s, a, y))
  {
    if Effective(s, a) {
      match a
      case Place(_, _, _, _) => PlaceKeeps(s, a, y);
      case Cancel(_) => RemoveKeepsInv(s, Picked(s, a));
      case Amend(_, _, _) => AmendKeeps(s, a);
      case Execute(_, _) => ExecuteKeeps(s, a);
    }
  }

  // -------------------------------------------------------------------------------------------------
  // An action brings at most one order

  /** The ids indexed afterwards: those indexed before, and at most the next one. */
  ghost predicate Grown(s: Sim, s': Sim) {
    s'.book.orders.Keys <= s.book.orders.Keys + {s.lastId + 1}
  }

  lemma KeysAfterAdd(b: State, o: Order)
    ensures Add(b, o).orders.Keys <= b.orders.Keys + {o.id}
  {
  }

  lemma KeysAfterRemoval(b: State, id: nat, quantity: int)
    ensures Remove(b, id).orders.Keys <= b.orders.Keys
    ensures Reduce(b, id, quantity).orders.Keys <= b.orders.Keys
  {
  }

  lemma ActGrows(s: Sim, a: Action, y: Symbol)
    ensures Grown(s, Act(s, a, y)) && s.lastId <= Act(s, a, y).lastId
  {
    if Effective(s, a) {
      match a
      case Place(_, _, _, _) => KeysAfterAdd(s.book, NewOrder(s, a, y));
      case Cancel(_) => KeysAfterRemoval(s.book, Picked(s, a), 0);
      case Amend(_, _, _) =>
        KeysAfterRemoval(s.book, Picked(s, a), 0);
        KeysAfterAdd(Remove(s.book, Picked(s, a)), Incoming(s, a));
      case Execute(_, _) => KeysAfterRemoval(s.book, Hit(s, a).id, Fill(s, a));
    }
  }

  /** An action brings at most one order into the book. */
  lemma AtMostOneMore(s: Sim, s': Sim)
    requires Grown(s, s')
    ensures |s'.book.orders| <= |s.book.orders| + 1
  {
    SubsetSize(s'.book.orders.Keys, s.book.orders.Keys + {s.lastId + 1});
  }

  lemma SubsetSize(small: set<nat>, large: set<nat>)
    requires small <= large
    ensures |small| <= |large|
  {
    assert large == small + (large - small);
  }

  // -------------------------------------------------------------------------------------------------
  // Every legal action keeps an orderly book orderly

  lemma InsertQueued(levels: seq<Level>, side: Side, price: int, id: nat)
    requires Queued(levels) && forall x :: x in Ids(levels) ==> x < id
    ensures Queued(Insert(levels, side, price, id))
  {
    var k := Rank(levels, side, price);
    assert Increasing([id]);
    if k < |levels| && levels[k].price == price {
      var ids := levels[k].ids;
      forall j | 0 <= j < |ids|
        ensures ids[j] < id
      {
        OnLevel(levels, k, ids[j]);
      }
      assert Increasing(ids + [id]);
    }
  }

  lemma {:induction false} RemoveFirstIncreasing(s: seq<nat>, x: nat)
    requires Increasing(s)
    ensures Increasing(RemoveFirst(s, x))
  {
    if s != [] && s[0] != x {
      var tail, r := s[1..], RemoveFirst(s[1..], x);
      RemoveFirstIncreasing(tail, x);
      forall k | 0 <= k < |r|
        ensures s[0] < r[k]
      {
        FromRemoveFirst(tail, x, r[k]);
      }
    }
  }

  lemma FromRemoveFirst(s: seq<nat>, x: nat, y: nat)
    requires y in RemoveFirst(s, x)
    ensures y in s
  {
    RemoveFirstFacts(s, x);
    assert y in multiset(RemoveFirst(s, x));
    assert y in multiset(s);
  }

  lemma {:induction false} RemoveFromQueued(levels: seq<Level>, id: nat)
    requires Queued(levels)
    ensures Queued(RemoveFrom(levels, id))
  {
    if levels != [] {
      var rest := levels[1..];
      assert forall i :: 0 <= i < |rest| ==> rest[i] == levels[i + 1];
      assert Queued(rest);
      if id in levels[0].ids {
        RemoveFirstIncreasing(levels[0].ids, id);
      } else {
        RemoveFromQueued(rest, id);
      }
    }
  }

  lemma AddQueued(b: State, o: Order)
    requires Consistent(b) && Queued(b.bids) && Queued(b.asks) && forall id :: id in b.orders ==> id < o.id
    ensures Queued(Add(b, o).bids) && Queued(Add(b, o).asks)
  {
    var levels := b.Levels(o.side);
    forall x | x in Ids(levels)
      ensures x < o.id
    {
      RestsOnItsSide(b, x, o.side);
    }
    InsertQueued(levels, o.side, o.price, o.id);
    var l := Insert(levels, o.side, o.price, o.id);
    assert Queued(Kept(l));
  }

  lemma GrownInLots(orders: map<nat, Order>, before: map<nat, Order>, o: Order)
    requires GrewBy(orders, before, o) && InLots(before) && 0 < o.shares <= MAX_SHARES && o.shares % LOT == 0
    ensures InLots(orders)
  {
  }

  lemma AddKeepsOrder(b: State, o: Order)
    requires WellFormed(b) && Orderly(b) && forall id :: id in b.orders ==> id < o.id
    requires 0 < o.shares <= MAX_SHARES && o.shares % LOT == 0
    ensures Orderly(Add(b, o))
  {
    AddQueued(b, o);
    AddGrows(b, o);
    GrownInLots(Add(b, o).orders, b.orders, o);
  }

  lemma RemoveKeepsOrder(b: State, id: nat)
    requires Orderly(b)
    ensures Orderly(Remove(b, id))
  {
    RemoveFromQueued(b.bids, id);
    RemoveFromQueued(b.asks, id);
  }

  lemma ReduceKeepsOrder(b: State, id: nat, quantity: int)
    requires Orderly(b) && id in b.orders
    requires 0 < quantity <= b.orders[id].shares && (b.orders[id].shares - quantity) % LOT == 0
    ensures Orderly(Reduce(b, id, quantity))
  {
    RemoveKeepsOrder(b, id);
  }

  lemma PlaceKeepsOrder(s: Sim, a: Action, y: Symbol)
    requires Inv(s) && Orderly(s.book) && a.Place? && Legal(s, a)
    ensures Orderly(Placed(s, a, y).book)
  {
    WholeLots(a.lots, 0);
    AddKeepsOrder(s.book, NewOrder(s, a, y));
  }

  lemma AmendKeepsOrder(s: Sim, a: Action)
    requires Inv(s) && Orderly(s.book) && a.Amend? && Effective(s, a) && Legal(s, a)
    ensures Orderly(Amended(s, a).book)
  {
    WholeLots(a.lots, 0);
    RemoveKeeps(s.book, Picked(s, a));
    RemoveShrinks(s.book, Picked(s, a), s.lastId);
    RemoveKeepsOrder(s.book, Picked(s, a));
    AddKeepsOrder(Remove(s.book, Picked(s, a)), Incoming(s, a));
  }

  lemma ExecuteKeepsOrder(s: Sim, a: Action)
    requires Inv(s) && Orderly(s.book) && a.Execute? && Effective(s, a) && Legal(s, a)
    ensures Orderly(Executed(s, a).book)
  {
    ExecutedSize(s, a);
    ExecutedFits(s, a);
    ReduceKeepsOrder(s.book, Hit(s, a).id, Fill(s, a));
  }

  /** Every legal action keeps sizes in lots and queues in the order of arrival. */
  lemma ActKeepsOrder(s: Sim, a: Action, y: Symbol)
    requires Inv(s) && Orderly(s.book) && Legal(s, a)
    ensures Orderly(Act(s, a, y).book)
  {
    if Effective(s, a) {
      match a
      case Place(_, _, _, _) => PlaceKeepsOrder(s, a, y);
      case Cancel(_) => RemoveKeepsOrder(s.book, Picked(s, a));
      case Amend(_, _, _) => AmendKeepsOrder(s, a);
      case Execute(_, _) => ExecuteKeepsOrder(s, a);
    }
  }

  // -------------------------------------------------------------------------------------------------
  // Price-time priority

  /** An execution hits an order that no other order of its side beats: none has a better price, and none of
      the same price came earlier. */
  lemma PriceTimePriority(s: Sim, aggressor: Side, id: nat)
    requires Inv(s) && Orderly(s.book) && CanExecute(s.book, aggressor)
    requires id in s.book.orders && s.book.orders[id].side == Other(aggressor)
    ensures Target(s.book, aggressor) in s.book.orders
    ensures var hit := s.book.orders[Target(s.book, aggressor)];
            hit.side == Other(aggressor) &&
            !Better(hit.side, s.book.orders[id].price, hit.price) &&
            (s.book.orders[id].price == hit.price ==> hit.id <= id)
  {
    var side, levels := Other(aggressor), s.book.Levels(Other(aggressor));
    TargetIsIndexed(s.book, aggressor);
    assert LevelOk(levels[0], side, s.book.orders);
    assert Target(s.book, aggressor) == levels[0].ids[0];
    assert IsAt(levels[0].ids[0], side, levels[0].price, s.book.orders);
    RestsOnItsSide(s.book, id, side);
    var i := LevelOf(levels, id);
    assert LevelOk(levels[i], side, s.book.orders) && IsAt(id, side, levels[i].price, s.book.orders);
    assert Increasing(levels[0].ids);
  }

  // -------------------------------------------------------------------------------------------------
  // Runs

  function Run(s: Sim, actions: seq<Action>, y: Symbol): Sim
    decreases |actions|
  {
    if actions == [] then s else Act(Run(s, actions[..|actions| - 1], y), actions[|actions| - 1], y)
  }

  /** Every action of a run is legal where it happens. */
  predicate LegalRun(s: Sim, actions: seq<Action>, y: Symbol)
    decreases |actions|
  {
    actions == [] ||
    (LegalRun(s, actions[..|actions| - 1], y)
     && Legal(Run(s, actions[..|actions| - 1], y), actions[|actions| - 1]))
  }

  function RunMessages(s: Sim, actions: seq<Action>, y: Symbol): seq<Message>
    decreases |actions|
  {
    if actions == [] then []
    else
      RunMessages(s, actions[..|actions| - 1], y)
      + Messages(Run(s, actions[..|actions| - 1], y), actions[|actions| - 1], y)
  }

  /** One more action at the end of a run. */
  lemma OneMoreAction(s: Sim, actions: seq<Action>, a: Action, y: Symbol)
    ensures LegalRun(s, actions + [a], y) == (LegalRun(s, actions, y) && Legal(Run(s, actions, y), a))
    ensures Run(s, actions + [a], y) == Act(Run(s, actions, y), a, y)
    ensures RunMessages(s, actions + [a], y) == RunMessages(s, actions, y) + Messages(Run(s, actions, y), a, y)
  {
    assert (actions + [a])[..|actions|] == actions;
  }

  /** The invariant holds after every legal run, and ids only grow. */
  lemma {:induction false} RunKeeps(s: Sim, actions: seq<Action>, y: Symbol)
    requires Inv(s) && LegalRun(s, actions, y)
    ensures Inv(Run(s, actions, y)) && s.lastId <= Run(s, actions, y).lastId
    decreases |actions|
  {
    if actions != [] {
      var init, a := actions[..|actions| - 1], actions[|actions| - 1];
      RunKeeps(s, init, y);
      ActKeeps(Run(s, init, y), a, y);
      ActGrows(Run(s, init, y), a, y);
    }
  }

  /** And an orderly book stays orderly over every legal run. */
  lemma {:induction false} RunKeepsOrder(s: Sim, actions: seq<Action>, y: Symbol)
    requires Inv(s) && Orderly(s.book) && LegalRun(s, actions, y)
    ensures Orderly(Run(s, actions, y).book)
    decreases |actions|
  {
    if actions != [] {
      var init, a := actions[..|actions| - 1], actions[|actions| - 1];
      RunKeeps(s, init, y);
      RunKeepsOrder(s, init, y);
      ActKeepsOrder(Run(s, init, y), a, y);
    }
  }
}
