// What a consumer of the published messages knows: it rebuilds the book by replaying the feed.
module Feed {
  import opened Bytes
  import opened Itch
  import opened OrderBook
  import opened Simulation

  /** What a message tells of a resting order. */
  datatype Resting = Resting(side: Byte, price: int, shares: int)

  type Replica = map<nat, Resting>

  function Reduced(r: Replica, id: nat, shares: int): Replica {
    if id !in r then r
    else if r[id].shares - shares <= 0 then r - {id}
    else r[id := r[id].(shares := r[id].shares - shares)]
  }

  /** Adds insert, executions and cancels reduce, deletes remove, a replace swaps an order and keeps its side;
      every other message leaves the book alone. */
  function Consume(r: Replica, m: Message): Replica {
    if m.kind == ADD_ORDER || m.kind == ADD_ORDER_MPID then
      r[m.orderRef := Resting(m.side, m.price, m.shares)]
    else if m.kind == ORDER_EXECUTED || m.kind == ORDER_CANCEL then
      Reduced(r, m.orderRef, m.shares)
    else if m.kind == ORDER_DELETE then
      r - {m.orderRef}
    else if m.kind == ORDER_REPLACE && m.origOrderRef in r then
      (r - {m.origOrderRef})[m.orderRef := Resting(r[m.origOrderRef].side, m.price, m.shares)]
    else
      r
  }

  function Replay(r: Replica, messages: seq<Message>): Replica
    decreases messages
  {
    if messages == [] then r else Replay(Consume(r, messages[0]), messages[1..])
  }

  lemma {:induction false} ReplayConcat(r: Replica, a: seq<Message>, b: seq<Message>)
    ensures Replay(r, a + b) == Replay(Replay(r, a), b)
    decreases a
  {
    if a == [] {
      assert a + b == b;
    } else {
      assert (a + b)[1..] == a[1..] + b;
      ReplayConcat(Consume(r, a[0]), a[1..], b);
    }
  }

  lemma ReplayOne(r: Replica, m: Message)
    ensures Replay(r, [m]) == Consume(r, m)
  {
    assert [m][1..] == [];
  }

  // -------------------------------------------------------------------------------------------------
  // The replica of a book

  function Image(o: Order): Resting {
    Resting(SideByte(o.side), o.price, o.shares)
  }

  /** A consumer's entry tells the truth about an order: 'B' for a bid and 'S' for an ask, as bytes. */
  ghost predicate Tells(r: Resting, o: Order) {
    && (r.side == 0x42 <==> o.side == Buy) && (r.side == 0x53 <==> o.side == Sell)
    && r.price == o.price && r.shares == o.shares
  }

  function Images(orders: map<nat, Order>): Replica {
    map id | id in orders :: Image(orders[id])
  }

  function Part(orders: map<nat, Order>, ids: set<nat>): Replica {
    map id | id in ids && id in orders :: Image(orders[id])
  }

  /** What an amendment drives out of the book without telling anyone. */
  function Lost(s: Sim, a: Action): Replica {
    if a.Amend? && Effective(s, a) then
      var b, o := Remove(s.book, Picked(s, a)), Incoming(s, a);
      Part(b.orders[o.id := o], SetOf(Evicted(b, o)))
    else
      map[]
  }

  /** What a consumer still holds although the book has dropped it, after a run. */
  function RunLost(s: Sim, actions: seq<Action>, y: Symbol): Replica
    decreases |actions|
  {
    if actions == [] then map[]
    else
      var before := Run(s, actions[..|actions| - 1], y);
      RunLost(s, actions[..|actions| - 1], y) + Lost(before, actions[|actions| - 1])
  }

  /** Orders the consumer holds in excess: issued once, and no longer in the book. */
  ghost predicate Excess(lost: Replica, s: Sim) {
    forall id :: id in lost ==> id !in s.book.orders && id <= s.lastId
  }

  // -------------------------------------------------------------------------------------------------
  // One action

  lemma {:induction false} ReplayDeletes(r: Replica, evicted: seq<nat>, id: nat, y: Symbol)
    ensures Replay(r, Deletes(evicted, id, y)) == r - (SetOf(evicted) - {id})
  {
    if evicted == [] {
      assert r - (SetOf(evicted) - {id}) == r;
    } else {
      var init, last := evicted[..|evicted| - 1], evicted[|evicted| - 1];
      ReplayDeletes(r, init, id, y);
      assert evicted == init + [last];
      assert SetOf(evicted) == SetOf(init) + {last};
      if last == id {
        assert SetOf(evicted) - {id} == SetOf(init) - {id};
        assert Deletes(evicted, id, y) == Deletes(init, id, y);
      } else {
        ReplayConcat(r, Deletes(init, id, y), [DeleteMessage(last, y)]);
        ReplayOne(r - (SetOf(init) - {id}), DeleteMessage(last, y));
        assert (r - (SetOf(init) - {id})) - {last} == r - (SetOf(evicted) - {id});
      }
    }
  }

  lemma ReplayAdd(r: Replica, o: Order, evicted: seq<nat>, y: Symbol)
    requires o.id !in r
    ensures Replay(r, AddMessages(o, evicted, y)) == r[o.id := Image(o)] - SetOf(evicted)
  {
    if o.id in evicted {
      ReplayDeletes(r, evicted, o.id, y);
      assert [] + Deletes(evicted, o.id, y) == Deletes(evicted, o.id, y);
      assert r - (SetOf(evicted) - {o.id}) == r[o.id := Image(o)] - SetOf(evicted);
    } else {
      ReplayOne(r, AddMessage(o, y));
      ReplayConcat(r, [AddMessage(o, y)], Deletes(evicted, o.id, y));
      ReplayDeletes(r[o.id := Image(o)], evicted, o.id, y);
      assert SetOf(evicted) - {o.id} == SetOf(evicted);
    }
  }

  lemma PlusNothing(r: Replica)
    ensures r + map[] == r && map[] + r == r
  {
  }

  lemma AddedImages(orders: map<nat, Order>, o: Order, gone: set<nat>, lost: Replica)
    requires o.id !in lost && gone !! lost.Keys
    ensures (Images(orders) + lost)[o.id := Image(o)] - gone == Images(orders[o.id := o] - gone) + lost
  {
  }

  lemma EvictedIsNotLost(s: Sim, o: Order, lost: Replica)
    requires Inv(s) && o.id == s.lastId + 1 && Excess(lost, s)
    ensures SetOf(Evicted(s.book, o)) !! lost.Keys && o.id !in lost
    ensures o.id !in Images(s.book.orders) + lost
  {
    forall id | id in Evicted(s.book, o)
      ensures id !in lost
    {
      EvictedFacts(s.book, o, id);
    }
  }

  lemma AddOrders(b: State, o: Order)
    ensures Add(b, o).orders == b.orders[o.id := o] - SetOf(Evicted(b, o))
    ensures AddUntrimmed(b, o).orders == b.orders[o.id := o]
  {
  }

  lemma PlaceStep(s: Sim, o: Order, y: Symbol, lost: Replica)
    requires Inv(s) && o.id == s.lastId + 1 && Excess(lost, s)
    ensures Replay(Images(s.book.orders) + lost, AddMessages(o, Evicted(s.book, o), y))
         == Images(Add(s.book, o).orders) + lost
    ensures Excess(lost, Sim(Add(s.book, o), s.lastId + 1, s.lastMatch))
  {
    var evicted := Evicted(s.book, o);
    EvictedIsNotLost(s, o, lost);
    ReplayAdd(Images(s.book.orders) + lost, o, evicted, y);
    AddedImages(s.book.orders, o, SetOf(evicted), lost);
    AddOrders(s.book, o);
  }

  lemma RemoveStep(s: Sim, id: nat, y: Symbol, lost: Replica)
    requires id in s.book.orders && Excess(lost, s)
    ensures Replay(Images(s.book.orders) + lost, [DeleteMessage(id, y)]) == Images(Remove(s.book, id).orders) + lost
    ensures Excess(lost, s.(book := Remove(s.book, id)))
  {
    ReplayOne(Images(s.book.orders) + lost, DeleteMessage(id, y));
    assert (Images(s.book.orders) + lost) - {id} == Images(s.book.orders - {id}) + lost;
  }

  /** What one action should do to the consumer: it stays at the book plus what replaces have driven out. */
  ghost predicate InStep(s: Sim, s': Sim, messages: seq<Message>, gone: Replica, lost: Replica) {
    && Replay(Images(s.book.orders) + lost, messages) == Images(s'.book.orders) + (lost + gone)
    && Excess(lost + gone, s')
  }

  function ReducedOrders(orders: map<nat, Order>, id: nat, shares: int): map<nat, Order>
    requires id in orders
  {
    if orders[id].shares - shares <= 0 then orders - {id}
    else orders[id := orders[id].(shares := orders[id].shares - shares)]
  }

  lemma ReducedImages(orders: map<nat, Order>, id: nat, shares: int, lost: Replica)
    requires id in orders && id !in lost
    ensures Reduced(Images(orders) + lost, id, shares) == Images(ReducedOrders(orders, id, shares)) + lost
  {
  }

  lemma ExecuteStep(s: Sim, o: Order, shares: int, aggressor: Side, y: Symbol, lost: Replica)
    requires o.id in s.book.orders && s.book.orders[o.id] == o && Excess(lost, s)
    ensures InStep(s, Sim(Reduce(s.book, o.id, shares), s.lastId, s.lastMatch + 1),
                   [ExecutedMessage(o, shares, s.lastMatch + 1, y),
                    TradeMessage(o, aggressor, shares, s.lastMatch + 1, y)], map[], lost)
  {
    var n, r := s.lastMatch + 1, Images(s.book.orders) + lost;
    ReplayPair(r, ExecutedMessage(o, shares, n, y), TradeMessage(o, aggressor, shares, n, y), o.id, shares);
    ReducedImages(s.book.orders, o.id, shares, lost);
    assert Reduce(s.book, o.id, shares).orders == ReducedOrders(s.book.orders, o.id, shares);
    PlusNothing(lost);
  }

  /** An execution and the trade that reports it count once. */
  lemma ReplayPair(r: Replica, e: Message, t: Message, id: nat, shares: int)
    requires e.kind == ORDER_EXECUTED && e.orderRef == id && e.shares == shares && t.kind == TRADE
    ensures Replay(r, [e, t]) == Reduced(r, id, shares)
  {
    assert [e, t][1..] == [t];
    ReplayOne(Consume(r, e), t);
  }

  /** Cutting ids out of the book leaves the consumer with their images. */
  lemma SplitImages(orders: map<nat, Order>, ids: set<nat>, lost: Replica)
    requires lost.Keys !! orders.Keys
    ensures Images(orders) + lost == Images(orders - ids) + (lost + Part(orders, ids))
  {
  }

  /** A replace as the consumer sees it: the swap happens, and nothing is trimmed. */
  lemma ConsumeReplace(orders: map<nat, Order>, id: nat, o: Order, lost: Replica, y: Symbol)
    requires id in orders && o.side == orders[id].side && o.id !in orders && o.id !in lost && id !in lost
    ensures Consume(Images(orders) + lost, ReplaceMessage(id, o.id, o.price, o.shares, y))
         == Images((orders - {id})[o.id := o]) + lost
  {
  }

  lemma AmendExcess(s: Sim, b: State, o: Order, lost: Replica)
    requires WellFormed(b) && Issued(b.orders, s.lastId) && b.orders.Keys <= s.book.orders.Keys
    requires o.id == s.lastId + 1 && Excess(lost, s)
    ensures Excess(lost + Part(b.orders[o.id := o], SetOf(Evicted(b, o))), Sim(Add(b, o), s.lastId + 1, s.lastMatch))
    ensures lost.Keys !! b.orders[o.id := o].Keys
  {
    AddOrders(b, o);
    forall x | x in Part(b.orders[o.id := o], SetOf(Evicted(b, o)))
      ensures x !in Add(b, o).orders && x <= o.id
    {
      EvictedFacts(b, o, x);
    }
  }

  /** The swap of order id for o, seen by the consumer and then by the book, which b is without id. */
  lemma AmendStep(s: Sim, id: nat, b: State, o: Order, y: Symbol, lost: Replica)
    requires Inv(s) && id in s.book.orders && Excess(lost, s) && b == Remove(s.book, id)
    requires o == Replacement(s.book.orders[id], s.lastId + 1, o.price, o.shares)
    ensures var part := Part(b.orders[o.id := o], SetOf(Evicted(b, o)));
            Replay(Images(s.book.orders) + lost, [ReplaceMessage(id, o.id, o.price, o.shares, y)])
            == Images(Add(b, o).orders) + (lost + part)
            && Excess(lost + part, Sim(Add(b, o), s.lastId + 1, s.lastMatch))
  {
    RemoveKeeps(s.book, id);
    ReplayOne(Images(s.book.orders) + lost, ReplaceMessage(id, o.id, o.price, o.shares, y));
    ConsumeReplace(s.book.orders, id, o, lost, y);
    assert b.orders == s.book.orders - {id};
    AmendExcess(s, b, o, lost);
    SplitImages(b.orders[o.id := o], SetOf(Evicted(b, o)), lost);
    AddOrders(b, o);
  }

  lemma PlaceInStep(s: Sim, a: Action, y: Symbol, lost: Replica)
    requires Inv(s) && Legal(s, a) && a.Place? && Excess(lost, s)
    ensures InStep(s, Placed(s, a, y), Messages(s, a, y), map[], lost)
  {
    PlaceStep(s, NewOrder(s, a, y), y, lost);
    PlusNothing(lost);
  }

  lemma ExecuteInStep(s: Sim, a: Action, y: Symbol, lost: Replica)
    requires Inv(s) && Legal(s, a) && a.Execute? && Effective(s, a) && Excess(lost, s)
    ensures InStep(s, Executed(s, a), Messages(s, a, y), map[], lost)
  {
    ExecutedSize(s, a);
    var o, shares := Hit(s, a), Fill(s, a);
    ExecuteStep(s, o, shares, a.aggressor, y, lost);
  }

  lemma CancelInStep(s: Sim, a: Action, y: Symbol, lost: Replica)
    requires Inv(s) && a.Cancel? && Effective(s, a) && Excess(lost, s)
    ensures InStep(s, Cancelled(s, a), Messages(s, a, y), map[], lost)
  {
    RestingIsIndexed(s.book, Picked(s, a));
    RemoveStep(s, Picked(s, a), y, lost);
    PlusNothing(lost);
  }

  lemma AmendInStep(s: Sim, a: Action, y: Symbol, lost: Replica)
    requires Inv(s) && Legal(s, a) && a.Amend? && Effective(s, a) && Excess(lost, s)
    ensures InStep(s, Amended(s, a), Messages(s, a, y), Lost(s, a), lost)
  {
    RestingIsIndexed(s.book, Picked(s, a));
    AmendStep(s, Picked(s, a), Remove(s.book, Picked(s, a)), Incoming(s, a), y, lost);
  }

  lemma FeedStep(s: Sim, a: Action, y: Symbol, lost: Replica)
    requires Inv(s) && Legal(s, a) && Excess(lost, s)
    ensures InStep(s, Act(s, a, y), Messages(s, a, y), Lost(s, a), lost)
  {
    if !Effective(s, a) {
      PlusNothing(lost);
    } else {
      match a
      case Place(_, _, _, _) => PlaceInStep(s, a, y, lost);
      case Cancel(_) => CancelInStep(s, a, y, lost);
      case Amend(_, _, _) => AmendInStep(s, a, y, lost);
      case Execute(_, _) => ExecuteInStep(s, a, y, lost);
    }
  }

  // -------------------------------------------------------------------------------------------------
  // Whole runs

  lemma {:induction false} FeedRun(s: Sim, actions: seq<Action>, y: Symbol)
    requires Inv(s) && LegalRun(s, actions, y)
    ensures Replay(Images(s.book.orders), RunMessages(s, actions, y))
         == Images(Run(s, actions, y).book.orders) + RunLost(s, actions, y)
    ensures Excess(RunLost(s, actions, y), Run(s, actions, y))
    decreases |actions|
  {
    if actions == [] {
      PlusNothing(Images(s.book.orders));
    } else {
      var init, a := actions[..|actions| - 1], actions[|actions| - 1];
      var before := Run(s, init, y);
      FeedRun(s, init, y);
      RunKeeps(s, init, y);
      FeedStep(before, a, y, RunLost(s, init, y));
      ReplayConcat(Images(s.book.orders), RunMessages(s, init, y), Messages(before, a, y));
    }
  }

  /** No amendment of a run drives anything out of the book. */
  predicate NothingTrimmed(s: Sim, actions: seq<Action>, y: Symbol)
    decreases |actions|
  {
    actions == [] ||
    (NothingTrimmed(s, actions[..|actions| - 1], y)
     && Lost(Run(s, actions[..|actions| - 1], y), actions[|actions| - 1]) == map[])
  }

  lemma SumIsNothing(a: Replica, b: Replica)
    ensures a + b == map[] <==> a == map[] && b == map[]
  {
    assert (a + b).Keys == a.Keys + b.Keys;
    assert a == map[] <==> a.Keys == {};
    assert b == map[] <==> b.Keys == {};
  }

  lemma {:induction false} NothingLost(s: Sim, actions: seq<Action>, y: Symbol)
    ensures NothingTrimmed(s, actions, y) <==> RunLost(s, actions, y) == map[]
    decreases |actions|
  {
    if actions != [] {
      var init := actions[..|actions| - 1];
      NothingLost(s, init, y);
      SumIsNothing(RunLost(s, init, y), Lost(Run(s, init, y), actions[|actions| - 1]));
    }
  }

  /** How a replica that is a book's image plus excess orders compares with the book. */
  lemma BeyondTheBook(orders: map<nat, Order>, lost: Replica)
    requires lost.Keys !! orders.Keys
    ensures var r := Images(orders) + lost;
            && (forall id :: id in orders ==> id in r && r[id] == Image(orders[id]))
            && r.Keys == orders.Keys + lost.Keys
            && (r == Images(orders) <==> lost == map[])
            && (r.Keys == orders.Keys <==> lost == map[])
  {
    var r := Images(orders) + lost;
    assert r.Keys == orders.Keys + lost.Keys;
    assert lost == map[] <==> lost.Keys == {};
    if r == Images(orders) {
      assert Images(orders).Keys == orders.Keys;
      assert lost.Keys == {};
    } else {
      assert lost != map[];
    }
  }

  /** Feed refinement, from a consumer that starts with the book: after any legal run it holds every resting
      order as the book has it, and beyond those only orders that replaces drove out; it holds exactly the
      book if and only if no replace of the run drove anything out. */
  lemma FeedRefinesBook(s: Sim, actions: seq<Action>, y: Symbol)
    requires Inv(s) && LegalRun(s, actions, y)
    ensures var r, orders := Replay(Images(s.book.orders), RunMessages(s, actions, y)), Run(s, actions, y).book.orders;
            && (forall id :: id in orders ==> id in r && Tells(r[id], orders[id]))
            && (forall id :: id in orders ==> r[id] == Image(orders[id]))
            && r.Keys == orders.Keys + RunLost(s, actions, y).Keys
            && RunLost(s, actions, y).Keys !! orders.Keys
            && (r == Images(orders) <==> NothingTrimmed(s, actions, y))
            && (r.Keys == orders.Keys <==> NothingTrimmed(s, actions, y))
  {
    var lost := RunLost(s, actions, y);
    FeedRun(s, actions, y);
    BeyondTheBook(Run(s, actions, y).book.orders, lost);
    NothingLost(s, actions, y);
  }
}
