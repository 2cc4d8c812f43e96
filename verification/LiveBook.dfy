// The order book object of internal/orderbook/book.go: levels of pointers to orders, and an index from id
// to order, both changed in place. Every method is proved against its counterpart in module OrderBook.
module LiveBook {
  import opened Bytes
  import opened OrderBook
  import Sequences
  import opened Counters

  /** An order on the heap: only its size ever changes. */
  class RestingOrder {
    const id: nat
    const locate: nat
    const side: Side
    const price: int
    const priority: int
    const mpid: seq<Byte>
    var shares: int

    constructor (o: Order)
      ensures Value() == o
    {
      id, locate, side, price, priority, mpid := o.id, o.locate, o.side, o.price, o.priority, o.mpid;
      shares := o.shares;
    }

    function Value(): (o: Order)
      reads this
      ensures o.id == id && o.side == side && o.price == price
    {
      Order(id, locate, side, price, shares, priority, mpid)
    }
  }

  datatype PriceLevel = PriceLevel(price: int, orders: seq<RestingOrder>)

  function IdsOf(orders: seq<RestingOrder>): (ids: seq<nat>)
    ensures |ids| == |orders|
  {
    seq(|orders|, i requires 0 <= i < |orders| => orders[i].id)
  }

  function View(levels: seq<PriceLevel>): (v: seq<Level>)
    ensures |v| == |levels|
    ensures forall i :: 0 <= i < |v| ==> v[i] == Level(levels[i].price, IdsOf(levels[i].orders))
  {
    seq(|levels|, i requires 0 <= i < |levels| => Level(levels[i].price, IdsOf(levels[i].orders)))
  }

  ghost function Refs(levels: seq<PriceLevel>): set<RestingOrder> {
    set l, o | l in levels && o in l.orders :: o
  }

  lemma ViewConcat(a: seq<PriceLevel>, b: seq<PriceLevel>)
    ensures View(a + b) == View(a) + View(b)
  {
  }

  lemma IdsOfConcat(a: seq<RestingOrder>, b: seq<RestingOrder>)
    ensures IdsOf(a + b) == IdsOf(a) + IdsOf(b)
  {
  }

  lemma RefIsViewed(levels: seq<PriceLevel>, o: RestingOrder)
    requires o in Refs(levels)
    ensures o.id in Ids(View(levels))
  {
    var i :| 0 <= i < |levels| && o in levels[i].orders;
    var j :| 0 <= j < |levels[i].orders| && levels[i].orders[j] == o;
    assert IdsOf(levels[i].orders)[j] == o.id;
    OnLevel(View(levels), i, o.id);
  }

  // -------------------------------------------------------------------------------------------------
  // Sides

  lemma RankOfPresent(levels: seq<Level>, side: Side, price: int, i: nat)
    requires BestFirst(levels, side) && i < |levels| && levels[i].price == price
    ensures Rank(levels, side, price) == i
  {
    RankIs(levels, side, price, i);
  }

  lemma ViewAppend(levels: seq<PriceLevel>, i: nat, o: RestingOrder)
    requires i < |levels|
    ensures View(levels[i := PriceLevel(levels[i].price, levels[i].orders + [o])])
         == View(levels)[i := Level(levels[i].price, View(levels)[i].ids + [o.id])]
  {
    IdsOfConcat(levels[i].orders, [o]);
    assert IdsOf([o]) == [o.id];
  }

  lemma ViewInsert(levels: seq<PriceLevel>, k: nat, o: RestingOrder)
    requires k <= |levels|
    ensures View(levels[..k] + [PriceLevel(o.price, [o])] + levels[k..])
         == View(levels)[..k] + [Level(o.price, [o.id])] + View(levels)[k..]
  {
    assert IdsOf([o]) == [o.id];
  }

  /** The index of the level at a price, or the number of levels if there is none. */
  method FindLevel(levels: seq<PriceLevel>, price: int) returns (i: nat)
    ensures i <= |levels| && (i < |levels| ==> levels[i].price == price)
    ensures i == |levels| ==> forall j :: 0 <= j < |levels| ==> levels[j].price != price
  {
    for k := 0 to |levels|
      invariant forall j :: 0 <= j < k ==> levels[j].price != price
    {
      if levels[k].price == price {
        return k;
      }
    }
    return |levels|;
  }

  /** A new level, appended and sorted into place: it moves up past every level that is not better. */
  method InsertLevel(levels: seq<PriceLevel>, o: RestingOrder, side: Side) returns (all: seq<PriceLevel>)
    requires BestFirst(View(levels), side) && forall j :: 0 <= j < |levels| ==> levels[j].price != o.price
    ensures View(all) == Insert(View(levels), side, o.price, o.id)
    ensures Refs(all) <= Refs(levels) + {o}
  {
    var k := |levels|;
    while k > 0 && !Better(side, levels[k - 1].price, o.price)
      invariant 0 <= k <= |levels|
      invariant forall j :: k <= j < |levels| ==> !Better(side, levels[j].price, o.price)
    {
      k := k - 1;
    }
    all := levels[..k] + [PriceLevel(o.price, [o])] + levels[k..];
    assert k > 0 ==> View(levels)[k - 1].price == levels[k - 1].price;
    assert forall j :: 0 <= j < k ==> Better(side, View(levels)[j].price, o.price);
    RankIs(View(levels), side, o.price, k);
    ViewInsert(levels, k, o);
    assert k < |levels| ==> View(levels)[k].price != o.price;
  }

  method AddToSide(levels: seq<PriceLevel>, o: RestingOrder, side: Side)
    returns (kept: seq<PriceLevel>, evicted: seq<RestingOrder>)
    requires BestFirst(View(levels), side) && |levels| <= MAX_LEVELS
    ensures View(kept) == Kept(Insert(View(levels), side, o.price, o.id))
    ensures IdsOf(evicted) == Ids(Trimmed(Insert(View(levels), side, o.price, o.id)))
    ensures Refs(kept) <= Refs(levels) + {o}
    ensures forall e :: e in evicted ==> e in Refs(levels) + {o}
  {
    var i := FindLevel(levels, o.price);
    if i < |levels| {
      RankOfPresent(View(levels), side, o.price, i);
      ViewAppend(levels, i, o);
      return levels[i := PriceLevel(levels[i].price, levels[i].orders + [o])], [];
    }
    var all := InsertLevel(levels, o, side);
    kept, evicted := CutLevels(all);
  }

  method CutLevels(all: seq<PriceLevel>) returns (kept: seq<PriceLevel>, evicted: seq<RestingOrder>)
    ensures View(kept) == Kept(View(all)) && IdsOf(evicted) == Ids(Trimmed(View(all)))
    ensures Refs(kept) <= Refs(all) && forall e :: e in evicted ==> e in Refs(all)
  {
    kept, evicted := all, [];
    if |all| > MAX_LEVELS {
      evicted := Orders(all[MAX_LEVELS..]);
      kept := all[..MAX_LEVELS];
      assert View(all[MAX_LEVELS..]) == View(all)[MAX_LEVELS..];
    }
  }

  /** The orders of some levels, level by level. */
  method Orders(levels: seq<PriceLevel>) returns (orders: seq<RestingOrder>)
    ensures IdsOf(orders) == Ids(View(levels))
    ensures forall o :: o in orders ==> o in Refs(levels)
  {
    orders := [];
    for i := 0 to |levels|
      invariant IdsOf(orders) == Ids(View(levels[..i]))
      invariant forall o :: o in orders ==> o in Refs(levels)
    {
      IdsOfConcat(orders, levels[i].orders);
      assert levels[..i + 1] == levels[..i] + [levels[i]];
      ViewConcat(levels[..i], [levels[i]]);
      IdsConcat(View(levels[..i]), View([levels[i]]));
      IdsOne(View([levels[i]])[0]);
      orders := orders + levels[i].orders;
    }
    assert levels[..|levels|] == levels;
  }

  lemma {:induction false} RemoveFromPast(levels: seq<Level>, id: nat, i: nat)
    requires i <= |levels|
    requires forall k :: 0 <= k < i ==> id !in levels[k].ids
    ensures RemoveFrom(levels, id) == levels[..i] + RemoveFrom(levels[i..], id)
  {
    if i > 0 {
      var rest := levels[1..];
      RemoveFromPast(rest, id, i - 1);
      assert rest[i - 1..] == levels[i..];
      assert levels[..i] == [levels[0]] + rest[..i - 1];
      Sequences.ConcatAssociates([levels[0]], rest[..i - 1], RemoveFrom(levels[i..], id));
    } else {
      assert levels[0..] == levels;
    }
  }

  lemma RemoveFromHere(levels: seq<Level>, id: nat, i: nat, j: nat)
    requires i < |levels| && j < |levels[i].ids| && levels[i].ids[j] == id && id !in levels[i].ids[..j]
    requires forall k :: 0 <= k < i ==> id !in levels[k].ids
    ensures var rest := levels[i].ids[..j] + levels[i].ids[j + 1..];
            RemoveFrom(levels, id)
            == levels[..i] + (if rest == [] then [] else [Level(levels[i].price, rest)]) + levels[i + 1..]
  {
    RemoveFromPast(levels, id, i);
    RemoveFirstAt(levels[i].ids, j);
    assert levels[i..][1..] == levels[i + 1..];
  }

  method RemoveFromSide(levels: seq<PriceLevel>, id: nat) returns (left: seq<PriceLevel>)
    ensures View(left) == RemoveFrom(View(levels), id)
    ensures Refs(left) <= Refs(levels)
  {
    for i := 0 to |levels|
      invariant forall k :: 0 <= k < i ==> id !in View(levels)[k].ids
    {
      var orders := levels[i].orders;
      for j := 0 to |orders|
        invariant id !in IdsOf(orders)[..j]
      {
        if orders[j].id == id {
          RemoveFromHere(View(levels), id, i, j);
          var rest := orders[..j] + orders[j + 1..];
          IdsOfConcat(orders[..j], orders[j + 1..]);
          assert IdsOf(orders[..j]) == IdsOf(orders)[..j] && IdsOf(orders[j + 1..]) == IdsOf(orders)[j + 1..];
          left := SpliceLevel(levels, i, rest);
          return;
        }
      }
      assert IdsOf(orders)[..|orders|] == View(levels)[i].ids;
    }
    RemoveFromPast(View(levels), id, |levels|);
    assert View(levels)[..|levels|] == View(levels) && View(levels)[|levels|..] == [];
    left := levels;
  }

  /** Level i gets a shorter queue, and goes if the queue is empty. */
  method SpliceLevel(levels: seq<PriceLevel>, i: nat, rest: seq<RestingOrder>) returns (left: seq<PriceLevel>)
    requires i < |levels| && forall o :: o in rest ==> o in levels[i].orders
    ensures View(left) == View(levels)[..i]
                          + (if rest == [] then [] else [Level(levels[i].price, IdsOf(rest))]) + View(levels)[i + 1..]
    ensures Refs(left) <= Refs(levels)
  {
    if rest == [] {
      left := levels[..i] + levels[i + 1..];
    } else {
      left := levels[i := PriceLevel(levels[i].price, rest)];
    }
  }

  // -------------------------------------------------------------------------------------------------
  // Levels and index hold the very same objects

  ghost predicate Linked(refs: set<RestingOrder>, index: map<nat, RestingOrder>) {
    && (forall id :: id in index ==> index[id].id == id)
    && (forall o :: o in refs ==> o.id in index && index[o.id] == o)
  }

  lemma LinkOneMore(refs: set<RestingOrder>, index: map<nat, RestingOrder>, o: RestingOrder)
    requires Linked(refs, index) && o.id !in index
    ensures Linked(refs + {o}, index[o.id := o])
  {
  }

  /** Links survive when the index loses entries, as long as every object still in a level stays indexed. */
  lemma LinkFewer(bids: seq<PriceLevel>, asks: seq<PriceLevel>, orders: map<nat, Order>,
                  refs: set<RestingOrder>, index: map<nat, RestingOrder>, gone: set<nat>)
    requires Linked(refs, index) && Refs(bids) + Refs(asks) <= refs
    requires Consistent(State(View(bids), View(asks), orders)) && orders.Keys == (index - gone).Keys
    ensures Linked(Refs(bids) + Refs(asks), index - gone)
  {
    forall o | o in Refs(bids) + Refs(asks)
      ensures o.id in index - gone
    {
      if o in Refs(bids) {
        RefIsViewed(bids, o);
      } else {
        RefIsViewed(asks, o);
      }
      RestingIsIndexed(State(View(bids), View(asks), orders), o.id);
    }
  }

  /** What a book object keeps: linked pointers, and a well-formed abstract state. */
  ghost predicate Good(bids: seq<PriceLevel>, asks: seq<PriceLevel>, index: map<nat, RestingOrder>,
                       values: map<nat, Order>)
  {
    Linked(Refs(bids) + Refs(asks), index) && values.Keys == index.Keys
    && WellFormed(State(View(bids), View(asks), values))
  }

  lemma GoodAfterAdd(bids: seq<PriceLevel>, asks: seq<PriceLevel>, index: map<nat, RestingOrder>,
                     values: map<nat, Order>, o: RestingOrder, value: Order,
                     bids': seq<PriceLevel>, asks': seq<PriceLevel>, values': map<nat, Order>, gone: set<nat>)
    requires Good(bids, asks, index, values) && o.id !in index && value.id == o.id
    requires Refs(bids') + Refs(asks') <= Refs(bids) + Refs(asks) + {o}
    requires values'.Keys == (index[o.id := o] - gone).Keys
    requires State(View(bids'), View(asks'), values') == Add(State(View(bids), View(asks), values), value)
    ensures Good(bids', asks', index[o.id := o] - gone, values')
  {
    AddKeeps(State(View(bids), View(asks), values), value);
    LinkOneMore(Refs(bids) + Refs(asks), index, o);
    LinkFewer(bids', asks', values', Refs(bids) + Refs(asks) + {o}, index[o.id := o], gone);
  }

  lemma GoodAfterRemove(bids: seq<PriceLevel>, asks: seq<PriceLevel>, index: map<nat, RestingOrder>,
                        values: map<nat, Order>, id: nat, bids': seq<PriceLevel>, asks': seq<PriceLevel>)
    requires Good(bids, asks, index, values) && id in index
    requires Refs(bids') + Refs(asks') <= Refs(bids) + Refs(asks)
    requires State(View(bids'), View(asks'), values - {id}) == Remove(State(View(bids), View(asks), values), id)
    ensures Good(bids', asks', index - {id}, values - {id})
  {
    RemoveKeeps(State(View(bids), View(asks), values), id);
    assert (values - {id}).Keys == (index - {id}).Keys;
    LinkFewer(bids', asks', values - {id}, Refs(bids) + Refs(asks), index, {id});
  }

  function WithShares(b: State, id: nat, shares: int): State
    requires id in b.orders
  {
    b.(orders := b.orders[id := b.orders[id].(shares := shares)])
  }

  lemma GoodAfterChange(bids: seq<PriceLevel>, asks: seq<PriceLevel>, index: map<nat, RestingOrder>,
                        values: map<nat, Order>, id: nat, shares: int)
    requires Good(bids, asks, index, values) && id in index
    ensures Good(bids, asks, index, values[id := values[id].(shares := shares)])
  {
    ChangeSharesKeeps(State(View(bids), View(asks), values), id, shares);
  }

  lemma RemoveIgnoresShares(b: State, id: nat, shares: int)
    requires id in b.orders
    ensures Remove(WithShares(b, id, shares), id) == Remove(b, id)
  {
    assert WithShares(b, id, shares).orders - {id} == b.orders - {id};
  }

  ghost function ValuesOf(index: map<nat, RestingOrder>): map<nat, Order>
    reads index.Values
  {
    map id | id in index :: index[id].Value()
  }

  /** Orders that stay as they were keep an index's values. */
  twostate lemma ValuesStay(index: map<nat, RestingOrder>)
    requires unchanged(index.Values)
    ensures ValuesOf(index) == old(ValuesOf(index))
  {
  }

  lemma FewerValues(index: map<nat, RestingOrder>, id: nat)
    ensures (index - {id}).Values <= index.Values
  {
  }

  lemma AddIs(b: State, o: Order, b': State, gone: set<nat>)
    requires b'.Levels(o.side) == Kept(Insert(b.Levels(o.side), o.side, o.price, o.id))
    requires b'.Levels(Other(o.side)) == b.Levels(Other(o.side))
    requires gone == SetOf(Ids(Trimmed(Insert(b.Levels(o.side), o.side, o.price, o.id))))
    requires b'.orders == b.orders[o.id := o] - gone
    ensures b' == Add(b, o)
  {
  }

  // -------------------------------------------------------------------------------------------------
  // The book

  class Book {
    var bids: seq<PriceLevel>
    var asks: seq<PriceLevel>
    var orderMap: map<nat, RestingOrder>

    /** The abstract state: ids for pointers, and the value of every indexed order. */
    ghost function Contents(): State
      reads this, orderMap.Values
    {
      State(View(bids), View(asks), ValuesOf(orderMap))
    }

    ghost predicate Valid()
      reads this, orderMap.Values
    {
      Good(bids, asks, orderMap, ValuesOf(orderMap))
    }

    constructor ()
      ensures Valid() && Contents() == EMPTY
    {
      bids, asks, orderMap := [], [], map[];
    }

    /** Puts an order on its side; the index is left alone. */
    method PutOnSide(o: RestingOrder) returns (evicted: seq<RestingOrder>)
      requires BestFirst(View(bids), Buy) && |bids| <= MAX_LEVELS
      requires BestFirst(View(asks), Sell) && |asks| <= MAX_LEVELS
      modifies this`bids, this`asks
      ensures var l := Insert(View(if o.side == Buy then old(bids) else old(asks)), o.side, o.price, o.id);
              View(if o.side == Buy then bids else asks) == Kept(l) && IdsOf(evicted) == Ids(Trimmed(l))
      ensures if o.side == Buy then asks == old(asks) else bids == old(bids)
      ensures ValuesOf(orderMap) == old(ValuesOf(orderMap))
      ensures Refs(bids) + Refs(asks) <= old(Refs(bids) + Refs(asks)) + {o}
    {
      if o.side == Buy {
        bids, evicted := AddToSide(bids, o, Buy);
      } else {
        asks, evicted := AddToSide(asks, o, Sell);
      }
      ValuesStay(orderMap);
    }

    /** Puts an order on its side and into the index, and takes what is trimmed out of both. */
    method Place(o: RestingOrder) returns (evicted: seq<RestingOrder>)
      requires BestFirst(View(bids), Buy) && |bids| <= MAX_LEVELS
      requires BestFirst(View(asks), Sell) && |asks| <= MAX_LEVELS
      modifies this
      ensures Contents() == Add(old(Contents()), o.Value())
      ensures IdsOf(evicted) == Evicted(old(Contents()), o.Value())
      ensures Refs(bids) + Refs(asks) <= old(Refs(bids) + Refs(asks)) + {o}
      ensures orderMap == old(orderMap)[o.id := o] - SetOf(IdsOf(evicted))
    {
      ghost var before := Contents();
      orderMap := orderMap[o.id := o];
      assert ValuesOf(orderMap) == before.orders[o.id := o.Value()];
      evicted := PutOnSide(o);
      Unindex(evicted);
      AddIs(before, o.Value(), Contents(), SetOf(IdsOf(evicted)));
    }

    /** Adds an order. One whose id is taken replaces the indexed one, whose place in the levels stays. */
    method AddOrder(o: RestingOrder) returns (evicted: seq<RestingOrder>)
      requires Valid()
      modifies this
      ensures o.id !in old(orderMap) ==> Valid()
      ensures Contents() == Add(old(Contents()), o.Value())
      ensures IdsOf(evicted) == Evicted(old(Contents()), o.Value())
      ensures orderMap == old(orderMap)[o.id := o] - SetOf(IdsOf(evicted))
    {
      evicted := Place(o);
      if o.id !in old(orderMap) {
        GoodAfterAdd(old(bids), old(asks), old(orderMap), old(ValuesOf(orderMap)), o, o.Value(), bids, asks,
                     ValuesOf(orderMap), SetOf(IdsOf(evicted)));
      }
    }

    /** Drops the evicted orders from the index. */
    method Unindex(evicted: seq<RestingOrder>)
      modifies this`orderMap
      ensures orderMap == old(orderMap) - SetOf(IdsOf(evicted))
      ensures ValuesOf(orderMap) == old(ValuesOf(orderMap)) - SetOf(IdsOf(evicted))
    {
      for i := 0 to |evicted|
        invariant orderMap == old(orderMap) - SetOf(IdsOf(evicted[..i]))
      {
        assert IdsOf(evicted[..i + 1]) == IdsOf(evicted[..i]) + [evicted[i].id];
        orderMap := orderMap - {evicted[i].id};
      }
      assert evicted[..|evicted|] == evicted;
    }

    /** Takes an indexed order off its side and out of the index. */
    method Take(o: RestingOrder)
      requires Valid() && o.id in orderMap && orderMap[o.id] == o
      modifies this
      ensures Valid() && Contents() == Remove(old(Contents()), o.id)
      ensures orderMap == old(orderMap) - {o.id}
    {
      orderMap := orderMap - {o.id};
      if o.side == Buy {
        bids := RemoveFromSide(bids, o.id);
      } else {
        asks := RemoveFromSide(asks, o.id);
      }
      assert ValuesOf(orderMap) == old(ValuesOf(orderMap)) - {o.id};
      GoodAfterRemove(old(bids), old(asks), old(orderMap), old(ValuesOf(orderMap)), o.id, bids, asks);
    }

    method RemoveOrder(id: nat) returns (o: RestingOrder?)
      requires Valid()
      modifies this
      ensures Valid() && Contents() == Remove(old(Contents()), id)
      ensures o == if id in old(orderMap) then old(orderMap)[id] else null
      ensures orderMap == old(orderMap) - {id}
    {
      if id !in orderMap {
        return null;
      }
      o := orderMap[id];
      Take(o);
    }

    /** Changes the size of an indexed order, through its pointer: levels and index both see the change. */
    method SetShares(o: RestingOrder, shares: int)
      requires Valid() && o.id in orderMap && orderMap[o.id] == o
      modifies o
      ensures Valid() && Contents() == WithShares(old(Contents()), o.id, shares)
      ensures o.shares == shares
    {
      GoodAfterChange(bids, asks, orderMap, ValuesOf(orderMap), o.id, shares);
      o.shares := shares;
      assert ValuesOf(orderMap) == WithShares(old(Contents()), o.id, shares).orders;
    }

    method ReduceOrder(id: nat, reduceBy: int) returns (left: int)
      requires Valid()
      modifies this, orderMap.Values
      ensures Valid() && Contents() == Reduce(old(Contents()), id, reduceBy)
      ensures left == if id in Contents().orders then Contents().orders[id].shares else 0
      ensures orderMap.Values <= old(orderMap.Values)
    {
      if id !in orderMap {
        return 0;
      }
      var o := orderMap[id];
      assert o.id == id && Contents().orders[id] == o.Value();
      if o.shares - reduceBy <= 0 {
        SetShares(o, 0);
        RemoveIgnoresShares(old(Contents()), id, 0);
        Take(o);
        return 0;
      }
      SetShares(o, o.shares - reduceBy);
      left := o.shares;
    }

    /** Replaces an order by a new one with a new id; what the new one drives out is dropped silently. */
    method ReplaceOrder(oldId: nat, newPrice: int, newShares: int, ids: Counter) returns (o: RestingOrder?)
      requires Valid() && forall id :: id in orderMap ==> id <= ids.last
      modifies this, ids
      ensures Valid()
      ensures oldId !in old(orderMap) ==> o == null && Contents() == old(Contents()) && ids.last == old(ids.last)
      ensures oldId in old(orderMap) ==>
                && ids.last == old(ids.last) + 1 && o != null
                && o.Value() == Replacement(old(Contents()).orders[oldId], ids.last, newPrice, newShares)
                && Contents() == Replace(old(Contents()), oldId, ids.last, newPrice, newShares)
                && o.id == ids.last && o.price == newPrice && o.shares == newShares && o.priority == 0
                && o.side == old(orderMap[oldId].side) && o.locate == old(orderMap[oldId].locate)
                && o.mpid == old(orderMap[oldId].mpid)
      ensures o != null ==> fresh(o) && orderMap.Values <= old(orderMap.Values) + {o}
    {
      if oldId !in orderMap {
        return null;
      }
      var newId := ids.Next();
      assert Contents() == old(Contents());
      o := Substitute(orderMap[oldId], newId, newPrice, newShares);
    }

    method Substitute(prior: RestingOrder, newId: nat, newPrice: int, newShares: int) returns (o: RestingOrder)
      requires Valid() && prior.id in orderMap && orderMap[prior.id] == prior && newId !in orderMap
      modifies this
      ensures Valid() && o.Value() == Replacement(old(Contents()).orders[prior.id], newId, newPrice, newShares)
      ensures fresh(o) && orderMap.Values <= old(orderMap.Values) + {o}
      ensures Contents() == Replace(old(Contents()), prior.id, newId, newPrice, newShares)
    {
      ghost var b := Contents();
      assert b.orders[prior.id] == prior.Value();
      Take(prior);
      var value := Order(newId, prior.locate, prior.side, newPrice, newShares, 0, prior.mpid);
      assert value == Replacement(b.orders[prior.id], newId, newPrice, newShares);
      FewerValues(old(orderMap), prior.id);
      o := AddNew(value);
    }

    method AddNew(value: Order) returns (o: RestingOrder)
      requires Valid() && value.id !in orderMap
      modifies this
      ensures Valid() && o.Value() == value && Contents() == Add(old(Contents()), value)
      ensures fresh(o) && orderMap.Values <= old(orderMap.Values) + {o}
    {
      o := new RestingOrder(value);
      var evicted := AddOrder(o);
    }

    /** Puts a stored order back: as AddOrder, with nothing reported. */
    method RestoreOrder(o: RestingOrder)
      requires Valid()
      modifies this
      ensures Contents() == Add(old(Contents()), o.Value())
      ensures o.id !in old(orderMap) ==> Valid()
    {
      var evicted := AddOrder(o);
    }

    /** Every indexed order, in whatever order the index gives them out. */
    method AllOrders() returns (orders: seq<RestingOrder>)
      requires Valid()
      ensures multiset(IdsOf(orders)) == multiset(orderMap.Keys)
      ensures forall o :: o in orders ==> o.id in orderMap && orderMap[o.id] == o
    {
      orders := [];
      var left := orderMap.Keys;
      while left != {}
        invariant left <= orderMap.Keys
        invariant multiset(IdsOf(orders)) == multiset(orderMap.Keys - left)
        invariant forall o :: o in orders ==> o.id in orderMap && orderMap[o.id] == o
      {
        var id :| id in left;
        IdsOfConcat(orders, [orderMap[id]]);
        assert IdsOf([orderMap[id]]) == [id];
        assert orderMap.Keys - (left - {id}) == (orderMap.Keys - left) + {id};
        orders := orders + [orderMap[id]];
        left := left - {id};
      }
      assert orderMap.Keys - {} == orderMap.Keys;
    }

    method BestBid() returns (price: int)
      ensures price == Best(Contents().bids)
    {
      price := if |bids| == 0 then 0 else bids[0].price;
    }

    method BestAsk() returns (price: int)
      ensures price == Best(Contents().asks)
    {
      price := if |asks| == 0 then 0 else asks[0].price;
    }

    method RandomBidOrder(idx: int) returns (o: RestingOrder?)
      requires Valid()
      ensures o == null <==> !(0 <= idx < |Ids(Contents().bids)|)
      ensures o != null ==> o.id == Ids(Contents().bids)[idx] && o.id in orderMap && orderMap[o.id] == o
    {
      o := OrderAt(bids, idx);
    }

    method RandomAskOrder(idx: int) returns (o: RestingOrder?)
      requires Valid()
      ensures o == null <==> !(0 <= idx < |Ids(Contents().asks)|)
      ensures o != null ==> o.id == Ids(Contents().asks)[idx] && o.id in orderMap && orderMap[o.id] == o
    {
      o := OrderAt(asks, idx);
    }

    method TotalBidOrders() returns (n: nat)
      ensures n == |Ids(Contents().bids)|
    {
      n := CountOrders(bids);
    }

    method TotalAskOrders() returns (n: nat)
      ensures n == |Ids(Contents().asks)|
    {
      n := CountOrders(asks);
    }

    method Depth() returns (snapshot: DepthSnapshot)
      requires Valid()
      ensures snapshot == OrderBook.Depth(Contents())
      ensures ShowsBest(snapshot, Contents().orders)
    {
      DepthShowsBest(Contents());
      var bidLevels := DepthOfSide(bids, orderMap);
      var askLevels := DepthOfSide(asks, orderMap);
      var bestBid := BestBid();
      var bestAsk := BestAsk();
      snapshot := Snapshot(bidLevels, askLevels, bestBid, bestAsk);
    }
  }

  // -------------------------------------------------------------------------------------------------
  // Scans over the levels

  lemma IdsSplitAt(levels: seq<PriceLevel>, i: nat)
    requires i < |levels|
    ensures Ids(View(levels[..i + 1])) == Ids(View(levels[..i])) + IdsOf(levels[i].orders)
    ensures Ids(View(levels)) == Ids(View(levels[..i + 1])) + Ids(View(levels[i + 1..]))
  {
    assert levels[..i + 1] == levels[..i] + [levels[i]];
    ViewConcat(levels[..i], [levels[i]]);
    IdsConcat(View(levels[..i]), View([levels[i]]));
    IdsOne(View([levels[i]])[0]);
    assert View([levels[i]]) == [View([levels[i]])[0]];
    assert levels == levels[..i + 1] + levels[i + 1..];
    ViewConcat(levels[..i + 1], levels[i + 1..]);
    IdsConcat(View(levels[..i + 1]), View(levels[i + 1..]));
  }

  lemma RefAt(levels: seq<PriceLevel>, i: nat, j: nat)
    requires i < |levels| && j < |levels[i].orders|
    ensures levels[i].orders[j] in Refs(levels)
  {
    assert levels[i] in levels && levels[i].orders[j] in levels[i].orders;
  }

  method CountOrders(levels: seq<PriceLevel>) returns (n: nat)
    ensures n == |Ids(View(levels))|
  {
    n := 0;
    for i := 0 to |levels|
      invariant n == |Ids(View(levels[..i]))|
    {
      IdsSplitAt(levels, i);
      n := n + |levels[i].orders|;
    }
    assert levels[..|levels|] == levels;
  }

  /** The order at a position, counting level by level, or null past the end. */
  method OrderAt(levels: seq<PriceLevel>, idx: int) returns (o: RestingOrder?)
    ensures o == null <==> !(0 <= idx < |Ids(View(levels))|)
    ensures o != null ==> o in Refs(levels) && o.id == Ids(View(levels))[idx]
  {
    var count := 0;
    for i := 0 to |levels|
      invariant count == |Ids(View(levels[..i]))|
      invariant !(0 <= idx < count)
    {
      IdsSplitAt(levels, i);
      for j := 0 to |levels[i].orders|
        invariant count == |Ids(View(levels[..i]))| + j
        invariant !(0 <= idx < count)
      {
        if count == idx {
          o := levels[i].orders[j];
          RefAt(levels, i, j);
          assert Ids(View(levels))[idx] == Ids(View(levels[..i + 1]))[idx] == IdsOf(levels[i].orders)[j];
          return;
        }
        count := count + 1;
      }
    }
    assert levels[..|levels|] == levels;
    o := null;
  }

  lemma Int32Carries(x: int, y: int)
    ensures Int32(Int32(x) + y) == Int32(x + y)
  {
  }

  method DepthOfSide(levels: seq<PriceLevel>, index: map<nat, RestingOrder>) returns (depth: seq<DepthLevel>)
    requires Linked(Refs(levels), index)
    ensures depth == DepthOf(View(levels), ValuesOf(index))
  {
    depth := [];
    for i := 0 to |levels|
      invariant |depth| == i
      invariant forall k :: 0 <= k < i ==> depth[k] == DepthOf(View(levels), ValuesOf(index))[k]
    {
      var orders, total := levels[i].orders, 0;
      for j := 0 to |orders|
        invariant total == Int32(TotalShares(IdsOf(orders[..j]), ValuesOf(index)))
      {
        assert IdsOf(orders[..j + 1])[..j] == IdsOf(orders[..j]);
        RefAt(levels, i, j);
        Int32Carries(TotalShares(IdsOf(orders[..j]), ValuesOf(index)), orders[j].shares);
        total := Int32(total + orders[j].shares);
      }
      assert orders[..|orders|] == orders;
      depth := depth + [DepthLevel(levels[i].price, |orders|, total)];
    }
  }
}
