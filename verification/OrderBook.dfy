// The order book of internal/orderbook/book.go on values: what each operation does to the price levels
// and to the order index, and the invariant that keeps the two in agreement.
//
// An order is named by its id wherever the program holds a pointer to it; module LiveBook has the pointers.
module OrderBook {
  import opened Bytes
  import Sequences

  const MAX_LEVELS := 10

  datatype Side = Buy | Sell

  /** Prices are in ten-thousandths. */
  datatype Order = Order(id: nat, locate: nat, side: Side, price: int, shares: int, priority: int, mpid: seq<Byte>)

  datatype Level = Level(price: int, ids: seq<nat>)

  datatype State = State(bids: seq<Level>, asks: seq<Level>, orders: map<nat, Order>) {
    function Levels(side: Side): seq<Level> {
      if side == Buy then bids else asks
    }

    function WithLevels(side: Side, levels: seq<Level>): State {
      if side == Buy then this.(bids := levels) else this.(asks := levels)
    }

    /** Every resting order in the order of the levels, bids first: the sequence a random pick indexes. */
    function Resting(): seq<nat> {
      Ids(bids) + Ids(asks)
    }
  }

  const EMPTY := State([], [], map[])

  // -------------------------------------------------------------------------------------------------
  // Levels

  /** Whether price p comes before price q on a side: bids descend, asks ascend. */
  predicate Better(side: Side, p: int, q: int) {
    if side == Buy then p > q else p < q
  }

  function Ids(levels: seq<Level>): seq<nat> {
    if levels == [] then [] else levels[0].ids + Ids(levels[1..])
  }

  /** How many leading levels have a better price. */
  function Rank(levels: seq<Level>, side: Side, price: int): (k: nat)
    ensures k <= |levels|
    ensures forall i :: 0 <= i < k ==> Better(side, levels[i].price, price)
    ensures k < |levels| ==> !Better(side, levels[k].price, price)
  {
    if levels == [] || !Better(side, levels[0].price, price) then 0
    else 1 + Rank(levels[1..], side, price)
  }

  lemma RankIs(levels: seq<Level>, side: Side, price: int, k: nat)
    requires k <= |levels| && (forall i :: 0 <= i < k ==> Better(side, levels[i].price, price))
    requires k < |levels| ==> !Better(side, levels[k].price, price)
    ensures Rank(levels, side, price) == k
  {
  }

  function Insert(levels: seq<Level>, side: Side, price: int, id: nat): seq<Level> {
    var k := Rank(levels, side, price);
    if k < |levels| && levels[k].price == price then levels[k := Level(price, levels[k].ids + [id])]
    else levels[..k] + [Level(price, [id])] + levels[k..]
  }

  function Kept(levels: seq<Level>): seq<Level> {
    if |levels| > MAX_LEVELS then levels[..MAX_LEVELS] else levels
  }

  function Trimmed(levels: seq<Level>): seq<Level> {
    if |levels| > MAX_LEVELS then levels[MAX_LEVELS..] else []
  }

  function RemoveFirst(s: seq<nat>, x: nat): seq<nat> {
    if s == [] then [] else if s[0] == x then s[1..] else [s[0]] + RemoveFirst(s[1..], x)
  }

  function RemoveFrom(levels: seq<Level>, id: nat): seq<Level> {
    if levels == [] then []
    else if id in levels[0].ids then
      var rest := RemoveFirst(levels[0].ids, id);
      (if rest == [] then [] else [Level(levels[0].price, rest)]) + levels[1..]
    else [levels[0]] + RemoveFrom(levels[1..], id)
  }

  // -------------------------------------------------------------------------------------------------
  // Operations

  function SetOf(s: seq<nat>): set<nat> {
    set x | x in s
  }

  /** The book with an order added and nothing trimmed yet. */
  function AddUntrimmed(b: State, o: Order): State {
    b.WithLevels(o.side, Insert(b.Levels(o.side), o.side, o.price, o.id)).(orders := b.orders[o.id := o])
  }

  /** The book with one side cut down to ten levels: the orders on the levels cut leave the index, too. */
  function Trim(b: State, side: Side): State {
    b.WithLevels(side, Kept(b.Levels(side))).(orders := b.orders - SetOf(Ids(Trimmed(b.Levels(side)))))
  }

  function Add(b: State, o: Order): State {
    Trim(AddUntrimmed(b, o), o.side)
  }

  /** The ids that adding an order drives out; the order's own id is among them if its level is trimmed. */
  function Evicted(b: State, o: Order): seq<nat> {
    Ids(Trimmed(AddUntrimmed(b, o).Levels(o.side)))
  }

  function Remove(b: State, id: nat): State {
    if id !in b.orders then b
    else
      var side := b.orders[id].side;
      b.WithLevels(side, RemoveFrom(b.Levels(side), id)).(orders := b.orders - {id})
  }

  function Reduce(b: State, id: nat, quantity: int): State {
    if id !in b.orders then b
    else
      var o := b.orders[id];
      if o.shares - quantity <= 0 then Remove(b, id)
      else b.(orders := b.orders[id := o.(shares := o.shares - quantity)])
  }

  /** The order that takes an order's place: same side, locate and participant, no priority of its own. */
  function Replacement(prior: Order, newId: nat, price: int, shares: int): Order {
    Order(newId, prior.locate, prior.side, price, shares, 0, prior.mpid)
  }

  function Replace(b: State, oldId: nat, newId: nat, price: int, shares: int): State {
    if oldId !in b.orders then b
    else Add(Remove(b, oldId), Replacement(b.orders[oldId], newId, price, shares))
  }

  // -------------------------------------------------------------------------------------------------
  // The invariant

  ghost predicate BestFirst(levels: seq<Level>, side: Side) {
    forall i, j :: 0 <= i < j < |levels| ==> Better(side, levels[i].price, levels[j].price)
  }

  ghost predicate IsAt(id: nat, side: Side, price: int, orders: map<nat, Order>) {
    id in orders && orders[id].id == id && orders[id].side == side && orders[id].price == price
  }

  ghost predicate LevelOk(level: Level, side: Side, orders: map<nat, Order>) {
    level.ids != [] && forall id :: id in level.ids ==> IsAt(id, side, level.price, orders)
  }

  ghost predicate SideOk(levels: seq<Level>, side: Side, orders: map<nat, Order>) {
    && BestFirst(levels, side)
    && forall i :: 0 <= i < |levels| ==> LevelOk(levels[i], side, orders)
  }

  /** The ids reachable through the levels, with their numbers of occurrences. */
  ghost function Content(b: State): multiset<nat> {
    multiset(Ids(b.bids)) + multiset(Ids(b.asks))
  }

  /** The ids reachable through the levels are exactly the indexed ones, each once; every order rests on its
      own side at its own price; no level is empty; prices are strictly ordered. */
  ghost predicate Consistent(b: State) {
    && SideOk(b.bids, Buy, b.orders)
    && SideOk(b.asks, Sell, b.orders)
    && Content(b) == multiset(b.orders.Keys)
  }

  /** A consistent book with at most ten levels a side. */
  ghost predicate WellFormed(b: State) {
    Consistent(b) && |b.bids| <= MAX_LEVELS && |b.asks| <= MAX_LEVELS
  }

  // -------------------------------------------------------------------------------------------------
  // Flattened levels

  lemma {:induction false} IdsConcat(a: seq<Level>, b: seq<Level>)
    ensures Ids(a + b) == Ids(a) + Ids(b)
  {
    if a == [] {
      assert a + b == b;
    } else {
      IdsConcat(a[1..], b);
      assert (a + b)[1..] == a[1..] + b;
      Sequences.ConcatAssociates(a[0].ids, Ids(a[1..]), Ids(b));
    }
  }

  lemma IdsOne(l: Level)
    ensures Ids([l]) == l.ids
  {
    assert [l][1..] == [];
  }

  lemma {:induction false} LevelOf(levels: seq<Level>, id: nat) returns (i: nat)
    requires id in Ids(levels)
    ensures i < |levels| && id in levels[i].ids
  {
    if id in levels[0].ids {
      i := 0;
    } else {
      var k := LevelOf(levels[1..], id);
      i := k + 1;
    }
  }

  lemma {:induction false} OnLevel(levels: seq<Level>, i: nat, id: nat)
    requires i < |levels| && id in levels[i].ids
    ensures id in Ids(levels)
  {
    if i > 0 {
      OnLevel(levels[1..], i - 1, id);
    }
  }

  /** The flattened form splits around any one level. */
  lemma IdsAround(levels: seq<Level>, k: nat)
    requires k < |levels|
    ensures Ids(levels) == Ids(levels[..k]) + levels[k].ids + Ids(levels[k + 1..])
  {
    assert levels == levels[..k] + levels[k..];
    IdsConcat(levels[..k], levels[k..]);
  }

  lemma AppendIds(levels: seq<Level>, k: nat, id: nat)
    requires k < |levels|
    ensures multiset(Ids(levels[k := Level(levels[k].price, levels[k].ids + [id])]))
         == multiset(Ids(levels)) + multiset{id}
  {
    var l := levels[k := Level(levels[k].price, levels[k].ids + [id])];
    IdsAround(levels, k);
    IdsAround(l, k);
    assert l[..k] == levels[..k] && l[k + 1..] == levels[k + 1..];
    MoreInTheMiddle(Ids(levels[..k]), levels[k].ids, Ids(levels[k + 1..]), id);
  }

  lemma NewLevelIds(levels: seq<Level>, k: nat, price: int, id: nat)
    requires k <= |levels|
    ensures multiset(Ids(levels[..k] + [Level(price, [id])] + levels[k..])) == multiset(Ids(levels)) + multiset{id}
  {
    var a, b := levels[..k], levels[k..];
    assert levels == a + b;
    IdsConcat(a, b);
    IdsConcat(a + [Level(price, [id])], b);
    IdsConcat(a, [Level(price, [id])]);
    IdsOne(Level(price, [id]));
    MoreInTheMiddle(Ids(a), [], Ids(b), id);
    assert Ids(a) + [] == Ids(a) && [] + [id] == [id];
  }

  lemma InsertIds(levels: seq<Level>, side: Side, price: int, id: nat)
    ensures multiset(Ids(Insert(levels, side, price, id))) == multiset(Ids(levels)) + multiset{id}
  {
    var k := Rank(levels, side, price);
    if k < |levels| && levels[k].price == price {
      AppendIds(levels, k, id);
    } else {
      NewLevelIds(levels, k, price, id);
    }
  }

  lemma MoreInTheMiddle(a: seq<nat>, b: seq<nat>, c: seq<nat>, id: nat)
    ensures multiset(a + (b + [id]) + c) == multiset(a + b + c) + multiset{id}
  {
  }

  lemma InsertSorted(levels: seq<Level>, side: Side, price: int, id: nat)
    requires BestFirst(levels, side)
    ensures BestFirst(Insert(levels, side, price, id), side)
  {
    var k := Rank(levels, side, price);
    if k < |levels| && levels[k].price == price {
      var l := levels[k := Level(price, levels[k].ids + [id])];
      assert forall i :: 0 <= i < |l| ==> l[i].price == levels[i].price;
    } else {
      var l := levels[..k] + [Level(price, [id])] + levels[k..];
      assert forall i :: k < i < |l| ==> l[i] == levels[i - 1];
      assert forall i :: k < i < |l| ==> Better(side, price, l[i].price);
    }
  }

  lemma LevelGrows(level: Level, side: Side, orders: map<nat, Order>, o: Order)
    requires LevelOk(level, side, orders) && o.id !in orders
    ensures LevelOk(level, side, orders[o.id := o])
    ensures o.side == side && o.price == level.price ==>
              LevelOk(Level(level.price, level.ids + [o.id]), side, orders[o.id := o])
  {
  }

  lemma InsertSideOk(levels: seq<Level>, o: Order, orders: map<nat, Order>)
    requires SideOk(levels, o.side, orders) && o.id !in orders
    ensures SideOk(Insert(levels, o.side, o.price, o.id), o.side, orders[o.id := o])
  {
    InsertSorted(levels, o.side, o.price, o.id);
    forall i | 0 <= i < |levels|
      ensures LevelOk(levels[i], o.side, orders[o.id := o])
      ensures levels[i].price == o.price ==>
                LevelOk(Level(o.price, levels[i].ids + [o.id]), o.side, orders[o.id := o])
    {
      LevelGrows(levels[i], o.side, orders, o);
    }
    assert LevelOk(Level(o.price, [o.id]), o.side, orders[o.id := o]);
  }

  lemma {:induction false} RemoveFirstFacts(s: seq<nat>, x: nat)
    ensures multiset(RemoveFirst(s, x)) == multiset(s) - multiset{x}
    ensures x !in s ==> RemoveFirst(s, x) == s
  {
    if s != [] {
      assert s == [s[0]] + s[1..];
      RemoveFirstFacts(s[1..], x);
    }
  }

  lemma {:induction false} RemoveFirstConcat(s: seq<nat>, t: seq<nat>, x: nat)
    ensures RemoveFirst(s + t, x) == if x in s then RemoveFirst(s, x) + t else s + RemoveFirst(t, x)
  {
    if s == [] {
      assert s + t == t;
    } else {
      assert (s + t)[1..] == s[1..] + t;
      if s[0] != x {
        RemoveFirstConcat(s[1..], t, x);
        assert x in s <==> x in s[1..];
        assert s == [s[0]] + s[1..];
      }
    }
  }

  /** Where x occurs once, removing it is cutting it out at its position. */
  lemma {:induction false} RemoveFirstAt(s: seq<nat>, k: nat)
    requires k < |s| && s[k] !in s[..k]
    ensures RemoveFirst(s, s[k]) == s[..k] + s[k + 1..]
  {
    if k > 0 {
      assert s[0] == s[..k][0];
      assert s[1..][..k - 1] == s[..k][1..];
      RemoveFirstAt(s[1..], k - 1);
      assert s[..k] + s[k + 1..] == [s[0]] + (s[1..][..k - 1] + s[1..][k..]);
    } else {
      assert s[..0] + s[1..] == s[1..];
    }
  }

  lemma {:induction false} RemoveFromIds(levels: seq<Level>, id: nat)
    ensures Ids(RemoveFrom(levels, id)) == RemoveFirst(Ids(levels), id)
  {
    if levels != [] {
      var l, rest := levels[0], levels[1..];
      RemoveFirstConcat(l.ids, Ids(rest), id);
      if id in l.ids {
        var fewer := RemoveFirst(l.ids, id);
        if fewer == [] {
          assert [] + rest == rest;
        } else {
          IdsConcat([Level(l.price, fewer)], rest);
          IdsOne(Level(l.price, fewer));
        }
      } else {
        RemoveFromIds(rest, id);
        IdsConcat([l], RemoveFrom(rest, id));
        IdsOne(l);
      }
    }
  }

  ghost predicate HasPrice(levels: seq<Level>, price: int) {
    exists k :: 0 <= k < |levels| && levels[k].price == price
  }

  ghost predicate PricesFrom(levels: seq<Level>, source: seq<Level>) {
    forall i :: 0 <= i < |levels| ==> HasPrice(source, levels[i].price)
  }

  lemma LevelShrinks(l: Level, id: nat, side: Side, orders: map<nat, Order>)
    requires LevelOk(l, side, orders) && RemoveFirst(l.ids, id) != []
    ensures LevelOk(Level(l.price, RemoveFirst(l.ids, id)), side, orders)
  {
    var fewer := RemoveFirst(l.ids, id);
    RemoveFirstFacts(l.ids, id);
    forall x | x in fewer
      ensures IsAt(x, side, l.price, orders)
    {
      assert x in multiset(fewer);
      assert x in multiset(l.ids);
    }
  }

  lemma WithoutHead(levels: seq<Level>, side: Side, orders: map<nat, Order>)
    requires SideOk(levels, side, orders) && levels != []
    ensures SideOk(levels[1..], side, orders)
    ensures PricesFrom(levels[1..], levels)
  {
    assert forall i :: 0 <= i < |levels| - 1 ==> levels[1..][i] == levels[i + 1];
  }

  lemma WithHead(levels: seq<Level>, side: Side, orders: map<nat, Order>, head: Level)
    requires SideOk(levels, side, orders) && levels != []
    requires head.price == levels[0].price && LevelOk(head, side, orders)
    ensures SideOk(levels[0 := head], side, orders)
    ensures PricesFrom(levels[0 := head], levels)
  {
    assert forall i :: 0 <= i < |levels| ==> levels[0 := head][i].price == levels[i].price;
  }

  lemma RemoveFromHead(levels: seq<Level>, id: nat, side: Side, orders: map<nat, Order>)
    requires SideOk(levels, side, orders) && levels != [] && id in levels[0].ids
    ensures SideOk(RemoveFrom(levels, id), side, orders) && |RemoveFrom(levels, id)| <= |levels|
    ensures PricesFrom(RemoveFrom(levels, id), levels)
  {
    var l := levels[0];
    assert LevelOk(l, side, orders);
    if RemoveFirst(l.ids, id) == [] {
      WithoutHead(levels, side, orders);
      assert RemoveFrom(levels, id) == levels[1..];
    } else {
      var head := Level(l.price, RemoveFirst(l.ids, id));
      LevelShrinks(l, id, side, orders);
      WithHead(levels, side, orders, head);
      assert RemoveFrom(levels, id) == [head] + levels[1..] == levels[0 := head];
    }
  }

  lemma ConsSideOk(l: Level, levels: seq<Level>, side: Side, orders: map<nat, Order>)
    requires LevelOk(l, side, orders) && SideOk(levels, side, orders)
    requires forall i :: 0 <= i < |levels| ==> Better(side, l.price, levels[i].price)
    ensures SideOk([l] + levels, side, orders)
  {
  }

  /** Prices that come from the levels behind the first one are worse than the first one's. */
  lemma WorseThanHead(levels: seq<Level>, r: seq<Level>, side: Side)
    requires levels != [] && BestFirst(levels, side) && PricesFrom(r, levels[1..])
    ensures forall i :: 0 <= i < |r| ==> Better(side, levels[0].price, r[i].price)
    ensures PricesFrom([levels[0]] + r, levels)
  {
    forall i | 0 <= i < |r|
      ensures Better(side, levels[0].price, r[i].price) && HasPrice(levels, r[i].price)
    {
      assert HasPrice(levels[1..], r[i].price);
      var k :| 0 <= k < |levels[1..]| && levels[1..][k].price == r[i].price;
      assert levels[k + 1].price == r[i].price;
    }
    assert HasPrice(levels, levels[0].price);
  }

  lemma {:induction false} RemoveFromSideOk(levels: seq<Level>, id: nat, side: Side, orders: map<nat, Order>)
    requires SideOk(levels, side, orders)
    ensures SideOk(RemoveFrom(levels, id), side, orders) && |RemoveFrom(levels, id)| <= |levels|
    ensures PricesFrom(RemoveFrom(levels, id), levels)
  {
    if levels != [] {
      if id in levels[0].ids {
        RemoveFromHead(levels, id, side, orders);
      } else {
        assert LevelOk(levels[0], side, orders);
        WithoutHead(levels, side, orders);
        RemoveFromSideOk(levels[1..], id, side, orders);
        WorseThanHead(levels, RemoveFrom(levels[1..], id), side);
        ConsSideOk(levels[0], RemoveFrom(levels[1..], id), side, orders);
      }
    }
  }

  ghost predicate SamePlace(id: nat, orders: map<nat, Order>, orders': map<nat, Order>) {
    && id in orders && id in orders' && orders'[id].id == orders[id].id
    && orders'[id].side == orders[id].side && orders'[id].price == orders[id].price
  }

  /** A side stays in order when orders that do not rest on it come, go or change. */
  lemma SideOkFrame(levels: seq<Level>, side: Side, orders: map<nat, Order>, orders': map<nat, Order>)
    requires SideOk(levels, side, orders)
    requires forall id :: id in Ids(levels) ==> SamePlace(id, orders, orders')
    ensures SideOk(levels, side, orders')
  {
    forall i | 0 <= i < |levels|
      ensures LevelOk(levels[i], side, orders')
    {
      assert LevelOk(levels[i], side, orders);
      forall id | id in levels[i].ids
        ensures IsAt(id, side, levels[i].price, orders')
      {
        OnLevel(levels, i, id);
        assert IsAt(id, side, levels[i].price, orders);
      }
    }
  }

  // -------------------------------------------------------------------------------------------------
  // Every operation keeps the invariant

  lemma KeptAndTrimmed(levels: seq<Level>, side: Side, orders: map<nat, Order>)
    requires SideOk(levels, side, orders)
    ensures SideOk(Kept(levels), side, orders)
    ensures Ids(levels) == Ids(Kept(levels)) + Ids(Trimmed(levels))
  {
    assert levels == Kept(levels) + Trimmed(levels);
    IdsConcat(Kept(levels), Trimmed(levels));
  }

  /** When the indexed ids, each once, split into those kept and those cut, no kept id is cut. */
  lemma Partition(keys: set<nat>, kept: multiset<nat>, cut: seq<nat>)
    requires multiset(keys) == kept + multiset(cut)
    ensures multiset(keys - SetOf(cut)) == kept
    ensures forall id :: id in kept ==> id in keys && id !in cut
    ensures SetOf(cut) <= keys
  {
    forall id
      ensures multiset(keys - SetOf(cut))[id] == kept[id]
    {
      assert multiset(keys)[id] == kept[id] + multiset(cut)[id];
      assert id in cut <==> multiset(cut)[id] > 0;
    }
    forall id | id in cut
      ensures id in keys
    {
      assert multiset(cut)[id] > 0;
      assert multiset(keys)[id] > 0;
    }
    forall id | id in kept
      ensures id in keys && id !in cut
    {
      assert multiset(keys)[id] == kept[id] + multiset(cut)[id];
      assert id in cut <==> multiset(cut)[id] > 0;
    }
  }

  /** The ids of one side shrink by one. */
  lemma OneFewer(keys: set<nat>, id: nat, levels: multiset<nat>, rest: multiset<nat>, fewer: multiset<nat>)
    requires multiset(keys) == levels + rest && id in levels && fewer == levels - multiset{id}
    ensures multiset(keys - {id}) == fewer + rest
    ensures forall x :: x in fewer + rest ==> x in keys && x != id
  {
    forall x
      ensures multiset(keys - {id})[x] == (fewer + rest)[x]
    {
      assert multiset(keys)[x] == levels[x] + rest[x];
    }
    forall x | x in fewer + rest
      ensures x in keys && x != id
    {
      assert multiset(keys - {id})[x] > 0;
    }
  }

  function Other(side: Side): Side {
    if side == Buy then Sell else Buy
  }

  lemma BothSides(b: State, side: Side)
    ensures Content(b) == multiset(Ids(b.Levels(side))) + multiset(Ids(b.Levels(Other(side))))
  {
  }

  lemma RestingIsIndexed(b: State, id: nat)
    requires Consistent(b)
    ensures id in b.orders <==> id in b.Resting()
    ensures id in b.orders <==> id in Ids(b.bids) || id in Ids(b.asks)
    ensures multiset(b.Resting())[id] <= 1
  {
    assert id in b.Resting() <==> id in multiset(b.Resting());
    assert id in b.orders <==> id in multiset(b.orders.Keys);
  }

  lemma RestsOnItsSide(b: State, id: nat, side: Side)
    requires Consistent(b)
    ensures id in Ids(b.Levels(side)) <==> id in b.orders && b.orders[id].side == side
    ensures id in b.orders ==> b.orders[id].id == id
  {
    RestingIsIndexed(b, id);
    if id in Ids(b.bids) {
      var i := LevelOf(b.bids, id);
      assert LevelOk(b.bids[i], Buy, b.orders) && IsAt(id, Buy, b.bids[i].price, b.orders);
    }
    if id in Ids(b.asks) {
      var i := LevelOf(b.asks, id);
      assert LevelOk(b.asks[i], Sell, b.orders) && IsAt(id, Sell, b.asks[i].price, b.orders);
    }
  }

  lemma OneMoreIndexed(keys: set<nat>, id: nat, levels: multiset<nat>, rest: multiset<nat>)
    requires id !in keys && multiset(keys) == levels + rest
    ensures multiset(keys + {id}) == (levels + multiset{id}) + rest
  {
    assert multiset(keys + {id}) == multiset(keys) + multiset{id};
  }

  lemma AddUntrimmedKeeps(b: State, o: Order)
    requires Consistent(b) && o.id !in b.orders
    ensures Consistent(AddUntrimmed(b, o))
    ensures AddUntrimmed(b, o).Levels(Other(o.side)) == b.Levels(Other(o.side))
  {
    var b' := AddUntrimmed(b, o);
    var levels, rest := b.Levels(o.side), b.Levels(Other(o.side));
    InsertIds(levels, o.side, o.price, o.id);
    InsertSideOk(levels, o, b.orders);
    forall id | id in Ids(rest)
      ensures SamePlace(id, b.orders, b'.orders)
    {
      RestsOnItsSide(b, id, Other(o.side));
    }
    SideOkFrame(rest, Other(o.side), b.orders, b'.orders);
    AddedIsIndexed(b, o, b'.Levels(o.side));
    assert b'.Levels(Other(o.side)) == rest;
  }

  lemma ContentWith(b: State, side: Side, l: seq<Level>, orders: map<nat, Order>)
    ensures Content(b.WithLevels(side, l).(orders := orders)) ==
            multiset(Ids(l)) + multiset(Ids(b.Levels(Other(side))))
  {
  }

  lemma AddedIsIndexed(b: State, o: Order, l: seq<Level>)
    requires Content(b) == multiset(b.orders.Keys) && o.id !in b.orders
    requires multiset(Ids(l)) == multiset(Ids(b.Levels(o.side))) + multiset{o.id}
    ensures var b' := b.WithLevels(o.side, l).(orders := b.orders[o.id := o]);
            Content(b') == multiset(b'.orders.Keys)
  {
    BothSides(b, o.side);
    ContentWith(b, o.side, l, b.orders[o.id := o]);
    assert b.orders[o.id := o].Keys == b.orders.Keys + {o.id};
    OneMoreIndexed(b.orders.Keys, o.id, multiset(Ids(b.Levels(o.side))), multiset(Ids(b.Levels(Other(o.side)))));
  }

  lemma TrimKeeps(b: State, side: Side)
    requires Consistent(b) && |b.Levels(Other(side))| <= MAX_LEVELS
    ensures WellFormed(Trim(b, side))
  {
    var l, rest := b.Levels(side), Ids(b.Levels(Other(side)));
    var cut, kept := Ids(Trimmed(l)), Ids(Kept(l));
    var orders' := b.orders - SetOf(cut);
    KeptAndTrimmed(l, side, b.orders);
    BothSides(b, side);
    BothSides(Trim(b, side), side);
    Regroup(multiset(kept), multiset(cut), multiset(rest));
    Partition(b.orders.Keys, multiset(kept) + multiset(rest), cut);
    assert orders'.Keys == b.orders.Keys - SetOf(cut);
    forall id | id in kept
      ensures SamePlace(id, b.orders, orders')
    {
      assert id in multiset(kept);
    }
    SideOkFrame(Kept(l), side, b.orders, orders');
    forall id | id in rest
      ensures SamePlace(id, b.orders, orders')
    {
      assert id in multiset(rest);
    }
    SideOkFrame(b.Levels(Other(side)), Other(side), b.orders, orders');
  }

  lemma Regroup(a: multiset<nat>, b: multiset<nat>, c: multiset<nat>)
    ensures a + b + c == a + c + b
  {
  }

  lemma AddKeeps(b: State, o: Order)
    requires WellFormed(b) && o.id !in b.orders
    ensures WellFormed(Add(b, o))
  {
    var t := AddUntrimmed(b, o);
    AddUntrimmedKeeps(b, o);
    TrimKeeps(t, o.side);
  }

  /** What an added order drives out is a whole worst level of its side, indexed before or the order itself. */
  lemma EvictedFacts(b: State, o: Order, id: nat)
    requires WellFormed(b) && o.id !in b.orders && id in Evicted(b, o)
    ensures id == o.id || (id in b.orders && b.orders[id].side == o.side)
    ensures id !in Add(b, o).orders
  {
    var t := AddUntrimmed(b, o);
    AddUntrimmedKeeps(b, o);
    KeptAndTrimmed(t.Levels(o.side), o.side, t.orders);
    assert id in Ids(t.Levels(o.side));
    RestsOnItsSide(t, id, o.side);
  }

  lemma TrimmedIsWorse(levels: seq<Level>, side: Side, id: nat, kept: nat, orders: map<nat, Order>)
    requires SideOk(levels, side, orders) && id in Ids(Trimmed(levels)) && kept in Ids(Kept(levels))
    ensures id in orders && kept in orders && Better(side, orders[kept].price, orders[id].price)
    ensures |Kept(levels)| == MAX_LEVELS
  {
    var i := LevelOf(Trimmed(levels), id);
    var j := LevelOf(Kept(levels), kept);
    assert Trimmed(levels)[i] == levels[MAX_LEVELS + i] && Kept(levels)[j] == levels[j];
    assert LevelOk(levels[MAX_LEVELS + i], side, orders) && LevelOk(levels[j], side, orders);
    assert IsAt(id, side, levels[MAX_LEVELS + i].price, orders) && IsAt(kept, side, levels[j].price, orders);
  }

  lemma KeptRests(b: State, o: Order, kept: nat)
    requires WellFormed(b) && o.id !in b.orders
    requires kept in Add(b, o).orders && Add(b, o).orders[kept].side == o.side
    ensures kept in Ids(Kept(AddUntrimmed(b, o).Levels(o.side)))
  {
    AddKeeps(b, o);
    RestsOnItsSide(Add(b, o), kept, o.side);
  }

  /** Whatever an added order drives out has a worse price than everything that stays on its side. */
  lemma EvictedAreWorst(b: State, o: Order, id: nat, kept: nat)
    requires WellFormed(b) && o.id !in b.orders && id in Evicted(b, o)
    requires kept in Add(b, o).orders && Add(b, o).orders[kept].side == o.side
    ensures id in b.orders[o.id := o] && Better(o.side, Add(b, o).orders[kept].price, b.orders[o.id := o][id].price)
    ensures |Add(b, o).Levels(o.side)| == MAX_LEVELS
  {
    var t := AddUntrimmed(b, o);
    AddUntrimmedKeeps(b, o);
    EvictedFacts(b, o, id);
    KeptRests(b, o, kept);
    TrimmedIsWorse(t.Levels(o.side), o.side, id, kept, t.orders);
  }

  /** Nothing is driven out unless there are ten levels already and the order's price is none of theirs. */
  lemma NoNeedlessEviction(b: State, o: Order)
    requires Evicted(b, o) != [] && |b.Levels(o.side)| <= MAX_LEVELS
    ensures |b.Levels(o.side)| == 10
    ensures forall i :: 0 <= i < |b.Levels(o.side)| && BestFirst(b.Levels(o.side), o.side) ==>
              b.Levels(o.side)[i].price != o.price
  {
    var levels := b.Levels(o.side);
    var k := Rank(levels, o.side, o.price);
    assert Trimmed(Insert(levels, o.side, o.price, o.id)) != [];
    if BestFirst(levels, o.side) {
      forall i | 0 <= i < |levels|
        ensures levels[i].price != o.price
      {
        assert k < i ==> Better(o.side, levels[k].price, levels[i].price);
      }
    }
  }

  lemma RemoveKeeps(b: State, id: nat)
    requires WellFormed(b)
    ensures WellFormed(Remove(b, id))
  {
    if id in b.orders {
      var side := b.orders[id].side;
      var levels, rest := b.Levels(side), Ids(b.Levels(Other(side)));
      var r, orders' := RemoveFrom(levels, id), b.orders - {id};
      RestsOnItsSide(b, id, side);
      RemoveFromIds(levels, id);
      RemoveFirstFacts(Ids(levels), id);
      RemoveFromSideOk(levels, id, side, b.orders);
      BothSides(b, side);
      BothSides(Remove(b, id), side);
      OneFewer(b.orders.Keys, id, multiset(Ids(levels)), multiset(rest), multiset(Ids(r)));
      forall x | x in Ids(r)
        ensures SamePlace(x, b.orders, orders')
      {
        assert x in multiset(Ids(r));
      }
      SideOkFrame(r, side, b.orders, orders');
      forall x | x in rest
        ensures SamePlace(x, b.orders, orders')
      {
        assert x in multiset(rest);
      }
      SideOkFrame(b.Levels(Other(side)), Other(side), b.orders, orders');
      assert orders'.Keys == b.orders.Keys - {id};
    }
  }

  lemma ChangeSharesKeeps(b: State, id: nat, shares: int)
    requires WellFormed(b) && id in b.orders
    ensures WellFormed(b.(orders := b.orders[id := b.orders[id].(shares := shares)]))
  {
    var orders' := b.orders[id := b.orders[id].(shares := shares)];
    assert orders'.Keys == b.orders.Keys;
    forall x | x in b.Resting()
      ensures SamePlace(x, b.orders, orders')
    {
      RestingIsIndexed(b, x);
    }
    SideOkFrame(b.bids, Buy, b.orders, orders');
    SideOkFrame(b.asks, Sell, b.orders, orders');
  }

  lemma ReduceKeeps(b: State, id: nat, quantity: int)
    requires WellFormed(b)
    ensures WellFormed(Reduce(b, id, quantity))
  {
    if id in b.orders {
      if b.orders[id].shares - quantity <= 0 {
        RemoveKeeps(b, id);
      } else {
        ChangeSharesKeeps(b, id, b.orders[id].shares - quantity);
      }
    }
  }

  lemma ReplaceKeeps(b: State, oldId: nat, newId: nat, price: int, shares: int)
    requires WellFormed(b) && newId !in b.orders
    ensures WellFormed(Replace(b, oldId, newId, price, shares))
  {
    if oldId in b.orders {
      RemoveKeeps(b, oldId);
      AddKeeps(Remove(b, oldId), Replacement(b.orders[oldId], newId, price, shares));
    }
  }

  // -------------------------------------------------------------------------------------------------
  // Random selection

  lemma OccursOnce(s: seq<nat>, i: nat, j: nat)
    requires i < j < |s| && multiset(s)[s[i]] <= 1
    ensures s[i] != s[j]
  {
    assert s == s[..j] + [s[j]] + s[j + 1..];
    assert s[i] in s[..j];
    assert s[i] in multiset(s[..j]);
  }

  /** The pick enumerates the resting orders: every index names one, no two indices name the same, and
      every resting order has an index. */
  lemma PickIsBijective(b: State)
    requires Consistent(b)
    ensures forall i :: 0 <= i < |b.Resting()| ==> b.Resting()[i] in b.orders
    ensures forall i, j :: 0 <= i < j < |b.Resting()| ==> b.Resting()[i] != b.Resting()[j]
    ensures forall id :: id in b.orders ==> exists i :: 0 <= i < |b.Resting()| && b.Resting()[i] == id
    ensures |b.Resting()| == |b.orders|
  {
    var s := b.Resting();
    forall i | 0 <= i < |s|
      ensures s[i] in b.orders
    {
      RestingIsIndexed(b, s[i]);
    }
    forall i, j | 0 <= i < j < |s|
      ensures s[i] != s[j]
    {
      RestingIsIndexed(b, s[i]);
      OccursOnce(s, i, j);
    }
    forall id | id in b.orders
      ensures exists i :: 0 <= i < |s| && s[i] == id
    {
      RestingIsIndexed(b, id);
    }
    assert multiset(s) == Content(b);
    assert |multiset(s)| == |s|;
    assert |multiset(b.orders.Keys)| == |b.orders.Keys|;
  }

  /** Removing the order picked at index k cuts exactly that position out and moves no other order. */
  lemma RemovePicked(b: State, k: nat)
    requires Consistent(b) && k < |b.Resting()|
    ensures Remove(b, b.Resting()[k]).Resting() == b.Resting()[..k] + b.Resting()[k + 1..]
    ensures Remove(b, b.Resting()[k]).orders == b.orders - {b.Resting()[k]}
  {
    var s, id := b.Resting(), b.Resting()[k];
    PickIsBijective(b);
    RestsOnItsSide(b, id, Buy);
    RestsOnItsSide(b, id, Sell);
    RemoveFromIds(b.bids, id);
    RemoveFromIds(b.asks, id);
    RemoveFirstConcat(Ids(b.bids), Ids(b.asks), id);
    RemoveFirstAt(s, k);
  }

  // -------------------------------------------------------------------------------------------------
  // Depth

  datatype DepthLevel = DepthLevel(price: int, orders: nat, totalShares: int)

  datatype DepthSnapshot = DepthSnapshot(bids: seq<DepthLevel>, asks: seq<DepthLevel>, bestBid: int, bestAsk: int,
                                         midPrice: real, spread: int)

  /** A sum kept in a signed 32-bit variable. */
  function Int32(x: int): int {
    (x + 0x8000_0000) % 0x1_0000_0000 - 0x8000_0000
  }

  function TotalShares(ids: seq<nat>, orders: map<nat, Order>): int {
    if ids == [] then 0
    else
      var last := ids[|ids| - 1];
      TotalShares(ids[..|ids| - 1], orders) + (if last in orders then orders[last].shares else 0)
  }

  function DepthOf(levels: seq<Level>, orders: map<nat, Order>): (d: seq<DepthLevel>)
    ensures |d| == |levels|
  {
    seq(|levels|, i requires 0 <= i < |levels| =>
      DepthLevel(levels[i].price, |levels[i].ids|, Int32(TotalShares(levels[i].ids, orders))))
  }

  /** The best price of a side, or 0 if the side is empty. */
  function Best(levels: seq<Level>): int {
    if levels == [] then 0 else levels[0].price
  }

  function Snapshot(bids: seq<DepthLevel>, asks: seq<DepthLevel>, bestBid: int, bestAsk: int): DepthSnapshot {
    if bestBid > 0 && bestAsk > 0 then
      DepthSnapshot(bids, asks, bestBid, bestAsk, (bestBid + bestAsk) as real / 2.0, bestAsk - bestBid)
    else
      DepthSnapshot(bids, asks, bestBid, bestAsk, 0.0, 0)
  }

  function Depth(b: State): DepthSnapshot {
    Snapshot(DepthOf(b.bids, b.orders), DepthOf(b.asks, b.orders), Best(b.bids), Best(b.asks))
  }

  /** What a depth snapshot says of a book's best prices: the highest bid and the lowest ask, or 0 on an empty side;
      the spread leads from one to the other and the mid price is halfway, unless one of them is missing. */
  ghost predicate ShowsBest(d: DepthSnapshot, orders: map<nat, Order>) {
    && (forall id :: id in orders && orders[id].side == Buy ==> orders[id].price <= d.bestBid)
    && (forall id :: id in orders && orders[id].side == Sell ==> d.bestAsk <= orders[id].price)
    && ((exists id :: id in orders && orders[id].side == Buy && orders[id].price == d.bestBid)
        || (d.bestBid == 0 && forall id :: id in orders ==> orders[id].side == Sell))
    && ((exists id :: id in orders && orders[id].side == Sell && orders[id].price == d.bestAsk)
        || (d.bestAsk == 0 && forall id :: id in orders ==> orders[id].side == Buy))
    && (d.bestBid > 0 && d.bestAsk > 0 ==>
          d.bestBid + d.spread == d.bestAsk && d.midPrice + d.midPrice == (d.bestBid + d.bestAsk) as real)
    && (d.bestBid <= 0 || d.bestAsk <= 0 ==> d.spread == 0 && d.midPrice == 0.0)
  }

  lemma BestOfSide(b: State, side: Side, id: nat)
    requires Consistent(b) && id in b.orders && b.orders[id].side == side
    ensures b.Levels(side) != [] && !Better(side, b.orders[id].price, Best(b.Levels(side)))
  {
    var levels := b.Levels(side);
    RestsOnItsSide(b, id, side);
    var i := LevelOf(levels, id);
    assert LevelOk(levels[i], side, b.orders) && IsAt(id, side, levels[i].price, b.orders);
  }

  lemma BestIsTaken(b: State, side: Side) returns (id: nat)
    requires Consistent(b) && b.Levels(side) != []
    ensures id in b.orders && b.orders[id].side == side && b.orders[id].price == Best(b.Levels(side))
  {
    var level := b.Levels(side)[0];
    assert LevelOk(level, side, b.orders);
    id := level.ids[0];
    assert IsAt(id, side, level.price, b.orders);
  }

  /** The best prices of a depth snapshot are those of the orders in the book. */
  lemma DepthShowsBest(b: State)
    requires Consistent(b)
    ensures ShowsBest(Depth(b), b.orders)
  {
    forall id | id in b.orders
      ensures b.orders[id].side == Buy ==> b.bids != [] && b.orders[id].price <= Best(b.bids)
      ensures b.orders[id].side == Sell ==> b.asks != [] && Best(b.asks) <= b.orders[id].price
    {
      BestOfSide(b, b.orders[id].side, id);
    }
    if b.bids != [] {
      var id := BestIsTaken(b, Buy);
    }
    if b.asks != [] {
      var id := BestIsTaken(b, Sell);
    }
  }

  /** Every level of a depth snapshot counts exactly the orders at its price. */
  lemma DepthCountsOrders(b: State, side: Side, i: nat)
    requires Consistent(b) && i < |b.Levels(side)|
    ensures var level := DepthOf(b.Levels(side), b.orders)[i];
            && level.price == b.Levels(side)[i].price
            && level.orders ==
               |set id | id in b.orders && b.orders[id].side == side && b.orders[id].price == level.price|
  {
    var ids, price := b.Levels(side)[i].ids, b.Levels(side)[i].price;
    var there := set id | id in b.orders && b.orders[id].side == side && b.orders[id].price == price;
    forall id
      ensures multiset(ids)[id] == if id in there then 1 else 0
    {
      OnlyLevel(b, side, i, id);
    }
    assert multiset(ids) == multiset(there);
    assert |multiset(ids)| == |ids| && |multiset(there)| == |there|;
  }

  lemma OnlyLevel(b: State, side: Side, i: nat, id: nat)
    requires Consistent(b) && i < |b.Levels(side)|
    ensures var there := id in b.orders && b.orders[id].side == side && b.orders[id].price == b.Levels(side)[i].price;
            multiset(b.Levels(side)[i].ids)[id] == if there then 1 else 0
  {
    var levels := b.Levels(side);
    assert LevelOk(levels[i], side, b.orders);
    IdsAround(levels, i);
    BothSides(b, side);
    assert Content(b)[id] <= 1;
    assert id in levels[i].ids <==> id in multiset(levels[i].ids);
    if id in b.orders && b.orders[id].side == side && b.orders[id].price == levels[i].price {
      RestsOnItsSide(b, id, side);
      var j := LevelOf(levels, id);
      assert LevelOk(levels[j], side, b.orders) && IsAt(id, side, levels[j].price, b.orders);
      assert i < j ==> Better(side, levels[i].price, levels[j].price);
      assert j < i ==> Better(side, levels[j].price, levels[i].price);
    }
  }
}
