// How Simulator.Initialize fills an empty book: ten levels a side, three orders each, nothing evicted.
module Seeding {
  import opened Bytes
  import opened Itch
  import opened OrderBook
  import opened Simulation
  import opened Feed
  import opened Reports
  import opened Pcg
  import opened Draws

  // -------------------------------------------------------------------------------------------------
  // One tick further away is at least one tick further away, also after rounding

  lemma MultipleGrows(k: int, d: int)
    requires d > 0
    ensures k >= 1 ==> k * d >= d
    ensures k <= -1 ==> k * d <= -d
  {
  }

  lemma QuotientIs(x: int, d: int, q: int, r: int)
    requires d > 0 && x == q * d + r && 0 <= r < d
    ensures x / d == q
  {
    var k := x / d - q;
    assert x == (x / d) * d + x % d;
    assert k * d == (x / d) * d - q * d;
    MultipleGrows(k, d);
  }

  lemma QuotientNext(x: int, d: int)
    requires d > 0
    ensures (x + d) / d == x / d + 1
  {
    var q := x / d;
    assert x + d == (q + 1) * d + x % d by {
      assert (q + 1) * d == q * d + d;
    }
    QuotientIs(x + d, d, q + 1, x % d);
  }

  lemma QuotientOfSmall(x: int, d: int)
    requires d > 0 && 0 <= x < 2 * d
    ensures x / d == if x < d then 0 else 1
  {
    if x < d {
      QuotientIs(x, d, 0, x);
    } else {
      QuotientIs(x, d, 1, x - d);
    }
  }

  lemma RoundDivStep(p: int, t: int)
    requires t > 0
    ensures RoundDiv(p, t) < RoundDiv(p + t, t)
  {
    if p >= 0 {
      QuotientNext(2 * p + t, 2 * t);
      assert 2 * (p + t) + t == (2 * p + t) + 2 * t;
    } else if p + t < 0 {
      QuotientNext(t - 2 * (p + t), 2 * t);
      assert t - 2 * p == (t - 2 * (p + t)) + 2 * t;
    } else {
      QuotientOfSmall(2 * (p + t) + t, 2 * t);
      QuotientOfSmall(t - 2 * p, 2 * t);
    }
  }

  lemma Product(a: int, b: int, t: int)
    requires t > 0 && a < b
    ensures a * t < b * t
  {
  }

  lemma SnapStep(p: int, t: int)
    requires t > 0
    ensures SnapPrice(p, t) < SnapPrice(p + t, t)
  {
    RoundDivStep(p, t);
    Product(RoundDiv(p, t), RoundDiv(p + t, t), t);
  }

  /** Quotes further from the current price are strictly worse. */
  lemma {:induction false} QuotesDescend(side: Side, current: int, i: int, j: int, tick: int)
    requires tick > 0 && i < j
    ensures Better(side, Quote(side, current, i, tick), Quote(side, current, j, tick))
    decreases j - i
  {
    var k := j - 1;
    assert j * tick == k * tick + tick;
    if side == Buy {
      SnapStep(current - j * tick, tick);
    } else {
      SnapStep(current + k * tick, tick);
    }
    if i < k {
      QuotesDescend(side, current, i, k, tick);
    }
  }

  lemma QuotientBounds(x: int, d: int)
    requires d > 0
    ensures x / d * d <= x < x / d * d + d
  {
  }

  lemma Regrouped(q: int, t: int)
    ensures q * (2 * t) == 2 * (q * t) && (-q) * t == -(q * t)
  {
  }

  lemma MultipleOfTick(q: int, t: int)
    requires t > 0
    ensures (q * t) % t == 0
  {
    QuotientIs(q * t, t, q, 0);
    assert (q * t) % t == q * t - (q * t / t) * t;
  }

  /** A snapped price is the nearest multiple of the tick; halfway between two, the one further from zero. */
  lemma SnapIsNearest(p: int, t: int)
    requires t > 0
    ensures var price := SnapPrice(p, t);
            && price % t == 0
            && (p >= 0 ==> 2 * price - t <= 2 * p < 2 * price + t)
            && (p < 0 ==> 2 * price - t < 2 * p <= 2 * price + t)
  {
    var q := RoundDiv(p, t);
    MultipleOfTick(q, t);
    if p >= 0 {
      QuotientBounds(2 * p + t, 2 * t);
      Regrouped(q, t);
    } else {
      QuotientBounds(t - 2 * p, 2 * t);
      Regrouped(-q, t);
    }
  }

  /** Bids are quoted below the current price and asks above it, some ticks away, at the nearest whole tick. */
  lemma QuoteIsNearest(current: int, offset: int, tick: int)
    requires tick > 0
    ensures var bid, ask := Quote(Buy, current, offset, tick), Quote(Sell, current, offset, tick);
            && bid % tick == 0 && 2 * bid - tick <= 2 * (current - offset * tick) <= 2 * bid + tick
            && ask % tick == 0 && 2 * ask - tick <= 2 * (current + offset * tick) <= 2 * ask + tick
  {
    SnapIsNearest(current - offset * tick, tick);
    SnapIsNearest(current + offset * tick, tick);
  }

  /** A price below one tick becomes one tick, and no other changes. */
  lemma FlooredPrice(price: int, tick: int)
    ensures Floored(price, tick) >= tick && Floored(price, tick) in {price, tick}
    ensures price >= tick ==> Floored(price, tick) == price
  {
  }

  // -------------------------------------------------------------------------------------------------
  // Ladders

  /** A side while it is being filled: full levels at the first quotes, then one with n orders, if n > 0. */
  ghost predicate Ladder(levels: seq<Level>, side: Side, current: int, tick: int, full: nat, n: nat)
    requires tick > 0
  {
    && |levels| == full + (if n > 0 then 1 else 0)
    && (forall i :: 0 <= i < |levels| ==> levels[i].price == Quote(side, current, i + 1, tick))
    && (forall i :: 0 <= i < full ==> |levels[i].ids| == ORDERS_PER_LEVEL)
    && (n > 0 ==> |levels[full].ids| == n)
  }

  lemma LadderRank(levels: seq<Level>, side: Side, current: int, tick: int, full: nat, n: nat)
    requires tick > 0 && Ladder(levels, side, current, tick, full, n)
    ensures Rank(levels, side, Quote(side, current, full + 1, tick)) == full
  {
    forall i | 0 <= i < full
      ensures Better(side, levels[i].price, Quote(side, current, full + 1, tick))
    {
      QuotesDescend(side, current, i + 1, full + 1, tick);
    }
    RankIs(levels, side, Quote(side, current, full + 1, tick), full);
  }

  lemma LadderGrows(levels: seq<Level>, side: Side, current: int, tick: int, full: nat, n: nat, id: nat)
    requires tick > 0 && Ladder(levels, side, current, tick, full, n) && n < ORDERS_PER_LEVEL
    ensures Ladder(Insert(levels, side, Quote(side, current, full + 1, tick), id), side, current, tick, full, n + 1)
  {
    LadderRank(levels, side, current, tick, full, n);
    assert levels[..full] + [Level(Quote(side, current, full + 1, tick), [id])] + levels[full..]
        == levels[..full] + ([Level(Quote(side, current, full + 1, tick), [id])] + levels[full..]);
  }

  lemma RoomForAll(b: State, o: Order)
    requires |Insert(b.Levels(o.side), o.side, o.price, o.id)| <= MAX_LEVELS
    ensures Add(b, o) == AddUntrimmed(b, o)
  {
    assert SetOf([]) == {};
  }

  lemma ConsumeAdd(orders: map<nat, Order>, o: Order, y: Symbol)
    ensures Consume(Images(orders), AddMessage(o, y)) == Images(orders[o.id := o])
  {
  }

  /** An order added to a ladder that has room evicts nothing, and its side is the ladder grown by one. */
  lemma SeedOrder(b: State, o: Order, current: int, tick: int, full: nat, n: nat, y: Symbol)
    requires tick > 0 && Ladder(b.Levels(o.side), o.side, current, tick, full, n)
    requires full < MAX_LEVELS && n < ORDERS_PER_LEVEL && o.price == Quote(o.side, current, full + 1, tick)
    ensures Ladder(Add(b, o).Levels(o.side), o.side, current, tick, full, n + 1)
    ensures Add(b, o).Levels(Other(o.side)) == b.Levels(Other(o.side))
    ensures Consume(Images(b.orders), AddMessage(o, y)) == Images(Add(b, o).orders)
  {
    LadderGrows(b.Levels(o.side), o.side, current, tick, full, n, o.id);
    RoomForAll(b, o);
    ConsumeAdd(b.orders, o, y);
  }

  /** The book and the messages while Initialize fills an empty book. */
  ghost predicate Laddered(b: State, current: int, tick: int, full: nat, n: nat, messages: seq<Message>)
    requires tick > 0
  {
    && Ladder(b.bids, Buy, current, tick, full, n)
    && Ladder(b.asks, Sell, current, tick, full, n)
    && Replay(map[], messages) == Images(b.orders)
  }

  lemma SeedBid(b: State, bid: Order, current: int, tick: int, full: nat, n: nat, messages: seq<Message>, y: Symbol)
    requires tick > 0 && Laddered(b, current, tick, full, n, messages) && full < MAX_LEVELS && n < ORDERS_PER_LEVEL
    requires bid.side == Buy && bid.price == Quote(Buy, current, full + 1, tick)
    ensures Ladder(Add(b, bid).bids, Buy, current, tick, full, n + 1) && Add(b, bid).asks == b.asks
    ensures Replay(map[], messages + [AddMessage(bid, y)]) == Images(Add(b, bid).orders)
  {
    SeedOrder(b, bid, current, tick, full, n, y);
    ReplayConcat(map[], messages, [AddMessage(bid, y)]);
    ReplayOne(Images(b.orders), AddMessage(bid, y));
  }

  /** One bid and one ask more. */
  lemma SeedBoth(b: State, bid: Order, ask: Order, current: int, tick: int, full: nat, n: nat, messages: seq<Message>,
                 y: Symbol)
    requires tick > 0 && Laddered(b, current, tick, full, n, messages) && full < MAX_LEVELS && n < ORDERS_PER_LEVEL
    requires bid.side == Buy && bid.price == Quote(Buy, current, full + 1, tick)
    requires ask.side == Sell && ask.price == Quote(Sell, current, full + 1, tick)
    ensures Laddered(Add(Add(b, bid), ask), current, tick, full, n + 1,
                   messages + [AddMessage(bid, y)] + [AddMessage(ask, y)])
  {
    SeedBid(b, bid, current, tick, full, n, messages, y);
    var between, sent := Add(b, bid), messages + [AddMessage(bid, y)];
    SeedOrder(between, ask, current, tick, full, n, y);
    ReplayConcat(map[], sent, [AddMessage(ask, y)]);
    ReplayOne(Images(between.orders), AddMessage(ask, y));
  }

  /** A full level is the ladder's next one, still empty. */
  lemma NextLevel(b: State, current: int, tick: int, full: nat, messages: seq<Message>)
    requires tick > 0 && Laddered(b, current, tick, full, ORDERS_PER_LEVEL, messages)
    ensures Laddered(b, current, tick, full + 1, 0, messages)
  {
  }

  /** What becomes of a book that was empty before. */
  ghost predicate LadderedIf(empty: bool, b: State, current: int, tick: int, full: nat, n: nat, messages: seq<Message>)
    requires tick > 0
  {
    empty ==> Laddered(b, current, tick, full, n, messages)
  }

  lemma SeedBothIf(empty: bool, b: State, bid: Order, ask: Order, current: int, tick: int, full: nat, n: nat,
                   messages: seq<Message>, y: Symbol)
    requires tick > 0 && LadderedIf(empty, b, current, tick, full, n, messages)
    requires full < MAX_LEVELS && n < ORDERS_PER_LEVEL
    requires bid.side == Buy && bid.price == Quote(Buy, current, full + 1, tick)
    requires ask.side == Sell && ask.price == Quote(Sell, current, full + 1, tick)
    ensures LadderedIf(empty, Add(Add(b, bid), ask), current, tick, full, n + 1,
                       messages + [AddMessage(bid, y)] + [AddMessage(ask, y)])
  {
    if empty {
      SeedBoth(b, bid, ask, current, tick, full, n, messages, y);
    }
  }

  lemma NextLevelIf(empty: bool, b: State, current: int, tick: int, full: nat, messages: seq<Message>)
    requires tick > 0 && LadderedIf(empty, b, current, tick, full, ORDERS_PER_LEVEL, messages)
    ensures LadderedIf(empty, b, current, tick, full + 1, 0, messages)
  {
    if empty {
      NextLevel(b, current, tick, full, messages);
    }
  }

  // -------------------------------------------------------------------------------------------------
  // All seeds

  function AddAll(b: State, seeds: seq<Order>): State
    decreases |seeds|
  {
    if seeds == [] then b else Add(AddAll(b, seeds[..|seeds| - 1]), seeds[|seeds| - 1])
  }

  function SeedMessages(seeds: seq<Order>, y: Symbol): seq<Message>
    decreases |seeds|
  {
    if seeds == [] then [] else SeedMessages(seeds[..|seeds| - 1], y) + [AddMessage(seeds[|seeds| - 1], y)]
  }

  lemma OneMoreSeed(b: State, seeds: seq<Order>, o: Order, y: Symbol)
    ensures AddAll(b, seeds + [o]) == Add(AddAll(b, seeds), o)
    ensures SeedMessages(seeds + [o], y) == SeedMessages(seeds, y) + [AddMessage(o, y)]
  {
    assert (seeds + [o])[..|seeds|] == seeds;
  }

  ghost predicate AllAnnounced(messages: seq<Message>, seeds: seq<Order>, y: Symbol) {
    |messages| == |seeds| && forall i :: 0 <= i < |seeds| ==> Announces(messages[i], seeds[i], y)
  }

  /** Every seed is announced as it is, in order. */
  lemma {:induction false} SeedsAreAnnounced(seeds: seq<Order>, y: Symbol)
    ensures AllAnnounced(SeedMessages(seeds, y), seeds, y)
    decreases |seeds|
  {
    if seeds != [] {
      SeedsAreAnnounced(seeds[..|seeds| - 1], y);
    }
  }

  /** The k-th seed: bids and asks in turn, three pairs a level, ids in a row, sizes in lots. */
  ghost predicate IsSeed(o: Order, k: nat, first: nat, current: int, tick: int)
    requires tick > 0
  {
    && o.id == first + k && o.side == (if k % 2 == 0 then Buy else Sell)
    && o.price == Quote(o.side, current, k / (2 * ORDERS_PER_LEVEL) + 1, tick)
    && 0 < o.shares <= MAX_SHARES && o.shares % LOT == 0 && o.priority == k % (2 * ORDERS_PER_LEVEL) / 2
  }

  ghost predicate AreSeeds(seeds: seq<Order>, first: nat, current: int, tick: int)
    requires tick > 0
  {
    forall k :: 0 <= k < |seeds| ==> IsSeed(seeds[k], k, first, current, tick)
  }

  /** All orders of a symbol. */
  ghost predicate AllOf(seeds: seq<Order>, locate: nat) {
    forall i :: 0 <= i < |seeds| ==> seeds[i].locate == locate
  }

  lemma TwoMoreOf(seeds: seq<Order>, bid: Order, ask: Order, locate: nat)
    requires AllOf(seeds, locate) && bid.locate == locate == ask.locate
    ensures AllOf(seeds + [bid] + [ask], locate)
  {
  }

  /** What is drawn for seeds: size and participant of each. */
  function SizesOf(seeds: seq<Order>): seq<(int, seq<Byte>)> {
    if seeds == [] then []
    else SizesOf(seeds[..|seeds| - 1]) + [(seeds[|seeds| - 1].shares, seeds[|seeds| - 1].mpid)]
  }

  /** The seeds are what the generator gives, starting from a state and ending in another. */
  ghost predicate AreDrawn(seeds: seq<Order>, from: Word64, inc: Word64, to: Word64) {
    SeedsAt(from, inc, |seeds|) == Draw(SizesOf(seeds), to)
  }

  lemma {:induction false} SizesAt(seeds: seq<Order>)
    ensures |SizesOf(seeds)| == |seeds|
    ensures forall i :: 0 <= i < |seeds| ==> SizesOf(seeds)[i] == (seeds[i].shares, seeds[i].mpid)
    decreases |seeds|
  {
    if seeds != [] {
      SizesAt(seeds[..|seeds| - 1]);
    }
  }

  /** The generator, the first id, the price, the tick and the symbol determine all seeds. */
  lemma SeedsAgree(seeds: seq<Order>, seeds': seq<Order>, first: nat, current: int, tick: int, locate: nat,
                   from: Word64, inc: Word64, to: Word64, to': Word64)
    requires tick > 0 && |seeds| == |seeds'| && AllOf(seeds, locate) && AllOf(seeds', locate)
    requires AreSeeds(seeds, first, current, tick) && AreSeeds(seeds', first, current, tick)
    requires AreDrawn(seeds, from, inc, to) && AreDrawn(seeds', from, inc, to')
    ensures seeds == seeds' && to == to'
  {
    SizesAt(seeds);
    SizesAt(seeds');
    forall i | 0 <= i < |seeds|
      ensures seeds[i] == seeds'[i]
    {
      assert IsSeed(seeds[i], i, first, current, tick) && IsSeed(seeds'[i], i, first, current, tick);
      assert SizesOf(seeds)[i] == SizesOf(seeds')[i];
    }
  }

  lemma OneMoreDrawn(seeds: seq<Order>, o: Order, from: Word64, inc: Word64, state: Word64, to: Word64)
    requires AreDrawn(seeds, from, inc, state) && Draw((o.shares, o.mpid), to) == SeedAt(state, inc)
    ensures AreDrawn(seeds + [o], from, inc, to)
  {
    assert (seeds + [o])[..|seeds|] == seeds;
  }

  lemma TwoMoreDrawn(seeds: seq<Order>, bid: Order, ask: Order, from: Word64, inc: Word64, state: Word64, mid: Word64,
                     to: Word64)
    requires AreDrawn(seeds, from, inc, state) && Draw((bid.shares, bid.mpid), mid) == SeedAt(state, inc)
    requires Draw((ask.shares, ask.mpid), to) == SeedAt(mid, inc)
    ensures AreDrawn(seeds + [bid] + [ask], from, inc, to)
  {
    OneMoreDrawn(seeds, bid, from, inc, state, mid);
    OneMoreDrawn(seeds + [bid], ask, from, inc, mid, to);
  }

  lemma MoreSeeds(b: State, seeds: seq<Order>, bid: Order, ask: Order, y: Symbol)
    ensures AddAll(b, seeds + [bid] + [ask]) == Add(Add(AddAll(b, seeds), bid), ask)
    ensures SeedMessages(seeds + [bid] + [ask], y) ==
            SeedMessages(seeds, y) + [AddMessage(bid, y)] + [AddMessage(ask, y)]
  {
    OneMoreSeed(b, seeds, bid, y);
    OneMoreSeed(b, seeds + [bid], ask, y);
  }

  lemma NextSeeds(seeds: seq<Order>, bid: Order, ask: Order, first: nat, current: int, tick: int, full: nat, n: nat)
    requires tick > 0 && AreSeeds(seeds, first, current, tick) && |seeds| == 6 * full + 2 * n && n < ORDERS_PER_LEVEL
    requires bid.id == first + |seeds| && bid.side == Buy && bid.price == Quote(Buy, current, full + 1, tick)
    requires ask.id == bid.id + 1 && ask.side == Sell && ask.price == Quote(Sell, current, full + 1, tick)
    requires 0 < bid.shares <= MAX_SHARES && bid.shares % LOT == 0
    requires 0 < ask.shares <= MAX_SHARES && ask.shares % LOT == 0 && bid.priority == n == ask.priority
    ensures AreSeeds(seeds + [bid] + [ask], first, current, tick)
  {
    var k := |seeds|;
    assert k / 6 == full && (k + 1) / 6 == full && k % 2 == 0;
    assert k % 6 == 2 * n && (k + 1) % 6 == 2 * n + 1;
    assert IsSeed(bid, k, first, current, tick) && IsSeed(ask, k + 1, first, current, tick);
  }

  /** Some seeds in a row have been added to a book and announced. */
  ghost predicate SeededWith(start: State, b: State, seeds: seq<Order>, messages: seq<Message>, first: nat,
                             current: int, y: Symbol)
    requires y.tick > 0
  {
    && AreSeeds(seeds, first, current, y.tick) && AllOf(seeds, y.locate)
    && b == AddAll(start, seeds) && messages == SeedMessages(seeds, y)
  }

  lemma TwoMoreSeeds(start: State, b: State, seeds: seq<Order>, messages: seq<Message>, bid: Order, ask: Order,
                     first: nat, current: int, full: nat, n: nat, y: Symbol)
    requires y.tick > 0 && SeededWith(start, b, seeds, messages, first, current, y)
    requires |seeds| == 6 * full + 2 * n && n < ORDERS_PER_LEVEL
    requires bid.id == first + |seeds| && bid.side == Buy && bid.price == Quote(Buy, current, full + 1, y.tick)
    requires ask.id == bid.id + 1 && ask.side == Sell && ask.price == Quote(Sell, current, full + 1, y.tick)
    requires 0 < bid.shares <= MAX_SHARES && bid.shares % LOT == 0 && bid.locate == y.locate == ask.locate
    requires 0 < ask.shares <= MAX_SHARES && ask.shares % LOT == 0
    requires bid.priority == n == ask.priority
    ensures SeededWith(start, Add(Add(b, bid), ask), seeds + [bid] + [ask],
                       messages + [AddMessage(bid, y)] + [AddMessage(ask, y)], first, current, y)
  {
    MoreSeeds(start, seeds, bid, ask, y);
    NextSeeds(seeds, bid, ask, first, current, y.tick, full, n);
    TwoMoreOf(seeds, bid, ask, y.locate);
  }

  /** Seeding keeps the invariants. */
  lemma {:induction false} SeedsKeep(s: Sim, seeds: seq<Order>, current: int, tick: int)
    requires Inv(s) && tick > 0 && AreSeeds(seeds, s.lastId + 1, current, tick)
    ensures Inv(Sim(AddAll(s.book, seeds), s.lastId + |seeds|, s.lastMatch))
    ensures Orderly(s.book) ==> Orderly(AddAll(s.book, seeds))
    decreases |seeds|
  {
    if seeds != [] {
      var init, o := seeds[..|seeds| - 1], seeds[|seeds| - 1];
      SeedsKeep(s, init, current, tick);
      var before := Sim(AddAll(s.book, init), s.lastId + |init|, s.lastMatch);
      assert IsSeed(o, |init|, s.lastId + 1, current, tick);
      AddKeepsInv(before, o);
      if Orderly(s.book) {
        AddKeepsOrder(before.book, o);
      }
    }
  }
}
