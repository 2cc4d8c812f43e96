// The feed end to end: messages encoded, sent back to back, decoded, and replayed by a consumer of decoded lines.
module FeedOnWire {
  import opened Bytes
  import opened Pcg
  import opened Itch
  import D = Decoder
  import opened OrderBook
  import opened Simulation
  import opened Feed
  import opened Seeding
  import opened Simulator

  /** The fields of a message that a replica uses fit their places on the wire. */
  predicate Fits(m: Message) {
    var add := m.kind == ADD_ORDER || m.kind == ADD_ORDER_MPID;
    var reduce := m.kind == ORDER_EXECUTED || m.kind == ORDER_CANCEL;
    && (add || reduce || m.kind == ORDER_DELETE || m.kind == ORDER_REPLACE ==> m.orderRef < WORD)
    && (m.kind == ORDER_REPLACE ==> m.origOrderRef < WORD)
    && (add || reduce || m.kind == ORDER_REPLACE ==> 0 <= m.shares < HALF_WORD)
    && (add || m.kind == ORDER_REPLACE ==> 0 <= m.price < HALF_WORD)
  }

  ghost predicate AllFit(messages: seq<Message>) {
    forall m :: m in messages ==> Fits(m)
  }

  /** What a decoded line does to a replica. */
  function ConsumeLine(r: Replica, line: D.Line): Replica {
    match line
    case AddOrder(_, _, ref, side, shares, _, price) => r[ref := Resting(side, price, shares)]
    case AddOrderMpid(_, _, ref, side, shares, _, price, _) => r[ref := Resting(side, price, shares)]
    case OrderExecuted(_, _, ref, shares, _) => Reduced(r, ref, shares)
    case OrderCancel(_, _, ref, shares) => Reduced(r, ref, shares)
    case OrderDelete(_, _, ref) => r - {ref}
    case OrderReplace(_, _, origRef, ref, shares, price) =>
      if origRef in r then (r - {origRef})[ref := Resting(r[origRef].side, price, shares)] else r
    case _ => r
  }

  function ReplayLines(r: Replica, lines: seq<D.Line>): Replica
    decreases lines
  {
    if lines == [] then r else ReplayLines(ConsumeLine(r, lines[0]), lines[1..])
  }

  lemma SmallValue(x: int, n: int)
    requires n > 0
    ensures 0 <= x < n ==> x % n == x
  {
  }

  /** A decoded message does to a replica what the message does. */
  lemma LineActsAsMessage(r: Replica, m: Message)
    requires Known(m.kind) && Fits(m)
    ensures ConsumeLine(r, D.Expected(m)) == Consume(r, m)
  {
    SmallValue(m.orderRef, WORD);
    SmallValue(m.origOrderRef, WORD);
    SmallValue(m.shares, HALF_WORD);
    SmallValue(m.price, HALF_WORD);
  }

  lemma {:induction false} LinesActAsMessages(r: Replica, messages: seq<Message>)
    requires AllFit(messages)
    ensures ReplayLines(r, D.ExpectedLines(messages)) == Replay(r, messages)
    decreases messages
  {
    if messages != [] {
      var m := messages[0];
      assert m in messages;
      LinesActAsMessages(Consume(r, m), messages[1..]);
      if Known(m.kind) {
        LineActsAsMessage(r, m);
        assert D.ExpectedLines(messages)[1..] == D.ExpectedLines(messages[1..]);
      }
    }
  }

  /** Replaying what is decoded from the wire is replaying what was sent. */
  lemma WireActsAsMessages(r: Replica, messages: seq<Message>)
    requires AllFit(messages)
    ensures ReplayLines(r, D.Decode(D.Wire(messages))) == Replay(r, messages)
  {
    LinesActAsMessages(r, messages);
    if D.ExpectedLines(messages) == [] {
      D.EmptyStream(messages);
      assert [D.ShortFrame(0)][1..] == [];
    } else {
      D.StreamRoundTrip(messages, []);
      assert D.Wire(messages) + [] == D.Wire(messages);
    }
  }

  // -------------------------------------------------------------------------------------------------
  // The messages of a run fit

  /** The prices that actions bring onto the wire. */
  ghost predicate PriceFits(a: Action) {
    (a.Place? || a.Amend?) ==> 0 <= a.price < HALF_WORD
  }

  ghost predicate PricesFit(actions: seq<Action>) {
    forall a :: a in actions ==> PriceFits(a)
  }

  lemma {:induction false} DeletesFit(evicted: seq<nat>, id: nat, y: Symbol)
    requires forall i :: 0 <= i < |evicted| ==> evicted[i] < WORD
    ensures AllFit(Deletes(evicted, id, y))
  {
    if evicted != [] {
      DeletesFit(evicted[..|evicted| - 1], id, y);
    }
  }

  lemma PlaceFits(s: Sim, a: Action, y: Symbol)
    requires Inv(s) && a.Place? && Legal(s, a) && PriceFits(a) && s.lastId + 1 < WORD
    ensures AllFit(Messages(s, a, y))
  {
    var o := NewOrder(s, a, y);
    WholeLots(a.lots, 0);
    var evicted := Evicted(s.book, o);
    forall i | 0 <= i < |evicted|
      ensures evicted[i] < WORD
    {
      EvictedFacts(s.book, o, evicted[i]);
    }
    DeletesFit(evicted, o.id, y);
  }

  lemma ExecuteFits(s: Sim, a: Action, y: Symbol)
    requires Inv(s) && a.Execute? && Effective(s, a) && Legal(s, a) && s.lastId < WORD
    ensures AllFit(Messages(s, a, y))
  {
    ExecutedSize(s, a);
    assert a.lots * LOT < HALF_WORD;
  }

  lemma MessagesFit(s: Sim, a: Action, y: Symbol)
    requires Inv(s) && Legal(s, a) && PriceFits(a) && Act(s, a, y).lastId < WORD
    ensures AllFit(Messages(s, a, y))
  {
    if Effective(s, a) {
      match a
      case Place(_, _, _, _) => PlaceFits(s, a, y);
      case Cancel(_) => RestingIsIndexed(s.book, Picked(s, a));
      case Amend(_, _, lots) =>
        RestingIsIndexed(s.book, Picked(s, a));
        WholeLots(lots, 0);
      case Execute(_, _) => ExecuteFits(s, a, y);
    }
  }

  /** What a run publishes fits the wire, as long as its prices do and the ids last. */
  lemma {:induction false} RunMessagesFit(s: Sim, actions: seq<Action>, y: Symbol)
    requires Inv(s) && LegalRun(s, actions, y) && PricesFit(actions) && Run(s, actions, y).lastId < WORD
    ensures AllFit(RunMessages(s, actions, y))
    decreases |actions|
  {
    if actions != [] {
      var init, a := actions[..|actions| - 1], actions[|actions| - 1];
      ActGrows(Run(s, init, y), a, y);
      RunMessagesFit(s, init, y);
      RunKeeps(s, init, y);
      assert a in actions;
      MessagesFit(Run(s, init, y), a, y);
    }
  }

  /** The quoted prices of a ladder. */
  ghost predicate QuotesFit(current: int, tick: int)
    requires tick > 0
  {
    forall side, i :: 1 <= i <= MAX_LEVELS ==> 0 <= Quote(side, current, i, tick) < HALF_WORD
  }

  lemma {:induction false} SeedsFit(seeds: seq<Order>, first: nat, current: int, tick: int, y: Symbol)
    requires tick > 0 && AreSeeds(seeds, first, current, tick) && QuotesFit(current, tick)
    requires first + |seeds| <= WORD && |seeds| <= 2 * ORDERS_PER_LEVEL * MAX_LEVELS
    ensures AllFit(SeedMessages(seeds, y))
    decreases |seeds|
  {
    if seeds != [] {
      var k := |seeds| - 1;
      SeedsFit(seeds[..k], first, current, tick, y);
      assert IsSeed(seeds[k], k, first, current, tick);
      assert 1 <= k / (2 * ORDERS_PER_LEVEL) + 1 <= MAX_LEVELS;
    }
  }

  // -------------------------------------------------------------------------------------------------
  // A session

  /** A consumer of the wire that starts with nothing and hears the seeding of a book and then any run has every
      order that rests, as it rests, and nothing else exactly if no amendment trimmed the book. */
  lemma WireRefinesBook(seeding: seq<Message>, s: Sim, actions: seq<Action>, y: Symbol)
    requires Inv(s) && LegalRun(s, actions, y) && Replay(map[], seeding) == Images(s.book.orders) && AllFit(seeding)
    requires PricesFit(actions) && Run(s, actions, y).lastId < WORD
    ensures Refines(ReplayLines(map[], D.Decode(D.Wire(seeding + RunMessages(s, actions, y)))), s, actions, y)
  {
    RunMessagesFit(s, actions, y);
    WireActsAsMessages(map[], seeding + RunMessages(s, actions, y));
    ReplayConcat(map[], seeding, RunMessages(s, actions, y));
    FeedRefinesBook(s, actions, y);
  }

  /** A replica has every resting order as it rests; its other orders are those that amendments trimmed. */
  ghost predicate Refines(r: Replica, s: Sim, actions: seq<Action>, y: Symbol) {
    var orders := Run(s, actions, y).book.orders;
    && (forall id :: id in orders ==> id in r && Tells(r[id], orders[id]))
    && r.Keys == orders.Keys + RunLost(s, actions, y).Keys
    && (r.Keys == orders.Keys <==> NothingTrimmed(s, actions, y))
    && (r == Images(orders) <==> NothingTrimmed(s, actions, y))
  }

  lemma {:induction false} WireOneMore(messages: seq<Message>, m: Message)
    ensures D.Wire(messages + [m]) == D.Wire(messages) + Frame(m)
  {
    if messages == [] {
      assert [m][1..] == [];
      assert [] + Frame(m) == Frame(m) + [];
    } else {
      assert (messages + [m])[1..] == messages[1..] + [m];
      WireOneMore(messages[1..], m);
      var head, rest := Frame(messages[0]), D.Wire(messages[1..]);
      assert head + (rest + Frame(m)) == (head + rest) + Frame(m);
    }
  }

  /** Encodes messages back to back. */
  method EncodeAll(messages: seq<Message>) returns (wire: seq<Byte>)
    ensures wire == D.Wire(messages)
  {
    wire := [];
    for i := 0 to |messages|
      invariant wire == D.Wire(messages[..i])
    {
      var frame := EncodeBinary(messages[i]);
      WireOneMore(messages[..i], messages[i]);
      assert messages[..i + 1] == messages[..i] + [messages[i]];
      wire := wire + frame;
    }
    assert messages[..|messages|] == messages;
  }

  lemma {:induction false} SeedsAreFew(seeds: seq<Order>)
    ensures |AddAll(EMPTY, seeds).orders| <= |seeds|
    decreases |seeds|
  {
    if seeds != [] {
      var b, o := AddAll(EMPTY, seeds[..|seeds| - 1]), seeds[|seeds| - 1];
      SeedsAreFew(seeds[..|seeds| - 1]);
      KeysAfterAdd(b, o);
      SubsetSize(Add(b, o).orders.Keys, b.orders.Keys + {o.id});
    }
  }

  lemma SessionRefines(seeds: seq<Order>, first: nat, refPrice: int, tick: int, start: Sim, actions: seq<Action>,
                       y: Symbol)
    requires tick > 0 && AreSeeds(seeds, first, refPrice, tick) && |seeds| == 2 * ORDERS_PER_LEVEL * MAX_LEVELS
    requires start.lastId == first - 1 + |seeds|
    requires Laddered(start.book, refPrice, tick, MAX_LEVELS, 0, SeedMessages(seeds, y))
    requires Inv(start) && LegalRun(start, actions, y)
    requires QuotesFit(refPrice, tick) && PricesFit(actions) && Run(start, actions, y).lastId < WORD
    ensures Refines(ReplayLines(map[], D.Decode(D.Wire(SeedMessages(seeds, y) + RunMessages(start, actions, y)))),
                    start, actions, y)
  {
    RunKeeps(start, actions, y);
    SeedsFit(seeds, first, refPrice, tick, y);
    WireRefinesBook(SeedMessages(seeds, y), start, actions, y);
  }

  /** A fresh simulator is seeded and takes some actions; everything it says goes over the wire. Whoever decodes
      and replays it has the book, and beyond it only what amendments trimmed. */
  method Session(sim: Simulator, refPrice: int, current: int, numActions: nat)
      returns (wire: seq<Byte>, ghost start: Sim, ghost actions: seq<Action>)
    requires sim.Valid() && sim.book == EMPTY && numActions < HALF_WORD - 60
    modifies sim, sim.rng`state, sim.ids, sim.matches
    ensures LegalRun(start, actions, sim.Symbol()) && sim.State() == Run(start, actions, sim.Symbol())
    ensures |actions| == numActions
    ensures QuotesFit(refPrice, sim.tick) && PricesFit(actions) && sim.ids.last < WORD ==>
              Refines(ReplayLines(map[], D.Decode(wire)), start, actions, sim.Symbol())
  {
    ghost var seeds;
    ghost var blank, seed, inc, y := sim.State(), sim.rng.state, sim.rng.inc, sim.Symbol();
    var seeding: seq<Message>, messages: seq<Message>;
    seeding, seeds := sim.Initialize(refPrice);
    start := sim.State();
    ghost var state := sim.rng.state;
    FewSeeds(blank, seed, inc, refPrice, seeds, start, state, seeding, y);
    messages, actions := sim.Step(current, numActions);
    wire := EncodeAll(seeding + messages);
    if QuotesFit(refPrice, sim.tick) && PricesFit(actions) && sim.ids.last < WORD {
      DrawnSessionRefines(blank, seed, inc, refPrice, seeds, start, state, seeding, actions, y);
    }
  }

  lemma FewSeeds(blank: Sim, seed: Word64, inc: Word64, refPrice: int, seeds: seq<Order>, start: Sim, state: Word64,
                 seeding: seq<Message>, y: Symbol)
    requires y.tick > 0 && blank.book == EMPTY
    requires SeededAsDrawn(blank, seed, inc, refPrice, seeds, start, state, seeding, y)
    ensures |start.book.orders| <= 60
  {
    SeedsAreFew(seeds);
  }

  lemma DrawnSessionRefines(blank: Sim, seed: Word64, inc: Word64, refPrice: int, seeds: seq<Order>, start: Sim,
                            state: Word64, seeding: seq<Message>, actions: seq<Action>, y: Symbol)
    requires y.tick > 0 && SeededAsDrawn(blank, seed, inc, refPrice, seeds, start, state, seeding, y)
    requires LadderedIf(true, start.book, refPrice, y.tick, MAX_LEVELS, 0, seeding)
    requires Inv(start) && LegalRun(start, actions, y)
    requires QuotesFit(refPrice, y.tick) && PricesFit(actions) && Run(start, actions, y).lastId < WORD
    ensures Refines(ReplayLines(map[], D.Decode(D.Wire(seeding + RunMessages(start, actions, y)))), start, actions, y)
  {
    SessionRefines(seeds, blank.lastId + 1, refPrice, y.tick, start, actions, y);
  }
}
