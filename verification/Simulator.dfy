// The simulator object of internal/orderbook/simulator.go: it draws from the generator, updates its book and
// the global counters and returns the messages. Each method is proved to perform actions of module
// Simulation, which it names in a ghost result. The book is the abstract state of a LiveBook.Book, whose
// methods are proved to have the effect of the functions used here.
module Simulator {
  import opened Bytes
  import opened Itch
  import opened Pcg
  import opened OrderBook
  import opened Counters
  import opened Simulation
  import opened Feed
  import opened Seeding
  import opened Reports
  import opened Draws

  /** A legal action took one state to the next and published its messages. */
  ghost predicate Performed(s: Sim, a: Action, s': Sim, messages: seq<Message>, y: Symbol) {
    Legal(s, a) && s' == Act(s, a, y) && messages == Messages(s, a, y)
  }

  /** A run of legal actions did. */
  ghost predicate Ran(s: Sim, actions: seq<Action>, s': Sim, messages: seq<Message>, y: Symbol) {
    LegalRun(s, actions, y) && s' == Run(s, actions, y) && messages == RunMessages(s, actions, y)
  }

  lemma RanOne(start: Sim, actions: seq<Action>, s: Sim, messages: seq<Message>, a: Action, s': Sim,
               more: seq<Message>, y: Symbol)
    requires Ran(start, actions, s, messages, y) && Performed(s, a, s', more, y)
    ensures Ran(start, actions + [a], s', messages + more, y)
  {
    OneMoreAction(start, actions, a, y);
  }

  /** And they are the ones that the generator led to. */
  ghost predicate RanAsDrawn(start: Sim, seed: Word64, inc: Word64, current: int, actions: seq<Action>, s: Sim,
                             state: Word64, messages: seq<Message>, y: Symbol)
    requires y.tick > 0
  {
    Ran(start, actions, s, messages, y) && Draw(actions, state) == NextActions(start, seed, inc, current, y, |actions|)
  }

  lemma RanOneAsDrawn(start: Sim, seed: Word64, inc: Word64, current: int, actions: seq<Action>, s: Sim,
                      state: Word64, messages: seq<Message>, a: Action, s': Sim, state': Word64, more: seq<Message>,
                      y: Symbol)
    requires y.tick > 0 && RanAsDrawn(start, seed, inc, current, actions, s, state, messages, y)
    requires Performed(s, a, s', more, y) && Draw(a, state') == NextAction(s, state, inc, current, y.tick)
    ensures RanAsDrawn(start, seed, inc, current, actions + [a], s', state', messages + more, y)
  {
    RanOne(start, actions, s, messages, a, s', more, y);
  }

  /** A seeding of a book, as the generator led to it. */
  ghost predicate SeededAsDrawn(start: Sim, seed: Word64, inc: Word64, refPrice: int, seeds: seq<Order>, s: Sim,
                                state: Word64, messages: seq<Message>, y: Symbol)
    requires y.tick > 0
  {
    && |seeds| == 2 * ORDERS_PER_LEVEL * MAX_LEVELS && AreDrawn(seeds, seed, inc, state)
    && SeededWith(start.book, s.book, seeds, messages, start.lastId + 1, refPrice, y)
    && s.lastId == start.lastId + |seeds| && s.lastMatch == start.lastMatch
  }

  lemma SeededSoDrawn(start: Sim, seed: Word64, inc: Word64, refPrice: int, seeds: seq<Order>, s: Sim, state: Word64,
                      messages: seq<Message>, y: Symbol)
    requires y.tick > 0 && |seeds| == 2 * ORDERS_PER_LEVEL * MAX_LEVELS && AreDrawn(seeds, seed, inc, state)
    requires SeededWith(start.book, s.book, seeds, messages, start.lastId + 1, refPrice, y)
    requires s.lastId == start.lastId + |seeds| && s.lastMatch == start.lastMatch
    ensures SeededAsDrawn(start, seed, inc, refPrice, seeds, s, state, messages, y)
  {
  }

  lemma SeedingDone(start: Sim, refPrice: int, seeds: seq<Order>, b: State, messages: seq<Message>, y: Symbol)
    requires Inv(start) && y.tick > 0
    requires SeededWith(start.book, b, seeds, messages, start.lastId + 1, refPrice, y)
    ensures AllAnnounced(messages, seeds, y) && (Orderly(start.book) ==> Orderly(b))
  {
    SeedsKeep(start, seeds, refPrice, y.tick);
    SeedsAreAnnounced(seeds, y);
  }

  lemma SeedingsAgree(start: Sim, seed: Word64, inc: Word64, refPrice: int, seeds: seq<Order>, s: Sim, state: Word64,
                      messages: seq<Message>, seeds': seq<Order>, s': Sim, state': Word64, messages': seq<Message>,
                      y: Symbol)
    requires y.tick > 0
    requires SeededAsDrawn(start, seed, inc, refPrice, seeds, s, state, messages, y)
    requires SeededAsDrawn(start, seed, inc, refPrice, seeds', s', state', messages', y)
    ensures s == s' && state == state' && messages == messages'
  {
    SeedsAgree(seeds, seeds', start.lastId + 1, refPrice, y.tick, y.locate, seed, inc, state, state');
  }

  /** The start, the generator and the number of actions determine everything. */
  lemma RunsAgree(start: Sim, seed: Word64, inc: Word64, current: int, actions: seq<Action>, s: Sim, state: Word64,
                  messages: seq<Message>, actions': seq<Action>, s': Sim, state': Word64, messages': seq<Message>,
                  y: Symbol)
    requires y.tick > 0 && |actions| == |actions'|
    requires RanAsDrawn(start, seed, inc, current, actions, s, state, messages, y)
    requires RanAsDrawn(start, seed, inc, current, actions', s', state', messages', y)
    ensures s == s' && state == state' && messages == messages'
  {
    assert actions == actions';
  }

  lemma PerformedKeeps(s: Sim, a: Action, s': Sim, messages: seq<Message>, y: Symbol)
    requires Inv(s) && Performed(s, a, s', messages, y)
    ensures Inv(s') && |s'.book.orders| <= |s.book.orders| + 1
    ensures Reported(s, a, s', messages, y)
  {
    ActionIsReported(s, a, y);
    ActKeeps(s, a, y);
    ActGrows(s, a, y);
    AtMostOneMore(s, s');
  }

  lemma NothingDone(s: Sim, a: Action, y: Symbol)
    requires Inv(s) && !Effective(s, a) && Legal(s, a)
    ensures Performed(s, a, s, [], y) && Reported(s, a, s, [], y)
  {
  }

  /** The book's own replace operation performs an amendment. */
  lemma AmendPerformed(s: Sim, a: Action, id: nat, newId: nat, shares: int, y: Symbol)
    requires a.Amend? && Effective(s, a) && Legal(s, a) && id in s.book.orders
    requires id == Picked(s, a) && newId == s.lastId + 1 && shares == a.lots * LOT
    ensures Performed(s, a, Sim(Replace(s.book, id, newId, a.price, shares), newId, s.lastMatch),
                      [ReplaceMessage(id, newId, a.price, shares, y)], y)
  {
    assert Incoming(s, a) == Replacement(s.book.orders[id], newId, a.price, shares);
  }

  /** In a consistent book a side with a price has a first order. */
  lemma BestMeansQueued(b: State)
    requires Consistent(b) && Best(b.bids) != 0 && Best(b.asks) != 0
    ensures CanExecute(b, Buy) && CanExecute(b, Sell)
  {
    assert LevelOk(b.bids[0], Buy, b.orders) && LevelOk(b.asks[0], Sell, b.orders);
  }

  lemma ConcatPair(a: seq<Message>, m: Message, n: Message)
    ensures a + ([m] + [n]) == a + [m] + [n]
  {
  }

  lemma RoundLot(shares: int)
    ensures 100 <= shares <= 1000 ==> 0 < shares / LOT * LOT <= MAX_SHARES && shares / LOT * LOT % LOT == 0
  {
  }

  class Simulator {
    const rng: Rng
    const locate: Word16
    const tick: int
    const ids: Counter
    const matches: Counter
    var book: State

    constructor (rng: Rng, locate: Word16, tick: int, ids: Counter, matches: Counter)
      ensures this.rng == rng && this.locate == locate && this.tick == tick
      ensures this.ids == ids && this.matches == matches && book == EMPTY
    {
      this.rng, this.locate, this.tick, this.ids, this.matches, book := rng, locate, tick, ids, matches, EMPTY;
    }

    ghost function State(): Sim
      reads this, ids, matches
    {
      Sim(book, ids.last, matches.last)
    }

    function Symbol(): Symbol {
      Simulation.Symbol(locate, tick)
    }

    ghost predicate Valid()
      reads this, ids, matches
    {
      Inv(State()) && ids != matches && tick > 0
    }

    /** A number between two bounds, or the lower one. */
    method DrawInt(lo: int, hi: int) returns (r: int)
      requires hi - lo + 1 < HALF_WORD
      modifies rng`state
      ensures Draw(r, rng.state) == IntAt(old(rng.state), rng.inc, lo, hi)
      ensures lo <= hi ==> lo <= r <= hi
      ensures lo > hi ==> r == lo
    {
      if lo < hi {
        SmallBound(hi - lo + 1);
      }
      r := rng.IntRange(lo, hi);
    }

    /** A participant for some of the orders; the empty text for the others. */
    method DrawMpid(chance: real) returns (mpid: seq<Byte>)
      modifies rng`state
      ensures Draw(mpid, rng.state) == MpidAt(old(rng.state), rng.inc, chance)
    {
      var u := rng.Float64();
      if u < chance {
        assert |MPIDS| == 8;
        SmallBound(|MPIDS|);
        var i := rng.Intn(|MPIDS|);
        return MPIDS[i];
      }
      return [];
    }

    method DrawSide() returns (side: Side)
      modifies rng`state
      ensures Draw(side, rng.state) == SideAt(old(rng.state), rng.inc)
    {
      var u := rng.Float64();
      return if u < 0.5 then Sell else Buy;
    }

    /** The price of a new order: some ticks from the current one, and at least a tick. */
    ghost predicate IsQuote(side: Side, price: int, current: int, farthest: int)
      requires tick > 0
    {
      exists offset :: 1 <= offset <= farthest && price == PriceAway(side, current, offset, tick)
    }

    ghost predicate IsQuoted(a: Action, current: int, farthest: int)
      requires a.Place? && tick > 0
    {
      IsQuote(a.side, a.price, current, farthest)
    }

    method DrawPrice(side: Side, current: int, farthest: int) returns (price: int)
      requires 1 <= farthest <= 10 && tick > 0
      modifies rng`state
      ensures IsQuote(side, price, current, farthest)
      ensures var offset := IntAt(old(rng.state), rng.inc, 1, farthest);
              rng.state == offset.state && price == PriceAway(side, current, offset.value, tick)
    {
      var offset := DrawInt(1, farthest);
      price := PriceAway(side, current, offset, tick);
    }

    /** Draws for a new order some ticks from the current price. */
    method DrawPlace(current: int, farthest: int, fewestLots: int, chance: real) returns (a: Action)
      requires 1 <= farthest <= 10 && 1 <= fewestLots <= 10 && tick > 0
      modifies rng`state
      ensures a.Place? && fewestLots <= a.lots <= 10
      ensures IsQuoted(a, current, farthest)
      ensures Draw(a, rng.state) == PlacementAt(old(rng.state), rng.inc, current, tick, farthest, fewestLots, chance)
    {
      var side := DrawSide();
      var price := DrawPrice(side, current, farthest);
      var lots := DrawInt(fewestLots, 10);
      var mpid := DrawMpid(chance);
      a := Place(side, price, lots, mpid);
    }

    method PlaceOrder(a: Action) returns (msgs: seq<Message>)
      requires Valid() && a.Place? && Legal(State(), a)
      modifies this, ids
      ensures Valid() && Performed(old(State()), a, State(), msgs, Symbol())
      ensures Reported(old(State()), a, State(), msgs, Symbol())
    {
      ghost var before := State();
      var id := ids.Next();
      var o := Order(id, locate, a.side, a.price, a.lots * LOT, 0, a.mpid);
      assert o == NewOrder(before, a, Symbol());
      var evicted := Evicted(book, o);
      book := Add(book, o);
      msgs := AddMsgs(o, evicted);
      PerformedKeeps(before, a, State(), msgs, Symbol());
    }

    /** A new order of at least one lot, one to ten ticks away. */
    method DoAdd(current: int) returns (msgs: seq<Message>, ghost action: Action)
      requires Valid()
      modifies rng`state, this, ids
      ensures Valid() && Performed(old(State()), action, State(), msgs, Symbol())
      ensures Reported(old(State()), action, State(), msgs, Symbol())
      ensures action.Place? && 1 <= action.lots <= 10 && IsQuoted(action, current, 10)
      ensures Draw(action, rng.state) == PlacementAt(old(rng.state), rng.inc, current, tick, 10, 1, 0.2)
    {
      var a := DrawPlace(current, 10, 1, 0.2);
      action := a;
      msgs := PlaceOrder(a);
    }

    /** A new order of at least two lots, one to five ticks away. */
    method DoReplenish(current: int) returns (msgs: seq<Message>, ghost action: Action)
      requires Valid()
      modifies rng`state, this, ids
      ensures Valid() && Performed(old(State()), action, State(), msgs, Symbol())
      ensures Reported(old(State()), action, State(), msgs, Symbol())
      ensures action.Place? && 2 <= action.lots <= 10 && IsQuoted(action, current, 5)
      ensures Draw(action, rng.state) == PlacementAt(old(rng.state), rng.inc, current, tick, 5, 2, 0.25)
    {
      var a := DrawPlace(current, 5, 2, 0.25);
      action := a;
      msgs := PlaceOrder(a);
    }

    method AddMsgs(o: Order, evicted: seq<nat>) returns (msgs: seq<Message>)
      ensures msgs == AddMessages(o, evicted, Symbol())
    {
      msgs := [];
      var selfEvicted := false;
      for i := 0 to |evicted|
        invariant msgs == Deletes(evicted[..i], o.id, Symbol())
        invariant selfEvicted <==> o.id in evicted[..i]
      {
        assert evicted[..i + 1][..i] == evicted[..i];
        if evicted[i] == o.id {
          selfEvicted := true;
        } else {
          msgs := msgs + [DeleteMessage(evicted[i], Symbol())];
        }
      }
      assert evicted[..|evicted|] == evicted;
      if !selfEvicted {
        msgs := [AddMessage(o, Symbol())] + msgs;
      }
    }

    /** A random index into the resting orders of both sides, if there are any. */
    method DrawPick() returns (pick: nat, any: bool)
      requires |book.Resting()| < HALF_WORD
      modifies rng`state
      ensures any <==> book.Resting() != []
      ensures any ==> pick < |book.Resting()|
      ensures Draw(pick, rng.state) == PickAt(State(), old(rng.state), rng.inc)
    {
      var total := |Ids(book.bids)| + |Ids(book.asks)|;
      if total == 0 {
        return 0, false;
      }
      PickIs(State(), rng.state, rng.inc);
      var idx := rng.Intn(total);
      return idx, true;
    }

    /** A non-empty book loses exactly one order; an empty one stays. */
    method DoCancel() returns (msgs: seq<Message>, ghost action: Action)
      requires Valid() && |book.orders| < HALF_WORD
      modifies rng`state, this
      ensures Valid() && Performed(old(State()), action, State(), msgs, Symbol()) && action.Cancel?
      ensures Reported(old(State()), action, State(), msgs, Symbol())
      ensures Draw(action, rng.state) == CancelAt(old(State()), old(rng.state), rng.inc)
      ensures old(book.orders) == map[] ==> book == old(book) && msgs == []
      ensures old(book.orders) != map[] ==>
                exists id :: id in old(book.orders) && book.orders == old(book.orders) - {id}
                             && msgs == [DeleteMessage(id, Symbol())]
    {
      ghost var before := State();
      PickIsBijective(book);
      var pick, any := DrawPick();
      action := Cancel(pick);
      if !any {
        return [], action;
      }
      var id := book.Resting()[pick];
      assert id in book.orders;
      RemovePicked(book, pick);
      book := Remove(book, id);
      msgs := [DeleteMessage(id, Symbol())];
      PerformedKeeps(before, action, State(), msgs, Symbol());
    }

    /** The price of an amended order: at most two ticks from where it was, and at least a tick. */
    ghost predicate IsShifted(a: Action, price: int)
      requires a.Amend? && tick > 0
    {
      exists shift :: -2 <= shift <= 2 && a.price == PriceShifted(price, shift, tick)
    }

    method DrawAmend(pick: nat, price: int) returns (a: Action)
      requires tick > 0
      modifies rng`state
      ensures a.Amend? && a.pick == pick && 1 <= a.lots <= 10 && IsShifted(a, price)
      ensures Draw(a, rng.state) == AmendWith(pick, price, old(rng.state), rng.inc, tick)
    {
      var shift := DrawInt(-2, 2);
      var newPrice := PriceShifted(price, shift, tick);
      var lots := DrawInt(1, 10);
      a := Amend(pick, newPrice, lots);
    }

    method ReplacePicked(a: Action) returns (msgs: seq<Message>)
      requires Valid() && a.Amend? && Effective(State(), a) && Legal(State(), a)
      modifies this, ids
      ensures Valid() && Performed(old(State()), a, State(), msgs, Symbol())
      ensures Reported(old(State()), a, State(), msgs, Symbol())
    {
      ghost var before := State();
      var id := book.Resting()[a.pick];
      RestingIsIndexed(book, id);
      var newId := ids.Next();
      var shares := a.lots * LOT;
      AmendPerformed(before, a, id, newId, shares, Symbol());
      book := Replace(book, id, newId, a.price, shares);
      msgs := [ReplaceMessage(id, newId, a.price, shares, Symbol())];
      PerformedKeeps(before, a, State(), msgs, Symbol());
    }

    /** A resting order, if there is any, gives way to one of a new size at most two ticks away. */
    method DoReplace() returns (msgs: seq<Message>, ghost action: Action)
      requires Valid() && |book.orders| < HALF_WORD
      modifies rng`state, this, ids
      ensures Valid() && Performed(old(State()), action, State(), msgs, Symbol()) && action.Amend?
      ensures Reported(old(State()), action, State(), msgs, Symbol())
      ensures Draw(action, rng.state) == AmendAt(old(State()), old(rng.state), rng.inc, tick)
      ensures old(book.orders) == map[] ==> State() == old(State()) && msgs == []
      ensures old(book.orders) != map[] ==>
                && Effective(old(State()), action)
                && IsShifted(action, Lookup(old(book), Picked(old(State()), action)).price)
    {
      ghost var before, seed := State(), rng.state;
      PickIsBijective(book);
      var pick, any := DrawPick();
      if !any {
        action := Amend(0, 0, 1);
        AmendIdle(before, seed, rng.inc, tick);
        NothingDone(before, action, Symbol());
        return [], action;
      }
      assert book.Resting()[pick] in book.orders;
      AmendIs(before, seed, rng.inc, tick, Draw(pick, rng.state));
      msgs, action := ReplaceAt(pick);
    }

    /** The order at a position gives way. */
    method ReplaceAt(pick: nat) returns (msgs: seq<Message>, ghost action: Action)
      requires Valid() && pick < |book.Resting()| && book.Resting()[pick] in book.orders
      modifies rng`state, this, ids
      ensures Valid() && Performed(old(State()), action, State(), msgs, Symbol()) && action.Amend?
      ensures Reported(old(State()), action, State(), msgs, Symbol()) && action.pick == pick
      ensures Draw(action, rng.state) == AmendWith(pick, PriceAt(old(book), pick), old(rng.state), rng.inc, tick)
      ensures Effective(old(State()), action)
      ensures IsShifted(action, Lookup(old(book), Picked(old(State()), action)).price)
    {
      var a := DrawAmend(pick, Lookup(book, book.Resting()[pick]).price);
      action := a;
      msgs := ReplacePicked(a);
    }

    method DrawTrade(aggressor: Side, shares: int) returns (a: Action)
      requires shares < 0x8000_0000
      modifies rng`state
      ensures a.Execute? && a.aggressor == aggressor
      ensures if shares / LOT <= 1 then a.lots == 1 else 1 <= a.lots <= shares / LOT
      ensures Draw(a.lots, rng.state) == IntAt(old(rng.state), rng.inc, 1, shares / LOT)
    {
      var lots := DrawInt(1, shares / LOT);
      a := Execute(aggressor, lots);
    }

    /** One side of doTrade: the aggressor takes some lots of the first order of the other side. */
    method TradeWith(a: Action) returns (msgs: seq<Message>)
      requires Valid() && a.Execute? && Effective(State(), a) && Legal(State(), a)
      modifies this, matches
      ensures Valid() && Performed(old(State()), a, State(), msgs, Symbol())
      ensures Reported(old(State()), a, State(), msgs, Symbol())
    {
      ghost var before := State();
      var o := Lookup(book, Target(book, a.aggressor));
      var tradeShares := a.lots * LOT;
      if tradeShares <= 0 {
        tradeShares := o.shares;
      }
      var n := matches.Next();
      msgs := [ExecutedMessage(o, tradeShares, n, Symbol()), TradeMessage(o, a.aggressor, tradeShares, n, Symbol())];
      book := Reduce(book, o.id, tradeShares);
      assert State() == Executed(before, a);
      PerformedKeeps(before, a, State(), msgs, Symbol());
    }

    /** An execution against the best order of one side, unless a side has no best price. */
    method DoTrade() returns (msgs: seq<Message>, ghost action: Action)
      requires Valid()
      modifies rng`state, this, matches
      ensures Valid() && Performed(old(State()), action, State(), msgs, Symbol()) && action.Execute?
      ensures Reported(old(State()), action, State(), msgs, Symbol())
      ensures Effective(old(State()), action) <==> Best(old(book.bids)) != 0 && Best(old(book.asks)) != 0
      ensures Draw(action, rng.state) == TradeAt(old(State()), old(rng.state), rng.inc)
    {
      if Best(book.bids) == 0 || Best(book.asks) == 0 {
        action := Execute(Buy, 1);
        return [], action;
      }
      BestMeansQueued(book);
      var u := rng.Float64();
      var aggressor := if u < 0.5 then Buy else Sell;
      TargetIsIndexed(book, aggressor);
      var a := DrawTrade(aggressor, Lookup(book, Target(book, aggressor)).shares);
      action := a;
      msgs := TradeWith(a);
    }

    /** What each of the five actions does. */
    ghost predicate IsAction(pick: nat, a: Action, current: int)
      requires tick > 0
    {
      match pick
      case 0 => a.Place? && 1 <= a.lots <= 10 && IsQuoted(a, current, 10)
      case 1 => a.Cancel?
      case 2 => a.Amend?
      case 3 => a.Execute?
      case _ => a.Place? && 2 <= a.lots <= 10 && IsQuoted(a, current, 5)
    }

    /** One of the five actions: the draw decides with chances of 30, 20, 15, 15 and 20 in a hundred. */
    method DoAction(current: int) returns (msgs: seq<Message>, ghost action: Action)
      requires Valid() && |book.orders| < HALF_WORD
      modifies rng`state, this, ids, matches
      ensures Valid() && Performed(old(State()), action, State(), msgs, Symbol())
      ensures Reported(old(State()), action, State(), msgs, Symbol())
      ensures IsAction(ActionAt(Drawn(old(rng.state))), action, current)
      ensures Draw(action, rng.state) == NextAction(old(State()), old(rng.state), rng.inc, current, tick)
    {
      WeightsAreChances(Output(rng.state));
      var pick := rng.WeightedPick(ACTION_WEIGHTS);
      match pick {
        case 0 => msgs, action := DoAdd(current);
        case 1 => msgs, action := DoCancel();
        case 2 => msgs, action := DoReplace();
        case 3 => msgs, action := DoTrade();
        case _ => msgs, action := DoReplenish(current);
      }
    }

    /** Some actions in a row: a legal run of the abstract simulator, whose messages are returned. */
    method Step(current: int, numActions: int) returns (msgs: seq<Message>, ghost actions: seq<Action>)
      requires Valid() && |book.orders| + numActions < HALF_WORD
      modifies rng`state, this, ids, matches
      ensures Valid() && |actions| == (if numActions > 0 then numActions else 0)
      ensures Ran(old(State()), actions, State(), msgs, Symbol())
      ensures Draw(actions, rng.state) ==
              NextActions(old(State()), old(rng.state), rng.inc, current, Symbol(), |actions|)
    {
      ghost var start, seed := State(), rng.state;
      msgs, actions := [], [];
      for i := 0 to if numActions > 0 then numActions else 0
        invariant Valid() && |actions| == i && |book.orders| <= |start.book.orders| + i
        invariant RanAsDrawn(start, seed, rng.inc, current, actions, State(), rng.state, msgs, Symbol())
      {
        var actionMsgs: seq<Message>;
        ghost var before, state, action := State(), rng.state, Cancel(0);
        actionMsgs, action := DoAction(current);
        RanOneAsDrawn(start, seed, rng.inc, current, actions, before, state, msgs, action, State(), rng.state,
                      actionMsgs, Symbol());
        PerformedKeeps(before, action, State(), actionMsgs, Symbol());
        actions, msgs := actions + [action], msgs + actionMsgs;
      }
    }

    /** Adds one seed order, whose eviction list the program ignores. */
    method SeedOne(side: Side, price: int, priority: int) returns (msg: Message, o: Order)
      requires Valid()
      modifies rng`state, this, ids
      ensures Valid() && o.id == old(ids.last) + 1 == ids.last && o.side == side && o.price == price
      ensures o.locate == locate
      ensures 0 < o.shares <= MAX_SHARES && o.shares % LOT == 0
      ensures book == Add(old(book), o) && msg == AddMessage(o, Symbol())
      ensures o.priority == priority && Draw((o.shares, o.mpid), rng.state) == SeedAt(old(rng.state), rng.inc)
    {
      var shares := DrawInt(100, 1000);
      RoundLot(shares);
      shares := shares / LOT * LOT;
      var id := ids.Next();
      var mpid := DrawMpid(0.3);
      o := Order(id, locate, side, price, shares, priority, mpid);
      AddKeepsInv(old(State()), o);
      book := Add(book, o);
      msg := AddMessage(o, Symbol());
    }

    /** One bid and one ask of a level. */
    method SeedPair(bidPrice: int, askPrice: int, priority: int)
        returns (msgs: seq<Message>, bid: Order, ask: Order, ghost mid: Word64)
      requires Valid()
      modifies rng`state, this, ids
      ensures Valid() && ids.last == old(ids.last) + 2 && bid.id == old(ids.last) + 1 && ask.id == ids.last
      ensures bid.side == Buy && bid.price == bidPrice && 0 < bid.shares <= MAX_SHARES && bid.shares % LOT == 0
      ensures ask.side == Sell && ask.price == askPrice && 0 < ask.shares <= MAX_SHARES && ask.shares % LOT == 0
      ensures bid.locate == locate == ask.locate && book == Add(Add(old(book), bid), ask)
      ensures msgs == [AddMessage(bid, Symbol())] + [AddMessage(ask, Symbol())]
      ensures bid.priority == priority == ask.priority
      ensures Draw((bid.shares, bid.mpid), mid) == SeedAt(old(rng.state), rng.inc)
      ensures Draw((ask.shares, ask.mpid), rng.state) == SeedAt(mid, rng.inc)
    {
      var bidMsg, askMsg: Message;
      bidMsg, bid := SeedOne(Buy, bidPrice, priority);
      mid := rng.state;
      askMsg, ask := SeedOne(Sell, askPrice, priority);
      msgs := [bidMsg] + [askMsg];
    }

    ghost predicate SeedProgress(start: Sim, first: nat, refPrice: int, full: nat, n: nat, msgs: seq<Message>,
                                 seeds: seq<Order>)
      requires tick > 0
      reads this, ids
    {
      && |seeds| == 2 * ORDERS_PER_LEVEL * full + 2 * n && ids.last == first - 1 + |seeds|
      && SeededWith(start.book, book, seeds, msgs, first, refPrice, Symbol())
      && LadderedIf(start.book == EMPTY, book, refPrice, tick, full, n, msgs)
    }

    /** One more pair of seed orders. */
    method SeedMore(ghost start: Sim, ghost seed: Word64, ghost first: nat, ghost refPrice: int, ghost level: nat,
                    j: nat, bidPrice: int, askPrice: int, ghost msgs: seq<Message>, ghost seeds: seq<Order>)
        returns (pairMsgs: seq<Message>, ghost bid: Order, ghost ask: Order)
      requires Valid() && j < ORDERS_PER_LEVEL && level < MAX_LEVELS
      requires SeedProgress(start, first, refPrice, level, j, msgs, seeds) && AreDrawn(seeds, seed, rng.inc, rng.state)
      requires bidPrice == Quote(Buy, refPrice, level + 1, tick) && askPrice == Quote(Sell, refPrice, level + 1, tick)
      modifies rng`state, this, ids
      ensures Valid() && SeedProgress(start, first, refPrice, level, j + 1, msgs + pairMsgs, seeds + [bid] + [ask])
      ensures AreDrawn(seeds + [bid] + [ask], seed, rng.inc, rng.state)
    {
      ghost var before, state, y := book, rng.state, Symbol();
      ghost var mid;
      pairMsgs, bid, ask, mid := SeedPair(bidPrice, askPrice, j);
      TwoMoreDrawn(seeds, bid, ask, seed, rng.inc, state, mid, rng.state);
      TwoMoreSeeds(start.book, before, seeds, msgs, bid, ask, first, refPrice, level, j, y);
      SeedBothIf(start.book == EMPTY, before, bid, ask, refPrice, tick, level, j, msgs, y);
      ConcatPair(msgs, AddMessage(bid, y), AddMessage(ask, y));
    }

    /** Level by level, three pairs each. */
    method SeedAll(ghost start: Sim, ghost seed: Word64, ghost first: nat, refPrice: int)
        returns (msgs: seq<Message>, ghost seeds: seq<Order>)
      requires Valid() && start == State() && seed == rng.state && first == ids.last + 1
      modifies rng`state, this, ids
      ensures Valid() && SeedProgress(start, first, refPrice, MAX_LEVELS, 0, msgs, seeds)
      ensures AreDrawn(seeds, seed, rng.inc, rng.state)
    {
      msgs, seeds := [], [];
      for level := 0 to MAX_LEVELS
        invariant Valid() && SeedProgress(start, first, refPrice, level, 0, msgs, seeds)
        invariant AreDrawn(seeds, seed, rng.inc, rng.state)
      {
        var bidPrice := Quote(Buy, refPrice, level + 1, tick);
        var askPrice := Quote(Sell, refPrice, level + 1, tick);
        for j := 0 to ORDERS_PER_LEVEL
          invariant Valid() && SeedProgress(start, first, refPrice, level, j, msgs, seeds)
          invariant AreDrawn(seeds, seed, rng.inc, rng.state)
        {
          var pairMsgs;
          ghost var bid, ask;
          pairMsgs, bid, ask := SeedMore(start, seed, first, refPrice, level, j, bidPrice, askPrice, msgs, seeds);
          msgs := msgs + pairMsgs;
          seeds := seeds + [bid] + [ask];
        }
        NextLevelIf(start.book == EMPTY, book, refPrice, tick, level, msgs);
      }
    }

    /** Seeds a book with ten levels a side around a reference price, three orders a level. An empty book gets
        exactly these levels, and a consumer of the messages holds exactly the book. */
    method Initialize(refPrice: int) returns (msgs: seq<Message>, ghost seeds: seq<Order>)
      requires Valid()
      modifies rng`state, this, ids
      ensures Valid()
      ensures SeededAsDrawn(old(State()), old(rng.state), rng.inc, refPrice, seeds, State(), rng.state, msgs, Symbol())
      ensures AllAnnounced(msgs, seeds, Symbol())
      ensures LadderedIf(old(book) == EMPTY, book, refPrice, tick, MAX_LEVELS, 0, msgs)
      ensures Orderly(old(book)) ==> Orderly(book)
    {
      ghost var start, seed, first := State(), rng.state, ids.last + 1;
      msgs, seeds := SeedAll(start, seed, first, refPrice);
      SeededSoDrawn(start, seed, rng.inc, refPrice, seeds, State(), rng.state, msgs, Symbol());
      SeedingDone(start, refPrice, seeds, book, msgs, Symbol());
    }
  }

  /** Two simulators of the same symbol that start alike are seeded alike. */
  method InitializeBoth(a: Simulator, b: Simulator, refPrice: int) returns (msgs: seq<Message>, others: seq<Message>)
    requires a.Valid() && b.Valid()
    requires {a, a.rng, a.ids, a.matches} !! {b, b.rng, b.ids, b.matches}
    requires a.State() == b.State() && a.Symbol() == b.Symbol()
    requires a.rng.state == b.rng.state && a.rng.inc == b.rng.inc
    modifies a, a.rng`state, a.ids, b, b.rng`state, b.ids
    ensures msgs == others && a.State() == b.State() && a.rng.state == b.rng.state
  {
    ghost var start, seed, inc, y := a.State(), a.rng.state, a.rng.inc, a.Symbol();
    ghost var seeds, otherSeeds;
    msgs, seeds := a.Initialize(refPrice);
    ghost var end, state := a.State(), a.rng.state;
    assert b.State() == start && b.rng.state == seed && b.rng.inc == inc && b.Symbol() == y;
    others, otherSeeds := b.Initialize(refPrice);
    assert a.State() == end && a.rng.state == state;
    SeedingsAgree(start, seed, inc, refPrice, seeds, end, state, msgs, otherSeeds, b.State(), b.rng.state, others, y);
  }

  /** Reproducibility: two simulators of the same symbol that start with the same book, counters and generator
      say the same, take the same actions and end up the same, as long as they are stepped alike. */
  method StepBoth(a: Simulator, b: Simulator, current: int, numActions: int)
      returns (msgs: seq<Message>, others: seq<Message>)
    requires a.Valid() && b.Valid() && |a.book.orders| + numActions < HALF_WORD
    requires {a, a.rng, a.ids, a.matches} !! {b, b.rng, b.ids, b.matches}
    requires a.State() == b.State() && a.Symbol() == b.Symbol()
    requires a.rng.state == b.rng.state && a.rng.inc == b.rng.inc
    modifies a, a.rng`state, a.ids, a.matches, b, b.rng`state, b.ids, b.matches
    ensures msgs == others && a.State() == b.State() && a.rng.state == b.rng.state
  {
    ghost var start, seed, inc, y := a.State(), a.rng.state, a.rng.inc, a.Symbol();
    ghost var actions, otherActions;
    msgs, actions := a.Step(current, numActions);
    ghost var end, state := a.State(), a.rng.state;
    assert b.State() == start && b.rng.state == seed && b.rng.inc == inc && b.Symbol() == y;
    others, otherActions := b.Step(current, numActions);
    assert a.State() == end && a.rng.state == state;
    RunsAgree(start, seed, inc, current, actions, end, state, msgs, otherActions, b.State(), b.rng.state, others, y);
  }
}
