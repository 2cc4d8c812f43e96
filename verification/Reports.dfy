// What the published messages say, compared with what has happened to the book: each action of
// internal/orderbook/simulator.go, and over a run the balance of shares and the match numbers.
//
// Message types and sides are written as their bytes, so that nothing here depends on how messages are built.
module Reports {
  import opened Bytes
  import opened Itch
  import opened OrderBook
  import opened Simulation

  /** What rests of an order. */
  function SharesAt(b: State, id: nat): int {
    if id in b.orders then b.orders[id].shares else 0
  }

  /** A message that announces an order as it rests: 'F' with a participant, 'A' without one. */
  predicate Announces(m: Message, o: Order, y: Symbol) {
    && m.kind == (if o.mpid == [] then 0x41 else 0x46) && m.stockLocate == y.locate
    && m.orderRef == o.id && m.shares == o.shares && m.price == o.price && m.mpid == o.mpid
    && (m.side == 0x42 <==> o.side == Buy) && (m.side == 0x53 <==> o.side == Sell)
  }

  /** A message that an order has left: 'D'. */
  predicate TellsGone(m: Message, id: nat, y: Symbol) {
    m.kind == 0x44 && m.stockLocate == y.locate && m.orderRef == id
  }

  /** Some messages delete exactly the orders of a set. */
  ghost predicate DeleteAll(ms: seq<Message>, gone: set<nat>, y: Symbol) {
    && (forall i :: 0 <= i < |ms| ==> ms[i].orderRef in gone && TellsGone(ms[i], ms[i].orderRef, y))
    && (forall id :: id in gone ==> exists i :: 0 <= i < |ms| && ms[i].orderRef == id)
  }

  /** A placed order has the drawn side and price and the drawn number of lots of 100. If it rests, it is
      announced first; every order that left for it is deleted. */
  ghost predicate PlacementReported(s: Sim, a: Action, s': Sim, ms: seq<Message>, y: Symbol)
    requires a.Place?
  {
    var id, gone := s.lastId + 1, s.book.orders.Keys - s'.book.orders.Keys;
    && s'.lastId == id && s'.lastMatch == s.lastMatch
    && if id in s'.book.orders then
         && s'.book.orders[id] == Order(id, y.locate, a.side, a.price, a.lots * 100, 0, a.mpid)
         && ms != [] && Announces(ms[0], s'.book.orders[id], y) && DeleteAll(ms[1..], gone, y)
       else DeleteAll(ms, gone, y)
  }

  /** A cancel deletes one order, and nothing else changes. */
  ghost predicate CancelReported(s: Sim, s': Sim, ms: seq<Message>, y: Symbol) {
    && s'.lastId == s.lastId && s'.lastMatch == s.lastMatch
    && |ms| == 1 && ms[0].orderRef in s.book.orders && TellsGone(ms[0], ms[0].orderRef, y)
    && s'.book.orders == s.book.orders - {ms[0].orderRef}
  }

  /** An amendment reports 'U': the order that leaves, and the one that takes its place on the same side, with the
      drawn price and the drawn number of lots of 100, for the same participant and without its priority. */
  ghost predicate AmendmentReported(s: Sim, a: Action, s': Sim, ms: seq<Message>, y: Symbol)
    requires a.Amend?
  {
    && s'.lastId == s.lastId + 1 && s'.lastMatch == s.lastMatch
    && |ms| == 1 && ms[0].kind == 0x55 && ms[0].stockLocate == y.locate
    && ms[0].origOrderRef in s.book.orders && ms[0].origOrderRef !in s'.book.orders
    && ms[0].orderRef == s'.lastId && ms[0].price == a.price && ms[0].shares == a.lots * 100
    && (s'.lastId in s'.book.orders ==>
          var o := s.book.orders[ms[0].origOrderRef];
          s'.book.orders[s'.lastId] == Order(s'.lastId, o.locate, o.side, a.price, a.lots * 100, 0, o.mpid))
  }

  /** An execution reports 'E' and 'P' with one new match number, for one order of the side that the aggressor
      hits: the drawn number of lots of 100, which is what that order lost. No other order changes. */
  ghost predicate ExecutionReported(s: Sim, a: Action, s': Sim, ms: seq<Message>, y: Symbol)
    requires a.Execute?
  {
    && s'.lastId == s.lastId && s'.lastMatch == s.lastMatch + 1 && |ms| == 2
    && var (e, t, id) := (ms[0], ms[1], ms[0].orderRef);
       && e.kind == 0x45 && t.kind == 0x50 && e.stockLocate == y.locate == t.stockLocate
       && e.matchNumber == s'.lastMatch == t.matchNumber && t.orderRef == id && id in s.book.orders
       && e.price == s.book.orders[id].price == t.price
       && (t.side == 0x42 <==> a.aggressor == Buy) && (t.side == 0x53 <==> a.aggressor == Sell)
       && (s.book.orders[id].side == Buy <==> a.aggressor == Sell)
       && e.shares == t.shares == a.lots * 100
       && (InLots(s.book.orders) || id in s'.book.orders ==>
             t.shares == SharesAt(s.book, id) - SharesAt(s'.book, id))
       && (id !in s'.book.orders ==> t.shares >= SharesAt(s.book, id))
       && s'.book.orders - {id} == s.book.orders - {id}
  }

  /** What an action did to the book and what its messages say. */
  ghost predicate Reported(s: Sim, a: Action, s': Sim, ms: seq<Message>, y: Symbol) {
    if !Effective(s, a) then s' == s && ms == []
    else
      match a
      case Place(_, _, _, _) => PlacementReported(s, a, s', ms, y)
      case Cancel(_) => CancelReported(s, s', ms, y)
      case Amend(_, _, _) => AmendmentReported(s, a, s', ms, y)
      case Execute(_, _) => ExecutionReported(s, a, s', ms, y)
  }

  // -------------------------------------------------------------------------------------------------
  // Every action is reported

  lemma {:induction false} DeletesAll(evicted: seq<nat>, id: nat, y: Symbol)
    ensures DeleteAll(Deletes(evicted, id, y), SetOf(evicted) - {id}, y)
  {
    if evicted != [] {
      var init, last := evicted[..|evicted| - 1], evicted[|evicted| - 1];
      DeletesAll(init, id, y);
      assert evicted == init + [last];
      assert SetOf(evicted) == SetOf(init) + {last};
      if last == id {
        assert SetOf(evicted) - {id} == SetOf(init) - {id};
        assert Deletes(evicted, id, y) == Deletes(init, id, y);
      } else {
        assert SetOf(evicted) - {id} == (SetOf(init) - {id}) + {last};
        OneMoreDelete(Deletes(init, id, y), SetOf(init) - {id}, last, y);
      }
    }
  }

  lemma OneMoreDelete(ms: seq<Message>, gone: set<nat>, id: nat, y: Symbol)
    requires DeleteAll(ms, gone, y)
    ensures DeleteAll(ms + [DeleteMessage(id, y)], gone + {id}, y)
  {
    var more := ms + [DeleteMessage(id, y)];
    forall x | x in gone + {id}
      ensures exists i :: 0 <= i < |more| && more[i].orderRef == x
    {
      if x == id {
        assert more[|ms|].orderRef == id;
      } else {
        var i :| 0 <= i < |ms| && ms[i].orderRef == x;
        assert more[i].orderRef == x;
      }
    }
  }

  lemma GoneForAdd(b: State, o: Order)
    requires WellFormed(b) && o.id !in b.orders
    ensures b.orders.Keys - Add(b, o).orders.Keys == SetOf(Evicted(b, o)) - {o.id}
    ensures o.id in Add(b, o).orders <==> o.id !in Evicted(b, o)
    ensures o.id in Add(b, o).orders ==> Add(b, o).orders[o.id] == o
  {
    forall id | id in Evicted(b, o)
      ensures id == o.id || id in b.orders
    {
      EvictedFacts(b, o, id);
    }
  }

  lemma FirstOf(m: Message, rest: seq<Message>)
    ensures ([m] + rest)[0] == m && ([m] + rest)[1..] == rest && [] + rest == rest
  {
  }

  lemma PlacementIsReported(s: Sim, a: Action, y: Symbol)
    requires Inv(s) && a.Place? && Legal(s, a)
    ensures PlacementReported(s, a, Placed(s, a, y), Messages(s, a, y), y)
  {
    var o := NewOrder(s, a, y);
    var evicted := Evicted(s.book, o);
    GoneForAdd(s.book, o);
    DeletesAll(evicted, o.id, y);
    FirstOf(AddMessage(o, y), Deletes(evicted, o.id, y));
  }

  lemma CancelIsReported(s: Sim, a: Action, y: Symbol)
    requires Inv(s) && a.Cancel? && Effective(s, a)
    ensures CancelReported(s, Cancelled(s, a), Messages(s, a, y), y)
  {
    RestingIsIndexed(s.book, Picked(s, a));
  }

  lemma AmendedOrder(b: State, prior: Order, o: Order)
    requires WellFormed(b) && prior.id in b.orders && b.orders[prior.id] == prior && o.id !in b.orders
    ensures prior.id !in Add(Remove(b, prior.id), o).orders
    ensures o.id in Add(Remove(b, prior.id), o).orders ==> Add(Remove(b, prior.id), o).orders[o.id] == o
  {
  }

  lemma AmendmentIsReported(s: Sim, a: Action, y: Symbol)
    requires Inv(s) && a.Amend? && Effective(s, a)
    ensures AmendmentReported(s, a, Amended(s, a), Messages(s, a, y), y)
  {
    RestingIsIndexed(s.book, Picked(s, a));
    PickedIsItself(s.book, Picked(s, a));
    AmendedOrder(s.book, Lookup(s.book, Picked(s, a)), Incoming(s, a));
  }

  lemma PickedIsItself(b: State, id: nat)
    requires Consistent(b) && id in b.orders
    ensures b.orders[id].id == id
  {
    RestsOnItsSide(b, id, b.orders[id].side);
  }

  lemma ReducedBook(b: State, id: nat, shares: int)
    requires id in b.orders && shares > 0
    ensures var r := Reduce(b, id, shares);
            && r.orders - {id} == b.orders - {id}
            && (id in r.orders ==> shares == SharesAt(b, id) - SharesAt(r, id))
            && (id !in r.orders ==> shares >= SharesAt(b, id))
  {
  }

  lemma ExecutionIsReported(s: Sim, a: Action, y: Symbol)
    requires Inv(s) && a.Execute? && Effective(s, a) && Legal(s, a)
    ensures ExecutionReported(s, a, Executed(s, a), Messages(s, a, y), y)
  {
    ExecutedSize(s, a);
    ReducedBook(s.book, Hit(s, a).id, Fill(s, a));
    if InLots(s.book.orders) {
      ExecutedFits(s, a);
    }
  }

  /** Every legal action does what its messages say. */
  lemma ActionIsReported(s: Sim, a: Action, y: Symbol)
    requires Inv(s) && Legal(s, a)
    ensures Reported(s, a, Act(s, a, y), Messages(s, a, y), y)
  {
    if Effective(s, a) {
      match a
      case Place(_, _, _, _) => PlacementIsReported(s, a, y);
      case Cancel(_) => CancelIsReported(s, a, y);
      case Amend(_, _, _) => AmendmentIsReported(s, a, y);
      case Execute(_, _) => ExecutionIsReported(s, a, y);
    }
  }

  // -------------------------------------------------------------------------------------------------
  // The balance of shares over a run

  /** The shares that executions of an order report. */
  function TradedBy(m: Message, id: nat): int {
    if m.kind == 0x50 && m.orderRef == id then m.shares else 0
  }

  /** The shares with which an order is announced, when it is added or takes another's place. */
  function AnnouncedBy(m: Message, id: nat): int {
    if m.kind in {0x41, 0x46, 0x55} && m.orderRef == id then m.shares else 0
  }

  function Traded(ms: seq<Message>, id: nat): int {
    if ms == [] then 0 else Traded(ms[..|ms| - 1], id) + TradedBy(ms[|ms| - 1], id)
  }

  function Announced(ms: seq<Message>, id: nat): int {
    if ms == [] then 0 else Announced(ms[..|ms| - 1], id) + AnnouncedBy(ms[|ms| - 1], id)
  }

  lemma {:induction false} SumsConcat(a: seq<Message>, b: seq<Message>, id: nat)
    ensures Traded(a + b, id) == Traded(a, id) + Traded(b, id)
    ensures Announced(a + b, id) == Announced(a, id) + Announced(b, id)
    decreases |b|
  {
    if b == [] {
      assert a + b == a;
    } else {
      var init := b[..|b| - 1];
      assert (a + b)[..|a + b| - 1] == a + init;
      SumsConcat(a, init, id);
    }
  }

  lemma SumsOfOne(m: Message, id: nat)
    ensures Traded([m], id) == TradedBy(m, id) && Announced([m], id) == AnnouncedBy(m, id)
  {
    assert [m][..0] == [];
  }

  lemma SumsOfTwo(m: Message, n: Message, id: nat)
    ensures Traded([m, n], id) == TradedBy(m, id) + TradedBy(n, id)
    ensures Announced([m, n], id) == AnnouncedBy(m, id) + AnnouncedBy(n, id)
  {
    assert [m, n] == [m] + [n];
    SumsConcat([m], [n], id);
    SumsOfOne(m, id);
    SumsOfOne(n, id);
  }

  lemma {:induction false} DeletesSumToNothing(ms: seq<Message>, id: nat)
    requires forall i :: 0 <= i < |ms| ==> ms[i].kind == 0x44
    ensures Traded(ms, id) == 0 && Announced(ms, id) == 0
    decreases |ms|
  {
    if ms != [] {
      DeletesSumToNothing(ms[..|ms| - 1], id);
    }
  }

  /** What an action does to the shares of one order, and what its messages say about them. */
  ghost predicate Balanced(s: Sim, s': Sim, ms: seq<Message>, id: nat) {
    && (id in s'.book.orders ==>
          SharesAt(s'.book, id) == SharesAt(s.book, id) + Announced(ms, id) - Traded(ms, id))
    && (id > s'.lastId ==> Announced(ms, id) == 0 && Traded(ms, id) == 0)
    && s.lastId <= s'.lastId
    && (id in s'.book.orders ==> id in s.book.orders || s.lastId < id)
  }

  lemma PlacementBalances(s: Sim, a: Action, s': Sim, ms: seq<Message>, y: Symbol, id: nat)
    requires Inv(s) && a.Place? && PlacementReported(s, a, s', ms, y)
    requires GrewBy(s'.book.orders, s.book.orders, NewOrder(s, a, y))
    ensures Balanced(s, s', ms, id)
  {
    if s'.lastId in s'.book.orders {
      DeletesSumToNothing(ms[1..], id);
      SumsOfOne(ms[0], id);
      assert ms == [ms[0]] + ms[1..];
      SumsConcat([ms[0]], ms[1..], id);
    } else {
      DeletesSumToNothing(ms, id);
    }
  }

  lemma AmendmentBalances(s: Sim, a: Action, s': Sim, ms: seq<Message>, y: Symbol, id: nat)
    requires Inv(s) && a.Amend? && AmendmentReported(s, a, s', ms, y)
    requires forall x :: x in s'.book.orders && x != s'.lastId ==>
               x in s.book.orders && s'.book.orders[x] == s.book.orders[x]
    ensures Balanced(s, s', ms, id)
  {
    assert ms == [ms[0]];
    SumsOfOne(ms[0], id);
  }

  lemma CancelBalances(s: Sim, s': Sim, ms: seq<Message>, y: Symbol, id: nat)
    requires Inv(s) && CancelReported(s, s', ms, y)
    ensures Balanced(s, s', ms, id)
  {
    DeletesSumToNothing(ms, id);
  }

  lemma ExecutionBalances(s: Sim, a: Action, s': Sim, ms: seq<Message>, y: Symbol, id: nat)
    requires Inv(s) && a.Execute? && ExecutionReported(s, a, s', ms, y)
    ensures Balanced(s, s', ms, id)
  {
    assert ms == [ms[0], ms[1]];
    SumsOfTwo(ms[0], ms[1], id);
    if id != ms[0].orderRef && id in s'.book.orders {
      assert id in s'.book.orders - {ms[0].orderRef};
      assert (s'.book.orders - {ms[0].orderRef})[id] == (s.book.orders - {ms[0].orderRef})[id];
    }
  }

  lemma AmendGrows(s: Sim, a: Action)
    requires a.Amend? && Effective(s, a)
    ensures forall x :: x in Amended(s, a).book.orders && x != s.lastId + 1 ==>
              x in s.book.orders && Amended(s, a).book.orders[x] == s.book.orders[x]
  {
    AddGrows(Remove(s.book, Picked(s, a)), Incoming(s, a));
  }

  lemma ActionBalances(s: Sim, a: Action, y: Symbol, id: nat)
    requires Inv(s) && Legal(s, a)
    ensures Balanced(s, Act(s, a, y), Messages(s, a, y), id)
  {
    if Effective(s, a) {
      match a
      case Place(_, _, _, _) =>
        PlacementIsReported(s, a, y);
        AddGrows(s.book, NewOrder(s, a, y));
        PlacementBalances(s, a, Placed(s, a, y), Messages(s, a, y), y, id);
      case Cancel(_) =>
        CancelIsReported(s, a, y);
        CancelBalances(s, Cancelled(s, a), Messages(s, a, y), y, id);
      case Amend(_, _, _) =>
        AmendmentIsReported(s, a, y);
        AmendGrows(s, a);
        AmendmentBalances(s, a, Amended(s, a), Messages(s, a, y), y, id);
      case Execute(_, _) =>
        ExecutionIsReported(s, a, y);
        ExecutionBalances(s, a, Executed(s, a), Messages(s, a, y), y, id);
    }
  }

  /** Shares are conserved: what rests of an order after a run is what rested before, or what it was announced
      with, less what its trades have reported. */
  lemma {:induction false} SharesAreConserved(s: Sim, actions: seq<Action>, y: Symbol, id: nat)
    requires Inv(s) && LegalRun(s, actions, y)
    ensures var end, ms := Run(s, actions, y), RunMessages(s, actions, y);
            && (id in end.book.orders ==>
                  SharesAt(end.book, id) == SharesAt(s.book, id) + Announced(ms, id) - Traded(ms, id))
            && (id > end.lastId ==> SharesAt(s.book, id) == 0 && Announced(ms, id) == 0 && Traded(ms, id) == 0)
    decreases |actions|
  {
    if actions != [] {
      var init, a := actions[..|actions| - 1], actions[|actions| - 1];
      var before := Run(s, init, y);
      SharesAreConserved(s, init, y, id);
      RunKeeps(s, init, y);
      ActionBalances(before, a, y, id);
      SumsConcat(RunMessages(s, init, y), Messages(before, a, y), id);
    }
  }

  /** What executions take from an order over a run. */
  function TakenBy(s: Sim, actions: seq<Action>, y: Symbol, id: nat): int
    decreases |actions|
  {
    if actions == [] then 0
    else
      var before, a := Run(s, actions[..|actions| - 1], y), actions[|actions| - 1];
      TakenBy(s, actions[..|actions| - 1], y, id)
      + (if a.Execute? then SharesAt(before.book, id) - SharesAt(Act(before, a, y).book, id) else 0)
  }

  /** On a book in whole lots, one action's trades report what it takes by executing. */
  lemma ActionTrades(s: Sim, a: Action, y: Symbol, id: nat)
    requires Inv(s) && InLots(s.book.orders) && Legal(s, a)
    ensures Traded(Messages(s, a, y), id) ==
            if a.Execute? then SharesAt(s.book, id) - SharesAt(Act(s, a, y).book, id) else 0
  {
    var s', ms := Act(s, a, y), Messages(s, a, y);
    ActionIsReported(s, a, y);
    if Effective(s, a) {
      match a
      case Place(_, _, _, _) =>
        if s'.lastId in s'.book.orders {
          DeletesSumToNothing(ms[1..], id);
          SumsOfOne(ms[0], id);
          assert ms == [ms[0]] + ms[1..];
          SumsConcat([ms[0]], ms[1..], id);
        } else {
          DeletesSumToNothing(ms, id);
        }
      case Cancel(_) => DeletesSumToNothing(ms, id);
      case Amend(_, _, _) =>
        assert ms == [ms[0]];
        SumsOfOne(ms[0], id);
      case Execute(_, _) =>
        assert ms == [ms[0], ms[1]];
        SumsOfTwo(ms[0], ms[1], id);
        if id != ms[0].orderRef {
          OthersStay(s.book.orders, s'.book.orders, ms[0].orderRef, id);
        }
    }
  }

  lemma OthersStay(orders: map<nat, Order>, later: map<nat, Order>, except: nat, id: nat)
    requires orders - {except} == later - {except} && id != except
    ensures id in orders <==> id in later
    ensures id in orders ==> orders[id] == later[id]
  {
    assert id in orders <==> id in orders - {except};
    assert id in later <==> id in later - {except};
    if id in orders {
      assert (orders - {except})[id] == (later - {except})[id];
    }
  }

  /** The recorded trades of an order add up to what executions took from it, whether or not it still rests. */
  lemma {:induction false} TradesAddUp(s: Sim, actions: seq<Action>, y: Symbol, id: nat)
    requires Inv(s) && Orderly(s.book) && LegalRun(s, actions, y)
    ensures Traded(RunMessages(s, actions, y), id) == TakenBy(s, actions, y, id)
    decreases |actions|
  {
    if actions != [] {
      var init, a := actions[..|actions| - 1], actions[|actions| - 1];
      TradesAddUp(s, init, y, id);
      RunKeeps(s, init, y);
      RunKeepsOrder(s, init, y);
      ActionTrades(Run(s, init, y), a, y, id);
      SumsConcat(RunMessages(s, init, y), Messages(Run(s, init, y), a, y), id);
    }
  }

  // -------------------------------------------------------------------------------------------------
  // Match numbers

  /** The match numbers that messages of a type carry. */
  function Numbers(ms: seq<Message>, kind: Byte): seq<nat> {
    if ms == [] then []
    else
      Numbers(ms[..|ms| - 1], kind) + (if ms[|ms| - 1].kind == kind then [ms[|ms| - 1].matchNumber] else [])
  }

  lemma {:induction false} NumbersConcat(a: seq<Message>, b: seq<Message>, kind: Byte)
    ensures Numbers(a + b, kind) == Numbers(a, kind) + Numbers(b, kind)
    decreases |b|
  {
    if b == [] {
      assert a + b == a;
    } else {
      var init := b[..|b| - 1];
      assert (a + b)[..|a + b| - 1] == a + init;
      NumbersConcat(a, init, kind);
    }
  }

  lemma {:induction false} NoNumbers(ms: seq<Message>, kind: Byte)
    requires forall i :: 0 <= i < |ms| ==> ms[i].kind != kind
    ensures Numbers(ms, kind) == []
    decreases |ms|
  {
    if ms != [] {
      NoNumbers(ms[..|ms| - 1], kind);
    }
  }

  /** The next n numbers. */
  function Following(last: nat, n: nat): (s: seq<nat>)
    ensures |s| == n
  {
    seq(n, i requires 0 <= i < n => last + 1 + i)
  }

  lemma FollowingConcat(last: nat, n: nat, m: nat)
    ensures Following(last, n) + Following(last + n, m) == Following(last, n + m)
  {
  }

  lemma NumbersOfTwo(m: Message, n: Message, kind: Byte)
    requires m.matchNumber == n.matchNumber && (m.kind == kind) != (n.kind == kind)
    ensures Numbers([m, n], kind) == [m.matchNumber]
  {
    assert [m, n][..1] == [m] && [m][..0] == [];
    assert Numbers([m], kind) == if m.kind == kind then [m.matchNumber] else [];
  }

  lemma PlacementNumbers(s: Sim, a: Action, s': Sim, ms: seq<Message>, y: Symbol, kind: Byte)
    requires a.Place? && PlacementReported(s, a, s', ms, y) && kind in {0x45, 0x50}
    ensures Numbers(ms, kind) == []
  {
    forall i | 0 <= i < |ms|
      ensures ms[i].kind != kind
    {
      if i > 0 && s'.lastId in s'.book.orders {
        assert ms[i] == ms[1..][i - 1];
      }
    }
    NoNumbers(ms, kind);
  }

  /** An action uses the next match number or none. */
  ghost predicate Numbered(last: nat, later: nat, numbers: seq<nat>) {
    (later == last && numbers == []) || (later == last + 1 && numbers == [later])
  }

  lemma ActionNumbers(s: Sim, a: Action, y: Symbol, kind: Byte)
    requires Inv(s) && Legal(s, a) && kind in {0x45, 0x50}
    ensures Numbered(s.lastMatch, Act(s, a, y).lastMatch, Numbers(Messages(s, a, y), kind))
  {
    if Effective(s, a) {
      match a
      case Place(_, _, _, _) =>
        PlacementIsReported(s, a, y);
        PlacementNumbers(s, a, Placed(s, a, y), Messages(s, a, y), y, kind);
      case Cancel(_) =>
        CancelIsReported(s, a, y);
        NoNumbers(Messages(s, a, y), kind);
      case Amend(_, _, _) =>
        AmendmentIsReported(s, a, y);
        NoNumbers(Messages(s, a, y), kind);
      case Execute(_, _) =>
        ExecutionIsReported(s, a, y);
        var ms := Messages(s, a, y);
        NumbersOfTwo(ms[0], ms[1], kind);
        assert ms == [ms[0], ms[1]];
    }
  }

  /** All numbers after first up to last. */
  ghost predicate AllFrom(first: nat, last: nat, numbers: seq<nat>) {
    first <= last && numbers == Following(first, last - first)
  }

  lemma NumbersGrow(first: nat, last: nat, later: nat, earlier: seq<nat>, numbers: seq<nat>)
    requires AllFrom(first, last, earlier) && Numbered(last, later, numbers)
    ensures AllFrom(first, later, earlier + numbers)
  {
    if later == last {
      assert earlier + [] == earlier;
    } else {
      assert Following(last, 1) == [later];
      FollowingConcat(first, last - first, 1);
    }
  }

  lemma MoreNumbers(s: Sim, init: seq<Action>, before: Sim, a: Action, y: Symbol, kind: Byte)
    requires before == Run(s, init, y) && Inv(before) && Legal(before, a) && kind in {0x45, 0x50}
    requires AllFrom(s.lastMatch, before.lastMatch, Numbers(RunMessages(s, init, y), kind))
    ensures AllFrom(s.lastMatch, Act(before, a, y).lastMatch,
                    Numbers(RunMessages(s, init, y) + Messages(before, a, y), kind))
  {
    ActionNumbers(before, a, y, kind);
    NumbersConcat(RunMessages(s, init, y), Messages(before, a, y), kind);
    NumbersGrow(s.lastMatch, before.lastMatch, Act(before, a, y).lastMatch, Numbers(RunMessages(s, init, y), kind),
                Numbers(Messages(before, a, y), kind));
  }

  /** Executions and trades each carry the next match number, one after the other, without gaps. */
  lemma {:induction false} MatchNumbersAreConsecutive(s: Sim, actions: seq<Action>, y: Symbol, kind: Byte)
    requires Inv(s) && LegalRun(s, actions, y) && kind in {0x45, 0x50}
    ensures AllFrom(s.lastMatch, Run(s, actions, y).lastMatch, Numbers(RunMessages(s, actions, y), kind))
    decreases |actions|
  {
    if actions != [] {
      var init, a := actions[..|actions| - 1], actions[|actions| - 1];
      MatchNumbersAreConsecutive(s, init, y, kind);
      RunKeeps(s, init, y);
      MoreNumbers(s, init, Run(s, init, y), a, y, kind);
    }
  }
}
