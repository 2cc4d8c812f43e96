// All books of the exchange over time: which operations on which symbol's book have taken place, and what they
// keep. The books change through the functions of internal/orderbook/book.go; an order that is added or takes
// another's place draws its id from the counter of internal/orderbook/order.go.
module Trading {
  import opened Bytes
  import opened OrderBook

  datatype Operation =
    | Added(side: Side, price: int, shares: int, priority: int, mpid: seq<Byte>)
    | Removed(id: nat)
    | Reduced(id: nat, quantity: int)
    | Replaced(id: nat, price: int, shares: int)

  /** An operation on the book of a symbol. */
  datatype Event = Event(locate: nat, op: Operation)

  /** The books by symbol and the last order id issued. */
  datatype Moment = Moment(books: map<nat, State>, last: nat) {
    function Book(locate: nat): State {
      if locate in books then books[locate] else EMPTY
    }
  }

  predicate DrawsId(b: State, op: Operation) {
    op.Added? || (op.Replaced? && op.id in b.orders)
  }

  function IdAfter(b: State, op: Operation, last: nat): nat {
    if DrawsId(b, op) then last + 1 else last
  }

  function Operated(b: State, op: Operation, locate: nat, newId: nat): State {
    match op
    case Added(side, price, shares, priority, mpid) => Add(b, Order(newId, locate, side, price, shares, priority, mpid))
    case Removed(id) => Remove(b, id)
    case Reduced(id, quantity) => Reduce(b, id, quantity)
    case Replaced(id, price, shares) => Replace(b, id, newId, price, shares)
  }

  function Next(m: Moment, e: Event): Moment {
    if e.locate !in m.books then m
    else
      var b := m.Book(e.locate);
      Moment(m.books[e.locate := Operated(b, e.op, e.locate, m.last + 1)], IdAfter(b, e.op, m.last))
  }

  function Run(start: Moment, trace: seq<Event>): Moment
    decreases |trace|
  {
    if trace == [] then start else Next(Run(start, trace[..|trace| - 1]), trace[|trace| - 1])
  }

  // -------------------------------------------------------------------------------------------------
  // What every operation keeps

  /** The orders of a symbol's book are its own, and their ids have been issued. */
  ghost predicate Owned(orders: map<nat, Order>, locate: nat, last: nat) {
    forall id :: id in orders ==> orders[id].id == id && id <= last && orders[id].locate == locate
  }

  ghost predicate BookOk(b: State, locate: nat, last: nat) {
    WellFormed(b) && Owned(b.orders, locate, last)
  }

  ghost predicate Ok(m: Moment) {
    forall l :: l in m.books ==> BookOk(m.books[l], l, m.last)
  }

  predicate SameButShares(o: Order, p: Order) {
    o == p.(shares := o.shares)
  }

  /** No order comes back that has left, and none changes except in its shares. */
  ghost predicate Evolves(orders: map<nat, Order>, later: map<nat, Order>, last: nat) {
    forall id :: id in later && id <= last ==> id in orders && SameButShares(later[id], orders[id])
  }

  lemma AddOwned(b: State, o: Order, last: nat)
    requires Owned(b.orders, o.locate, last) && last < o.id
    ensures Owned(Add(b, o).orders, o.locate, o.id) && Evolves(b.orders, Add(b, o).orders, last)
  {
  }

  lemma RemoveOwned(b: State, id: nat, locate: nat, last: nat)
    requires Owned(b.orders, locate, last)
    ensures Owned(Remove(b, id).orders, locate, last) && Evolves(b.orders, Remove(b, id).orders, last)
  {
  }

  lemma ReduceOwned(b: State, id: nat, quantity: int, locate: nat, last: nat)
    requires Owned(b.orders, locate, last)
    ensures Owned(Reduce(b, id, quantity).orders, locate, last)
    ensures Evolves(b.orders, Reduce(b, id, quantity).orders, last)
  {
  }

  lemma EvolvesOn(a: map<nat, Order>, b: map<nat, Order>, c: map<nat, Order>, last: nat, later: nat)
    requires Evolves(a, b, last) && Evolves(b, c, later) && last <= later
    ensures Evolves(a, c, last)
  {
  }

  lemma ReplaceOwned(b: State, oldId: nat, newId: nat, price: int, shares: int, locate: nat, last: nat)
    requires Owned(b.orders, locate, last) && last < newId && oldId in b.orders
    ensures Owned(Replace(b, oldId, newId, price, shares).orders, locate, newId)
    ensures Evolves(b.orders, Replace(b, oldId, newId, price, shares).orders, last)
  {
    var o, r := Replacement(b.orders[oldId], newId, price, shares), Remove(b, oldId);
    RemoveOwned(b, oldId, locate, last);
    AddOwned(r, o, last);
    EvolvesOn(b.orders, r.orders, Add(r, o).orders, last, last);
  }

  lemma OperatedOwned(b: State, op: Operation, locate: nat, last: nat)
    requires Owned(b.orders, locate, last)
    ensures Owned(Operated(b, op, locate, last + 1).orders, locate, IdAfter(b, op, last))
    ensures Evolves(b.orders, Operated(b, op, locate, last + 1).orders, last)
  {
    match op
    case Added(side, price, shares, priority, mpid) =>
      AddOwned(b, Order(last + 1, locate, side, price, shares, priority, mpid), last);
    case Removed(id) => RemoveOwned(b, id, locate, last);
    case Reduced(id, quantity) => ReduceOwned(b, id, quantity, locate, last);
    case Replaced(id, price, shares) =>
      if id in b.orders {
        ReplaceOwned(b, id, last + 1, price, shares, locate, last);
      }
  }

  lemma OperatedWellFormed(b: State, op: Operation, locate: nat, last: nat)
    requires WellFormed(b) && Owned(b.orders, locate, last)
    ensures WellFormed(Operated(b, op, locate, last + 1))
  {
    assert last + 1 !in b.orders;
    match op
    case Added(side, price, shares, priority, mpid) =>
      AddKeeps(b, Order(last + 1, locate, side, price, shares, priority, mpid));
    case Removed(id) => RemoveKeeps(b, id);
    case Reduced(id, quantity) => ReduceKeeps(b, id, quantity);
    case Replaced(id, price, shares) => ReplaceKeeps(b, id, last + 1, price, shares);
  }

  lemma OperatedOk(b: State, op: Operation, locate: nat, last: nat)
    requires BookOk(b, locate, last)
    ensures BookOk(Operated(b, op, locate, last + 1), locate, IdAfter(b, op, last))
  {
    OperatedOwned(b, op, locate, last);
    OperatedWellFormed(b, op, locate, last);
  }

  lemma OwnedLater(orders: map<nat, Order>, locate: nat, last: nat, later: nat)
    requires Owned(orders, locate, last) && last <= later
    ensures Owned(orders, locate, later)
  {
  }

  lemma BookOkLater(b: State, l: nat, last: nat, later: nat)
    requires BookOk(b, l, last) && last <= later
    ensures BookOk(b, l, later)
  {
    OwnedLater(b.orders, l, last, later);
  }

  /** The state b takes an event of the run m to c. */
  lemma OwnBookOk(m: Moment, e: Event, c: State, last: nat)
    requires BookOk(m.Book(e.locate), e.locate, m.last)
    requires c == Operated(m.Book(e.locate), e.op, e.locate, m.last + 1)
    requires last == IdAfter(m.Book(e.locate), e.op, m.last)
    ensures BookOk(c, e.locate, last)
  {
    OperatedOk(m.Book(e.locate), e.op, e.locate, m.last);
  }

  lemma OwnBookEvolves(m: Moment, e: Event, c: State)
    requires BookOk(m.Book(e.locate), e.locate, m.last)
    requires c == Operated(m.Book(e.locate), e.op, e.locate, m.last + 1)
    ensures Evolves(m.Book(e.locate).orders, c.orders, m.last)
  {
    OperatedOwned(m.Book(e.locate), e.op, e.locate, m.last);
  }

  lemma NextIs(m: Moment, e: Event)
    requires e.locate in m.books
    ensures Next(m, e).Book(e.locate) == Operated(m.Book(e.locate), e.op, e.locate, m.last + 1)
    ensures Next(m, e).last == IdAfter(m.Book(e.locate), e.op, m.last)
  {
  }

  lemma NextId(m: Moment, e: Event)
    requires e.locate in m.books
    ensures Next(m, e).last == if DrawsId(m.books[e.locate], e.op) then m.last + 1 else m.last
  {
  }

  lemma OtherBookStays(m: Moment, e: Event, l: nat)
    requires l != e.locate
    ensures Next(m, e).Book(l) == m.Book(l) && m.last <= Next(m, e).last
  {
  }

  lemma NextBookOk(m: Moment, e: Event, l: nat)
    requires Ok(m) && l in m.books
    ensures BookOk(Next(m, e).Book(l), l, Next(m, e).last)
    ensures Evolves(m.Book(l).orders, Next(m, e).Book(l).orders, m.last)
  {
    if l == e.locate {
      NextIs(m, e);
      assert BookOk(m.books[l], l, m.last);
      OwnBookOk(m, e, Next(m, e).Book(l), Next(m, e).last);
      OwnBookEvolves(m, e, Next(m, e).Book(l));
    } else {
      OtherBookStays(m, e, l);
      assert BookOk(m.books[l], l, m.last);
      BookOkLater(m.Book(l), l, m.last, Next(m, e).last);
    }
  }

  lemma NextKeeps(m: Moment, e: Event)
    requires Ok(m)
    ensures Ok(Next(m, e)) && Next(m, e).books.Keys == m.books.Keys && m.last <= Next(m, e).last
  {
    var n := Next(m, e);
    forall l | l in n.books
      ensures BookOk(n.books[l], l, n.last)
    {
      NextBookOk(m, e, l);
    }
  }

  /** Every operation, on whichever book, keeps all books well-formed and apart. */
  lemma {:induction false} RunKeeps(start: Moment, trace: seq<Event>)
    requires Ok(start)
    ensures Ok(Run(start, trace)) && Run(start, trace).books.Keys == start.books.Keys
    ensures start.last <= Run(start, trace).last
    decreases |trace|
  {
    if trace != [] {
      RunKeeps(start, trace[..|trace| - 1]);
      NextKeeps(Run(start, trace[..|trace| - 1]), trace[|trace| - 1]);
    }
  }

  lemma PrefixOf(trace: seq<Event>, later: seq<Event>)
    requires trace <= later
    ensures later[..|trace|] == trace
  {
  }

  lemma PrefixOfInit(trace: seq<Event>, k: nat)
    requires k < |trace|
    ensures trace[..|trace| - 1][..k] == trace[..k]
  {
  }

  /** What a book still holds later, it has held all along. */
  lemma {:induction false} RunEvolves(start: Moment, trace: seq<Event>, k: nat, l: nat)
    requires Ok(start) && l in start.books && k <= |trace|
    ensures Evolves(Run(start, trace[..k]).Book(l).orders, Run(start, trace).Book(l).orders,
                    Run(start, trace[..k]).last)
    ensures Run(start, trace[..k]).last <= Run(start, trace).last
    decreases |trace|
  {
    var n := |trace| - 1;
    if k == |trace| {
      PrefixOf(trace, trace);
    } else {
      var m, init := Run(start, trace[..k]), Run(start, trace[..n]);
      PrefixOfInit(trace, k);
      RunEvolves(start, trace[..n], k, l);
      RunKeeps(start, trace[..n]);
      NextBookOk(init, trace[n], l);
      NextKeeps(init, trace[n]);
      EvolvesOn(m.Book(l).orders, init.Book(l).orders, Run(start, trace).Book(l).orders, m.last, init.last);
    }
  }

  lemma LaterId(start: Moment, trace: seq<Event>, later: seq<Event>)
    requires Ok(start) && trace <= later
    ensures Run(start, trace).last <= Run(start, later).last
    decreases |later|
  {
    if |trace| < |later| {
      var init := later[..|later| - 1];
      LaterId(start, trace, init);
      RunKeeps(start, init);
      NextKeeps(Run(start, init), later[|later| - 1]);
    } else {
      assert trace == later;
    }
  }

  lemma RunMore(start: Moment, trace: seq<Event>, e: Event)
    ensures Run(start, trace + [e]) == Next(Run(start, trace), e)
  {
    assert (trace + [e])[..|trace|] == trace;
  }

  lemma IndexedById(start: Moment, trace: seq<Event>, l: nat)
    requires Ok(start)
    ensures forall id :: id in Run(start, trace).Book(l).orders ==> Run(start, trace).Book(l).orders[id].id == id
  {
    RunKeeps(start, trace);
    if l in Run(start, trace).books {
      assert BookOk(Run(start, trace).books[l], l, Run(start, trace).last);
    }
  }

  /** Every id in a book has been issued. */
  lemma NoLaterId(start: Moment, trace: seq<Event>)
    requires Ok(start)
    ensures Ok(Run(start, trace))
    ensures forall l, id :: l in Run(start, trace).books && id in Run(start, trace).books[l].orders ==>
                              id <= Run(start, trace).last
  {
    RunKeeps(start, trace);
    forall l, id | l in Run(start, trace).books && id in Run(start, trace).books[l].orders
      ensures id <= Run(start, trace).last
    {
      assert BookOk(Run(start, trace).books[l], l, Run(start, trace).last);
    }
  }

  lemma LaterIdIsOk(m: Moment, later: nat)
    requires Ok(m) && m.last <= later
    ensures Ok(m.(last := later))
  {
    forall l | l in m.books
      ensures BookOk(m.books[l], l, later)
    {
      BookOkLater(m.books[l], l, m.last, later);
    }
  }

  // -------------------------------------------------------------------------------------------------
  // What can be seen of a book while operations go on

  /** One of the states that a symbol's book was in from a moment of the run on. */
  ghost predicate Seen(b: State, l: nat, start: Moment, trace: seq<Event>, from: nat) {
    exists k :: from <= k <= |trace| && Run(start, trace[..k]).Book(l) == b
  }

  ghost predicate AllSeen(seen: map<nat, State>, start: Moment, trace: seq<Event>, from: nat) {
    forall l :: l in seen ==> Seen(seen[l], l, start, trace, from)
  }

  lemma SeenStays(b: State, l: nat, start: Moment, trace: seq<Event>, from: nat, later: seq<Event>)
    requires Seen(b, l, start, trace, from) && trace <= later
    ensures Seen(b, l, start, later, from)
  {
    var k :| from <= k <= |trace| && Run(start, trace[..k]).Book(l) == b;
    assert later[..k] == trace[..k];
  }

  lemma AllSeenStays(seen: map<nat, State>, start: Moment, trace: seq<Event>, from: nat, later: seq<Event>)
    requires AllSeen(seen, start, trace, from) && trace <= later
    ensures AllSeen(seen, start, later, from)
  {
    forall l | l in seen
      ensures Seen(seen[l], l, start, later, from)
    {
      SeenStays(seen[l], l, start, trace, from, later);
    }
  }

  lemma PresentIsSeen(l: nat, start: Moment, trace: seq<Event>, from: nat)
    requires from <= |trace|
    ensures Seen(Run(start, trace).Book(l), l, start, trace, from)
  {
    assert trace[..|trace|] == trace;
  }

  lemma SeenIsWellFormed(b: State, l: nat, start: Moment, trace: seq<Event>, from: nat)
    requires Ok(start) && l in start.books && Seen(b, l, start, trace, from)
    ensures WellFormed(b)
  {
    var k :| from <= k <= |trace| && Run(start, trace[..k]).Book(l) == b;
    RunKeeps(start, trace[..k]);
    assert BookOk(Run(start, trace[..k]).books[l], l, Run(start, trace[..k]).last);
  }

  /** No operation takes place on a symbol's book from a moment of the run on. */
  ghost predicate Quiet(l: nat, trace: seq<Event>, from: nat) {
    forall k :: from <= k < |trace| ==> trace[k].locate != l
  }

  lemma {:induction false} QuietBookStays(l: nat, start: Moment, trace: seq<Event>, from: nat, k: nat)
    requires Quiet(l, trace, from) && from <= k <= |trace|
    ensures Run(start, trace[..k]).Book(l) == Run(start, trace[..from]).Book(l)
    decreases k
  {
    if from < k {
      QuietBookStays(l, start, trace, from, k - 1);
      assert trace[..k][..k - 1] == trace[..k - 1] && trace[..k][k - 1] == trace[k - 1];
    }
  }

  lemma QuietIsSeenOnce(b: State, l: nat, start: Moment, trace: seq<Event>, from: nat)
    requires Quiet(l, trace, from) && from <= |trace| && Seen(b, l, start, trace, from)
    ensures b == Run(start, trace[..from]).Book(l) == Run(start, trace).Book(l)
  {
    var k :| from <= k <= |trace| && Run(start, trace[..k]).Book(l) == b;
    QuietBookStays(l, start, trace, from, k);
    QuietBookStays(l, start, trace, from, |trace|);
    assert trace[..|trace|] == trace;
  }

  // -------------------------------------------------------------------------------------------------
  // Rows read while operations go on

  ghost predicate RowOf(o: Order, b: State) {
    o.id in b.orders && b.orders[o.id] == o
  }

  /** A row that may be out of date: if its order still rests, then it differs at most in its shares. */
  ghost predicate Collected(o: Order, m: Moment) {
    && o.id <= m.last && o.locate in m.books
    && (o.id in m.Book(o.locate).orders ==> SameButShares(m.Book(o.locate).orders[o.id], o))
  }

  ghost predicate WasRow(o: Order, start: Moment, trace: seq<Event>, from: nat) {
    exists b :: Seen(b, o.locate, start, trace, from) && RowOf(o, b)
  }

  /** A row whose order, if it still rests, was exactly so in a state of its book from a moment of the run on. */
  ghost predicate Drawn(o: Order, start: Moment, trace: seq<Event>, from: nat) {
    && o.id <= Run(start, trace).last && o.locate in start.books
    && (o.id in Run(start, trace).Book(o.locate).orders ==> WasRow(o, start, trace, from))
  }

  lemma CollectedEvolves(o: Order, orders: map<nat, Order>, later: map<nat, Order>, last: nat)
    requires Evolves(orders, later, last) && o.id <= last && (o.id in orders ==> SameButShares(orders[o.id], o))
    ensures o.id in later ==> SameButShares(later[o.id], o)
  {
  }

  lemma CollectedStays(o: Order, start: Moment, trace: seq<Event>, later: seq<Event>)
    requires Ok(start) && Collected(o, Run(start, trace)) && trace <= later
    ensures Collected(o, Run(start, later))
  {
    RunKeeps(start, trace);
    RunKeeps(start, later);
    PrefixOf(trace, later);
    RunEvolves(start, later, |trace|, o.locate);
    CollectedEvolves(o, Run(start, trace).Book(o.locate).orders, Run(start, later).Book(o.locate).orders,
                     Run(start, trace).last);
  }

  lemma WasRowStays(o: Order, start: Moment, trace: seq<Event>, from: nat, later: seq<Event>)
    requires WasRow(o, start, trace, from) && trace <= later
    ensures WasRow(o, start, later, from)
  {
    var b :| Seen(b, o.locate, start, trace, from) && RowOf(o, b);
    SeenStays(b, o.locate, start, trace, from, later);
  }

  lemma DrawnStays(o: Order, start: Moment, trace: seq<Event>, from: nat, later: seq<Event>)
    requires Ok(start) && Drawn(o, start, trace, from) && trace <= later
    ensures Drawn(o, start, later, from)
  {
    PrefixOf(trace, later);
    RunEvolves(start, later, |trace|, o.locate);
    if o.id in Run(start, later).Book(o.locate).orders {
      WasRowStays(o, start, trace, from, later);
    }
  }

  ghost predicate AllCollected(rows: seq<Order>, m: Moment) {
    forall i :: 0 <= i < |rows| ==> Collected(rows[i], m)
  }

  ghost predicate AllDrawn(rows: seq<Order>, start: Moment, trace: seq<Event>, from: nat) {
    forall i :: 0 <= i < |rows| ==> Drawn(rows[i], start, trace, from)
  }

  lemma AllCollectedStays(rows: seq<Order>, start: Moment, trace: seq<Event>, later: seq<Event>)
    requires Ok(start) && AllCollected(rows, Run(start, trace)) && trace <= later
    ensures AllCollected(rows, Run(start, later))
  {
    forall i | 0 <= i < |rows|
      ensures Collected(rows[i], Run(start, later))
    {
      CollectedStays(rows[i], start, trace, later);
    }
  }

  lemma AllDrawnStays(rows: seq<Order>, start: Moment, trace: seq<Event>, from: nat, later: seq<Event>)
    requires Ok(start) && AllDrawn(rows, start, trace, from) && trace <= later
    ensures AllDrawn(rows, start, later, from)
  {
    forall i | 0 <= i < |rows|
      ensures Drawn(rows[i], start, later, from)
    {
      DrawnStays(rows[i], start, trace, from, later);
    }
  }

  /** Reading the shares of an order that still rests makes its row exact. */
  lemma ReadShares(o: Order, shares: int, start: Moment, trace: seq<Event>, from: nat)
    requires Ok(start) && Collected(o, Run(start, trace)) && from <= |trace|
    requires var orders := Run(start, trace).Book(o.locate).orders; o.id in orders ==> shares == orders[o.id].shares
    ensures Drawn(o.(shares := shares), start, trace, from)
  {
    RunKeeps(start, trace);
    var b := Run(start, trace).Book(o.locate);
    if o.id in b.orders {
      PresentIsSeen(o.locate, start, trace, from);
      assert RowOf(o.(shares := shares), b);
    }
  }

  ghost predicate ExactRows(rows: seq<Order>, b: State) {
    forall i :: 0 <= i < |rows| ==> RowOf(rows[i], b)
  }

  lemma ExactIsCollected(rows: seq<Order>, l: nat, m: Moment)
    requires Ok(m) && l in m.books && ExactRows(rows, m.Book(l))
    ensures AllCollected(rows, m)
    ensures forall i :: 0 <= i < |rows| ==> rows[i].locate == l && rows[i].id <= m.last
  {
    assert Owned(m.books[l].orders, l, m.last);
    forall i | 0 <= i < |rows|
      ensures Collected(rows[i], m) && rows[i].locate == l && rows[i].id <= m.last
    {
      assert RowOf(rows[i], m.Book(l));
    }
  }
}
