// Saving and loading all books while they are in use: Save and Load of internal/persist/snapshot.go.
//
// Save collects the books one by one and reads the order-id counter afterwards; the simulators keep running in
// between. Prices, the generator's state and the trades table are not part of this module.
module Snapshot {
  import opened OrderBook
  import opened Trading
  import opened Counters
  import opened Restore
  import opened Trades
  import Sequences

  /** The rows of the orders table and the saved counters, committed together. */
  datatype Image = Image(rows: seq<Order>, orderCounter: nat, matchCounter: nat)

  /** The rows of one symbol. */
  function RowsFor(rows: seq<Order>, locate: nat): seq<Order> {
    if rows == [] then []
    else
      RowsFor(rows[..|rows| - 1], locate)
      + (if rows[|rows| - 1].locate == locate then [rows[|rows| - 1]] else [])
  }

  lemma {:induction false} RowsForConcat(a: seq<Order>, b: seq<Order>, locate: nat)
    ensures RowsFor(a + b, locate) == RowsFor(a, locate) + RowsFor(b, locate)
    decreases |b|
  {
    if b == [] {
      assert a + b == a;
    } else {
      var init := b[..|b| - 1];
      assert (a + b)[..|a + b| - 1] == a + init;
      RowsForConcat(a, init, locate);
    }
  }

  lemma {:induction false} RowsOfOne(rows: seq<Order>, locate: nat, other: nat)
    requires forall i :: 0 <= i < |rows| ==> rows[i].locate == locate
    ensures RowsFor(rows, other) == if other == locate then rows else []
    decreases |rows|
  {
    if rows != [] {
      RowsOfOne(rows[..|rows| - 1], locate, other);
      assert rows == rows[..|rows| - 1] + [rows[|rows| - 1]];
    }
  }

  lemma {:induction false} InRowsFor(rows: seq<Order>, locate: nat, o: Order)
    requires o in RowsFor(rows, locate)
    ensures o in rows && o.locate == locate
    decreases |rows|
  {
    if o in RowsFor(rows[..|rows| - 1], locate) {
      InRowsFor(rows[..|rows| - 1], locate, o);
    }
  }

  // -------------------------------------------------------------------------------------------------
  // Rows that restore the books seen

  ghost predicate Counted(rows: seq<Order>, last: nat) {
    forall i :: 0 <= i < |rows| ==> rows[i].id <= last
  }

  ghost predicate HoldsSeen(rows: seq<Order>, seen: map<nat, State>) {
    forall l :: l in seen ==> RowsOf(RowsFor(rows, l), seen[l])
  }

  ghost predicate HoldsNoOther(rows: seq<Order>, locates: set<nat>) {
    forall l :: l !in locates ==> RowsFor(rows, l) == []
  }

  /** Rows that hold exactly the orders of books seen while saving, and a counter that has passed all ids. */
  ghost predicate Restorable(rows: seq<Order>, seen: map<nat, State>, last: nat) {
    Counted(rows, last) && HoldsSeen(rows, seen) && HoldsNoOther(rows, seen.Keys)
  }

  lemma CountedLater(rows: seq<Order>, last: nat, later: nat)
    requires Counted(rows, last) && last <= later
    ensures Counted(rows, later)
  {
  }

  lemma RowsForMore(rows: seq<Order>, more: seq<Order>, l: nat, m: nat)
    requires forall i :: 0 <= i < |more| ==> more[i].locate == l
    ensures RowsFor(rows + more, m) == if m == l then RowsFor(rows, l) + more else RowsFor(rows, m)
  {
    RowsForConcat(rows, more, m);
    RowsOfOne(more, l, m);
    assert RowsFor(rows, m) + [] == RowsFor(rows, m);
  }

  lemma CollectSeen(rows: seq<Order>, seen: map<nat, State>, more: seq<Order>, l: nat, b: State)
    requires HoldsSeen(rows, seen) && RowsFor(rows, l) == [] && l !in seen && RowsOf(more, b)
    requires forall i :: 0 <= i < |more| ==> more[i].locate == l
    ensures HoldsSeen(rows + more, seen[l := b])
  {
    forall m | m in seen
      ensures RowsOf(RowsFor(rows + more, m), seen[m])
    {
      RowsForMore(rows, more, l, m);
    }
    RowsForMore(rows, more, l, l);
    assert [] + more == more;
  }

  lemma CollectNoOther(rows: seq<Order>, locates: set<nat>, more: seq<Order>, l: nat)
    requires HoldsNoOther(rows, locates) && forall i :: 0 <= i < |more| ==> more[i].locate == l
    ensures HoldsNoOther(rows + more, locates + {l})
  {
    forall m | m !in locates + {l}
      ensures RowsFor(rows + more, m) == []
    {
      RowsForMore(rows, more, l, m);
    }
  }

  lemma RestorableWith(rows: seq<Order>, seen: map<nat, State>, last: nat, more: seq<Order>, l: nat, b: State)
    requires Restorable(rows, seen, last) && l !in seen && RowsOf(more, b)
    requires forall i :: 0 <= i < |more| ==> more[i].locate == l && more[i].id <= last
    ensures Restorable(rows + more, seen[l := b], last)
  {
    CollectSeen(rows, seen, more, l, b);
    CollectNoOther(rows, seen.Keys, more, l);
    assert seen[l := b].Keys == seen.Keys + {l};
    assert Counted(rows + more, last);
  }

  lemma OneMoreRow(rows: seq<Order>, b: State, id: nat)
    requires PartOf(rows, b) && id in b.orders && b.orders[id].id == id
    requires forall i :: 0 <= i < |rows| ==> rows[i].id != id
    ensures PartOf(rows + [b.orders[id]], b)
  {
  }

  ghost predicate CoversAllBut(rows: seq<Order>, b: State, left: set<nat>) {
    && (forall i :: 0 <= i < |rows| ==> rows[i].id !in left)
    && (forall id :: id in b.orders && id !in left ==> exists i :: 0 <= i < |rows| && rows[i].id == id)
  }

  lemma OneMoreCovered(rows: seq<Order>, b: State, left: set<nat>, o: Order)
    requires CoversAllBut(rows, b, left) && o.id in left
    ensures CoversAllBut(rows + [o], b, left - {o.id})
  {
    var more := rows + [o];
    forall id | id in b.orders && id !in left - {o.id}
      ensures exists i :: 0 <= i < |more| && more[i].id == id
    {
      if id == o.id {
        assert more[|rows|].id == id;
      } else {
        var i :| 0 <= i < |rows| && rows[i].id == id;
        assert more[i].id == id;
      }
    }
  }

  /** Every order of a restored book is one of the rows. */
  lemma {:induction false} RestoredAreRows(rows: seq<Order>, id: nat)
    requires id in RestoreAll(rows).orders
    ensures RestoreAll(rows).orders[id] in rows && RestoreAll(rows).orders[id].id == id
    decreases |rows|
  {
    var init, o := rows[..|rows| - 1], rows[|rows| - 1];
    if id != o.id {
      RestoredAreRows(init, id);
    }
  }

  /** Restoring the rows of a symbol gives a book whose orders are its own and counted. */
  lemma RestoredAreOwned(rows: seq<Order>, last: nat, l: nat)
    requires forall i :: 0 <= i < |rows| ==> rows[i].id <= last
    ensures Owned(RestoreAll(RowsFor(rows, l)).orders, l, last)
  {
    var own := RowsFor(rows, l);
    var orders := RestoreAll(own).orders;
    forall id | id in orders
      ensures orders[id].id == id && id <= last && orders[id].locate == l
    {
      RestoredAreRows(own, id);
      InRowsFor(rows, l, orders[id]);
    }
  }

  /** Each book is what restoring its symbol's rows gives. */
  ghost predicate Restored(books: map<nat, State>, rows: seq<Order>) {
    forall l :: l in books ==> books[l] == RestoreAll(RowsFor(rows, l))
  }

  lemma RestoreMore(rows: seq<Order>, o: Order, l: nat)
    ensures RestoreAll(RowsFor(rows + [o], l)) ==
            if l == o.locate then Add(RestoreAll(RowsFor(rows, l)), o) else RestoreAll(RowsFor(rows, l))
  {
    RowsForMore(rows, [o], o.locate, l);
    var own := RowsFor(rows, l);
    assert (own + [o])[..|own|] == own;
  }

  lemma RestoreRow(books: map<nat, State>, rows: seq<Order>, i: nat)
    requires i < |rows| && Restored(books, rows[..i])
    ensures var o := rows[i];
            Restored(if o.locate in books then books[o.locate := Add(books[o.locate], o)] else books, rows[..i + 1])
  {
    var o := rows[i];
    assert rows[..i + 1] == rows[..i] + [o];
    forall l
      ensures RestoreAll(RowsFor(rows[..i] + [o], l)) ==
              if l == o.locate then Add(RestoreAll(RowsFor(rows[..i], l)), o) else RestoreAll(RowsFor(rows[..i], l))
    {
      RestoreMore(rows[..i], o, l);
    }
  }

  ghost predicate AllWellFormed(books: map<nat, State>) {
    forall l :: l in books ==> WellFormed(books[l])
  }

  lemma EmptyIsWellFormed()
    ensures WellFormed(EMPTY)
  {
  }

  /** A restored book is well-formed, and the one that was seen up to the order within its queues. */
  lemma RestoredBook(b: State, rows: seq<Order>, seen: map<nat, State>, last: nat, l: nat)
    requires b == RestoreAll(RowsFor(rows, l)) && Restorable(rows, seen, last) && AllWellFormed(seen)
    ensures BookOk(b, l, last)
    ensures if l in seen then SameUpToQueues(b, seen[l]) else b == EMPTY
  {
    RestoredAreOwned(rows, last, l);
    EmptyIsWellFormed();
    if l in seen {
      RestoresLevels(seen[l], RowsFor(rows, l));
    }
  }

  ghost predicate AsSeen(books: map<nat, State>, seen: map<nat, State>) {
    forall l :: l in books ==> if l in seen then SameUpToQueues(books[l], seen[l]) else books[l] == EMPTY
  }

  lemma RestoredBooks(books: map<nat, State>, rows: seq<Order>, seen: map<nat, State>, last: nat)
    requires Restored(books, rows) && Restorable(rows, seen, last) && AllWellFormed(seen)
    ensures Ok(Moment(books, last)) && AsSeen(books, seen)
  {
    forall l | l in books
      ensures BookOk(books[l], l, last)
      ensures if l in seen then SameUpToQueues(books[l], seen[l]) else books[l] == EMPTY
    {
      RestoredBook(books[l], rows, seen, last, l);
    }
  }

  /** The row of a book that nobody has touched. */
  lemma QuietRow(o: Order, start: Moment, trace: seq<Event>, from: nat)
    requires from <= |trace| && Quiet(o.locate, trace, from) && Drawn(o, start, trace, from)
    requires o.id in Run(start, trace).Book(o.locate).orders
    ensures RowOf(o, Run(start, trace).Book(o.locate))
  {
    var b :| Seen(b, o.locate, start, trace, from) && RowOf(o, b);
    QuietIsSeenOnce(b, o.locate, start, trace, from);
  }

  /** If a book did not change during a save, its rows are its orders. */
  lemma QuietRows(rows: seq<Order>, b: State, start: Moment, trace: seq<Event>, from: nat, l: nat)
    requires from <= |trace| && Quiet(l, trace, from) && b == Run(start, trace).Book(l)
    requires RowsOf(RowsFor(rows, l), b) && AllDrawn(rows, start, trace, from)
    ensures ExactRows(RowsFor(rows, l), b)
  {
    var own := RowsFor(rows, l);
    forall i | 0 <= i < |own|
      ensures RowOf(own[i], b)
    {
      var o := own[i];
      assert IsAt(o.id, o.side, o.price, b.orders);
      InRowsFor(rows, l, o);
      var k :| 0 <= k < |rows| && rows[k] == o;
      assert Drawn(rows[k], start, trace, from);
      QuietRow(o, start, trace, from);
    }
  }

  lemma ExactRoundTrip(rows: seq<Order>, b: State)
    requires WellFormed(b) && RowsOf(rows, b) && ExactRows(rows, b)
    ensures RestoreAll(rows).orders == b.orders && Depth(RestoreAll(rows)) == Depth(b)
  {
    forall i | 0 <= i < |rows|
      ensures rows[i].id in b.orders && b.orders[rows[i].id] == rows[i]
    {
      assert RowOf(rows[i], b);
    }
    RoundTrip(b, rows);
  }

  ghost predicate SameIndexAndDepth(b: State, c: State) {
    b.orders == c.orders && Depth(b) == Depth(c)
  }

  /** A book that nobody has touched during a save is restored with the same index and the same depth. */
  lemma QuietBookIsExact(rows: seq<Order>, seen: map<nat, State>, last: nat, start: Moment, trace: seq<Event>,
                         from: nat, l: nat)
    requires Ok(start) && l in start.books && from <= |trace| && Quiet(l, trace, from)
    requires Restorable(rows, seen, last) && AllDrawn(rows, start, trace, from)
    requires l in seen && AllSeen(seen, start, trace, from)
    ensures SameIndexAndDepth(RestoreAll(RowsFor(rows, l)), Run(start, trace[..from]).Book(l))
  {
    var b := seen[l];
    assert Seen(b, l, start, trace, from);
    QuietIsSeenOnce(b, l, start, trace, from);
    SeenIsWellFormed(b, l, start, trace, from);
    QuietRows(rows, b, start, trace, from, l);
    ExactRoundTrip(RowsFor(rows, l), b);
  }

  // -------------------------------------------------------------------------------------------------
  // The steps of a save

  /** What has been collected of the books in use, from a moment of the run on. */
  ghost predicate Gathered(rows: seq<Order>, inUse: map<nat, State>, start: Moment, trace: seq<Event>, from: nat) {
    && Restorable(rows, inUse, Run(start, trace).last) && AllCollected(rows, Run(start, trace))
    && AllSeen(inUse, start, trace, from)
  }

  lemma GatheredStays(rows: seq<Order>, inUse: map<nat, State>, start: Moment, trace: seq<Event>, from: nat,
                      later: seq<Event>)
    requires Ok(start) && Gathered(rows, inUse, start, trace, from) && trace <= later
    ensures Gathered(rows, inUse, start, later, from)
  {
    LaterId(start, trace, later);
    CountedLater(rows, Run(start, trace).last, Run(start, later).last);
    AllCollectedStays(rows, start, trace, later);
    AllSeenStays(inUse, start, trace, from, later);
  }

  /** All books but those left have been collected. */
  ghost predicate Collecting(rows: seq<Order>, inUse: map<nat, State>, left: set<nat>, start: Moment,
                             trace: seq<Event>, from: nat) {
    Gathered(rows, inUse, start, trace, from) && left <= start.books.Keys && inUse.Keys == start.books.Keys - left
  }

  lemma NextBook(left: set<nat>, inUse: map<nat, State>, keys: set<nat>, l: nat, b: State)
    requires left <= keys && inUse.Keys == keys - left && l in left
    ensures left - {l} <= keys && inUse[l := b].Keys == keys - (left - {l})
  {
  }

  lemma NothingGathered(start: Moment, trace: seq<Event>, from: nat)
    ensures Gathered([], map[], start, trace, from)
  {
  }

  lemma GatherRows(rows: seq<Order>, inUse: map<nat, State>, more: seq<Order>, l: nat, m: Moment)
    requires Ok(m) && l in m.books && l !in inUse && Restorable(rows, inUse, m.last) && AllCollected(rows, m)
    requires RowsOf(more, m.Book(l)) && ExactRows(more, m.Book(l))
    ensures Restorable(rows + more, inUse[l := m.Book(l)], m.last) && AllCollected(rows + more, m)
  {
    ExactIsCollected(more, l, m);
    RestorableWith(rows, inUse, m.last, more, l, m.Book(l));
  }

  lemma SeeOne(inUse: map<nat, State>, l: nat, start: Moment, trace: seq<Event>, from: nat)
    requires from <= |trace| && AllSeen(inUse, start, trace, from)
    ensures AllSeen(inUse[l := Run(start, trace).Book(l)], start, trace, from)
  {
    PresentIsSeen(l, start, trace, from);
  }

  lemma GatherOne(rows: seq<Order>, inUse: map<nat, State>, more: seq<Order>, l: nat, start: Moment,
                  trace: seq<Event>, from: nat)
    requires Ok(start) && l in start.books && l !in inUse && from <= |trace|
    requires Gathered(rows, inUse, start, trace, from)
    requires RowsOf(more, Run(start, trace).Book(l)) && ExactRows(more, Run(start, trace).Book(l))
    ensures Gathered(rows + more, inUse[l := Run(start, trace).Book(l)], start, trace, from)
  {
    RunKeeps(start, trace);
    GatherRows(rows, inUse, more, l, Run(start, trace));
    SeeOne(inUse, l, start, trace, from);
  }

  /** The first rows have been written, the others only collected. */
  ghost predicate Copied(rows: seq<Order>, rest: seq<Order>, inUse: map<nat, State>, start: Moment,
                         trace: seq<Event>, from: nat) {
    && Restorable(rows + rest, inUse, Run(start, trace).last) && AllCollected(rest, Run(start, trace))
    && AllDrawn(rows, start, trace, from)
  }

  lemma CopiedStays(rows: seq<Order>, rest: seq<Order>, inUse: map<nat, State>, start: Moment, trace: seq<Event>,
                    from: nat, later: seq<Event>)
    requires Ok(start) && Copied(rows, rest, inUse, start, trace, from) && trace <= later
    ensures Copied(rows, rest, inUse, start, later, from)
  {
    LaterId(start, trace, later);
    CountedLater(rows + rest, Run(start, trace).last, Run(start, later).last);
    AllCollectedStays(rest, start, trace, later);
    AllDrawnStays(rows, start, trace, from, later);
  }

  lemma MoveOne(rows: seq<Order>, rest: seq<Order>, o: Order)
    requires rest != []
    ensures (rows + rest)[|rows|] == rest[0] && (rows + rest)[|rows| := o] == (rows + [o]) + rest[1..]
  {
  }

  lemma CopyRow(rows: seq<Order>, rest: seq<Order>, shares: int, inUse: map<nat, State>, last: nat)
    requires rest != [] && Restorable(rows + rest, inUse, last)
    ensures Restorable((rows + [rest[0].(shares := shares)]) + rest[1..], inUse, last)
  {
    MoveOne(rows, rest, rest[0].(shares := shares));
    SharesDoNotMatter(rows + rest, inUse, last, |rows|, shares);
  }

  lemma CopyOne(rows: seq<Order>, rest: seq<Order>, shares: int, inUse: map<nat, State>, start: Moment,
                trace: seq<Event>, from: nat)
    requires Ok(start) && rest != [] && from <= |trace| && Copied(rows, rest, inUse, start, trace, from)
    requires var orders := Run(start, trace).Book(rest[0].locate).orders;
             rest[0].id in orders ==> shares == orders[rest[0].id].shares
    ensures Copied(rows + [rest[0].(shares := shares)], rest[1..], inUse, start, trace, from)
  {
    CopyRow(rows, rest, shares, inUse, Run(start, trace).last);
    CollectedApart(rest, Run(start, trace));
    ReadShares(rest[0], shares, start, trace, from);
    DrawnMore(rows, rest[0].(shares := shares), start, trace, from);
  }

  lemma CollectedApart(rest: seq<Order>, m: Moment)
    requires AllCollected(rest, m) && rest != []
    ensures Collected(rest[0], m) && AllCollected(rest[1..], m)
  {
  }

  lemma DrawnMore(rows: seq<Order>, o: Order, start: Moment, trace: seq<Event>, from: nat)
    requires AllDrawn(rows, start, trace, from) && Drawn(o, start, trace, from)
    ensures AllDrawn(rows + [o], start, trace, from)
  {
  }

  /** What a save leaves in the database. */
  ghost predicate SavedSince(image: Image, seen: map<nat, State>, start: Moment, trace: seq<Event>, from: nat) {
    && Restorable(image.rows, seen, image.orderCounter) && AllWellFormed(seen)
    && AllDrawn(image.rows, start, trace, from) && AllSeen(seen, start, trace, from)
  }

  lemma SavedRows(rows: seq<Order>, seen: map<nat, State>, start: Moment, from: nat, gathered: seq<Event>,
                  copied: seq<Event>, counted: seq<Event>, end: seq<Event>, matchCounter: nat)
    requires Ok(start) && from <= |gathered| && gathered <= copied <= counted <= end
    requires AllSeen(seen, start, gathered, from) && seen.Keys == start.books.Keys
    requires Copied(rows, [], seen, start, copied, from)
    ensures SavedSince(Image(rows, Run(start, counted).last, matchCounter), seen, start, end, from)
  {
    LaterId(start, copied, counted);
    assert rows + [] == rows;
    CountedLater(rows, Run(start, copied).last, Run(start, counted).last);
    AllDrawnStays(rows, start, copied, from, end);
    AllSeenStays(seen, start, gathered, from, end);
    forall l | l in seen
      ensures WellFormed(seen[l])
    {
      assert Seen(seen[l], l, start, gathered, from);
      SeenIsWellFormed(seen[l], l, start, gathered, from);
    }
  }

  // -------------------------------------------------------------------------------------------------
  // The exchange

  class Exchange {
    var books: map<nat, State>
    const ids: Counter
    const matches: Counter
    /** Whether no statement of the database fails. */
    const reliable: bool
    var saved: Option<Image>
    /** The books at the start of the process, or as they were loaded, and all that has happened since. */
    ghost var start: Moment
    ghost var trace: seq<Event>
    /** The books as they were when the committed snapshot collected them. */
    ghost var seen: map<nat, State>

    ghost function Now(): Moment
      reads this, ids
    {
      Moment(books, ids.last)
    }

    ghost predicate Valid()
      reads this, ids
    {
      Ok(start) && Now() == Run(start, trace) && ids != matches
    }

    ghost predicate SavedOk()
      reads this
    {
      saved.Some? ==> Restorable(saved.value.rows, seen, saved.value.orderCounter) && AllWellFormed(seen)
    }

    /** A new process: empty books, counters at zero, the database as it is. */
    constructor (locates: set<nat>, reliable: bool, saved: Option<Image>, ghost seen: map<nat, State>)
      requires saved.Some? ==> Restorable(saved.value.rows, seen, saved.value.orderCounter) && AllWellFormed(seen)
      ensures books == (map l | l in locates :: EMPTY) && this.saved == saved && this.seen == seen
      ensures this.reliable == reliable
      ensures fresh(ids) && fresh(matches) && ids.last == 0 && Valid() && SavedOk()
    {
      books := map l | l in locates :: EMPTY;
      start, trace := Moment(map l | l in locates :: EMPTY, 0), [];
      ids := new Counter();
      matches := new Counter();
      this.reliable, this.saved, this.seen := reliable, saved, seen;
      EmptyIsWellFormed();
    }

    /** Any operation on any book. An order that is added or takes another's place draws its id. */
    method Operate(e: Event)
      requires Valid() && e.locate in books
      modifies `books, `trace, ids
      ensures Valid() && trace == old(trace) + [e] && Now() == Next(old(Now()), e)
    {
      RunMore(start, trace, e);
      NextId(Now(), e);
      var last := ids.Get();
      var next := Next(Moment(books, last), e);
      if DrawsId(books[e.locate], e.op) {
        var newId := ids.Next();
      }
      books := next.books;
      trace := trace + [e];
      assert ids.last == next.last;
    }

    /** What the simulators do between two steps of a save: any number of operations on the books. */
    method Others()
      requires Valid()
      modifies `books, `trace, ids, matches
      ensures Valid() && old(trace) <= trace && matches.last >= old(matches.last)
    {
      var n: nat :| n >= 0;
      for i := 0 to n
        invariant Valid() && old(trace) <= trace && matches.last >= old(matches.last)
      {
        if l :| l in books {
          var op: Operation := *;
          Operate(Event(l, op));
        }
        if * {
          var m := matches.Next();
        }
      }
    }

    /** All orders of a book, in whatever order its index gives them out. */
    method AllOrders(l: nat) returns (rows: seq<Order>)
      requires Valid() && l in books
      ensures RowsOf(rows, books[l]) && ExactRows(rows, books[l])
    {
      var b := books[l];
      assert b == Now().Book(l);
      IndexedById(start, trace, l);
      rows := [];
      var left := b.orders.Keys;
      while left != {}
        invariant left <= b.orders.Keys
        invariant PartOf(rows, b) && CoversAllBut(rows, b, left) && ExactRows(rows, b)
        decreases |left|
      {
        Sequences.EmptyOrNot(left);
        var id :| id in left;
        OneMoreRow(rows, b, id);
        OneMoreCovered(rows, b, left, b.orders[id]);
        rows := rows + [b.orders[id]];
        left := left - {id};
      }
    }

    /** Collects the orders of one more book, some time later. */
    method CollectBook(collected: seq<Order>, ghost inUse: map<nat, State>, left: set<nat>, l: nat, ghost from: nat)
      returns (rows: seq<Order>)
      requires Valid() && from <= |trace| && l in left && Collecting(collected, inUse, left, start, trace, from)
      modifies `books, `trace, ids, matches
      ensures Valid() && old(trace) <= trace && matches.last >= old(matches.last) && l in books
      ensures Collecting(collected + rows, inUse[l := books[l]], left - {l}, start, trace, from)
    {
      ghost var before := trace;
      Others();
      GatheredStays(collected, inUse, start, before, from, trace);
      RunKeeps(start, trace);
      assert books[l] == Now().Book(l);
      rows := AllOrders(l);
      GatherOne(collected, inUse, rows, l, start, trace, from);
      NextBook(left, inUse, start.books.Keys, l, books[l]);
    }

    /** Collects the orders of one book after the other, while the simulators go on. */
    method Collect() returns (collected: seq<Order>, ghost inUse: map<nat, State>)
      requires Valid()
      modifies `books, `trace, ids, matches
      ensures Valid() && old(trace) <= trace && matches.last >= old(matches.last)
      ensures Gathered(collected, inUse, start, trace, |old(trace)|) && inUse.Keys == start.books.Keys
    {
      ghost var from := |trace|;
      collected, inUse := [], map[];
      NothingGathered(start, trace, from);
      RunKeeps(start, trace);
      var left := books.Keys;
      while left != {}
        invariant Valid() && old(trace) <= trace && matches.last >= old(matches.last)
        invariant Collecting(collected, inUse, left, start, trace, from)
        decreases |left|
      {
        Sequences.EmptyOrNot(left);
        var l :| l in left;
        var rows := CollectBook(collected, inUse, left, l, from);
        collected, inUse, left := collected + rows, inUse[l := books[l]], left - {l};
      }
    }

    /** The rows as they are written, which is later than they were collected: the shares are those of the
        order then, and anything if the order has left its book. */
    method CopyRows(collected: seq<Order>, ghost inUse: map<nat, State>, ghost from: nat) returns (rows: seq<Order>)
      requires Valid() && from <= |trace| && Copied([], collected, inUse, start, trace, from)
      modifies `books, `trace, ids, matches
      ensures Valid() && old(trace) <= trace && matches.last >= old(matches.last)
      ensures Copied(rows, [], inUse, start, trace, from)
    {
      rows := [];
      var rest := collected;
      while rest != []
        invariant Valid() && old(trace) <= trace && matches.last >= old(matches.last)
        invariant Copied(rows, rest, inUse, start, trace, from)
        decreases |rest|
      {
        ghost var before := trace;
        Others();
        CopiedStays(rows, rest, inUse, start, before, from, trace);
        var o := rest[0];
        var shares: int := *;
        if o.locate in books && o.id in books[o.locate].orders {
          shares := books[o.locate].orders[o.id].shares;
        }
        CopyOne(rows, rest, shares, inUse, start, trace, from);
        rows, rest := rows + [o.(shares := shares)], rest[1..];
      }
    }

    /** Saves all books, then the counters, in one transaction that may fail. */
    method Save() returns (committed: bool)
      requires Valid() && SavedOk()
      modifies `books, `trace, `saved, `seen, ids, matches
      ensures Valid() && SavedOk() && old(trace) <= trace
      ensures !committed ==> saved == old(saved) && seen == old(seen) && !reliable
      ensures committed ==> saved.Some? && seen.Keys == start.books.Keys
      ensures committed ==> SavedSince(saved.value, seen, start, trace, |old(trace)|)
      ensures committed ==> old(ids.last) <= saved.value.orderCounter <= ids.last
      ensures committed ==> old(matches.last) <= saved.value.matchCounter <= matches.last
    {
      ghost var from, inUse := |trace|, map[];
      var collected: seq<Order>;
      collected, inUse := Collect();
      ghost var gathered := trace;
      NothingCopied(collected, inUse, start, trace, from);
      var rows := CopyRows(collected, inUse, from);
      ghost var copied := trace;
      Others();
      ghost var counted := trace;
      var orderCounter := ids.Get();
      Others();
      var matchCounter := matches.Get();
      Others();
      SavedRows(rows, inUse, start, from, gathered, copied, counted, trace, matchCounter);
      LaterId(start, old(trace), counted);
      LaterId(start, counted, trace);
      var fails: bool := *;
      if fails && !reliable {
        return false;
      }
      saved := Some(Image(rows, orderCounter, matchCounter));
      seen := inUse;
      committed := true;
    }

    /** Loads the committed snapshot into a new process's empty books. */
    method Load() returns (loaded: bool)
      requires Valid() && SavedOk() && forall l :: l in books ==> books[l] == EMPTY
      modifies `books, `start, `trace, ids, matches
      ensures loaded == saved.Some? && Valid() && books.Keys == old(books.Keys)
      ensures loaded ==> ids.last == saved.value.orderCounter && matches.last == saved.value.matchCounter
      ensures loaded ==> Restored(books, saved.value.rows) && AsSeen(books, seen)
    {
      if saved.None? {
        return false;
      }
      var rows := saved.value.rows;
      for i := 0 to |rows|
        invariant books.Keys == old(books.Keys) && Restored(books, rows[..i])
      {
        RestoreRow(books, rows, i);
        if rows[i].locate in books {
          books := books[rows[i].locate := Add(books[rows[i].locate], rows[i])];
        }
      }
      assert rows[..|rows|] == rows;
      ids.Set(saved.value.orderCounter);
      matches.Set(saved.value.matchCounter);
      RestoredBooks(books, rows, seen, ids.last);
      start, trace := Now(), [];
      loaded := true;
    }

    /** An id that is issued while the exchange is valid, as it is after loading, is in no book. */
    method NextOrderId() returns (id: nat)
      requires Valid()
      modifies ids, `start, `trace
      ensures Valid() && id == ids.last && forall l :: l in books ==> id !in books[l].orders
    {
      NoLaterId(start, trace);
      LaterIdIsOk(Run(start, trace), ids.last + 1);
      id := ids.Next();
      start, trace := Now(), [];
    }
  }

  /** A new process that loads what is in the database. */
  method Reload(e: Exchange) returns (n: Exchange)
    requires e.SavedOk() && e.saved.Some?
    ensures fresh(n) && n.Valid() && n.SavedOk() && n.books.Keys == e.books.Keys
    ensures n.ids.last == e.saved.value.orderCounter && n.matches.last == e.saved.value.matchCounter
    ensures Restored(n.books, e.saved.value.rows) && AsSeen(n.books, e.seen)
  {
    n := new Exchange(e.books.Keys, e.reliable, e.saved, e.seen);
    var loaded := n.Load();
  }

  /** A restart: a save that commits while the simulators go on, and a new process that loads it. Each book
      comes back, up to the order within its queues, as it was at some moment of the save; a book that nobody
      touched meanwhile comes back with the same orders and the same depth. */
  method Restart(e: Exchange) returns (committed: bool, n: Exchange?)
    requires e.Valid() && e.SavedOk()
    modifies e, e.ids, e.matches
    ensures (committed <==> n != null) && (e.reliable ==> committed)
    ensures e.start == old(e.start) && old(e.trace) <= e.trace
    ensures n != null ==> fresh(n) && n.Valid() && n.SavedOk()
    ensures n != null ==> old(e.ids.last) <= n.ids.last && old(e.matches.last) <= n.matches.last
    ensures n != null ==> n.books.Keys == e.start.books.Keys
    ensures n != null ==> RestartedAs(n.books, e.start, e.trace, |old(e.trace)|)
  {
    committed := e.Save();
    if !committed {
      return false, null;
    }
    n := Reload(e);
    RunKeeps(e.start, e.trace);
    RestartedBooks(n.books, e.saved.value, e.seen, e.start, e.trace, |old(e.trace)|);
  }

  ghost predicate RestartedAs(books: map<nat, State>, start: Moment, trace: seq<Event>, from: nat) {
    forall l :: l in books ==>
      && (exists b :: Seen(b, l, start, trace, from) && SameUpToQueues(books[l], b))
      && (Quiet(l, trace, from) ==> SameIndexAndDepth(books[l], Run(start, trace[..from]).Book(l)))
  }

  lemma RestartedBooks(books: map<nat, State>, image: Image, seen: map<nat, State>, start: Moment,
                       trace: seq<Event>, from: nat)
    requires Ok(start) && from <= |trace| && SavedSince(image, seen, start, trace, from)
    requires seen.Keys == start.books.Keys == books.Keys && Restored(books, image.rows) && AsSeen(books, seen)
    ensures RestartedAs(books, start, trace, from)
  {
    forall l | l in books
      ensures exists b :: Seen(b, l, start, trace, from) && SameUpToQueues(books[l], b)
      ensures Quiet(l, trace, from) ==> SameIndexAndDepth(books[l], Run(start, trace[..from]).Book(l))
    {
      assert Seen(seen[l], l, start, trace, from);
      if Quiet(l, trace, from) {
        QuietBookIsExact(image.rows, seen, image.orderCounter, start, trace, from, l);
      }
    }
  }

  lemma NothingCopied(rows: seq<Order>, inUse: map<nat, State>, start: Moment, trace: seq<Event>, from: nat)
    requires Gathered(rows, inUse, start, trace, from)
    ensures Copied([], rows, inUse, start, trace, from)
  {
    assert [] + rows == rows;
  }

  lemma {:induction false} RowsForUpdate(rows: seq<Order>, i: nat, shares: int, l: nat)
    requires i < |rows|
    ensures var r := RowsFor(rows[i := rows[i].(shares := shares)], l);
            && |r| == |RowsFor(rows, l)|
            && forall k :: 0 <= k < |r| ==> SameButShares(r[k], RowsFor(rows, l)[k])
    decreases |rows|
  {
    var n := |rows| - 1;
    var changed := rows[i := rows[i].(shares := shares)];
    if i < n {
      assert changed[..n] == rows[..n][i := rows[i].(shares := shares)];
      RowsForUpdate(rows[..n], i, shares, l);
    } else {
      assert changed[..n] == rows[..n];
    }
  }

  lemma SharesDoNotMatter(rows: seq<Order>, seen: map<nat, State>, last: nat, i: nat, shares: int)
    requires Restorable(rows, seen, last) && i < |rows|
    ensures Restorable(rows[i := rows[i].(shares := shares)], seen, last)
  {
    var changed := rows[i := rows[i].(shares := shares)];
    forall l | l in seen
      ensures RowsOf(RowsFor(changed, l), seen[l])
    {
      RowsForUpdate(rows, i, shares, l);
      SameRows(RowsFor(rows, l), RowsFor(changed, l), seen[l]);
    }
    forall l | l !in seen
      ensures RowsFor(changed, l) == []
    {
      RowsForUpdate(rows, i, shares, l);
    }
  }

  lemma SameRows(rows: seq<Order>, changed: seq<Order>, b: State)
    requires RowsOf(rows, b) && |rows| == |changed|
    requires forall k :: 0 <= k < |rows| ==> SameButShares(changed[k], rows[k])
    ensures RowsOf(changed, b)
  {
    forall i, j | 0 <= i < j < |changed|
      ensures changed[i].id != changed[j].id
    {
      assert rows[i].id != rows[j].id;
    }
    forall id | id in b.orders
      ensures exists i :: 0 <= i < |changed| && changed[i].id == id
    {
      var i :| 0 <= i < |rows| && rows[i].id == id;
      assert changed[i].id == id;
    }
  }
}
