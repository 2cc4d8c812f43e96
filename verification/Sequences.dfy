// Prefixes, reversals and sorted sequences.
module Sequences {

  function Min(a: int, b: int): int {
    if a < b then a else b
  }

  function Max(a: int, b: int): int {
    if a < b then b else a
  }

  /** The first n elements, or all of them when there are fewer. */
  function Take<T>(s: seq<T>, n: nat): seq<T> {
    if n <= |s| then s[..n] else s
  }

  function Drop<T>(s: seq<T>, n: nat): seq<T> {
    if n <= |s| then s[n..] else []
  }

  lemma ConcatAssociates<T>(a: seq<T>, b: seq<T>, c: seq<T>)
    ensures (a + b) + c == a + (b + c)
  {
  }

  lemma TakeConcat<T>(a: seq<T>, b: seq<T>, n: nat)
    ensures Take(a + b, n) == Take(a, n) + Take(b, n - |Take(a, n)|)
  {
  }

  /** Cutting early does not change a later, shorter cut. */
  lemma TakeTake<T>(s: seq<T>, n: nat, m: nat)
    requires m <= n
    ensures Take(Take(s, n), m) == Take(s, m)
  {
  }

  function Reverse<T>(s: seq<T>): (r: seq<T>)
    ensures |r| == |s|
    ensures forall i :: 0 <= i < |s| ==> r[i] == s[|s| - 1 - i]
  {
    if s == [] then [] else Reverse(s[1..]) + [s[0]]
  }

  lemma ReverseConcat<T>(a: seq<T>, b: seq<T>)
    ensures Reverse(a + b) == Reverse(b) + Reverse(a)
  {
  }

  lemma {:induction false} ReverseKeepsElements<T>(s: seq<T>)
    ensures multiset(Reverse(s)) == multiset(s)
  {
    if s != [] {
      ReverseKeepsElements(s[1..]);
      assert s == [s[0]] + s[1..];
    }
  }

  lemma EmptyOrNot(s: set<int>)
    ensures s == {} || exists x :: x in s
  {
    if forall x :: x !in s {
      assert s == {};
    }
  }

  // -------------------------------------------------------------------------------------------------
  // Strictly sorted sequences

  ghost predicate Sorted<T(!new)>(less: (T, T) -> bool, s: seq<T>) {
    forall i, j :: 0 <= i < j < |s| ==> less(s[i], s[j])
  }

  /** A strict total order. */
  ghost predicate StrictOrder<T(!new)>(less: (T, T) -> bool) {
    && (forall a, b :: less(a, b) ==> !less(b, a))
    && (forall a, b, c :: less(a, b) && less(b, c) ==> less(a, c))
  }

  lemma InRest<T(!new)>(less: (T, T) -> bool, s: seq<T>, e: T)
    requires StrictOrder(less) && Sorted(less, s) && s != []
    ensures e in s[1..] <==> e in s && e != s[0]
  {
    assert s == [s[0]] + s[1..];
    if e in s[1..] {
      var i :| 1 <= i < |s| && s[i] == e;
      assert less(s[0], s[i]);
    }
  }

  /** A sorted sequence is determined by its elements. */
  lemma {:induction false} SortedIsUnique<T(!new)>(less: (T, T) -> bool, x: seq<T>, y: seq<T>)
    requires StrictOrder(less) && Sorted(less, x) && Sorted(less, y)
    requires forall e :: e in x <==> e in y
    ensures x == y
  {
    if x != [] {
      assert x[0] in y;
    }
    if y != [] {
      assert y[0] in x;
      assert x[0] == y[0];
      forall e
        ensures e in x[1..] <==> e in y[1..]
      {
        InRest(less, x, e);
        InRest(less, y, e);
      }
      SortedIsUnique(less, x[1..], y[1..]);
    }
  }

  lemma InsertKeepsSorted<T(!new)>(less: (T, T) -> bool, s: seq<T>, i: nat, x: T)
    requires StrictOrder(less) && Sorted(less, s) && i <= |s|
    requires forall j :: 0 <= j < i ==> less(s[j], x)
    requires i < |s| ==> less(x, s[i])
    ensures Sorted(less, s[..i] + [x] + s[i..])
    ensures forall e :: e in s[..i] + [x] + s[i..] <==> e in s || e == x
  {
    assert s == s[..i] + s[i..];
    forall j | i <= j < |s|
      ensures less(x, s[j])
    {
      if i < j {
        assert less(s[i], s[j]);
      }
    }
    var r := s[..i] + [x] + s[i..];
    forall j, k | 0 <= j < k < |r|
      ensures less(r[j], r[k])
    {
    }
  }

  /** One step of an insertion sort. */
  method InsertSorted<T(!new)>(less: (T, T) -> bool, s: seq<T>, x: T) returns (r: seq<T>)
    requires StrictOrder(less) && Sorted(less, s)
    requires forall e :: e in s ==> less(e, x) || less(x, e)
    ensures Sorted(less, r) && multiset(r) == multiset(s) + multiset{x}
    ensures forall e :: e in r <==> e in s || e == x
  {
    var i := 0;
    while i < |s| && less(s[i], x)
      invariant 0 <= i <= |s|
      invariant forall j :: 0 <= j < i ==> less(s[j], x)
    {
      i := i + 1;
    }
    if i < |s| {
      assert s[i] in s;
    }
    r := s[..i] + [x] + s[i..];
    assert s == s[..i] + s[i..];
    InsertKeepsSorted(less, s, i, x);
  }
}
