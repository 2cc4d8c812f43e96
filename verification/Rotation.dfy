// Deleting the oldest archive files: rotate of internal/archive/archiver.go.
module Rotation {
  import opened Digits
  import opened Sequences
  import opened Trades

  datatype Entry = Entry(path: string, size: nat)

  // -------------------------------------------------------------------------------------------------
  // The order of paths

  predicate LexLess(a: string, b: string) {
    b != "" && (a == "" || a[0] < b[0] || (a[0] == b[0] && LexLess(a[1..], b[1..])))
  }

  function ByPath(): (Entry, Entry) -> bool {
    (e: Entry, f: Entry) => LexLess(e.path, f.path)
  }

  lemma {:induction false} LexAsymmetric(a: string, b: string)
    ensures LexLess(a, b) ==> !LexLess(b, a)
  {
    if a != "" && b != "" {
      LexAsymmetric(a[1..], b[1..]);
    }
  }

  lemma {:induction false} LexTransitive(a: string, b: string, c: string)
    ensures LexLess(a, b) && LexLess(b, c) ==> LexLess(a, c)
  {
    if a != "" && b != "" && c != "" {
      LexTransitive(a[1..], b[1..], c[1..]);
    }
  }

  lemma {:induction false} LexTotal(a: string, b: string)
    ensures a == b || LexLess(a, b) || LexLess(b, a)
  {
    if a != "" && b != "" {
      LexTotal(a[1..], b[1..]);
      assert a == [a[0]] + a[1..] && b == [b[0]] + b[1..];
    }
  }

  lemma PathOrder()
    ensures StrictOrder(ByPath())
  {
    forall e: Entry, f: Entry
      ensures ByPath()(e, f) ==> !ByPath()(f, e)
    {
      LexAsymmetric(e.path, f.path);
    }
    forall e: Entry, f: Entry, g: Entry
      ensures ByPath()(e, f) && ByPath()(f, g) ==> ByPath()(e, g)
    {
      LexTransitive(e.path, f.path, g.path);
    }
  }

  /** Paths of equal beginnings compare by their ends. */
  lemma {:induction false} LexConcat(a: string, b: string, x: string, y: string)
    requires |a| == |b|
    ensures LexLess(a + x, b + y) <==> LexLess(a, b) || (a == b && LexLess(x, y))
  {
    if a == "" {
      assert a + x == x && b + y == y;
    } else {
      assert (a + x)[1..] == a[1..] + x && (b + y)[1..] == b[1..] + y;
      LexConcat(a[1..], b[1..], x, y);
      assert a == [a[0]] + a[1..] && b == [b[0]] + b[1..];
    }
  }

  function Digit(d: nat): char
    requires d < 10
  {
    ('0' as int + d) as char
  }

  /** The last digits of a number, padded with zeros. */
  function Padded(n: nat, width: nat): (s: string)
    ensures |s| == width
  {
    if width == 0 then "" else Padded(n / 10, width - 1) + [Digit(n % 10)]
  }

  function Power(width: nat): nat {
    if width == 0 then 1 else 10 * Power(width - 1)
  }

  lemma OneDigit(a: nat, b: nat)
    requires a < 10 && b < 10
    ensures LexLess([Digit(a)], [Digit(b)]) <==> a < b
    ensures [Digit(a)] == [Digit(b)] <==> a == b
  {
    if a != b {
      assert [Digit(a)][0] != [Digit(b)][0];
    }
  }

  lemma SplitDigit(a: nat, b: nat)
    ensures a < b <==> a / 10 < b / 10 || (a / 10 == b / 10 && a % 10 < b % 10)
    ensures a == b <==> a / 10 == b / 10 && a % 10 == b % 10
  {
  }

  lemma SameEnds(a: string, b: string, x: string, y: string)
    requires |a| == |b|
    ensures a + x == b + y <==> a == b && x == y
  {
    assert (a + x)[..|a|] == a && (b + y)[..|a|] == b;
    assert (a + x)[|a|..] == x && (b + y)[|a|..] == y;
  }

  /** With zeros in front, the order of the digits is the order of the numbers. */
  lemma {:induction false} PaddedOrder(a: nat, b: nat, width: nat)
    requires a < Power(width) && b < Power(width)
    ensures LexLess(Padded(a, width), Padded(b, width)) <==> a < b
    ensures Padded(a, width) == Padded(b, width) <==> a == b
  {
    if width > 0 {
      PaddedOrder(a / 10, b / 10, width - 1);
      OneDigit(a % 10, b % 10);
      SplitDigit(a, b);
      LexConcat(Padded(a / 10, width - 1), Padded(b / 10, width - 1), [Digit(a % 10)], [Digit(b % 10)]);
      SameEnds(Padded(a / 10, width - 1), Padded(b / 10, width - 1), [Digit(a % 10)], [Digit(b % 10)]);
    }
  }

  datatype Date = Date(year: nat, month: nat, day: nat)

  predicate ValidDate(d: Date) {
    d.year < 10_000 && 1 <= d.month <= 12 && 1 <= d.day <= 31
  }

  predicate EarlierDate(d: Date, e: Date) {
    d.year < e.year || (d.year == e.year && (d.month < e.month || (d.month == e.month && d.day < e.day)))
  }

  /** The path of a day-file. */
  function DayPath(root: string, d: Date): string {
    (root + "/") + (Padded(d.year, 4) + ("/" + (Padded(d.month, 2) + ("/" + (Padded(d.day, 2) + ".jsonl.gz")))))
  }

  lemma NoLexLess(a: string)
    ensures !LexLess(a, a)
  {
    LexAsymmetric(a, a);
  }

  /** Sorting day-files by path sorts them by date. */
  lemma PathsAreChronological(root: string, d: Date, e: Date)
    requires ValidDate(d) && ValidDate(e)
    ensures LexLess(DayPath(root, d), DayPath(root, e)) <==> EarlierDate(d, e)
  {
    assert Power(4) == 10_000 && Power(2) == 100 by {
      assert Power(1) == 10;
      assert Power(2) == 100;
      assert Power(3) == 1000;
    }
    var d3, e3 := Padded(d.day, 2) + ".jsonl.gz", Padded(e.day, 2) + ".jsonl.gz";
    var d2, e2 := Padded(d.month, 2) + ("/" + d3), Padded(e.month, 2) + ("/" + e3);
    var d1, e1 := Padded(d.year, 4) + ("/" + d2), Padded(e.year, 4) + ("/" + e2);
    LexConcat(root + "/", root + "/", d1, e1);
    NoLexLess(root + "/");
    NoLexLess("/");
    LexConcat(Padded(d.year, 4), Padded(e.year, 4), "/" + d2, "/" + e2);
    LexConcat("/", "/", d2, e2);
    LexConcat(Padded(d.month, 2), Padded(e.month, 2), "/" + d3, "/" + e3);
    LexConcat("/", "/", d3, e3);
    LexConcat(Padded(d.day, 2), Padded(e.day, 2), ".jsonl.gz", ".jsonl.gz");
    NoLexLess(".jsonl.gz");
    PaddedOrder(d.year, e.year, 4);
    PaddedOrder(d.month, e.month, 2);
    PaddedOrder(d.day, e.day, 2);
  }

  // -------------------------------------------------------------------------------------------------
  // Reading a path back, as internal/archive/catalog.go does

  /** The date of a text of the form YYYY/MM/DD. */
  function ParseDate(s: string): Option<Date> {
    if |s| == 10 && s[4] == '/' && s[7] == '/' && AllDigits(s[..4] + s[5..7] + s[8..]) then
      var d := Date(Decimal(s[..4]), Decimal(s[5..7]), Decimal(s[8..]));
      if ValidDate(d) then Some(d) else None
    else None
  }

  /** The date of a day-file; nothing for other files. */
  function ParsePath(root: string, path: string): Option<Date> {
    var n := |root| + 1;
    if |path| == n + 19 && path[..n] == root + "/" && path[n + 10..] == ".jsonl.gz" then ParseDate(path[n..n + 10])
    else None
  }

  lemma {:induction false} DecimalOfPadded(n: nat, width: nat)
    requires n < Power(width)
    ensures AllDigits(Padded(n, width)) && Decimal(Padded(n, width)) == n
  {
    if width > 0 {
      DecimalOfPadded(n / 10, width - 1);
      assert Padded(n, width)[..width - 1] == Padded(n / 10, width - 1);
    }
  }

  lemma DateParts(a: string, b: string, c: string)
    requires |a| == 4 && |b| == 2 && |c| == 2
    ensures var s := a + ("/" + (b + ("/" + c)));
            && |s| == 10 && s[4] == '/' && s[7] == '/' && s[..4] == a && s[5..7] == b && s[8..] == c
  {
  }

  lemma DateRoundTrip(d: Date)
    requires ValidDate(d)
    ensures ParseDate(Padded(d.year, 4) + ("/" + (Padded(d.month, 2) + ("/" + Padded(d.day, 2))))) == Some(d)
  {
    assert Power(4) == 10 * Power(3) == 100 * Power(2) == 1000 * Power(1) == 10_000 && Power(2) == 100;
    DecimalOfPadded(d.year, 4);
    DecimalOfPadded(d.month, 2);
    DecimalOfPadded(d.day, 2);
    DateParts(Padded(d.year, 4), Padded(d.month, 2), Padded(d.day, 2));
  }

  /** The file that the archiver writes for a day is the file that the catalog finds for it. */
  lemma PathRoundTrip(root: string, d: Date)
    requires ValidDate(d)
    ensures ParsePath(root, DayPath(root, d)) == Some(d)
  {
    var path, n := DayPath(root, d), |root| + 1;
    var y, m, day := Padded(d.year, 4), Padded(d.month, 2), Padded(d.day, 2);
    var date := y + ("/" + (m + ("/" + day)));
    DateRoundTrip(d);
    assert path == (root + "/") + (date + ".jsonl.gz");
    assert path[..n] == root + "/";
    assert path[n..] == date + ".jsonl.gz";
    assert path[n..n + 10] == date && path[n + 10..] == ".jsonl.gz";
  }

  /** A temporary file is no day-file, whatever day it is for. */
  lemma TemporaryIsIgnored(root: string, path: string)
    ensures ParsePath(root, path + ".tmp") == None
  {
    var tmp, n := path + ".tmp", |root| + 1;
    if |tmp| == n + 19 {
      assert tmp[|tmp| - 1] == 'p';
      assert tmp[n + 10..][8] == 'p' != ".jsonl.gz"[8];
    }
  }

  // -------------------------------------------------------------------------------------------------
  // Sizes

  function SizeOf(files: seq<Entry>): nat {
    if files == [] then 0 else files[0].size + SizeOf(files[1..])
  }

  lemma {:induction false} SizeConcat(a: seq<Entry>, b: seq<Entry>)
    ensures SizeOf(a + b) == SizeOf(a) + SizeOf(b)
  {
    if a == [] {
      assert a + b == b;
    } else {
      assert (a + b)[1..] == a[1..] + b;
      SizeConcat(a[1..], b);
    }
  }

  lemma SizeFrom(s: seq<Entry>, k: nat)
    requires k < |s|
    ensures SizeOf(s[k..]) == s[k].size + SizeOf(s[k + 1..])
  {
    assert s[k..][1..] == s[k + 1..];
  }

  lemma SizeAround(s: seq<Entry>, k: nat)
    requires k < |s|
    ensures SizeOf(s) == s[k].size + SizeOf(s[..k] + s[k + 1..])
  {
    assert s == s[..k] + s[k..];
    SizeConcat(s[..k], s[k..]);
    SizeFrom(s, k);
    SizeConcat(s[..k], s[k + 1..]);
  }

  lemma WithoutAt(s: seq<Entry>, k: nat)
    requires k < |s|
    ensures multiset(s[..k] + s[k + 1..]) == multiset(s) - multiset{s[k]}
  {
    assert s == s[..k] + [s[k]] + s[k + 1..];
  }

  /** The total size does not depend on the order of the list. */
  lemma {:induction false} SizeOfSame(a: seq<Entry>, b: seq<Entry>)
    requires multiset(a) == multiset(b)
    ensures SizeOf(a) == SizeOf(b)
  {
    if a == [] {
      assert |multiset(b)| == |b|;
    } else {
      assert a[0] in multiset(b);
      var k :| 0 <= k < |b| && b[k] == a[0];
      assert a == [a[0]] + a[1..];
      SizeAround(b, k);
      WithoutAt(b, k);
      SizeOfSame(a[1..], b[..k] + b[k + 1..]);
    }
  }

  // -------------------------------------------------------------------------------------------------
  // Rotation

  /** No two files have the same path. */
  ghost predicate OnePerPath(files: multiset<Entry>) {
    && (forall e :: e in files ==> files[e] == 1)
    && (forall e, f :: e in files && f in files && e.path == f.path ==> e == f)
  }

  lemma TwoPlaces(list: seq<Entry>, i: nat, j: nat)
    requires i < j < |list|
    ensures list[i] == list[j] ==> multiset(list)[list[i]] >= 2
    ensures list[i] in multiset(list) && list[j] in multiset(list)
  {
    assert list == list[..j] + [list[j]] + list[j + 1..];
    assert list[..j][i] == list[i];
    assert list[i] in multiset(list[..j]);
  }

  lemma DifferentPaths(list: seq<Entry>, i: nat, j: nat)
    requires OnePerPath(multiset(list)) && i < j < |list|
    ensures list[i].path != list[j].path
  {
    TwoPlaces(list, i, j);
  }

  /** The files from the k-th oldest on are the longest run of newest files that fits. */
  ghost predicate LongestFit(sorted: seq<Entry>, k: nat, maxBytes: nat) {
    k <= |sorted| && SizeOf(sorted[k..]) <= maxBytes && (k > 0 ==> SizeOf(sorted[k - 1..]) > maxBytes)
  }

  /** After passing some files, the stuck ones and those not passed are left, and total is their size. */
  ghost predicate Left(files: multiset<Entry>, total: int, sorted: seq<Entry>, stuck: seq<Entry>, next: nat) {
    && next <= |sorted| && multiset(stuck) <= multiset(sorted[..next])
    && files == multiset(stuck + sorted[next..]) && total == SizeOf(stuck + sorted[next..])
  }

  /** No removal failed, and before the last one the files did not fit. */
  ghost predicate NoneStuck(sorted: seq<Entry>, stuck: seq<Entry>, next: nat, maxBytes: nat) {
    next <= |sorted| && stuck == [] && (next > 0 ==> SizeOf(sorted[next - 1..]) > maxBytes)
  }

  lemma NothingPassed(sorted: seq<Entry>)
    ensures Left(multiset(sorted), SizeOf(sorted), sorted, [], 0)
  {
    assert [] + sorted[0..] == sorted;
  }

  lemma FilePassed(stuck: seq<Entry>, sorted: seq<Entry>, i: nat)
    requires i < |sorted|
    ensures stuck + sorted[i..] == (stuck + [sorted[i]]) + sorted[i + 1..]
    ensures multiset(stuck + sorted[i + 1..]) == multiset(stuck + sorted[i..]) - multiset{sorted[i]}
    ensures multiset(sorted[..i + 1]) == multiset(sorted[..i]) + multiset{sorted[i]}
  {
    var e, rest := sorted[i], sorted[i + 1..];
    assert sorted[i..] == [e] + rest;
    assert sorted[..i + 1] == sorted[..i] + [e];
    assert multiset(stuck + ([e] + rest)) == multiset(stuck) + multiset{e} + multiset(rest);
  }

  lemma SizePassed(stuck: seq<Entry>, sorted: seq<Entry>, i: nat)
    requires i < |sorted|
    ensures SizeOf(stuck + sorted[i..]) == SizeOf(stuck + sorted[i + 1..]) + sorted[i].size
    ensures SizeOf(sorted[i..]) == SizeOf([] + sorted[i..])
  {
    SizeConcat(stuck, sorted[i..]);
    SizeConcat(stuck, sorted[i + 1..]);
    SizeFrom(sorted, i);
    assert [] + sorted[i..] == sorted[i..];
  }

  /** One file is passed: either it is gone, or it joins the stuck ones. */
  lemma PassOne(files: multiset<Entry>, total: int, sorted: seq<Entry>, stuck: seq<Entry>, i: nat, maxBytes: nat)
    requires Left(files, total, sorted, stuck, i) && i < |sorted| && total > maxBytes
    ensures Left(files - multiset{sorted[i]}, total - sorted[i].size, sorted, stuck, i + 1)
    ensures total >= sorted[i].size
    ensures Left(files, total, sorted, stuck + [sorted[i]], i + 1)
    ensures NoneStuck(sorted, stuck, i, maxBytes) ==> NoneStuck(sorted, stuck, i + 1, maxBytes)
  {
    FilePassed(stuck, sorted, i);
    SizePassed(stuck, sorted, i);
  }

  lemma StoppedAtFit(files: multiset<Entry>, total: int, sorted: seq<Entry>, stuck: seq<Entry>, i: nat, maxBytes: nat)
    requires Left(files, total, sorted, stuck, i) && (total <= maxBytes || i == |sorted|)
    ensures files <= multiset(sorted)
    ensures NoneStuck(sorted, stuck, i, maxBytes) ==>
              LongestFit(sorted, i, maxBytes) && stuck + sorted[i..] == sorted[i..]
  {
    assert sorted == sorted[..i] + sorted[i..];
    assert i == |sorted| ==> sorted[i..] == [];
    assert stuck == [] ==> stuck + sorted[i..] == sorted[i..];
  }

  class Directory {
    var files: multiset<Entry>

    /** Lists all files, in whatever order the tree is walked, and adds up their sizes. */
    method Walk() returns (list: seq<Entry>, total: nat)
      ensures multiset(list) == files && total == SizeOf(list)
    {
      list, total := [], 0;
      var left := files;
      while |left| > 0
        invariant multiset(list) + left == files && total == SizeOf(list)
        decreases |left|
      {
        var e :| e in left;
        SizeConcat(list, [e]);
        list, total := list + [e], total + e.size;
        left := left - multiset{e};
      }
    }

    method SortByPath(list: seq<Entry>) returns (sorted: seq<Entry>)
      requires OnePerPath(multiset(list))
      ensures Sorted(ByPath(), sorted) && multiset(sorted) == multiset(list)
    {
      sorted := [];
      PathOrder();
      for i := 0 to |list|
        invariant Sorted(ByPath(), sorted) && multiset(sorted) == multiset(list[..i])
      {
        forall e | e in sorted
          ensures ByPath()(e, list[i]) || ByPath()(list[i], e)
        {
          assert e in multiset(list[..i]);
          var j :| 0 <= j < i && list[j] == e;
          DifferentPaths(list, j, i);
          LexTotal(e.path, list[i].path);
        }
        sorted := InsertSorted(ByPath(), sorted, list[i]);
        assert list[..i + 1] == list[..i] + [list[i]];
      }
      assert list[..|list|] == list;
    }

    /** Tries to remove the next file. */
    method PassFile(sorted: seq<Entry>, total: nat, ghost stuck: seq<Entry>, next: nat, ghost maxBytes: nat)
        returns (bytes: nat, removed: bool)
      requires Left(files, total, sorted, stuck, next) && next < |sorted| && total > maxBytes
      modifies this
      ensures Left(files, bytes, sorted, if removed then stuck else stuck + [sorted[next]], next + 1)
      ensures NoneStuck(sorted, stuck, next, maxBytes) ==> NoneStuck(sorted, stuck, next + 1, maxBytes)
    {
      PassOne(files, total, sorted, stuck, next, maxBytes);
      removed, bytes := *, total;
      if removed {
        files := files - multiset{sorted[next]};
        bytes := total - sorted[next].size;
      }
    }

    /** Goes through the files from the oldest on until the rest fits. A file that cannot be removed stays and is
        passed over. */
    method RemoveOldest(sorted: seq<Entry>, size: nat, maxBytes: nat)
        returns (total: nat, allRemoved: bool, ghost stuck: seq<Entry>, next: nat)
      requires files == multiset(sorted) && size == SizeOf(sorted)
      modifies this
      ensures Left(files, total, sorted, stuck, next) && (total <= maxBytes || next == |sorted|)
      ensures allRemoved ==> NoneStuck(sorted, stuck, next, maxBytes)
    {
      total, allRemoved, stuck, next := size, true, [], 0;
      NothingPassed(sorted);
      while next < |sorted| && total > maxBytes
        invariant next <= |sorted| && Left(files, total, sorted, stuck, next)
        invariant allRemoved ==> NoneStuck(sorted, stuck, next, maxBytes)
      {
        var bytes, removed := PassFile(sorted, total, stuck, next, maxBytes);
        if !removed {
          allRemoved := false;
          stuck := stuck + [sorted[next]];
        }
        total, next := bytes, next + 1;
      }
    }

    /** Removes the oldest files until the rest fits. The total it keeps is the size of the files that are left,
        even where a removal fails; when none fails, what is left is the longest run of newest files that fits. */
    method Rotate(maxBytes: nat)
        returns (total: nat, allRemoved: bool, ghost sorted: seq<Entry>, ghost left: seq<Entry>)
      requires OnePerPath(files)
      modifies this
      ensures Sorted(ByPath(), sorted) && multiset(sorted) == old(files)
      ensures files == multiset(left) && total == SizeOf(left) && files <= old(files)
      ensures allRemoved ==> exists k: nat :: LongestFit(sorted, k, maxBytes) && left == sorted[k..]
    {
      var list: seq<Entry>;
      list, total := Walk();
      var oldestFirst := SortByPath(list);
      SizeOfSame(list, oldestFirst);
      sorted := oldestFirst;
      ghost var stuck;
      var next: nat;
      total, allRemoved, stuck, next := RemoveOldest(oldestFirst, total, maxBytes);
      StoppedAtFit(files, total, sorted, stuck, next, maxBytes);
      left := stuck + sorted[next..];
    }
  }
}
