// What the draws of the PCG generator of internal/engine/random.go promise: over one period, every 32-bit number is
// drawn equally often.
//
// A draw is a permutation of the state's bits, seen through 32 of them: the xorshift can be undone, and the rotation
// is by the five bits that it leaves as they are.
module Uniform {
  import opened Bytes
  import opened Pcg

  // -------------------------------------------------------------------------------------------------
  // Shifts

  function Shr(x: nat, k: nat): nat {
    if k == 0 then x else Shr(x / 2, k - 1)
  }

  lemma FactorApart(p: nat, d: int)
    ensures d > 0 ==> p * d >= p
    ensures d < 0 ==> p * d + p <= 0
  {
  }

  lemma Distribute(p: nat, q: int, d: int)
    ensures p * (q - d) == p * q - p * d
  {
  }

  function Quotient(x: nat, p: nat): nat
    requires p > 0
  {
    x / p
  }

  function Rest(x: nat, p: nat): nat
    requires p > 0
  {
    x % p
  }

  lemma QuotientAndRest(x: nat, p: nat)
    requires p > 0
    ensures x == p * Quotient(x, p) + Rest(x, p) && Rest(x, p) < p
  {
  }

  lemma DivisionIs(p: nat, q: nat, r: nat)
    requires r < p
    ensures Quotient(p * q + r, p) == q && Rest(p * q + r, p) == r
  {
    var d := Quotient(p * q + r, p);
    QuotientAndRest(p * q + r, p);
    Distribute(p, q, d);
    FactorApart(p, q - d);
  }

  lemma HalfOfQuotient(x: nat, p: nat)
    requires p > 0
    ensures (x / 2) / p == x / (2 * p)
  {
    var q, r := x / (2 * p), x % (2 * p);
    assert x == 2 * p * q + r;
    assert x / 2 == p * q + r / 2;
    DivisionIs(p, q, r / 2);
  }

  lemma {:induction false} ShrIsDivision(x: nat, k: nat)
    ensures Shr(x, k) == x / Pow2(k)
  {
    if k > 0 {
      ShrIsDivision(x / 2, k - 1);
      HalfOfQuotient(x, Pow2(k - 1));
    }
  }

  lemma {:induction false} ShrTwice(x: nat, j: nat, k: nat)
    ensures Shr(Shr(x, j), k) == Shr(x, j + k)
  {
    if j > 0 {
      ShrTwice(x / 2, j - 1, k);
    }
  }

  lemma {:induction false} ShrOfSmall(x: nat, k: nat)
    requires x < Pow2(k)
    ensures Shr(x, k) == 0
  {
    if k > 0 {
      ShrOfSmall(x / 2, k - 1);
    }
  }

  lemma ShrNext(x: nat, k: nat)
    ensures Shr(x, k) == 2 * Shr(x, k + 1) + Shr(x, k) % 2
  {
    ShrTwice(x, k, 1);
    assert Shr(Shr(x, k), 1) == Shr(Shr(x, k) / 2, 0) == Shr(x, k) / 2;
  }

  lemma {:induction false} ShrXor(n: nat, x: nat, y: nat, k: nat)
    requires k <= n
    ensures Shr(Xor(n, x, y), k) == Xor(n - k, Shr(x, k), Shr(y, k))
  {
    if k > 0 {
      ShrXor(n - 1, x / 2, y / 2, k - 1);
      assert Xor(n, x, y) / 2 == Xor(n - 1, x / 2, y / 2);
    }
  }

  lemma XorBit(n: nat, x: nat, y: nat)
    requires n > 0
    ensures Xor(n, x, y) % 2 == if x % 2 == y % 2 then 0 else 1
  {
  }

  lemma {:induction false} XorNothing(n: nat, y: nat)
    requires y < Pow2(n)
    ensures Xor(n, 0, y) == y
  {
    if n > 0 {
      XorNothing(n - 1, y / 2);
    }
  }

  lemma {:induction false} Pow2Plus(i: nat, j: nat)
    ensures Pow2(i + j) == Pow2(i) * Pow2(j)
  {
    if i > 0 {
      Pow2Plus(i - 1, j);
      Regroup(Pow2(i - 1), Pow2(j));
    }
  }

  lemma Regroup(p: int, q: int)
    ensures 2 * (p * q) == (2 * p) * q
  {
  }

  lemma PowersOfTwo()
    ensures Pow2(5) == 32 && Pow2(18) == 0x4_0000 && Pow2(27) == 0x800_0000 && Pow2(32) == HALF_WORD
    ensures Pow2(59) == 0x800_0000_0000_0000 && Pow2(64) == WORD
  {
    assert Pow2(5) == 2 * Pow2(4) == 4 * Pow2(3) == 8 * Pow2(2) == 16 * Pow2(1);
    Pow2Plus(5, 5);
    Pow2Plus(10, 5);
    assert Pow2(18) == 2 * Pow2(17) == 4 * Pow2(16) == 8 * Pow2(15);
    Pow2Plus(5, 18);
    assert Pow2(27) == 2 * Pow2(26) == 4 * Pow2(25) == 8 * Pow2(24) == 16 * Pow2(23);
    Pow2Plus(5, 27);
    Pow2Plus(27, 32);
    Pow2Plus(5, 59);
  }

  // -------------------------------------------------------------------------------------------------
  // The xorshift

  function Scrambled(s: nat): nat {
    Xor(64, s / 0x4_0000, s)
  }

  lemma ScrambledBit(s: nat, k: nat)
    requires k < 64
    ensures Shr(Scrambled(s), k) % 2 == if Shr(s, k + 18) % 2 == Shr(s, k) % 2 then 0 else 1
  {
    PowersOfTwo();
    ShrIsDivision(s, 18);
    ShrTwice(s, 18, k);
    ShrXor(64, Shr(s, 18), s, k);
    XorBit(64 - k, Shr(s, k + 18), Shr(s, k));
  }

  /** From the top down, the scrambled bits determine the bits. */
  lemma {:induction false} SameFrom(s: nat, t: nat, k: nat)
    requires s < WORD && t < WORD && Scrambled(s) == Scrambled(t) && k <= 64
    ensures Shr(s, k) == Shr(t, k)
    decreases 64 - k
  {
    if k == 64 {
      PowersOfTwo();
      ShrOfSmall(s, 64);
      ShrOfSmall(t, 64);
    } else {
      SameFrom(s, t, k + 1);
      ShrTwice(s, k + 1, 17);
      ShrTwice(t, k + 1, 17);
      ScrambledBit(s, k);
      ScrambledBit(t, k);
      ShrNext(s, k);
      ShrNext(t, k);
    }
  }

  lemma ScrambledIsInjective(s: nat, t: nat)
    requires s < WORD && t < WORD && Scrambled(s) == Scrambled(t)
    ensures s == t
  {
    SameFrom(s, t, 0);
  }

  /** The top five bits stay as they are. */
  lemma ScrambledTop(s: nat)
    requires s < WORD
    ensures Scrambled(s) / 0x800_0000_0000_0000 == s / 0x800_0000_0000_0000
    ensures s / 0x800_0000_0000_0000 < 32
  {
    PowersOfTwo();
    ShrIsDivision(s, 18);
    ShrIsDivision(s, 59);
    ShrIsDivision(Scrambled(s), 59);
    ShrXor(64, Shr(s, 18), s, 59);
    ShrTwice(s, 18, 59);
    ShrTwice(s, 64, 13);
    ShrOfSmall(s, 64);
    ShrOfSmall(0, 13);
    XorNothing(5, Shr(s, 59));
  }

  // -------------------------------------------------------------------------------------------------
  // The rotation

  function Rotated(m: nat, r: nat): nat
    requires r < 32
  {
    Joined(32, Quotient(m, Pow2(r)), m, (32 - r) % 32)
  }

  function Joined(n: nat, a: nat, m: nat, k: nat): nat {
    Or(n, a, m * Pow2(k)) % HALF_WORD
  }

  lemma Doubled(x: int, j: nat)
    requires j > 0
    ensures x * Pow2(j) == 2 * (x * Pow2(j - 1))
  {
  }

  lemma HalfOfRest(c: nat, p: nat)
    requires p > 0
    ensures 2 * ((c / 2) % p) + c % 2 == c % (2 * p)
  {
    var q, r := c / (2 * p), c % (2 * p);
    assert c == 2 * p * q + r;
    assert c / 2 == p * q + r / 2;
    DivisionIs(p, q, r / 2);
  }

  lemma {:induction false} OrNothing(n: nat, c: nat)
    ensures Or(n, 0, c) == c % Pow2(n)
  {
    if n > 0 {
      OrNothing(n - 1, c / 2);
      HalfOfRest(c, Pow2(n - 1));
    }
  }

  lemma {:induction false} OrSame(n: nat, c: nat)
    ensures Or(n, c, c) == c % Pow2(n)
  {
    if n > 0 {
      OrSame(n - 1, c / 2);
      HalfOfRest(c, Pow2(n - 1));
    }
  }

  /** Or of numbers without a common bit. */
  lemma {:induction false} OrApart(n: nat, j: nat, a: nat, c: nat)
    requires j <= n && a < Pow2(j)
    ensures Or(n, a, c * Pow2(j)) == a + Rest(c, Pow2(n - j)) * Pow2(j)
  {
    if j == 0 {
      OrNothing(n, c);
    } else {
      OrApart(n - 1, j - 1, a / 2, c);
      Doubled(c, j);
      Doubled(Rest(c, Pow2(n - j)), j);
    }
  }

  lemma LargeFactor(p: nat, a: nat, q: nat)
    ensures a >= q ==> p * a >= p * q
  {
  }

  lemma SmallQuotient(m: nat, p: nat, q: nat)
    requires p > 0 && m < p * q
    ensures Quotient(m, p) < q
  {
    QuotientAndRest(m, p);
    LargeFactor(p, Quotient(m, p), q);
  }

  lemma Pow2Of32()
    ensures Pow2(32) == HALF_WORD
  {
    PowersOfTwo();
  }

  lemma RotationPowers(r: nat)
    requires r < 32
    ensures Pow2(r) * Pow2(32 - r) == HALF_WORD
  {
    Pow2Of32();
    Pow2Plus(r, 32 - r);
  }

  lemma OrIsSmall(n: nat, a: int, b: int)
    requires n == 32
    ensures Or(n, a, b) % HALF_WORD == Or(n, a, b)
  {
    Pow2Of32();
  }

  lemma JoinedIs(n: nat, a: nat, m: nat, r: nat)
    requires n == 32 && 0 < r < n && a < Pow2(n - r)
    ensures Joined(n, a, m, n - r) == a + Rest(m, Pow2(r)) * Pow2(n - r)
  {
    OrApart(n, n - r, a, m);
    OrIsSmall(n, a, m * Pow2(n - r));
  }

  lemma RotatedJoins(m: nat, r: nat)
    requires 0 < r < 32
    ensures Rotated(m, r) == Joined(32, Quotient(m, Pow2(r)), m, 32 - r)
  {
    var k := 32 - r;
    assert k % 32 == k;
  }

  lemma RotatedIs(m: nat, r: nat, q: nat, p: nat)
    requires 0 < r < 32 && m < HALF_WORD && q == Pow2(r) && p == Pow2(32 - r)
    ensures Quotient(m, q) < p && Rotated(m, r) == Quotient(m, q) + Rest(m, q) * p
  {
    RotationPowers(r);
    SmallQuotient(m, q, p);
    RotatedJoins(m, r);
    JoinedIs(32, Quotient(m, q), m, r);
  }

  lemma SameParts(m: nat, n: nat, p: nat)
    requires p > 0 && Quotient(m, p) == Quotient(n, p) && Rest(m, p) == Rest(n, p)
    ensures m == n
  {
    QuotientAndRest(m, p);
    QuotientAndRest(n, p);
  }

  lemma Digits(p: nat, a: nat, b: nat, c: nat, d: nat)
    requires a < p && c < p && a + b * p == c + d * p
    ensures a == c && b == d
  {
    DivisionIs(p, b, a);
    DivisionIs(p, d, c);
  }

  lemma TurnedIsInjective(m: nat, n: nat, r: nat)
    requires 0 < r < 32 && m < HALF_WORD && n < HALF_WORD && Rotated(m, r) == Rotated(n, r)
    ensures m == n
  {
    var q, p := Pow2(r), Pow2(32 - r);
    RotatedIs(m, r, q, p);
    RotatedIs(n, r, q, p);
    Digits(p, Quotient(m, q), Rest(m, q), Quotient(n, q), Rest(n, q));
    SameParts(m, n, q);
  }

  lemma QuotientByOne(m: nat)
    ensures Quotient(m, 1) == m
  {
  }

  lemma OrSame32(n: nat, m: nat)
    requires n == 32 && m < HALF_WORD
    ensures Or(n, m, m) == m
  {
    OrSame(n, m);
    Pow2Of32();
    SmallRest(m);
  }

  lemma SmallRest(m: nat)
    requires m < HALF_WORD
    ensures m % HALF_WORD == m
  {
  }

  lemma NotShifted(m: nat)
    ensures m * Pow2(0) == m
  {
  }

  lemma JoinedSame(n: nat, m: nat)
    requires n == 32 && m < HALF_WORD
    ensures Joined(n, m, m, 0) == m
  {
    NotShifted(m);
    OrSame32(n, m);
    SmallRest(m);
  }

  lemma NotTurned(m: nat)
    requires m < HALF_WORD
    ensures Rotated(m, 0) == m
  {
    var p := Pow2(0);
    assert p == 1;
    QuotientByOne(m);
    assert Quotient(m, p) == m;
    JoinedSame(32, m);
  }

  lemma RotatedIsInjective(m: nat, n: nat, r: nat)
    requires r < 32 && m < HALF_WORD && n < HALF_WORD && Rotated(m, r) == Rotated(n, r)
    ensures m == n
  {
    if r == 0 {
      NotTurned(m);
      NotTurned(n);
    } else {
      TurnedIsInjective(m, n, r);
    }
  }

  lemma RotatedIsOnto(v: nat, r: nat) returns (m: nat)
    requires r < 32 && v < HALF_WORD
    ensures m < HALF_WORD && Rotated(m, r) == v
  {
    var f := (m: nat) => Rotated(m, r) as int;
    forall x: nat, y: nat | x < y < HALF_WORD
      ensures f(x) != f(y)
    {
      if f(x) == f(y) {
        RotatedIsInjective(x, y, r);
      }
    }
    m := InjectiveIsOnto(f, HALF_WORD, v);
  }

  // -------------------------------------------------------------------------------------------------
  // The bits of a draw

  lemma {:induction false} OrBit(n: nat, a: nat, b: nat, i: nat)
    requires i < n
    ensures Shr(Or(n, a, b), i) % 2 == if Shr(a, i) % 2 == 1 || Shr(b, i) % 2 == 1 then 1 else 0
  {
    if i > 0 {
      OrBit(n - 1, a / 2, b / 2, i - 1);
      assert Or(n, a, b) / 2 == Or(n - 1, a / 2, b / 2);
    }
  }

  lemma {:induction false} ShrOfShifted(m: nat, j: nat, i: nat)
    ensures i >= j ==> Shr(m * Pow2(j), i) == Shr(m, i - j)
    ensures i < j ==> Shr(m * Pow2(j), i) % 2 == 0
    decreases j
  {
    if j == 0 {
      NotShifted(m);
    } else {
      Doubled(m, j);
      if i > 0 {
        ShrOfShifted(m, j - 1, i - 1);
      }
    }
  }

  lemma RestOfHalf(x: nat, p: nat)
    requires p > 0
    ensures Rest(x, 2 * p) / 2 == Rest(x / 2, p) && Rest(x, 2 * p) % 2 == x % 2
  {
    HalfOfRest(x, p);
  }

  lemma {:induction false} ShrOfRest(x: nat, n: nat, i: nat)
    requires i < n
    ensures Shr(Rest(x, Pow2(n)), i) % 2 == Shr(x, i) % 2
    decreases n
  {
    var p := Pow2(n - 1);
    RestOfHalf(x, p);
    if i > 0 {
      ShrOfRest(x / 2, n - 1, i - 1);
    }
  }

  /** Two numbers without a common bit, bit by bit: the upper bits of m at the bottom, the lower ones on top. */
  lemma JoinedBit(n: nat, m: nat, r: nat, i: nat)
    requires n == 32 && 0 < r < n && i < n && m < HALF_WORD
    ensures Shr(Joined(n, Quotient(m, Pow2(r)), m, n - r), i) % 2 ==
            if i + r < n then Shr(m, i + r) % 2 else Shr(m, i + r - n) % 2
  {
    var a, b := Quotient(m, Pow2(r)), m * Pow2(n - r);
    OrIsSmall(n, a, b);
    OrBit(n, a, b, i);
    ShrIsDivision(m, r);
    ShrTwice(m, r, i);
    ShrOfShifted(m, n - r, i);
    if i + r >= n {
      NoBit(m, i + r);
    }
  }

  lemma NoBit(m: nat, k: nat)
    requires m < HALF_WORD && k >= 32
    ensures Shr(m, k) == 0
  {
    Pow2Of32();
    ShrOfSmall(m, 32);
    ShrTwice(m, 32, k - 32);
    ShrOfNothing(k - 32);
  }

  /** The bits of a number below 2^32, turned to the right. */
  lemma RotatedBit(m: nat, r: nat, i: nat)
    requires r < 32 && i < 32 && m < HALF_WORD
    ensures Shr(Rotated(m, r), i) % 2 == Shr(m, Turned(i, r)) % 2
  {
    if r == 0 {
      NotTurned(m);
    } else {
      RotatedJoins(m, r);
      JoinedBit(32, m, r, i);
    }
  }

  lemma {:induction false} ShrOfNothing(i: nat)
    ensures Shr(0, i) == 0
  {
    if i > 0 {
      ShrOfNothing(i - 1);
    }
  }

  /** Which bit of the state's middle a bit of the draw shows. */
  function Turned(i: nat, r: nat): nat {
    if i + r < 32 then i + r else i + r - 32
  }

  lemma MiddleBit(x: nat, k: nat)
    requires k < 32
    ensures Shr(Middle(x), k) % 2 == Shr(x, 27 + k) % 2
  {
    PowersOfTwo();
    ShrIsDivision(x, 27);
    ShrTwice(x, 27, k);
    ShrOfRest(x / 0x800_0000, 32, k);
  }

  lemma TurnedIs(i: nat, r: nat)
    requires i < 32 && r < 32
    ensures Turned(i, r) == (i + r) % 32
  {
  }

  lemma BitOfDraw(s: Word64, r: nat, i: nat)
    requires i < 32 && r == s / 0x800_0000_0000_0000
    ensures r < 32 && Shr(Output(s), i) % 2 == Shr(Scrambled(s), 27 + Turned(i, r)) % 2
  {
    var x := Scrambled(s);
    OutputIs(s);
    ScrambledTop(s);
    RotatedBit(Middle(x), r, i);
    MiddleBit(x, Turned(i, r));
  }

  /** The output function, bit by bit: bit i of a draw is bit 27 + k of the state, combined by exclusive or with the
      bit 18 places above it, where k is i plus the number in the state's top five bits, modulo 32. */
  lemma OutputBits(s: Word64, i: nat)
    requires i < 32
    ensures var k := 27 + (i + s / 0x800_0000_0000_0000) % 32;
            Shr(Output(s), i) % 2 == if Shr(s, k) % 2 == Shr(s, k + 18) % 2 then 0 else 1
  {
    var r := s / 0x800_0000_0000_0000;
    BitOfDraw(s, r, i);
    TurnedIs(i, r);
    ScrambledBit(s, 27 + Turned(i, r));
  }

  // -------------------------------------------------------------------------------------------------
  // How often a number is drawn

  /** The bits of a scrambled state that a draw does not show: the rotation and the lowest 27 bits. */
  function Unseen(x: nat): nat {
    x / 0x800_0000_0000_0000 * 0x800_0000 + x % 0x800_0000
  }

  function Middle(x: nat): nat {
    x / 0x800_0000 % HALF_WORD
  }

  function Parts(r: nat, m: nat, low: nat): nat {
    r * 0x800_0000_0000_0000 + m * 0x800_0000 + low
  }

  lemma PartsOf(x: nat)
    ensures x == Parts(x / 0x800_0000_0000_0000, Middle(x), x % 0x800_0000)
  {
  }

  lemma FromParts(r: nat, m: nat, low: nat)
    requires m < HALF_WORD && low < 0x800_0000
    ensures var x := Parts(r, m, low);
            x / 0x800_0000_0000_0000 == r && Middle(x) == m && x % 0x800_0000 == low
  {
  }

  lemma OutputIs(s: Word64)
    ensures Scrambled(s) < WORD && Scrambled(s) / 0x800_0000_0000_0000 < 32
    ensures Output(s) == Rotated(Middle(Scrambled(s)), Scrambled(s) / 0x800_0000_0000_0000)
  {
    PowersOfTwo();
    ScrambledTop(s);
  }

  lemma UnseenIsBounded(s: Word64)
    ensures Unseen(Scrambled(s)) < HALF_WORD
  {
    OutputIs(s);
  }

  /** The draw and what it does not show determine the state. */
  lemma DrawAndUnseen(s: Word64, t: Word64)
    requires Output(s) == Output(t) && Unseen(Scrambled(s)) == Unseen(Scrambled(t))
    ensures s == t
  {
    var x, y := Scrambled(s), Scrambled(t);
    OutputIs(s);
    OutputIs(t);
    assert x / 0x800_0000_0000_0000 == y / 0x800_0000_0000_0000 && x % 0x800_0000 == y % 0x800_0000;
    RotatedIsInjective(Middle(x), Middle(y), x / 0x800_0000_0000_0000);
    PartsOf(x);
    PartsOf(y);
    ScrambledIsInjective(s, t);
  }

  lemma ScrambledIsOnto(x: nat) returns (s: Word64)
    requires x < WORD
    ensures Scrambled(s) == x
  {
    PowersOfTwo();
    var f := (s: nat) => Scrambled(s) as int;
    forall i: nat, j: nat | i < j < WORD
      ensures f(i) != f(j)
    {
      if f(i) == f(j) {
        ScrambledIsInjective(i, j);
      }
    }
    s := InjectiveIsOnto(f, WORD, x);
  }

  lemma PartsFit(r: nat, m: nat, low: nat)
    requires r < 32 && m < HALF_WORD && low < 0x800_0000
    ensures Parts(r, m, low) < WORD
  {
  }

  /** Every draw comes with everything it can leave unseen. */
  lemma StateFor(v: Word32, unseen: nat) returns (s: Word64)
    requires unseen < HALF_WORD
    ensures Output(s) == v && Unseen(Scrambled(s)) == unseen
  {
    var r, low := unseen / 0x800_0000, unseen % 0x800_0000;
    var m := RotatedIsOnto(v, r);
    FromParts(r, m, low);
    PartsFit(r, m, low);
    s := ScrambledIsOnto(Parts(r, m, low));
    OutputIs(s);
  }

  /** The steps of one period at which a number is drawn. */
  ghost function DrawnAt(state: Word64, inc: Word64, v: Word32): set<nat> {
    set n: nat | n < WORD && Output(Iterate(state, inc, n)) == v
  }

  ghost predicate HasNumber(s: set<nat>, g: nat -> nat, i: nat) {
    exists x :: x in s && g(x) == i
  }

  /** A set whose elements are numbered from zero without gaps. */
  lemma {:induction false} Numbered(s: set<nat>, g: nat -> nat, m: nat)
    requires forall x :: x in s ==> g(x) < m
    requires forall x, y :: x in s && y in s && g(x) == g(y) ==> x == y
    requires forall i: nat :: i < m ==> HasNumber(s, g, i)
    ensures |s| == m
  {
    if m == 0 {
      assert forall x :: x !in s;
      assert s == {};
    } else {
      assert HasNumber(s, g, m - 1);
      var last :| last in s && g(last) == m - 1;
      forall i: nat | i < m - 1
        ensures HasNumber(s - {last}, g, i)
      {
        assert HasNumber(s, g, i);
        var x :| x in s && g(x) == i;
        assert x in s - {last};
      }
      Numbered(s - {last}, g, m - 1);
    }
  }

  function UnseenAt(state: Word64, inc: Word64, n: nat): nat {
    Unseen(Scrambled(Iterate(state, inc, n)))
  }

  lemma SameStep(state: Word64, inc: Word64, v: Word32, i: nat, j: nat)
    requires inc % 2 == 1 && i in DrawnAt(state, inc, v) && j in DrawnAt(state, inc, v)
    requires UnseenAt(state, inc, i) == UnseenAt(state, inc, j)
    ensures i == j
  {
    DrawAndUnseen(Iterate(state, inc, i), Iterate(state, inc, j));
    if i < j {
      NoRepeatWithinPeriod(state, inc, i, j);
    } else if j < i {
      NoRepeatWithinPeriod(state, inc, j, i);
    }
  }

  lemma StepFor(state: Word64, inc: Word64, v: Word32, unseen: nat) returns (n: nat)
    requires inc % 2 == 1 && unseen < HALF_WORD
    ensures n in DrawnAt(state, inc, v) && UnseenAt(state, inc, n) == unseen
  {
    var s := StateFor(v, unseen);
    EveryStateIsVisited(state, inc, s);
    n :| n < WORD && Iterate(state, inc, n) == s;
  }

  /** Over one period, every 32-bit number is drawn exactly 2^32 times. */
  lemma EqualDraws(state: Word64, inc: Word64, v: Word32)
    requires inc % 2 == 1
    ensures |DrawnAt(state, inc, v)| == HALF_WORD
  {
    var g := (n: nat) => UnseenAt(state, inc, n);
    var s := DrawnAt(state, inc, v);
    forall n | n in s
      ensures g(n) < HALF_WORD
    {
      UnseenIsBounded(Iterate(state, inc, n));
    }
    forall i, j | i in s && j in s && g(i) == g(j)
      ensures i == j
    {
      SameStep(state, inc, v, i, j);
    }
    forall u: nat | u < HALF_WORD
      ensures HasNumber(s, g, u)
    {
      var n := StepFor(state, inc, v, u);
      assert n in s && g(n) == u;
    }
    Numbered(s, g, HALF_WORD);
  }

  // -------------------------------------------------------------------------------------------------
  // Draws below a bound

  /** The steps of one period at which a draw below k with a given rest is made. */
  ghost function StepsBelow(state: Word64, inc: Word64, m: nat, r: int, k: nat): set<nat>
    requires m > 0
  {
    set n: nat | n < WORD && Output(Iterate(state, inc, n)) < k && Output(Iterate(state, inc, n)) % m == r
  }

  lemma StepsGrow(state: Word64, inc: Word64, m: nat, r: int, k: nat)
    requires inc % 2 == 1 && m > 0 && k < HALF_WORD
    ensures |StepsBelow(state, inc, m, r, k + 1)| ==
            |StepsBelow(state, inc, m, r, k)| + (if k % m == r then HALF_WORD else 0)
  {
    var fewer, more := StepsBelow(state, inc, m, r, k), StepsBelow(state, inc, m, r, k + 1);
    if k % m == r {
      EqualDraws(state, inc, k);
      assert more == fewer + DrawnAt(state, inc, k);
      assert fewer !! DrawnAt(state, inc, k);
    } else {
      assert more == fewer;
    }
  }

  /** How many numbers below k have a given rest. */
  function Hits(k: nat, m: nat, r: int): nat
    requires m > 0
  {
    if k == 0 then 0 else Hits(k - 1, m, r) + (if (k - 1) % m == r then 1 else 0)
  }

  lemma {:induction false} StepsAreHits(state: Word64, inc: Word64, m: nat, r: int, k: nat)
    requires inc % 2 == 1 && m > 0 && k <= HALF_WORD
    ensures |StepsBelow(state, inc, m, r, k)| == HALF_WORD * Hits(k, m, r)
  {
    if k == 0 {
      assert StepsBelow(state, inc, m, r, 0) == {};
    } else {
      StepsAreHits(state, inc, m, r, k - 1);
      StepsGrow(state, inc, m, r, k - 1);
    }
  }

  lemma NextQuotient(k: nat, m: nat)
    requires m > 0
    ensures (k + 1) / m == k / m + (if k % m == m - 1 then 1 else 0)
    ensures (k + 1) % m == if k % m == m - 1 then 0 else k % m + 1
  {
    var q, r := k / m, k % m;
    QuotientAndRest(k, m);
    if r == m - 1 {
      Distribute(m, q, -1);
      DivisionIs(m, q + 1, 0);
    } else {
      DivisionIs(m, q, r + 1);
    }
  }

  lemma {:induction false} HitsAre(k: nat, m: nat, r: nat)
    requires m > 0
    ensures Hits(k, m, r) == if r < m then k / m + (if r < k % m then 1 else 0) else 0
  {
    if k > 0 {
      HitsAre(k - 1, m, r);
      NextQuotient(k - 1, m);
    }
  }

  /** The steps of one period at which a draw below n comes out as r. */
  ghost function BelowAt(state: Word64, inc: Word64, n: int, r: int): set<nat>
    requires n % HALF_WORD != 0
  {
    set i: nat | i < WORD && Below(Output(Iterate(state, inc, i)), n) == r
  }

  lemma BelowRest(draw: Word32, n: nat, m: nat)
    requires m == n % HALF_WORD && m > 0
    ensures Below(draw, n) == draw % m
  {
  }

  lemma BelowIsSteps(state: Word64, inc: Word64, n: nat, r: nat, m: nat, k: nat)
    requires m == n % HALF_WORD && m > 0 && k == HALF_WORD
    ensures BelowAt(state, inc, n, r) == StepsBelow(state, inc, m, r, k)
  {
    forall i: nat | i < WORD
      ensures i in BelowAt(state, inc, n, r) <==> i in StepsBelow(state, inc, m, r, k)
    {
      BelowRest(Output(Iterate(state, inc, i)), n, m);
    }
  }

  lemma BelowCount(state: Word64, inc: Word64, n: nat, r: nat, m: nat, k: nat)
    requires inc % 2 == 1 && m == n % HALF_WORD && m > 0 && k == HALF_WORD
    ensures |BelowAt(state, inc, n, r)| == k * Hits(k, m, r)
  {
    BelowIsSteps(state, inc, n, r, m, k);
    StepsAreHits(state, inc, m, r, k);
  }

  /** Every number below a bound is drawn equally often. */
  ghost predicate Fair(state: Word64, inc: Word64, n: nat)
    requires n % HALF_WORD != 0
  {
    forall q: nat, r: nat :: q < n && r < n ==> |BelowAt(state, inc, n, q)| == |BelowAt(state, inc, n, r)|
  }

  lemma MoreHits(k: nat, m: nat, last: nat)
    requires 0 < m <= k && (last >= m || (last == m - 1 && 0 < k % m))
    ensures Hits(k, m, 0) > Hits(k, m, last)
  {
    HitsAre(k, m, 0);
    HitsAre(k, m, last);
    AtLeastOne(k, m);
  }

  lemma Multiply(k: nat, x: nat, y: nat)
    requires x > y && k > 0
    ensures k * x > k * y
  {
  }

  /** A bound, the divisor it leaves as a 32-bit number, and 2^32. */
  lemma Divisor(n: nat, m: nat, k: nat)
    requires m == n % HALF_WORD && m > 0 && k == HALF_WORD
    ensures m <= k
    ensures k % n == 0 ==> m == n
    ensures k % n != 0 ==> n - 1 >= m || (n == m && 0 < k % m)
  {
    if n < k {
      assert m == n;
    } else {
      assert n != k;
      DividendIsRest(k, n);
    }
  }

  lemma DividendIsRest(k: nat, n: nat)
    requires k < n
    ensures k % n == k
  {
  }

  /** The first and the last number below a bound are drawn equally often only if the bound divides 2^32. */
  lemma FirstAndLast(state: Word64, inc: Word64, n: nat, m: nat, k: nat)
    requires inc % 2 == 1 && m == n % HALF_WORD && 0 < m <= k && k == HALF_WORD
    requires n - 1 >= m || (n == m && 0 < k % m)
    ensures |BelowAt(state, inc, n, 0)| > |BelowAt(state, inc, n, n - 1)|
  {
    BelowCount(state, inc, n, 0, m, k);
    BelowCount(state, inc, n, n - 1, m, k);
    MoreHits(k, m, n - 1);
    Multiply(k, Hits(k, m, 0), Hits(k, m, n - 1));
  }

  lemma AtLeastOne(k: nat, m: nat)
    requires 0 < m <= k
    ensures k / m >= 1
  {
  }

  /** A bound that divides 2^32 leaves each rest equally often. */
  lemma SameHits(state: Word64, inc: Word64, n: nat, q: nat, r: nat, k: nat)
    requires inc % 2 == 1 && n == n % HALF_WORD && q < n && r < n && k == HALF_WORD && k % n == 0
    ensures |BelowAt(state, inc, n, q)| == |BelowAt(state, inc, n, r)|
  {
    BelowCount(state, inc, n, q, n, k);
    BelowCount(state, inc, n, r, n, k);
    HitsAre(k, n, q);
    HitsAre(k, n, r);
  }

  /** A draw below a bound is uniform over one period exactly if the bound divides 2^32. */
  lemma FairIff(state: Word64, inc: Word64, n: nat)
    requires inc % 2 == 1 && n % HALF_WORD != 0
    ensures Fair(state, inc, n) <==> HALF_WORD % n == 0
  {
    Divisor(n, n % HALF_WORD, HALF_WORD);
    if HALF_WORD % n == 0 {
      forall q: nat, r: nat | q < n && r < n
        ensures |BelowAt(state, inc, n, q)| == |BelowAt(state, inc, n, r)|
      {
        SameHits(state, inc, n, q, r, HALF_WORD);
      }
    } else {
      FirstAndLast(state, inc, n, n % HALF_WORD, HALF_WORD);
      assert |BelowAt(state, inc, n, 0)| != |BelowAt(state, inc, n, n - 1)|;
    }
  }
}
