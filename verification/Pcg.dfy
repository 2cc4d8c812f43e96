// The PCG generator of internal/engine/random.go.
//
// The generator's state is advanced by a linear congruential step modulo 2^64. The odd increment that
// the constructor forces, together with a multiplier that is 1 modulo 4, gives the generator its full
// period; that is the main result of this module.
module Pcg {
  import opened Bytes

  const WORD_BITS: nat := 64

  type Word64 = x: int | 0 <= x < WORD
  type Word32 = x: int | 0 <= x < HALF_WORD

  // -------------------------------------------------------------------------------------------------
  // The state sequence

  function Step(state: Word64, inc: Word64): Word64 {
    (state * 6364136223846793005 + inc) % WORD
  }

  function Iterate(state: Word64, inc: Word64, n: nat): Word64 {
    if n == 0 then state else Step(Iterate(state, inc, n - 1), inc)
  }

  function Pow2(k: nat): (p: nat)
    ensures p > 0
  {
    if k == 0 then 1 else 2 * Pow2(k - 1)
  }

  function Xor(n: nat, x: int, y: int): (r: nat)
    ensures r < Pow2(n)
  {
    if n == 0 then 0 else 2 * Xor(n - 1, x / 2, y / 2) + (if x % 2 == y % 2 then 0 else 1)
  }

  function Or(n: nat, x: int, y: int): (r: nat)
    ensures r < Pow2(n)
  {
    if n == 0 then 0 else 2 * Or(n - 1, x / 2, y / 2) + (if x % 2 == 1 || y % 2 == 1 then 1 else 0)
  }

  /** What one draw shows of the state it leaves behind: xorshift-high, then a state-chosen rotation. */
  function Output(state: Word64): Word32 {
    var xorshifted := Xor(64, state / 0x4_0000, state) / 0x800_0000 % HALF_WORD;
    var rot := state / 0x800_0000_0000_0000;
    Or(32, xorshifted / Pow2(rot), xorshifted * Pow2((32 - rot) % 32)) % HALF_WORD
  }

  /** A draw scaled to [0, 1); exact over the reals, since the draw has 32 bits. */
  function Fraction(draw: Word32): (r: real)
    ensures 0.0 <= r < 1.0 && r * 4294967296.0 == draw as real
  {
    draw as real / 4294967296.0
  }

  /** The first n draws of a generator in the given state. */
  function Stream(state: Word64, inc: Word64, n: nat): (draws: seq<Word32>)
    ensures |draws| == n
    decreases n
  {
    if n == 0 then [] else [Output(state)] + Stream(Step(state, inc), inc, n - 1)
  }

  lemma DifferenceOfRests(x: int, y: int)
    ensures (x % WORD - y % WORD) % WORD == (x - y) % WORD
  {
  }

  /** The step is the affine map of the 64-bit generator: its increment at zero, and from each state to the next
      one the multiplier 0x5851f42d4c957f2d, modulo 2^64. */
  lemma StepIsAffine(state: nat, inc: Word64)
    requires state + 1 < WORD
    ensures Step(0, inc) == inc
    ensures (Step(state + 1, inc) - Step(state, inc)) % WORD == 0x5851_f42d_4c95_7f2d
  {
    var x, y := (state + 1) * 6364136223846793005 + inc, state * 6364136223846793005 + inc;
    DifferenceOfRests(x, y);
    assert x - y == 0x5851_f42d_4c95_7f2d;
  }

  // -------------------------------------------------------------------------------------------------
  // Multiplication as repeated addition, so that the proofs below stay linear

  ghost function Times(x: int, y: int): int
    decreases if y < 0 then -y else y
  {
    if y == 0 then 0 else if y > 0 then Times(x, y - 1) + x else Times(x, y + 1) - x
  }

  lemma TimesNext(x: int, y: int)
    ensures Times(x, y + 1) == Times(x, y) + x
  {
  }

  lemma {:induction false} TimesPlus(x: int, y: int, z: int)
    ensures Times(x, y + z) == Times(x, y) + Times(x, z)
    decreases if z < 0 then -z else z
  {
    if z > 0 {
      TimesPlus(x, y, z - 1);
      TimesNext(x, y + (z - 1));
    } else if z < 0 {
      TimesPlus(x, y, z + 1);
      TimesNext(x, y + z);
    }
  }

  lemma {:induction false} PlusTimes(x: int, y: int, z: int)
    ensures Times(x + y, z) == Times(x, z) + Times(y, z)
    decreases if z < 0 then -z else z
  {
    if z > 0 {
      PlusTimes(x, y, z - 1);
    } else if z < 0 {
      PlusTimes(x, y, z + 1);
    }
  }

  lemma {:induction false} TimesTimes(x: int, y: int, z: int)
    ensures Times(x, Times(y, z)) == Times(Times(x, y), z)
    decreases if z < 0 then -z else z
  {
    if z > 0 {
      TimesTimes(x, y, z - 1);
      TimesPlus(x, Times(y, z - 1), y);
    } else if z < 0 {
      TimesTimes(x, y, z + 1);
      TimesPlus(x, Times(y, z), y);
    }
  }

  lemma {:induction false} TimesOne(y: int)
    ensures Times(1, y) == y
    decreases if y < 0 then -y else y
  {
    if y > 0 {
      TimesOne(y - 1);
    } else if y < 0 {
      TimesOne(y + 1);
    }
  }

  lemma {:induction false} TimesIsProduct(x: int, y: int)
    ensures Times(x, y) == x * y
    decreases if y < 0 then -y else y
  {
    if y > 0 {
      TimesIsProduct(x, y - 1);
    } else if y < 0 {
      TimesIsProduct(x, y + 1);
    }
  }

  lemma FourTimes(t: int, d: int)
    ensures Times(4 * t, d) == 4 * Times(t, d)
  {
    var u := t + t;
    PlusTimes(t, t, d);
    PlusTimes(u, u, d);
    assert u + u == 4 * t;
  }

  /** (4x + 1) times z */
  lemma FourTimesPlusOne(x: int, z: int)
    ensures Times(4 * x + 1, z) == 4 * Times(x, z) + z
  {
    FourTimes(x, z);
    PlusTimes(4 * x, 1, z);
    TimesOne(z);
  }

  // -------------------------------------------------------------------------------------------------
  // Divisibility by a power of two, one factor at a time

  predicate DividesPow2(k: nat, x: int) {
    k == 0 || (x % 2 == 0 && DividesPow2(k - 1, x / 2))
  }

  lemma {:induction false} Quotient(k: nat, x: int) returns (q: int)
    requires DividesPow2(k, x)
    ensures x == Times(Pow2(k), q)
  {
    if k == 0 {
      q := x;
      TimesOne(x);
    } else {
      q := Quotient(k - 1, x / 2);
      PlusTimes(Pow2(k - 1), Pow2(k - 1), q);
    }
  }

  lemma {:induction false} MultipleDivides(k: nat, q: int)
    ensures DividesPow2(k, Times(Pow2(k), q))
  {
    if k > 0 {
      PlusTimes(Pow2(k - 1), Pow2(k - 1), q);
      MultipleDivides(k - 1, q);
    }
  }

  lemma Pow2Plus8(k: nat)
    ensures Pow2(k + 8) == 256 * Pow2(k)
  {
    assert Pow2(k + 4) == 2 * Pow2(k + 3) == 4 * Pow2(k + 2) == 8 * Pow2(k + 1) == 16 * Pow2(k);
    assert Pow2(k + 8) == 2 * Pow2(k + 7) == 4 * Pow2(k + 6) == 8 * Pow2(k + 5) == 16 * Pow2(k + 4);
  }

  lemma Pow2Of64()
    ensures Pow2(64) == WORD
  {
    Pow2Plus8(0);
    Pow2Plus8(8);
    Pow2Plus8(16);
    Pow2Plus8(24);
    Pow2Plus8(32);
    Pow2Plus8(40);
    Pow2Plus8(48);
    Pow2Plus8(56);
  }

  lemma DividesWord(k: nat, x: int)
    requires k == 64
    ensures DividesPow2(k, x) <==> x % WORD == 0
  {
    Pow2Of64();
    if DividesPow2(k, x) {
      var q := Quotient(k, x);
      TimesIsProduct(WORD, q);
    }
    if x % WORD == 0 {
      TimesIsProduct(WORD, x / WORD);
      MultipleDivides(k, x / WORD);
    }
  }

  lemma TimesOdd(u: int, v: int)
    ensures Times(u, 2 * v + 1) == 2 * Times(u, v) + u
  {
    TimesPlus(u, v, v);
    TimesNext(u, v + v);
    assert v + v == 2 * v;
  }

  lemma TwiceTimes(h: int, w: int)
    ensures Times(2 * h, w) == 2 * Times(h, w)
  {
    PlusTimes(h, h, w);
    assert h + h == 2 * h;
  }

  lemma {:induction false} OddFactorIsInvisible(k: nat, u: int, w: int)
    requires w % 2 == 1
    ensures DividesPow2(k, Times(u, w)) <==> DividesPow2(k, u)
  {
    if k > 0 {
      TimesOdd(u, w / 2);
      if u % 2 == 0 {
        TwiceTimes(u / 2, w);
        OddFactorIsInvisible(k - 1, u / 2, w);
      }
    }
  }

  // -------------------------------------------------------------------------------------------------
  // Powers of 4q + 1 and their sums

  ghost function Power(q: int, n: nat): int {
    if n == 0 then 1 else Times(4 * q + 1, Power(q, n - 1))
  }

  /** The sum of the first n powers. */
  ghost function Geometric(q: int, n: nat): int {
    if n == 0 then 0 else Times(4 * q + 1, Geometric(q, n - 1)) + 1
  }

  lemma {:induction false} GeometricSplit(q: int, m: nat, k: nat)
    ensures Geometric(q, m + k) == Times(Power(q, k), Geometric(q, m)) + Geometric(q, k)
  {
    var g := Geometric(q, m);
    if k == 0 {
      TimesOne(g);
    } else {
      GeometricSplit(q, m, k - 1);
      assert m + k - 1 == m + (k - 1);
      TimesPlus(4 * q + 1, Times(Power(q, k - 1), g), Geometric(q, k - 1));
      TimesTimes(4 * q + 1, Power(q, k - 1), g);
    }
  }

  lemma {:induction false} PowerIsOneMod4(q: int, n: nat)
    ensures Power(q, n) % 4 == 1
  {
    if n > 0 {
      PowerIsOneMod4(q, n - 1);
      FourTimesPlusOne(q, Power(q, n - 1));
    }
  }

  lemma {:induction false} GeometricParity(q: int, n: nat)
    ensures Geometric(q, n) % 2 == n % 2
  {
    if n > 0 {
      GeometricParity(q, n - 1);
      FourTimesPlusOne(q, Geometric(q, n - 1));
    }
  }

  lemma GeometricOfDouble(q: int, m: nat) returns (half: int)
    ensures half % 2 == 1
    ensures Geometric(q, 2 * m) == 2 * Times(half, Geometric(q, m))
  {
    var p, g := Power(q, m), Geometric(q, m);
    GeometricSplit(q, m, m);
    PowerIsOneMod4(q, m);
    half := (p + 1) / 2;
    PlusTimes(half, half, g);
    PlusTimes(p, 1, g);
    TimesOne(g);
    assert half + half == p + 1;
  }

  lemma {:induction false} TimesZero(y: int)
    ensures Times(0, y) == 0
    decreases if y < 0 then -y else y
  {
    if y > 0 {
      TimesZero(y - 1);
    } else if y < 0 {
      TimesZero(y + 1);
    }
  }

  lemma {:induction false} TimesCommutes(x: int, y: int)
    ensures Times(x, y) == Times(y, x)
    decreases if y < 0 then -y else y
  {
    if y == 0 {
      TimesZero(x);
    } else if y > 0 {
      TimesCommutes(x, y - 1);
      PlusTimes(y - 1, 1, x);
      TimesOne(x);
    } else {
      TimesCommutes(x, y + 1);
      PlusTimes(y, 1, x);
      TimesOne(x);
    }
  }

  /** The geometric sum of n terms holds exactly as many factors two as n does. */
  lemma {:induction false} GeometricDivisibility(q: int, k: nat, n: nat)
    ensures DividesPow2(k, Geometric(q, n)) <==> DividesPow2(k, n)
  {
    GeometricParity(q, n);
    if k > 0 && n % 2 == 0 {
      var g := Geometric(q, n / 2);
      var half := GeometricOfDouble(q, n / 2);
      TimesCommutes(half, g);
      OddFactorIsInvisible(k - 1, g, half);
      GeometricDivisibility(q, k - 1, n / 2);
    }
  }

  // -------------------------------------------------------------------------------------------------
  // The step is affine, so n steps add a geometric sum times a fixed odd number

  const QUARTER := 1591034055961698251  // the multiplier is 4 * QUARTER + 1

  /** How far one step moves, before reduction. */
  ghost function Distance(state: Word64, inc: Word64): int {
    4 * Times(QUARTER, state) + inc
  }

  lemma {:induction false} IterateClosedForm(state: Word64, inc: Word64, n: nat)
    ensures Iterate(state, inc, n) == (state + Times(Geometric(QUARTER, n), Distance(state, inc))) % WORD
  {
    var d := Distance(state, inc);
    if n == 0 {
      TimesZero(d);
    } else {
      IterateClosedForm(state, inc, n - 1);
      var g := Geometric(QUARTER, n - 1);
      var far := Times(g, d);
      StepOfMod(state + far, inc);
      TimesPlus(QUARTER, state, far);
      TimesTimes(QUARTER, g, d);
      FourTimesPlusOne(QUARTER, g);
      TimesOfGeometric(QUARTER, g, d);
    }
  }

  /** One more term of the geometric sum, multiplied out. */
  lemma TimesOfGeometric(q: int, g: int, d: int)
    ensures Times(Times(4 * q + 1, g) + 1, d) == 4 * Times(Times(q, g), d) + Times(g, d) + d
  {
    var t := 4 * Times(q, g);
    FourTimesPlusOne(q, g);
    FourTimes(Times(q, g), d);
    PlusTimes(t, g, d);
    PlusTimes(t + g, 1, d);
    TimesOne(d);
  }

  lemma StepOfMod(u: int, inc: Word64)
    ensures Step(u % WORD, inc) == (u + 4 * Times(QUARTER, u) + inc) % WORD
  {
    var q, r := u / WORD, u % WORD;
    TimesIsProduct(QUARTER, u);
    assert u + 4 * Times(QUARTER, u) + inc
        == r * 6364136223846793005 + inc + WORD * (6364136223846793005 * q);
    ModPeriodic(r * 6364136223846793005 + inc, 6364136223846793005 * q);
  }

  lemma ModPeriodic(x: int, q: int)
    ensures (x + WORD * q) % WORD == x % WORD
  {
  }

  lemma DistanceIsOdd(state: Word64, inc: Word64)
    requires inc % 2 == 1
    ensures Distance(state, inc) % 2 == 1
  {
    FourTimesPlusOddIsOdd(Times(QUARTER, state), inc);
  }

  lemma FourTimesPlusOddIsOdd(t: int, c: int)
    requires c % 2 == 1
    ensures (4 * t + c) % 2 == 1
  {
  }

  /** Full period: the state comes back after n steps exactly when n is a multiple of 2^64. */
  lemma FullPeriod(state: Word64, inc: Word64, n: nat)
    requires inc % 2 == 1
    ensures Iterate(state, inc, n) == state <==> n % WORD == 0
  {
    var k, g, d := WORD_BITS, Geometric(QUARTER, n), Distance(state, inc);
    IterateClosedForm(state, inc, n);
    DistanceIsOdd(state, inc);
    OddFactorIsInvisible(k, g, d);
    GeometricDivisibility(QUARTER, k, n);
    DividesWord(k, Times(g, d));
    DividesWord(k, n);
    SameResidue(state, Times(g, d));
  }

  lemma SameResidue(x: Word64, y: int)
    ensures (x + y) % WORD == x <==> y % WORD == 0
  {
  }

  // -------------------------------------------------------------------------------------------------
  // Consequence: one period meets every one of the 2^64 states, each exactly once

  lemma {:induction false} IterateCompose(state: Word64, inc: Word64, m: nat, n: nat)
    ensures Iterate(state, inc, m + n) == Iterate(Iterate(state, inc, m), inc, n)
  {
    if n > 0 {
      IterateCompose(state, inc, m, n - 1);
    }
  }

  lemma NoRepeatWithinPeriod(state: Word64, inc: Word64, i: nat, j: nat)
    requires inc % 2 == 1 && i < j < WORD
    ensures Iterate(state, inc, i) != Iterate(state, inc, j)
  {
    var s, n := Iterate(state, inc, i), j - i;
    IterateCompose(state, inc, i, n);
    FullPeriod(s, inc, n);
    NotAMultiple(n);
  }

  lemma NotAMultiple(n: int)
    requires 0 < n < WORD
    ensures n % WORD != 0
  {
  }

  ghost predicate Injective(f: nat -> int, m: nat) {
    && (forall x: nat :: x < m ==> 0 <= f(x) < m)
    && (forall x: nat, y: nat :: x < y < m ==> f(x) != f(y))
  }

  ghost function ImageOf(f: nat -> int, n: nat): set<int> {
    if n == 0 then {} else ImageOf(f, n - 1) + {f(n - 1)}
  }

  lemma {:induction false} ImageContents(f: nat -> int, n: nat, y: int)
    requires y in ImageOf(f, n)
    ensures exists x: nat :: x < n && f(x) == y
  {
    if y != f(n - 1) {
      ImageContents(f, n - 1, y);
    }
  }

  lemma {:induction false} ImageSize(f: nat -> int, m: nat, n: nat)
    requires Injective(f, m) && n <= m
    ensures |ImageOf(f, n)| == n
    ensures forall y :: y in ImageOf(f, n) ==> 0 <= y < m
  {
    if n > 0 {
      ImageSize(f, m, n - 1);
      if f(n - 1) in ImageOf(f, n - 1) {
        ImageContents(f, n - 1, f(n - 1));
      }
    }
  }

  lemma {:induction false} SetBelow(s: set<int>, m: nat)
    requires forall x :: x in s ==> 0 <= x < m
    ensures |s| <= m
    ensures |s| == m ==> forall x :: 0 <= x < m ==> x in s
  {
    if m == 0 {
      assert forall x :: x !in s;
      assert s == {};
    } else {
      SetBelow(s - {m - 1}, m - 1);
    }
  }

  /** Different numbers below a bound, one for each, are all numbers below it. */
  lemma InjectiveIsOnto(f: nat -> int, m: nat, y: int) returns (x: nat)
    requires Injective(f, m) && 0 <= y < m
    ensures x < m && f(x) == y
  {
    ImageSize(f, m, m);
    SetBelow(ImageOf(f, m), m);
    ImageContents(f, m, y);
    x :| x < m && f(x) == y;
  }

  /** Every state is met within one period, from any starting state. */
  lemma EveryStateIsVisited(state: Word64, inc: Word64, target: Word64)
    requires inc % 2 == 1
    ensures exists n: nat :: n < WORD && Iterate(state, inc, n) == target
  {
    var f := (n: nat) => Iterate(state, inc, n) as int;
    forall i: nat, j: nat | i < j < WORD
      ensures f(i) != f(j)
    {
      NoRepeatWithinPeriod(state, inc, i, j);
    }
    var n := InjectiveIsOnto(f, WORD, target);
  }

  // -------------------------------------------------------------------------------------------------
  // The generator object

  /** The sixteen-byte image of a generator that the snapshot stores. */
  function Image(state: Word64, inc: Word64): (bytes: seq<Byte>) {
    BigEndian(8, state) + BigEndian(8, inc)
  }

  /** A stored image, whatever is stored behind it, gives back both words. */
  lemma ImageRoundTrip(state: Word64, inc: Word64, rest: seq<Byte>)
    ensures var image := Image(state, inc) + rest;
            |image| >= 16 && Value(image[0..8]) == state && Value(image[8..16]) == inc
  {
    var image := Image(state, inc) + rest;
    assert image[0..8] == BigEndian(8, state);
    assert image[8..16] == BigEndian(8, inc);
    ReadBack64(state);
    ReadBack64(inc);
  }

  /** The seed shifted left by one, with the low bit set. */
  function Increment(seed: int): (inc: Word64)
    ensures inc % 2 == 1 && (inc - 2 * seed - 1) % WORD == 0
  {
    2 * (seed % 0x8000_0000_0000_0000) + 1
  }

  function Seeded(seed: int): Word64 {
    Step((Step(0, Increment(seed)) + seed) % WORD, Increment(seed))
  }

  /** A draw reduced to [0, n); the program divides by n as a 32-bit word. */
  function Below(draw: Word32, n: int): (r: int)
    requires n <= 0 || n % HALF_WORD != 0
    ensures 0 <= r && (n > 0 ==> r < n)
  {
    if n <= 0 then 0 else draw % (n % HALF_WORD)
  }

  lemma BelowIsRest(draw: Word32, n: int)
    requires 0 < n < HALF_WORD
    ensures n % HALF_WORD == n && Below(draw, n) == draw % n
  {
  }

  lemma SmallBound(n: int)
    requires 0 < n < HALF_WORD
    ensures n % HALF_WORD != 0
  {
  }

  /** The sum of the first n weights. */
  function RunningTotal(weights: seq<real>, n: nat): real
    requires n <= |weights|
  {
    if n == 0 then 0.0 else RunningTotal(weights, n - 1) + weights[n - 1]
  }

  function Scale(fraction: real, total: real): real {
    fraction * total
  }

  function PickTarget(draw: Word32, weights: seq<real>): real {
    Scale(Fraction(draw), RunningTotal(weights, |weights|))
  }

  /** Weight number pick is the first whose running total exceeds the target, or else the last one. */
  predicate IsPick(weights: seq<real>, target: real, pick: int) {
    && 0 <= pick < |weights|
    && (forall i :: 0 < i <= pick ==> RunningTotal(weights, i) <= target)
    && (pick < |weights| - 1 ==> target < RunningTotal(weights, pick + 1))
  }

  method Total(weights: seq<real>) returns (total: real)
    ensures total == RunningTotal(weights, |weights|)
  {
    total := 0.0;
    for i := 0 to |weights|
      invariant total == RunningTotal(weights, i)
    {
      total := total + weights[i];
    }
  }

  method FirstAbove(weights: seq<real>, target: real) returns (pick: int)
    requires |weights| > 0
    ensures IsPick(weights, target, pick)
  {
    var cumulative := 0.0;
    for i := 0 to |weights|
      invariant cumulative == RunningTotal(weights, i)
      invariant forall j :: 0 < j <= i ==> RunningTotal(weights, j) <= target
    {
      cumulative := cumulative + weights[i];
      if target < cumulative {
        return i;
      }
    }
    return |weights| - 1;
  }

  class Rng {
    var state: Word64
    var inc: Word64

    /** A zero seed is replaced by the clock's nanoseconds. */
    constructor (seed: int, clock: int)
      ensures inc % 2 == 1
      ensures inc == Increment(if seed == 0 then clock else seed)
      ensures state == Seeded(if seed == 0 then clock else seed)
    {
      var s := if seed == 0 then clock else seed;
      inc := Increment(s);
      state := 0;
      new;
      Advance();
      state := (state + s) % WORD;
      Advance();
    }

    method Advance()
      modifies this`state
      ensures state == Step(old(state), inc)
    {
      state := Step(state, inc);
    }

    method Uint32() returns (draw: Word32)
      modifies this`state
      ensures draw == Output(old(state)) && state == Step(old(state), inc)
    {
      var prior := state;
      Advance();
      draw := Output(prior);
    }

    method Float64() returns (r: real)
      modifies this`state
      ensures r == Fraction(Output(old(state))) && state == Step(old(state), inc)
    {
      var draw := Uint32();
      r := Fraction(draw);
    }

    /** A draw in [0, n), or 0, without a draw, when n is not positive. */
    method Intn(n: int) returns (r: int)
      requires n <= 0 || n % HALF_WORD != 0
      modifies this`state
      ensures n > 0 ==> 0 <= r < n && r == Below(Output(old(state)), n) && state == Step(old(state), inc)
      ensures 0 < n < 0x1_0000_0000 ==> r == Output(old(state)) % n
      ensures n <= 0 ==> r == 0 && state == old(state)
    {
      if n <= 0 {
        return 0;
      }
      var draw := Uint32();
      r := Below(draw, n);
      if n < HALF_WORD {
        BelowIsRest(draw, n);
      }
    }

    /** A draw in [lo, hi], or lo itself, without a draw, when the range holds at most one number. */
    method IntRange(lo: int, hi: int) returns (r: int)
      requires hi - lo + 1 <= 0 || (hi - lo + 1) % HALF_WORD != 0
      modifies this`state
      ensures lo <= hi ==> lo <= r <= hi
      ensures lo >= hi ==> r == lo && state == old(state)
      ensures lo < hi ==> r == lo + Below(Output(old(state)), hi - lo + 1) && state == Step(old(state), inc)
      ensures lo < hi && hi - lo + 1 < 0x1_0000_0000 ==> r == lo + Output(old(state)) % (hi - lo + 1)
    {
      if lo >= hi {
        return lo;
      }
      var n := Intn(hi - lo + 1);
      r := lo + n;
    }

    /** Picks the first weight whose running total exceeds the target, in exact arithmetic. */
    method WeightedPick(weights: seq<real>) returns (pick: int)
      requires |weights| > 0
      modifies this`state
      ensures state == Step(old(state), inc)
      ensures IsPick(weights, PickTarget(Output(old(state)), weights), pick)
    {
      var total := Total(weights);
      var u := Float64();
      pick := FirstAbove(weights, Scale(u, total));
    }

    method StateBytes() returns (bytes: seq<Byte>)
      ensures bytes == Image(state, inc)
      ensures |bytes| == 16 && Value(bytes[0..8]) == state && Value(bytes[8..16]) == inc
    {
      ImageRoundTrip(state, inc, []);
      assert Image(state, inc) + [] == Image(state, inc);
      bytes := BigEndian(8, state) + BigEndian(8, inc);
    }

    /** An image that is too short is ignored. */
    method RestoreStateBytes(bytes: seq<Byte>)
      modifies this
      ensures |bytes| < 16 ==> state == old(state) && inc == old(inc)
      ensures |bytes| >= 16 ==> state == Value(bytes[0..8]) && inc == Value(bytes[8..16])
    {
      if |bytes| < 16 {
        return;
      }
      EightBytes(bytes[0..8]);
      EightBytes(bytes[8..16]);
      state := Value(bytes[0..8]);
      inc := Value(bytes[8..16]);
    }
  }

  lemma {:induction false} ValueBound(s: seq<Byte>)
    ensures Value(s) < Pow256(|s|)
  {
    if s != [] {
      ValueBound(s[..|s| - 1]);
    }
  }

  lemma EightBytes(s: seq<Byte>)
    requires |s| == 8
    ensures Value(s) < WORD
  {
    ValueBound(s);
    assert Pow256(4) == 256 * (256 * Pow256(2));
    assert Pow256(8) == 256 * (256 * (256 * (256 * Pow256(4))));
  }

  /** A generator restored from a stored image draws the very numbers the stored one would have drawn. */
  lemma RestoredStream(state: Word64, inc: Word64, rest: seq<Byte>, n: nat)
    ensures var image := Image(state, inc) + rest;
            Value(image[0..8]) < WORD && Value(image[8..16]) < WORD &&
            Stream(Value(image[0..8]), Value(image[8..16]), n) == Stream(state, inc, n)
  {
    ImageRoundTrip(state, inc, rest);
  }
}
