// Bytes and big-endian integers, as encoding/binary reads and writes them.
module Bytes {

  type Byte = x: int | 0 <= x < 256

  const WORD := 0x1_0000_0000_0000_0000
  const HALF_WORD := 0x1_0000_0000

  /** The n low-order bytes of x, most significant first; higher-order bytes are cut off. */
  function BigEndian(n: nat, x: int): (s: seq<Byte>)
    ensures |s| == n
  {
    if n == 0 then [] else BigEndian(n - 1, x / 256) + [x % 256]
  }

  function Value(s: seq<Byte>): nat {
    if s == [] then 0 else 256 * Value(s[..|s| - 1]) + s[|s| - 1]
  }

  function Pow256(n: nat): nat {
    if n == 0 then 1 else 256 * Pow256(n - 1)
  }

  lemma Scaled(q: int, p: int)
    ensures 256 * (q * p) == q * (256 * p)
  {
  }

  /** Reading back n written bytes loses a multiple of 256^n and nothing else. */
  lemma {:induction false} ReadBack(n: nat, x: int) returns (lost: int)
    ensures x == lost * Pow256(n) + Value(BigEndian(n, x))
    ensures Value(BigEndian(n, x)) < Pow256(n)
  {
    if n == 0 {
      lost := x;
    } else {
      lost := ReadBack(n - 1, x / 256);
      assert BigEndian(n, x)[..n - 1] == BigEndian(n - 1, x / 256);
      Scaled(lost, Pow256(n - 1));
    }
  }

  lemma WordSizes()
    ensures Pow256(2) == 0x1_0000 && Pow256(4) == 0x1_0000_0000
    ensures Pow256(6) == 0x1_0000_0000_0000 && Pow256(8) == 0x1_0000_0000_0000_0000
  {
    assert Pow256(2) == 256 * Pow256(1) == 0x1_0000;
    assert Pow256(4) == 256 * Pow256(3) == 0x1_0000 * Pow256(2);
    assert Pow256(6) == 256 * Pow256(5) == 0x1_0000 * Pow256(4);
    assert Pow256(8) == 256 * Pow256(7) == 0x1_0000 * Pow256(6);
  }

  lemma ReadBack16(x: int)
    ensures Value(BigEndian(2, x)) == x % 0x1_0000
  {
    var lost := ReadBack(2, x);
    WordSizes();
    Residue16(x, lost, Value(BigEndian(2, x)));
  }

  lemma ReadBack32(x: int)
    ensures Value(BigEndian(4, x)) == x % 0x1_0000_0000
  {
    var lost := ReadBack(4, x);
    WordSizes();
    Residue32(x, lost, Value(BigEndian(4, x)));
  }

  lemma ReadBack48(x: int)
    ensures Value(BigEndian(6, x)) == x % 0x1_0000_0000_0000
  {
    var lost := ReadBack(6, x);
    WordSizes();
    Residue48(x, lost, Value(BigEndian(6, x)));
  }

  lemma ReadBack64(x: int)
    ensures Value(BigEndian(8, x)) == x % 0x1_0000_0000_0000_0000
  {
    var lost := ReadBack(8, x);
    WordSizes();
    Residue64(x, lost, Value(BigEndian(8, x)));
  }

  lemma Residue16(x: int, q: int, r: nat)
    requires x == q * 0x1_0000 + r && r < 0x1_0000
    ensures x % 0x1_0000 == r
  {
  }

  lemma Residue32(x: int, q: int, r: nat)
    requires x == q * 0x1_0000_0000 + r && r < 0x1_0000_0000
    ensures x % 0x1_0000_0000 == r
  {
  }

  lemma Residue48(x: int, q: int, r: nat)
    requires x == q * 0x1_0000_0000_0000 + r && r < 0x1_0000_0000_0000
    ensures x % 0x1_0000_0000_0000 == r
  {
  }

  lemma Residue64(x: int, q: int, r: nat)
    requires x == q * 0x1_0000_0000_0000_0000 + r && r < 0x1_0000_0000_0000_0000
    ensures x % 0x1_0000_0000_0000_0000 == r
  {
  }

  /** The first two bytes of a value whose leading byte is known bound the value they spell. */
  lemma ValueOfTwo(s: seq<Byte>)
    requires |s| == 2
    ensures Value(s) == 256 * (s[0] as int) + s[1]
  {
    assert s[..1][..0] == [];
    assert Value(s[..1]) == s[0];
  }
}
