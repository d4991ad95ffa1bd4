// The ring's checksum, CRC-32 with the Castagnoli polynomial, bit by bit. It tells
// apart payloads that differ in their last byte only, so a payload that Append cuts
// to 32 bits of length is, for all last bytes but at most one, stored broken.
module Crc32 {
  import opened Bytes
  import opened RingLayout
  import opened SharedRing

  const POLYNOMIAL: nat := 0x82F6_3B78
  const ONES: nat := 0xFFFF_FFFF

  function Pow2(n: nat): (r: nat)
    ensures r >= 1
  {
    if n == 0 then 1 else 2 * Pow2(n - 1)
  }

  lemma {:induction false} Pow2IsPow256(k: nat)
    ensures Pow2(8 * k) == Pow256(k)
  {
    if k > 0 {
      Pow2IsPow256(k - 1);
      var n := 8 * (k - 1);
      assert Pow2(n + 2) == 4 * Pow2(n);
      assert Pow2(n + 4) == 16 * Pow2(n);
      assert Pow2(n + 6) == 64 * Pow2(n);
      assert Pow2(n + 8) == 256 * Pow2(n);
    }
  }

  lemma WordSize()
    ensures Pow2(8) == 256 && Pow2(32) == TWO_32 && Pow2(31) == TWO_32 / 2
  {
    PowFacts();
    Pow2IsPow256(1);
    Pow2IsPow256(4);
  }

  /** Bitwise exclusive or of n-bit numbers. */
  function Xor(a: nat, b: nat, n: nat): (r: nat)
    requires a < Pow2(n) && b < Pow2(n)
    ensures r < Pow2(n)
  {
    if n == 0 then 0 else 2 * Xor(a / 2, b / 2, n - 1) + (if a % 2 == b % 2 then 0 else 1)
  }

  lemma {:induction false} XorTwice(a: nat, b: nat, n: nat)
    requires a < Pow2(n) && b < Pow2(n)
    ensures Xor(Xor(a, b, n), b, n) == a
  {
    if n > 0 {
      XorTwice(a / 2, b / 2, n - 1);
    }
  }

  lemma {:induction false} XorCommutes(a: nat, b: nat, n: nat)
    requires a < Pow2(n) && b < Pow2(n)
    ensures Xor(a, b, n) == Xor(b, a, n)
  {
    if n > 0 {
      XorCommutes(a / 2, b / 2, n - 1);
    }
  }

  lemma {:induction false} XorTop(a: nat, b: nat, n: nat)
    requires n > 0 && a < Pow2(n - 1) <= b < Pow2(n)
    ensures Xor(a, b, n) >= Pow2(n - 1)
  {
    if n > 1 {
      XorTop(a / 2, b / 2, n - 1);
    }
  }

  function Shift(x: u32): u32 {
    WordSize();
    if x % 2 == 0 then x / 2 else Xor(x / 2, POLYNOMIAL, 32)
  }

  /** No two words shift to the same one: the polynomial's top bit tells which case. */
  lemma ShiftInjective(x: u32, y: u32)
    requires Shift(x) == Shift(y)
    ensures x == y
  {
    hide Xor;
    WordSize();
    if x % 2 == 1 {
      XorTop(x / 2, POLYNOMIAL, 32);
      XorTwice(x / 2, POLYNOMIAL, 32);
    }
    if y % 2 == 1 {
      XorTop(y / 2, POLYNOMIAL, 32);
      XorTwice(y / 2, POLYNOMIAL, 32);
    }
  }

  function Shifts(x: u32, n: nat): u32 {
    if n == 0 then x else Shift(Shifts(x, n - 1))
  }

  lemma {:induction false} ShiftsInjective(x: u32, y: u32, n: nat)
    requires Shifts(x, n) == Shifts(y, n)
    ensures x == y
  {
    hide Shift;
    if n > 0 {
      ShiftInjective(Shifts(x, n - 1), Shifts(y, n - 1));
      ShiftsInjective(x, y, n - 1);
    }
  }

  function Update(register: u32, b: byte): u32 {
    WordSize();
    Shifts(Xor(register, b, 32), 8)
  }

  function Register(p: Payload): u32 {
    if p == [] then ONES else Update(Register(p[..|p| - 1]), p[|p| - 1])
  }

  function Castagnoli(p: Payload): u32 {
    ONES - Register(p)
  }

  /** A change of the last byte alone is always noticed. */
  lemma LastByteMatters(p: Payload, b: byte, c: byte)
    requires Castagnoli(p + [b]) == Castagnoli(p + [c])
    ensures b == c
  {
    hide Xor, Shifts;
    WordSize();
    assert (p + [b])[..|p|] == p && (p + [c])[..|p|] == p;
    var r := Register(p);
    ShiftsInjective(Xor(r, b, 32), Xor(r, c, 32), 8);
    XorCommutes(r, b, 32);
    XorCommutes(r, c, 32);
    XorTwice(b, r, 32);
    XorTwice(c, r, 32);
  }

  /** Of any two payloads of 2^32 bytes or more that differ in the last byte only, at
      least one is stored with a checksum that its cut bytes fail. */
  lemma CutPoisons(p: Payload, b: byte, c: byte)
    requires |p| + 1 >= TWO_32 && b != c
    ensures || Castagnoli(p + [b]) != Castagnoli(Cut(p + [b]))
            || Castagnoli(p + [c]) != Castagnoli(Cut(p + [c]))
  {
    hide Castagnoli;
    var n := (|p| + 1) % TWO_32;
    assert Cut(p + [b]) == p[..n] == Cut(p + [c]);
    if Castagnoli(p + [b]) == Castagnoli(p + [c]) {
      LastByteMatters(p, b, c);
    }
  }
}
