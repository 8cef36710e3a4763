/** Bitwise exclusive-or, the only arithmetic the frame checksum uses, and
    the byte type shared by the host and the firmware. XOR is defined once,
    bit by bit on naturals; Python's `^` on (possibly negative) ints and the
    firmware's `uint8_t ^=` are both expressed through it. */
module Bits {

  type Byte = x: int | 0 <= x < 256

  predicate IsByte(x: int) { 0 <= x < 256 }

  predicate AllBytes(s: seq<int>) { forall i :: 0 <= i < |s| ==> IsByte(s[i]) }

  function Pow2(n: nat): (r: nat)
    ensures r >= 1
  {
    if n == 0 then 1 else 2 * Pow2(n - 1)
  }

  /** The powers the byte fields use. */
  lemma Pow2Bytes()
    ensures Pow2(0) == 1 && Pow2(8) == 0x100 && Pow2(16) == 0x1_0000 && Pow2(24) == 0x100_0000
  {
    assert Pow2(4) == 16;
    assert Pow2(8) == 16 * Pow2(4);
    assert Pow2(12) == 16 * Pow2(8);
    assert Pow2(16) == 16 * Pow2(12);
    assert Pow2(20) == 16 * Pow2(16);
    assert Pow2(24) == 16 * Pow2(20);
  }

  /** Bitwise XOR of two naturals. */
  function XorNat(a: nat, b: nat): nat
    decreases a + b
  {
    if a == 0 then b
    else if b == 0 then a
    else 2 * XorNat(a / 2, b / 2) + (if a % 2 == b % 2 then 0 else 1)
  }

  /** Python's `a ^ b` on ints, negatives in two's complement
      (`~x == -x - 1`, `a ^ b == ~(~a ^ b)`, `~a ^ ~b == a ^ b`). */
  function PyXor(a: int, b: int): int {
    if a >= 0 && b >= 0 then XorNat(a, b)
    else if a < 0 && b < 0 then XorNat(-a - 1, -b - 1)
    else if a < 0 then -(XorNat(-a - 1, b) as int) - 1
    else -(XorNat(a, -b - 1) as int) - 1
  }

  /** The low bit of a XOR is the XOR of the low bits; the rest is the XOR
      of the rest. */
  lemma XorNatUnfold(a: nat, b: nat)
    ensures XorNat(a, b) == 2 * XorNat(a / 2, b / 2) + (if a % 2 == b % 2 then 0 else 1)
  {
  }

  lemma {:induction false} XorNatZero(a: nat)
    ensures XorNat(a, 0) == a && XorNat(0, a) == a
  {
  }

  /** XOR-ing the same value twice restores the original. */
  lemma {:induction false} XorNatCancel(a: nat, b: nat)
    ensures XorNat(XorNat(a, b), b) == a
    decreases a + b
  {
    if a != 0 || b != 0 {
      var c := XorNat(a, b);
      XorNatUnfold(a, b);
      XorNatUnfold(c, b);
      assert c / 2 == XorNat(a / 2, b / 2);
      XorNatCancel(a / 2, b / 2);
    }
  }

  lemma {:induction false} XorNatComm(a: nat, b: nat)
    ensures XorNat(a, b) == XorNat(b, a)
    decreases a + b
  {
    if a != 0 && b != 0 {
      XorNatComm(a / 2, b / 2);
    }
  }

  /** XOR with a fixed value is one-to-one, on either side. */
  lemma XorNatInjective(x: nat, a: nat, b: nat)
    ensures XorNat(a, x) == XorNat(b, x) ==> a == b
    ensures XorNat(x, a) == XorNat(x, b) ==> a == b
  {
    XorNatCancel(a, x);
    XorNatCancel(b, x);
    XorNatComm(x, a);
    XorNatComm(x, b);
  }

  /** XOR never sets a bit above the highest bit of its operands. */
  lemma {:induction false} XorNatBelow(a: nat, b: nat, n: nat)
    requires a < Pow2(n) && b < Pow2(n)
    ensures XorNat(a, b) < Pow2(n)
  {
    if n > 0 && a != 0 && b != 0 {
      XorNatBelow(a / 2, b / 2, n - 1);
    }
  }

  /** The XOR of two bytes is a byte. */
  lemma XorByte(a: Byte, b: Byte)
    ensures IsByte(XorNat(a, b))
  {
    assert Pow2(8) == 256;
    XorNatBelow(a, b, 8);
  }

  /** `acc ^ s[0] ^ s[1] ^ ... ^ s[|s|-1]`, folded from the left. */
  function XorFold(acc: int, s: seq<int>): int
    decreases |s|
  {
    if s == [] then acc else PyXor(XorFold(acc, s[..|s| - 1]), s[|s| - 1])
  }

  /** Folding bytes into a byte gives a byte. */
  lemma {:induction false} XorFoldByte(acc: int, s: seq<int>)
    requires IsByte(acc) && AllBytes(s)
    ensures IsByte(XorFold(acc, s))
    decreases |s|
  {
    if s != [] {
      XorFoldByte(acc, s[..|s| - 1]);
      XorByte(XorFold(acc, s[..|s| - 1]), s[|s| - 1]);
    }
  }

  /** Different starting values fold, over the same bytes, to different
      results. */
  lemma {:induction false} XorFoldAccInjective(a1: int, a2: int, s: seq<int>)
    requires IsByte(a1) && IsByte(a2) && AllBytes(s) && a1 != a2
    ensures XorFold(a1, s) != XorFold(a2, s)
    decreases |s|
  {
    if s != [] {
      var init := s[..|s| - 1];
      XorFoldAccInjective(a1, a2, init);
      XorFoldByte(a1, init);
      XorFoldByte(a2, init);
      XorNatInjective(s[|s| - 1], XorFold(a1, init), XorFold(a2, init));
    }
  }

  /** Replacing any one byte of the folded sequence by a different byte
      changes the result. */
  lemma {:induction false} XorFoldChanged(acc: int, s: seq<int>, k: nat, v: int)
    requires IsByte(acc) && AllBytes(s) && k < |s| && IsByte(v) && v != s[k]
    ensures XorFold(acc, s[k := v]) != XorFold(acc, s)
    decreases |s|
  {
    var t := s[k := v];
    var init, tinit := s[..|s| - 1], t[..|t| - 1];
    XorFoldByte(acc, init);
    XorFoldByte(acc, tinit);
    if k == |s| - 1 {
      assert tinit == init;
      XorNatInjective(XorFold(acc, init), v, s[k]);
    } else {
      assert tinit == init[k := v];
      XorFoldChanged(acc, init, k, v);
      XorNatInjective(s[|s| - 1], XorFold(acc, tinit), XorFold(acc, init));
    }
  }

  // ---------------------------------------------------------------------
  // OR, AND, NOT and shifts

  /** Bitwise OR of two naturals. */
  function OrNat(a: nat, b: nat): nat
    decreases a + b
  {
    if a == 0 then b
    else if b == 0 then a
    else 2 * OrNat(a / 2, b / 2) + (if a % 2 == 1 || b % 2 == 1 then 1 else 0)
  }

  /** Bitwise AND of two naturals. */
  function AndNat(a: nat, b: nat): nat
    decreases a + b
  {
    if a == 0 || b == 0 then 0
    else 2 * AndNat(a / 2, b / 2) + (if a % 2 == 1 && b % 2 == 1 then 1 else 0)
  }

  /** AND does not depend on the order of its operands. */
  lemma {:induction false} AndNatCommutes(a: nat, b: nat)
    ensures AndNat(a, b) == AndNat(b, a)
    decreases a + b
  {
    if a != 0 && b != 0 {
      AndNatCommutes(a / 2, b / 2);
    }
  }

  /** `~x` on two's-complement integers (C `int`, Python `int`). */
  function BitNot(x: int): int {
    -x - 1
  }

  /** `a & b` on two's-complement integers, through `a & b == ~(~a | ~b)`
      and `a & ~n == a - (a & n)`. */
  function AndInt(a: int, b: int): int {
    if a >= 0 && b >= 0 then AndNat(a, b)
    else if a < 0 && b < 0 then BitNot(OrNat(BitNot(a), BitNot(b)))
    else if a < 0 then b - AndNat(b, BitNot(a))
    else a - AndNat(a, BitNot(b))
  }

  /** Euclidean division is unique. */
  lemma DivModUnique(a: int, d: int, q: int, r: int)
    requires d > 0 && 0 <= r < d && a == q * d + r
    ensures a % d == r
  {
    var x := q - a / d;
    assert x * d == a % d - r;
  }

  lemma ModTwice(a: nat, p: nat)
    requires p > 0
    ensures a % (2 * p) == 2 * ((a / 2) % p) + a % 2
  {
    var q, r := (a / 2) / p, (a / 2) % p;
    assert a / 2 == q * p + r;
    assert a == q * (2 * p) + (2 * r + a % 2);
    DivModUnique(a, 2 * p, q, 2 * r + a % 2);
  }

  /** `(a << k) | b` is `a * 2^k + b` when `b` fits in the low `k` bits. */
  lemma {:induction false} OrShift(a: nat, b: nat, k: nat)
    requires b < Pow2(k)
    ensures OrNat(a * Pow2(k), b) == a * Pow2(k) + b
    decreases k
  {
    if k > 0 && a != 0 && b != 0 {
      assert a * Pow2(k) == 2 * (a * Pow2(k - 1));
      OrShift(a, b / 2, k - 1);
    }
  }

  /** `a & (2^n - 1)` keeps the low `n` bits: `a % 2^n`. */
  lemma AndLowMask(a: nat, n: nat)
    ensures AndNat(a, Pow2(n) - 1) == a % Pow2(n)
  {
    OnesIsMask(n);
    AndOnes(a, n);
    LowBitsMod(a, n);
  }

  /** The mask of `n` one bits, built bit by bit. */
  function Ones(n: nat): nat {
    if n == 0 then 0 else 2 * Ones(n - 1) + 1
  }

  /** The low `n` bits of `a`, built bit by bit. */
  function LowBits(a: nat, n: nat): nat {
    if n == 0 || a == 0 then 0 else 2 * LowBits(a / 2, n - 1) + a % 2
  }

  lemma {:induction false} OnesIsMask(n: nat)
    ensures Ones(n) == Pow2(n) - 1
  {
    if n > 0 {
      OnesIsMask(n - 1);
    }
  }

  lemma {:induction false} AndOnes(a: nat, n: nat)
    ensures AndNat(a, Ones(n)) == LowBits(a, n)
  {
    if n > 0 && a != 0 {
      AndOnes(a / 2, n - 1);
      AndOddMask(a, Ones(n - 1));
    }
  }

  lemma {:induction false} LowBitsMod(a: nat, n: nat)
    ensures LowBits(a, n) == a % Pow2(n)
  {
    if n > 0 && a != 0 {
      LowBitsMod(a / 2, n - 1);
      ModTwice(a, Pow2(n - 1));
    }
  }

  /** One step of `a & (2h + 1)`: the low bit of `a` is kept. */
  lemma AndOddMask(a: nat, h: nat)
    requires a != 0
    ensures AndNat(a, 2 * h + 1) == 2 * AndNat(a / 2, h) + a % 2
  {
    assert (2 * h + 1) % 2 == 1 && (2 * h + 1) / 2 == h;
  }
}
