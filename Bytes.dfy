/** Byte strings, AES-sized blocks and the byte-wise XOR used by both key derivation and CBC. */
module Bytes {

  /** One element of a Python `bytes` value. */
  newtype byte = x: int | 0 <= x < 256

  /** Python's `^` on non-negative integers, bit by bit from the least significant. */
  function XorNat(a: nat, b: nat): nat
    decreases a + b
  {
    if a == 0 then b
    else if b == 0 then a
    else 2 * XorNat(a / 2, b / 2) + (if a % 2 == b % 2 then 0 else 1)
  }

  /** The lowest bit of `a ^ b` is the parity of `a + b`: set exactly when the operands' lowest bits differ. */
  lemma XorNatParity(a: nat, b: nat)
    ensures XorNat(a, b) % 2 == (a + b) % 2
  {
    if a != 0 && b != 0 {
      var h := XorNat(a / 2, b / 2);
      var bit := if a % 2 == b % 2 then 0 else 1;
      assert XorNat(a, b) == 2 * h + bit;
      LowBit(h, bit);
      SumParity(a, b);
    }
  }

  lemma LowBit(h: nat, bit: nat)
    requires bit < 2
    ensures (2 * h + bit) % 2 == bit
  {
  }

  lemma SumParity(a: nat, b: nat)
    ensures (a + b) % 2 == if a % 2 == b % 2 then 0 else 1
  {
  }

  /** `^` on two bytes; the result is again a byte, zero exactly for equal operands, and symmetric. */
  function Xor(a: byte, b: byte): (r: byte)
    ensures r == 0 <==> a == b
    ensures r as nat == XorNat(b as nat, a as nat)
  {
    XorNatBound(a as nat, b as nat, 8);
    XorNatCommutes(a as nat, b as nat);
    XorNatSelf(a as nat);
    var x := XorNat(a as nat, b as nat);
    assert x == 0 ==> a == b by {
      if x == 0 { XorNatZero(a as nat, b as nat); }
    }
    x as byte
  }

  function Pow2(k: nat): nat
  {
    if k == 0 then 1 else 2 * Pow2(k - 1)
  }

  /** XOR never sets a bit above the operands' highest one. */
  lemma {:induction false} XorNatBound(a: nat, b: nat, k: nat)
    requires a < Pow2(k) && b < Pow2(k)
    ensures XorNat(a, b) < Pow2(k)
    decreases k
  {
    if a != 0 && b != 0 {
      XorNatBound(a / 2, b / 2, k - 1);
    }
  }

  lemma {:induction false} XorNatSelf(a: nat)
    ensures XorNat(a, a) == 0
    decreases a
  {
    if a != 0 {
      XorNatSelf(a / 2);
    }
  }

  lemma {:induction false} XorNatZero(a: nat, b: nat)
    requires XorNat(a, b) == 0
    ensures a == b
    decreases a + b
  {
    if a != 0 && b != 0 {
      XorNatZero(a / 2, b / 2);
    }
  }

  lemma {:induction false} XorNatCommutes(a: nat, b: nat)
    ensures XorNat(a, b) == XorNat(b, a)
    decreases a + b
  {
    if a != 0 && b != 0 {
      XorNatCommutes(a / 2, b / 2);
    }
  }

  /** XOR-ing twice with the same value gives back the other operand. */
  lemma {:induction false} XorNatCancel(a: nat, b: nat)
    ensures XorNat(XorNat(a, b), b) == a
    decreases a + b
  {
    if a == 0 {
      XorNatSelf(b);
    } else if b != 0 {
      var h := XorNat(a / 2, b / 2);
      var bit := if a % 2 == b % 2 then 0 else 1;
      var c := XorNat(a, b);
      assert c == 2 * h + bit;
      if c == 0 {
        XorNatZero(a / 2, b / 2);
      } else {
        assert c / 2 == h && c % 2 == bit;
        XorNatCancel(a / 2, b / 2);
        assert XorNat(c, b) == 2 * XorNat(h, b / 2) + (if bit == b % 2 then 0 else 1);
      }
    }
  }

  lemma XorCancel(a: byte, b: byte)
    ensures Xor(Xor(a, b), b) == a
    ensures Xor(Xor(a, b), a) == b
  {
    XorNatCancel(a as nat, b as nat);
    XorNatCommutes(a as nat, b as nat);
    XorNatCancel(b as nat, a as nat);
  }

  /** A 16-byte block, the unit the AES block function works on. */
  type Block = s: seq<byte> | |s| == 16 witness [0, 0, 0, 0, 0, 0, 0, 0, 0, 0, 0, 0, 0, 0, 0, 0]

  function Min(a: int, b: int): int
  {
    if a <= b then a else b
  }

  /** `x ^ y` for each pair `zip(a, b)` yields: `zip` stops at the end of the shorter input. */
  function XorBytes(a: seq<byte>, b: seq<byte>): (r: seq<byte>)
    ensures |r| == Min(|a|, |b|)
    ensures forall i :: 0 <= i < |r| ==> r[i] == Xor(a[i], b[i])
  {
    seq(Min(|a|, |b|), i requires 0 <= i < Min(|a|, |b|) => Xor(a[i], b[i]))
  }

  /** XOR-ing with the same bytes twice gives back the other operand, up to the shorter length. */
  lemma XorBytesCancel(a: seq<byte>, b: seq<byte>)
    ensures XorBytes(XorBytes(a, b), b) == a[..Min(|a|, |b|)]
    ensures XorBytes(XorBytes(a, b), a) == b[..Min(|a|, |b|)]
  {
    forall i | 0 <= i < Min(|a|, |b|) {
      XorCancel(a[i], b[i]);
    }
  }
}
