/** Single bits of bytes, and bit vectors stored most significant bit first. */
module Bits {
  import opened Bytes

  /** 1 << k */
  function Mask(k: nat): bv8
    requires k < 8
  {
    match k
    case 0 => 1
    case 1 => 2
    case 2 => 4
    case 3 => 8
    case 4 => 16
    case 5 => 32
    case 6 => 64
    case _ => 128
  }

  lemma MaskIsShift(k: nat)
    requires k < 8
    ensures Mask(k) == (1 as bv8) << k
  {
  }

  predicate Bit(b: bv8, k: nat)
    requires k < 8
  {
    b & Mask(k) != 0
  }

  lemma BitOfZero(k: nat)
    requires k < 8
    ensures !Bit(0, k) && Bit(0xFF, k)
  {
  }

  lemma SetBit(b: bv8, k: nat, j: nat)
    requires k < 8 && j < 8
    ensures Bit(b | Mask(k), j) <==> j == k || Bit(b, j)
  {
  }

  lemma AndBit(a: bv8, b: bv8, k: nat)
    requires k < 8
    ensures Bit(a & b, k) <==> Bit(a, k) && Bit(b, k)
  {
  }

  lemma OrBit(a: bv8, b: bv8, k: nat)
    requires k < 8
    ensures Bit(a | b, k) <==> Bit(a, k) || Bit(b, k)
  {
  }

  /** A byte is determined by its bits. */
  lemma SameBits(a: bv8, b: bv8)
    requires forall k: nat :: k < 8 ==> Bit(a, k) == Bit(b, k)
    ensures a == b
  {
    assert Bit(a, 0) == Bit(b, 0) && Bit(a, 1) == Bit(b, 1) && Bit(a, 2) == Bit(b, 2) && Bit(a, 3) == Bit(b, 3);
    assert Bit(a, 4) == Bit(b, 4) && Bit(a, 5) == Bit(b, 5) && Bit(a, 6) == Bit(b, 6) && Bit(a, 7) == Bit(b, 7);
  }

  lemma NoBits(a: bv8)
    ensures a == 0 <==> forall k: nat :: k < 8 ==> !Bit(a, k)
  {
    if forall k: nat :: k < 8 ==> !Bit(a, k) {
      forall k: nat | k < 8
        ensures Bit(a, k) == Bit(0, k)
      {
        BitOfZero(k);
      }
      SameBits(a, 0);
    }
  }

  /** Bit i of a vector whose first bit is the most significant bit of its first byte. */
  predicate VectorBit(v: seq<bv8>, i: nat)
    requires i < 8 * |v|
  {
    Bit(v[i / 8], 7 - i % 8)
  }

  /** Vectors with the same bits are the same. */
  lemma SameVector(a: seq<bv8>, b: seq<bv8>)
    requires |a| == |b|
    requires forall i: nat :: i < 8 * |a| ==> VectorBit(a, i) == VectorBit(b, i)
    ensures a == b
  {
    forall j | 0 <= j < |a|
      ensures a[j] == b[j]
    {
      forall k: nat | k < 8
        ensures Bit(a[j], k) == Bit(b[j], k)
      {
        VectorIndex(j, k);
        assert VectorBit(a, 8 * j + (7 - k)) == VectorBit(b, 8 * j + (7 - k));
      }
      SameBits(a[j], b[j]);
    }
  }

  lemma VectorIndex(j: nat, k: nat)
    requires k < 8
    ensures (8 * j + (7 - k)) / 8 == j && 7 - (8 * j + (7 - k)) % 8 == k
  {
  }

  // ----- vectors as numbers -----

  /** The value of a byte: the sum of the powers of two of its bits. */
  function Value(b: bv8): byte {
    (if b & 1 != 0 then 1 else 0) + (if b & 2 != 0 then 2 else 0) + (if b & 4 != 0 then 4 else 0)
    + (if b & 8 != 0 then 8 else 0) + (if b & 16 != 0 then 16 else 0) + (if b & 32 != 0 then 32 else 0)
    + (if b & 64 != 0 then 64 else 0) + (if b & 128 != 0 then 128 else 0)
  }

  function Values(v: seq<bv8>): (b: seq<byte>)
    ensures |b| == |v|
  {
    seq(|v|, j requires 0 <= j < |v| => Value(v[j]))
  }

  /** The number whose binary digits are the given ones, the lowest first. */
  function BinaryNumber(bits: seq<bool>): nat {
    if bits == [] then 0
    else
      var n := |bits| - 1;
      BinaryNumber(bits[..n]) + if bits[n] then Pow2(n) else 0
  }

  lemma {:induction false} Pow2Split(j: nat, k: nat)
    ensures Pow2(8 * j + k) == Pow256(j) * Pow2(k)
    decreases k
  {
    if k > 0 {
      Pow2Split(j, k - 1);
      assert Pow256(j) * (2 * Pow2(k - 1)) == 2 * (Pow256(j) * Pow2(k - 1));
    } else {
      Pow2Bytes(j);
    }
  }

  /** The highest digit. */
  lemma TopDigit(bits: seq<bool>, j: nat, k: nat)
    requires |bits| > 8 * j + k
    ensures BinaryNumber(bits[..8 * j + k + 1])
         == BinaryNumber(bits[..8 * j + k]) + if bits[8 * j + k] then Pow256(j) * Pow2(k) else 0
  {
    var n := 8 * j + k;
    assert bits[..n + 1][..n] == bits[..n];
    Pow2Split(j, k);
  }

  lemma SmallPowers()
    ensures Pow2(0) == 1 && Pow2(1) == 2 && Pow2(2) == 4 && Pow2(3) == 8
    ensures Pow2(4) == 16 && Pow2(5) == 32 && Pow2(6) == 64 && Pow2(7) == 128
  {
    assert Pow2(3) == 8;
    assert Pow2(6) == 64;
  }

  /** Eight digits more make a byte more. */
  lemma TopByte(bits: seq<bool>, j: nat, b: bv8)
    requires |bits| == 8 * j + 8 && forall k: nat :: k < 8 ==> bits[8 * j + k] == Bit(b, k)
    ensures BinaryNumber(bits) == BinaryNumber(bits[..8 * j]) + Pow256(j) * Value(b)
  {
    hide BinaryNumber, Pow2, Pow256;
    SmallPowers();
    TopDigit(bits, j, 0);
    TopDigit(bits, j, 1);
    TopDigit(bits, j, 2);
    TopDigit(bits, j, 3);
    TopDigit(bits, j, 4);
    TopDigit(bits, j, 5);
    TopDigit(bits, j, 6);
    TopDigit(bits, j, 7);
    assert bits[..8 * j + 8] == bits;
    ByteSum(Pow256(j), b, bits[8 * j..]);
  }

  lemma ByteSum(p: nat, b: bv8, bits: seq<bool>)
    requires |bits| == 8 && forall k: nat :: k < 8 ==> bits[k] == Bit(b, k)
    ensures p * Value(b)
         == (if bits[0] then p * 1 else 0) + (if bits[1] then p * 2 else 0) + (if bits[2] then p * 4 else 0)
            + (if bits[3] then p * 8 else 0) + (if bits[4] then p * 16 else 0) + (if bits[5] then p * 32 else 0)
            + (if bits[6] then p * 64 else 0) + (if bits[7] then p * 128 else 0)
  {
    hide Value, Bit;
    ValueOfBits(b, bits);
    WeightedSum(p, bits);
  }

  lemma ValueOfBits(b: bv8, c: seq<bool>)
    requires |c| == 8 && forall k: nat :: k < 8 ==> c[k] == Bit(b, k)
    ensures Value(b)
         == (if c[0] then 1 else 0) + (if c[1] then 2 else 0) + (if c[2] then 4 else 0) + (if c[3] then 8 else 0)
            + (if c[4] then 16 else 0) + (if c[5] then 32 else 0) + (if c[6] then 64 else 0)
            + (if c[7] then 128 else 0)
  {
    assert c[0] == (b & 1 != 0) && c[1] == (b & 2 != 0) && c[2] == (b & 4 != 0) && c[3] == (b & 8 != 0);
    assert c[4] == (b & 16 != 0) && c[5] == (b & 32 != 0) && c[6] == (b & 64 != 0) && c[7] == (b & 128 != 0);
  }

  lemma WeightedSum(p: nat, c: seq<bool>)
    requires |c| == 8
    ensures p * ((if c[0] then 1 else 0) + (if c[1] then 2 else 0) + (if c[2] then 4 else 0) + (if c[3] then 8 else 0)
                 + (if c[4] then 16 else 0) + (if c[5] then 32 else 0) + (if c[6] then 64 else 0)
                 + (if c[7] then 128 else 0))
         == (if c[0] then p * 1 else 0) + (if c[1] then p * 2 else 0) + (if c[2] then p * 4 else 0)
            + (if c[3] then p * 8 else 0) + (if c[4] then p * 16 else 0) + (if c[5] then p * 32 else 0)
            + (if c[6] then p * 64 else 0) + (if c[7] then p * 128 else 0)
  {
    var x := (if c[0] then 1 else 0) + (if c[1] then 2 else 0) + (if c[2] then 4 else 0) + (if c[3] then 8 else 0);
    var y := (if c[4] then 16 else 0) + (if c[5] then 32 else 0) + (if c[6] then 64 else 0)
             + (if c[7] then 128 else 0);
    assert p * (x + y) == p * x + p * y;
  }

  /** The digits are those of the vector, the last byte's first. */
  ghost predicate DigitsOf(v: seq<bv8>, bits: seq<bool>) {
    |bits| == 8 * |v| && forall i: nat :: i < |bits| ==> bits[i] == Bit(v[|v| - 1 - i / 8], i % 8)
  }

  lemma DigitsSplit(v: seq<bv8>, bits: seq<bool>, n: nat)
    requires DigitsOf(v, bits) && |v| == n + 1
    ensures DigitsOf(v[1..], bits[..8 * n])
    ensures forall k: nat :: k < 8 ==> bits[8 * n + k] == Bit(v[0], k)
  {
    hide Bit;
    forall i: nat | i < 8 * n
      ensures bits[..8 * n][i] == Bit(v[1..][n - 1 - i / 8], i % 8)
    {
      assert bits[i] == Bit(v[|v| - 1 - i / 8], i % 8);
    }
    forall k: nat | k < 8
      ensures bits[8 * n + k] == Bit(v[0], k)
    {
      InByte(n, k);
      var i := 8 * n + k;
      assert bits[i] == Bit(v[|v| - 1 - i / 8], i % 8);
    }
  }

  lemma InByte(n: nat, k: nat)
    requires k < 8
    ensures (8 * n + k) / 8 == n && (8 * n + k) % 8 == k
  {
  }

  /** The binary digits of the number that a vector denotes, most significant byte first. */
  lemma {:induction false} NumberBits(v: seq<bv8>, bits: seq<bool>)
    requires DigitsOf(v, bits)
    ensures Number(Values(v)) == BinaryNumber(bits)
  {
    hide Bit, Value, BinaryNumber, Number, Pow256;
    if v == [] {
      NoDigits();
      assert bits == [] && Values(v) == [];
    } else {
      var n := |v| - 1;
      DigitsSplit(v, bits, n);
      NumberBits(v[1..], bits[..8 * n]);
      TopByte(bits, n, v[0]);
      assert Values(v) == [Value(v[0])] + Values(v[1..]);
      NumberConcat([Value(v[0])], Values(v[1..]));
      NumberConcat([], [Value(v[0])]);
    }
  }

  lemma NoDigits()
    ensures BinaryNumber([]) == 0 && Number([]) == 0
  {
  }

  /** A vector is a number written in binary, the first bit being the highest. */
  lemma VectorIsNumber(v: seq<bv8>, bits: seq<bool>)
    requires |bits| == 8 * |v| && forall i: nat :: i < |bits| ==> bits[i] == VectorBit(v, |bits| - 1 - i)
    ensures Number(Values(v)) == BinaryNumber(bits)
  {
    hide Bit, BinaryNumber, Number;
    forall i: nat | i < |bits|
      ensures bits[i] == Bit(v[|v| - 1 - i / 8], i % 8)
    {
      FromTop(|v|, i);
      assert bits[i] == VectorBit(v, |bits| - 1 - i);
    }
    NumberBits(v, bits);
  }

  lemma FromTop(n: nat, i: nat)
    requires i < 8 * n
    ensures (8 * n - 1 - i) / 8 == n - 1 - i / 8 && 7 - (8 * n - 1 - i) % 8 == i % 8
  {
  }
}
