/** Bytes and big-endian numbers, shared by the RLP and the contract ABI models. */
module Bytes {

  type byte = b: int | 0 <= b < 256

  const UINT64_LIMIT: nat := 0x1_0000_0000_0000_0000

  function Min(a: nat, b: nat): nat {
    if a <= b then a else b
  }

  lemma Assoc<T>(a: seq<T>, b: seq<T>, c: seq<T>)
    ensures (a + b) + c == a + (b + c)
  {
  }

  /** 256 to the power k. */
  function Pow256(k: nat): (p: nat)
    ensures p > 0
  {
    if k == 0 then 1 else 256 * Pow256(k - 1)
  }

  lemma Pow256Of8()
    ensures Pow256(8) == UINT64_LIMIT
  {
    assert Pow256(4) == 0x1_0000_0000;
    assert Pow256(8) == 256 * 256 * 256 * 256 * Pow256(4);
  }

  lemma {:induction false} Pow256Monotone(j: nat, k: nat)
    requires j <= k
    ensures Pow256(j) <= Pow256(k)
    decreases k
  {
    if j < k {
      Pow256Monotone(j, k - 1);
    }
  }

  function Pow2(k: nat): (p: nat)
    ensures p > 0
  {
    if k == 0 then 1 else 2 * Pow2(k - 1)
  }

  lemma {:induction false} Pow2Bytes(k: nat)
    ensures Pow2(8 * k) == Pow256(k)
  {
    if k > 0 {
      Pow2Bytes(k - 1);
      var j := 8 * k;
      assert Pow2(j) == 2 * Pow2(j - 1) && Pow2(j - 1) == 2 * Pow2(j - 2);
      assert Pow2(j - 2) == 2 * Pow2(j - 3) && Pow2(j - 3) == 2 * Pow2(j - 4);
      assert Pow2(j - 4) == 2 * Pow2(j - 5) && Pow2(j - 5) == 2 * Pow2(j - 6);
      assert Pow2(j - 6) == 2 * Pow2(j - 7) && Pow2(j - 7) == 2 * Pow2(j - 8);
    }
  }

  /** The number that a byte string denotes, most significant byte first. */
  function Number(b: seq<byte>): nat {
    if b == [] then 0 else Number(b[..|b| - 1]) * 256 + b[|b| - 1]
  }

  /** The bytes in front count 256 times for every byte behind them; a byte on its own is its value. */
  lemma {:induction false} NumberConcat(a: seq<byte>, b: seq<byte>)
    ensures Number(a + b) == Number(a) * Pow256(|b|) + Number(b)
    ensures |b| == 1 ==> Number(b) == b[0]
  {
    if b == [] {
      assert a + b == a;
    } else {
      var front := b[..|b| - 1];
      NumberConcat(a, front);
      assert (a + b)[..|a + b| - 1] == a + front;
      Shifted(Number(a), Pow256(|front|), Number(front));
    }
  }

  lemma Shifted(n: nat, p: nat, m: nat)
    ensures (n * p + m) * 256 == n * (256 * p) + m * 256
  {
  }

  /** The k low bytes of n, most significant byte first. */
  function Fixed(n: nat, k: nat): (b: seq<byte>)
    ensures |b| == k
  {
    if k == 0 then [] else Fixed(n / 256, k - 1) + [n % 256]
  }

  /** The shortest big-endian form of n; zero still takes one byte. */
  function BigEndian(n: nat): (b: seq<byte>)
    ensures |b| >= 1
  {
    if n < 256 then [n] else BigEndian(n / 256) + [n % 256]
  }

  lemma {:induction false} NumberBound(b: seq<byte>)
    ensures Number(b) < Pow256(|b|)
  {
    if b != [] {
      NumberBound(b[..|b| - 1]);
    }
  }

  lemma {:induction false} NumberOfBigEndian(n: nat)
    ensures Number(BigEndian(n)) == n
  {
    if n >= 256 {
      NumberOfBigEndian(n / 256);
      assert BigEndian(n)[..|BigEndian(n)| - 1] == BigEndian(n / 256);
    }
  }

  /** A byte string is the shortest form of its number exactly when it has no leading zero byte. */
  lemma {:induction false} BigEndianOfNumber(b: seq<byte>)
    requires |b| >= 1
    ensures BigEndian(Number(b)) == b <==> |b| == 1 || b[0] != 0
  {
    var front, last := b[..|b| - 1], b[|b| - 1];
    assert b == front + [last];
    if |b| > 1 {
      BigEndianOfNumber(front);
      if b[0] == 0 {
        NumberBound(b[1..]);
        NumberDropLeadingZero(b);
        BigEndianLength(Number(b), |b| - 1);
      } else {
        LeadingByteNonZero(front);
        assert Number(b) / 256 == Number(front);
        if |front| == 1 {
          assert BigEndian(Number(front)) == front;
        }
      }
    }
  }

  lemma {:induction false} LeadingByteNonZero(b: seq<byte>)
    requires |b| >= 1 && b[0] != 0
    ensures Number(b) >= Pow256(|b| - 1)
  {
    if |b| > 1 {
      LeadingByteNonZero(b[..|b| - 1]);
    }
  }

  lemma {:induction false} NumberDropLeadingZero(b: seq<byte>)
    requires |b| >= 1 && b[0] == 0
    ensures Number(b) == Number(b[1..])
  {
    if |b| > 1 {
      NumberDropLeadingZero(b[..|b| - 1]);
      assert b[1..][..|b| - 2] == b[..|b| - 1][1..];
    }
  }

  /** n fits into k bytes exactly when its shortest form is that short. */
  lemma {:induction false} BigEndianLength(n: nat, k: nat)
    requires k >= 1
    ensures |BigEndian(n)| <= k <==> n < Pow256(k)
  {
    if n >= 256 && k > 1 {
      BigEndianLength(n / 256, k - 1);
    } else if n < 256 {
      Pow256Monotone(1, k);
    }
  }

  lemma BigEndianLengthUint64(n: nat)
    requires n < UINT64_LIMIT
    ensures |BigEndian(n)| <= 8
  {
    Pow256Of8();
    BigEndianLength(n, 8);
  }

  /** The shortest form starts with a zero byte only for the number zero. */
  lemma {:induction false} BigEndianHead(n: nat)
    requires n > 0
    ensures BigEndian(n)[0] != 0
  {
    if n >= 256 {
      BigEndianHead(n / 256);
    }
  }
}
