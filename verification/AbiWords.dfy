/** Elementary ABI values survive packing into a word and reading back. */
module AbiWords {
  import opened Bytes
  import opened Abi
  import Wrappers
  import opened AbiUnpack

  // ----- arithmetic of words -----

  lemma {:induction false} Pow256Sum(a: nat, b: nat)
    ensures Pow256(a + b) == Pow256(a) * Pow256(b)
  {
    if a > 0 {
      Pow256Sum(a - 1, b);
      assert 256 * (Pow256(a - 1) * Pow256(b)) == (256 * Pow256(a - 1)) * Pow256(b);
    }
  }

  lemma MultipleGrows(x: int, m: int)
    requires m > 0
    ensures x >= 1 ==> x * m >= m
    ensures x <= -1 ==> x * m <= -m
  {
  }

  lemma ModUnique(n: int, m: nat, q: int, r: nat)
    requires m > 0 && n == q * m + r && r < m
    ensures n % m == r
  {
    var q', r' := n / m, n % m;
    assert n == q' * m + r';
    assert (q - q') * m == r' - r;
    MultipleGrows(q - q', m);
  }

  lemma ModOfMultiple(n: int, a: nat, b: nat)
    requires a > 0 && b > 0
    ensures a * b > 0 && n % (a * b) % a == n % a
  {
    var m := a * b;
    var q, r := n / m, n % m;
    var q2, r2 := r / a, r % a;
    assert n == q * m + r && r == q2 * a + r2;
    assert q * m == (q * b) * a;
    assert n == (q * b + q2) * a + r2 by {
      assert (q * b + q2) * a == (q * b) * a + q2 * a;
    }
    ModUnique(n, a, q * b + q2, r2);
  }

  /** The low bytes of a fixed-width number are its fixed-width form in fewer bytes. */
  lemma {:induction false} FixedSuffix(n: nat, k: nat, j: nat)
    requires j <= k
    ensures Fixed(n, k)[k - j..] == Fixed(n, j)
  {
    if j > 0 {
      FixedSuffix(n / 256, k - 1, j - 1);
    }
  }

  lemma ModStep(n: nat, m: nat, c: nat, p: nat)
    requires n == m * 256 + c && c < 256 && p > 0
    ensures n % (256 * p) == (m % p) * 256 + c
  {
    var q, r := m / p, m % p;
    assert m == q * p + r;
    assert n == q * (256 * p) + (r * 256 + c);
    ModUnique(n, 256 * p, q, r * 256 + c);
  }

  lemma {:induction false} NumberOfFixedMod(n: nat, k: nat)
    ensures Number(Fixed(n, k)) == n % Pow256(k)
  {
    if k > 0 {
      NumberOfFixedMod(n / 256, k - 1);
      assert Fixed(n, k)[..k - 1] == Fixed(n / 256, k - 1);
      ModStep(n, n / 256, n % 256, Pow256(k - 1));
    }
  }

  /** The low k bytes of a packed number hold it modulo 256^k. */
  lemma LowBytes(n: int, k: nat)
    requires 1 <= k <= 32
    ensures Number(PackNum(n)[32 - k..]) == n % Pow256(k)
  {
    var m := n % Pow256(32);
    FixedSuffix(m, 32, k);
    NumberOfFixedMod(m, k);
    Pow256Sum(k, 32 - k);
    ModOfMultiple(n, Pow256(k), Pow256(32 - k));
  }

  lemma PackNumWhole(n: nat)
    requires n < UINT64_LIMIT
    ensures Number(PackNum(n)) == n && Number(PackNum(n)[24..]) == n
  {
    Pow256Of8();
    Pow256Monotone(8, 32);
    LowBytes(n, 32);
    LowBytes(n, 8);
    assert PackNum(n)[0..] == PackNum(n);
    SmallMod(n, Pow256(8));
    SmallMod(n, Pow256(32));
  }

  /** Multiples and sums of whole words are whole words. */
  lemma WholeWords(n: nat, size: nat)
    requires size % 32 == 0
    ensures (n * size) % 32 == 0
  {
    assert n * size == (n * (size / 32)) * 32;
  }

  lemma WholeSum(a: nat, b: nat)
    requires a % 32 == 0 && b % 32 == 0
    ensures (a + b) % 32 == 0
  {
  }

  lemma SmallMod(n: nat, m: nat)
    requires n < m
    ensures n % m == n
  {
  }

  // ----- integers -----

  /** The range of the integers that a type holds: the width of its machine integer, or 256 bits. */
  function HeldBits(bits: nat): (h: nat)
    ensures h > 0
  {
    if IsMachineInt(bits) then bits else 256
  }

  lemma HeldBytes(bits: nat)
    ensures var k := if IsMachineInt(bits) then bits / 8 else 32;
            1 <= k <= 32 && HeldBits(bits) == 8 * k && Pow2(HeldBits(bits)) == Pow256(k)
            && Pow256(k) == 2 * Pow2(HeldBits(bits) - 1)
  {
    Pow2Bytes(if IsMachineInt(bits) then bits / 8 else 32);
  }

  /** An unsigned integer comes back exactly when it is in the range that the type holds. */
  lemma UintRoundTrip(bits: nat, n: int)
    ensures ReadInteger(bits, false, PackNum(n)) == n <==> 0 <= n < Pow2(HeldBits(bits))
  {
    hide Pow256, Pow2, PackNum;
    var k := if IsMachineInt(bits) then bits / 8 else 32;
    HeldBytes(bits);
    LowBytes(n, k);
    ModRange(n, Pow256(k));
  }

  lemma ModRange(n: int, m: nat)
    requires m > 0
    ensures n % m == n <==> 0 <= n < m
    ensures 0 <= n % m < m
  {
  }

  /** A signed integer comes back exactly when it is in the range that the type holds. */
  lemma IntRoundTrip(bits: nat, n: int)
    ensures ReadInteger(bits, true, PackNum(n)) == n <==> InIntRange(HeldBits(bits), n)
  {
    hide Pow256, Pow2, PackNum;
    var k := if IsMachineInt(bits) then bits / 8 else 32;
    HeldBytes(bits);
    LowBytes(n, k);
    var m, half := Pow256(k), Pow2(HeldBits(bits) - 1);
    assert m / 2 == half;
    if -half <= n < 0 {
      ModUnique(n, m, -1, n + m);
    } else if 0 <= n < half {
      SmallMod(n, m);
    } else {
      ModRange(n, m);
    }
  }

  /** What is read of any word: the number in the type's range that agrees with the word modulo the range. */
  lemma IntegerExact(bits: nat, signed: bool, word: seq<byte>)
    requires |word| == 32
    ensures ReadInteger(bits, signed, word) % Pow2(HeldBits(bits)) == Number(word) % Pow2(HeldBits(bits))
    ensures var r := ReadInteger(bits, signed, word);
            if signed then InIntRange(HeldBits(bits), r) else 0 <= r < Pow2(HeldBits(bits))
  {
    hide Pow256, Pow2, Number;
    var k := if IsMachineInt(bits) then bits / 8 else 32;
    HeldBytes(bits);
    var m, low, high := Pow256(k), Number(word[32 - k..]), Number(word[..32 - k]);
    NumberBound(word[32 - k..]);
    NumberConcat(word[..32 - k], word[32 - k..]);
    assert word == word[..32 - k] + word[32 - k..];
    ModUnique(Number(word), m, high, low);
    SmallMod(low, m);
    ModUnique(low as int - m, m, -1, low);
  }

  // ----- the other elementary types -----

  /** Only the words of the numbers zero and one are booleans. */
  lemma BoolExact(word: seq<byte>)
    requires |word| == 32
    ensures ReadBool(word) == if Number(word) == 0 then Ok(Boolean(false))
                              else if Number(word) == 1 then Ok(Boolean(true)) else Err
  {
    hide Number;
    NumberConcat(word[..31], word[31..]);
    assert word == word[..31] + word[31..];
    ZeroNumber(word[..31]);
    assert Pow256(1) == 256;
    assert word[31..] == [word[31]];
    assert forall i :: 0 <= i < 31 ==> word[..31][i] == word[i];
  }

  lemma {:induction false} ZeroNumber(b: seq<byte>)
    ensures Number(b) == 0 <==> Wrappers.Only(b, 0)
  {
    if b != [] {
      var n := |b| - 1;
      assert b == b[..n] + [b[n]];
      ZeroNumber(b[..n]);
    }
  }

  /** A word is read as a function exactly when it ends with eight zeros. */
  lemma FunctionExact(word: seq<byte>)
    requires |word| == 32
    ensures ReadFunctionType(word) == if Wrappers.Only(word[24..], 0) then Ok(Data(word[..24])) else Err
  {
    ZeroNumber(word[24..]);
  }

  lemma BoolRoundTrip(b: bool)
    ensures ReadBool(PackNum(if b then 1 else 0)) == Ok(Boolean(b))
  {
    hide Fixed, Pow256;
    var n := if b then 1 else 0;
    BytesFit();
    SmallMod(n, Pow256(32));
    SmallFixed(n, 32);
  }

  lemma BytesFit()
    ensures Pow256(32) >= 256
  {
    Pow256Monotone(1, 32);
  }

  lemma {:induction false} SmallFixed(n: nat, k: nat)
    requires n < 256 && k >= 1
    ensures Fixed(n, k)[k - 1] == n
    ensures forall i :: 0 <= i < k - 1 ==> Fixed(n, k)[i] == 0
  {
    if k > 1 {
      SmallFixed(0, k - 1);
    }
  }

  lemma {:induction false} NumberOfZeros(n: nat)
    ensures Number(Wrappers.Copies<byte>(0, n)) == 0
  {
    if n > 0 {
      NumberOfZeros(n - 1);
      assert Wrappers.Copies<byte>(0, n)[..n - 1] == Wrappers.Copies<byte>(0, n - 1);
    }
  }

  lemma FunctionRoundTrip(b: seq<byte>)
    requires |b| == 24
    ensures ReadFunctionType(RightPad(b, 32)) == Ok(Data(b))
  {
    NumberOfZeros(8);
    assert RightPad(b, 32)[24..] == Wrappers.Copies<byte>(0, 8);
    assert RightPad(b, 32)[..24] == b;
  }
}
