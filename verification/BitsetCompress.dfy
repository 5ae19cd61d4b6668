/**
  Sparse bitset compression: a byte string is the bitset of its non-zero bytes, compressed in the same way,
  followed by those bytes. The codec is canonical in both directions.
  */
module BitsetCompress {
  import opened Bits
  import Bytes
  import opened Wrappers

  datatype Error = MissingData | UnreferencedData | ExceededTarget | ZeroContent

  // ----- compression -----

  function NonZeroBytes(data: seq<bv8>): seq<bv8> {
    if data == [] then []
    else if data[0] != 0 then [data[0]] + NonZeroBytes(data[1..])
    else NonZeroBytes(data[1..])
  }

  function Flag(data: seq<bv8>, i: nat, mask: bv8): bv8 {
    if i < |data| && data[i] != 0 then mask else 0
  }

  function FlagByte(data: seq<bv8>, i: nat): bv8 {
    Flag(data, i, 128) | Flag(data, i + 1, 64) | Flag(data, i + 2, 32) | Flag(data, i + 3, 16)
    | Flag(data, i + 4, 8) | Flag(data, i + 5, 4) | Flag(data, i + 6, 2) | Flag(data, i + 7, 1)
  }

  /** One bit for each byte, most significant bit first, set for the bytes that are not zero. */
  function NonZeroBitset(data: seq<bv8>): (bits: seq<bv8>)
    ensures |bits| == (|data| + 7) / 8
  {
    seq((|data| + 7) / 8, j requires 0 <= j => FlagByte(data, 8 * j))
  }

  lemma FlagByteBit(data: seq<bv8>, i: nat, r: nat)
    requires r < 8
    ensures Bit(FlagByte(data, i), 7 - r) <==> i + r < |data| && data[i + r] != 0
  {
  }

  lemma NonZeroBitsetBit(data: seq<bv8>, i: nat)
    requires i < 8 * |NonZeroBitset(data)|
    ensures VectorBit(NonZeroBitset(data), i) <==> i < |data| && data[i] != 0
  {
    FlagByteBit(data, 8 * (i / 8), i % 8);
  }

  /** The compressed form as the package documents it. */
  function Encode(data: seq<bv8>): seq<bv8>
    decreases |data|
  {
    if |data| == 0 then []
    else if |data| == 1 then (if data[0] == 0 then [] else data)
    else if NonZeroBytes(data) == [] then []
    else Encode(NonZeroBitset(data)) + NonZeroBytes(data)
  }

  lemma {:induction false} NonZeroBytesAppend(data: seq<bv8>, b: bv8)
    ensures NonZeroBytes(data + [b]) == NonZeroBytes(data) + (if b != 0 then [b] else [])
  {
    if data == [] {
      assert data + [b] == [b] && [b][1..] == [];
    } else {
      assert (data + [b])[1..] == data[1..] + [b];
      NonZeroBytesAppend(data[1..], b);
    }
  }

  lemma {:induction false} NonZeroBytesConcat(a: seq<bv8>, b: seq<bv8>)
    ensures NonZeroBytes(a + b) == NonZeroBytes(a) + NonZeroBytes(b)
  {
    if a == [] {
      assert a + b == b;
    } else {
      assert (a + b)[1..] == a[1..] + b;
      NonZeroBytesConcat(a[1..], b);
    }
  }

  /** The bytes that are not zero, in the same order: each stands behind those in front of it. */
  lemma NonZeroBytesAt(data: seq<bv8>, i: nat)
    requires i < |data| && data[i] != 0
    ensures var k := |NonZeroBytes(data[..i])|;
            k < |NonZeroBytes(data)| && NonZeroBytes(data)[k] == data[i]
    ensures forall b :: b in NonZeroBytes(data) ==> b != 0
  {
    assert data == data[..i] + data[i..];
    NonZeroBytesConcat(data[..i], data[i..]);
    AllNonZero(data);
  }

  lemma {:induction false} AllNonZero(data: seq<bv8>)
    ensures forall b :: b in NonZeroBytes(data) ==> b != 0
  {
    if data != [] {
      AllNonZero(data[1..]);
    }
  }

  /** Of the bytes 00 05 00 07, the second and the fourth are marked from the top: 50, and then 05 07. */
  lemma EncodeExample()
    ensures Encode([0, 5, 0, 7]) == [0x50, 5, 7]
  {
    NonZeroBytesAppend([], 0);
    NonZeroBytesAppend([0], 5);
    NonZeroBytesAppend([0, 5], 0);
    NonZeroBytesAppend([0, 5, 0], 7);
    assert [] + [0] == [0] && [0] + [5] == [0, 5] && [0, 5] + [0] == [0, 5, 0] && [0, 5, 0] + [7] == [0, 5, 0, 7];
    assert NonZeroBytes([0, 5, 0, 7]) == [5, 7];
    assert NonZeroBitset([0, 5, 0, 7]) == [0x50];
    assert Encode([0x50]) == [0x50];
  }

  /** The encoder of the source: one pass that fills the bitset and gathers the non-zero bytes. */
  method BitsetEncodeBytes(data: seq<bv8>) returns (out: seq<bv8>)
    ensures out == Encode(data)
    decreases |data|
  {
    if |data| == 0 {
      return [];
    }
    if |data| == 1 {
      return if data[0] == 0 then [] else data;
    }
    var nonZeroBitset := new bv8[(|data| + 7) / 8](_ => 0);
    var nonZeroBytes: seq<bv8> := [];
    forall k: nat | k < 8
      ensures !Bit(0, k)
    {
      BitOfZero(k);
    }
    for i := 0 to |data|
      invariant nonZeroBytes == NonZeroBytes(data[..i])
      invariant forall k: nat :: k < 8 * nonZeroBitset.Length ==>
                  (VectorBit(nonZeroBitset[..], k) <==> k < i && data[k] != 0)
    {
      assert data[..i + 1] == data[..i] + [data[i]];
      NonZeroBytesAppend(data[..i], data[i]);
      if data[i] != 0 {
        nonZeroBytes := nonZeroBytes + [data[i]];
        MarkByte(nonZeroBitset, i);
      }
    }
    assert data[..|data|] == data;
    if |nonZeroBytes| == 0 {
      return [];
    }
    var bitset := nonZeroBitset[..];
    forall k: nat | k < 8 * |bitset|
      ensures VectorBit(bitset, k) == VectorBit(NonZeroBitset(data), k)
    {
      NonZeroBitsetBit(data, k);
    }
    SameVector(bitset, NonZeroBitset(data));
    var head := BitsetEncodeBytes(bitset);
    return head + nonZeroBytes;
  }

  /** nonZeroBitset[i/8] |= 1 << (7 - i%8) */
  method MarkByte(bitset: array<bv8>, i: nat)
    requires i < 8 * bitset.Length
    modifies bitset
    ensures forall k: nat :: k < 8 * bitset.Length ==>
              (VectorBit(bitset[..], k) <==> k == i || VectorBit(old(bitset[..]), k))
  {
    ghost var before := bitset[..];
    bitset[i / 8] := bitset[i / 8] | Mask(7 - i % 8);
    forall k: nat | k < 8 * bitset.Length
      ensures VectorBit(bitset[..], k) <==> k == i || VectorBit(before, k)
    {
      if k / 8 == i / 8 {
        SetBit(before[i / 8], 7 - i % 8, 7 - k % 8);
      }
    }
  }

  // ----- decompression -----

  datatype Partial = Partial(out: seq<bv8>, size: nat)

  function Max0(n: int): nat {
    if n < 0 then 0 else n
  }

  /** Distributes the bytes of `data` from `ptr` on to the places that the bitset marks, from place i on. */
  function Distribute(bitset: seq<bv8>, data: seq<bv8>, i: nat, ptr: nat, target: nat): (r: Result<Partial, Error>)
    requires i <= 8 * |bitset| && target <= 8 * |bitset|
    ensures r.Ok? ==> |r.value.out| == Max0(target - i)
    decreases 8 * |bitset| - i
  {
    if i == 8 * |bitset| then Ok(Partial([], ptr))
    else if VectorBit(bitset, i) then
      if ptr >= |data| then Err(MissingData)
      else if i >= target then Err(ExceededTarget)
      else if data[ptr] == 0 then Err(ZeroContent)
      else
        match Distribute(bitset, data, i + 1, ptr + 1, target)
        case Err(e) => Err(e)
        case Ok(p) => Ok(Partial([data[ptr]] + p.out, p.size))
    else
      match Distribute(bitset, data, i + 1, ptr, target)
      case Err(e) => Err(e)
      case Ok(p) => Ok(Partial((if i < target then [0] else []) + p.out, p.size))
  }

  /** Decompresses a prefix of data; the measure of the recursion is the target, which becomes (target+7)/8. */
  function DecodePartial(data: seq<bv8>, target: nat): (r: Result<Partial, Error>)
    ensures r.Ok? ==> |r.value.out| == target
    decreases target
  {
    if target == 0 then Ok(Partial([], 0))
    else if |data| == 0 then Ok(Partial(Copies<bv8>(0, target), 0))
    else if target == 1 then Ok(Partial([data[0]], if data[0] != 0 then 1 else 0))
    else
      match DecodePartial(data, (target + 7) / 8)
      case Err(e) => Err(e)
      case Ok(p) => Distribute(p.out, data, 0, p.size, target)
  }

  function DecodeBytes(data: seq<bv8>, target: nat): Result<seq<bv8>, Error> {
    match DecodePartial(data, target)
    case Err(e) => Err(e)
    case Ok(p) => if p.size != |data| then Err(UnreferencedData) else Ok(p.out)
  }

  /** How many places the bitset marks from i up to k. */
  function Marks(bitset: seq<bv8>, i: nat, k: nat): nat
    requires i <= k <= 8 * |bitset|
    decreases k - i
  {
    if i == k then 0 else B(VectorBit(bitset, i)) + Marks(bitset, i + 1, k)
  }

  /** What is wrong with place k: no byte left for it, no room for it, or a zero byte. */
  function Fault(bitset: seq<bv8>, data: seq<bv8>, i: nat, ptr: nat, target: nat, k: nat): Option<Error>
    requires i <= k < 8 * |bitset|
  {
    var at := ptr + Marks(bitset, i, k);
    if !VectorBit(bitset, k) then None
    else if at >= |data| then Some(MissingData)
    else if k >= target then Some(ExceededTarget)
    else if data[at] == 0 then Some(ZeroContent)
    else None
  }

  /** Place k is the first one with a fault. */
  ghost predicate FirstFault(bitset: seq<bv8>, data: seq<bv8>, i: nat, ptr: nat, target: nat, k: nat, e: Error) {
    && i <= k < 8 * |bitset| && Fault(bitset, data, i, ptr, target, k) == Some(e)
    && forall l :: i <= l < k ==> Fault(bitset, data, i, ptr, target, l) == None
  }

  /** Distribution fails with the fault of the first place that has one, and succeeds exactly when none has. */
  lemma {:induction false} DistributeFaults(bitset: seq<bv8>, data: seq<bv8>, i: nat, ptr: nat, target: nat)
    requires i <= 8 * |bitset| && target <= 8 * |bitset|
    ensures var r := Distribute(bitset, data, i, ptr, target);
            if r.Ok? then forall k :: i <= k < 8 * |bitset| ==> Fault(bitset, data, i, ptr, target, k) == None
            else exists k: nat :: FirstFault(bitset, data, i, ptr, target, k, r.error)
    decreases 8 * |bitset| - i
  {
    hide VectorBit;
    if i < 8 * |bitset| {
      var r := Distribute(bitset, data, i, ptr, target);
      if Fault(bitset, data, i, ptr, target, i) == None {
        var next := if VectorBit(bitset, i) then ptr + 1 else ptr;
        DistributeFaults(bitset, data, i + 1, next, target);
        assert forall k :: i + 1 <= k < 8 * |bitset| ==>
            Fault(bitset, data, i, ptr, target, k) == Fault(bitset, data, i + 1, next, target, k);
        if r.Err? {
          assert r.error == Distribute(bitset, data, i + 1, next, target).error;
          var k: nat :| FirstFault(bitset, data, i + 1, next, target, k, r.error);
          assert FirstFault(bitset, data, i, ptr, target, k, r.error);
        }
      } else {
        assert FirstFault(bitset, data, i, ptr, target, i, r.error);
      }
    }
  }

  /** The loop of the source, which writes into a zeroed buffer and advances `ptr`. */
  method DistributeLoop(bitset: seq<bv8>, data: seq<bv8>, start: nat, target: nat) returns (r: Result<Partial, Error>)
    requires target <= 8 * |bitset|
    ensures r == Distribute(bitset, data, 0, start, target)
  {
    var decomp := new bv8[target](_ => 0);
    var ptr: nat := start;
    hide VectorBit;
    assert forall p: Partial :: decomp[..0] + p.out == p.out;
    for i := 0 to 8 * |bitset|
      invariant forall k :: i <= k < target ==> decomp[k] == 0
      invariant Distribute(bitset, data, 0, start, target) ==
                (match Distribute(bitset, data, i, ptr, target)
                 case Err(e) => Err(e)
                 case Ok(p) => Ok(Partial(decomp[..if i < target then i else target] + p.out, p.size)))
    {
      ghost var done := decomp[..if i < target then i else target];
      ghost var rest := Distribute(bitset, data, i, ptr, target);
      if VectorBit(bitset, i) {
        if ptr >= |data| {
          return Err(MissingData);
        }
        if i >= target {
          return Err(ExceededTarget);
        }
        if data[ptr] == 0 {
          return Err(ZeroContent);
        }
        decomp[i] := data[ptr];
        assert decomp[..i + 1] == done + [data[ptr]];
        ptr := ptr + 1;
      } else if i < target {
        assert decomp[..i + 1] == done + [0];
      }
      ghost var next := Distribute(bitset, data, i + 1, ptr, target);
      if next.Ok? {
        ghost var step := rest.value.out[..|rest.value.out| - |next.value.out|];
        Bytes.Assoc(done, step, next.value.out);
        assert rest.value.out == step + next.value.out;
      }
    }
    assert decomp[..target] + [] == decomp[..];
    return Ok(Partial(decomp[..], ptr));
  }

  method BitsetDecodePartialBytes(data: seq<bv8>, target: nat) returns (r: Result<Partial, Error>)
    ensures r == DecodePartial(data, target)
    decreases target
  {
    if target == 0 {
      return Ok(Partial([], 0));
    }
    if |data| == 0 {
      return Ok(Partial(Copies<bv8>(0, target), 0));
    }
    if target == 1 {
      return Ok(Partial([data[0]], if data[0] != 0 then 1 else 0));
    }
    var bitset := BitsetDecodePartialBytes(data, (target + 7) / 8);
    if bitset.Err? {
      return bitset;
    }
    r := DistributeLoop(bitset.value.out, data, bitset.value.size, target);
  }

  // ----- decoding inverts encoding -----

  lemma {:induction false} NoNonZeroBytes(data: seq<bv8>)
    ensures NonZeroBytes(data) == [] <==> Only(data, 0)
  {
    if data != [] {
      NoNonZeroBytes(data[1..]);
      if Only(data[1..], 0) && data[0] == 0 {
        forall i | 0 <= i < |data|
          ensures data[i] == 0
        {
          assert i > 0 ==> data[i] == data[1..][i - 1];
        }
      }
    }
  }

  /** The bitset of a byte string is zero exactly when the byte string is. */
  lemma BitsetAllZero(data: seq<bv8>)
    ensures Only(NonZeroBitset(data), 0) <==> Only(data, 0)
  {
    var bits := NonZeroBitset(data);
    if Only(bits, 0) {
      forall i | 0 <= i < |data|
        ensures data[i] == 0
      {
        NonZeroBitsetBit(data, i);
        BitOfZero(7 - i % 8);
      }
    }
    if Only(data, 0) {
      forall j | 0 <= j < |bits|
        ensures bits[j] == 0
      {
        forall k: nat | k < 8
          ensures !Bit(bits[j], k)
        {
          VectorIndex(j, k);
          NonZeroBitsetBit(data, 8 * j + (7 - k));
        }
        NoBits(bits[j]);
      }
    }
  }

  lemma {:induction false} DistributeEncoded(d: seq<bv8>, data: seq<bv8>, i: nat, ptr: nat)
    requires i <= 8 * |NonZeroBitset(d)|
    requires i <= |d| ==> NonZeroBytes(d[i..]) <= data[if ptr <= |data| then ptr else |data|..] && ptr <= |data|
    ensures Distribute(NonZeroBitset(d), data, i, ptr, |d|)
         == Ok(if i <= |d| then Partial(d[i..], ptr + |NonZeroBytes(d[i..])|) else Partial([], ptr))
    decreases 8 * |NonZeroBitset(d)| - i
  {
    hide NonZeroBitset, VectorBit, NonZeroBytes;
    if i < 8 * |NonZeroBitset(d)| {
      NonZeroBitsetBit(d, i);
      if i < |d| {
        NonZeroFrom(d, i);
        if d[i] != 0 {
          assert data[ptr] == d[i] && data[ptr..][1..] == data[ptr + 1..];
          DistributeEncoded(d, data, i + 1, ptr + 1);
        } else {
          DistributeEncoded(d, data, i + 1, ptr);
        }
      } else {
        DistributeEncoded(d, data, i + 1, ptr);
        if i == |d| {
          NonZeroEnd(d);
        }
      }
    } else {
      BitsetCovers(d);
      if i == |d| {
        NonZeroEnd(d);
      }
    }
  }

  lemma NonZeroFrom(d: seq<bv8>, i: nat)
    requires i < |d|
    ensures d[i..] == [d[i]] + d[i + 1..]
    ensures NonZeroBytes(d[i..]) == (if d[i] != 0 then [d[i]] else []) + NonZeroBytes(d[i + 1..])
  {
    assert d[i..][1..] == d[i + 1..];
  }

  lemma NonZeroEnd(d: seq<bv8>)
    ensures d[|d|..] == [] && NonZeroBytes(d[|d|..]) == []
  {
  }

  lemma BitsetCovers(d: seq<bv8>)
    ensures |d| <= 8 * |NonZeroBitset(d)|
  {
  }

  /** The encoding of a byte string that is not all zero is found again, whatever follows it. */
  lemma {:induction false} DecodeEncoded(d: seq<bv8>, rest: seq<bv8>)
    requires !Only(d, 0)
    ensures DecodePartial(Encode(d) + rest, |d|) == Ok(Partial(d, |Encode(d)|))
    decreases |d|
  {
    hide NonZeroBitset, Distribute, NonZeroBytes;
    if |d| == 1 {
      assert Encode(d) == d && (d + rest)[0] == d[0];
      assert d == [d[0]];
    } else {
      NoNonZeroBytes(d);
      BitsetAllZero(d);
      BitsetCovers(d);
      var bits, nz := NonZeroBitset(d), NonZeroBytes(d);
      DecodeEncoded(bits, nz + rest);
      Bytes.Assoc(Encode(bits), nz, rest);
      var data := Encode(d) + rest;
      var ptr := |Encode(bits)|;
      assert data[ptr..] == nz + rest;
      assert d[0..] == d;
      DistributeEncoded(d, data, 0, ptr);
    }
  }

  lemma {:induction false} EncodeZeros(d: seq<bv8>)
    requires Only(d, 0)
    ensures Encode(d) == []
  {
    NoNonZeroBytes(d);
  }

  // ----- encoding inverts decoding -----

  /** What was distributed is the sequence of non-zero bytes of the output. */
  lemma {:induction false} DistributedBytes(bitset: seq<bv8>, data: seq<bv8>, i: nat, ptr: nat, target: nat)
    requires i <= 8 * |bitset| && target <= 8 * |bitset| && ptr <= |data|
    requires Distribute(bitset, data, i, ptr, target).Ok?
    ensures var p := Distribute(bitset, data, i, ptr, target).value;
            ptr <= p.size <= |data| && data[ptr..p.size] == NonZeroBytes(p.out)
    decreases 8 * |bitset| - i
  {
    hide VectorBit;
    var p := Distribute(bitset, data, i, ptr, target).value;
    if i == 8 * |bitset| {
    } else if VectorBit(bitset, i) {
      DistributedBytes(bitset, data, i + 1, ptr + 1, target);
      assert data[ptr..p.size] == [data[ptr]] + data[ptr + 1..p.size];
      assert p.out[1..] == Distribute(bitset, data, i + 1, ptr + 1, target).value.out;
    } else {
      DistributedBytes(bitset, data, i + 1, ptr, target);
      if i < target {
        assert p.out[1..] == Distribute(bitset, data, i + 1, ptr, target).value.out;
      }
    }
  }

  /** The bitset marks exactly the places of the non-zero bytes of the output. */
  lemma {:induction false} DistributedPlaces(bitset: seq<bv8>, data: seq<bv8>, i: nat, ptr: nat, target: nat, k: nat)
    requires i <= 8 * |bitset| && target <= 8 * |bitset| && ptr <= |data|
    requires Distribute(bitset, data, i, ptr, target).Ok? && i <= k < 8 * |bitset|
    ensures VectorBit(bitset, k) <==>
            k < target && Distribute(bitset, data, i, ptr, target).value.out[k - i] != 0
    decreases 8 * |bitset| - i
  {
    hide VectorBit;
    if k > i {
      DistributedPlaces(bitset, data, i + 1, if VectorBit(bitset, i) then ptr + 1 else ptr, target, k);
    }
  }

  /** The part of the input that was used is exactly the encoding of the output. */
  lemma {:induction false} DecodeSound(data: seq<bv8>, target: nat)
    requires DecodePartial(data, target).Ok?
    ensures var p := DecodePartial(data, target).value;
            p.size <= |data| && Encode(p.out) == data[..p.size]
    decreases target
  {
    hide NonZeroBitset, Distribute, NonZeroBytes, VectorBit;
    var p := DecodePartial(data, target).value;
    if target == 0 || |data| == 0 {
      EncodeZeros(p.out);
    } else if target > 1 {
      var q := DecodePartial(data, (target + 7) / 8).value;
      DecodeSound(data, (target + 7) / 8);
      DistributedBytes(q.out, data, 0, q.size, target);
      forall k: nat | k < 8 * |q.out|
        ensures VectorBit(q.out, k) <==> k < target && p.out[k] != 0
      {
        DistributedPlaces(q.out, data, 0, q.size, target, k);
      }
      BitsetOf(q.out, p.out);
      NoNonZeroBytes(p.out);
      if Only(p.out, 0) {
        BitsetAllZero(p.out);
        EncodeZeros(q.out);
      } else {
        assert data[..p.size] == data[..q.size] + data[q.size..p.size];
      }
    }
  }

  lemma BitsetOf(bitset: seq<bv8>, out: seq<bv8>)
    requires |bitset| == (|out| + 7) / 8
    requires forall k: nat :: k < 8 * |bitset| ==> (VectorBit(bitset, k) <==> k < |out| && out[k] != 0)
    ensures bitset == NonZeroBitset(out)
  {
    forall k: nat | k < 8 * |bitset|
      ensures VectorBit(bitset, k) == VectorBit(NonZeroBitset(out), k)
    {
      NonZeroBitsetBit(out, k);
    }
    SameVector(bitset, NonZeroBitset(out));
  }

  /** The decoder accepts exactly the encodings of byte strings of the target length, and inverts them. */
  lemma DecodeIsInverse(data: seq<bv8>, d: seq<bv8>)
    ensures DecodeBytes(data, |d|) == Ok(d) <==> Encode(d) == data
    ensures forall t: nat :: DecodeBytes(data, t).Ok? ==> |DecodeBytes(data, t).value| == t
  {
    hide Encode, DecodePartial;
    if DecodeBytes(data, |d|) == Ok(d) {
      DecodeSound(data, |d|);
      assert data[..|data|] == data;
    }
    if Encode(d) == data {
      if Only(d, 0) {
        DecodeNothing(d);
      } else {
        DecodeEncoded(d, []);
        assert Encode(d) + [] == Encode(d);
      }
    }
  }

  lemma DecodeNothing(d: seq<bv8>)
    requires Only(d, 0)
    ensures DecodePartial([], |d|) == Ok(Partial(d, 0)) && Encode(d) == []
  {
    EncodeZeros(d);
    assert d == Copies<bv8>(0, |d|);
  }

  // ----- the public functions -----

  function CompressBytes(data: seq<bv8>): seq<bv8> {
    if |Encode(data)| < |data| then Encode(data) else data
  }

  function DecompressBytes(data: seq<bv8>, target: nat): Result<seq<bv8>, Error> {
    if |data| > target then Err(ExceededTarget)
    else if |data| == target then Ok(data)
    else DecodeBytes(data, target)
  }

  lemma DecompressCompressed(d: seq<bv8>)
    ensures DecompressBytes(CompressBytes(d), |d|) == Ok(d)
  {
    hide Encode, DecodeBytes;
    DecodeIsInverse(Encode(d), d);
  }

  /**
    Decompression accepts uncompressed data even where compression would have shortened it, so an accepted input
    is the compressed form of its output exactly when it is shorter than the target or not compressible.
    */
  lemma CompressDecompressed(data: seq<bv8>, target: nat)
    requires DecompressBytes(data, target).Ok?
    ensures CompressBytes(DecompressBytes(data, target).value) == data
       <==> |data| < target || |Encode(data)| >= |data|
  {
    hide Encode, DecodeBytes;
    var d := DecompressBytes(data, target).value;
    DecodeIsInverse(data, d);
  }

  /** A single zero byte is accepted as it is, and compresses to nothing. */
  lemma ZeroByteAccepted()
    ensures DecompressBytes([0], 1) == Ok([0]) && CompressBytes([0]) == []
  {
    assert Encode([0]) == [];
  }
}
