/**
  The log bloom filter of a block and the rotated bit vectors that index the blooms of many blocks.
  A big integer that is used as a bit set is modelled by the set of its one bits.
  */
module Bloom {
  import opened Bits
  import opened Bytes
  import opened Wrappers

  const BLOOM_BYTES: nat := 256
  const BLOOM_BITS: nat := 2048

  type Bloom = b: seq<bv8> | |b| == BLOOM_BYTES witness seq(BLOOM_BYTES, _ => 0)

  /** A Keccak-256 digest; the hash function itself is a parameter everywhere. */
  type Digest = d: seq<byte> | |d| == 32 witness seq(32, _ => 0)
  type Hash = seq<byte> -> Digest

  // ----- the filter -----

  /** Bit i of the filter seen as a big-endian number. */
  predicate BloomBit(b: Bloom, i: nat)
    requires i < BLOOM_BITS
  {
    Bit(b[BLOOM_BYTES - 1 - i / 8], i % 8)
  }

  /** The filter as a big integer. */
  function Big(b: Bloom): (bits: set<nat>)
    ensures forall i: nat :: i in bits <==> i < BLOOM_BITS && BloomBit(b, i)
  {
    set i: nat | i < BLOOM_BITS && BloomBit(b, i)
  }

  /** The bits of the filter are the binary digits of its bytes, read as one big-endian number. */
  lemma BigIsNumber(b: Bloom, bits: seq<bool>)
    requires |bits| == BLOOM_BITS && forall i: nat :: i < BLOOM_BITS ==> (bits[i] <==> i in Big(b))
    ensures Number(Values(b)) == BinaryNumber(bits)
  {
    hide Bit;
    forall i: nat | i < BLOOM_BITS
      ensures bits[i] == Bit(b[BLOOM_BYTES - 1 - i / 8], i % 8)
    {
      assert bits[i] <==> i in Big(b);
    }
    NumberBits(b, bits);
  }

  function FlagBit(bits: set<nat>, i: nat, mask: bv8): bv8 {
    if i in bits then mask else 0
  }

  function ByteOf(bits: set<nat>, i: nat): bv8 {
    FlagBit(bits, i, 1) | FlagBit(bits, i + 1, 2) | FlagBit(bits, i + 2, 4) | FlagBit(bits, i + 3, 8)
    | FlagBit(bits, i + 4, 16) | FlagBit(bits, i + 5, 32) | FlagBit(bits, i + 6, 64) | FlagBit(bits, i + 7, 128)
  }

  /** The filter with the given one bits, from the bytes of a big integer. */
  function BytesToBloom(bits: set<nat>): Bloom
    requires forall i :: i in bits ==> i < BLOOM_BITS
  {
    seq(BLOOM_BYTES, j requires 0 <= j < BLOOM_BYTES => ByteOf(bits, 8 * (BLOOM_BYTES - 1 - j)))
  }

  lemma ByteOfBit(bits: set<nat>, i: nat, k: nat)
    requires k < 8
    ensures Bit(ByteOf(bits, i), k) <==> i + k in bits
  {
  }

  lemma BytesToBloomBits(bits: set<nat>)
    requires forall i :: i in bits ==> i < BLOOM_BITS
    ensures Big(BytesToBloom(bits)) == bits
  {
    forall i: nat | i < BLOOM_BITS
      ensures BloomBit(BytesToBloom(bits), i) <==> i in bits
    {
      ByteOfBit(bits, 8 * (i / 8), i % 8);
    }
  }

  /** The three bits of a key, as the filter sets them: (low + high << 8) & 2047 of the digest's first byte pairs. */
  method Bloom9(hash: Hash, key: seq<byte>) returns (r: set<nat>)
    ensures r == KeyBits(hash, key)
    ensures r == {Number(hash(key)[0..2]) % 2048, Number(hash(key)[2..4]) % 2048, Number(hash(key)[4..6]) % 2048}
  {
    hide Number;
    ThreeBits(hash, key);
    var b := hash(key);
    r := {};
    var i := 0;
    while i < 6
      invariant 0 <= i <= 6 && i % 2 == 0
      invariant r == set k: nat | k < i / 2 :: KeyBit(b, k)
    {
      var bit: nat := (b[i + 1] + b[i] as int * 256) % 2048;
      assert bit == KeyBit(b, i / 2);
      r := r + {bit};
      i := i + 2;
    }
  }

  function KeyBit(d: Digest, k: nat): (bit: nat)
    requires k < 3
    ensures bit < BLOOM_BITS
  {
    (d[2 * k] as int * 256 + d[2 * k + 1]) % 2048
  }

  function KeyBits(hash: Hash, key: seq<byte>): (bits: set<nat>)
    ensures forall i :: i in bits ==> i < BLOOM_BITS
  {
    set k: nat | k < 3 :: KeyBit(hash(key), k)
  }

  lemma PairBit(d: Digest, k: nat)
    requires k < 3
    ensures KeyBit(d, k) == Number(d[2 * k..2 * k + 2]) % 2048
  {
    var pair := d[2 * k..2 * k + 2];
    assert pair == [d[2 * k]] + [d[2 * k + 1]];
    NumberConcat([d[2 * k]], [d[2 * k + 1]]);
    NumberConcat([], [d[2 * k]]);
  }

  /** The bits of a key are the first three byte pairs of its digest, as big-endian numbers modulo 2048. */
  lemma ThreeBits(hash: Hash, key: seq<byte>)
    ensures KeyBits(hash, key)
         == {Number(hash(key)[0..2]) % 2048, Number(hash(key)[2..4]) % 2048, Number(hash(key)[4..6]) % 2048}
  {
    hide KeyBit, Number;
    PairBit(hash(key), 0);
    PairBit(hash(key), 1);
    PairBit(hash(key), 2);
    assert KeyBits(hash, key) == {KeyBit(hash(key), 0), KeyBit(hash(key), 1), KeyBit(hash(key), 2)};
  }

  /** A digest that starts with the bytes 01 02, FF FF and 08 07 sets the bits 258, 2047 and 7. */
  lemma KeyBitsExample(hash: Hash, key: seq<byte>)
    requires hash(key)[..6] == [0x01, 0x02, 0xFF, 0xFF, 0x08, 0x07]
    ensures KeyBits(hash, key) == {258, 2047, 7}
  {
    var d := hash(key);
    assert d[0] == d[..6][0] && d[1] == d[..6][1] && d[2] == d[..6][2];
    assert d[3] == d[..6][3] && d[4] == d[..6][4] && d[5] == d[..6][5];
    assert KeyBits(hash, key) == {KeyBit(d, 0), KeyBit(d, 1), KeyBit(d, 2)};
  }

  /** Whether the filter may contain the key: all its bits are set. */
  predicate BloomLookup(hash: Hash, b: Bloom, key: seq<byte>) {
    Big(b) * KeyBits(hash, key) == KeyBits(hash, key)
  }

  // ----- filling the filter -----

  datatype Log = Log(address: seq<byte>, topics: seq<seq<byte>>)

  /** The keys of a log: its address and its topics. */
  predicate HasKey(log: Log, key: seq<byte>) {
    key == log.address || key in log.topics
  }

  /** Some key of a log sets the bit. */
  ghost predicate LogTakes(hash: Hash, log: Log, i: nat) {
    exists key :: HasKey(log, key) && i in KeyBits(hash, key)
  }

  /** Some log sets the bit. */
  ghost predicate LogsTake(hash: Hash, logs: seq<Log>, i: nat) {
    exists log :: log in logs && LogTakes(hash, log, i)
  }

  /** Some log of some receipt of a block sets the bit. */
  ghost predicate BitTaken(hash: Hash, receipts: seq<seq<Log>>, i: nat) {
    exists r :: r in receipts && LogsTake(hash, r, i)
  }

  /** Adds the bits of a log's address and topics. */
  method AddLog(hash: Hash, log: Log, before: set<nat>) returns (bin: set<nat>)
    ensures forall i: nat :: i in bin <==> i in before || LogTakes(hash, log, i)
    ensures KeyBits(hash, log.address) <= bin && forall m :: 0 <= m < |log.topics| ==> KeyBits(hash, log.topics[m]) <= bin
  {
    hide KeyBits;
    var a := Bloom9(hash, log.address);
    bin := before + a;
    for m := 0 to |log.topics|
      invariant forall i: nat :: i in bin ==> i in before || LogTakes(hash, log, i)
      invariant before <= bin && KeyBits(hash, log.address) <= bin
      invariant forall k :: 0 <= k < m ==> KeyBits(hash, log.topics[k]) <= bin
    {
      var t := Bloom9(hash, log.topics[m]);
      assert HasKey(log, log.topics[m]);
      bin := bin + t;
    }
  }

  /** The filter of some logs has exactly the bits of their keys. */
  method LogsBloom(hash: Hash, logs: seq<Log>) returns (bin: set<nat>)
    ensures forall i: nat :: i in bin <==> LogsTake(hash, logs, i)
  {
    hide LogTakes;
    bin := {};
    for n := 0 to |logs|
      invariant forall i: nat :: i in bin <==> LogsTake(hash, logs[..n], i)
    {
      bin := AddLog(hash, logs[n], bin);
      assert forall l :: l in logs[..n + 1] <==> l in logs[..n] || l == logs[n];
    }
    assert logs[..|logs|] == logs;
  }

  /** The filter of a block has exactly the bits of the keys of its logs, so that each of them passes. */
  method CreateBloom(hash: Hash, receipts: seq<seq<Log>>) returns (b: Bloom)
    ensures forall i: nat :: i in Big(b) <==> BitTaken(hash, receipts, i)
    ensures forall r, log, key :: r in receipts && log in r && key in [log.address] + log.topics ==>
              BloomLookup(hash, b, key)
  {
    hide KeyBits, LogsTake;
    var bin: set<nat> := {};
    for n := 0 to |receipts|
      invariant forall i: nat :: i in bin <==> BitTaken(hash, receipts[..n], i)
    {
      var logs := LogsBloom(hash, receipts[n]);
      assert forall r :: r in receipts[..n + 1] <==> r in receipts[..n] || r == receipts[n];
      bin := bin + logs;
    }
    assert receipts[..|receipts|] == receipts;
    TakenInRange(hash, receipts);
    b := BytesToBloom(bin);
    BytesToBloomBits(bin);
    assert Big(b) == bin;
    forall r, log, key | r in receipts && log in r && HasKey(log, key)
      ensures BloomLookup(hash, b, key)
    {
      KeyTaken(hash, receipts, r, log, key);
    }
  }

  lemma TakenInRange(hash: Hash, receipts: seq<seq<Log>>)
    ensures forall i: nat :: BitTaken(hash, receipts, i) ==> i < BLOOM_BITS
  {
  }

  lemma KeyTaken(hash: Hash, receipts: seq<seq<Log>>, r: seq<Log>, log: Log, key: seq<byte>)
    requires r in receipts && log in r && HasKey(log, key)
    ensures forall i :: i in KeyBits(hash, key) ==> BitTaken(hash, receipts, i)
  {
    hide KeyBits;
    forall i | i in KeyBits(hash, key)
      ensures BitTaken(hash, receipts, i)
    {
      assert LogTakes(hash, log, i);
    }
  }

  // ----- the rotated index -----

  datatype GeneratorError =
    | SectionsNotMultipleOf8 | SectionOutOfBounds | UnexpectedIndex | NotFullyGenerated | BloomBitOutOfBounds

  /** The vector of one bloom bit over a section: bit s is that bloom bit of the section's block s. */
  ghost predicate Rotated(vector: seq<bv8>, blooms: seq<Bloom>, bit: nat)
    requires bit < BLOOM_BITS
  {
    8 * |vector| == |blooms| && forall s: nat :: s < |blooms| ==> VectorBit(vector, s) == BloomBit(blooms[s], bit)
  }

  /** Collects the blooms of a section of blocks, one by one, into a vector per bloom bit. */
  class Generator {
    const rows: array2<bv8>  // one vector for each bloom bit
    const sections: nat      // number of blooms to batch together
    var nextSec: nat         // next bloom to be added
    ghost var added: seq<Bloom>

    ghost predicate Cell(i: nat, s: nat)
      requires rows.Length0 == BLOOM_BITS && 8 * rows.Length1 == sections && i < BLOOM_BITS && s < sections
      reads rows
    {
      Bit(rows[i, s / 8], 7 - s % 8)
    }

    ghost predicate Valid()
      reads this, rows
    {
      && rows.Length0 == BLOOM_BITS && 8 * rows.Length1 == sections
      && nextSec == |added| <= sections
      && (forall i: nat, s: nat :: i < BLOOM_BITS && s < sections ==>
            (Cell(i, s) <==> s < nextSec && BloomBit(added[s], i)))
    }

    constructor (sections: nat)
      requires sections % 8 == 0
      ensures Valid() && this.sections == sections && added == [] && fresh(rows)
    {
      this.sections := sections;
      rows := new bv8[BLOOM_BITS, sections / 8]((_, _) => 0);
      nextSec := 0;
      added := [];
      new;
      forall i: nat, s: nat | i < BLOOM_BITS && s < sections
        ensures !Cell(i, s)
      {
        BitOfZero(7 - s % 8);
      }
    }

    /** Adds the bloom of the next block: its bits become one column of the vectors. */
    method AddBloom(index: nat, bloom: Bloom) returns (r: Result<(), GeneratorError>)
      requires Valid()
      modifies this, rows
      ensures Valid()
      ensures r == if old(nextSec) >= sections then Err(SectionOutOfBounds)
                   else if old(nextSec) != index then Err(UnexpectedIndex) else Ok(())
      ensures added == if r.Ok? then old(added) + [bloom] else old(added)
    {
      if nextSec >= sections {
        return Err(SectionOutOfBounds);
      }
      if nextSec != index {
        return Err(UnexpectedIndex);
      }
      hide BloomBit;
      for i := 0 to BLOOM_BITS
        invariant Valid0() && nextSec == old(nextSec) && added == old(added)
        invariant forall k: nat, s: nat :: k < BLOOM_BITS && s < sections ==>
                    (Cell(k, s) <==> (s < nextSec && BloomBit(added[s], k))
                                     || (s == nextSec && k < i && BloomBit(bloom, k)))
      {
        ColumnStep(i, bloom);
      }
      nextSec := nextSec + 1;
      added := added + [bloom];
      return Ok(());
    }

    ghost predicate Valid0()
      reads this
    {
      rows.Length0 == BLOOM_BITS && 8 * rows.Length1 == sections && nextSec == |added| < sections
    }

    /** One bit of the bloom: sets the column's bit in the vector of that bloom bit. */
    method ColumnStep(i: nat, bloom: Bloom)
      requires Valid0() && i < BLOOM_BITS
      modifies rows
      ensures forall k: nat, s: nat :: k < BLOOM_BITS && s < sections ==>
                (Cell(k, s) <==> old(Cell(k, s)) || (k == i && s == nextSec && BloomBit(bloom, i)))
    {
      hide Bit, Mask;
      var byteIndex := nextSec / 8;
      var bitMask := Mask(7 - nextSec % 8);
      var bloomByteIndex := BLOOM_BYTES - 1 - i / 8;
      ghost var before := rows[i, byteIndex];
      if Bit(bloom[bloomByteIndex], i % 8) {
        rows[i, byteIndex] := rows[i, byteIndex] | bitMask;
        forall k: nat, s: nat | k < BLOOM_BITS && s < sections
          ensures Cell(k, s) <==> old(Cell(k, s)) || (k == i && s == nextSec)
        {
          if k == i && s / 8 == byteIndex {
            SetBit(before, 7 - nextSec % 8, 7 - s % 8);
          }
        }
      }
    }

    /** The vector of a bloom bit, once all blooms have been added. */
    method Bitset(idx: nat) returns (r: Result<seq<bv8>, GeneratorError>)
      requires Valid()
      ensures r.Err? ==> r.error == if nextSec != sections then NotFullyGenerated else BloomBitOutOfBounds
      ensures r.Ok? <==> nextSec == sections && idx < BLOOM_BITS
      ensures r.Ok? ==> Rotated(r.value, added, idx)
    {
      if nextSec != sections {
        return Err(NotFullyGenerated);
      }
      if idx >= BLOOM_BITS {
        return Err(BloomBitOutOfBounds);
      }
      var v := seq(rows.Length1, j requires 0 <= j < rows.Length1 reads rows => rows[idx, j]);
      forall s: nat | s < sections
        ensures VectorBit(v, s) == BloomBit(added[s], idx)
      {
        assert Cell(idx, s) == VectorBit(v, s);
      }
      return Ok(v);
    }
  }

  method NewGenerator(sections: nat) returns (r: Result<Generator, GeneratorError>)
    ensures if sections % 8 != 0 then r == Err(SectionsNotMultipleOf8)
            else r.Ok? && r.value.Valid() && r.value.sections == sections && r.value.added == []
    ensures r.Ok? ==> fresh(r.value) && fresh(r.value.rows)
  {
    if sections % 8 != 0 {
      return Err(SectionsNotMultipleOf8);
    }
    var g := new Generator(sections);
    return Ok(g);
  }

  /** The index of a section: one rotated vector for each bloom bit. */
  method IndexSection(blooms: seq<Bloom>) returns (vectors: seq<seq<bv8>>)
    requires |blooms| % 8 == 0
    ensures |vectors| == BLOOM_BITS
    ensures forall bit: nat :: bit < BLOOM_BITS ==> Rotated(vectors[bit], blooms, bit)
  {
    hide Rotated, BloomBit;
    var g := new Generator(|blooms|);
    for n := 0 to |blooms|
      invariant g.Valid() && fresh(g) && fresh(g.rows) && g.sections == |blooms| && g.added == blooms[..n]
    {
      var r := g.AddBloom(n, blooms[n]);
      assert blooms[..n + 1] == blooms[..n] + [blooms[n]];
    }
    assert blooms[..|blooms|] == blooms;
    vectors := [];
    for bit := 0 to BLOOM_BITS
      invariant g.Valid() && g.added == blooms && g.sections == |blooms|
      invariant |vectors| == bit
      invariant forall k: nat :: k < bit ==> Rotated(vectors[k], blooms, k)
    {
      var v := g.Bitset(bit);
      vectors := vectors + [v.value];
    }
  }
}
