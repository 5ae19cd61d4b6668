/**
  The matcher: a chain of sub-matchers over the rotated index. It must find exactly the blocks whose blooms pass
  the filter, in ascending order, as a plain scan of the blooms would.
  */
module BloomMatcher {
  import opened Bits
  import opened Bytes
  import opened Bloom
  import opened Wrappers

  /** A filter is a list of rules; a rule is a list of alternative keys, where a missing key matches anything. */
  type Rule = seq<Option<seq<byte>>>

  /** Retrieves the vector of a bloom bit for a section. */
  type Fetch = (nat, nat) -> seq<bv8>

  // ----- what the matcher is for -----

  predicate Wildcard(rule: Rule) {
    rule == [] || None in rule
  }

  /** Some key of the rule may be in the bloom. */
  ghost predicate RulePasses(hash: Hash, rule: Rule, b: Bloom) {
    exists c :: 0 <= c < |rule| && rule[c].Some? && BloomLookup(hash, b, rule[c].value)
  }

  ghost predicate Passes(hash: Hash, filter: seq<Rule>, b: Bloom) {
    forall g :: 0 <= g < |filter| && !Wildcard(filter[g]) ==> RulePasses(hash, filter[g], b)
  }

  /** The blooms of a section of blocks. */
  ghost function SectionBlooms(chain: nat -> Bloom, section: nat, size: nat): (s: seq<Bloom>)
    ensures |s| == size
  {
    seq(size, k requires 0 <= k => chain(section * size + k))
  }

  /** The index holds the rotated blooms of every section. */
  ghost predicate Indexed(fetch: Fetch, chain: nat -> Bloom, size: nat) {
    forall bit: nat, section: nat :: bit < BLOOM_BITS ==>
      Rotated(fetch(bit, section), SectionBlooms(chain, section, size), bit)
  }

  // ----- building the filter -----

  /** The bit indexes of a key: ((high << 8) & 2047) + low. */
  method CalcBloomIndexes(hash: Hash, key: seq<byte>) returns (idxs: seq<nat>)
    ensures idxs == KeyIndexes(hash, key)
    ensures idxs == [Number(hash(key)[0..2]) % 2048, Number(hash(key)[2..4]) % 2048, Number(hash(key)[4..6]) % 2048]
  {
    var b := hash(key);
    idxs := [];
    for i := 0 to 3
      invariant |idxs| == i
      invariant forall k :: 0 <= k < i ==> idxs[k] == KeyBit(b, k)
    {
      MaskedHigh(b[2 * i], b[2 * i + 1]);
      idxs := idxs + [(b[2 * i] as int * 256) % 2048 + b[2 * i + 1]];
    }
    IndexNumbers(hash, key);
  }

  lemma IndexNumbers(hash: Hash, key: seq<byte>)
    ensures KeyIndexes(hash, key)
         == [Number(hash(key)[0..2]) % 2048, Number(hash(key)[2..4]) % 2048, Number(hash(key)[4..6]) % 2048]
  {
    hide KeyBit, Number;
    PairBit(hash(key), 0);
    PairBit(hash(key), 1);
    PairBit(hash(key), 2);
  }

  /** The low byte does not carry into the masked high one. */
  lemma MaskedHigh(high: byte, low: byte)
    ensures (high as int * 256) % 2048 + low == (high as int * 256 + low) % 2048
  {
    assert high as int * 256 == 2048 * (high / 8) + 256 * (high % 8);
  }

  function KeyIndexes(hash: Hash, key: seq<byte>): seq<nat> {
    seq(3, k requires 0 <= k < 3 => KeyBit(hash(key), k))
  }

  /** Looking a key up in a bloom is testing its three bit indexes. */
  lemma LookupIsIndexes(hash: Hash, b: Bloom, key: seq<byte>)
    ensures BloomLookup(hash, b, key) <==> forall k :: 0 <= k < 3 ==> BloomBit(b, KeyIndexes(hash, key)[k])
  {
    var bits, idxs := KeyBits(hash, key), KeyIndexes(hash, key);
    if BloomLookup(hash, b, key) {
      forall k | 0 <= k < 3
        ensures BloomBit(b, idxs[k])
      {
        assert idxs[k] in bits;
        assert idxs[k] in Big(b) * bits;
      }
    }
    if forall k :: 0 <= k < 3 ==> BloomBit(b, idxs[k]) {
      forall i | i in bits
        ensures i in Big(b)
      {
        var k: nat :| k < 3 && i == KeyBit(hash(key), k);
        assert i == idxs[k];
      }
    }
  }

  function RuleIndexes(hash: Hash, rule: Rule): seq<seq<nat>>
    requires None !in rule
  {
    seq(|rule|, c requires 0 <= c < |rule| => KeyIndexes(hash, rule[c].value))
  }

  /** The rules that are not wildcards, with keys replaced by bit indexes. */
  function FilterIndexes(hash: Hash, filter: seq<Rule>): seq<seq<seq<nat>>> {
    if filter == [] then []
    else
      var last := filter[|filter| - 1];
      FilterIndexes(hash, filter[..|filter| - 1]) + if Wildcard(last) then [] else [RuleIndexes(hash, last)]
  }

  method BuildFilter(hash: Hash, filter: seq<Rule>) returns (groups: seq<seq<seq<nat>>>)
    ensures groups == FilterIndexes(hash, filter)
  {
    groups := [];
    for g := 0 to |filter|
      invariant groups == FilterIndexes(hash, filter[..g])
    {
      var rule := filter[g];
      assert filter[..g + 1][..g] == filter[..g];
      if |rule| == 0 {
        continue;
      }
      var bloomBits: Option<seq<seq<nat>>> := Some([]);
      for c := 0 to |rule|
        invariant bloomBits.Some? && None !in rule[..c]
        invariant bloomBits.value == RuleIndexes(hash, rule[..c])
      {
        if rule[c] == None {
          bloomBits := None;
          break;
        }
        var idxs := CalcBloomIndexes(hash, rule[c].value);
        assert rule[..c + 1] == rule[..c] + [rule[c]];
        bloomBits := Some(bloomBits.value + [idxs]);
      }
      if bloomBits != None {
        assert rule[..|rule|] == rule;
        groups := groups + [bloomBits.value];
      }
    }
    assert filter[..|filter|] == filter;
  }

  /** A bloom that has, for each group, all bits of some alternative. */
  ghost predicate GroupPasses(group: seq<seq<nat>>, b: Bloom) {
    exists c :: 0 <= c < |group| && AllBits(group[c], b)
  }

  ghost predicate AllBits(idxs: seq<nat>, b: Bloom) {
    forall k :: 0 <= k < |idxs| ==> idxs[k] < BLOOM_BITS && BloomBit(b, idxs[k])
  }

  ghost predicate GroupsPass(groups: seq<seq<seq<nat>>>, b: Bloom) {
    forall g :: 0 <= g < |groups| ==> GroupPasses(groups[g], b)
  }

  lemma RuleIsGroup(hash: Hash, rule: Rule, b: Bloom)
    requires None !in rule
    ensures RulePasses(hash, rule, b) <==> GroupPasses(RuleIndexes(hash, rule), b)
  {
    hide BloomLookup, BloomBit;
    var group := RuleIndexes(hash, rule);
    forall c | 0 <= c < |rule|
      ensures rule[c].Some? && (BloomLookup(hash, b, rule[c].value) <==> AllBits(group[c], b))
    {
      assert rule[c] in rule;
      LookupIsIndexes(hash, b, rule[c].value);
    }
    if GroupPasses(group, b) {
      var c :| 0 <= c < |group| && AllBits(group[c], b);
      assert BloomLookup(hash, b, rule[c].value);
    }
    if RulePasses(hash, rule, b) {
      var c :| 0 <= c < |rule| && rule[c].Some? && BloomLookup(hash, b, rule[c].value);
      assert AllBits(group[c], b);
    }
  }

  /** The groups pass exactly when the filter does: dropping wildcards loses nothing. */
  lemma {:induction false} FilterIsGroups(hash: Hash, filter: seq<Rule>, b: Bloom)
    ensures Passes(hash, filter, b) <==> GroupsPass(FilterIndexes(hash, filter), b)
  {
    hide RulePasses, GroupPasses;
    if filter != [] {
      var front, last := filter[..|filter| - 1], filter[|filter| - 1];
      FilterIsGroups(hash, front, b);
      assert Passes(hash, filter, b) <==>
             Passes(hash, front, b) && (Wildcard(last) || RulePasses(hash, last, b)) by {
        assert forall g :: 0 <= g < |front| ==> filter[g] == front[g];
      }
      if !Wildcard(last) {
        RuleIsGroup(hash, last, b);
        LastGroup(FilterIndexes(hash, front), RuleIndexes(hash, last), b);
      } else {
        assert FilterIndexes(hash, front) + [] == FilterIndexes(hash, front);
      }
    }
  }

  lemma LastGroup(groups: seq<seq<seq<nat>>>, group: seq<seq<nat>>, b: Bloom)
    ensures GroupsPass(groups + [group], b) <==> GroupsPass(groups, b) && GroupPasses(group, b)
  {
    var all := groups + [group];
    assert all[|groups|] == group;
    assert forall g :: 0 <= g < |groups| ==> all[g] == groups[g];
  }

  lemma {:induction false} FilterShape(hash: Hash, filter: seq<Rule>)
    ensures forall g, c :: 0 <= g < |FilterIndexes(hash, filter)| && 0 <= c < |FilterIndexes(hash, filter)[g]| ==>
              IsIndexes(FilterIndexes(hash, filter)[g][c])
  {
    if filter != [] {
      FilterShape(hash, filter[..|filter| - 1]);
    }
  }

  predicate IsIndexes(idxs: seq<nat>) {
    |idxs| == 3 && forall k :: 0 <= k < 3 ==> idxs[k] < BLOOM_BITS
  }

  // ----- bit-parallel matching -----

  function AndBytes(a: seq<bv8>, b: seq<bv8>): seq<bv8>
    requires |a| == |b|
  {
    seq(|a|, j requires 0 <= j < |a| => a[j] & b[j])
  }

  function OrBytes(a: seq<bv8>, b: seq<bv8>): seq<bv8>
    requires |a| == |b|
  {
    seq(|a|, j requires 0 <= j < |a| => a[j] | b[j])
  }

  lemma AndVector(a: seq<bv8>, b: seq<bv8>, s: nat)
    requires |a| == |b| && s < 8 * |a|
    ensures VectorBit(AndBytes(a, b), s) <==> VectorBit(a, s) && VectorBit(b, s)
  {
    AndBit(a[s / 8], b[s / 8], 7 - s % 8);
  }

  lemma OrVector(a: seq<bv8>, b: seq<bv8>, s: nat)
    requires |a| == |b| && s < 8 * |a|
    ensures VectorBit(OrBytes(a, b), s) <==> VectorBit(a, s) || VectorBit(b, s)
  {
    OrBit(a[s / 8], b[s / 8], 7 - s % 8);
  }

  method TestBytes(p: seq<bv8>) returns (set_: bool)
    ensures set_ <==> exists s: nat :: s < 8 * |p| && VectorBit(p, s)
  {
    hide VectorBit;
    for j := 0 to |p|
      invariant forall s: nat :: s < 8 * j ==> !VectorBit(p, s)
    {
      ByteBits(p, j);
      if p[j] != 0 {
        return true;
      }
    }
    return false;
  }

  lemma ByteBits(p: seq<bv8>, j: nat)
    requires j < |p|
    ensures p[j] == 0 <==> forall s: nat :: 8 * j <= s < 8 * j + 8 ==> !VectorBit(p, s)
  {
    NoBits(p[j]);
    if forall s: nat :: 8 * j <= s < 8 * j + 8 ==> !VectorBit(p, s) {
      forall k: nat | k < 8
        ensures !Bit(p[j], k)
      {
        VectorIndex(j, k);
        assert !VectorBit(p, 8 * j + (7 - k));
      }
    }
  }

  /** Bit s of every vector of an alternative. */
  ghost predicate AlternativeBit(fetch: Fetch, section: nat, idxs: seq<nat>, s: nat) {
    forall k :: 0 <= k < |idxs| ==> s < 8 * |fetch(idxs[k], section)| && VectorBit(fetch(idxs[k], section), s)
  }

  /** ANDs the three vectors of an alternative. */
  method MatchAlternative(fetch: Fetch, section: nat, idxs: seq<nat>, bytes: nat) returns (andVector: seq<bv8>)
    requires IsIndexes(idxs)
    requires forall k :: 0 <= k < 3 ==> |fetch(idxs[k], section)| == bytes
    ensures |andVector| == bytes
    ensures forall s: nat :: s < 8 * bytes ==> (VectorBit(andVector, s) <==> AlternativeBit(fetch, section, idxs, s))
  {
    hide VectorBit, AndBytes;
    var acc: Option<seq<bv8>> := None;
    for j := 0 to 3
      invariant acc.Some? <==> j > 0
      invariant acc.Some? ==> |acc.value| == bytes
      invariant acc.Some? ==> forall s: nat :: s < 8 * bytes ==>
                  (VectorBit(acc.value, s) <==> AlternativeBit(fetch, section, idxs[..j], s))
    {
      var data := fetch(idxs[j], section);
      forall s: nat | s < 8 * bytes
        ensures AlternativeBit(fetch, section, idxs[..j + 1], s)
           <==> AlternativeBit(fetch, section, idxs[..j], s) && VectorBit(data, s)
      {
        assert idxs[..j + 1] == idxs[..j] + [idxs[j]];
      }
      if acc == None {
        acc := Some(data);
      } else {
        AndAll(acc.value, data);
        acc := Some(AndBytes(acc.value, data));
      }
    }
    assert idxs[..3] == idxs;
    andVector := acc.value;
  }

  lemma AndAll(a: seq<bv8>, b: seq<bv8>)
    requires |a| == |b|
    ensures |AndBytes(a, b)| == |a|
    ensures forall s: nat :: s < 8 * |a| ==> (VectorBit(AndBytes(a, b), s) <==> VectorBit(a, s) && VectorBit(b, s))
  {
    forall s: nat | s < 8 * |a|
      ensures VectorBit(AndBytes(a, b), s) <==> VectorBit(a, s) && VectorBit(b, s)
    {
      AndVector(a, b, s);
    }
  }

  lemma OrAll(a: seq<bv8>, b: seq<bv8>)
    requires |a| == |b|
    ensures |OrBytes(a, b)| == |a|
    ensures forall s: nat :: s < 8 * |a| ==> (VectorBit(OrBytes(a, b), s) <==> VectorBit(a, s) || VectorBit(b, s))
  {
    forall s: nat | s < 8 * |a|
      ensures VectorBit(OrBytes(a, b), s) <==> VectorBit(a, s) || VectorBit(b, s)
    {
      OrVector(a, b, s);
    }
  }

  ghost predicate GroupBit(fetch: Fetch, section: nat, group: seq<seq<nat>>, s: nat) {
    exists c :: 0 <= c < |group| && AlternativeBit(fetch, section, group[c], s)
  }

  /** ORs the alternatives of a group and ANDs the result with what earlier groups left. */
  method SubMatch(fetch: Fetch, section: nat, group: seq<seq<nat>>, bitset: seq<bv8>) returns (v: seq<bv8>)
    requires forall c :: 0 <= c < |group| ==> IsIndexes(group[c])
    requires forall c, k :: 0 <= c < |group| && 0 <= k < |group[c]| ==> |fetch(group[c][k], section)| == |bitset|
    ensures |v| == |bitset|
    ensures forall s: nat :: s < 8 * |v| ==>
              (VectorBit(v, s) <==> VectorBit(bitset, s) && GroupBit(fetch, section, group, s))
  {
    hide VectorBit, AndBytes, OrBytes, AlternativeBit;
    var orVector: Option<seq<bv8>> := None;
    for c := 0 to |group|
      invariant orVector.Some? <==> c > 0
      invariant orVector.Some? ==> |orVector.value| == |bitset|
      invariant orVector.Some? ==> forall s: nat :: s < 8 * |bitset| ==>
                  (VectorBit(orVector.value, s) <==> GroupBit(fetch, section, group[..c], s))
    {
      var andVector := MatchAlternative(fetch, section, group[c], |bitset|);
      forall s: nat | s < 8 * |bitset|
        ensures GroupBit(fetch, section, group[..c + 1], s)
           <==> GroupBit(fetch, section, group[..c], s) || AlternativeBit(fetch, section, group[c], s)
      {
        MoreAlternatives(fetch, section, group, c, s);
      }
      if orVector == None {
        orVector := Some(andVector);
      } else {
        OrAll(orVector.value, andVector);
        orVector := Some(OrBytes(orVector.value, andVector));
      }
    }
    assert group[..|group|] == group;
    if orVector == None {
      orVector := Some(Copies<bv8>(0, |bitset|));
      FillBits(|bitset|);
    }
    AndAll(orVector.value, bitset);
    v := AndBytes(orVector.value, bitset);
  }

  lemma MoreAlternatives(fetch: Fetch, section: nat, group: seq<seq<nat>>, c: nat, s: nat)
    requires c < |group|
    ensures GroupBit(fetch, section, group[..c + 1], s)
       <==> GroupBit(fetch, section, group[..c], s) || AlternativeBit(fetch, section, group[c], s)
  {
    hide AlternativeBit;
    if GroupBit(fetch, section, group[..c], s) {
      var d :| 0 <= d < c && AlternativeBit(fetch, section, group[..c][d], s);
      assert group[..c + 1][d] == group[..c][d];
    }
    if AlternativeBit(fetch, section, group[c], s) {
      assert group[..c + 1][c] == group[c];
    }
  }

  lemma FillBits(n: nat)
    ensures forall s: nat :: s < 8 * n ==> !VectorBit(Copies<bv8>(0, n), s)
    ensures forall s: nat :: s < 8 * n ==> VectorBit(Copies<bv8>(0xFF, n), s)
  {
    forall s: nat | s < 8 * n
      ensures !VectorBit(Copies<bv8>(0, n), s) && VectorBit(Copies<bv8>(0xFF, n), s)
    {
      BitOfZero(7 - s % 8);
    }
  }

  /** In an indexed chain, the vectors of a group tell which blocks of the section pass it. */
  lemma GroupBitIsPass(fetch: Fetch, chain: nat -> Bloom, size: nat, section: nat, group: seq<seq<nat>>, s: nat)
    requires Indexed(fetch, chain, size) && s < size
    requires forall c :: 0 <= c < |group| ==> IsIndexes(group[c])
    ensures GroupBit(fetch, section, group, s) <==> GroupPasses(group, SectionBlooms(chain, section, size)[s])
  {
    hide VectorBit, BloomBit, SectionBlooms;
    var b := SectionBlooms(chain, section, size)[s];
    forall c | 0 <= c < |group|
      ensures AlternativeBit(fetch, section, group[c], s) <==> AllBits(group[c], b)
    {
      forall k | 0 <= k < 3
        ensures s < 8 * |fetch(group[c][k], section)|
        ensures VectorBit(fetch(group[c][k], section), s) == BloomBit(b, group[c][k])
      {
        assert Rotated(fetch(group[c][k], section), SectionBlooms(chain, section, size), group[c][k]);
      }
    }
    if GroupBit(fetch, section, group, s) {
      var c :| 0 <= c < |group| && AlternativeBit(fetch, section, group[c], s);
      assert AllBits(group[c], b);
    }
    if GroupPasses(group, b) {
      var c :| 0 <= c < |group| && AllBits(group[c], b);
      assert AlternativeBit(fetch, section, group[c], s);
    }
  }

  /** Runs one section through the chain of groups; a section without a match is dropped. */
  method MatchSection(fetch: Fetch, ghost chain: nat -> Bloom, size: nat, groups: seq<seq<seq<nat>>>, section: nat)
    returns (r: Option<seq<bv8>>)
    requires size % 8 == 0 && Indexed(fetch, chain, size)
    requires forall g, c :: 0 <= g < |groups| && 0 <= c < |groups[g]| ==> IsIndexes(groups[g][c])
    ensures r.Some? ==> |r.value| == size / 8
    ensures var blooms := SectionBlooms(chain, section, size);
            && (r.Some? ==> forall s: nat :: s < size ==> (VectorBit(r.value, s) <==> GroupsPass(groups, blooms[s])))
            && (r.None? ==> forall s: nat :: s < size ==> !GroupsPass(groups, blooms[s]))
  {
    hide VectorBit, GroupPasses, GroupBit, SectionBlooms, GroupsPass;
    ghost var blooms := SectionBlooms(chain, section, size);
    var bitset := Copies<bv8>(0xFF, size / 8);
    FillBits(size / 8);
    NoGroups(blooms);
    for g := 0 to |groups|
      invariant |bitset| == size / 8
      invariant forall s: nat :: s < size ==> (VectorBit(bitset, s) <==> GroupsPass(groups[..g], blooms[s]))
    {
      var group := groups[g];
      VectorLengths(fetch, chain, size, section, group);
      var v := SubMatch(fetch, section, group, bitset);
      forall s: nat | s < size
        ensures VectorBit(v, s) <==> GroupsPass(groups[..g + 1], blooms[s])
      {
        GroupBitIsPass(fetch, chain, size, section, group, s);
        assert groups[..g + 1] == groups[..g] + [group];
        LastGroup(groups[..g], group, blooms[s]);
      }
      var matched := TestBytes(v);
      if !matched {
        forall s: nat | s < size
          ensures !GroupsPass(groups, blooms[s])
        {
          assert !VectorBit(v, s);
          FewerGroups(groups, g + 1, blooms[s]);
        }
        return None;
      }
      bitset := v;
    }
    assert groups[..|groups|] == groups;
    return Some(bitset);
  }

  lemma NoGroups(blooms: seq<Bloom>)
    ensures forall s :: 0 <= s < |blooms| ==> GroupsPass([], blooms[s])
  {
  }

  lemma FewerGroups(groups: seq<seq<seq<nat>>>, n: nat, b: Bloom)
    requires n <= |groups|
    ensures GroupsPass(groups, b) ==> GroupsPass(groups[..n], b)
  {
  }

  lemma VectorLengths(fetch: Fetch, chain: nat -> Bloom, size: nat, section: nat, group: seq<seq<nat>>)
    requires size % 8 == 0 && Indexed(fetch, chain, size)
    requires forall c :: 0 <= c < |group| ==> IsIndexes(group[c])
    ensures forall c, k :: 0 <= c < |group| && 0 <= k < |group[c]| ==> |fetch(group[c][k], section)| == size / 8
  {
    forall c, k | 0 <= c < |group| && 0 <= k < |group[c]|
      ensures |fetch(group[c][k], section)| == size / 8
    {
      assert Rotated(fetch(group[c][k], section), SectionBlooms(chain, section, size), group[c][k]);
    }
  }

  // ----- emitting the matches -----

  ghost predicate Ascending(ns: seq<nat>) {
    forall i, j :: 0 <= i < j < |ns| ==> ns[i] < ns[j]
  }

  lemma AppendOne(ns: seq<nat>, n: nat)
    requires Ascending(ns) && forall k :: k in ns ==> k < n
    ensures Ascending(ns + [n])
  {
    assert forall j :: 0 <= j < |ns| ==> ns[j] in ns;
  }

  lemma SectionStart(section: nat, size: nat)
    requires size % 8 == 0
    ensures (section * size) % 8 == 0
  {
    assert section * size == (section * (size / 8)) * 8;
  }

  /** Block n belongs to the section that starts at `start`, and its bit is set. */
  predicate Hit(bitset: seq<bv8>, start: nat, n: nat) {
    start <= n < start + 8 * |bitset| && VectorBit(bitset, n - start)
  }

  /** A zero byte has no hits, and its first block is a multiple of eight. */
  lemma ByteHits(bitset: seq<bv8>, start: nat, i: nat)
    requires start % 8 == 0 && start <= i < start + 8 * |bitset|
    ensures Hit(bitset, start, i) == Bit(bitset[(i - start) / 8], 7 - i % 8)
    ensures bitset[(i - start) / 8] == 0 ==> !Hit(bitset, start, i)
    ensures bitset[(i - start) / 8] == 0 && i % 8 == 0 ==>
              i + 8 <= start + 8 * |bitset| && forall n: nat :: i <= n < i + 8 ==> !Hit(bitset, start, n)
  {
    var j := (i - start) / 8;
    assert (i - start) % 8 == i % 8;
    ByteBits(bitset, j);
    if bitset[j] == 0 && i % 8 == 0 {
      assert i - start == 8 * j;
    }
  }

  /**
    Hands out the blocks of a section whose bit is set, between `begin` and `end`. A zero byte is skipped as a
    whole when the loop stands at its start. No block number wraps around.
    */
  method Emit(sectionStart: nat, bitset: seq<bv8>, begin: nat, end: nat) returns (results: seq<nat>)
    requires sectionStart % 8 == 0 && bitset != [] && sectionStart + 8 * |bitset| < UINT64_LIMIT
    ensures Ascending(results)
    ensures forall n: nat :: n in results <==> begin <= n <= end && Hit(bitset, sectionStart, n)
  {
    hide Hit, Bit;
    var size := 8 * |bitset|;
    var first := if begin > sectionStart then begin else sectionStart;
    var last := if end < sectionStart + size - 1 then end else sectionStart + size - 1;
    results := [];
    var i: nat := first;
    while i <= last
      invariant first <= i && (i == first || i <= sectionStart + size < UINT64_LIMIT)
      invariant Ascending(results)
      invariant forall n: nat :: n in results <==> first <= n < i && n <= last && Hit(bitset, sectionStart, n)
      decreases last + 1 - i
    {
      var next := bitset[(i - sectionStart) / 8];
      ByteHits(bitset, sectionStart, i);
      if next == 0 {
        if i % 8 == 0 {
          i := i + 7;
        }
        i := i + 1;
        continue;
      }
      if Bit(next, 7 - i % 8) {
        AppendOne(results, i);
        results := results + [i];
      }
      i := i + 1;
    }
    HitRange(bitset, sectionStart);
  }

  lemma HitRange(bitset: seq<bv8>, start: nat)
    ensures forall n: nat :: Hit(bitset, start, n) ==> start <= n < start + 8 * |bitset|
  {
  }

  /**
    The matcher emits exactly the blocks in range whose bloom passes the filter, in ascending order: the bit
    transposition, the index computation, the bit-parallel merging, the dropping of empty sections and the
    byte-skipping emission together agree with a plain scan.
    */
  method Match(hash: Hash, filter: seq<Rule>, fetch: Fetch, ghost chain: nat -> Bloom, size: nat, begin: nat, end: nat)
    returns (results: seq<nat>)
    requires size > 0 && size % 8 == 0 && Indexed(fetch, chain, size)
    requires NoWrap(SectionNumber(end, size), size)
    ensures Ascending(results)
    ensures forall n: nat :: n in results <==> begin <= n <= end && Passes(hash, filter, chain(n))
  {
    hide Passes, GroupsPass, Indexed, IsIndexes, InSections, Ascending, SectionNumber, NoWrap;
    var groups := BuildFilter(hash, filter);
    FilterShape(hash, filter);
    results := RunSections(fetch, chain, size, groups, SectionNumber(begin, size), SectionNumber(end, size), begin, end);
    SectionsCoverRange(hash, filter, chain, size, begin, end, results);
  }

  lemma SectionsCoverRange(hash: Hash, filter: seq<Rule>, chain: nat -> Bloom, size: nat, begin: nat, end: nat,
                           results: seq<nat>)
    requires size > 0
    requires forall n: nat :: n in results <==>
               InSections(n, size, SectionNumber(begin, size), SectionNumber(end, size) + 1) && begin <= n <= end
               && GroupsPass(FilterIndexes(hash, filter), chain(n))
    ensures forall n: nat :: n in results <==> begin <= n <= end && Passes(hash, filter, chain(n))
  {
    hide Passes, GroupsPass, InSections, FilterIndexes, SectionNumber;
    forall n: nat
      ensures n in results <==> begin <= n <= end && Passes(hash, filter, chain(n))
    {
      FilterIsGroups(hash, filter, chain(n));
      if begin <= n <= end {
        InRange(n, size, begin, end);
      }
    }
  }

  /** Feeds the sections one after the other into the chain of groups. */
  method RunSections(fetch: Fetch, ghost chain: nat -> Bloom, size: nat, groups: seq<seq<seq<nat>>>,
                     from: nat, upTo: nat, begin: nat, end: nat) returns (results: seq<nat>)
    requires size > 0 && size % 8 == 0 && Indexed(fetch, chain, size)
    requires NoWrap(upTo, size)
    requires forall g, c :: 0 <= g < |groups| && 0 <= c < |groups[g]| ==> IsIndexes(groups[g][c])
    ensures Ascending(results)
    ensures forall n: nat :: n in results <==>
              InSections(n, size, from, upTo + 1) && begin <= n <= end && GroupsPass(groups, chain(n))
  {
    hide GroupsPass, Indexed, InSections, Ascending, IsIndexes, NoWrap;
    results := [];
    var i := from;
    NoSection(size, from);
    EmptySections(size, from, upTo + 1);
    while i <= upTo
      invariant from <= i && (i <= upTo + 1 || i == from)
      invariant Ascending(results)
      invariant forall n: nat :: n in results <==>
                  InSections(n, size, from, i) && begin <= n <= end && GroupsPass(groups, chain(n))
      decreases upTo + 1 - i
    {
      SectionBelow(i, upTo, size);
      var found := MatchAndEmit(fetch, chain, size, groups, i, begin, end);
      NextSection(size, from, i);
      AppendAscending(results, found, size, from, i);
      results := results + found;
      i := i + 1;
    }
  }

  /** The matches of one section that lie in the range. */
  method MatchAndEmit(fetch: Fetch, ghost chain: nat -> Bloom, size: nat, groups: seq<seq<seq<nat>>>,
                      section: nat, begin: nat, end: nat) returns (found: seq<nat>)
    requires size > 0 && size % 8 == 0 && Indexed(fetch, chain, size)
    requires NoWrap(section, size)
    requires forall g, c :: 0 <= g < |groups| && 0 <= c < |groups[g]| ==> IsIndexes(groups[g][c])
    ensures Ascending(found)
    ensures forall n: nat :: n in found <==>
              InSections(n, size, section, section + 1) && begin <= n <= end && GroupsPass(groups, chain(n))
  {
    hide GroupsPass, VectorBit, Indexed, SectionBlooms, InSections, NoWrap;
    var r := MatchSection(fetch, chain, size, groups, section);
    var sectionStart := section * size;
    SectionStart(section, size);
    SectionIs(chain, section, section + 1, size);
    found := [];
    if r.Some? {
      found := Emit(sectionStart, r.value, begin, end);
    }
  }

  function SectionNumber(n: nat, size: nat): nat
    requires size > 0
  {
    n / size
  }

  /** No block number of the section, and none just behind it, exceeds a uint64. */
  predicate NoWrap(section: nat, size: nat) {
    (section + 1) * size < UINT64_LIMIT
  }

  /** Block n lies in one of the sections from `a` up to `b`. */
  predicate InSections(n: nat, size: nat, a: nat, b: nat) {
    a * size <= n < b * size
  }

  lemma OneSection(section: nat, size: nat)
    ensures (section + 1) * size == section * size + size
  {
  }

  /** A section starts at its number times the size, and holds the blooms from there on. */
  lemma SectionIs(chain: nat -> Bloom, section: nat, next: nat, size: nat)
    requires next == section + 1
    ensures NoWrap(section, size) ==> section * size + size < UINT64_LIMIT
    ensures forall n: nat :: InSections(n, size, section, next) <==> section * size <= n < section * size + size
    ensures forall n: nat :: section * size <= n < section * size + size ==>
              SectionBlooms(chain, section, size)[n - section * size] == chain(n)
  {
    OneSection(section, size);
  }

  lemma SectionBelow(section: nat, last: nat, size: nat)
    requires section <= last
    ensures (section + 1) * size <= (last + 1) * size
    ensures NoWrap(last, size) ==> NoWrap(section, size)
  {
  }

  lemma NoSection(size: nat, a: nat)
    ensures Ascending([]) && forall n: nat :: !InSections(n, size, a, a)
  {
  }

  lemma EmptySections(size: nat, a: nat, b: nat)
    ensures a >= b ==> forall n: nat :: !InSections(n, size, a, b)
  {
  }

  lemma NextSection(size: nat, from: nat, i: nat)
    requires from <= i
    ensures forall n: nat :: InSections(n, size, from, i + 1) <==>
              InSections(n, size, from, i) || InSections(n, size, i, i + 1)
  {
    SectionBelow(from, i + 1, size);
    OneSection(i, size);
    assert from * size <= i * size;
  }

  lemma InRange(n: nat, size: nat, begin: nat, end: nat)
    requires size > 0 && begin <= n <= end
    ensures InSections(n, size, SectionNumber(begin, size), SectionNumber(end, size) + 1)
  {
    assert begin / size * size <= begin;
    OneSection(end / size, size);
    assert end < end / size * size + size;
  }

  lemma AppendAscending(before: seq<nat>, found: seq<nat>, size: nat, from: nat, i: nat)
    requires Ascending(before) && Ascending(found)
    requires forall n :: n in before ==> InSections(n, size, from, i)
    requires forall n :: n in found ==> InSections(n, size, i, i + 1)
    ensures Ascending(before + found)
  {
    forall j, k | 0 <= j < |before| && 0 <= k < |found|
      ensures before[j] < found[k]
    {
      assert before[j] in before && found[k] in found;
    }
  }

  // ----- from the logs to the blocks found -----

  /** Every bit of the key is taken by some key of the block's logs: its own, if it is there. */
  ghost predicate Covered(hash: Hash, receipts: seq<seq<Log>>, key: seq<byte>) {
    forall i :: i in KeyBits(hash, key) ==> BitTaken(hash, receipts, i)
  }

  /** For each rule, some key of it is covered. */
  ghost predicate Reported(hash: Hash, filter: seq<Rule>, receipts: seq<seq<Log>>) {
    forall g :: 0 <= g < |filter| && !Wildcard(filter[g]) ==> RuleCovered(hash, filter[g], receipts)
  }

  ghost predicate RuleCovered(hash: Hash, rule: Rule, receipts: seq<seq<Log>>) {
    exists c :: 0 <= c < |rule| && rule[c].Some? && Covered(hash, receipts, rule[c].value)
  }

  /** Some log has a key of the rule. */
  ghost predicate Mentions(rule: Rule, receipts: seq<seq<Log>>) {
    exists c, r, log ::
      0 <= c < |rule| && rule[c].Some? && r in receipts && log in r && rule[c].value in [log.address] + log.topics
  }

  ghost predicate MentionsAll(filter: seq<Rule>, receipts: seq<seq<Log>>) {
    forall g :: 0 <= g < |filter| && !Wildcard(filter[g]) ==> Mentions(filter[g], receipts)
  }

  /** A key of the logs is covered, so a block whose logs mention a key of every rule is reported. */
  lemma MentionedReported(hash: Hash, filter: seq<Rule>, receipts: seq<seq<Log>>)
    requires MentionsAll(filter, receipts)
    ensures Reported(hash, filter, receipts)
  {
    hide KeyBits, BitTaken;
    forall g | 0 <= g < |filter| && !Wildcard(filter[g])
      ensures RuleCovered(hash, filter[g], receipts)
    {
      assert Mentions(filter[g], receipts);
      var c, r, log :| 0 <= c < |filter[g]| && filter[g][c].Some? && r in receipts && log in r
                       && filter[g][c].value in [log.address] + log.topics;
      KeyTaken(hash, receipts, r, log, filter[g][c].value);
      assert Covered(hash, receipts, filter[g][c].value);
    }
  }

  lemma PassesIsReported(hash: Hash, filter: seq<Rule>, receipts: seq<seq<Log>>, b: Bloom)
    requires forall i: nat :: i in Big(b) <==> BitTaken(hash, receipts, i)
    ensures Passes(hash, filter, b) <==> Reported(hash, filter, receipts)
  {
    hide KeyBits, BitTaken, Big;
    forall key
      ensures BloomLookup(hash, b, key) <==> Covered(hash, receipts, key)
    {
      assert Big(b) * KeyBits(hash, key) == KeyBits(hash, key) <==> KeyBits(hash, key) <= Big(b);
    }
    assert forall g :: 0 <= g < |filter| ==>
        (RulePasses(hash, filter[g], b) <==> RuleCovered(hash, filter[g], receipts));
  }

  const NO_BLOOM: Bloom := seq(BLOOM_BYTES, _ => 0)

  /** The blooms of the chain's blocks, and empty ones after its end. */
  ghost function ChainOf(blooms: seq<Bloom>): nat -> Bloom {
    (n: nat) => if n < |blooms| then blooms[n] else NO_BLOOM
  }

  /** The index of the sections, and zero vectors after their end. */
  function FetchOf(index: seq<seq<seq<bv8>>>, size: nat): Fetch
    requires forall s :: 0 <= s < |index| ==> |index[s]| == BLOOM_BITS
  {
    (bit: nat, section: nat) =>
      if section < |index| && bit < BLOOM_BITS then index[section][bit] else Copies<bv8>(0, size / 8)
  }

  lemma NoneRotated(size: nat, bit: nat)
    requires size % 8 == 0 && bit < BLOOM_BITS
    ensures Rotated(Copies<bv8>(0, size / 8), seq(size, _ => NO_BLOOM), bit)
  {
    forall k | 0 <= k < 8
      ensures !Bit(0, k)
    {
      BitOfZero(k);
    }
  }

  /** Section s lies within the first `blocks` blocks. */
  predicate Inside(s: nat, size: nat, blocks: nat) {
    (s + 1) * size <= blocks
  }

  /** The blooms of section s. */
  function SectionOf(blooms: seq<Bloom>, size: nat, s: nat): (part: seq<Bloom>)
    requires Inside(s, size, |blooms|)
    ensures |part| == size
  {
    OneSection(s, size);
    blooms[s * size..(s + 1) * size]
  }

  lemma MoreSections(a: nat, b: nat, size: nat)
    requires a <= b
    ensures a * size <= b * size
  {
  }

  lemma SectionInside(blocks: nat, size: nat, s: nat)
    requires size > 0 && blocks % size == 0
    ensures s < blocks / size ==> Inside(s, size, blocks)
    ensures s >= blocks / size ==> s * size >= blocks
  {
    var sections := blocks / size;
    assert blocks == sections * size;
    if s < sections {
      MoreSections(s + 1, sections, size);
    } else {
      MoreSections(sections, s, size);
    }
  }

  lemma InsideChain(blooms: seq<Bloom>, size: nat, s: nat)
    requires Inside(s, size, |blooms|)
    ensures SectionBlooms(ChainOf(blooms), s, size) == SectionOf(blooms, size, s)
  {
    OneSection(s, size);
    forall k | 0 <= k < size
      ensures SectionBlooms(ChainOf(blooms), s, size)[k] == SectionOf(blooms, size, s)[k]
    {
      assert SectionOf(blooms, size, s)[k] == blooms[s * size + k];
    }
  }

  lemma BeyondChain(blooms: seq<Bloom>, size: nat, s: nat)
    requires s * size >= |blooms|
    ensures SectionBlooms(ChainOf(blooms), s, size) == seq(size, _ => NO_BLOOM)
  {
    forall k | 0 <= k < size
      ensures SectionBlooms(ChainOf(blooms), s, size)[k] == NO_BLOOM
    {
    }
  }

  /** The vectors are the rotated blooms of section s. */
  ghost predicate SectionIndexed(vectors: seq<seq<bv8>>, blooms: seq<Bloom>, size: nat, s: nat) {
    && Inside(s, size, |blooms|) && |vectors| == BLOOM_BITS
    && forall bit: nat :: bit < BLOOM_BITS ==> Rotated(vectors[bit], SectionOf(blooms, size, s), bit)
  }

  /** Indexing every section is what the matcher needs. */
  lemma IndexIndexed(blooms: seq<Bloom>, size: nat, index: seq<seq<seq<bv8>>>)
    requires size > 0 && size % 8 == 0 && |blooms| % size == 0 && |index| == |blooms| / size
    requires forall s :: 0 <= s < |index| ==> |index[s]| == BLOOM_BITS && SectionIndexed(index[s], blooms, size, s)
    ensures Indexed(FetchOf(index, size), ChainOf(blooms), size)
  {
    hide Rotated, SectionBlooms, SectionOf, ChainOf, Inside;
    forall bit: nat, section: nat | bit < BLOOM_BITS
      ensures Rotated(FetchOf(index, size)(bit, section), SectionBlooms(ChainOf(blooms), section, size), bit)
    {
      SectionInside(|blooms|, size, section);
      if section < |index| {
        assert SectionIndexed(index[section], blooms, size, section);
        InsideChain(blooms, size, section);
      } else {
        BeyondChain(blooms, size, section);
        NoneRotated(size, bit);
      }
    }
  }

  /** The blooms of all blocks. */
  method BlockBlooms(hash: Hash, blocks: seq<seq<seq<Log>>>) returns (blooms: seq<Bloom>)
    ensures |blooms| == |blocks|
    ensures forall n, i: nat :: 0 <= n < |blocks| ==> (i in Big(blooms[n]) <==> BitTaken(hash, blocks[n], i))
  {
    hide BitTaken, Big;
    blooms := [];
    for n := 0 to |blocks|
      invariant |blooms| == n
      invariant forall k, i: nat :: 0 <= k < n ==> (i in Big(blooms[k]) <==> BitTaken(hash, blocks[k], i))
    {
      var b := CreateBloom(hash, blocks[n]);
      blooms := blooms + [b];
    }
  }

  /** The index of all sections. */
  method IndexSections(blooms: seq<Bloom>, size: nat) returns (index: seq<seq<seq<bv8>>>)
    requires size > 0 && size % 8 == 0 && |blooms| % size == 0
    ensures |index| == |blooms| / size && forall s :: 0 <= s < |index| ==> |index[s]| == BLOOM_BITS
    ensures Indexed(FetchOf(index, size), ChainOf(blooms), size)
  {
    hide Rotated, Indexed, Inside, SectionOf;
    index := [];
    for s := 0 to |blooms| / size
      invariant |index| == s
      invariant forall k :: 0 <= k < s ==> |index[k]| == BLOOM_BITS && SectionIndexed(index[k], blooms, size, k)
    {
      SectionInside(|blooms|, size, s);
      var vectors := IndexSection(SectionOf(blooms, size, s));
      index := index + [vectors];
    }
    IndexIndexed(blooms, size, index);
  }

  /**
    From the logs of the blocks to the blocks found: the blooms, the index of every section and the matcher together
    report, in ascending order, exactly the blocks in range in which every rule has a key whose bits the logs take. A
    block whose logs mention a key of every rule is never missed.
    */
  method Search(hash: Hash, filter: seq<Rule>, blocks: seq<seq<seq<Log>>>, size: nat, begin: nat, end: nat)
    returns (results: seq<nat>)
    requires size > 0 && size % 8 == 0 && |blocks| % size == 0 && end < |blocks| < UINT64_LIMIT
    ensures Ascending(results)
    ensures forall n: nat :: n in results <==> begin <= n <= end && Reported(hash, filter, blocks[n])
    ensures forall n: nat :: begin <= n <= end && MentionsAll(filter, blocks[n]) ==> n in results
  {
    hide Indexed, Reported, Passes, BitTaken, Big, MentionsAll;
    var blooms := BlockBlooms(hash, blocks);
    var index := IndexSections(blooms, size);
    SectionInside(|blocks|, size, SectionNumber(end, size));
    results := Match(hash, filter, FetchOf(index, size), ChainOf(blooms), size, begin, end);
    forall n: nat | begin <= n <= end
      ensures n in results <==> Reported(hash, filter, blocks[n])
      ensures MentionsAll(filter, blocks[n]) ==> n in results
    {
      PassesIsReported(hash, filter, blocks[n], blooms[n]);
      if MentionsAll(filter, blocks[n]) {
        MentionedReported(hash, filter, blocks[n]);
      }
    }
  }
}
