/**
  Exactly when argument lists survive the round trip. `GetTypeSize` understates a fixed array of static tuples of more
  than one word. The component behind such an array is then read from inside it, and the offsets of a list with dynamic
  components, which count from the announced sizes, point too far to the front. The condition of
  `AbiRoundTrip.PackUnpack` is also necessary: the values below are lost otherwise. Left open are lists, and tuples
  inside, whose first component starts behind an offset, and the one right behind the first understated array behind
  two, when the offset of the first leads to the head of a dynamic component.
  */
module AbiExact {
  import opened Bytes
  import opened Abi
  import opened AbiUnpack
  import opened AbiWords
  import opened AbiRoundTrip
  import Wrappers

  // ----- values with a zero and a nonzero first word -----

  function Zero(t: Type): Value
    decreases Depth(t), 0
  {
    match t
    case IntTy(_) => Num(0)
    case UintTy(_) => Num(0)
    case BoolTy => Boolean(false)
    case FixedBytesTy(width) => Data(Wrappers.Copies<byte>(0, width))
    case AddressTy => Data(Wrappers.Copies<byte>(0, 20))
    case FunctionTy => Data(Wrappers.Copies<byte>(0, 24))
    case SliceTy(elem) => Items(if elem.ArrayTy? then [Zero(elem)] else [])
    case ArrayTy(size, elem) => Items(ZeroAll(Repeat(elem, size)))
    case TupleTy(elems) => Fields(ZeroAll(elems))
    case _ => Data([])
  }

  function ZeroAll(ts: seq<Type>): (vs: seq<Value>)
    ensures |vs| == |ts|
    decreases DepthAll(ts), 1 + |ts|
  {
    if ts == [] then [] else [Zero(ts[0])] + ZeroAll(ts[1..])
  }

  /** Like Zero, but the first word, or length, is not a multiple of 32. */
  function Mark(t: Type): Value
    decreases Depth(t), 0
  {
    match t
    case IntTy(_) => Num(1)
    case UintTy(_) => Num(1)
    case BoolTy => Boolean(true)
    case FixedBytesTy(width) => Data(Wrappers.Copies<byte>(1, width))
    case AddressTy => Data(Wrappers.Copies<byte>(1, 20))
    case FunctionTy => Data(Wrappers.Copies<byte>(1, 24))
    case SliceTy(elem) => Items([Zero(elem)])
    case ArrayTy(size, elem) => Items(MarkFirst(Repeat(elem, size)))
    case TupleTy(elems) => Fields(MarkFirst(elems))
    case _ => Data(Wrappers.Copies<byte>(1, 1))
  }

  function MarkFirst(ts: seq<Type>): (vs: seq<Value>)
    ensures |vs| == |ts|
    decreases DepthAll(ts), 1 + |ts|
  {
    if ts == [] then [] else [Mark(ts[0])] + ZeroAll(ts[1..])
  }

  lemma HeldRange(bits: nat)
    ensures HeldBits(bits) >= 8 && Pow2(HeldBits(bits)) >= 4 && Pow2(HeldBits(bits) - 1) >= 2
  {
    assert Pow2(HeldBits(bits) - 2) >= 1;
  }

  lemma OneTyped(t: Type, v: Value)
    requires WellTyped(t, v)
    ensures AllWellTyped(Repeat(t, 1), [v])
    ensures NoEmptyRow(t, v) ==> NoEmptyRows(Repeat(t, 1), [v])
  {
    assert Repeat(t, 1)[1..] == [] && [v][1..] == [];
  }

  /** Zero values of all types pack. */
  lemma {:induction false} ZeroGood(t: Type)
    requires Solid(t)
    ensures WellTyped(t, Zero(t)) && NoEmptyRow(t, Zero(t))
    decreases Depth(t), 0
  {
    match t
    case IntTy(bits) => HeldRange(bits);
    case UintTy(bits) => HeldRange(bits);
    case SliceTy(elem) =>
      ZeroGood(elem);
      OneTyped(elem, Zero(elem));
    case ArrayTy(size, elem) =>
      RepeatSizes(elem, size);
      ZeroAllGood(Repeat(elem, size));
    case TupleTy(elems) => ZeroAllGood(elems);
    case _ =>
  }

  lemma {:induction false} ZeroAllGood(ts: seq<Type>)
    requires AllSolid(ts)
    ensures AllWellTyped(ts, ZeroAll(ts)) && NoEmptyRows(ts, ZeroAll(ts))
    decreases DepthAll(ts), 1 + |ts|
  {
    if ts != [] {
      ZeroGood(ts[0]);
      ZeroAllGood(ts[1..]);
      assert ZeroAll(ts)[1..] == ZeroAll(ts[1..]);
    }
  }

  lemma {:induction false} MarkGood(t: Type)
    requires Solid(t)
    ensures WellTyped(t, Mark(t)) && NoEmptyRow(t, Mark(t))
    decreases Depth(t), 0
  {
    match t
    case IntTy(bits) => HeldRange(bits);
    case UintTy(bits) => HeldRange(bits);
    case SliceTy(elem) =>
      ZeroGood(elem);
      OneTyped(elem, Zero(elem));
    case ArrayTy(size, elem) =>
      RepeatSizes(elem, size);
      MarkFirstGood(Repeat(elem, size));
    case TupleTy(elems) => MarkFirstGood(elems);
    case _ =>
  }

  lemma {:induction false} MarkFirstGood(ts: seq<Type>)
    requires AllSolid(ts) && ts != []
    ensures AllWellTyped(ts, MarkFirst(ts)) && NoEmptyRows(ts, MarkFirst(ts))
    decreases DepthAll(ts), 1 + |ts|
  {
    MarkGood(ts[0]);
    ZeroAllGood(ts[1..]);
    assert MarkFirst(ts)[1..] == ZeroAll(ts[1..]);
  }

  /** Another good value in place of one. */
  lemma {:induction false} PutGood(ts: seq<Type>, vs: seq<Value>, k: nat, v: Value)
    requires AllWellTyped(ts, vs) && NoEmptyRows(ts, vs) && k < |ts| && WellTyped(ts[k], v) && NoEmptyRow(ts[k], v)
    ensures AllWellTyped(ts, vs[k := v]) && NoEmptyRows(ts, vs[k := v])
    decreases k
  {
    hide WellTyped, NoEmptyRow;
    if k > 0 {
      PutGood(ts[1..], vs[1..], k - 1, v);
      assert vs[k := v][1..] == vs[1..][k - 1 := v];
    } else {
      assert vs[0 := v][1..] == vs[1..];
    }
  }

  lemma {:induction false} ZeroAt(ts: seq<Type>, k: nat)
    requires k < |ts|
    ensures ZeroAll(ts)[k] == Zero(ts[k])
    decreases k
  {
    if k > 0 {
      ZeroAt(ts[1..], k - 1);
    }
  }

  // ----- static values -----

  /** Static values always pack: they hold no slices. */
  lemma {:induction false} StaticRows(t: Type, v: Value)
    requires Solid(t) && !IsDynamic(t) && WellTyped(t, v)
    ensures NoEmptyRow(t, v)
    decreases Depth(t), 0
  {
    match t
    case ArrayTy(size, elem) =>
      RepeatSizes(elem, size);
      StaticAllRows(Repeat(elem, size), v.vs);
    case TupleTy(elems) => StaticAllRows(elems, v.vs);
    case _ =>
  }

  lemma {:induction false} StaticAllRows(ts: seq<Type>, vs: seq<Value>)
    requires AllSolid(ts) && !AnyDynamic(ts) && AllWellTyped(ts, vs)
    ensures NoEmptyRows(ts, vs)
    decreases DepthAll(ts), 1 + |ts|
  {
    if ts != [] {
      StaticRows(ts[0], vs[0]);
      StaticAllRows(ts[1..], vs[1..]);
    }
  }

  lemma {:induction false} ZeroPacks(t: Type)
    requires Solid(t) && !IsDynamic(t) && WellTyped(t, Zero(t)) && Pack(t, Zero(t)).Ok?
    ensures Wrappers.Only(Pack(t, Zero(t)).value, 0)
    decreases Depth(t), 0
  {
    match t
    case ArrayTy(size, elem) =>
      RepeatSizes(elem, size);
      ZeroParts(Repeat(elem, size), GetTypeSize(elem) * size);
    case TupleTy(elems) => ZeroParts(elems, SumSizes(elems));
    case _ => ZeroElement(t);
  }

  lemma ZeroElement(t: Type)
    requires Solid(t) && !IsDynamic(t) && IsElementary(t) && SameKind(t, Zero(t))
    ensures Wrappers.Only(PackElement(t, Zero(t)), 0)
  {
    hide PackNum;
    ZeroNumber();
  }

  lemma ZeroNumber()
    ensures Wrappers.Only(PackNum(0), 0)
  {
    hide Pow256;
    SmallMod(0, Pow256(32));
    ZeroFixed(32);
  }

  lemma {:induction false} ZeroFixed(k: nat)
    ensures Wrappers.Only(Fixed(0, k), 0)
  {
    if k > 0 {
      ZeroFixed(k - 1);
    }
  }

  lemma {:induction false} ZeroParts(ts: seq<Type>, offset: nat)
    requires AllSolid(ts) && !AnyDynamic(ts) && AllWellTyped(ts, ZeroAll(ts)) && PackParts(ts, ZeroAll(ts)).Ok?
    ensures Wrappers.Only(Heads(PackParts(ts, ZeroAll(ts)).value, offset), 0)
    ensures Tails(PackParts(ts, ZeroAll(ts)).value) == []
    decreases DepthAll(ts), 1 + |ts|
  {
    hide Pack, Zero;
    if ts != [] {
      var vs := ZeroAll(ts);
      assert vs[0] == Zero(ts[0]) && vs[1..] == ZeroAll(ts[1..]);
      ZeroPacks(ts[0]);
      ZeroParts(ts[1..], offset);
      var ps := PackParts(ts, vs).value;
      assert ps[1..] == PackParts(ts[1..], vs[1..]).value;
      assert ps[0] == Part(false, Pack(ts[0], vs[0]).value);
    }
  }

  /** Components are read one behind the other. */
  lemma UnpackFirst(ts: seq<Type>, pos: nat, out: seq<byte>)
    requires ts != []
    ensures UnpackFrom(ts, pos, out).Ok? ==>
              && ToGoType(pos, ts[0], out) == Ok(UnpackFrom(ts, pos, out).value[0])
              && UnpackFrom(ts[1..], pos + GetTypeSize(ts[0]), out) == Ok(UnpackFrom(ts, pos, out).value[1..])
  {
    hide ToGoType;
    if UnpackFrom(ts, pos, out).Ok? {
      var v, vs := ToGoType(pos, ts[0], out).value, UnpackFrom(ts[1..], pos + GetTypeSize(ts[0]), out).value;
      assert ([v] + vs)[1..] == vs;
    }
  }

  lemma {:induction false} UnpackAt(ts: seq<Type>, pos: nat, out: seq<byte>, k: nat)
    requires k < |ts|
    ensures UnpackFrom(ts, pos, out).Ok? ==>
              ToGoType(pos + SumSizes(ts[..k]), ts[k], out) == Ok(UnpackFrom(ts, pos, out).value[k])
    decreases k
  {
    hide ToGoType, GetTypeSize;
    UnpackFirst(ts, pos, out);
    if k > 0 {
      UnpackAt(ts[1..], pos + GetTypeSize(ts[0]), out, k - 1);
      assert ts[..k][1..] == ts[1..][..k - 1];
    } else {
      assert ts[..0] == [];
    }
  }

  lemma ZeroWord(word: seq<byte>)
    requires |word| == 32 && Wrappers.Only(word, 0)
    ensures word == PackNum(0)
  {
    hide PackNum;
    ZeroNumber();
  }

  /** How many offsets are followed from the start of a value to its first elementary value or length. */
  function Lead(t: Type): nat
    decreases t
  {
    match t
    case ArrayTy(_, elem) => if IsDynamic(elem) then 1 + Lead(elem) else 0
    case TupleTy(elems) => if elems != [] && IsDynamic(elems[0]) then 1 + Lead(elems[0]) else 0
    case _ => 0
  }

  lemma {:induction false} StaticLead(t: Type)
    ensures !IsDynamic(t) ==> Lead(t) == 0
  {
    if t.TupleTy? && t.elems != [] {
      assert IsDynamic(t.elems[0]) ==> AnyDynamic(t.elems);
    }
  }

  /** A word of the kind that heads are made of: an offset, which is a multiple of 32, or zero. */
  ghost predicate HeadWord(out: seq<byte>, at: nat, x: nat) {
    at + 32 <= |out| && out[at..at + 32] == PackNum(x) && x % 32 == 0 && x < INT64_LIMIT
  }

  /** From a head word no marked value is read, if it is zero or the value starts there. */
  lemma {:induction false} ReadsWord(t: Type, pos: nat, out: seq<byte>, at: nat, x: nat)
    requires Solid(t) && |out| < INT64_LIMIT && pos + 32 <= |out|
    requires HeadWord(out, at, x) && (x == 0 || Lead(t) == 0)
    requires if IsDynamic(t) then out[pos..pos + 32] == PackNum(at) else at == pos
    ensures ToGoType(pos, t, out) != Ok(Mark(t))
    decreases t
  {
    hide PackNum, Number, ToGoType;
    match t
    case ArrayTy(size, elem) =>
      StaticLead(elem);
      WordInside(out, at, x);
      ReadsWord(elem, 0, out[at..], 0, x);
      BodyAt(t, pos, out, at);
      UnpackFirst(Repeat(elem, size), 0, out[at..]);
    case TupleTy(elems) =>
      StaticLead(elems[0]);
      WordInside(out, at, x);
      ReadsWord(elems[0], 0, out[at..], 0, x);
      BodyAt(t, pos, out, at);
      UnpackFirst(elems, 0, out[at..]);
    case SliceTy(elem) => ReadsLength(t, pos, out, at, x);
    case StringTy => ReadsLength(t, pos, out, at, x);
    case BytesTy => ReadsLength(t, pos, out, at, x);
    case _ => ReadsElement(t, pos, out, x);
  }

  lemma WordInside(out: seq<byte>, at: nat, x: nat)
    requires HeadWord(out, at, x)
    ensures HeadWord(out[at..], 0, x)
  {
    hide PackNum;
    assert out[at..][0..0 + 32] == out[at..at + 32];
  }

  /** The components of an array or tuple are read from where its head leads. */
  lemma BodyAt(t: Type, pos: nat, out: seq<byte>, at: nat)
    requires (t.ArrayTy? || t.TupleTy?) && pos + 32 <= |out| && at <= |out| < INT64_LIMIT
    requires if IsDynamic(t) then out[pos..pos + 32] == PackNum(at) else at == pos
    ensures ToGoType(pos, t, out).Ok? ==>
              var ts := if t.ArrayTy? then Repeat(t.elem, t.size) else t.elems;
              var r := UnpackFrom(ts, 0, out[at..]);
              r.Ok? && ToGoType(pos, t, out).value == if t.ArrayTy? then Items(r.value) else Fields(r.value)
  {
    hide PackNum, Number, UnpackFrom;
    if IsDynamic(t) {
      PackNumWhole(at);
      assert out[pos + 24..pos + 32] == out[pos..pos + 32][24..];
      if t.ArrayTy? {
        assert ArrayPointsTo(pos, out) == Ok(at);
        assert ToGoType(pos, t, out) == ForEachUnpack(t.elem, out[at..], t.size);
      } else {
        assert TuplePointsTo(pos, out) == Ok(at);
        assert ToGoType(pos, t, out) == ForTupleUnpack(t.elems, out[at..]);
      }
    } else if t.ArrayTy? {
      assert ToGoType(pos, t, out) == ForEachUnpack(t.elem, out[at..], t.size);
    } else {
      assert ToGoType(pos, t, out) == ForTupleUnpack(t.elems, out[at..]);
    }
  }

  /** A length that is a multiple of 32 is not that of a marked value. */
  lemma ReadsLength(t: Type, pos: nat, out: seq<byte>, at: nat, x: nat)
    requires t.SliceTy? || t.StringTy? || t.BytesTy?
    requires |out| < INT64_LIMIT && pos + 32 <= |out| && out[pos..pos + 32] == PackNum(at) && HeadWord(out, at, x)
    ensures ToGoType(pos, t, out) != Ok(Mark(t))
  {
    hide PackNum, Number, UnpackFrom, Zero;
    PackNumWhole(at);
    PackNumWhole(x);
    assert LengthPrefixPointsTo(pos, out).Ok? ==> LengthPrefixPointsTo(pos, out).value == Span(at + 32, x);
  }

  lemma ReadsElement(t: Type, pos: nat, out: seq<byte>, x: nat)
    requires Solid(t) && !IsDynamic(t) && IsElementary(t) && HeadWord(out, pos, x)
    ensures ToGoType(pos, t, out) != Ok(Mark(t))
  {
    hide Number, ReadInteger, PackNum;
    var word := out[pos..pos + 32];
    WordEnds(x);
    if t.IntTy? || t.UintTy? {
      ReadsInteger(t.bits, t.IntTy?, x);
    } else if t.FixedBytesTy? {
      assert out[pos..pos + t.width][0] == word[0];
    } else if t.AddressTy? {
      assert word[12..][19] == word[31];
    } else if t.FunctionTy? {
      assert word[..24][0] == word[0];
    }
  }

  /** The first byte of a head word is zero, and the last one is a multiple of 32. */
  lemma WordEnds(x: nat)
    requires x % 32 == 0 && x < INT64_LIMIT
    ensures PackNum(x)[0] == 0 && PackNum(x)[31] % 32 == 0
  {
    hide PackNum, Pow256;
    var word := PackNum(x);
    LowBytes(x, 1);
    assert word[31..] == [word[31]];
    assert Number([word[31]]) == word[31] && Pow256(1) == 256 by { OneByte(word[31]); }
    PackNumWhole(x);
    NumberHigh(word);
    Pow256Of8();
    Pow256Monotone(8, 31);
  }

  lemma OneByte(b: byte)
    ensures Number([b]) == b && Pow256(1) == 256
  {
    assert [b][..0] == [];
  }

  /** The first byte counts with the highest power. */
  lemma {:induction false} NumberHigh(b: seq<byte>)
    requires b != []
    ensures b[0] != 0 ==> Number(b) >= Pow256(|b| - 1)
  {
    if |b| > 1 {
      NumberHigh(b[..|b| - 1]);
    }
  }

  lemma ReadsInteger(bits: nat, signed: bool, x: nat)
    requires x % 32 == 0
    ensures ReadInteger(bits, signed, PackNum(x)) != 1
  {
    hide Number, Pow256, PackNum;
    var k := if IsMachineInt(bits) then bits / 8 else 32;
    LowBytes(x, k);
    PowerIn32(k);
    ModIn32(x, Pow256(k));
  }

  lemma PowerIn32(k: nat)
    requires k >= 1
    ensures Pow256(k) % 32 == 0
  {
    assert Pow256(k) == 32 * (8 * Pow256(k - 1));
  }

  lemma ModIn32(x: nat, p: nat)
    requires p > 0 && x % 32 == 0 && p % 32 == 0
    ensures (x % p) % 32 == 0 && (x % p - p) % 32 == 0
  {
    var q := x / p;
    assert x % p == x - p * q;
    assert x % p == 32 * (x / 32 - (p / 32) * q);
  }

  /** One offset further: the head leads to an offset, and that to a head word at which the value starts. */
  lemma ReadsBehind(t: Type, pos: nat, out: seq<byte>, at: nat, y: nat, x: nat)
    requires Solid(t) && IsDynamic(t) && Lead(t) == 1 && |out| < INT64_LIMIT && pos + 32 <= |out|
    requires out[pos..pos + 32] == PackNum(at) && HeadWord(out, at, y) && HeadWord(out, at + y, x)
    ensures ToGoType(pos, t, out) != Ok(Mark(t))
  {
    hide PackNum, Number, ToGoType;
    var inner := out[at..];
    WordInside(out, at, y);
    assert inner[y..y + 32] == out[at + y..at + y + 32];
    var first := if t.ArrayTy? then t.elem else t.elems[0];
    var ts := if t.ArrayTy? then Repeat(t.elem, t.size) else t.elems;
    ReadsWord(first, 0, inner, y, x);
    BodyAt(t, pos, out, at);
    UnpackFirst(ts, 0, inner);
  }

  // ----- values that are lost -----

  /** Every tuple inside the type is anchored. */
  predicate Anchored(t: Type)
    decreases t, 1
  {
    match t
    case SliceTy(elem) => Anchored(elem)
    case ArrayTy(_, elem) => Anchored(elem)
    case TupleTy(elems) => AnchoredList(elems)
    case _ => true
  }

  predicate AllAnchored(ts: seq<Type>)
    decreases ts, 0
  {
    ts == [] || (Anchored(ts[0]) && AllAnchored(ts[1..]))
  }

  /**
    Behind the first unsized component there is none, or one that is lost there; or else the first component starts
    where its offset leads, or that offset leads into a static component.
    */
  predicate AnchoredList(ts: seq<Type>)
    decreases ts, 1
  {
    && AllAnchored(ts)
    && (FirstUnsized(ts) + 1 < |ts| && !NextLost(ts) ==>
          Lead(ts[0]) == 0 || (Cover(ts, SumSizes(ts)) < |ts| && !IsDynamic(ts[Cover(ts, SumSizes(ts))])))
  }

  /** The component behind the first unsized one is static, or the first is, or it starts behind at most one offset. */
  predicate NextLost(ts: seq<Type>)
    requires FirstUnsized(ts) + 1 < |ts|
  {
    var next := ts[FirstUnsized(ts) + 1];
    !IsDynamic(next) || !IsDynamic(ts[0]) || Lead(next) <= 1
  }

  /** The component in whose head a position lies. */
  function Cover(ts: seq<Type>, pos: nat): (k: nat)
    ensures k <= |ts|
  {
    if ts == [] || pos < TrueSize(ts[0]) then 0 else 1 + Cover(ts[1..], pos - TrueSize(ts[0]))
  }

  function FirstUnsized(ts: seq<Type>): (k: nat)
    ensures k <= |ts|
  {
    if ts == [] || !Sized(ts[0]) then 0 else 1 + FirstUnsized(ts[1..])
  }

  function FirstUnsound(ts: seq<Type>): (k: nat)
    ensures k <= |ts|
  {
    if ts == [] || !Sound(ts[0]) then 0 else 1 + FirstUnsound(ts[1..])
  }

  function FirstDynamic(ts: seq<Type>): (k: nat)
    ensures k <= |ts|
  {
    if ts == [] || IsDynamic(ts[0]) then 0 else 1 + FirstDynamic(ts[1..])
  }

  /** A component that is misread in a list that is not aligned. */
  function Misread(ts: seq<Type>): nat {
    if FirstUnsized(ts) + 1 >= |ts| then FirstDynamic(ts)
    else if NextLost(ts) then FirstUnsized(ts) + 1
    else 0
  }

  function Bad(t: Type): Value
    decreases Depth(t), 0
  {
    match t
    case SliceTy(elem) => Items(BadAll(Repeat(elem, 2)))
    case ArrayTy(size, elem) => Items(BadAll(Repeat(elem, size)))
    case TupleTy(elems) => Fields(BadAll(elems))
    case _ => Zero(t)
  }

  /** Zero except for a component that is misread, or one that loses values by itself. */
  function BadAll(ts: seq<Type>): (vs: seq<Value>)
    ensures |vs| == |ts|
    decreases DepthAll(ts), 1 + |ts|
  {
    if !Aligned(ts) && Misread(ts) < |ts| then ZeroAll(ts)[Misread(ts) := Mark(ts[Misread(ts)])]
    else if FirstUnsound(ts) < |ts| then
      DepthAt(ts, FirstUnsound(ts));
      ZeroAll(ts)[FirstUnsound(ts) := Bad(ts[FirstUnsound(ts)])]
    else ZeroAll(ts)
  }

  lemma {:induction false} BadGood(t: Type)
    requires Solid(t)
    ensures WellTyped(t, Bad(t)) && NoEmptyRow(t, Bad(t))
    decreases Depth(t), 0
  {
    match t
    case SliceTy(elem) =>
      RepeatSizes(elem, 2);
      BadAllGood(Repeat(elem, 2));
    case ArrayTy(size, elem) =>
      RepeatSizes(elem, size);
      BadAllGood(Repeat(elem, size));
    case TupleTy(elems) => BadAllGood(elems);
    case _ => ZeroGood(t);
  }

  lemma {:induction false} BadAllGood(ts: seq<Type>)
    requires AllSolid(ts)
    ensures AllWellTyped(ts, BadAll(ts)) && NoEmptyRows(ts, BadAll(ts))
    decreases DepthAll(ts), 1 + |ts|
  {
    hide AllSolid, AllWellTyped, NoEmptyRows, WellTyped, NoEmptyRow, Bad, Mark, ZeroAll, Aligned, Misread, FirstUnsound,
      Solid;
    ZeroAllGood(ts);
    if !Aligned(ts) && Misread(ts) < |ts| {
      SolidAt(ts, Misread(ts));
      MarkGood(ts[Misread(ts)]);
      PutGood(ts, ZeroAll(ts), Misread(ts), Mark(ts[Misread(ts)]));
    } else if FirstUnsound(ts) < |ts| {
      var k := FirstUnsound(ts);
      SolidAt(ts, k);
      DepthAt(ts, k);
      BadGood(ts[k]);
      PutGood(ts, ZeroAll(ts), k, Bad(ts[k]));
    }
  }

  lemma {:induction false} SolidAt(ts: seq<Type>, k: nat)
    requires AllSolid(ts) && k < |ts|
    ensures Solid(ts[k]) && (AllAnchored(ts) ==> Anchored(ts[k]))
    decreases k
  {
    if k > 0 {
      SolidAt(ts[1..], k - 1);
    }
  }

  // ----- where components lie and where they are read -----

  lemma {:induction false} PartAt(ts: seq<Type>, vs: seq<Value>, k: nat)
    requires |ts| == |vs| && PackParts(ts, vs).Ok? && k < |ts|
    ensures Pack(ts[k], vs[k]).Ok?
    ensures PackParts(ts, vs).value[k] == Part(IsDynamic(ts[k]), Pack(ts[k], vs[k]).value)
    decreases k
  {
    hide Pack;
    if k > 0 {
      PartAt(ts[1..], vs[1..], k - 1);
    }
  }

  /** The head of component k. */
  lemma {:induction false} HeadAt(ts: seq<Type>, ps: seq<Part>, offset: nat, k: nat, pos: nat, out: seq<byte>)
    requires AllSolid(ts) && Shaped(ts, ps) && k < |ts|
    requires pos + |Heads(ps, offset)| <= |out| && out[pos..pos + |Heads(ps, offset)|] == Heads(ps, offset)
    ensures var at := pos + TrueSizes(ts[..k]);
            && at + TrueSize(ts[k]) <= |out|
            && (!IsDynamic(ts[k]) ==> out[at..at + TrueSize(ts[k])] == ps[k].bytes)
            && (IsDynamic(ts[k]) ==> out[at..at + TrueSize(ts[k])] == PackNum(offset + |Tails(ps[..k])|))
    decreases k
  {
    hide TrueSize, PackNum, Solid, IsDynamic, Heads, TrueSizes, AllSolid, Tails;
    HeadsSplit(ts, ps, offset, pos, out);
    if k > 0 {
      SizesFirst(ts, k);
      TailsFirst(ps, k);
      var next := if ps[0].dynamic then offset + |ps[0].bytes| else offset;
      HeadAt(ts[1..], ps[1..], next, k - 1, pos + TrueSize(ts[0]), out);
    } else {
      assert ts[..0] == [] && ps[..0] == [];
      NoSizes();
    }
  }

  lemma NoSizes()
    ensures TrueSizes([]) == 0 && Tails([]) == []
  {
  }

  lemma TailsFirst(ps: seq<Part>, k: nat)
    requires 0 < k <= |ps|
    ensures |Tails(ps[..k])| == (if ps[0].dynamic then |ps[0].bytes| else 0) + |Tails(ps[1..][..k - 1])|
  {
    assert ps[..k][1..] == ps[1..][..k - 1];
  }

  /** Tails are whole words; in front of the first dynamic component there are none. */
  lemma {:induction false} TailsBefore(ts: seq<Type>, ps: seq<Part>, k: nat)
    requires Shaped(ts, ps) && k <= |ts|
    ensures |Tails(ps[..k])| % 32 == 0 && |Tails(ps[..k])| <= |Tails(ps)|
    ensures k <= FirstDynamic(ts) ==> Tails(ps[..k]) == []
    decreases k
  {
    hide IsDynamic, TrueSize;
    if k > 0 {
      TailsFirst(ps, k);
      TailsFirst(ps, |ps|);
      assert ps[..|ps|] == ps && ps[1..][..|ps| - 1] == ps[1..];
      TailsBefore(ts[1..], ps[1..], k - 1);
    } else {
      assert ps[..0] == [];
    }
  }

  lemma SizesFirst(ts: seq<Type>, k: nat)
    requires 0 < k <= |ts|
    ensures TrueSizes(ts[..k]) == TrueSize(ts[0]) + TrueSizes(ts[1..][..k - 1])
    ensures AllSolid(ts) ==> AllSolid(ts[1..])
  {
    hide TrueSize, Solid;
    assert ts[..k][1..] == ts[1..][..k - 1];
  }

  /** The head of the first component, and the others behind it. */
  lemma HeadsSplit(ts: seq<Type>, ps: seq<Part>, offset: nat, pos: nat, out: seq<byte>)
    requires ts != [] && AllSolid(ts) && Shaped(ts, ps)
    requires pos + |Heads(ps, offset)| <= |out| && out[pos..pos + |Heads(ps, offset)|] == Heads(ps, offset)
    ensures var first := if ps[0].dynamic then PackNum(offset) else ps[0].bytes;
            var rest := Heads(ps[1..], if ps[0].dynamic then offset + |ps[0].bytes| else offset);
            var at := pos + TrueSize(ts[0]);
            && at + |rest| <= |out| && out[pos..at] == first && out[at..at + |rest|] == rest
  {
    hide TrueSize, PackNum, Solid, IsDynamic;
    SolidSize(ts[0]);
    if ps[0].dynamic {
      Wrappers.SliceParts(out, pos, PackNum(offset), Heads(ps[1..], offset + |ps[0].bytes|));
    } else {
      Wrappers.SliceParts(out, pos, ps[0].bytes, Heads(ps[1..], offset));
    }
  }

  /** Behind sized components decoder and encoder agree on the position. */
  lemma {:induction false} SameSizes(ts: seq<Type>, k: nat)
    requires k <= |ts| && k <= FirstUnsized(ts)
    ensures SumSizes(ts[..k]) == TrueSizes(ts[..k])
    decreases k
  {
    hide GetTypeSize, TrueSize;
    if k > 0 {
      SameSizes(ts[1..], k - 1);
      assert ts[..k][1..] == ts[1..][..k - 1];
    }
  }

  lemma {:induction false} SumNext(ts: seq<Type>, k: nat)
    requires k < |ts|
    ensures SumSizes(ts[..k + 1]) == SumSizes(ts[..k]) + GetTypeSize(ts[k])
    decreases k
  {
    hide GetTypeSize;
    if k > 0 {
      SumNext(ts[1..], k - 1);
      assert ts[..k][1..] == ts[1..][..k - 1] && ts[..k + 1][1..] == ts[1..][..k];
    } else {
      assert ts[..0] == [] && ts[..1] == [ts[0]] && [ts[0]][1..] == [];
    }
  }

  lemma {:induction false} FirstUnsizedIs(ts: seq<Type>)
    ensures AllSized(ts) <==> FirstUnsized(ts) == |ts|
    ensures FirstUnsized(ts) < |ts| ==> !Sized(ts[FirstUnsized(ts)])
    ensures ts != [] ==> (AllSized(ts[..|ts| - 1]) <==> FirstUnsized(ts) >= |ts| - 1)
  {
    hide Sized;
    if ts != [] {
      FirstUnsizedIs(ts[1..]);
      if |ts| > 1 {
        assert ts[..|ts| - 1][0] == ts[0] && ts[..|ts| - 1][1..] == ts[1..][..|ts[1..]| - 1];
      } else {
        assert ts[..0] == [];
      }
    }
  }

  lemma {:induction false} FirstDynamicIs(ts: seq<Type>)
    ensures AnyDynamic(ts) <==> FirstDynamic(ts) < |ts|
    ensures FirstDynamic(ts) < |ts| ==> IsDynamic(ts[FirstDynamic(ts)])
  {
    hide IsDynamic;
    if ts != [] {
      FirstDynamicIs(ts[1..]);
    }
  }

  lemma {:induction false} FirstUnsoundIs(ts: seq<Type>)
    ensures AllSound(ts) <==> FirstUnsound(ts) == |ts|
    ensures FirstUnsound(ts) < |ts| ==> !Sound(ts[FirstUnsound(ts)])
  {
    hide Sound;
    if ts != [] {
      FirstUnsoundIs(ts[1..]);
    }
  }

  /** In a list that is not aligned: the unsized component, which is static, and the one that is misread. */
  lemma MisreadIs(ts: seq<Type>)
    requires AllSolid(ts) && !Aligned(ts)
    ensures var i, k := FirstUnsized(ts), Misread(ts);
            && i < |ts| && !Sized(ts[i]) && !IsDynamic(ts[i]) && k < |ts| && k != i
            && (i + 1 == |ts| ==> k == FirstDynamic(ts) < i && IsDynamic(ts[k]))
            && (k == 0 && i + 1 < |ts| ==> IsDynamic(ts[0]) && !NextLost(ts))
  {
    hide Sized, AnyDynamic, AllSized, FirstUnsized, FirstDynamic, IsDynamic, GetTypeSize, TrueSize, Solid, Lead;
    var i := FirstUnsized(ts);
    FirstUnsizedIs(ts);
    FirstDynamicIs(ts);
    SolidAt(ts, i);
    SolidSize(ts[i]);
    UnsizedIs(ts[i]);
  }

  lemma UnsizedIs(t: Type)
    ensures !Sized(t) <==> GetTypeSize(t) != TrueSize(t)
  {
  }

  /** An unsized type takes at least a word more than announced. */
  lemma UnsizedRoom(t: Type)
    requires Solid(t) && !Sized(t)
    ensures GetTypeSize(t) + 32 <= TrueSize(t)
  {
    hide Solid;
    SolidSize(t);
  }

  /** The zero bytes of a static component. */
  lemma ZeroBytes(ts: seq<Type>, vs: seq<Value>, k: nat, inner: seq<byte>, from: nat)
    requires AllSolid(ts) && AllWellTyped(ts, vs) && PackParts(ts, vs).Ok? && k < |ts| && vs[k] == Zero(ts[k])
    requires !IsDynamic(ts[k]) && from + 32 <= TrueSize(ts[k])
    requires Assemble(PackParts(ts, vs).value, SumSizes(ts)) <= inner
    ensures var at := TrueSizes(ts[..k]) + from;
            at + 32 <= |inner| && Wrappers.Only(inner[at..at + 32], 0)
  {
    hide PackParts, Heads, Tails, IsDynamic, TrueSize, TrueSizes, SumSizes, AllSolid, AllWellTyped, Zero, Pack, Shaped;
    var ps := PackParts(ts, vs).value;
    PartsShaped(ts, vs);
    WellTypedAt(ts, vs, k);
    SolidAt(ts, k);
    PartAt(ts, vs, k);
    HeadsFirst(ps, SumSizes(ts), inner);
    HeadAt(ts, ps, SumSizes(ts), k, 0, inner);
    ZeroPacks(ts[k]);
    PackSize(ts[k], vs[k]);
    var b := ps[k].bytes;
    Wrappers.SubSlice(inner, TrueSizes(ts[..k]), b, from, from + 32);
    Wrappers.OnlySlice(b, 0, from, from + 32);
  }

  lemma HeadsFirst(ps: seq<Part>, offset: nat, inner: seq<byte>)
    requires Assemble(ps, offset) <= inner
    ensures 0 + |Heads(ps, offset)| <= |inner| && inner[0..0 + |Heads(ps, offset)|] == Heads(ps, offset)
  {
    hide Heads, Tails;
    assert Assemble(ps, offset)[..|Heads(ps, offset)|] == Heads(ps, offset);
  }

  /** Which component covers a position in the head. */
  lemma {:induction false} CoverIs(ts: seq<Type>, pos: nat)
    requires AllSolid(ts) && pos < TrueSizes(ts) && pos % 32 == 0
    ensures var k := Cover(ts, pos);
            k < |ts| && TrueSizes(ts[..k]) <= pos && pos + 32 <= TrueSizes(ts[..k]) + TrueSize(ts[k])
    ensures IsDynamic(ts[Cover(ts, pos)]) ==> pos == TrueSizes(ts[..Cover(ts, pos)])
    decreases ts
  {
    hide TrueSize, Solid, IsDynamic;
    SolidSize(ts[0]);
    if pos < TrueSize(ts[0]) {
      assert ts[..0] == [];
    } else {
      CoverIs(ts[1..], pos - TrueSize(ts[0]));
      SizesFirst(ts, Cover(ts, pos));
    }
  }

  /** Every word of the heads is a head word, outside of static components that are not zero. */
  lemma WordOfHeads(ts: seq<Type>, vs: seq<Value>, inner: seq<byte>, pos: nat) returns (x: nat)
    requires AllSolid(ts) && AllWellTyped(ts, vs) && PackParts(ts, vs).Ok? && |inner| < INT64_LIMIT
    requires Assemble(PackParts(ts, vs).value, SumSizes(ts)) <= inner
    requires pos < TrueSizes(ts) && pos % 32 == 0 && Cover(ts, pos) < |ts|
    requires !IsDynamic(ts[Cover(ts, pos)]) ==> vs[Cover(ts, pos)] == Zero(ts[Cover(ts, pos)])
    ensures HeadWord(inner, pos, x)
    ensures !IsDynamic(ts[Cover(ts, pos)]) ==> x == 0
    ensures IsDynamic(ts[Cover(ts, pos)]) && Cover(ts, pos) == FirstDynamic(ts) ==> x == SumSizes(ts)
  {
    hide PackParts, Heads, Tails, IsDynamic, TrueSize, TrueSizes, SumSizes, AllSolid, AllWellTyped, Zero, Shaped, Cover,
      PackNum, FirstDynamic, Solid;
    var k := Cover(ts, pos);
    CoverIs(ts, pos);
    if IsDynamic(ts[k]) {
      x := OffsetWord(ts, vs, inner, k);
    } else {
      ZeroBytes(ts, vs, k, inner, pos - TrueSizes(ts[..k]));
      ZeroHeadWord(inner, pos);
      x := 0;
    }
  }

  lemma OffsetWord(ts: seq<Type>, vs: seq<Value>, inner: seq<byte>, k: nat) returns (x: nat)
    requires AllSolid(ts) && AllWellTyped(ts, vs) && PackParts(ts, vs).Ok? && |inner| < INT64_LIMIT
    requires Assemble(PackParts(ts, vs).value, SumSizes(ts)) <= inner
    requires k < |ts| && IsDynamic(ts[k])
    ensures HeadWord(inner, TrueSizes(ts[..k]), x)
    ensures k == FirstDynamic(ts) ==> x == SumSizes(ts)
  {
    hide PackParts, Heads, Tails, IsDynamic, TrueSize, TrueSizes, SumSizes, AllSolid, AllWellTyped, Shaped, PackNum,
      FirstDynamic, Solid;
    var ps := PackParts(ts, vs).value;
    PartsShaped(ts, vs);
    SolidAt(ts, k);
    SolidSize(ts[k]);
    SolidSizes(ts);
    ShapedSizes(ts, ps, SumSizes(ts));
    HeadsFirst(ps, SumSizes(ts), inner);
    HeadAt(ts, ps, SumSizes(ts), k, 0, inner);
    TailsBefore(ts, ps, k);
    WholeSum(SumSizes(ts), |Tails(ps[..k])|);
    x := SumSizes(ts) + |Tails(ps[..k])|;
    assert |Heads(ps, SumSizes(ts)) + Tails(ps)| <= |inner|;
  }

  // ----- a row that loses its values -----

  /** The announced sizes fall short of the true ones. */
  lemma {:induction false} FallsShort(ts: seq<Type>)
    requires AllSolid(ts) && FirstUnsized(ts) < |ts|
    ensures SumSizes(ts) < TrueSizes(ts)
  {
    hide GetTypeSize, TrueSize, Solid;
    SolidSize(ts[0]);
    SolidSizes(ts[1..]);
    if Sized(ts[0]) {
      FallsShort(ts[1..]);
    }
  }

  /** A row that is not aligned: some component is read from a word of the heads. */
  lemma MisfitLoses(ts: seq<Type>, inner: seq<byte>)
    requires Assembled(ts, inner) && AnchoredList(ts)
    ensures UnpackFrom(ts, 0, inner) != Ok(BadAll(ts))
  {
    hide PackParts, Heads, Tails, IsDynamic, SumSizes, AllSolid, AllWellTyped, Mark, Aligned, UnpackFrom, ToGoType,
      FirstUnsized, FirstDynamic, Misread, BadAll, AnchoredList, NextLost;
    MisreadIs(ts);
    BadMarks(ts);
    if FirstUnsized(ts) + 1 == |ts| {
      MisreadDynamic(ts, inner);
    } else if Misread(ts) == 0 {
      MisreadFirst(ts, inner);
    } else {
      assert Misread(ts) == FirstUnsized(ts) + 1 && NextLost(ts) by { MisreadNextIs(ts); }
      MisreadNext(ts, inner);
    }
    UnpackAt(ts, 0, inner, Misread(ts));
  }

  lemma MisreadNextIs(ts: seq<Type>)
    requires FirstUnsized(ts) + 1 < |ts| && Misread(ts) != 0
    ensures Misread(ts) == FirstUnsized(ts) + 1 && NextLost(ts)
  {
    hide NextLost, FirstUnsized;
  }

  lemma BadMarks(ts: seq<Type>)
    requires AllSolid(ts) && !Aligned(ts)
    ensures Misread(ts) < |ts| && BadAll(ts)[Misread(ts)] == Mark(ts[Misread(ts)])
    ensures forall j :: 0 <= j < |ts| && j != Misread(ts) ==> BadAll(ts)[j] == Zero(ts[j])
  {
    hide Zero, Mark, Bad, Aligned, Misread, ZeroAll;
    MisreadIs(ts);
    forall j | 0 <= j < |ts|
      ensures ZeroAll(ts)[j] == Zero(ts[j])
    {
      ZeroAt(ts, j);
    }
  }

  /** What is assembled for a list that is not aligned, and the words of its heads that are misread. */
  ghost predicate Assembled(ts: seq<Type>, inner: seq<byte>) {
    && AllSolid(ts) && !Aligned(ts) && |inner| < INT64_LIMIT
    && AllWellTyped(ts, BadAll(ts)) && PackParts(ts, BadAll(ts)).Ok?
    && Assemble(PackParts(ts, BadAll(ts)).value, SumSizes(ts)) <= inner
  }

  /** Right behind the announced size of the unsized component there is a zero word. */
  lemma ZeroBehind(ts: seq<Type>, inner: seq<byte>)
    requires Assembled(ts, inner)
    ensures FirstUnsized(ts) < |ts| && HeadWord(inner, SumSizes(ts[..FirstUnsized(ts) + 1]), 0)
  {
    hide PackParts, Assemble, IsDynamic, TrueSize, GetTypeSize, TrueSizes, SumSizes, AllSolid, AllWellTyped, Zero, Mark,
      Aligned, FirstUnsized, Solid, Misread, BadAll, HeadWord, Wrappers.Only, Sized;
    MisreadIs(ts);
    BadMarks(ts);
    var i := FirstUnsized(ts);
    SolidAt(ts, i);
    UnsizedRoom(ts[i]);
    AnnouncedEnd(ts);
    ZeroBytes(ts, BadAll(ts), i, inner, GetTypeSize(ts[i]));
    ZeroHeadWord(inner, TrueSizes(ts[..i]) + GetTypeSize(ts[i]));
  }

  lemma AnnouncedEnd(ts: seq<Type>)
    requires FirstUnsized(ts) < |ts|
    ensures SumSizes(ts[..FirstUnsized(ts) + 1]) == TrueSizes(ts[..FirstUnsized(ts)]) + GetTypeSize(ts[FirstUnsized(ts)])
  {
    hide FirstUnsized, SumSizes, TrueSizes, GetTypeSize;
    SameSizes(ts, FirstUnsized(ts));
    SumNext(ts, FirstUnsized(ts));
  }

  lemma ZeroHeadWord(out: seq<byte>, at: nat)
    requires at + 32 <= |out| && Wrappers.Only(out[at..at + 32], 0)
    ensures HeadWord(out, at, 0)
  {
    hide PackNum;
    ZeroWord(out[at..at + 32]);
  }

  /** The word that the offset of the first dynamic component leads to. */
  lemma WordAtSum(ts: seq<Type>, inner: seq<byte>) returns (x: nat)
    requires Assembled(ts, inner) && Misread(ts) < |ts| && IsDynamic(ts[Misread(ts)])
    ensures HeadWord(inner, SumSizes(ts), x) && SumSizes(ts) % 32 == 0
    ensures Cover(ts, SumSizes(ts)) < |ts| && (!IsDynamic(ts[Cover(ts, SumSizes(ts))]) ==> x == 0)
  {
    hide PackParts, Heads, Tails, IsDynamic, TrueSize, TrueSizes, SumSizes, AllSolid, AllWellTyped, Zero, Mark, Aligned,
      FirstUnsized, PackNum, Misread, BadAll, Cover;
    MisreadIs(ts);
    BadMarks(ts);
    FallsShort(ts);
    SolidSizes(ts);
    CoverIs(ts, SumSizes(ts));
    x := WordOfHeads(ts, BadAll(ts), inner, SumSizes(ts));
  }

  /** The first word: zero, or the offset of the first component. */
  lemma FirstWord(ts: seq<Type>, inner: seq<byte>) returns (x: nat)
    requires Assembled(ts, inner) && (Misread(ts) == 0 ==> IsDynamic(ts[0]))
    ensures HeadWord(inner, 0, x) && x == if IsDynamic(ts[0]) then SumSizes(ts) else 0
  {
    hide PackParts, Heads, Tails, IsDynamic, TrueSize, TrueSizes, SumSizes, AllSolid, AllWellTyped, Zero, Mark, Aligned,
      FirstUnsized, PackNum, Misread, BadAll, Cover, Solid;
    BadMarks(ts);
    SolidAt(ts, 0);
    SolidSize(ts[0]);
    FirstCovered(ts);
    x := WordOfHeads(ts, BadAll(ts), inner, 0);
  }

  lemma FirstCovered(ts: seq<Type>)
    requires ts != [] && TrueSize(ts[0]) >= 32
    ensures 0 < TrueSizes(ts) && Cover(ts, 0) == 0 && (IsDynamic(ts[0]) ==> FirstDynamic(ts) == 0)
  {
    hide TrueSize, IsDynamic;
  }

  /** The first component, when what its offset leads to is zero or the start of its value. */
  lemma MisreadFirst(ts: seq<Type>, inner: seq<byte>)
    requires Assembled(ts, inner) && AnchoredList(ts)
    requires FirstUnsized(ts) + 1 < |ts| && Misread(ts) == 0
    ensures ToGoType(SumSizes(ts[..0]), ts[0], inner) != Ok(Mark(ts[0]))
  {
    hide PackParts, IsDynamic, SumSizes, AllSolid, AllWellTyped, Aligned, FirstUnsized, PackNum, Misread, BadAll, Cover,
      Solid, AllAnchored, ToGoType, Mark, Heads, Tails, Lead, NextLost;
    MisreadIs(ts);
    SolidAt(ts, 0);
    var s := FirstWord(ts, inner);
    var x := WordAtSum(ts, inner);
    assert SumSizes(ts[..0]) == 0 by { NoSums(ts); }
    ReadsWord(ts[0], 0, inner, s, x);
  }

  lemma NoSums(ts: seq<Type>)
    ensures SumSizes(ts[..0]) == 0
  {
  }

  /** The component behind the unsized one has a zero word for its head; as an offset, it leads to the first word. */
  lemma MisreadNext(ts: seq<Type>, inner: seq<byte>)
    requires Assembled(ts, inner)
    requires FirstUnsized(ts) + 1 < |ts| && Misread(ts) == FirstUnsized(ts) + 1 && NextLost(ts)
    ensures ToGoType(SumSizes(ts[..Misread(ts)]), ts[Misread(ts)], inner) != Ok(Mark(ts[Misread(ts)]))
  {
    hide PackParts, IsDynamic, SumSizes, AllSolid, AllWellTyped, Aligned, FirstUnsized, PackNum, Misread, BadAll, Cover,
      Solid, ToGoType, Mark, Heads, Tails, Lead;
    var k := Misread(ts);
    var at := SumSizes(ts[..k]);
    SolidAt(ts, k);
    ZeroBehind(ts, inner);
    if !IsDynamic(ts[k]) {
      ReadsWord(ts[k], at, inner, at, 0);
    } else {
      var y := FirstWord(ts, inner);
      if y == 0 || Lead(ts[k]) == 0 {
        ReadsWord(ts[k], at, inner, 0, y);
      } else {
        var x := WordAtSum(ts, inner);
        ReadsBehind(ts[k], at, inner, 0, y, x);
      }
    }
  }

  /** When only the last component is unsized, the first dynamic one is looked for inside it. */
  lemma MisreadDynamic(ts: seq<Type>, inner: seq<byte>)
    requires Assembled(ts, inner) && FirstUnsized(ts) + 1 == |ts| && Misread(ts) < |ts|
    ensures ToGoType(SumSizes(ts[..Misread(ts)]), ts[Misread(ts)], inner) != Ok(Mark(ts[Misread(ts)]))
  {
    hide PackParts, Heads, Tails, IsDynamic, TrueSize, GetTypeSize, TrueSizes, SumSizes, AllSolid, AllWellTyped, Zero,
      Mark, Aligned, ToGoType, FirstUnsized, FirstDynamic, PackNum, Solid, Misread, BadAll, Lead;
    MisreadIs(ts);
    var k := Misread(ts);
    SolidAt(ts, k);
    SameSizes(ts, k);
    var s := OffsetWord(ts, BadAll(ts), inner, k);
    ZeroBehind(ts, inner);
    assert ts[..FirstUnsized(ts) + 1] == ts;
    ReadsWord(ts[k], SumSizes(ts[..k]), inner, s, 0);
  }

  /** An unsound row loses its values. */
  lemma RowLoses(ts: seq<Type>, inner: seq<byte>)
    requires AllSolid(ts) && AnchoredList(ts) && !SoundList(ts)
    requires AllWellTyped(ts, BadAll(ts)) && PackParts(ts, BadAll(ts)).Ok? && |inner| < INT64_LIMIT
    requires Assemble(PackParts(ts, BadAll(ts)).value, SumSizes(ts)) <= inner
    ensures UnpackFrom(ts, 0, inner) != Ok(BadAll(ts))
    decreases DepthAll(ts), 2 + |ts|
  {
    hide PackParts, Heads, Tails, IsDynamic, TrueSizes, SumSizes, AllSolid, AllWellTyped, UnpackFrom, ToGoType, Solid,
      Bad, FirstUnsound, BadAll, AllSound, AllSized, AnyDynamic, AllAnchored, Placed, AllPlaced, Shaped;
    if !Aligned(ts) {
      MisfitLoses(ts, inner);
    } else {
      FirstUnsoundIs(ts);
      var k := FirstUnsound(ts);
      var ps := PackParts(ts, BadAll(ts)).value;
      BadIs(ts);
      PartsShaped(ts, BadAll(ts));
      AssemblePlaced(ts, ps, inner);
      PlacedAtHead(ts, ps, k, inner);
      PartAt(ts, BadAll(ts), k);
      SolidAt(ts, k);
      DepthAt(ts, k);
      WellTypedAt(ts, BadAll(ts), k);
      Loses(ts[k], SumSizes(ts[..k]), inner);
      UnpackAt(ts, 0, inner, k);
    }
  }

  lemma BadIs(ts: seq<Type>)
    requires Aligned(ts) && FirstUnsound(ts) < |ts|
    ensures BadAll(ts)[FirstUnsound(ts)] == Bad(ts[FirstUnsound(ts)])
  {
    hide Bad, Aligned, FirstUnsound;
  }

  /** In an aligned row each component is placed where it is read. */
  lemma PlacedAtHead(ts: seq<Type>, ps: seq<Part>, k: nat, inner: seq<byte>)
    requires AllSolid(ts) && Aligned(ts) && Shaped(ts, ps) && AllPlaced(ps, 0, inner) && k < |ts|
    ensures Placed(ps[k], SumSizes(ts[..k]), inner)
  {
    hide Placed, Shaped, AllPlaced, AllSized, SumSizes, TrueSizes, AllSolid;
    FirstUnsizedIs(ts);
    SameSizes(ts, k);
    PlacedNth(ts, ps, k, 0, inner);
  }

  lemma {:induction false} PlacedNth(ts: seq<Type>, ps: seq<Part>, k: nat, pos: nat, inner: seq<byte>)
    requires AllSolid(ts) && Shaped(ts, ps) && AllPlaced(ps, pos, inner) && k < |ts|
    ensures Placed(ps[k], pos + TrueSizes(ts[..k]), inner)
    decreases k
  {
    hide Placed, TrueSize, Solid, IsDynamic;
    SolidSize(ts[0]);
    if k > 0 {
      PlacedNth(ts[1..], ps[1..], k - 1, pos + TrueSize(ts[0]), inner);
      assert ts[..k][1..] == ts[1..][..k - 1];
    } else {
      assert ts[..0] == [];
    }
  }

  /** An unsound type loses a value wherever it is placed. */
  lemma {:induction false} Loses(t: Type, pos: nat, out: seq<byte>)
    requires Solid(t) && Anchored(t) && !Sound(t) && WellTyped(t, Bad(t)) && Pack(t, Bad(t)).Ok? && |out| < INT64_LIMIT
    requires Placed(Part(IsDynamic(t), Pack(t, Bad(t)).value), pos, out)
    ensures ToGoType(pos, t, out) != Ok(Bad(t))
    decreases Depth(t), 0
  {
    hide Placed, ToGoType, Pack, Bad, WellTyped;
    match t
    case SliceTy(elem) => SliceLoses(t, pos, out);
    case ArrayTy(size, elem) => ArrayLoses(t, pos, out);
    case TupleTy(elems) => TupleLoses(t, pos, out);
    case _ =>
  }

  /** An unsound array or slice is an unsound row of its elements. */
  lemma UnsoundRow(elem: Type, n: nat)
    requires Solid(elem) && Anchored(elem) && n >= 1 && (!Sound(elem) || (n > 1 && !Sized(elem)))
    ensures var ts := Repeat(elem, n);
            AllSolid(ts) && AnchoredList(ts) && !SoundList(ts)
  {
    hide Sized, IsDynamic, Solid, Anchored, Sound, TrueSize, GetTypeSize, AllSized;
    var ts := Repeat(elem, n);
    RepeatSizes(elem, n);
    RepeatAnchored(elem, n);
    SolidSize(elem);
    UnsizedIs(elem);
    FirstUnsizedIs(ts);
    assert ts[0] == elem && AllSized(ts) == Sized(elem) by { RepeatSized(elem, n); }
  }

  lemma {:induction false} RepeatSized(t: Type, n: nat)
    requires n >= 1
    ensures AllSized(Repeat(t, n)) == Sized(t) && FirstUnsized(Repeat(t, n)) == (if Sized(t) then n else 0)
  {
    hide Sized;
    assert Repeat(t, n)[1..] == Repeat(t, n - 1);
    if n > 1 {
      RepeatSized(t, n - 1);
    }
  }

  lemma {:induction false} RepeatAnchored(t: Type, n: nat)
    requires Anchored(t)
    ensures AllAnchored(Repeat(t, n))
  {
    if n > 0 {
      RepeatAnchored(t, n - 1);
      assert Repeat(t, n)[1..] == Repeat(t, n - 1);
    }
  }

  lemma SliceLoses(t: Type, pos: nat, out: seq<byte>)
    requires t.SliceTy? && Solid(t) && Anchored(t) && !Sound(t) && WellTyped(t, Bad(t)) && Pack(t, Bad(t)).Ok?
    requires Placed(Part(true, Pack(t, Bad(t)).value), pos, out) && |out| < INT64_LIMIT
    ensures ToGoType(pos, t, out) != Ok(Bad(t))
    decreases DepthAll(Repeat(t.elem, 2)), 6
  {
    hide PackNum, Heads, Tails, Number, Shaped, PackParts, SumSizes, Pack, Repeat, AllWellTyped, AllSolid, UnpackFrom,
      SoundList, Sized, BadAll, Aligned, AllAnchored, IsDynamic;
    var ts := Repeat(t.elem, 2);
    PackedSequence(t, Bad(t));
    UnsoundRow(t.elem, 2);
    var b := Pack(t, Bad(t)).value;
    var rest := b[32..];
    var off: nat :| PlacedAt(Part(true, b), pos, out, off);
    assert b == PackNum(2) + rest;
    Wrappers.SliceParts(out, off, PackNum(2), rest);
    var inner := out[off + 32..];
    assert rest <= inner;
    PackNumWhole(off);
    PackNumWhole(2);
    RowLoses(ts, inner);
  }

  lemma ArrayLoses(t: Type, pos: nat, out: seq<byte>)
    requires t.ArrayTy? && Solid(t) && Anchored(t) && !Sound(t) && WellTyped(t, Bad(t)) && Pack(t, Bad(t)).Ok?
    requires Placed(Part(IsDynamic(t), Pack(t, Bad(t)).value), pos, out) && |out| < INT64_LIMIT
    ensures ToGoType(pos, t, out) != Ok(Bad(t))
    decreases DepthAll(Repeat(t.elem, t.size)), 4 + t.size
  {
    hide PackNum, Heads, Tails, Number, Shaped, PackParts, SumSizes, Pack, Repeat, AllWellTyped, AllSolid, UnpackFrom,
      SoundList, Sized, BadAll, Aligned, AllAnchored;
    PackedSequence(t, Bad(t));
    UnsoundRow(t.elem, t.size);
    var b := Pack(t, Bad(t)).value;
    var off: nat := pos;
    if IsDynamic(t) {
      off :| PlacedAt(Part(true, b), pos, out, off);
      PackNumWhole(off);
      assert out[pos + 24..pos + 32] == out[pos..pos + 32][24..];
    }
    var inner := out[off..];
    Wrappers.RestStarts(out, off, b);
    RowLoses(Repeat(t.elem, t.size), inner);
  }

  lemma TupleLoses(t: Type, pos: nat, out: seq<byte>)
    requires t.TupleTy? && Solid(t) && Anchored(t) && !Sound(t) && WellTyped(t, Bad(t)) && Pack(t, Bad(t)).Ok?
    requires Placed(Part(IsDynamic(t), Pack(t, Bad(t)).value), pos, out) && |out| < INT64_LIMIT
    ensures ToGoType(pos, t, out) != Ok(Bad(t))
    decreases DepthAll(t.elems), 4 + |t.elems|
  {
    hide PackNum, Heads, Tails, Number, PackParts, SumSizes, AllWellTyped, AllSolid, UnpackFrom, BadAll, Aligned,
      AllAnchored, AllSound;
    var b := Pack(t, Bad(t)).value;
    var off: nat := pos;
    if IsDynamic(t) {
      off :| PlacedAt(Part(true, b), pos, out, off);
      PackNumWhole(off);
    }
    var inner := out[off..];
    Wrappers.RestStarts(out, off, b);
    RowLoses(t.elems, inner);
  }

  // ----- the exact condition -----

  ghost predicate RoundTrips(ts: seq<Type>, vs: seq<Value>) {
    PackTuple(ts, vs).Ok? && UnpackValues(ts, PackTuple(ts, vs).value) == Ok(vs)
  }

  /** The values can be packed into data of a size that the machine can address. */
  ghost predicate Packs(ts: seq<Type>, vs: seq<Value>) {
    AllWellTyped(ts, vs) && NoEmptyRows(ts, vs) && PackTuple(ts, vs).Ok? && |PackTuple(ts, vs).value| < INT64_LIMIT
  }

  lemma ListLoses(ts: seq<Type>)
    requires AllSolid(ts) && AnchoredList(ts) && !SoundList(ts) && Packs(ts, BadAll(ts))
    ensures !RoundTrips(ts, BadAll(ts))
  {
    hide AllSolid, AllAnchored, SoundList, AllWellTyped, NoEmptyRows, PackParts, Heads, Tails, SumSizes, UnpackFrom,
      BadAll, IsDynamic;
    RowLoses(ts, PackTuple(ts, BadAll(ts)).value);
  }

  /** The values that would be lost are of a size that the machine can address. */
  ghost predicate Addressable(ts: seq<Type>) {
    PackTuple(ts, BadAll(ts)).Ok? ==> |PackTuple(ts, BadAll(ts)).value| < INT64_LIMIT
  }

  lemma BadPacks(ts: seq<Type>)
    requires AllSolid(ts) && Addressable(ts)
    ensures Packs(ts, BadAll(ts))
  {
    hide AllSolid, AllWellTyped, NoEmptyRows, PackParts, BadAll, Heads, Tails;
    BadAllGood(ts);
    PartsOutcome(ts, BadAll(ts));
  }

  /** An anchored list brings back all the values that pack iff it is sound. */
  lemma AnchoredExact(ts: seq<Type>)
    requires AllSolid(ts) && AnchoredList(ts) && Addressable(ts)
    ensures SoundList(ts) <==> forall vs :: Packs(ts, vs) ==> RoundTrips(ts, vs)
  {
    hide AllSolid, AnchoredList, SoundList, AllWellTyped, NoEmptyRows, PackParts, UnpackFrom, BadAll;
    BadPacks(ts);
    if SoundList(ts) {
      forall vs | Packs(ts, vs)
        ensures RoundTrips(ts, vs)
      {
        PackUnpack(ts, vs);
      }
    } else {
      ListLoses(ts);
    }
  }

  /** A list without dynamic types brings back all its values iff it is sound. */
  lemma StaticExact(ts: seq<Type>)
    requires AllSolid(ts) && !AnyDynamic(ts) && TrueSizes(ts) < INT64_LIMIT
    ensures SoundList(ts) <==> forall vs :: AllWellTyped(ts, vs) ==> RoundTrips(ts, vs)
  {
    hide AllSolid, AnchoredList, SoundList, AllWellTyped, NoEmptyRows, PackParts, UnpackFrom, BadAll, TrueSizes,
      AnyDynamic, RoundTrips;
    StaticAnchored(ts);
    BadAllGood(ts);
    forall vs | AllWellTyped(ts, vs)
      ensures Packs(ts, vs)
    {
      StaticPacks(ts, vs);
    }
    AnchoredExact(ts);
  }

  lemma StaticPacks(ts: seq<Type>, vs: seq<Value>)
    requires AllSolid(ts) && !AnyDynamic(ts) && TrueSizes(ts) < INT64_LIMIT && AllWellTyped(ts, vs)
    ensures Packs(ts, vs)
  {
    hide AllSolid, AllWellTyped, AnyDynamic, TrueSizes, PackParts, Heads, Tails, NoEmptyRows;
    StaticAllRows(ts, vs);
    PartsOutcome(ts, vs);
    PartsShaped(ts, vs);
    ShapedSizes(ts, PackParts(ts, vs).value, SumSizes(ts));
    assert |ts| == |vs| by { SameCount(ts, vs); }
  }

  lemma SameCount(ts: seq<Type>, vs: seq<Value>)
    requires AllWellTyped(ts, vs)
    ensures |ts| == |vs|
  {
  }

  lemma {:induction false} StaticAnchored(ts: seq<Type>)
    requires !AnyDynamic(ts)
    ensures AnchoredList(ts)
    decreases ts, 1
  {
    StaticAnchors(ts);
  }

  lemma {:induction false} StaticAnchors(ts: seq<Type>)
    requires !AnyDynamic(ts)
    ensures AllAnchored(ts) && (ts != [] ==> !IsDynamic(ts[0]))
    decreases ts, 0
  {
    if ts != [] {
      StaticAnchor(ts[0]);
      StaticAnchors(ts[1..]);
    }
  }

  lemma {:induction false} StaticAnchor(t: Type)
    requires !IsDynamic(t)
    ensures Anchored(t)
    decreases t, 1
  {
    match t
    case ArrayTy(_, elem) => StaticAnchor(elem);
    case TupleTy(elems) => StaticAnchored(elems);
    case _ =>
  }


  lemma NumberSizes()
    ensures Solid(UintTy(256)) && !IsDynamic(UintTy(256)) && Sound(UintTy(256)) && Sized(UintTy(256))
    ensures GetTypeSize(UintTy(256)) == TrueSize(UintTy(256)) == 32
    ensures Zero(UintTy(256)) == Num(0) && Mark(UintTy(256)) == Num(1)
  {
  }

  lemma PairValues()
    ensures var zeros := Fields([Num(0), Num(0)]); Zero(ArrayTy(2, PAIR)) == Items([zeros, zeros])
  {
    var es := [UintTy(256), UintTy(256)];
    assert es[1..] == [UintTy(256)] && es[1..][1..] == [];
    assert ZeroAll(es) == [Num(0), Num(0)];
    assert Repeat(PAIR, 2)[1..] == Repeat(PAIR, 1) && Repeat(PAIR, 1)[1..] == [];
    assert ZeroAll(Repeat(PAIR, 2)) == [Zero(PAIR), Zero(PAIR)];
  }

  /** Two pairs and a number: the number is read from the second pair. Behind the number the pairs do no harm. */
  lemma PairsThenNumber()
    ensures !SoundList([ArrayTy(2, PAIR), UintTy(256)]) && SoundList([UintTy(256), ArrayTy(2, PAIR)])
    ensures var zeros := Fields([Num(0), Num(0)]);
            !RoundTrips([ArrayTy(2, PAIR), UintTy(256)], [Items([zeros, zeros]), Num(1)])
  {
    hide Sound, Solid, IsDynamic, GetTypeSize, TrueSize, RoundTrips, AllWellTyped, Zero, Mark, Bad, NoEmptyRows,
      Anchored;
    PairSizes();
    NumberSizes();
    PairValues();
    var pairs, number := ArrayTy(2, PAIR), UintTy(256);
    var ts, us := [pairs, number], [number, pairs];
    assert ts[1..] == [number] && ts[1..][1..] == [] && ts[..1] == [pairs];
    assert us[1..] == [pairs] && us[1..][1..] == [] && us[..1] == [number] && us[..1][1..] == [];
    assert AllSolid(ts) && !AnyDynamic(ts) && TrueSizes(ts) == 160 by {
      assert AllSolid(ts[1..]) && !AnyDynamic(ts[1..]) && TrueSizes(ts[1..]) == 32;
    }
    assert !Sized(pairs) && FirstUnsized(ts) == 0 && Misread(ts) == 1;
    assert ZeroAll(ts) == [Zero(pairs), Num(0)] by { assert ZeroAll(ts[1..]) == [Num(0)]; }
    assert BadAll(ts) == [Zero(pairs), Num(1)];
    assert AllSound(us) && !AnyDynamic(us) && AllSized(us[..1]) by {
      assert AllSound(us[1..]) && !AnyDynamic(us[1..]) && AllSized([]);
    }
    StaticAnchored(ts);
    BadAllGood(ts);
    StaticPacks(ts, BadAll(ts));
    ListLoses(ts);
  }

  /** A string and two pairs: the offset of the string, counted from the announced sizes, points into the last pair. */
  lemma StringThenPairs()
    ensures var zeros := Fields([Num(0), Num(0)]);
            !RoundTrips([StringTy, ArrayTy(2, PAIR)], [Data([1]), Items([zeros, zeros])])
  {
    hide Sound, Solid, IsDynamic, GetTypeSize, TrueSize, RoundTrips, AllWellTyped, Zero, Mark, Bad, NoEmptyRows,
      Anchored, Pack, WellTyped, PackTuple;
    PairSizes();
    StringSizes();
    PairValues();
    var pairs := ArrayTy(2, PAIR);
    var ts := [StringTy, pairs];
    assert ts[1..] == [pairs] && ts[1..][1..] == [] && ts[..1] == [StringTy] && ts[..1][1..] == [];
    assert AllSolid(ts) && AnyDynamic(ts) by { assert AllSolid(ts[1..]); }
    assert !Sized(pairs) && Sized(StringTy) && FirstUnsized(ts) == 1 && FirstDynamic(ts) == 0 && Misread(ts) == 0 by {
      assert FirstUnsized(ts[1..]) == 0;
    }
    assert !Aligned(ts) by { assert !AllSized(ts[1..]); }
    assert ZeroAll(ts) == [Zero(StringTy), Zero(pairs)] by { assert ZeroAll(ts[1..]) == [Zero(pairs)]; }
    assert BadAll(ts) == [Mark(StringTy), Zero(pairs)];
    assert AnchoredList(ts) by {
      StaticAnchor(pairs);
      assert AllAnchored(ts[1..]);
    }
    StringPacks(ts);
    ListLoses(ts);
  }

  lemma StringSizes()
    ensures Solid(StringTy) && IsDynamic(StringTy) && Sized(StringTy) && Anchored(StringTy) && TrueSize(StringTy) == 32
    ensures Mark(StringTy) == Data([1])
  {
    assert Wrappers.Copies<byte>(1, 1) == [1];
  }

  lemma StringPacks(ts: seq<Type>)
    requires ts == [StringTy, ArrayTy(2, PAIR)] && AllSolid(ts) && BadAll(ts) == [Data([1]), Zero(ts[1])]
    ensures Packs(ts, BadAll(ts))
  {
    hide Pack, PackNum, Zero, BadAll, PackParts, AllWellTyped, NoEmptyRows, Heads, Shaped, TrueSize, GetTypeSize,
      AllSolid, IsDynamic;
    PairSizes();
    StringSizes();
    var vs := BadAll(ts);
    BadAllGood(ts);
    PartsOutcome(ts, vs);
    var ps := PackParts(ts, vs).value;
    PartsShaped(ts, vs);
    ShapedSizes(ts, ps, SumSizes(ts));
    assert TrueSizes(ts) == 160 by {
      assert ts[1..] == [ts[1]] && ts[1..][1..] == [];
      assert TrueSizes(ts[1..]) == 128;
    }
    PartAt(ts, vs, 0);
    PartAt(ts, vs, 1);
    assert |ps[0].bytes| == 64 by { OneBytePacks(); }
    assert ps[1..] == [ps[1]] && ps[1..][1..] == [] && Tails(ps[1..]) == [];
    assert |Tails(ps)| == 64;
  }

  lemma OneBytePacks()
    ensures Pack(StringTy, Data([1])).Ok? && |Pack(StringTy, Data([1])).value| == 64
  {
    hide PackNum;
  }
}
