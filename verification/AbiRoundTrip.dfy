/**
  The ABI round trip: packing succeeds unless a slice of fixed arrays is empty, and what is packed unpacks to the
  values that were packed. Encoder and decoder compute offsets independently; they agree because a static type
  packs to exactly the size that `GetTypeSize` gives it.
  */
module AbiRoundTrip {
  import opened Bytes
  import opened Abi
  import opened AbiUnpack
  import opened AbiWords
  import Wrappers

  /** A static tuple of two words. */
  const PAIR := TupleTy([UintTy(256), UintTy(256)])

  // ----- the domain -----

  /** The types of Solidity: arrays and tuples are not empty. */
  predicate Solid(t: Type)
    decreases t, 1
  {
    match t
    case FixedBytesTy(width) => 1 <= width <= 32
    case SliceTy(elem) => Solid(elem)
    case ArrayTy(size, elem) => size >= 1 && Solid(elem)
    case TupleTy(elems) => elems != [] && AllSolid(elems)
    case _ => true
  }

  predicate AllSolid(ts: seq<Type>)
    decreases ts, 0
  {
    ts == [] || (Solid(ts[0]) && AllSolid(ts[1..]))
  }

  /** The room that a value of the type really takes in the head. */
  function TrueSize(t: Type): nat
    decreases t, 1
  {
    match t
    case ArrayTy(size, elem) => if IsDynamic(elem) then 32 else size * TrueSize(elem)
    case TupleTy(elems) => if AnyDynamic(elems) then 32 else TrueSizes(elems)
    case _ => 32
  }

  function TrueSizes(ts: seq<Type>): nat
    decreases ts, 0
  {
    if ts == [] then 0 else TrueSize(ts[0]) + TrueSizes(ts[1..])
  }

  /** `GetTypeSize` is right about the type. It is not for a fixed array of static tuples of more than one word. */
  predicate Sized(t: Type) {
    GetTypeSize(t) == TrueSize(t)
  }

  predicate AllSized(ts: seq<Type>) {
    ts == [] || (Sized(ts[0]) && AllSized(ts[1..]))
  }

  /** Of components in a row all but the last must be sized, and the last as well if offsets count past it. */
  predicate Aligned(ts: seq<Type>) {
    && (ts != [] ==> AllSized(ts[..|ts| - 1]))
    && (AnyDynamic(ts) ==> AllSized(ts))
  }

  /** The components of the type, at every level, are aligned. */
  predicate Sound(t: Type)
    decreases t, 1
  {
    match t
    case SliceTy(elem) => Sound(elem) && Sized(elem)
    case ArrayTy(size, elem) => Sound(elem) && (size > 1 ==> Sized(elem))
    case TupleTy(elems) => AllSound(elems) && Aligned(elems)
    case _ => true
  }

  predicate AllSound(ts: seq<Type>)
    decreases ts, 0
  {
    ts == [] || (Sound(ts[0]) && AllSound(ts[1..]))
  }

  /** The condition on an argument list. */
  predicate SoundList(ts: seq<Type>) {
    AllSound(ts) && Aligned(ts)
  }

  /** The values of a type. Integers of other than machine width are big integers of 256 bits. */
  predicate WellTyped(t: Type, v: Value)
    decreases Depth(t), 0
  {
    match t
    case IntTy(bits) => v.Num? && InIntRange(HeldBits(bits), v.n)
    case UintTy(bits) => v.Num? && 0 <= v.n < Pow2(HeldBits(bits))
    case BoolTy => v.Boolean?
    case FixedBytesTy(width) => v.Data? && |v.bytes| == width
    case AddressTy => v.Data? && |v.bytes| == 20
    case FunctionTy => v.Data? && |v.bytes| == 24
    case SliceTy(elem) => v.Items? && AllWellTyped(Repeat(elem, |v.vs|), v.vs)
    case ArrayTy(size, elem) => v.Items? && |v.vs| == size && AllWellTyped(Repeat(elem, size), v.vs)
    case TupleTy(elems) => v.Fields? && AllWellTyped(elems, v.vs)
    case _ => v.Data?
  }

  predicate AllWellTyped(ts: seq<Type>, vs: seq<Value>)
    decreases DepthAll(ts), 1 + |ts|
  {
    |ts| == |vs| && (ts == [] || (WellTyped(ts[0], vs[0]) && AllWellTyped(ts[1..], vs[1..])))
  }

  /** No slice of fixed arrays in the value is empty. */
  predicate NoEmptyRow(t: Type, v: Value)
    requires WellTyped(t, v)
    decreases Depth(t), 0
  {
    match t
    case SliceTy(elem) => (elem.ArrayTy? ==> v.vs != []) && NoEmptyRows(Repeat(elem, |v.vs|), v.vs)
    case ArrayTy(_, elem) => (elem.ArrayTy? ==> v.vs != []) && NoEmptyRows(Repeat(elem, |v.vs|), v.vs)
    case TupleTy(elems) => NoEmptyRows(elems, v.vs)
    case _ => true
  }

  predicate NoEmptyRows(ts: seq<Type>, vs: seq<Value>)
    requires AllWellTyped(ts, vs)
    decreases DepthAll(ts), 1 + |ts|
  {
    ts == [] || (NoEmptyRow(ts[0], vs[0]) && NoEmptyRows(ts[1..], vs[1..]))
  }

  /** Two pairs take four words, and are counted as two. */
  lemma PairSizes()
    ensures Solid(ArrayTy(2, PAIR)) && !IsDynamic(ArrayTy(2, PAIR)) && Sound(ArrayTy(2, PAIR))
    ensures GetTypeSize(ArrayTy(2, PAIR)) == 64 && TrueSize(ArrayTy(2, PAIR)) == 128
  {
    var es := [UintTy(256), UintTy(256)];
    assert es[1..] == [UintTy(256)] && es[1..][1..] == [];
    assert SumSizes(es) == 64 && TrueSizes(es) == 64;
    assert es[..1] == [UintTy(256)];
    assert !AnyDynamic(es) && Aligned(es);
  }

  // ----- when packing succeeds -----

  lemma {:induction false} WellTypedAt(ts: seq<Type>, vs: seq<Value>, i: nat)
    requires AllWellTyped(ts, vs) && i < |ts|
    ensures WellTyped(ts[i], vs[i])
    ensures NoEmptyRows(ts, vs) ==> NoEmptyRow(ts[i], vs[i])
    decreases i
  {
    if i > 0 {
      WellTypedAt(ts[1..], vs[1..], i - 1);
    }
  }

  lemma WellTypedKind(t: Type, v: Value)
    requires WellTyped(t, v)
    ensures SameKind(t, v)
  {
  }

  /** The check of a well-typed value never errs, and panics only on an empty slice of fixed arrays. */
  lemma {:induction false} TypeCheckOutcome(t: Type, v: Value)
    requires WellTyped(t, v)
    ensures !TypeCheck(t, v).Err?
    ensures TypeCheck(t, v).Panic? ==> !NoEmptyRow(t, v)
    ensures (t.SliceTy? || t.ArrayTy?) && t.elem.ArrayTy? && v.vs == [] ==> TypeCheck(t, v).Panic?
    decreases t
  {
    WellTypedKind(t, v);
    if t.SliceTy? || t.ArrayTy? {
      var ts := Repeat(t.elem, |v.vs|);
      forall i | 0 <= i < |v.vs|
        ensures WellTyped(t.elem, v.vs[i]) && SameKind(t.elem, v.vs[i])
      {
        WellTypedAt(ts, v.vs, i);
        WellTypedKind(t.elem, v.vs[i]);
      }
      if (t.elem.SliceTy? || t.elem.ArrayTy?) && |v.vs| > 0 {
        TypeCheckOutcome(t.elem, v.vs[0]);
      }
    }
  }

  /** Packing a well-typed value either succeeds or panics, and it succeeds exactly when no such slice is empty. */
  lemma {:induction false} PackOutcome(t: Type, v: Value)
    requires WellTyped(t, v)
    ensures if NoEmptyRow(t, v) then Pack(t, v).Ok? else Pack(t, v).Panic?
    decreases Depth(t), 0
  {
    TypeCheckOutcome(t, v);
    match t
    case SliceTy(elem) => PartsOutcome(Repeat(elem, |v.vs|), v.vs);
    case ArrayTy(_, elem) => PartsOutcome(Repeat(elem, |v.vs|), v.vs);
    case TupleTy(elems) => PartsOutcome(elems, v.vs);
    case _ =>
  }

  lemma {:induction false} PartsOutcome(ts: seq<Type>, vs: seq<Value>)
    requires AllWellTyped(ts, vs)
    ensures if NoEmptyRows(ts, vs) then PackParts(ts, vs).Ok? else PackParts(ts, vs).Panic?
    decreases DepthAll(ts), 1 + |ts|
  {
    if ts != [] {
      PackOutcome(ts[0], vs[0]);
      PartsOutcome(ts[1..], vs[1..]);
    }
  }

  /**
    What packing asks of any value: lengths of arrays, numbers of fields and kinds of elements at every level, and no
    empty slice of fixed arrays.
    */
  predicate Fits(t: Type, v: Value)
    decreases Depth(t), 0
  {
    match t
    case SliceTy(elem) => v.Items? && (elem.ArrayTy? ==> v.vs != []) && AllFit(Repeat(elem, |v.vs|), v.vs)
    case ArrayTy(size, elem) =>
      v.Items? && |v.vs| == size && (elem.ArrayTy? ==> v.vs != []) && AllFit(Repeat(elem, size), v.vs)
    case TupleTy(elems) => v.Fields? && AllFit(elems, v.vs)
    case _ => SameKind(t, v)
  }

  predicate AllFit(ts: seq<Type>, vs: seq<Value>)
    decreases DepthAll(ts), 1 + |ts|
  {
    |ts| == |vs| && (ts == [] || (Fits(ts[0], vs[0]) && AllFit(ts[1..], vs[1..])))
  }

  lemma {:induction false} FitsAt(ts: seq<Type>, vs: seq<Value>, i: nat)
    requires AllFit(ts, vs) && i < |ts|
    ensures Fits(ts[i], vs[i])
    decreases i
  {
    if i > 0 {
      FitsAt(ts[1..], vs[1..], i - 1);
    }
  }

  lemma FitsKind(t: Type, v: Value)
    requires Fits(t, v)
    ensures SameKind(t, v)
  {
  }

  /** The check of the outermost level, which looks at first elements only, lets everything through that fits. */
  lemma {:induction false} FitsChecks(t: Type, v: Value)
    requires Fits(t, v)
    ensures TypeCheck(t, v).Ok?
    decreases t
  {
    FitsKind(t, v);
    if t.SliceTy? || t.ArrayTy? {
      var ts := Repeat(t.elem, |v.vs|);
      forall i | 0 <= i < |v.vs|
        ensures Fits(t.elem, v.vs[i]) && SameKind(t.elem, v.vs[i])
      {
        FitsAt(ts, v.vs, i);
        FitsKind(t.elem, v.vs[i]);
      }
      if (t.elem.SliceTy? || t.elem.ArrayTy?) && |v.vs| > 0 {
        FitsChecks(t.elem, v.vs[0]);
      }
    }
  }

  /** Packing accepts exactly the values that fit, whatever the value is. */
  lemma {:induction false} PackAccepts(t: Type, v: Value)
    ensures Pack(t, v).Ok? <==> Fits(t, v)
    decreases Depth(t), 0
  {
    hide PackElement, PackNum, Heads, Tails, GetTypeSize, SumSizes, Repeat;
    if Fits(t, v) {
      FitsChecks(t, v);
    }
    if TypeCheck(t, v).Ok? {
      match t
      case SliceTy(elem) => PartsAccept(Repeat(elem, |v.vs|), v.vs);
      case ArrayTy(_, elem) => PartsAccept(Repeat(elem, |v.vs|), v.vs);
      case TupleTy(elems) => PartsAccept(elems, v.vs);
      case _ =>
    }
  }

  lemma {:induction false} PartsAccept(ts: seq<Type>, vs: seq<Value>)
    ensures PackParts(ts, vs).Ok? <==> AllFit(ts, vs)
    decreases DepthAll(ts), 1 + |ts|
  {
    hide Pack, Fits;
    if ts != [] && vs != [] {
      PackAccepts(ts[0], vs[0]);
      PartsAccept(ts[1..], vs[1..]);
    }
  }

  // ----- sizes -----

  lemma {:induction false} RepeatSizes(t: Type, n: nat)
    ensures SumSizes(Repeat(t, n)) == n * GetTypeSize(t) && TrueSizes(Repeat(t, n)) == n * TrueSize(t)
    ensures AnyDynamic(Repeat(t, n)) <==> n > 0 && IsDynamic(t)
    ensures Solid(t) ==> AllSolid(Repeat(t, n))
    ensures Sound(t) ==> AllSound(Repeat(t, n))
    ensures Sized(t) ==> AllSized(Repeat(t, n))
  {
    if n > 0 {
      RepeatSizes(t, n - 1);
      assert Repeat(t, n)[1..] == Repeat(t, n - 1);
      assert n * GetTypeSize(t) == GetTypeSize(t) + (n - 1) * GetTypeSize(t);
      assert n * TrueSize(t) == TrueSize(t) + (n - 1) * TrueSize(t);
    }
  }

  lemma RepeatSum(t: Type, n: nat)
    ensures SumSizes(Repeat(t, n)) == GetTypeSize(t) * n
    ensures Solid(t) ==> AllSolid(Repeat(t, n))
  {
    hide Solid, SumSizes, GetTypeSize, Repeat;
    RepeatSizes(t, n);
  }

  /** Every type takes a whole number of words in the head, at least one, and `GetTypeSize` never exaggerates. */
  lemma {:induction false} SolidSize(t: Type)
    requires Solid(t)
    ensures GetTypeSize(t) >= 32 && GetTypeSize(t) % 32 == 0
    ensures TrueSize(t) % 32 == 0 && GetTypeSize(t) <= TrueSize(t)
    ensures IsDynamic(t) ==> GetTypeSize(t) == TrueSize(t) == 32
    decreases t, 1
  {
    match t
    case ArrayTy(size, elem) =>
      SolidSize(elem);
      ArraySize(size, elem);
    case TupleTy(elems) => SolidSizes(elems);
    case _ =>
  }

  lemma ArraySize(size: nat, elem: Type)
    requires size >= 1 && GetTypeSize(elem) >= 32 && GetTypeSize(elem) % 32 == 0
    requires TrueSize(elem) % 32 == 0 && GetTypeSize(elem) <= TrueSize(elem)
    ensures var t := ArrayTy(size, elem);
            && GetTypeSize(t) >= 32 && GetTypeSize(t) % 32 == 0
            && TrueSize(t) % 32 == 0 && GetTypeSize(t) <= TrueSize(t)
            && (IsDynamic(t) ==> GetTypeSize(t) == TrueSize(t) == 32)
  {
    hide GetTypeSize, TrueSize, IsDynamic;
    var g, u := GetTypeSize(elem), TrueSize(elem);
    WordMultiple(size, g);
    WordMultiple(size, u);
    WordMultiple(size, 32);
    Monotone(size, g, u);
    Monotone(size, 32, u);
    ArraySizes(size, elem);
  }

  lemma ArraySizes(size: nat, elem: Type)
    ensures IsDynamic(ArrayTy(size, elem)) == IsDynamic(elem)
    ensures IsDynamic(elem) ==> GetTypeSize(ArrayTy(size, elem)) == TrueSize(ArrayTy(size, elem)) == 32
    ensures !IsDynamic(elem) ==>
              && TrueSize(ArrayTy(size, elem)) == size * TrueSize(elem)
              && GetTypeSize(ArrayTy(size, elem)) == (if elem.ArrayTy? then size * GetTypeSize(elem) else size * 32)
  {
  }

  lemma WordMultiple(n: nat, size: nat)
    requires size >= 32 && size % 32 == 0
    ensures n >= 1 ==> n * size >= 32
    ensures (n * size) % 32 == 0
    ensures n * size >= 32 * n
  {
    WholeWords(n, size);
  }

  lemma Monotone(n: nat, a: nat, b: nat)
    requires a <= b
    ensures n * a <= n * b
  {
  }

  lemma {:induction false} SolidSizes(ts: seq<Type>)
    requires AllSolid(ts)
    ensures SumSizes(ts) >= 32 * |ts| && SumSizes(ts) % 32 == 0
    ensures TrueSizes(ts) % 32 == 0 && SumSizes(ts) <= TrueSizes(ts)
    ensures AllSized(ts) ==> SumSizes(ts) == TrueSizes(ts)
    decreases ts, 0
  {
    hide GetTypeSize, TrueSize, Solid, IsDynamic;
    if ts != [] {
      SolidSize(ts[0]);
      SolidSizes(ts[1..]);
      WholeSum(GetTypeSize(ts[0]), SumSizes(ts[1..]));
      WholeSum(TrueSize(ts[0]), TrueSizes(ts[1..]));
    }
  }

  /** The parts of a tuple have the head sizes of their types. */
  predicate Shaped(ts: seq<Type>, ps: seq<Part>) {
    && |ts| == |ps|
    && (ts == [] ||
        (&& ps[0].dynamic == IsDynamic(ts[0])
         && (!ps[0].dynamic ==> |ps[0].bytes| == TrueSize(ts[0]))
         && |ps[0].bytes| % 32 == 0
         && Shaped(ts[1..], ps[1..])))
  }

  /** The heads fill exactly the true sizes; without dynamic parts there are no tails. */
  lemma {:induction false} ShapedSizes(ts: seq<Type>, ps: seq<Part>, offset: nat)
    requires Shaped(ts, ps) && AllSolid(ts)
    ensures |Heads(ps, offset)| == TrueSizes(ts)
    ensures |Tails(ps)| % 32 == 0
    ensures !AnyDynamic(ts) ==> Tails(ps) == []
  {
    hide IsDynamic, GetTypeSize, TrueSize, Solid, PackNum;
    if ts != [] {
      SolidSize(ts[0]);
      ShapedSizes(ts[1..], ps[1..], if ps[0].dynamic then offset + |ps[0].bytes| else offset);
    }
  }

  /** A packed value is a whole number of words, and a static one exactly as many as its type announces. */
  lemma {:induction false} PackSize(t: Type, v: Value)
    requires Solid(t) && WellTyped(t, v) && Pack(t, v).Ok?
    ensures var b := Pack(t, v).value;
            |b| >= 32 && |b| % 32 == 0 && (!IsDynamic(t) ==> |b| == TrueSize(t))
    decreases Depth(t), 0
  {
    hide Heads, Tails, PackNum, PackElement, PackParts, SumSizes, TrueSizes, Repeat, AnyDynamic, GetTypeSize, TrueSize;
    match t
    case SliceTy(elem) => SequenceSize(t, v);
    case ArrayTy(size, elem) => SequenceSize(t, v);
    case TupleTy(elems) =>
      PartsShaped(elems, v.vs);
      ShapedSizes(elems, PackParts(elems, v.vs).value, SumSizes(elems));
      SolidSizes(elems);
      TupleSize(elems);
    case _ => ElementSize(t, v);
  }

  lemma TupleSize(ts: seq<Type>)
    ensures !AnyDynamic(ts) ==> TrueSize(TupleTy(ts)) == TrueSizes(ts)
    ensures IsDynamic(TupleTy(ts)) == AnyDynamic(ts)
  {
  }

  lemma SequenceSize(t: Type, v: Value)
    requires (t.SliceTy? || t.ArrayTy?) && Solid(t) && WellTyped(t, v) && Pack(t, v).Ok?
    ensures var b := Pack(t, v).value;
            |b| >= 32 && |b| % 32 == 0 && (!IsDynamic(t) ==> |b| == TrueSize(t))
    decreases Depth(t.elem), 3 + |v.vs|
  {
    hide Heads, Tails, PackNum, Shaped, PackParts, SumSizes, TrueSizes, Repeat, AnyDynamic, GetTypeSize, TrueSize, Pack,
      Solid, AllSolid, WellTyped, AllWellTyped, IsDynamic;
    WellTypedKind(t, v);
    PackedSequence(t, v);
    var ts := Repeat(t.elem, |v.vs|);
    var ps := PackParts(ts, v.vs).value;
    ShapedSizes(ts, ps, SumSizes(ts));
    SolidSizes(ts);
    WholeSum(|Heads(ps, SumSizes(ts))|, |Tails(ps)|);
    RowSize(t, v);
  }

  /** A static array takes as much room as the row of its elements, and at least a word. */
  lemma RowSize(t: Type, v: Value)
    requires (t.SliceTy? || t.ArrayTy?) && Solid(t) && WellTyped(t, v)
    ensures t.ArrayTy? ==> |v.vs| >= 1
    ensures !IsDynamic(t) ==>
              && t.ArrayTy? && TrueSize(t) == TrueSizes(Repeat(t.elem, |v.vs|))
              && !AnyDynamic(Repeat(t.elem, |v.vs|))
  {
    hide SumSizes, TrueSizes, Repeat, AnyDynamic, GetTypeSize, AllSolid, AllWellTyped;
    RepeatSizes(t.elem, |v.vs|);
  }

  /** A slice is packed as its length and the tuple of its elements, an array as the tuple alone. */
  lemma PackedSequence(t: Type, v: Value)
    requires (t.SliceTy? || t.ArrayTy?) && Solid(t) && WellTyped(t, v) && Pack(t, v).Ok?
    ensures var ts := Repeat(t.elem, |v.vs|);
            && AllSolid(ts) && AllWellTyped(ts, v.vs) && PackParts(ts, v.vs).Ok?
            && Shaped(ts, PackParts(ts, v.vs).value)
            && Pack(t, v).value == (if t.SliceTy? then PackNum(|v.vs|) else [])
                                   + Assemble(PackParts(ts, v.vs).value, SumSizes(ts))
    decreases Depth(t.elem), 2 + |v.vs|
  {
    hide PackNum, Heads, Tails, Shaped, PackParts, SumSizes, Repeat, GetTypeSize, AllSolid;
    var ts := Repeat(t.elem, |v.vs|);
    RepeatSum(t.elem, |v.vs|);
    PartsShaped(ts, v.vs);
  }

  lemma ElementSize(t: Type, v: Value)
    requires Solid(t) && WellTyped(t, v) && IsElementary(t) && SameKind(t, v)
    ensures var b := PackElement(t, v);
            |b| >= 32 && |b| % 32 == 0 && (!IsDynamic(t) ==> |b| == TrueSize(t))
  {
    hide PackNum;
  }

  lemma {:induction false} PartsShaped(ts: seq<Type>, vs: seq<Value>)
    requires AllSolid(ts) && AllWellTyped(ts, vs) && PackParts(ts, vs).Ok?
    ensures Shaped(ts, PackParts(ts, vs).value)
    decreases DepthAll(ts), 1 + |ts|
  {
    if ts != [] {
      PackSize(ts[0], vs[0]);
      PartsShaped(ts[1..], vs[1..]);
      var ps := PackParts(ts, vs).value;
      assert ps[1..] == PackParts(ts[1..], vs[1..]).value;
    }
  }

  // ----- where the decoder finds things -----

  /** The part is where its head at `pos` says it is. */
  ghost predicate Placed(p: Part, pos: nat, out: seq<byte>) {
    if p.dynamic then
      pos + 32 <= |out| && exists off: nat :: PlacedAt(p, pos, out, off)
    else
      pos + |p.bytes| <= |out| && out[pos..pos + |p.bytes|] == p.bytes
  }

  ghost predicate PlacedAt(p: Part, pos: nat, out: seq<byte>, off: nat)
    requires pos + 32 <= |out|
  {
    off + |p.bytes| <= |out| && out[pos..pos + 32] == PackNum(off) && out[off..off + |p.bytes|] == p.bytes
  }

  ghost predicate AllPlaced(ps: seq<Part>, pos: nat, out: seq<byte>) {
    ps == [] ||
    (Placed(ps[0], pos, out) && AllPlaced(ps[1..], pos + (if ps[0].dynamic then 32 else |ps[0].bytes|), out))
  }

  lemma PlacedByOffset(p: Part, pos: nat, out: seq<byte>, off: nat)
    requires p.dynamic && pos + 32 <= |out| && PlacedAt(p, pos, out, off)
    ensures Placed(p, pos, out)
  {
  }

  lemma PlacedHere(p: Part, pos: nat, out: seq<byte>)
    requires !p.dynamic && pos + |p.bytes| <= |out| && out[pos..pos + |p.bytes|] == p.bytes
    ensures Placed(p, pos, out)
  {
  }

  /** Each offset that is written is the position at which the tail is found. */
  lemma {:induction false} HeadsPlaced(ps: seq<Part>, pos: nat, off: nat, out: seq<byte>)
    requires pos + |Heads(ps, off)| <= |out| && out[pos..pos + |Heads(ps, off)|] == Heads(ps, off)
    requires off + |Tails(ps)| <= |out| && out[off..off + |Tails(ps)|] == Tails(ps)
    ensures AllPlaced(ps, pos, out)
  {
    hide PackNum, Placed;
    if ps != [] {
      var b := ps[0].bytes;
      if ps[0].dynamic {
        Wrappers.SliceParts(out, pos, PackNum(off), Heads(ps[1..], off + |b|));
        Wrappers.SliceParts(out, off, b, Tails(ps[1..]));
        PlacedByOffset(ps[0], pos, out, off);
        HeadsPlaced(ps[1..], pos + 32, off + |b|, out);
      } else {
        Wrappers.SliceParts(out, pos, b, Heads(ps[1..], off));
        assert [] + Tails(ps[1..]) == Tails(ps[1..]);
        PlacedHere(ps[0], pos, out);
        HeadsPlaced(ps[1..], pos + |b|, off, out);
      }
    }
  }

  /** Parts that are assembled at the start of the data are found from there. */
  lemma AssemblePlaced(ts: seq<Type>, ps: seq<Part>, out: seq<byte>)
    requires AllSolid(ts) && Shaped(ts, ps) && (AnyDynamic(ts) ==> AllSized(ts))
    requires Assemble(ps, SumSizes(ts)) <= out
    ensures AllPlaced(ps, 0, out)
    ensures 32 * |ts| <= |out|
  {
    hide Heads, Tails, Shaped, SumSizes, TrueSizes, AllSized, AnyDynamic;
    var off := SumSizes(ts);
    ShapedSizes(ts, ps, off);
    SolidSizes(ts);
    assert out[0..0 + |Heads(ps, off) + Tails(ps)|] == Heads(ps, off) + Tails(ps);
    Wrappers.SliceParts(out, 0, Heads(ps, off), Tails(ps));
    HeadsPlaced(ps, 0, off, out);
  }

  // ----- decoding -----

  /** Wherever a packed value is placed, it is read back. */
  lemma {:induction false} Decodes(t: Type, v: Value, pos: nat, out: seq<byte>)
    requires Solid(t) && Sound(t) && WellTyped(t, v) && Pack(t, v).Ok?
    requires Placed(Part(IsDynamic(t), Pack(t, v).value), pos, out) && |out| < INT64_LIMIT
    ensures ToGoType(pos, t, out) == Ok(v)
    decreases Depth(t), 0
  {
    PackSize(t, v);
    match t
    case SliceTy(elem) => DecodesSlice(t, v, pos, out);
    case ArrayTy(_, elem) => DecodesArray(t, v, pos, out);
    case TupleTy(elems) => DecodesTuple(t, v, pos, out);
    case _ => DecodesElement(t, v, pos, out);
  }

  /** The elements of a slice or array are read from where they were assembled. */
  lemma DecodesSequence(elem: Type, vs: seq<Value>, inner: seq<byte>)
    requires var ts := Repeat(elem, |vs|);
             && AllSolid(ts) && SoundList(ts) && AllWellTyped(ts, vs) && PackParts(ts, vs).Ok?
             && Shaped(ts, PackParts(ts, vs).value)
             && Assemble(PackParts(ts, vs).value, SumSizes(ts)) <= inner
    requires |inner| < INT64_LIMIT
    ensures 32 * |vs| <= |inner|
    ensures ForEachUnpack(elem, inner, |vs|) == Ok(Items(vs))
    decreases Depth(elem), 3 + |vs|
  {
    hide PackNum, Heads, Tails, Shaped, PackParts, SumSizes, UnpackFrom, AllPlaced, AllSolid, AllSound, AllSized;
    var ts := Repeat(elem, |vs|);
    AssemblePlaced(ts, PackParts(ts, vs).value, inner);
    DecodesAll(ts, vs, 0, inner);
  }

  lemma AlignedRow(elem: Type, n: nat)
    requires Solid(elem) && Sound(elem) && (n > 1 ==> Sized(elem))
    ensures SoundList(Repeat(elem, n))
  {
    hide Solid, Sound;
    SolidSize(elem);
    RepeatSizes(elem, n);
    if n > 0 {
      RepeatSizes(elem, n - 1);
      assert Repeat(elem, n)[..n - 1] == Repeat(elem, n - 1);
    }
  }

  lemma DecodesSlice(t: Type, v: Value, pos: nat, out: seq<byte>)
    requires t.SliceTy? && Solid(t) && Sound(t) && WellTyped(t, v) && Pack(t, v).Ok?
    requires Placed(Part(true, Pack(t, v).value), pos, out) && |out| < INT64_LIMIT
    ensures ToGoType(pos, t, out) == Ok(v)
    decreases Depth(t.elem), 4 + |v.vs|
  {
    hide PackNum, Heads, Tails, Number, Shaped, PackParts, SumSizes, Pack, ForEachUnpack, Repeat, AllWellTyped, AllSolid,
      SoundList, Sized;
    PackedSequence(t, v);
    AlignedRow(t.elem, |v.vs|);
    var b, n := Pack(t, v).value, |v.vs|;
    var rest := b[32..];
    var off: nat :| PlacedAt(Part(true, b), pos, out, off);
    assert b == PackNum(n) + rest;
    Wrappers.SliceParts(out, off, PackNum(n), rest);
    var inner := out[off + 32..];
    assert rest <= inner;
    DecodesSequence(t.elem, v.vs, inner);
    PackNumWhole(off);
    PackNumWhole(n);
    assert LengthPrefixPointsTo(pos, out) == Ok(Span(off + 32, n));
  }

  lemma DecodesArray(t: Type, v: Value, pos: nat, out: seq<byte>)
    requires t.ArrayTy? && Solid(t) && Sound(t) && WellTyped(t, v) && Pack(t, v).Ok? && |Pack(t, v).value| >= 32
    requires Placed(Part(IsDynamic(t), Pack(t, v).value), pos, out) && |out| < INT64_LIMIT
    ensures ToGoType(pos, t, out) == Ok(v)
    decreases Depth(t.elem), 4 + |v.vs|
  {
    hide PackNum, Heads, Tails, Number, Shaped, PackParts, SumSizes, Pack, ForEachUnpack, Repeat, AllWellTyped, AllSolid,
      SoundList, Sized;
    PackedSequence(t, v);
    AlignedRow(t.elem, |v.vs|);
    var b := Pack(t, v).value;
    var off: nat := pos;
    if IsDynamic(t) {
      off :| PlacedAt(Part(true, b), pos, out, off);
      PackNumWhole(off);
      assert out[pos + 24..pos + 32] == out[pos..pos + 32][24..];
    }
    var inner := out[off..];
    assert inner[..|b|] == out[off..off + |b|] == b;
    DecodesSequence(t.elem, v.vs, inner);
  }

  lemma DecodesTuple(t: Type, v: Value, pos: nat, out: seq<byte>)
    requires t.TupleTy? && Solid(t) && Sound(t) && WellTyped(t, v) && Pack(t, v).Ok? && |Pack(t, v).value| >= 32
    requires Placed(Part(IsDynamic(t), Pack(t, v).value), pos, out) && |out| < INT64_LIMIT
    ensures ToGoType(pos, t, out) == Ok(v)
    decreases DepthAll(t.elems), 4 + |v.vs|
  {
    hide PackNum, Heads, Tails, Number, Shaped;
    var b := Pack(t, v).value;
    var ps := PackParts(t.elems, v.vs).value;
    PartsShaped(t.elems, v.vs);
    var off: nat := pos;
    if IsDynamic(t) {
      off :| PlacedAt(Part(true, b), pos, out, off);
      PackNumWhole(off);
    }
    var inner := out[off..];
    assert inner[..|b|] == out[off..off + |b|] == b;
    AssemblePlaced(t.elems, ps, inner);
    DecodesAll(t.elems, v.vs, 0, inner);
  }

  lemma DecodesElement(t: Type, v: Value, pos: nat, out: seq<byte>)
    requires IsElementary(t) && Solid(t) && Sound(t) && WellTyped(t, v) && Pack(t, v).Ok?
    requires Placed(Part(IsDynamic(t), Pack(t, v).value), pos, out) && |out| < INT64_LIMIT
    ensures ToGoType(pos, t, out) == Ok(v)
  {
    hide PackNum, Number, Pow2, PackBytesSlice, Pack, InIntRange;
    assert Pack(t, v) == Ok(PackElement(t, v)) by { PackedElement(t, v); }
    ElementSize(t, v);
    if t.StringTy? || t.BytesTy? {
      DecodesBytes(t, v, pos, out);
    } else if t.IntTy? || t.UintTy? || t.BoolTy? {
      DecodesNumber(t, v, pos, out);
    } else {
      DecodesFixed(t, v, pos, out);
    }
  }

  lemma PackedElement(t: Type, v: Value)
    requires IsElementary(t) && WellTyped(t, v) && Pack(t, v).Ok?
    ensures SameKind(t, v) && Pack(t, v) == Ok(PackElement(t, v))
  {
    WellTypedKind(t, v);
  }

  lemma DecodesNumber(t: Type, v: Value, pos: nat, out: seq<byte>)
    requires (t.IntTy? || t.UintTy? || t.BoolTy?) && WellTyped(t, v) && SameKind(t, v)
    requires pos + 32 <= |out| && out[pos..pos + 32] == PackElement(t, v)
    ensures ToGoType(pos, t, out) == Ok(v)
  {
    hide PackNum, Number, Pow2, InIntRange;
    match t
    case IntTy(bits) => IntRoundTrip(bits, v.n);
    case UintTy(bits) => UintRoundTrip(bits, v.n);
    case BoolTy => BoolRoundTrip(v.b);
  }

  lemma DecodesFixed(t: Type, v: Value, pos: nat, out: seq<byte>)
    requires (t.FixedBytesTy? || t.AddressTy? || t.FunctionTy?) && Solid(t) && WellTyped(t, v)
    requires pos + 32 <= |out| && out[pos..pos + 32] == PackElement(t, v)
    ensures ToGoType(pos, t, out) == Ok(v)
  {
    hide PackNum, Number;
    var b := PackElement(t, v);
    match t
    case FixedBytesTy(width) => assert out[pos..pos + width] == b[..width] == v.bytes;
    case AddressTy => assert b[12..] == v.bytes;
    case FunctionTy => FunctionRoundTrip(v.bytes);
  }

  lemma DecodesBytes(t: Type, v: Value, pos: nat, out: seq<byte>)
    requires (t.StringTy? || t.BytesTy?) && WellTyped(t, v)
    requires Placed(Part(true, PackBytesSlice(v.bytes)), pos, out) && |out| < INT64_LIMIT
    ensures ToGoType(pos, t, out) == Ok(v)
  {
    hide PackNum, Number, RightPad, PlacedAt;
    var b, n := PackBytesSlice(v.bytes), |v.bytes|;
    var off: nat :| PlacedAt(Part(true, b), pos, out, off);
    PaddedBytes(v.bytes, out, pos, off);
    PackNumWhole(off);
    PackNumWhole(n);
  }

  /** Where a length and padded bytes are placed. */
  lemma PaddedBytes(bytes: seq<byte>, out: seq<byte>, pos: nat, off: nat)
    requires pos + 32 <= |out| && PlacedAt(Part(true, PackBytesSlice(bytes)), pos, out, off)
    ensures off + 32 + |bytes| <= |out| && out[pos..pos + 32] == PackNum(off)
    ensures out[off..off + 32] == PackNum(|bytes|) && out[off + 32..off + 32 + |bytes|] == bytes
  {
    hide PackNum;
    var n := |bytes|;
    var padded := RightPad(bytes, (n + 31) / 32 * 32);
    Wrappers.SliceParts(out, off, PackNum(n), padded);
    assert padded[..n] == bytes;
    Wrappers.SubSlice(out, off + 32, padded, 0, n);
  }

  lemma {:induction false} DecodesAll(ts: seq<Type>, vs: seq<Value>, pos: nat, out: seq<byte>)
    requires AllSolid(ts) && AllSound(ts) && (ts != [] ==> AllSized(ts[..|ts| - 1]))
    requires AllWellTyped(ts, vs) && PackParts(ts, vs).Ok?
    requires AllPlaced(PackParts(ts, vs).value, pos, out) && |out| < INT64_LIMIT
    ensures UnpackFrom(ts, pos, out) == Ok(vs)
    decreases DepthAll(ts), 1 + |ts|
  {
    hide Placed, ToGoType, Pack;
    if ts != [] {
      var ps := PackParts(ts, vs).value;
      assert ps[0] == Part(IsDynamic(ts[0]), Pack(ts[0], vs[0]).value);
      assert ps[1..] == PackParts(ts[1..], vs[1..]).value;
      PackSize(ts[0], vs[0]);
      SolidSize(ts[0]);
      Decodes(ts[0], vs[0], pos, out);
      if |ts| > 1 {
        assert ts[..|ts| - 1][0] == ts[0] && ts[..|ts| - 1][1..] == ts[1..][..|ts[1..]| - 1];
        DecodesAll(ts[1..], vs[1..], pos + GetTypeSize(ts[0]), out);
      }
      assert vs == [vs[0]] + vs[1..];
    }
  }

  /** Unpacking what was packed returns exactly the values, for every sound argument list. */
  lemma PackUnpack(ts: seq<Type>, vs: seq<Value>)
    requires AllSolid(ts) && SoundList(ts) && AllWellTyped(ts, vs)
    ensures if NoEmptyRows(ts, vs) then PackTuple(ts, vs).Ok? else PackTuple(ts, vs).Panic?
    ensures PackTuple(ts, vs).Ok? && |PackTuple(ts, vs).value| < INT64_LIMIT ==>
              UnpackValues(ts, PackTuple(ts, vs).value) == Ok(vs)
  {
    PartsOutcome(ts, vs);
    if NoEmptyRows(ts, vs) && |PackTuple(ts, vs).value| < INT64_LIMIT {
      PartsShaped(ts, vs);
      AssemblePlaced(ts, PackParts(ts, vs).value, PackTuple(ts, vs).value);
      DecodesAll(ts, vs, 0, PackTuple(ts, vs).value);
    }
  }
}
