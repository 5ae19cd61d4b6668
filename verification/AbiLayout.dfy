/**
  What the encoding of a value is, as the section "Formal Specification of the Encoding" of the Solidity Contract ABI
  Specification says it, by positions and not by how the encoder gets there; and when the encoder meets it.
  */
module AbiLayout {
  import opened Bytes
  import opened Abi
  import opened AbiUnpack
  import opened AbiWords
  import opened AbiRoundTrip
  import Wrappers

  // ----- elementary values -----

  /** The big-endian two's complement form of n in 256 bits. */
  ghost predicate IsWord(b: seq<byte>, n: int) {
    |b| == 32 && Number(b) == n % Pow256(32)
  }

  /** The bytes, in front of as many zeros as fill the last of the words, and of no word more. */
  ghost predicate IsPadded(b: seq<byte>, bytes: seq<byte>) {
    && |b| % 32 == 0 && |bytes| <= |b| < |bytes| + 32
    && b[..|bytes|] == bytes && Wrappers.Only(b[|bytes|..], 0)
  }

  /** What a value that is not composed is encoded as. */
  ghost predicate EncodesElement(t: Type, v: Value, b: seq<byte>)
    requires IsElementary(t)
  {
    match t
    case IntTy(_) => v.Num? && IsWord(b, v.n)
    case UintTy(_) => v.Num? && IsWord(b, v.n)
    case BoolTy => v.Boolean? && IsWord(b, if v.b then 1 else 0)
    case AddressTy => v.Data? && |b| == 32 && Wrappers.Only(b[..12], 0) && b[12..] == v.bytes
    case FixedBytesTy(_) => v.Data? && |b| == 32 && IsPadded(b, v.bytes)
    case FunctionTy => v.Data? && |b| == 32 && IsPadded(b, v.bytes)
    case _ => v.Data? && |b| >= 32 && IsWord(b[..32], |v.bytes|) && IsPadded(b[32..], v.bytes)
  }

  lemma {:induction false} NumberInjective(a: seq<byte>, b: seq<byte>)
    requires |a| == |b| && Number(a) == Number(b)
    ensures a == b
  {
    if a != [] {
      var n := |a| - 1;
      assert a == a[..n] + [a[n]] && b == b[..n] + [b[n]];
      NumberInjective(a[..n], b[..n]);
    }
  }

  lemma WordIsPackNum(b: seq<byte>, n: int)
    ensures IsWord(b, n) <==> b == PackNum(n)
  {
    hide PackNum, Number, Pow256;
    LowBytes(n, 32);
    assert PackNum(n)[0..] == PackNum(n);
    if IsWord(b, n) {
      NumberInjective(b, PackNum(n));
    }
  }

  lemma PaddedIsRightPad(b: seq<byte>, bytes: seq<byte>, l: nat)
    requires l % 32 == 0 && |bytes| <= l < |bytes| + 32
    ensures IsPadded(b, bytes) <==> b == RightPad(bytes, l)
  {
    if IsPadded(b, bytes) {
      assert |b| == l by { SameMultiple(|b|, l, |bytes|); }
      assert b == b[..|bytes|] + b[|bytes|..];
    }
  }

  lemma SameMultiple(a: nat, b: nat, n: nat)
    requires a % 32 == 0 && b % 32 == 0 && n <= a < n + 32 && n <= b < n + 32
    ensures a == b
  {
  }

  lemma RoundedUp(n: nat)
    ensures (n + 31) / 32 * 32 % 32 == 0 && n <= (n + 31) / 32 * 32 < n + 32
  {
  }

  lemma AddressIsLeftPad(b: seq<byte>, bytes: seq<byte>)
    requires |bytes| == 20
    ensures |b| == 32 && Wrappers.Only(b[..12], 0) && b[12..] == bytes <==> b == LeftPad(bytes, 32)
  {
    if |b| == 32 && Wrappers.Only(b[..12], 0) && b[12..] == bytes {
      assert b == b[..12] + b[12..];
    }
  }

  lemma SliceIsPrefixed(b: seq<byte>, bytes: seq<byte>)
    ensures |b| >= 32 && IsWord(b[..32], |bytes|) && IsPadded(b[32..], bytes) <==> b == PackBytesSlice(bytes)
  {
    hide PackNum, IsWord, IsPadded, RightPad;
    var l := (|bytes| + 31) / 32 * 32;
    RoundedUp(|bytes|);
    if |b| >= 32 {
      WordIsPackNum(b[..32], |bytes|);
      PaddedIsRightPad(b[32..], bytes, l);
      assert b == b[..32] + b[32..];
    }
    if b == PackBytesSlice(bytes) {
      assert b[..32] == PackNum(|bytes|) && b[32..] == RightPad(bytes, l);
    }
  }

  /** An elementary value is packed to its encoding and to nothing else. */
  lemma ElementEncoded(t: Type, v: Value, b: seq<byte>)
    requires IsElementary(t) && Solid(t) && WellTyped(t, v) && SameKind(t, v)
    ensures EncodesElement(t, v, b) <==> b == PackElement(t, v)
  {
    hide PackNum, IsWord, IsPadded, RightPad, LeftPad, Wrappers.Only, InIntRange, Pow2, PackBytesSlice;
    if t.IntTy? || t.UintTy? {
      WordIsPackNum(b, v.n);
    } else if t.BoolTy? {
      WordIsPackNum(b, if v.b then 1 else 0);
    } else if t.AddressTy? {
      AddressIsLeftPad(b, v.bytes);
    } else if t.FixedBytesTy? || t.FunctionTy? {
      FixedIsRightPad(b, v.bytes);
    } else {
      SliceIsPrefixed(b, v.bytes);
    }
  }

  lemma FixedIsRightPad(b: seq<byte>, bytes: seq<byte>)
    requires 1 <= |bytes| <= 32
    ensures |b| == 32 && IsPadded(b, bytes) <==> b == RightPad(bytes, 32)
  {
    PaddedIsRightPad(b, bytes, 32);
  }

  // ----- composed values -----

  /** A type is dynamic if it is a string, bytes or a slice, or has such a type inside, not behind a slice. */
  ghost predicate Dynamic(t: Type)
    decreases t
  {
    match t
    case StringTy => true
    case BytesTy => true
    case SliceTy(_) => true
    case ArrayTy(_, elem) => Dynamic(elem)
    case TupleTy(elems) => exists i :: 0 <= i < |elems| && Dynamic(elems[i])
    case _ => false
  }

  lemma {:induction false} DynamicIs(t: Type)
    ensures IsDynamic(t) <==> Dynamic(t)
    decreases t, 1
  {
    match t
    case ArrayTy(_, elem) => DynamicIs(elem);
    case TupleTy(elems) => DynamicAny(elems);
    case _ =>
  }

  lemma {:induction false} DynamicAny(ts: seq<Type>)
    ensures AnyDynamic(ts) <==> exists i :: 0 <= i < |ts| && Dynamic(ts[i])
    decreases ts, 0
  {
    if ts != [] {
      DynamicIs(ts[0]);
      DynamicAny(ts[1..]);
      if AnyDynamic(ts[1..]) {
        var i :| 0 <= i < |ts[1..]| && Dynamic(ts[1..][i]);
        assert Dynamic(ts[i + 1]);
      }
      if i :| 0 <= i < |ts| && Dynamic(ts[i]) {
        if i > 0 {
          assert Dynamic(ts[1..][i - 1]);
        }
      }
    }
  }

  /** The lengths of all heads, and of all tails, of components that are encoded as the given parts. */
  ghost function HeadLength(ts: seq<Type>, parts: seq<seq<byte>>): nat
    requires |ts| == |parts|
  {
    if ts == [] then 0 else (if Dynamic(ts[0]) then 32 else |parts[0]|) + HeadLength(ts[1..], parts[1..])
  }

  ghost function TailLength(ts: seq<Type>, parts: seq<seq<byte>>): nat
    requires |ts| == |parts|
  {
    if ts == [] then 0 else (if Dynamic(ts[0]) then |parts[0]| else 0) + TailLength(ts[1..], parts[1..])
  }

  /** The part stands in the data at the position. */
  ghost predicate At(b: seq<byte>, pos: nat, part: seq<byte>) {
    pos + |part| <= |b| && b[pos..pos + |part|] == part
  }

  /**
    The heads follow each other from `head` on, the tails from `tail` on. A static component is its own head. The head
    of a dynamic one is the position of its tail.
    */
  ghost predicate Laid(ts: seq<Type>, parts: seq<seq<byte>>, head: nat, tail: nat, b: seq<byte>)
    requires |ts| == |parts|
  {
    ts == [] ||
    if Dynamic(ts[0]) then
      && head + 32 <= |b| && IsWord(b[head..head + 32], tail) && At(b, tail, parts[0])
      && Laid(ts[1..], parts[1..], head + 32, tail + |parts[0]|, b)
    else
      At(b, head, parts[0]) && Laid(ts[1..], parts[1..], head + |parts[0]|, tail, b)
  }

  /** The encoding of a row of components: all heads, then all tails, and nothing else. */
  ghost predicate LaidOut(ts: seq<Type>, parts: seq<seq<byte>>, b: seq<byte>)
    requires |ts| == |parts|
  {
    && |b| == HeadLength(ts, parts) + TailLength(ts, parts)
    && Laid(ts, parts, 0, HeadLength(ts, parts), b)
  }

  /** The byte string is the encoding of the value. */
  ghost predicate Encodes(t: Type, v: Value, b: seq<byte>)
    decreases Depth(t), 0
  {
    match t
    case SliceTy(elem) =>
      v.Items? && |b| >= 32 && IsWord(b[..32], |v.vs|) && EncodesRow(Repeat(elem, |v.vs|), v.vs, b[32..])
    case ArrayTy(_, elem) => v.Items? && EncodesRow(Repeat(elem, |v.vs|), v.vs, b)
    case TupleTy(elems) => v.Fields? && EncodesRow(elems, v.vs, b)
    case _ => EncodesElement(t, v, b)
  }

  /** The byte string is the encoding of the components in a row. */
  ghost predicate EncodesRow(ts: seq<Type>, vs: seq<Value>, b: seq<byte>)
    decreases DepthAll(ts), 2 + |ts|
  {
    exists parts: seq<seq<byte>> :: |parts| == |ts| && EncodesEach(ts, vs, parts) && LaidOut(ts, parts, b)
  }

  ghost predicate EncodesEach(ts: seq<Type>, vs: seq<Value>, parts: seq<seq<byte>>)
    decreases DepthAll(ts), 1 + |ts|
  {
    && |ts| == |vs| == |parts|
    && (ts == [] || (Encodes(ts[0], vs[0], parts[0]) && EncodesEach(ts[1..], vs[1..], parts[1..])))
  }

  // ----- the encoder's heads and tails -----

  /** The parts with the marks that the encoder gives them. */
  ghost function Marked(ts: seq<Type>, parts: seq<seq<byte>>): (ps: seq<Part>)
    requires |ts| == |parts|
    ensures |ps| == |ts|
  {
    if ts == [] then [] else [Part(IsDynamic(ts[0]), parts[0])] + Marked(ts[1..], parts[1..])
  }

  lemma MarkedStep(ts: seq<Type>, parts: seq<seq<byte>>, tail: nat)
    requires |ts| == |parts| && ts != []
    ensures var ps, rest, p := Marked(ts, parts), Marked(ts[1..], parts[1..]), parts[0];
            && Heads(ps, tail) == (if Dynamic(ts[0]) then PackNum(tail) + Heads(rest, tail + |p|)
                                   else p + Heads(rest, tail))
            && Tails(ps) == (if Dynamic(ts[0]) then p + Tails(rest) else Tails(rest))
  {
    hide IsDynamic, Dynamic, PackNum, Heads, Tails;
    DynamicIs(ts[0]);
    AssembledStep(Part(IsDynamic(ts[0]), parts[0]), Marked(ts[1..], parts[1..]), tail);
  }

  lemma AssembledStep(p: Part, rest: seq<Part>, tail: nat)
    ensures Heads([p] + rest, tail) == (if p.dynamic then PackNum(tail) + Heads(rest, tail + |p.bytes|)
                                        else p.bytes + Heads(rest, tail))
    ensures Tails([p] + rest) == (if p.dynamic then p.bytes + Tails(rest) else Tails(rest))
  {
    hide PackNum;
    assert ([p] + rest)[1..] == rest;
    assert [] + Tails(rest) == Tails(rest);
  }

  lemma {:induction false} MarkedLengths(ts: seq<Type>, parts: seq<seq<byte>>, offset: nat)
    requires |ts| == |parts|
    ensures |Heads(Marked(ts, parts), offset)| == HeadLength(ts, parts)
    ensures |Tails(Marked(ts, parts))| == TailLength(ts, parts)
  {
    hide Dynamic, PackNum;
    if ts != [] {
      MarkedStep(ts, parts, offset);
      MarkedLengths(ts[1..], parts[1..], if Dynamic(ts[0]) then offset + |parts[0]| else offset);
    }
  }

  /** The encoder's heads and tails are laid out. */
  lemma {:induction false} HeadsLaid(ts: seq<Type>, parts: seq<seq<byte>>, head: nat, tail: nat, b: seq<byte>)
    requires |ts| == |parts|
    requires At(b, head, Heads(Marked(ts, parts), tail)) && At(b, tail, Tails(Marked(ts, parts)))
    ensures Laid(ts, parts, head, tail, b)
  {
    hide Dynamic, PackNum, IsWord, Heads, Tails, Marked;
    if ts != [] {
      MarkedStep(ts, parts, tail);
      var rest, p := Marked(ts[1..], parts[1..]), parts[0];
      if Dynamic(ts[0]) {
        Wrappers.SliceParts(b, head, PackNum(tail), Heads(rest, tail + |p|));
        Wrappers.SliceParts(b, tail, p, Tails(rest));
        WordIsPackNum(b[head..head + 32], tail);
        HeadsLaid(ts[1..], parts[1..], head + 32, tail + |p|, b);
      } else {
        Wrappers.SliceParts(b, head, p, Heads(rest, tail));
        HeadsLaid(ts[1..], parts[1..], head + |p|, tail, b);
      }
    }
  }

  lemma NothingMarked(offset: nat)
    ensures Heads(Marked([], []), offset) == [] && Tails(Marked([], [])) == []
  {
  }

  /** And nothing else is. */
  lemma {:induction false} LaidHeads(ts: seq<Type>, parts: seq<seq<byte>>, head: nat, tail: nat, b: seq<byte>)
    requires |ts| == |parts| && Laid(ts, parts, head, tail, b) && head <= |b| && tail <= |b|
    ensures At(b, head, Heads(Marked(ts, parts), tail)) && At(b, tail, Tails(Marked(ts, parts)))
  {
    hide Dynamic, PackNum, IsWord, Heads, Tails, Marked;
    if ts == [] {
      NothingMarked(tail);
    } else {
      MarkedStep(ts, parts, tail);
      var rest, p := Marked(ts[1..], parts[1..]), parts[0];
      if Dynamic(ts[0]) {
        LaidHeads(ts[1..], parts[1..], head + 32, tail + |p|, b);
        WordIsPackNum(b[head..head + 32], tail);
        Joined(b, head, PackNum(tail), Heads(rest, tail + |p|));
        Joined(b, tail, p, Tails(rest));
      } else {
        LaidHeads(ts[1..], parts[1..], head + |p|, tail, b);
        Joined(b, head, p, Heads(rest, tail));
      }
    }
  }

  lemma Joined(b: seq<byte>, pos: nat, x: seq<byte>, y: seq<byte>)
    requires At(b, pos, x) && At(b, pos + |x|, y)
    ensures At(b, pos, x + y)
  {
    assert b[pos..pos + |x + y|] == b[pos..pos + |x|] + b[pos + |x|..pos + |x| + |y|];
  }

  /** A row is laid out exactly as the encoder assembles it when offsets count from the end of the heads. */
  lemma LaidOutIsAssembled(ts: seq<Type>, parts: seq<seq<byte>>, b: seq<byte>)
    requires |ts| == |parts|
    ensures LaidOut(ts, parts, b) <==> b == Assemble(Marked(ts, parts), HeadLength(ts, parts))
  {
    hide Heads, Tails, Laid, Marked, HeadLength, TailLength;
    var n := HeadLength(ts, parts);
    var heads, tails := Heads(Marked(ts, parts), n), Tails(Marked(ts, parts));
    MarkedLengths(ts, parts, n);
    if LaidOut(ts, parts, b) {
      LaidHeads(ts, parts, 0, n, b);
      assert b == b[0..n] + b[n..n + |tails|];
    }
    if b == heads + tails {
      assert b[0..0 + |heads|] == heads && b[n..n + |tails|] == tails;
      HeadsLaid(ts, parts, 0, n, b);
    }
  }

  // ----- when the encoder meets the specification -----

  /** In every row that the value has, offsets count from where the heads really end. */
  ghost predicate Straight(t: Type, v: Value)
    requires WellTyped(t, v)
    decreases Depth(t), 0
  {
    match t
    case SliceTy(elem) => StraightRow(Repeat(elem, |v.vs|), v.vs)
    case ArrayTy(_, elem) => StraightRow(Repeat(elem, |v.vs|), v.vs)
    case TupleTy(elems) => StraightRow(elems, v.vs)
    case _ => true
  }

  ghost predicate StraightRow(ts: seq<Type>, vs: seq<Value>)
    requires AllWellTyped(ts, vs)
    decreases DepthAll(ts), 2 + |ts|
  {
    (AnyDynamic(ts) ==> SumSizes(ts) == TrueSizes(ts)) && AllStraight(ts, vs)
  }

  ghost predicate AllStraight(ts: seq<Type>, vs: seq<Value>)
    requires AllWellTyped(ts, vs)
    decreases DepthAll(ts), 1 + |ts|
  {
    ts == [] || (Straight(ts[0], vs[0]) && AllStraight(ts[1..], vs[1..]))
  }

  ghost function PartBytes(ps: seq<Part>): seq<seq<byte>> {
    seq(|ps|, i requires 0 <= i < |ps| => ps[i].bytes)
  }

  lemma {:induction false} PackedMarked(ts: seq<Type>, vs: seq<Value>)
    requires PackParts(ts, vs).Ok?
    ensures Marked(ts, PartBytes(PackParts(ts, vs).value)) == PackParts(ts, vs).value
    decreases |ts|
  {
    hide IsDynamic, Pack;
    if ts != [] {
      PackedMarked(ts[1..], vs[1..]);
      var ps, rest := PackParts(ts, vs).value, PackParts(ts[1..], vs[1..]).value;
      assert ps[1..] == rest;
      assert PartBytes(ps)[1..] == PartBytes(rest);
    }
  }

  /** What the components of a row are packed to, and where their heads end. */
  lemma PackedRow(ts: seq<Type>, vs: seq<Value>)
    requires AllSolid(ts) && AllWellTyped(ts, vs) && PackParts(ts, vs).Ok?
    ensures var ps := PackParts(ts, vs).value;
            && Marked(ts, PartBytes(ps)) == ps && HeadLength(ts, PartBytes(ps)) == TrueSizes(ts)
            && SumSizes(ts) <= TrueSizes(ts) <= |Assemble(ps, SumSizes(ts))|
  {
    hide Heads, Tails, Marked, HeadLength, TailLength, Shaped, PackParts, AllSolid, AllWellTyped, SumSizes, TrueSizes;
    var ps := PackParts(ts, vs).value;
    PackedMarked(ts, vs);
    PartsShaped(ts, vs);
    ShapedSizes(ts, ps, SumSizes(ts));
    MarkedLengths(ts, PartBytes(ps), SumSizes(ts));
    SolidSizes(ts);
  }

  /** Offsets do not matter when nothing is dynamic. */
  lemma {:induction false} StaticHeads(ps: seq<Part>, a: nat, b: nat)
    requires forall i :: 0 <= i < |ps| ==> !ps[i].dynamic
    ensures Heads(ps, a) == Heads(ps, b) && Tails(ps) == []
  {
    if ps != [] {
      StaticHeads(ps[1..], a, b);
    }
  }

  lemma {:induction false} NoneMarked(ts: seq<Type>, parts: seq<seq<byte>>)
    requires |ts| == |parts| && !AnyDynamic(ts)
    ensures forall i :: 0 <= i < |ts| ==> !Marked(ts, parts)[i].dynamic
  {
    hide IsDynamic;
    if ts != [] {
      NoneMarked(ts[1..], parts[1..]);
    }
  }

  lemma {:induction false} Conforms(t: Type, v: Value, b: seq<byte>)
    requires Solid(t) && WellTyped(t, v) && Pack(t, v).Ok? && Straight(t, v)
    ensures Encodes(t, v, b) <==> b == Pack(t, v).value
    decreases Depth(t), 0
  {
    hide Pack, IsWord, PackNum, EncodesElement, EncodesRow, PackElement, StraightRow, Assemble;
    match t
    case SliceTy(elem) =>
      PackedSequence(t, v);
      var ts := Repeat(elem, |v.vs|);
      var row := Assemble(PackParts(ts, v.vs).value, SumSizes(ts));
      if |b| >= 32 {
        RowConforms(ts, v.vs, b[32..]);
        WordIsPackNum(b[..32], |v.vs|);
        assert b == b[..32] + b[32..];
      }
      if b == PackNum(|v.vs|) + row {
        assert b[..32] == PackNum(|v.vs|) && b[32..] == row;
      }
    case ArrayTy(_, elem) =>
      PackedSequence(t, v);
      var ts := Repeat(elem, |v.vs|);
      RowConforms(ts, v.vs, b);
      assert [] + Assemble(PackParts(ts, v.vs).value, SumSizes(ts)) == Assemble(PackParts(ts, v.vs).value, SumSizes(ts));
    case TupleTy(elems) =>
      PackedTuple(t, v);
      RowConforms(elems, v.vs, b);
    case _ =>
      PackedElement(t, v);
      ElementEncoded(t, v, b);
  }

  lemma PackedTuple(t: Type, v: Value)
    requires t.TupleTy? && Solid(t) && WellTyped(t, v) && Pack(t, v).Ok?
    ensures AllSolid(t.elems) && AllWellTyped(t.elems, v.vs) && PackParts(t.elems, v.vs).Ok?
    ensures Pack(t, v).value == Assemble(PackParts(t.elems, v.vs).value, SumSizes(t.elems))
  {
    hide PackParts, SumSizes, Heads, Tails;
  }

  lemma RowConforms(ts: seq<Type>, vs: seq<Value>, b: seq<byte>)
    requires AllSolid(ts) && AllWellTyped(ts, vs) && PackParts(ts, vs).Ok? && StraightRow(ts, vs)
    ensures EncodesRow(ts, vs, b) <==> b == Assemble(PackParts(ts, vs).value, SumSizes(ts))
    decreases DepthAll(ts), 2 + |ts|
  {
    hide Heads, Tails, Marked, HeadLength, EncodesEach, LaidOut, PackParts, AllSolid, AllWellTyped, SumSizes, TrueSizes,
      AllStraight, AnyDynamic;
    var ps := PackParts(ts, vs).value;
    var parts := PartBytes(ps);
    PackedRow(ts, vs);
    LaidOutIsAssembled(ts, parts, b);
    if !AnyDynamic(ts) {
      NoneMarked(ts, parts);
      StaticHeads(ps, SumSizes(ts), TrueSizes(ts));
    }
    EachConforms(ts, vs, parts);
    if EncodesRow(ts, vs, b) {
      var qs: seq<seq<byte>> :| |qs| == |ts| && EncodesEach(ts, vs, qs) && LaidOut(ts, qs, b);
      EachConforms(ts, vs, qs);
    }
  }

  lemma {:induction false} EachConforms(ts: seq<Type>, vs: seq<Value>, parts: seq<seq<byte>>)
    requires AllSolid(ts) && AllWellTyped(ts, vs) && PackParts(ts, vs).Ok? && AllStraight(ts, vs) && |parts| == |ts|
    ensures EncodesEach(ts, vs, parts) <==> parts == PartBytes(PackParts(ts, vs).value)
    decreases DepthAll(ts), 1 + |ts|
  {
    hide Pack, Straight, Encodes, Solid, WellTyped, IsDynamic;
    if ts != [] {
      Conforms(ts[0], vs[0], parts[0]);
      EachConforms(ts[1..], vs[1..], parts[1..]);
      var ps, rest := PackParts(ts, vs).value, PackParts(ts[1..], vs[1..]).value;
      assert ps == [Part(IsDynamic(ts[0]), Pack(ts[0], vs[0]).value)] + rest;
      assert PartBytes(ps) == [Pack(ts[0], vs[0]).value] + PartBytes(rest);
      assert parts == [parts[0]] + parts[1..];
    }
  }

  lemma ValueEncoded(t: Type, v: Value)
    ensures Pack(t, v).Ok? && Solid(t) && WellTyped(t, v) && Straight(t, v) ==> Encodes(t, v, Pack(t, v).value)
  {
    hide Pack, Solid, WellTyped, Straight, Encodes;
    if Pack(t, v).Ok? && Solid(t) && WellTyped(t, v) && Straight(t, v) {
      Conforms(t, v, Pack(t, v).value);
    }
  }

  lemma RowEncoded(ts: seq<Type>, vs: seq<Value>)
    ensures PackTuple(ts, vs).Ok? && AllSolid(ts) && AllWellTyped(ts, vs) && StraightRow(ts, vs) ==>
              EncodesRow(ts, vs, PackTuple(ts, vs).value)
  {
    hide PackParts, AllSolid, AllWellTyped, StraightRow, EncodesRow, Assemble;
    if PackTuple(ts, vs).Ok? && AllSolid(ts) && AllWellTyped(ts, vs) && StraightRow(ts, vs) {
      RowConforms(ts, vs, PackTuple(ts, vs).value);
    }
  }

  // ----- only then -----

  ghost predicate SameLengths(a: seq<seq<byte>>, b: seq<seq<byte>>) {
    |a| == |b| && forall i :: 0 <= i < |a| ==> |a[i]| == |b[i]|
  }

  lemma SameLengthsRest(a: seq<seq<byte>>, b: seq<seq<byte>>)
    requires SameLengths(a, b) && a != []
    ensures |a[0]| == |b[0]| && SameLengths(a[1..], b[1..])
  {
  }

  lemma {:induction false} SameHeadLengths(ts: seq<Type>, a: seq<seq<byte>>, b: seq<seq<byte>>)
    requires |ts| == |a| == |b| && SameLengths(a, b)
    ensures HeadLength(ts, a) == HeadLength(ts, b) && TailLength(ts, a) == TailLength(ts, b)
  {
    hide Dynamic, SameLengths;
    if ts != [] {
      SameLengthsRest(a, b);
      SameHeadLengths(ts[1..], a[1..], b[1..]);
    }
  }

  /** All encodings of a value are as long as what the encoder writes, even where that is no encoding. */
  lemma {:induction false} EncodedLength(t: Type, v: Value, b: seq<byte>)
    requires Solid(t) && WellTyped(t, v) && Pack(t, v).Ok? && Encodes(t, v, b)
    ensures |b| == |Pack(t, v).value|
    decreases Depth(t), 0
  {
    hide Pack, IsWord, PackNum, EncodesElement, EncodesRow, PackElement, Assemble;
    match t
    case SliceTy(elem) =>
      PackedSequence(t, v);
      RowLength(Repeat(elem, |v.vs|), v.vs, b[32..]);
    case ArrayTy(_, elem) =>
      PackedSequence(t, v);
      RowLength(Repeat(elem, |v.vs|), v.vs, b);
    case TupleTy(elems) =>
      PackedTuple(t, v);
      RowLength(elems, v.vs, b);
    case _ =>
      PackedElement(t, v);
      ElementEncoded(t, v, b);
  }

  lemma RowLength(ts: seq<Type>, vs: seq<Value>, b: seq<byte>)
    requires AllSolid(ts) && AllWellTyped(ts, vs) && PackParts(ts, vs).Ok? && EncodesRow(ts, vs, b)
    ensures |b| == |Assemble(PackParts(ts, vs).value, SumSizes(ts))|
    decreases DepthAll(ts), 2 + |ts|
  {
    hide Heads, Tails, Marked, HeadLength, TailLength, EncodesEach, Laid, PackParts, AllSolid, AllWellTyped, SumSizes;
    var ps := PackParts(ts, vs).value;
    var parts: seq<seq<byte>> :| |parts| == |ts| && EncodesEach(ts, vs, parts) && LaidOut(ts, parts, b);
    EachLength(ts, vs, parts);
    SameHeadLengths(ts, parts, PartBytes(ps));
    PackedMarked(ts, vs);
    MarkedLengths(ts, PartBytes(ps), SumSizes(ts));
  }

  lemma {:induction false} EachLength(ts: seq<Type>, vs: seq<Value>, parts: seq<seq<byte>>)
    requires AllSolid(ts) && AllWellTyped(ts, vs) && PackParts(ts, vs).Ok? && EncodesEach(ts, vs, parts)
    ensures SameLengths(parts, PartBytes(PackParts(ts, vs).value))
    decreases DepthAll(ts), 1 + |ts|
  {
    hide Pack, Encodes, Solid, WellTyped, IsDynamic;
    if ts != [] {
      EncodedLength(ts[0], vs[0], parts[0]);
      EachLength(ts[1..], vs[1..], parts[1..]);
      var ps, rest := PackParts(ts, vs).value, PackParts(ts[1..], vs[1..]).value;
      assert ps == [Part(IsDynamic(ts[0]), Pack(ts[0], vs[0]).value)] + rest;
      assert PartBytes(ps) == [Pack(ts[0], vs[0]).value] + PartBytes(rest);
      assert parts == [parts[0]] + parts[1..];
    }
  }

  lemma SplitSame(a: seq<byte>, b: seq<byte>, c: seq<byte>, d: seq<byte>)
    requires |a| == |c| && a + b == c + d
    ensures a == c && b == d
  {
    assert a == (a + b)[..|a|] && b == (a + b)[|a|..];
  }

  lemma SamePackNum(m: nat, n: nat)
    requires PackNum(m) == PackNum(n)
    ensures m % Pow256(32) == n % Pow256(32)
  {
    hide PackNum, Pow256, Number;
    WordIsPackNum(PackNum(m), m);
    WordIsPackNum(PackNum(n), n);
  }

  /** Rows of parts of the same lengths that are assembled to the same bytes have the same parts and offsets. */
  lemma {:induction false} HeadsAgree(ts: seq<Type>, a: seq<seq<byte>>, b: seq<seq<byte>>, o: nat, o': nat)
    requires |ts| == |a| == |b| && SameLengths(a, b)
    requires Heads(Marked(ts, a), o) == Heads(Marked(ts, b), o') && Tails(Marked(ts, a)) == Tails(Marked(ts, b))
    ensures a == b
    ensures AnyDynamic(ts) ==> o % Pow256(32) == o' % Pow256(32)
  {
    hide Heads, Tails, Marked, Dynamic, PackNum, Pow256, SameLengths, IsDynamic;
    if ts != [] {
      SameLengthsRest(a, b);
      MarkedStep(ts, a, o);
      MarkedStep(ts, b, o');
      DynamicIs(ts[0]);
      var ra, rb := Marked(ts[1..], a[1..]), Marked(ts[1..], b[1..]);
      if Dynamic(ts[0]) {
        SplitSame(PackNum(o), Heads(ra, o + |a[0]|), PackNum(o'), Heads(rb, o' + |b[0]|));
        SamePackNum(o, o');
        SplitSame(a[0], Tails(ra), b[0], Tails(rb));
        HeadsAgree(ts[1..], a[1..], b[1..], o + |a[0]|, o' + |b[0]|);
      } else {
        SplitSame(a[0], Heads(ra, o), b[0], Heads(rb, o'));
        HeadsAgree(ts[1..], a[1..], b[1..], o, o');
      }
      assert a == [a[0]] + a[1..] && b == [b[0]] + b[1..];
    }
  }

  lemma {:induction false} ConformsOnly(t: Type, v: Value)
    requires Solid(t) && WellTyped(t, v) && Pack(t, v).Ok? && |Pack(t, v).value| < INT64_LIMIT
    requires Encodes(t, v, Pack(t, v).value)
    ensures Straight(t, v)
    decreases Depth(t), 0
  {
    hide Pack, IsWord, PackNum, EncodesElement, EncodesRow, StraightRow, Assemble;
    var b := Pack(t, v).value;
    match t
    case SliceTy(elem) =>
      PackedSequence(t, v);
      var ts := Repeat(elem, |v.vs|);
      assert b[32..] == Assemble(PackParts(ts, v.vs).value, SumSizes(ts));
      RowConformsOnly(ts, v.vs);
    case ArrayTy(_, elem) =>
      PackedSequence(t, v);
      var ts := Repeat(elem, |v.vs|);
      assert b == Assemble(PackParts(ts, v.vs).value, SumSizes(ts));
      RowConformsOnly(ts, v.vs);
    case TupleTy(elems) =>
      PackedTuple(t, v);
      RowConformsOnly(elems, v.vs);
    case _ =>
  }

  lemma RowConformsOnly(ts: seq<Type>, vs: seq<Value>)
    requires AllSolid(ts) && AllWellTyped(ts, vs) && PackParts(ts, vs).Ok?
    requires |Assemble(PackParts(ts, vs).value, SumSizes(ts))| < INT64_LIMIT
    requires EncodesRow(ts, vs, Assemble(PackParts(ts, vs).value, SumSizes(ts)))
    ensures StraightRow(ts, vs)
    decreases DepthAll(ts), 2 + |ts|
  {
    hide Heads, Tails, Marked, HeadLength, TailLength, EncodesEach, LaidOut, PackParts, AllSolid, AllWellTyped, SumSizes,
      TrueSizes, AllStraight, AnyDynamic, SameLengths, Pow256;
    var ps := PackParts(ts, vs).value;
    var b, parts := Assemble(ps, SumSizes(ts)), PartBytes(ps);
    PackedRow(ts, vs);
    var qs: seq<seq<byte>> :| |qs| == |ts| && EncodesEach(ts, vs, qs) && LaidOut(ts, qs, b);
    EachLength(ts, vs, qs);
    SameHeadLengths(ts, qs, parts);
    LaidOutIsAssembled(ts, qs, b);
    var n := TrueSizes(ts);
    MarkedLengths(ts, parts, SumSizes(ts));
    MarkedLengths(ts, qs, n);
    SplitSame(Heads(ps, SumSizes(ts)), Tails(ps), Heads(Marked(ts, qs), n), Tails(Marked(ts, qs)));
    assert SameLengths(parts, qs) by { Symmetric(qs, parts); }
    HeadsAgree(ts, parts, qs, SumSizes(ts), n);
    SmallOffsets(SumSizes(ts), n);
    assert HeadLength(ts, parts) + TailLength(ts, parts) < INT64_LIMIT;
    EachConformsOnly(ts, vs);
  }

  lemma Symmetric(a: seq<seq<byte>>, b: seq<seq<byte>>)
    requires SameLengths(a, b)
    ensures SameLengths(b, a)
  {
  }

  lemma SmallOffsets(m: nat, n: nat)
    requires m < INT64_LIMIT && n < INT64_LIMIT
    ensures m % Pow256(32) == n % Pow256(32) ==> m == n
  {
    hide Pow256;
    Pow256Of8();
    Pow256Monotone(8, 32);
    SmallMod(m, Pow256(32));
    SmallMod(n, Pow256(32));
  }

  lemma {:induction false} EachConformsOnly(ts: seq<Type>, vs: seq<Value>)
    requires AllSolid(ts) && AllWellTyped(ts, vs) && PackParts(ts, vs).Ok?
    requires var parts := PartBytes(PackParts(ts, vs).value);
             EncodesEach(ts, vs, parts) && HeadLength(ts, parts) + TailLength(ts, parts) < INT64_LIMIT
    ensures AllStraight(ts, vs)
    decreases DepthAll(ts), 1 + |ts|
  {
    hide Pack, Straight, Encodes, Solid, WellTyped, IsDynamic, Dynamic;
    if ts != [] {
      var ps, rest := PackParts(ts, vs).value, PackParts(ts[1..], vs[1..]).value;
      assert ps == [Part(IsDynamic(ts[0]), Pack(ts[0], vs[0]).value)] + rest;
      assert PartBytes(ps) == [Pack(ts[0], vs[0]).value] + PartBytes(rest);
      assert PartBytes(ps)[1..] == PartBytes(rest);
      ConformsOnly(ts[0], vs[0]);
      EachConformsOnly(ts[1..], vs[1..]);
    }
  }

  /**
    What the encoder writes for arguments is their encoding, and their only one, exactly when in every row of
    components with a dynamic one the sizes that the encoder assumes are the true ones.
    */
  lemma PackConforms(ts: seq<Type>, vs: seq<Value>)
    requires AllSolid(ts) && AllWellTyped(ts, vs) && PackTuple(ts, vs).Ok?
    requires |PackTuple(ts, vs).value| < INT64_LIMIT
    ensures EncodesRow(ts, vs, PackTuple(ts, vs).value) <==> StraightRow(ts, vs)
    ensures StraightRow(ts, vs) ==> forall b :: EncodesRow(ts, vs, b) ==> b == PackTuple(ts, vs).value
  {
    hide EncodesRow, StraightRow, Assemble, PackParts, AllSolid, AllWellTyped;
    if StraightRow(ts, vs) {
      forall b
        ensures EncodesRow(ts, vs, b) <==> b == PackTuple(ts, vs).value
      {
        RowConforms(ts, vs, b);
      }
    } else if EncodesRow(ts, vs, PackTuple(ts, vs).value) {
      RowConformsOnly(ts, vs);
    }
  }

  /** A string with an array of pairs: its offset leaves out a word of every pair, whatever the values are. */
  lemma PairsNotStraight(vs: seq<Value>)
    requires AllWellTyped([StringTy, ArrayTy(2, PAIR)], vs)
    ensures !StraightRow([StringTy, ArrayTy(2, PAIR)], vs)
  {
    hide AllStraight;
    PairSizes();
    var pairs := ArrayTy(2, PAIR);
    var ts := [StringTy, pairs];
    assert ts[1..] == [pairs] && ts[1..][1..] == [];
    assert SumSizes(ts[1..]) == 64 && TrueSizes(ts[1..]) == 128;
    assert AnyDynamic(ts) && SumSizes(ts) == 96 && TrueSizes(ts) == 160;
  }

  // ----- sound lists -----

  lemma {:induction false} SoundStraight(t: Type, v: Value)
    requires Solid(t) && Sound(t) && WellTyped(t, v)
    ensures Straight(t, v)
    decreases Depth(t), 0
  {
    hide StraightRow, SoundList, AllSolid, AllWellTyped;
    match t
    case SliceTy(elem) =>
      AlignedRow(elem, |v.vs|);
      RepeatSum(elem, |v.vs|);
      SoundStraightRow(Repeat(elem, |v.vs|), v.vs);
    case ArrayTy(_, elem) =>
      AlignedRow(elem, |v.vs|);
      RepeatSum(elem, |v.vs|);
      SoundStraightRow(Repeat(elem, |v.vs|), v.vs);
    case TupleTy(elems) =>
      assert SoundList(elems) by { SoundTuple(elems); }
      SoundStraightRow(elems, v.vs);
    case _ =>
  }

  lemma SoundTuple(elems: seq<Type>)
    requires Sound(TupleTy(elems))
    ensures SoundList(elems)
  {
  }

  /** In a sound list sizes sum up right wherever an offset is written. */
  lemma SoundStraightRow(ts: seq<Type>, vs: seq<Value>)
    requires AllSolid(ts) && SoundList(ts) && AllWellTyped(ts, vs)
    ensures StraightRow(ts, vs)
    decreases DepthAll(ts), 2 + |ts|
  {
    hide AllSolid, AllWellTyped, SumSizes, TrueSizes, AllSound, AllStraight;
    SolidSizes(ts);
    SoundAllStraight(ts, vs);
  }

  lemma {:induction false} SoundAllStraight(ts: seq<Type>, vs: seq<Value>)
    requires AllSolid(ts) && AllSound(ts) && AllWellTyped(ts, vs)
    ensures AllStraight(ts, vs)
    decreases DepthAll(ts), 1 + |ts|
  {
    hide Solid, Sound, WellTyped, Straight;
    if ts != [] {
      SoundStraight(ts[0], vs[0]);
      SoundAllStraight(ts[1..], vs[1..]);
    }
  }

  // ----- decoding encodings -----

  /** Components in a row are found if all but the last are sized; offsets in an encoding are right by themselves. */
  predicate Legible(t: Type)
    decreases t, 1
  {
    match t
    case SliceTy(elem) => Legible(elem) && Sized(elem)
    case ArrayTy(size, elem) => Legible(elem) && (size > 1 ==> Sized(elem))
    case TupleTy(elems) => LegibleList(elems)
    case _ => true
  }

  predicate LegibleList(ts: seq<Type>)
    decreases ts, 1
  {
    AllLegible(ts) && (ts != [] ==> AllSized(ts[..|ts| - 1]))
  }

  predicate AllLegible(ts: seq<Type>)
    decreases ts, 0
  {
    ts == [] || (Legible(ts[0]) && AllLegible(ts[1..]))
  }

  lemma {:induction false} SoundLegible(t: Type)
    requires Sound(t)
    ensures Legible(t)
    decreases t, 1
  {
    match t
    case SliceTy(elem) => SoundLegible(elem);
    case ArrayTy(_, elem) => SoundLegible(elem);
    case TupleTy(elems) => SoundAllLegible(elems);
    case _ =>
  }

  lemma {:induction false} SoundAllLegible(ts: seq<Type>)
    requires AllSound(ts)
    ensures AllLegible(ts)
    decreases ts, 0
  {
    if ts != [] {
      SoundLegible(ts[0]);
      SoundAllLegible(ts[1..]);
    }
  }

  /** Sound lists are legible, and so is the list of a string and two pairs, which is not sound. */
  lemma LegibleMore(ts: seq<Type>)
    ensures SoundList(ts) ==> LegibleList(ts)
    ensures var pairs := [StringTy, ArrayTy(2, PAIR)]; LegibleList(pairs) && !SoundList(pairs)
  {
    if SoundList(ts) {
      SoundAllLegible(ts);
    }
    PairSizes();
    var pairs := [StringTy, ArrayTy(2, PAIR)];
    SoundLegible(ArrayTy(2, PAIR));
    assert pairs[1..] == [ArrayTy(2, PAIR)] && pairs[1..][1..] == [] && pairs[..1] == [StringTy];
    assert !AllSized(pairs[1..]) && !AllSized(pairs) && AnyDynamic(pairs);
  }

  lemma {:induction false} LegibleRow(elem: Type, n: nat)
    requires Solid(elem) && Legible(elem) && (n > 1 ==> Sized(elem))
    ensures AllSolid(Repeat(elem, n)) && LegibleList(Repeat(elem, n))
  {
    hide Solid, Legible;
    RepeatSizes(elem, n);
    RepeatLegible(elem, n);
    if n > 0 {
      RepeatSizes(elem, n - 1);
      assert Repeat(elem, n)[..n - 1] == Repeat(elem, n - 1);
    }
  }

  lemma {:induction false} RepeatLegible(elem: Type, n: nat)
    requires Legible(elem)
    ensures AllLegible(Repeat(elem, n))
  {
    if n > 0 {
      RepeatLegible(elem, n - 1);
      assert Repeat(elem, n)[1..] == Repeat(elem, n - 1);
    }
  }

  /** A static value has no slices, so packing it succeeds. */
  lemma {:induction false} StaticNoEmpty(t: Type, v: Value)
    requires Solid(t) && !IsDynamic(t) && WellTyped(t, v)
    ensures NoEmptyRow(t, v)
    decreases Depth(t), 0
  {
    match t
    case ArrayTy(size, elem) =>
      RepeatSizes(elem, size);
      StaticNoEmpties(Repeat(elem, size), v.vs);
    case TupleTy(elems) => StaticNoEmpties(elems, v.vs);
    case _ =>
  }

  lemma {:induction false} StaticNoEmpties(ts: seq<Type>, vs: seq<Value>)
    requires AllSolid(ts) && !AnyDynamic(ts) && AllWellTyped(ts, vs)
    ensures NoEmptyRows(ts, vs)
    decreases DepthAll(ts), 1 + |ts|
  {
    hide Solid, IsDynamic, WellTyped, NoEmptyRow;
    if ts != [] {
      StaticNoEmpty(ts[0], vs[0]);
      StaticNoEmpties(ts[1..], vs[1..]);
    }
  }

  /** The encoding of a static value is as long as its type says. */
  lemma EncodedStatic(t: Type, v: Value, b: seq<byte>)
    requires Solid(t) && !IsDynamic(t) && WellTyped(t, v) && Encodes(t, v, b)
    ensures |b| == TrueSize(t)
  {
    hide Solid, IsDynamic, WellTyped, Encodes, Pack, NoEmptyRow, TrueSize;
    StaticNoEmpty(t, v);
    PackOutcome(t, v);
    EncodedLength(t, v, b);
    PackSize(t, v);
  }

  lemma {:induction false} EncodedHeads(ts: seq<Type>, vs: seq<Value>, parts: seq<seq<byte>>)
    requires AllSolid(ts) && AllWellTyped(ts, vs) && EncodesEach(ts, vs, parts)
    ensures HeadLength(ts, parts) == TrueSizes(ts)
    decreases |ts|
  {
    hide Solid, IsDynamic, Dynamic, WellTyped, Encodes, TrueSize, GetTypeSize;
    if ts != [] {
      DynamicIs(ts[0]);
      SolidSize(ts[0]);
      if !IsDynamic(ts[0]) {
        EncodedStatic(ts[0], vs[0], parts[0]);
      }
      EncodedHeads(ts[1..], vs[1..], parts[1..]);
    }
  }

  /** What is laid out in a byte string is laid out in one that starts with it. */
  lemma {:induction false} LaidMore(ts: seq<Type>, parts: seq<seq<byte>>, head: nat, tail: nat, b: seq<byte>, out: seq<byte>)
    requires |ts| == |parts| && b <= out && Laid(ts, parts, head, tail, b)
    ensures Laid(ts, parts, head, tail, out)
    decreases |ts|
  {
    hide Dynamic, IsWord;
    if ts != [] {
      if Dynamic(ts[0]) {
        assert out[head..head + 32] == b[head..head + 32];
        AtMore(b, tail, parts[0], out);
        LaidMore(ts[1..], parts[1..], head + 32, tail + |parts[0]|, b, out);
      } else {
        AtMore(b, head, parts[0], out);
        LaidMore(ts[1..], parts[1..], head + |parts[0]|, tail, b, out);
      }
    }
  }

  lemma AtMore(b: seq<byte>, pos: nat, part: seq<byte>, out: seq<byte>)
    requires b <= out && At(b, pos, part)
    ensures At(out, pos, part)
  {
    assert out[pos..pos + |part|] == b[pos..pos + |part|];
  }

  /** Wherever an encoding is placed, the value is read. */
  lemma {:induction false} Reads(t: Type, v: Value, b: seq<byte>, pos: nat, out: seq<byte>)
    requires Solid(t) && Legible(t) && WellTyped(t, v) && Encodes(t, v, b)
    requires Placed(Part(IsDynamic(t), b), pos, out) && |out| < INT64_LIMIT
    ensures ToGoType(pos, t, out) == Ok(v)
    decreases Depth(t), 1
  {
    hide Placed, ToGoType, WellTyped, Encodes, Legible, Solid, IsDynamic;
    match t
    case SliceTy(_) => ReadsSlice(t, v, b, pos, out);
    case ArrayTy(_, _) => ReadsArray(t, v, b, pos, out);
    case TupleTy(_) => ReadsTuple(t, v, b, pos, out);
    case _ => ReadsElement(t, v, b, pos, out);
  }

  lemma ReadsElement(t: Type, v: Value, b: seq<byte>, pos: nat, out: seq<byte>)
    requires IsElementary(t) && Solid(t) && WellTyped(t, v) && Encodes(t, v, b)
    requires Placed(Part(IsDynamic(t), b), pos, out) && |out| < INT64_LIMIT
    ensures ToGoType(pos, t, out) == Ok(v)
  {
    hide Placed, ToGoType, IsDynamic, PackElement, EncodesElement, InIntRange, Pow2;
    WellTypedKind(t, v);
    PackOutcome(t, v);
    PackedElement(t, v);
    ElementEncoded(t, v, b);
    DecodesElement(t, v, pos, out);
  }

  lemma ReadsSlice(t: Type, v: Value, b: seq<byte>, pos: nat, out: seq<byte>)
    requires t.SliceTy? && Solid(t) && Legible(t) && WellTyped(t, v) && Encodes(t, v, b)
    requires Placed(Part(IsDynamic(t), b), pos, out) && |out| < INT64_LIMIT
    ensures ToGoType(pos, t, out) == Ok(v)
    decreases Depth(t), 0
  {
    hide PackNum, Number, Repeat, AllWellTyped, AllSolid, LegibleList, Sized, EncodesRow, IsWord, UnpackFrom;
    var n, ts := |v.vs|, Repeat(t.elem, |v.vs|);
    LegibleRow(t.elem, n);
    var off: nat :| PlacedAt(Part(true, b), pos, out, off);
    WordIsPackNum(b[..32], n);
    assert b == PackNum(n) + b[32..];
    Wrappers.SliceParts(out, off, PackNum(n), b[32..]);
    var inner := out[off + 32..];
    assert b[32..] <= inner;
    ReadsRow(ts, v.vs, b[32..], inner);
    PackNumWhole(off);
    PackNumWhole(n);
    assert LengthPrefixPointsTo(pos, out) == Ok(Span(off + 32, n));
  }

  lemma ReadsArray(t: Type, v: Value, b: seq<byte>, pos: nat, out: seq<byte>)
    requires t.ArrayTy? && Solid(t) && Legible(t) && WellTyped(t, v) && Encodes(t, v, b)
    requires Placed(Part(IsDynamic(t), b), pos, out) && |out| < INT64_LIMIT
    ensures ToGoType(pos, t, out) == Ok(v)
    decreases Depth(t), 0
  {
    hide PackNum, Number, Repeat, AllWellTyped, AllSolid, LegibleList, Sized, EncodesRow, UnpackFrom;
    LegibleRow(t.elem, |v.vs|);
    var off := Found(t, b, pos, out);
    ReadsRow(Repeat(t.elem, |v.vs|), v.vs, b, out[off..]);
    assert pos + 32 <= |out|;
  }

  lemma ReadsTuple(t: Type, v: Value, b: seq<byte>, pos: nat, out: seq<byte>)
    requires t.TupleTy? && Solid(t) && Legible(t) && WellTyped(t, v) && Encodes(t, v, b)
    requires Placed(Part(IsDynamic(t), b), pos, out) && |out| < INT64_LIMIT
    ensures ToGoType(pos, t, out) == Ok(v)
    decreases Depth(t), 0
  {
    hide PackNum, Number, AllWellTyped, AllSolid, LegibleList, EncodesRow, UnpackFrom;
    var off := Found(t, b, pos, out);
    ReadsRow(t.elems, v.vs, b, out[off..]);
    assert pos + 32 <= |out|;
  }

  /** Where an array or a tuple stands: at its head, or at the offset there, which is read right. */
  lemma Found(t: Type, b: seq<byte>, pos: nat, out: seq<byte>) returns (off: nat)
    requires Placed(Part(IsDynamic(t), b), pos, out) && |out| < INT64_LIMIT
    ensures off <= |out| && b <= out[off..]
    ensures !IsDynamic(t) ==> off == pos
    ensures IsDynamic(t) ==>
              && pos + 32 <= |out| && TuplePointsTo(pos, out) == Ok(off) && ArrayPointsTo(pos, out) == Ok(off)
  {
    hide PackNum, Number, IsDynamic;
    off := pos;
    if IsDynamic(t) {
      off :| PlacedAt(Part(true, b), pos, out, off);
      PackNumWhole(off);
      assert out[pos + 24..pos + 32] == out[pos..pos + 32][24..];
    }
    Wrappers.RestStarts(out, off, b);
  }

  /** The components of a row are read from the start of an encoding, whatever follows it. */
  lemma ReadsRow(ts: seq<Type>, vs: seq<Value>, b: seq<byte>, inner: seq<byte>)
    requires AllSolid(ts) && LegibleList(ts) && AllWellTyped(ts, vs) && EncodesRow(ts, vs, b)
    requires b <= inner && |inner| < INT64_LIMIT
    ensures UnpackFrom(ts, 0, inner) == Ok(vs) && 32 * |ts| <= |b|
    decreases DepthAll(ts), 2 + |ts|
  {
    hide EncodesEach, Laid, HeadLength, TailLength, AllSolid, AllLegible, AllWellTyped, UnpackFrom, TrueSizes, SumSizes;
    var parts: seq<seq<byte>> :| |parts| == |ts| && EncodesEach(ts, vs, parts) && LaidOut(ts, parts, b);
    EncodedHeads(ts, vs, parts);
    SolidSizes(ts);
    LaidMore(ts, parts, 0, HeadLength(ts, parts), b, inner);
    ReadsAll(ts, vs, parts, 0, HeadLength(ts, parts), inner);
  }

  lemma {:induction false} ReadsAll(ts: seq<Type>, vs: seq<Value>, parts: seq<seq<byte>>, head: nat, tail: nat,
                                    out: seq<byte>)
    requires AllSolid(ts) && AllLegible(ts) && (ts != [] ==> AllSized(ts[..|ts| - 1]))
    requires AllWellTyped(ts, vs) && EncodesEach(ts, vs, parts)
    requires Laid(ts, parts, head, tail, out) && |out| < INT64_LIMIT
    ensures UnpackFrom(ts, head, out) == Ok(vs)
    decreases DepthAll(ts), 1 + |ts|
  {
    hide Placed, ToGoType, Encodes, Legible, Solid, WellTyped, IsDynamic, Dynamic, GetTypeSize, TrueSize, IsWord, At;
    if ts != [] {
      PartPlaced(ts[0], parts[0], head, tail, out);
      Reads(ts[0], vs[0], parts[0], head, out);
      SolidSize(ts[0]);
      DynamicIs(ts[0]);
      if !IsDynamic(ts[0]) {
        EncodedStatic(ts[0], vs[0], parts[0]);
      }
      if |ts| > 1 {
        assert ts[..|ts| - 1][0] == ts[0] && ts[..|ts| - 1][1..] == ts[1..][..|ts[1..]| - 1];
        var next := if Dynamic(ts[0]) then tail + |parts[0]| else tail;
        ReadsAll(ts[1..], vs[1..], parts[1..], head + GetTypeSize(ts[0]), next, out);
      }
      assert vs == [vs[0]] + vs[1..];
    }
  }

  lemma PartPlaced(t: Type, part: seq<byte>, head: nat, tail: nat, out: seq<byte>)
    requires if Dynamic(t) then head + 32 <= |out| && IsWord(out[head..head + 32], tail) && At(out, tail, part)
             else At(out, head, part)
    ensures Placed(Part(IsDynamic(t), part), head, out)
  {
    hide IsDynamic, Dynamic, PackNum, IsWord;
    DynamicIs(t);
    if Dynamic(t) {
      WordIsPackNum(out[head..head + 32], tail);
      PlacedByOffset(Part(true, part), head, out, tail);
    }
  }

  /** Every encoding of the values of a legible argument list is unpacked to them, whoever wrote it. */
  lemma UnpackEncoded(ts: seq<Type>, vs: seq<Value>, data: seq<byte>)
    requires AllSolid(ts) && LegibleList(ts) && AllWellTyped(ts, vs)
    requires EncodesRow(ts, vs, data) && |data| < INT64_LIMIT
    ensures UnpackValues(ts, data) == Ok(vs)
  {
    ReadsRow(ts, vs, data, data);
  }
}
