/**
  Contract ABI types and packing: head/tail encoding of nested static and dynamic types with relative offsets
  (the section "Formal Specification of the Encoding" of the Solidity Contract ABI Specification).
  */
module Abi {
  import opened Bytes
  import Wrappers

  datatype Type =
    | IntTy(bits: nat) | UintTy(bits: nat) | BoolTy
    | StringTy | BytesTy | FixedBytesTy(width: nat) | AddressTy | FunctionTy
    | SliceTy(elem: Type) | ArrayTy(size: nat, elem: Type) | TupleTy(elems: seq<Type>)

  /** Go values: numbers, booleans, byte strings of any kind, slices and arrays, structs. */
  datatype Value =
    | Num(n: int) | Boolean(b: bool) | Data(bytes: seq<byte>)
    | Items(vs: seq<Value>) | Fields(vs: seq<Value>)

  /** An operation yields a value, returns an error, or panics. */
  datatype Outcome<+T> = Ok(value: T) | Err | Panic

  const INT64_LIMIT: nat := 0x8000_0000_0000_0000

  // ----- types -----

  function Depth(t: Type): nat
    decreases t, 1
  {
    match t
    case SliceTy(elem) => 1 + Depth(elem)
    case ArrayTy(_, elem) => 1 + Depth(elem)
    case TupleTy(elems) => 1 + DepthAll(elems)
    case _ => 0
  }

  function DepthAll(ts: seq<Type>): nat
    decreases ts, 0
  {
    if ts == [] then 0
    else if Depth(ts[0]) >= DepthAll(ts[1..]) then Depth(ts[0]) else DepthAll(ts[1..])
  }

  lemma {:induction false} DepthAt(ts: seq<Type>, i: nat)
    requires i < |ts|
    ensures Depth(ts[i]) <= DepthAll(ts)
  {
    if i > 0 {
      DepthAt(ts[1..], i - 1);
    }
  }

  /** n components of one type: a slice or an array seen as a tuple. */
  function Repeat(t: Type, n: nat): (ts: seq<Type>)
    ensures |ts| == n && DepthAll(ts) <= Depth(t)
    ensures forall i :: 0 <= i < n ==> ts[i] == t
  {
    if n == 0 then [] else [t] + Repeat(t, n - 1)
  }

  predicate RequiresLengthPrefix(t: Type) {
    t.StringTy? || t.BytesTy? || t.SliceTy?
  }

  predicate IsDynamic(t: Type)
    decreases t, 1
  {
    match t
    case TupleTy(elems) => AnyDynamic(elems)
    case ArrayTy(_, elem) => IsDynamic(elem)
    case _ => RequiresLengthPrefix(t)
  }

  predicate AnyDynamic(ts: seq<Type>)
    decreases ts, 0
  {
    ts != [] && (IsDynamic(ts[0]) || AnyDynamic(ts[1..]))
  }

  /** The room that a type takes in the head: what a static type occupies, or one word for an offset. */
  function GetTypeSize(t: Type): nat
    decreases t, 1
  {
    match t
    case ArrayTy(size, elem) =>
      if IsDynamic(elem) then 32
      else if elem.ArrayTy? then size * GetTypeSize(elem)
      else size * 32
    case TupleTy(elems) => if AnyDynamic(elems) then 32 else SumSizes(elems)
    case _ => 32
  }

  function SumSizes(ts: seq<Type>): nat
    decreases ts, 0
  {
    if ts == [] then 0 else GetTypeSize(ts[0]) + SumSizes(ts[1..])
  }

  // ----- elementary values -----

  /** The Go kind of an integer type: its own width for 8, 16, 32 and 64 bits, `*big.Int` otherwise. */
  predicate IsMachineInt(bits: nat) {
    bits == 8 || bits == 16 || bits == 32 || bits == 64
  }

  predicate InIntRange(bits: nat, n: int)
    requires bits > 0
  {
    var half: int := Pow2(bits - 1);
    -half <= n < half
  }

  /** A number as a 256-bit two's complement word. */
  function PackNum(n: int): (b: seq<byte>)
    ensures |b| == 32
  {
    Fixed(n % Pow256(32), 32)
  }

  function RightPad(b: seq<byte>, l: nat): seq<byte> {
    if l <= |b| then b else b + Wrappers.Copies<byte>(0, l - |b|)
  }

  function LeftPad(b: seq<byte>, l: nat): seq<byte> {
    if l <= |b| then b else Wrappers.Copies<byte>(0, l - |b|) + b
  }

  function PackBytesSlice(b: seq<byte>): seq<byte> {
    PackNum(|b|) + RightPad(b, (|b| + 31) / 32 * 32)
  }

  predicate IsElementary(t: Type) {
    !t.SliceTy? && !t.ArrayTy? && !t.TupleTy?
  }

  /** Whether the value's Go kind is the type's kind. */
  predicate SameKind(t: Type, v: Value) {
    match t
    case IntTy(bits) => v.Num? && (IsMachineInt(bits) ==> InIntRange(bits, v.n))
    case UintTy(bits) => v.Num? && (IsMachineInt(bits) ==> 0 <= v.n < Pow2(bits))
    case BoolTy => v.Boolean?
    case FixedBytesTy(width) => v.Data? && |v.bytes| == width
    case SliceTy(_) => v.Items?
    case ArrayTy(_, _) => v.Items?
    case TupleTy(_) => v.Fields?
    case _ => v.Data?
  }

  function PackElement(t: Type, v: Value): seq<byte>
    requires IsElementary(t) && SameKind(t, v)
  {
    match t
    case IntTy(_) => PackNum(v.n)
    case UintTy(_) => PackNum(v.n)
    case BoolTy => PackNum(if v.b then 1 else 0)
    case StringTy => PackBytesSlice(v.bytes)
    case BytesTy => PackBytesSlice(v.bytes)
    case AddressTy => LeftPad(v.bytes, 32)
    case FixedBytesTy(_) => RightPad(v.bytes, 32)
    case FunctionTy => RightPad(v.bytes, 32)
  }

  // ----- type checks -----

  /**
    Checks a slice or array value against its type, looking at first elements only. The first element of an
    empty value is looked up as well when the element type is a fixed array, and that lookup panics.
    */
  function SliceTypeCheck(t: Type, v: Value): Outcome<()>
    requires t.SliceTy? || t.ArrayTy?
    decreases t
  {
    if !v.Items? then Err
    else if t.ArrayTy? && |v.vs| != t.size then Err
    else if t.elem.SliceTy? && |v.vs| > 0 then SliceTypeCheck(t.elem, v.vs[0])
    else if t.elem.ArrayTy? then
      if |v.vs| == 0 then Panic else SliceTypeCheck(t.elem, v.vs[0])
    else if forall i :: 0 <= i < |v.vs| ==> SameKind(t.elem, v.vs[i]) then Ok(())
    else Err
  }

  function TypeCheck(t: Type, v: Value): Outcome<()> {
    if t.SliceTy? || t.ArrayTy? then SliceTypeCheck(t, v)
    else if SameKind(t, v) then Ok(())
    else Err
  }

  // ----- heads and tails -----

  /** A packed component of a tuple, slice or array. */
  datatype Part = Part(dynamic: bool, bytes: seq<byte>)

  /** Static components in place; for a dynamic one, the offset of its tail. */
  function Heads(ps: seq<Part>, offset: nat): seq<byte> {
    if ps == [] then []
    else if ps[0].dynamic then PackNum(offset) + Heads(ps[1..], offset + |ps[0].bytes|)
    else ps[0].bytes + Heads(ps[1..], offset)
  }

  function Tails(ps: seq<Part>): seq<byte> {
    if ps == [] then []
    else (if ps[0].dynamic then ps[0].bytes else []) + Tails(ps[1..])
  }

  function Assemble(ps: seq<Part>, offset: nat): seq<byte> {
    Heads(ps, offset) + Tails(ps)
  }

  /** Packs a value. Offsets count from `GetTypeSize` of the components. */
  function Pack(t: Type, v: Value): Outcome<seq<byte>>
    decreases Depth(t), 0
  {
    match TypeCheck(t, v)
    case Err => Err
    case Panic => Panic
    case Ok(_) =>
      match t
      case SliceTy(elem) =>
        (match PackParts(Repeat(elem, |v.vs|), v.vs)
         case Ok(ps) => Ok(PackNum(|v.vs|) + Assemble(ps, GetTypeSize(elem) * |v.vs|))
         case Err => Err
         case Panic => Panic)
      case ArrayTy(_, elem) =>
        (match PackParts(Repeat(elem, |v.vs|), v.vs)
         case Ok(ps) => Ok(Assemble(ps, GetTypeSize(elem) * |v.vs|))
         case Err => Err
         case Panic => Panic)
      case TupleTy(elems) => PackTuple(elems, v.vs)
      case _ => Ok(PackElement(t, v))
  }

  /** Packs the components one by one, stopping at the first failure. */
  function PackParts(ts: seq<Type>, vs: seq<Value>): (r: Outcome<seq<Part>>)
    ensures r.Ok? ==> |r.value| == |ts| == |vs|
    decreases DepthAll(ts), 1 + |ts|
  {
    if ts == [] then (if vs == [] then Ok([]) else Err)
    else if vs == [] then Err
    else
      match Pack(ts[0], vs[0])
      case Err => Err
      case Panic => Panic
      case Ok(b) =>
        match PackParts(ts[1..], vs[1..])
        case Err => Err
        case Panic => Panic
        case Ok(ps) => Ok([Part(IsDynamic(ts[0]), b)] + ps)
  }

  /** A tuple, or the arguments of a call. A missing struct field is an error, and so is a wrong argument count. */
  function PackTuple(ts: seq<Type>, vs: seq<Value>): Outcome<seq<byte>>
    decreases DepthAll(ts), 2 + |ts|
  {
    if |ts| != |vs| then Err
    else
      match PackParts(ts, vs)
      case Err => Err
      case Panic => Panic
      case Ok(ps) => Ok(Assemble(ps, SumSizes(ts)))
  }
}
