/** Unpacking of ABI-encoded data: positions and offsets are computed from the types and the data alone. */
module AbiUnpack {
  import opened Bytes
  import opened Abi

  // ----- elementary values -----

  /** The value of the low `bytes` bytes of a word, as a two's complement number if `signed`. */
  function LowInteger(word: seq<byte>, bytes: nat, signed: bool): int
    requires |word| == 32 && 1 <= bytes <= 32
  {
    var n := Number(word[32 - bytes..]);
    if signed && n >= Pow256(bytes) / 2 then n - Pow256(bytes) else n
  }

  /** Machine integers take the low bytes of the word; big integers take all of it. */
  function ReadInteger(bits: nat, signed: bool, word: seq<byte>): int
    requires |word| == 32
  {
    LowInteger(word, if IsMachineInt(bits) then bits / 8 else 32, signed)
  }

  function ReadBool(word: seq<byte>): Outcome<Value>
    requires |word| == 32
  {
    if exists i :: 0 <= i < 31 && word[i] != 0 then Err
    else if word[31] == 0 then Ok(Boolean(false))
    else if word[31] == 1 then Ok(Boolean(true))
    else Err
  }

  function ReadFunctionType(word: seq<byte>): Outcome<Value>
    requires |word| == 32
  {
    if Number(word[24..]) != 0 then Err else Ok(Data(word[..24]))
  }

  /** `width` bytes from the head on. A width beyond a word reads on into what follows, if there is enough. */
  function ReadFixedBytes(width: nat, index: nat, output: seq<byte>): Outcome<Value> {
    if index + width > |output| then Panic else Ok(Data(output[index..index + width]))
  }

  // ----- following offsets -----

  datatype Span = Span(start: nat, length: nat)

  /** Follows the offset at `index` to a length word, and gives the start and length of what follows it. */
  function LengthPrefixPointsTo(index: nat, output: seq<byte>): (r: Outcome<Span>)
    requires index + 32 <= |output|
    ensures !r.Panic?
    ensures r.Ok? ==> r.value.start + r.value.length <= |output|
    ensures r.Ok? <==> var offset := Number(output[index..index + 32]);
                       offset + 32 <= |output|
                       && offset + 32 + Number(output[offset..offset + 32]) <= |output|
                       && offset + 32 + Number(output[offset..offset + 32]) < INT64_LIMIT
    ensures r.Ok? ==> r.value.start == Number(output[index..index + 32]) + 32
                      && r.value.length == Number(output[r.value.start - 32..r.value.start])
  {
    var offsetEnd := Number(output[index..index + 32]) + 32;
    if offsetEnd > |output| then Err
    else if offsetEnd >= INT64_LIMIT then Err
    else
      var length := Number(output[offsetEnd - 32..offsetEnd]);
      if offsetEnd + length >= INT64_LIMIT then Err
      else if offsetEnd + length > |output| then Err
      else Ok(Span(offsetEnd, length))
  }

  /** Follows the offset of a dynamic tuple. */
  function TuplePointsTo(index: nat, output: seq<byte>): (r: Outcome<nat>)
    requires index + 32 <= |output|
    ensures !r.Panic?
    ensures r.Ok? ==> r.value <= |output| && r.value == Number(output[index..index + 32])
    ensures r.Ok? <==> Number(output[index..index + 32]) <= |output| && Number(output[index..index + 32]) < INT64_LIMIT
  {
    var offset := Number(output[index..index + 32]);
    if offset > |output| then Err
    else if offset >= INT64_LIMIT then Err
    else Ok(offset)
  }

  /** Follows the offset of an array of dynamic elements: its low 64 bits, signed, and nothing is checked. */
  function ArrayPointsTo(index: nat, output: seq<byte>): (r: Outcome<nat>)
    requires index + 32 <= |output|
    ensures !r.Err?
    ensures r.Panic? <==> var offset := Number(output[index + 24..index + 32]); offset >= INT64_LIMIT || offset > |output|
    ensures r.Ok? ==> r.value == Number(output[index + 24..index + 32])
  {
    var offset := Number(output[index + 24..index + 32]);
    if offset >= INT64_LIMIT || offset > |output| then Panic else Ok(offset)
  }

  // ----- values -----

  /** The value of type t whose head is at `index`. */
  function ToGoType(index: nat, t: Type, output: seq<byte>): Outcome<Value>
    decreases Depth(t), 0
  {
    if index + 32 > |output| then Err
    else
      var word := output[index..index + 32];
      match t
      case TupleTy(elems) =>
        if IsDynamic(t) then
          match TuplePointsTo(index, output)
          case Ok(begin) => ForTupleUnpack(elems, output[begin..])
          case _ => Err
        else ForTupleUnpack(elems, output[index..])
      case SliceTy(elem) =>
        (match LengthPrefixPointsTo(index, output)
         case Ok(span) => ForEachUnpack(elem, output[span.start..], span.length)
         case _ => Err)
      case ArrayTy(size, elem) =>
        if IsDynamic(elem) then
          match ArrayPointsTo(index, output)
          case Ok(begin) => ForEachUnpack(elem, output[begin..], size)
          case _ => Panic
        else ForEachUnpack(elem, output[index..], size)
      case IntTy(bits) => Ok(Num(ReadInteger(bits, true, word)))
      case UintTy(bits) => Ok(Num(ReadInteger(bits, false, word)))
      case BoolTy => ReadBool(word)
      case AddressTy => Ok(Data(word[12..]))
      case FixedBytesTy(width) => ReadFixedBytes(width, index, output)
      case FunctionTy => ReadFunctionType(word)
      case _ =>
        match LengthPrefixPointsTo(index, output)
        case Ok(span) => Ok(Data(output[span.start..span.start + span.length]))
        case _ => Err
  }

  /** The elements of a slice or array, one element size apart. */
  function ForEachUnpack(elem: Type, output: seq<byte>, size: nat): Outcome<Value>
    decreases Depth(elem), 3 + size
  {
    if 32 * size > |output| then Err
    else
      match UnpackFrom(Repeat(elem, size), 0, output)
      case Ok(vs) => Ok(Items(vs))
      case Err => Err
      case Panic => Panic
  }

  function ForTupleUnpack(elems: seq<Type>, output: seq<byte>): Outcome<Value>
    decreases DepthAll(elems), 2 + |elems|
  {
    match UnpackFrom(elems, 0, output)
    case Ok(vs) => Ok(Fields(vs))
    case Err => Err
    case Panic => Panic
  }

  /** The values whose heads lie one behind the other from `index` on. */
  function UnpackFrom(ts: seq<Type>, index: nat, output: seq<byte>): (r: Outcome<seq<Value>>)
    ensures r.Ok? ==> |r.value| == |ts|
    decreases DepthAll(ts), 1 + |ts|
  {
    if ts == [] then Ok([])
    else
      match ToGoType(index, ts[0], output)
      case Err => Err
      case Panic => Panic
      case Ok(v) =>
        match UnpackFrom(ts[1..], index + GetTypeSize(ts[0]), output)
        case Err => Err
        case Panic => Panic
        case Ok(vs) => Ok([v] + vs)
  }

  /** The arguments of a call or the values of a return. */
  function UnpackValues(ts: seq<Type>, data: seq<byte>): Outcome<seq<Value>> {
    UnpackFrom(ts, 0, data)
  }
}
