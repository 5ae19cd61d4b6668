/**
  The packing and unpacking loops as the source runs them: `ret` and `tail` grow while an offset advances, and
  `virtualArgs` counts the extra head words of static arrays and tuples. They compute the functions of `Abi` and
  `AbiUnpack`.
  */
module AbiLoops {
  import opened Bytes
  import opened Abi
  import opened AbiUnpack
  import opened AbiWords
  import opened AbiRoundTrip
  import opened AbiLayout

  // ----- packing -----

  lemma {:induction false} AppendPart(ps: seq<Part>, p: Part, offset: nat)
    ensures Heads(ps + [p], offset)
         == Heads(ps, offset) + (if p.dynamic then PackNum(offset + |Tails(ps)|) else p.bytes)
    ensures Tails(ps + [p]) == Tails(ps) + (if p.dynamic then p.bytes else [])
  {
    hide PackNum;
    if ps == [] {
      assert ps + [p] == [p] && [p][1..] == [];
    } else {
      assert (ps + [p])[1..] == ps[1..] + [p];
      var next: nat := if ps[0].dynamic then offset + |ps[0].bytes| else offset;
      AppendPart(ps[1..], p, next);
      var tail := if p.dynamic then p.bytes else [];
      assert offset + |Tails(ps)| == next + |Tails(ps[1..])|;
      Assoc(if ps[0].dynamic then PackNum(offset) else ps[0].bytes, Heads(ps[1..], next),
            if p.dynamic then PackNum(offset + |Tails(ps)|) else p.bytes);
      Assoc(if ps[0].dynamic then ps[0].bytes else [], Tails(ps[1..]), tail);
    }
  }

  /** One more component: it either extends the parts packed so far or decides the outcome. */
  lemma {:induction false} NextPart(ts: seq<Type>, vs: seq<Value>, i: nat)
    requires i < |ts| == |vs| && PackParts(ts[..i], vs[..i]).Ok?
    ensures match Pack(ts[i], vs[i])
            case Ok(b) =>
              PackParts(ts[..i + 1], vs[..i + 1])
              == Ok(PackParts(ts[..i], vs[..i]).value + [Part(IsDynamic(ts[i]), b)])
            case Err => PackParts(ts, vs) == Err
            case Panic => PackParts(ts, vs) == Panic
    decreases i
  {
    hide Pack, IsDynamic;
    if i > 0 {
      assert ts[..i][0] == ts[0] && ts[..i][1..] == ts[1..][..i - 1];
      assert vs[..i][0] == vs[0] && vs[..i][1..] == vs[1..][..i - 1];
      assert ts[..i + 1][1..] == ts[1..][..i] && vs[..i + 1][1..] == vs[1..][..i];
      NextPart(ts[1..], vs[1..], i - 1);
      if Pack(ts[i], vs[i]).Ok? {
        var p := Part(IsDynamic(ts[i]), Pack(ts[i], vs[i]).value);
        var first := Part(IsDynamic(ts[0]), Pack(ts[0], vs[0]).value);
        Assoc([first], PackParts(ts[1..][..i - 1], vs[1..][..i - 1]).value, [p]);
      }
    } else {
      assert ts[..1][0] == ts[0] && ts[..1][1..] == [] && vs[..1][1..] == [];
      assert ts[..0] == [] && vs[..0] == [];
      if Pack(ts[0], vs[0]).Ok? {
        var p := Part(IsDynamic(ts[0]), Pack(ts[0], vs[0]).value);
        assert [p] + [] == [] + [p];
      }
    }
  }

  /** Packs a value. */
  method PackValue(t: Type, v: Value) returns (r: Outcome<seq<byte>>)
    ensures r == Pack(t, v)
    ensures r.Ok? && Solid(t) && WellTyped(t, v) && Straight(t, v) ==> Encodes(t, v, r.value)
    decreases Depth(t), 0
  {
    hide Solid, WellTyped, Straight, Encodes;
    ValueEncoded(t, v);
    var check := TypeCheck(t, v);
    if check.Err? {
      return Err;
    } else if check.Panic? {
      return Panic;
    }
    match t
    case SliceTy(elem) => r := PackElements(elem, v.vs, true);
    case ArrayTy(_, elem) => r := PackElements(elem, v.vs, false);
    case TupleTy(elems) => r := PackArguments(elems, v.vs);
    case _ => r := Ok(PackElement(t, v));
  }

  /** The elements of a slice or array, with a length in front if one is required. */
  method PackElements(elem: Type, vs: seq<Value>, lengthPrefix: bool) returns (r: Outcome<seq<byte>>)
    ensures r == match PackParts(Repeat(elem, |vs|), vs)
                 case Ok(ps) =>
                   var body := Assemble(ps, GetTypeSize(elem) * |vs|);
                   Ok(if lengthPrefix then PackNum(|vs|) + body else body)
                 case Err => Err
                 case Panic => Panic
    decreases Depth(elem), 1 + |vs|
  {
    hide Heads, Tails, PackParts, PackNum, Pack, GetTypeSize, IsDynamic, Repeat, Solid, WellTyped, Straight, Encodes;
    ghost var ts, base := Repeat(elem, |vs|), GetTypeSize(elem) * |vs|;
    var ret: seq<byte> := if lengthPrefix then PackNum(|vs|) else [];
    ghost var prefix := ret;
    var offset := 0;
    var offsetReq := IsDynamic(elem);
    if offsetReq {
      offset := GetTypeSize(elem) * |vs|;
    }
    ghost var start := offset;
    var tail: seq<byte> := [];
    ghost var ps: seq<Part> := [];
    NoParts(ts, vs, start);
    for i := 0 to |vs|
      invariant |ps| == i && PackParts(ts[..i], vs[..i]) == Ok(ps)
      invariant forall k :: 0 <= k < i ==> ps[k].dynamic == offsetReq
      invariant ret == prefix + Heads(ps, start) && tail == Tails(ps)
      invariant offsetReq ==> offset == start + |Tails(ps)|
    {
      NextPart(ts, vs, i);
      var val := PackValue(elem, vs[i]);
      if !val.Ok? {
        return val;
      }
      ghost var p := Part(offsetReq, val.value);
      AppendPart(ps, p, start);
      ghost var head := if offsetReq then PackNum(start + |Tails(ps)|) else val.value;
      Assoc(prefix, Heads(ps, start), head);
      ps := ps + [p];
      if !offsetReq {
        ret := ret + val.value;
        continue;
      }
      ret := ret + PackNum(offset);
      offset := offset + |val.value|;
      tail := tail + val.value;
    }
    assert ts[..|vs|] == ts && vs[..|vs|] == vs;
    if !offsetReq {
      StaticHeads(ps, start, base);
    }
    Assoc(prefix, Heads(ps, base), Tails(ps));
    assert !lengthPrefix ==> prefix + Heads(ps, base) == Heads(ps, base);
    return Ok(ret + tail);
  }

  lemma NoParts(ts: seq<Type>, vs: seq<Value>, offset: nat)
    ensures PackParts(ts[..0], vs[..0]) == Ok([])
    ensures Heads([], offset) == [] && Tails([]) == []
  {
  }

  /** The fields of a tuple, and likewise the arguments of a call. */
  method PackArguments(ts: seq<Type>, vs: seq<Value>) returns (r: Outcome<seq<byte>>)
    ensures r == PackTuple(ts, vs)
    ensures r.Ok? && AllSolid(ts) && AllWellTyped(ts, vs) && StraightRow(ts, vs) ==> EncodesRow(ts, vs, r.value)
    decreases DepthAll(ts), 2 + |ts|
  {
    hide Heads, Tails, PackParts, PackNum, Pack, GetTypeSize, IsDynamic, AllSolid, AllWellTyped, StraightRow, EncodesRow,
      Solid, WellTyped, Straight, Encodes;
    RowEncoded(ts, vs);
    if |vs| != |ts| {
      return Err;
    }
    var inputOffset := 0;
    for i := 0 to |ts|
      invariant inputOffset + SumSizes(ts[i..]) == SumSizes(ts)
    {
      assert ts[i..][1..] == ts[i + 1..];
      inputOffset := inputOffset + GetTypeSize(ts[i]);
    }
    ghost var start := inputOffset;
    var ret: seq<byte>, variableInput: seq<byte> := [], [];
    ghost var ps: seq<Part> := [];
    NoParts(ts, vs, start);
    for i := 0 to |vs|
      invariant |ps| == i && PackParts(ts[..i], vs[..i]) == Ok(ps)
      invariant ret == Heads(ps, start) && variableInput == Tails(ps)
      invariant inputOffset == start + |Tails(ps)|
    {
      NextPart(ts, vs, i);
      DepthAt(ts, i);
      var packed := PackValue(ts[i], vs[i]);
      if !packed.Ok? {
        return packed;
      }
      AppendPart(ps, Part(IsDynamic(ts[i]), packed.value), start);
      ps := ps + [Part(IsDynamic(ts[i]), packed.value)];
      if IsDynamic(ts[i]) {
        ret := ret + PackNum(inputOffset);
        inputOffset := inputOffset + |packed.value|;
        variableInput := variableInput + packed.value;
      } else {
        ret := ret + packed.value;
      }
    }
    assert ts[..|ts|] == ts && vs[..|vs|] == vs;
    return Ok(ret + variableInput);
  }

  // ----- unpacking -----

  /** Every head size is a whole number of words. */
  lemma {:induction false} SizeInWords(t: Type)
    ensures GetTypeSize(t) % 32 == 0
    decreases t, 1
  {
    match t
    case ArrayTy(size, elem) =>
      SizeInWords(elem);
      WholeWords(size, GetTypeSize(elem));
      WholeWords(size, 32);
    case TupleTy(elems) => SizesInWords(elems);
    case _ =>
  }

  lemma {:induction false} SizesInWords(ts: seq<Type>)
    ensures SumSizes(ts) % 32 == 0
    decreases ts, 0
  {
    hide GetTypeSize;
    if ts != [] {
      SizeInWords(ts[0]);
      SizesInWords(ts[1..]);
      WholeSum(GetTypeSize(ts[0]), SumSizes(ts[1..]));
    }
  }

  /** One more value: it either extends the values read so far or decides the outcome. */
  lemma {:induction false} NextValue(ts: seq<Type>, pos: nat, output: seq<byte>, i: nat)
    requires i < |ts| && UnpackFrom(ts[..i], pos, output).Ok?
    ensures match ToGoType(pos + SumSizes(ts[..i]), ts[i], output)
            case Ok(v) => UnpackFrom(ts[..i + 1], pos, output) == Ok(UnpackFrom(ts[..i], pos, output).value + [v])
            case Err => UnpackFrom(ts, pos, output) == Err
            case Panic => UnpackFrom(ts, pos, output) == Panic
    ensures SumSizes(ts[..i + 1]) == SumSizes(ts[..i]) + GetTypeSize(ts[i])
    decreases i
  {
    hide ToGoType, GetTypeSize;
    if i > 0 {
      assert ts[..i][0] == ts[0] && ts[..i][1..] == ts[1..][..i - 1];
      assert ts[..i + 1][0] == ts[0] && ts[..i + 1][1..] == ts[1..][..i];
      NextValue(ts[1..], pos + GetTypeSize(ts[0]), output, i - 1);
      var r := ToGoType(pos + SumSizes(ts[..i]), ts[i], output);
      if r.Ok? {
        var first := ToGoType(pos, ts[0], output).value;
        Assoc([first], UnpackFrom(ts[1..][..i - 1], pos + GetTypeSize(ts[0]), output).value, [r.value]);
      }
    } else {
      assert ts[..1][0] == ts[0] && ts[..1][1..] == [] && ts[..0] == [];
      var r := ToGoType(pos, ts[0], output);
      if r.Ok? {
        assert [r.value] + [] == [] + [r.value];
      }
    }
  }

  /** Reads one value. */
  method UnpackValue(index: nat, t: Type, output: seq<byte>) returns (r: Outcome<Value>)
    ensures r == ToGoType(index, t, output)
    decreases Depth(t), 0
  {
    if index + 32 > |output| {
      return Err;
    }
    match t
    case TupleTy(elems) =>
      if IsDynamic(t) {
        var begin := TuplePointsTo(index, output);
        if !begin.Ok? {
          return Err;
        }
        var vs := UnpackArguments(elems, output[begin.value..]);
        return if vs.Ok? then Ok(Fields(vs.value)) else if vs.Err? then Err else Panic;
      } else {
        var vs := UnpackArguments(elems, output[index..]);
        return if vs.Ok? then Ok(Fields(vs.value)) else if vs.Err? then Err else Panic;
      }
    case SliceTy(elem) =>
      var span := LengthPrefixPointsTo(index, output);
      if !span.Ok? {
        return Err;
      }
      r := UnpackElements(elem, output[span.value.start..], span.value.length);
    case ArrayTy(size, elem) =>
      if IsDynamic(elem) {
        var begin := ArrayPointsTo(index, output);
        if !begin.Ok? {
          return Panic;
        }
        r := UnpackElements(elem, output[begin.value..], size);
      } else {
        r := UnpackElements(elem, output[index..], size);
      }
    case _ => r := ToGoType(index, t, output);
  }

  /** The elements of a slice or array. */
  method UnpackElements(elem: Type, output: seq<byte>, size: nat) returns (r: Outcome<Value>)
    ensures r == ForEachUnpack(elem, output, size)
    decreases Depth(elem), 1 + size
  {
    hide UnpackFrom, ToGoType, GetTypeSize, SumSizes, Repeat;
    if 32 * size > |output| {
      return Err;
    }
    ghost var ts := Repeat(elem, size);
    var vs: seq<Value> := [];
    var elemSize := GetTypeSize(elem);
    var i := 0;
    NoValues(ts, 0, output);
    for j := 0 to size
      invariant i == SumSizes(ts[..j])
      invariant UnpackFrom(ts[..j], 0, output) == Ok(vs)
    {
      NextValue(ts, 0, output, j);
      var inter := UnpackValue(i, elem, output);
      if !inter.Ok? {
        return inter;
      }
      vs := vs + [inter.value];
      i := i + elemSize;
    }
    assert ts[..size] == ts;
    return Ok(Items(vs));
  }

  lemma NoValues(ts: seq<Type>, pos: nat, output: seq<byte>)
    ensures UnpackFrom(ts[..0], pos, output) == Ok([]) && SumSizes(ts[..0]) == 0
  {
  }

  /** The fields of a tuple, and likewise the values of a call, found by counting head words. */
  method UnpackArguments(ts: seq<Type>, data: seq<byte>) returns (r: Outcome<seq<Value>>)
    ensures r == UnpackValues(ts, data)
    decreases DepthAll(ts), 2 + |ts|
  {
    hide UnpackFrom, ToGoType, SumSizes, GetTypeSize, IsDynamic;
    var vs: seq<Value> := [];
    var virtualArgs := 0;
    NoValues(ts, 0, data);
    for index := 0 to |ts|
      invariant (index + virtualArgs) * 32 == SumSizes(ts[..index])
      invariant UnpackFrom(ts[..index], 0, data) == Ok(vs)
    {
      NextValue(ts, 0, data, index);
      DepthAt(ts, index);
      SizeInWords(ts[index]);
      OneWord(ts[index]);
      var v := UnpackValue((index + virtualArgs) * 32, ts[index], data);
      if ts[index].ArrayTy? && !IsDynamic(ts[index]) {
        virtualArgs := virtualArgs + GetTypeSize(ts[index]) / 32 - 1;
      } else if ts[index].TupleTy? && !IsDynamic(ts[index]) {
        virtualArgs := virtualArgs + GetTypeSize(ts[index]) / 32 - 1;
      }
      if !v.Ok? {
        return if v.Err? then Err else Panic;
      }
      vs := vs + [v.value];
    }
    assert ts[..|ts|] == ts;
    return Ok(vs);
  }

  lemma OneWord(t: Type)
    ensures !((t.ArrayTy? || t.TupleTy?) && !IsDynamic(t)) ==> GetTypeSize(t) == 32
  {
  }
}
