/**
  Which types can make the decoder panic. A fixed array of dynamic elements follows the low 64 bits of its offset
  without any check, so data that was received rather than packed can send it outside. Without such an array no data
  does. With one, some data does, wherever in the list the array is, unless an understated array in front of it reaches
  over heads and has booleans or functions in it, which do not accept every word.
  */
module AbiPanic {
  import opened Bytes
  import opened Abi
  import opened AbiUnpack
  import opened AbiWords
  import opened AbiRoundTrip
  import opened AbiExact
  import Wrappers

  // ----- types that never panic -----

  /** No fixed array of dynamic elements anywhere inside, and fixed bytes within a word. */
  predicate Calm(t: Type)
    decreases t, 1
  {
    match t
    case FixedBytesTy(width) => width <= 32
    case SliceTy(elem) => Calm(elem)
    case ArrayTy(_, elem) => !IsDynamic(elem) && Calm(elem)
    case TupleTy(elems) => AllCalm(elems)
    case _ => true
  }

  predicate AllCalm(ts: seq<Type>)
    decreases ts, 0
  {
    ts == [] || (Calm(ts[0]) && AllCalm(ts[1..]))
  }

  lemma {:induction false} RepeatCalm(t: Type, n: nat)
    requires Calm(t)
    ensures AllCalm(Repeat(t, n))
  {
    if n > 0 {
      RepeatCalm(t, n - 1);
      assert Repeat(t, n)[1..] == Repeat(t, n - 1);
    }
  }

  lemma {:induction false} CalmReads(t: Type, index: nat, output: seq<byte>)
    requires Calm(t)
    ensures !ToGoType(index, t, output).Panic?
    decreases Depth(t), 0
  {
    hide Number;
    if index + 32 <= |output| {
      match t
      case TupleTy(elems) =>
        if IsDynamic(t) {
          if TuplePointsTo(index, output).Ok? {
            CalmUnpacks(elems, 0, output[TuplePointsTo(index, output).value..]);
          }
        } else {
          CalmUnpacks(elems, 0, output[index..]);
        }
      case SliceTy(elem) =>
        if LengthPrefixPointsTo(index, output).Ok? {
          var span := LengthPrefixPointsTo(index, output).value;
          CalmElements(elem, output[span.start..], span.length);
        }
      case ArrayTy(size, elem) => CalmElements(elem, output[index..], size);
      case _ =>
    }
  }

  lemma CalmElements(elem: Type, output: seq<byte>, size: nat)
    requires Calm(elem)
    ensures !ForEachUnpack(elem, output, size).Panic?
    decreases Depth(elem), 3 + size
  {
    RepeatCalm(elem, size);
    CalmUnpacks(Repeat(elem, size), 0, output);
  }

  lemma {:induction false} CalmUnpacks(ts: seq<Type>, index: nat, output: seq<byte>)
    requires AllCalm(ts)
    ensures !UnpackFrom(ts, index, output).Panic?
    decreases DepthAll(ts), 1 + |ts|
  {
    hide ToGoType, Calm;
    if ts != [] {
      CalmReads(ts[0], index, output);
      CalmUnpacks(ts[1..], index + GetTypeSize(ts[0]), output);
    }
  }

  // ----- data that panics -----

  /** Only a dynamic type can panic. */
  lemma {:induction false} StaticCalm(t: Type)
    requires Solid(t) && !IsDynamic(t)
    ensures Calm(t)
    decreases t, 1
  {
    match t
    case ArrayTy(_, elem) => StaticCalm(elem);
    case TupleTy(elems) => StaticAllCalm(elems);
    case _ =>
  }

  lemma {:induction false} StaticAllCalm(ts: seq<Type>)
    requires AllSolid(ts) && !AnyDynamic(ts)
    ensures AllCalm(ts)
    decreases ts, 0
  {
    if ts != [] {
      StaticCalm(ts[0]);
      StaticAllCalm(ts[1..]);
    }
  }

  const FULL_WORD: seq<byte> := Wrappers.Copies<byte>(255, 32)

  // ----- what reads without an error -----

  lemma ZeroIsNumber(b: seq<byte>)
    requires Wrappers.Only(b, 0)
    ensures Number(b) == 0
  {
    assert b == Wrappers.Copies<byte>(0, |b|);
    NumberOfZeros(|b|);
  }

  /** A static type that accepts any words: no boolean and no function in it. */
  predicate Tolerant(t: Type)
    decreases t, 1
  {
    match t
    case BoolTy => false
    case FunctionTy => false
    case ArrayTy(_, elem) => Tolerant(elem)
    case TupleTy(elems) => AllTolerant(elems)
    case _ => true
  }

  predicate AllTolerant(ts: seq<Type>)
    decreases ts, 0
  {
    ts == [] || (Tolerant(ts[0]) && AllTolerant(ts[1..]))
  }

  lemma {:induction false} RepeatTolerant(t: Type, n: nat)
    requires Tolerant(t)
    ensures AllTolerant(Repeat(t, n))
  {
    if n > 0 {
      RepeatTolerant(t, n - 1);
      assert Repeat(t, n)[1..] == Repeat(t, n - 1);
    }
  }

  /** A static type reads from zero bytes, and a tolerant one from any, if there are enough. */
  lemma {:induction false} StaticReads(t: Type, pos: nat, out: seq<byte>)
    requires Solid(t) && !IsDynamic(t) && pos + TrueSize(t) <= |out|
    requires Tolerant(t) || Wrappers.Only(out[pos..pos + TrueSize(t)], 0)
    ensures ToGoType(pos, t, out).Ok?
    decreases Depth(t), 0
  {
    hide Number;
    SolidSize(t);
    match t
    case ArrayTy(size, elem) =>
      RepeatSizes(elem, size);
      if Tolerant(elem) {
        RepeatTolerant(elem, size);
      } else {
        assert out[pos..][0..0 + TrueSize(t)] == out[pos..pos + TrueSize(t)];
      }
      SolidSize(elem);
      WordMultiple(size, TrueSize(elem));
      StaticRowReads(Repeat(elem, size), 0, out[pos..]);
    case TupleTy(elems) =>
      if !AllTolerant(elems) {
        assert out[pos..][0..0 + TrueSize(t)] == out[pos..pos + TrueSize(t)];
      }
      StaticRowReads(elems, 0, out[pos..]);
    case FunctionTy =>
      Wrappers.OnlySlice(out[pos..pos + 32], 0, 24, 32);
      ZeroIsNumber(out[pos..pos + 32][24..]);
    case _ =>
  }

  lemma {:induction false} StaticRowReads(ts: seq<Type>, pos: nat, out: seq<byte>)
    requires AllSolid(ts) && !AnyDynamic(ts) && pos + TrueSizes(ts) <= |out|
    requires AllTolerant(ts) || Wrappers.Only(out[pos..pos + TrueSizes(ts)], 0)
    ensures UnpackFrom(ts, pos, out).Ok?
    decreases DepthAll(ts), 1 + |ts|
  {
    hide ToGoType, TrueSize, GetTypeSize, Solid, IsDynamic, Tolerant;
    if ts != [] {
      SolidSize(ts[0]);
      var zeros, g := out[pos..pos + TrueSizes(ts)], GetTypeSize(ts[0]);
      if !AllTolerant(ts) {
        Wrappers.OnlySlice(zeros, 0, 0, TrueSize(ts[0]));
        Wrappers.SubSlice(out, pos, zeros, 0, TrueSize(ts[0]));
        Wrappers.OnlySlice(zeros, 0, g, g + TrueSizes(ts[1..]));
        Wrappers.SubSlice(out, pos, zeros, g, g + TrueSizes(ts[1..]));
      }
      StaticReads(ts[0], pos, out);
      StaticRowReads(ts[1..], pos + g, out);
    }
  }

  /** How many zero bytes a calm type needs to read from: its head, and what it may lead to. */
  function Reach(t: Type): nat
    decreases t, 1
  {
    if IsDynamic(t) && t.TupleTy? then ReachAll(t.elems) else TrueSize(t)
  }

  function ReachAll(ts: seq<Type>): nat
    decreases ts, 0
  {
    if ts == [] then 0 else Reach(ts[0]) + ReachAll(ts[1..])
  }

  lemma {:induction false} ReachRoom(t: Type)
    requires Solid(t)
    ensures GetTypeSize(t) <= Reach(t) && TrueSize(t) <= Reach(t) && Reach(t) >= 32
    decreases t, 1
  {
    SolidSize(t);
    if IsDynamic(t) && t.TupleTy? {
      ReachRoom(t.elems[0]);
    }
  }

  /** A zero head leads to the start, and a calm type reads from zeros there. */
  lemma {:induction false} ZeroReads(t: Type, pos: nat, out: seq<byte>, n: nat)
    requires Solid(t) && Calm(t) && pos + Reach(t) <= n <= |out| < INT64_LIMIT && Wrappers.Only(out[..n], 0)
    ensures ToGoType(pos, t, out).Ok?
    decreases Depth(t), 1
  {
    hide Number, PackNum;
    ReachRoom(t);
    if IsDynamic(t) {
      ZeroAtHead(out, pos, n);
      DynamicReads(t, pos, out, 0, n);
    } else {
      assert out[pos..pos + TrueSize(t)] == out[..n][pos..pos + TrueSize(t)];
      Wrappers.OnlySlice(out[..n], 0, pos, pos + TrueSize(t));
      StaticReads(t, pos, out);
    }
  }

  lemma ZeroAtHead(out: seq<byte>, pos: nat, n: nat)
    requires pos + 32 <= n <= |out| && Wrappers.Only(out[..n], 0)
    ensures out[pos..pos + 32] == PackNum(0) && out[0..0 + n] == out[..n]
  {
    hide PackNum;
    assert out[pos..pos + 32] == out[..n][pos..pos + 32];
    Wrappers.OnlySlice(out[..n], 0, pos, pos + 32);
    ZeroWord(out[pos..pos + 32]);
  }

  /** A calm dynamic type whose head leads to enough zero bytes. */
  lemma {:induction false} DynamicReads(t: Type, pos: nat, out: seq<byte>, z: nat, n: nat)
    requires Solid(t) && Calm(t) && IsDynamic(t) && pos + 32 <= |out| < INT64_LIMIT && out[pos..pos + 32] == PackNum(z)
    requires z + n <= |out| && Wrappers.Only(out[z..z + n], 0) && Reach(t) <= n
    ensures ToGoType(pos, t, out).Ok?
    decreases Depth(t), 0
  {
    hide Number, PackNum, UnpackFrom;
    ReachRoom(t);
    PackNumWhole(z);
    if t.TupleTy? {
      var inner := out[z..];
      assert inner[..n] == out[z..z + n];
      ZeroRowReads(t.elems, 0, inner, n);
    } else {
      Wrappers.OnlySlice(out[z..z + n], 0, 0, 32);
      assert out[z..z + n][0..32] == out[z..z + 32];
      ZeroIsNumber(out[z..z + 32]);
      assert LengthPrefixPointsTo(pos, out) == Ok(Span(z + 32, 0));
      NothingToUnpack(t, out[z + 32..]);
    }
  }

  lemma NothingToUnpack(t: Type, out: seq<byte>)
    ensures t.SliceTy? ==> UnpackFrom(Repeat(t.elem, 0), 0, out) == Ok([])
  {
  }

  lemma {:induction false} ZeroRowReads(ts: seq<Type>, pos: nat, out: seq<byte>, n: nat)
    requires AllSolid(ts) && AllCalm(ts) && pos + ReachAll(ts) <= n <= |out| < INT64_LIMIT && Wrappers.Only(out[..n], 0)
    ensures UnpackFrom(ts, pos, out).Ok?
    decreases DepthAll(ts), 1 + |ts|
  {
    hide ToGoType, Solid, Calm, Reach, GetTypeSize;
    if ts != [] {
      ReachRoom(ts[0]);
      ZeroReads(ts[0], pos, out, n);
      ZeroRowReads(ts[1..], pos + GetTypeSize(ts[0]), out, n);
    }
  }

  // ----- data that panics -----

  /** How many bytes from the start of a row belong to static components. */
  function StaticRun(ts: seq<Type>): nat {
    if ts == [] || IsDynamic(ts[0]) then 0 else GetTypeSize(ts[0]) + StaticRun(ts[1..])
  }

  /** The first array of dynamic elements inside the type can be given any offset. */
  predicate Exposed(t: Type)
    decreases t, 1
  {
    match t
    case SliceTy(elem) => Calm(elem) || Exposed(elem)
    case TupleTy(elems) => AllCalm(elems) || ExposedList(elems)
    case _ => true
  }

  /** No static component in front of it, unless it is tolerant, reaches over the head of a dynamic one. */
  predicate ExposedList(ts: seq<Type>)
    decreases ts, 0
  {
    ts == [] ||
    (if Calm(ts[0]) then
       (IsDynamic(ts[0]) || TrueSize(ts[0]) <= StaticRun(ts) || Tolerant(ts[0])) && ExposedList(ts[1..])
     else Exposed(ts[0]))
  }

  function FirstWild(ts: seq<Type>): (k: nat)
    ensures k <= |ts|
    ensures k < |ts| ==> !Calm(ts[k])
  {
    if ts == [] || !Calm(ts[0]) then 0 else 1 + FirstWild(ts[1..])
  }

  /** The heads up to the first component that is not calm: zeros, offsets to z, and the word w for that component. */
  function HeadRow(ts: seq<Type>, z: nat, w: seq<byte>): seq<byte> {
    if ts == [] then []
    else if !Calm(ts[0]) then w
    else (if IsDynamic(ts[0]) then PackNum(z) else Wrappers.Copies<byte>(0, GetTypeSize(ts[0]))) + HeadRow(ts[1..], z, w)
  }

  function HeadRoom(ts: seq<Type>): nat {
    if ts == [] then 0 else if !Calm(ts[0]) then 32 else GetTypeSize(ts[0]) + HeadRoom(ts[1..])
  }

  /** What the components in front of it need to read from zeros. */
  function Before(ts: seq<Type>): nat {
    if ts == [] || !Calm(ts[0]) then 0 else Reach(ts[0]) + Before(ts[1..])
  }

  function WildWord(t: Type, b: nat): (w: seq<byte>)
    ensures |w| == 32
  {
    if t.ArrayTy? then FULL_WORD else PackNum(b)
  }

  /** What the head of a component that is not calm leads to. */
  function Wild(t: Type): seq<byte>
    decreases Depth(t), 0
  {
    match t
    case SliceTy(elem) => PackNum(1) + WildRow(Repeat(elem, 1))
    case TupleTy(elems) => WildRow(elems)
    case _ => []
  }

  /** Data for a row that panics: heads, zeros for the components in front, and what the one that is not calm needs. */
  function WildRow(ts: seq<Type>): seq<byte>
    decreases DepthAll(ts), 1 + |ts|
  {
    var k := FirstWild(ts);
    if k == |ts| then []
    else
      DepthAt(ts, k);
      HeadRow(ts, HeadRoom(ts), WildWord(ts[k], HeadRoom(ts) + Before(ts)))
      + (Wrappers.Copies<byte>(0, Before(ts)) + Wild(ts[k]))
  }

  lemma {:induction false} HeadRowRoom(ts: seq<Type>, z: nat, w: seq<byte>)
    requires AllSolid(ts) && |w| == 32
    ensures |HeadRow(ts, z, w)| == HeadRoom(ts)
  {
    hide PackNum, Solid, GetTypeSize, Calm, IsDynamic;
    if ts != [] && Calm(ts[0]) {
      SolidSize(ts[0]);
      HeadRowRoom(ts[1..], z, w);
    }
  }

  /** The heads start with the zeros of the static components. */
  lemma {:induction false} RunIsZero(ts: seq<Type>, z: nat, w: seq<byte>)
    requires AllSolid(ts)
    ensures StaticRun(ts) <= |HeadRow(ts, z, w)| || AllCalm(ts)
    ensures StaticRun(ts) <= |HeadRow(ts, z, w)| ==> Wrappers.Only(HeadRow(ts, z, w)[..StaticRun(ts)], 0)
  {
    hide PackNum, Solid, GetTypeSize, Calm, IsDynamic;
    if ts != [] && !IsDynamic(ts[0]) {
      StaticCalm(ts[0]);
      RunIsZero(ts[1..], z, w);
      var zeros, rest := Wrappers.Copies<byte>(0, GetTypeSize(ts[0])), HeadRow(ts[1..], z, w);
      if StaticRun(ts[1..]) <= |rest| {
        assert (zeros + rest)[..StaticRun(ts)] == zeros + rest[..StaticRun(ts[1..])];
      }
    }
  }

  lemma {:induction false} NumberOfFull(k: nat)
    ensures Number(Wrappers.Copies<byte>(255, k)) == Pow256(k) - 1
  {
    if k > 0 {
      NumberOfFull(k - 1);
      assert Wrappers.Copies<byte>(255, k)[..k - 1] == Wrappers.Copies<byte>(255, k - 1);
    }
  }

  /** An array of dynamic elements with a full word for its offset panics. */
  lemma FullOffset(t: Type, pos: nat, out: seq<byte>)
    requires t.ArrayTy? && IsDynamic(t.elem)
    requires pos + 32 <= |out| && out[pos..pos + 32] == FULL_WORD
    ensures ToGoType(pos, t, out).Panic?
  {
    hide Number, Pow256;
    assert out[pos + 24..pos + 32] == out[pos..pos + 32][24..] == Wrappers.Copies<byte>(255, 8);
    NumberOfFull(8);
    Pow256Of8();
  }

  lemma RunZero(out: seq<byte>, pos: nat, head: seq<byte>, run: nat, n: nat)
    requires pos + |head| <= |out| && out[pos..pos + |head|] == head
    requires n <= run <= |head| && Wrappers.Only(head[..run], 0)
    ensures Wrappers.Only(out[pos..pos + n], 0)
  {
    Wrappers.SubSlice(out, pos, head, 0, n);
    assert head[..run][0..n] == head[0..n];
    Wrappers.OnlySlice(head[..run], 0, 0, n);
  }

  /** A calm component in front is read without an error. */
  lemma CalmFirst(ts: seq<Type>, pos: nat, out: seq<byte>, z: nat, n: nat, w: seq<byte>)
    requires AllSolid(ts) && !AllCalm(ts) && ExposedList(ts) && Calm(ts[0]) && |w| == 32 && |out| < INT64_LIMIT
    requires z == pos + HeadRoom(ts) && z + n <= |out| && Before(ts) <= n
    requires out[pos..z] == HeadRow(ts, z, w) && Wrappers.Only(out[z..z + n], 0)
    ensures ToGoType(pos, ts[0], out).Ok?
  {
    hide PackNum, Solid, GetTypeSize, Calm, IsDynamic, ToGoType, Exposed, Tolerant, Reach, TrueSize, StaticRun;
    HeadRowRoom(ts, z, w);
    SolidSize(ts[0]);
    ReachRoom(ts[0]);
    if IsDynamic(ts[0]) {
      Wrappers.SliceParts(out, pos, PackNum(z), HeadRow(ts[1..], z, w));
      DynamicReads(ts[0], pos, out, z, n);
    } else {
      if !Tolerant(ts[0]) {
        RunIsZero(ts, z, w);
        RunZero(out, pos, HeadRow(ts, z, w), StaticRun(ts), TrueSize(ts[0]));
      }
      StaticReads(ts[0], pos, out);
    }
  }

  /** A row whose heads are built that way panics when the component that is not calm does. */
  lemma {:induction false} RowStep(ts: seq<Type>, pos: nat, out: seq<byte>, z: nat, n: nat, w: seq<byte>)
    requires AllSolid(ts) && !AllCalm(ts) && ExposedList(ts) && |w| == 32 && |out| < INT64_LIMIT
    requires z == pos + HeadRoom(ts) && z + n <= |out| && Before(ts) <= n
    requires out[pos..z] == HeadRow(ts, z, w) && Wrappers.Only(out[z..z + n], 0)
    requires FirstWild(ts) < |ts| && z >= 32 && ToGoType(z - 32, ts[FirstWild(ts)], out).Panic?
    ensures UnpackFrom(ts, pos, out).Panic?
    decreases ts
  {
    hide PackNum, Solid, GetTypeSize, Calm, IsDynamic, ToGoType, Exposed, Tolerant, Reach, TrueSize, StaticRun;
    if Calm(ts[0]) {
      CalmFirst(ts, pos, out, z, n, w);
      SolidSize(ts[0]);
      var g := GetTypeSize(ts[0]);
      assert HeadRow(ts, z, w)[g..] == HeadRow(ts[1..], z, w);
      assert out[pos..z][g..] == out[pos + g..z];
      RowStep(ts[1..], pos + g, out, z, n, w);
    }
  }

  lemma {:induction false} HeadRowEnds(ts: seq<Type>, z: nat, w: seq<byte>)
    requires AllSolid(ts) && !AllCalm(ts) && |w| == 32
    ensures |HeadRow(ts, z, w)| == HeadRoom(ts) >= 32 && HeadRow(ts, z, w)[HeadRoom(ts) - 32..] == w
    ensures FirstWild(ts) < |ts| && Solid(ts[FirstWild(ts)])
    ensures ExposedList(ts) ==> Exposed(ts[FirstWild(ts)])
  {
    hide PackNum, Solid, GetTypeSize, Calm, IsDynamic, Exposed, Tolerant, TrueSize, StaticRun;
    HeadRowRoom(ts, z, w);
    if Calm(ts[0]) {
      HeadRowEnds(ts[1..], z, w);
      var rest := HeadRow(ts[1..], z, w);
      assert HeadRow(ts, z, w)[HeadRoom(ts) - 32..] == rest[|rest| - 32..];
    }
  }

  /** A component that is not calm panics wherever its head leads to its data. */
  lemma {:induction false} WildPanics(t: Type, pos: nat, out: seq<byte>, b: nat)
    requires Solid(t) && !Calm(t) && Exposed(t) && pos + 32 <= |out| < INT64_LIMIT && b <= |out|
    requires out[pos..pos + 32] == WildWord(t, b) && Wild(t) <= out[b..]
    ensures ToGoType(pos, t, out).Panic?
    decreases Depth(t), 1
  {
    hide PackNum, Number, UnpackFrom, WildRow;
    match t
    case ArrayTy(_, elem) =>
      if !IsDynamic(elem) {
        StaticCalm(elem);
      }
      FullOffset(t, pos, out);
    case SliceTy(elem) => WildSlice(elem, pos, out, b);
    case TupleTy(elems) =>
      assert IsDynamic(t) by { StaticTuple(t); }
      PackNumWhole(b);
      RowPanics(elems, out[b..]);
    case _ =>
  }

  lemma StaticTuple(t: Type)
    requires t.TupleTy? && Solid(t) && !Calm(t)
    ensures IsDynamic(t)
  {
    if !AnyDynamic(t.elems) {
      StaticAllCalm(t.elems);
    }
  }

  lemma WildSlice(elem: Type, pos: nat, out: seq<byte>, b: nat)
    requires Solid(elem) && !Calm(elem) && Exposed(elem) && pos + 32 <= |out| < INT64_LIMIT && b <= |out|
    requires out[pos..pos + 32] == PackNum(b) && PackNum(1) + WildRow(Repeat(elem, 1)) <= out[b..]
    ensures ToGoType(pos, SliceTy(elem), out).Panic?
    decreases Depth(elem), 5
  {
    hide PackNum, Number, UnpackFrom, WildRow, Calm, Exposed, Solid;
    var row := WildRow(Repeat(elem, 1));
    assert out[b..][..32] == out[b..b + 32] == PackNum(1);
    assert out[b..][32..] == out[b + 32..];
    assert row <= out[b + 32..];
    PackNumWhole(b);
    PackNumWhole(1);
    OneWild(elem);
    RowPanics(Repeat(elem, 1), out[b + 32..]);
    assert LengthPrefixPointsTo(pos, out) == Ok(Span(b + 32, 1));
  }

  lemma OneWild(elem: Type)
    requires Solid(elem) && !Calm(elem) && Exposed(elem)
    ensures var ts := Repeat(elem, 1);
            AllSolid(ts) && !AllCalm(ts) && ExposedList(ts) && |WildRow(ts)| >= 32
  {
    hide PackNum, Calm, Exposed, Solid, Wild;
    var ts := Repeat(elem, 1);
    assert ts[0] == elem && ts[1..] == [];
    HeadRowRoom(ts, HeadRoom(ts), WildWord(ts[0], HeadRoom(ts) + Before(ts)));
  }

  /** Wherever the data of a row starts, unpacking the row panics. */
  lemma {:induction false} RowPanics(ts: seq<Type>, out: seq<byte>)
    requires AllSolid(ts) && !AllCalm(ts) && ExposedList(ts) && WildRow(ts) <= out && |out| < INT64_LIMIT
    ensures UnpackFrom(ts, 0, out).Panic?
    decreases DepthAll(ts), 2 + |ts|
  {
    hide PackNum, AllSolid, AllCalm, ExposedList, HeadRow, HeadRoom, Before, FirstWild, Wild, UnpackFrom, ToGoType,
      Exposed, Calm, Solid, WildWord;
    var k, z, n := FirstWild(ts), HeadRoom(ts), Before(ts);
    HeadRowEnds(ts, z, FULL_WORD);
    var t, b := ts[k], z + n;
    var w := WildWord(t, b);
    HeadRowEnds(ts, z, w);
    RowParts(ts, out, z, n, w);
    DepthAt(ts, k);
    WildPanics(t, z - 32, out, b);
    RowStep(ts, 0, out, z, n, w);
  }

  /** Heads, zeros and data, one behind the other. */
  lemma RowParts(ts: seq<Type>, out: seq<byte>, z: nat, n: nat, w: seq<byte>)
    requires FirstWild(ts) < |ts| && WildRow(ts) <= out && z == HeadRoom(ts) && n == Before(ts)
    requires w == WildWord(ts[FirstWild(ts)], z + n) && |HeadRow(ts, z, w)| == z >= 32
    requires HeadRow(ts, z, w)[z - 32..] == w
    ensures z + n <= |out| && out[0..z] == HeadRow(ts, z, w) && out[z - 32..z - 32 + 32] == w
    ensures Wrappers.Only(out[z..z + n], 0) && Wild(ts[FirstWild(ts)]) <= out[z + n..]
  {
    hide PackNum, HeadRow, HeadRoom, Before, FirstWild, Wild, WildWord, Calm;
    var head, zeros, rest := HeadRow(ts, z, w), Wrappers.Copies<byte>(0, n), Wild(ts[FirstWild(ts)]);
    assert out[0..0 + |head + (zeros + rest)|] == head + (zeros + rest);
    Wrappers.SliceParts(out, 0, head, zeros + rest);
    Wrappers.SliceParts(out, z, zeros, rest);
    Wrappers.SubSlice(out, 0, head, z - 32, z);
    Wrappers.RestStarts(out, z + n, rest);
  }

  // ----- when unpacking panics -----

  /** A sound list is exposed. */
  lemma {:induction false} SoundExposed(t: Type)
    requires Solid(t) && Sound(t)
    ensures Exposed(t)
    decreases t, 2
  {
    match t
    case SliceTy(elem) => SoundExposed(elem);
    case TupleTy(elems) => SoundListExposed(elems);
    case _ =>
  }

  lemma {:induction false} SoundListExposed(ts: seq<Type>)
    requires AllSolid(ts) && SoundList(ts)
    ensures AllCalm(ts) || ExposedList(ts)
    decreases ts, 1
  {
    if AnyDynamic(ts) {
      SizedExposed(ts);
    } else {
      StaticAllCalm(ts);
    }
  }

  lemma {:induction false} SizedExposed(ts: seq<Type>)
    requires AllSolid(ts) && AllSound(ts) && AllSized(ts)
    ensures ExposedList(ts)
    decreases ts, 0
  {
    if ts != [] {
      SoundExposed(ts[0]);
      SizedExposed(ts[1..]);
    }
  }

  /** Unpacking an exposed list panics on no data exactly when the list is calm; otherwise it panics on `WildRow`. */
  lemma PanicsExactly(ts: seq<Type>)
    requires AllSolid(ts) && (AllCalm(ts) || ExposedList(ts)) && |WildRow(ts)| < INT64_LIMIT
    ensures AllCalm(ts) <==> forall data :: !UnpackValues(ts, data).Panic?
    ensures !AllCalm(ts) ==> UnpackValues(ts, WildRow(ts)).Panic?
  {
    hide AllSolid, AllCalm, ExposedList, WildRow, UnpackFrom;
    if AllCalm(ts) {
      forall data
        ensures !UnpackValues(ts, data).Panic?
      {
        CalmUnpacks(ts, 0, data);
      }
    } else {
      RowPanics(ts, WildRow(ts));
      assert UnpackValues(ts, WildRow(ts)).Panic?;
    }
  }

  /**
    Two booleans that reach over the head of the array leave it no offset but 0 and 1: the list is not calm, and still
    no data makes it panic.
    */
  lemma CoveredNeverPanics(data: seq<byte>)
    ensures !AllCalm([ArrayTy(1, FLAGS), ArrayTy(1, StringTy)])
    ensures !UnpackValues([ArrayTy(1, FLAGS), ArrayTy(1, StringTy)], data).Panic?
  {
    hide ToGoType, UnpackFrom, Number;
    var flags, strings := ArrayTy(1, FLAGS), ArrayTy(1, StringTy);
    var ts := [flags, strings];
    assert ts[1..] == [strings] && ts[1..][1..] == [];
    assert !AllCalm(ts) by { assert !Calm(strings) && !AllCalm(ts[1..]); }
    FlagTypes();
    FlagsRead(data);
    CalmReads(flags, 0, data);
    StringsRead(data);
    PairUnpacks(flags, strings, data);
  }

  lemma PairUnpacks(a: Type, b: Type, data: seq<byte>)
    requires GetTypeSize(a) == 32 && !ToGoType(0, a, data).Panic?
    requires ToGoType(0, a, data).Ok? ==> !ToGoType(32, b, data).Panic?
    ensures !UnpackFrom([a, b], 0, data).Panic?
  {
    hide ToGoType, GetTypeSize;
    var ts := [a, b];
    assert ts[1..] == [b] && [b][1..] == [];
    if ToGoType(0, a, data).Ok? {
      assert !UnpackFrom([b], 32, data).Panic?;
      assert UnpackFrom(ts[1..], 0 + GetTypeSize(ts[0]), data) == UnpackFrom([b], 32, data);
    }
  }

  const FLAGS := TupleTy([BoolTy, BoolTy])

  lemma FlagTypes()
    ensures !IsDynamic(FLAGS) && Calm(FLAGS)
    ensures GetTypeSize(ArrayTy(1, FLAGS)) == 32 && Calm(ArrayTy(1, FLAGS))
  {
    var bools := [BoolTy, BoolTy];
    assert bools[1..] == [BoolTy] && [BoolTy][1..] == [];
    assert AllCalm([]) && !AnyDynamic([]);
    assert Calm(BoolTy) && AllCalm([BoolTy]) && !AnyDynamic([BoolTy]);
  }

  lemma FlagsRead(data: seq<byte>)
    ensures ToGoType(0, ArrayTy(1, FLAGS), data).Ok? ==> |data| >= 64 && ReadBool(data[32..64]).Ok?
  {
    hide UnpackFrom, IsDynamic, Number;
    FlagTypes();
    var bools := [BoolTy, BoolTy];
    assert bools[1..] == [BoolTy] && data[0..] == data;
    UnpackFirst(Repeat(FLAGS, 1), 0, data);
    UnpackFirst(bools, 0, data);
    UnpackFirst([BoolTy], 32, data);
  }

  lemma StringsRead(data: seq<byte>)
    ensures |data| >= 64 && ReadBool(data[32..64]).Ok? ==> !ToGoType(32, ArrayTy(1, StringTy), data).Panic?
  {
    hide Number;
    if |data| >= 64 && ReadBool(data[32..64]).Ok? {
      var low := data[32 + 24..32 + 32];
      assert low == data[32..64][24..];
      assert Number(low) <= 1 by { SmallNumber(low); }
      CalmElements(StringTy, data[Number(low)..], 1);
    }
  }

  lemma SmallNumber(b: seq<byte>)
    requires b != [] && Wrappers.Only(b[..|b| - 1], 0) && b[|b| - 1] <= 1
    ensures Number(b) <= 1
  {
    ZeroIsNumber(b[..|b| - 1]);
  }

  /** A full word, read as an array of one string. */
  lemma FullWordPanics()
    ensures UnpackValues([ArrayTy(1, StringTy)], FULL_WORD).Panic?
  {
    assert FULL_WORD[0..0 + 32] == FULL_WORD;
    FullOffset(ArrayTy(1, StringTy), 0, FULL_WORD);
  }

  /** An empty slice of pairs of numbers cannot be packed: its element type is a fixed array. */
  lemma EmptySlicePanics()
    ensures WellTyped(SliceTy(ArrayTy(2, UintTy(256))), Items([]))
    ensures Pack(SliceTy(ArrayTy(2, UintTy(256))), Items([])).Panic?
  {
  }
}
