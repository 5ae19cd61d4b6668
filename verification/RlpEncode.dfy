/**
  The RLP encoder. String data and list headers go to two separate streams: a header is recorded when its
  list opens, sized when the list closes, and spliced into the string data only when output is produced.
  The three ways of producing output (a byte array, a writer, a chunked reader) all give `RlpSpec.Encode`.
  */
module RlpEncode {
  import opened Bytes
  import opened RlpSpec
  import opened Wrappers

  /** Where a list header belongs in the string data, and the payload size it announces. */
  datatype ListHead = ListHead(offset: nat, size: nat)

  function HeadBytes(h: ListHead): (b: seq<byte>)
    ensures |b| == HeadSize(h.size)
  {
    Header(LIST_SMALL, LIST_LARGE, h.size)
  }

  function TotalHeads(heads: seq<ListHead>): nat {
    if heads == [] then 0 else HeadSize(heads[0].size) + TotalHeads(heads[1..])
  }

  lemma {:induction false} TotalHeadsAppend(a: seq<ListHead>, b: seq<ListHead>)
    ensures TotalHeads(a + b) == TotalHeads(a) + TotalHeads(b)
  {
    if a == [] {
      assert a + b == b;
    } else {
      TotalHeadsAppend(a[1..], b);
      assert (a + b)[1..] == a[1..] + b;
    }
  }

  /** Headers that lie in order between `from` and `to`, with sizes that fit in a uint64. */
  predicate Ordered(heads: seq<ListHead>, from: nat, to: nat) {
    if heads == [] then from <= to
    else from <= heads[0].offset && heads[0].size < UINT64_LIMIT && Ordered(heads[1..], heads[0].offset, to)
  }

  lemma {:induction false} OrderedRange(heads: seq<ListHead>, from: nat, to: nat)
    requires Ordered(heads, from, to)
    ensures from <= to
    ensures heads != [] ==> heads[0].offset <= to
  {
    if heads != [] {
      OrderedRange(heads[1..], heads[0].offset, to);
    }
  }

  /** The output: string data from position `pos` on, with the headers put in at their offsets. */
  function Splice(str: seq<byte>, heads: seq<ListHead>, pos: nat): seq<byte>
    requires Ordered(heads, pos, |str|)
  {
    OrderedRange(heads, pos, |str|);
    if heads == [] then str[pos..]
    else str[pos..heads[0].offset] + HeadBytes(heads[0]) + Splice(str, heads[1..], heads[0].offset)
  }

  lemma {:induction false} SpliceLength(str: seq<byte>, heads: seq<ListHead>, pos: nat)
    requires Ordered(heads, pos, |str|)
    ensures pos + |Splice(str, heads, pos)| == |str| + TotalHeads(heads)
  {
    OrderedRange(heads, pos, |str|);
    if heads != [] {
      SpliceLength(str, heads[1..], heads[0].offset);
    }
  }

  // ----- what a value contributes to each stream -----

  /** Everything of the encoding except list headers. */
  function StringData(v: Value): seq<byte>
    decreases v, 1
  {
    match v
    case Str(s) => EncodeString(s)
    case List(items) => StringDataAll(items)
  }

  function StringDataAll(vs: seq<Value>): seq<byte>
    decreases vs, 0
  {
    if vs == [] then [] else StringData(vs[0]) + StringDataAll(vs[1..])
  }

  /** The list headers, in the order in which the lists open; `base` is the string data before the value. */
  function ListHeads(v: Value, base: nat): seq<ListHead>
    decreases v, 1
  {
    match v
    case Str(_) => []
    case List(items) => [ListHead(base, |EncodeAll(items)|)] + ListHeadsAll(items, base)
  }

  function ListHeadsAll(vs: seq<Value>, base: nat): seq<ListHead>
    decreases vs, 0
  {
    if vs == [] then []
    else ListHeads(vs[0], base) + ListHeadsAll(vs[1..], base + |StringData(vs[0])|)
  }

  lemma {:induction false} StringDataAppend(vs: seq<Value>, v: Value)
    ensures StringDataAll(vs + [v]) == StringDataAll(vs) + StringData(v)
  {
    if vs == [] {
      assert vs + [v] == [v] && [v][1..] == [];
    } else {
      StringDataAppend(vs[1..], v);
      assert (vs + [v])[1..] == vs[1..] + [v];
      Assoc(StringData(vs[0]), StringDataAll(vs[1..]), StringData(v));
    }
  }

  lemma {:induction false} ListHeadsAppend(vs: seq<Value>, v: Value, base: nat)
    ensures ListHeadsAll(vs + [v], base) == ListHeadsAll(vs, base) + ListHeads(v, base + |StringDataAll(vs)|)
  {
    hide StringData, ListHeads, EncodeAll;
    if vs == [] {
      assert vs + [v] == [v] && [v][1..] == [];
    } else {
      var next := base + |StringData(vs[0])|;
      ListHeadsAppend(vs[1..], v, next);
      assert (vs + [v])[1..] == vs[1..] + [v];
      Assoc(ListHeads(vs[0], base), ListHeadsAll(vs[1..], next), ListHeads(v, base + |StringDataAll(vs)|));
    }
  }

  lemma NoItems(base: nat)
    ensures StringDataAll([]) == [] && ListHeadsAll([], base) == [] && TotalHeads([]) == 0
  {
  }

  /** The two streams together are as long as the encoding. */
  lemma {:induction false} StreamSizes(v: Value, base: nat)
    ensures |Encode(v)| == |StringData(v)| + TotalHeads(ListHeads(v, base))
    decreases v, 1
  {
    if v.List? {
      StreamSizesAll(v.items, base);
      assert ListHeads(v, base)[1..] == ListHeadsAll(v.items, base);
    }
  }

  lemma {:induction false} StreamSizesAll(vs: seq<Value>, base: nat)
    ensures |EncodeAll(vs)| == |StringDataAll(vs)| + TotalHeads(ListHeadsAll(vs, base))
    decreases vs, 0
  {
    if vs != [] {
      var next := base + |StringData(vs[0])|;
      StreamSizes(vs[0], base);
      StreamSizesAll(vs[1..], next);
      TotalHeadsAppend(ListHeads(vs[0], base), ListHeadsAll(vs[1..], next));
    }
  }

  /** Splicing the streams of a value gives its encoding, whatever else is in the buffer around it. */
  lemma {:induction false} SpliceEncodes(v: Value, str: seq<byte>, pos: nat, rest: seq<ListHead>)
    requires |Encode(v)| < UINT64_LIMIT
    requires pos + |StringData(v)| <= |str| && str[pos..pos + |StringData(v)|] == StringData(v)
    requires Ordered(rest, pos + |StringData(v)|, |str|)
    ensures Ordered(ListHeads(v, pos) + rest, pos, |str|)
    ensures Splice(str, ListHeads(v, pos) + rest, pos) == Encode(v) + Splice(str, rest, pos + |StringData(v)|)
    decreases v, 1
  {
    match v
    case Str(s) =>
      assert ListHeads(v, pos) + rest == rest;
      SpliceFrom(str, rest, pos, pos + |StringData(v)|);
    case List(items) =>
      var heads := ListHeads(v, pos) + rest;
      SpliceEncodesAll(items, str, pos, rest);
      assert heads[1..] == ListHeadsAll(items, pos) + rest;
      var later := Splice(str, rest, pos + |StringData(v)|);
      assert str[pos..pos] + HeadBytes(heads[0]) == HeadBytes(heads[0]);
      Assoc(HeadBytes(heads[0]), EncodeAll(items), later);
  }

  lemma {:induction false} SpliceEncodesAll(vs: seq<Value>, str: seq<byte>, pos: nat, rest: seq<ListHead>)
    requires |EncodeAll(vs)| < UINT64_LIMIT
    requires pos + |StringDataAll(vs)| <= |str| && str[pos..pos + |StringDataAll(vs)|] == StringDataAll(vs)
    requires Ordered(rest, pos + |StringDataAll(vs)|, |str|)
    ensures Ordered(ListHeadsAll(vs, pos) + rest, pos, |str|)
    ensures Splice(str, ListHeadsAll(vs, pos) + rest, pos)
         == EncodeAll(vs) + Splice(str, rest, pos + |StringDataAll(vs)|)
    decreases vs, 0
  {
    hide Splice, Ordered, StringData, ListHeads, Encode;
    if vs == [] {
      assert ListHeadsAll(vs, pos) + rest == rest;
    } else {
      var v, next := vs[0], pos + |StringData(vs[0])|;
      SliceParts(str, pos, StringData(v), StringDataAll(vs[1..]));
      SpliceEncodesAll(vs[1..], str, next, rest);
      SpliceEncodes(v, str, pos, ListHeadsAll(vs[1..], next) + rest);
      Assoc(ListHeads(v, pos), ListHeadsAll(vs[1..], next), rest);
      Assoc(Encode(v), EncodeAll(vs[1..]), Splice(str, rest, pos + |StringDataAll(vs)|));
    }
  }

  /** Starting earlier only puts the skipped string data in front. */
  lemma SpliceFrom(str: seq<byte>, heads: seq<ListHead>, pos: nat, later: nat)
    requires pos <= later && Ordered(heads, later, |str|)
    ensures later <= |str| && Ordered(heads, pos, |str|)
    ensures Splice(str, heads, pos) == str[pos..later] + Splice(str, heads, later)
  {
    OrderedRange(heads, later, |str|);
    if heads != [] {
      var at := heads[0].offset;
      assert str[pos..at] == str[pos..later] + str[later..at];
      var h, r := HeadBytes(heads[0]), Splice(str, heads[1..], at);
      Assoc(str[pos..later], str[later..at], h);
      Assoc(str[pos..later], str[later..at] + h, r);
    } else {
      assert str[pos..] == str[pos..later] + str[later..];
    }
  }

  /** One round of every output loop: the string data up to the next header, then the header. */
  lemma SpliceRound(str: seq<byte>, heads: seq<ListHead>, pos: nat, done: seq<byte>)
    requires heads != [] && Ordered(heads, pos, |str|)
    ensures pos <= heads[0].offset <= |str| && heads[0].size < UINT64_LIMIT
    ensures Ordered(heads[1..], heads[0].offset, |str|)
    ensures done + Splice(str, heads, pos)
         == done + str[pos..heads[0].offset] + HeadBytes(heads[0]) + Splice(str, heads[1..], heads[0].offset)
  {
    OrderedRange(heads, pos, |str|);
    var d, h, r := str[pos..heads[0].offset], HeadBytes(heads[0]), Splice(str, heads[1..], heads[0].offset);
    Assoc(done, d + h, r);
    Assoc(done, d, h);
  }

  lemma SpliceEnd(str: seq<byte>, heads: seq<ListHead>, pos: nat)
    requires Ordered(heads[|heads|..], pos, |str|)
    ensures pos <= |str| && Splice(str, heads[|heads|..], pos) == str[pos..]
  {
  }

  /** The headers and the string data of a value are well formed and splice to its encoding. */
  lemma SpliceWhole(v: Value)
    requires |Encode(v)| < UINT64_LIMIT
    ensures Ordered(ListHeads(v, 0), 0, |StringData(v)|)
    ensures Splice(StringData(v), ListHeads(v, 0), 0) == Encode(v)
  {
    SpliceEncodes(v, StringData(v), 0, []);
    assert ListHeads(v, 0) + [] == ListHeads(v, 0);
  }

  // ----- writing numbers and headers into a buffer -----

  /** The least number of bytes that hold i. */
  method IntSize(i: nat) returns (size: nat)
    ensures size == |BigEndian(i)|
  {
    size := 1;
    var n: nat := i / 256;
    while n != 0
      invariant n == 0 ==> |BigEndian(i)| == size
      invariant n != 0 ==> |BigEndian(i)| == size + |BigEndian(n)|
    {
      size, n := size + 1, n / 256;
    }
  }

  /** The eight ways in which `PutInt` can spell a number out. */
  function Digits(i: nat, size: nat): (d: seq<byte>)
    requires 1 <= size <= 8
    ensures |d| == size
  {
    match size
    case 1 => [i % 256]
    case 2 => [i / 0x100 % 256, i % 256]
    case 3 => [i / 0x1_0000 % 256, i / 0x100 % 256, i % 256]
    case 4 => [i / 0x100_0000 % 256, i / 0x1_0000 % 256, i / 0x100 % 256, i % 256]
    case 5 => [i / 0x1_0000_0000 % 256, i / 0x100_0000 % 256, i / 0x1_0000 % 256, i / 0x100 % 256, i % 256]
    case 6 => [i / 0x100_0000_0000 % 256, i / 0x1_0000_0000 % 256, i / 0x100_0000 % 256, i / 0x1_0000 % 256,
               i / 0x100 % 256, i % 256]
    case 7 => [i / 0x1_0000_0000_0000 % 256, i / 0x100_0000_0000 % 256, i / 0x1_0000_0000 % 256,
               i / 0x100_0000 % 256, i / 0x1_0000 % 256, i / 0x100 % 256, i % 256]
    case _ => [i / 0x100_0000_0000_0000 % 256, i / 0x1_0000_0000_0000 % 256, i / 0x100_0000_0000 % 256,
               i / 0x1_0000_0000 % 256, i / 0x100_0000 % 256, i / 0x1_0000 % 256, i / 0x100 % 256, i % 256]
  }

  lemma DigitsStep(i: nat, size: nat)
    requires 2 <= size <= 8
    ensures Digits(i, size) == Digits(i / 256, size - 1) + [i % 256]
  {
    assert i / 256 / 0x100 == i / 0x1_0000;
    assert i / 256 / 0x1_0000 == i / 0x100_0000;
    assert i / 256 / 0x100_0000 == i / 0x1_0000_0000;
    assert i / 256 / 0x1_0000_0000 == i / 0x100_0000_0000;
    assert i / 256 / 0x100_0000_0000 == i / 0x1_0000_0000_0000;
    assert i / 256 / 0x1_0000_0000_0000 == i / 0x100_0000_0000_0000;
  }

  lemma {:induction false} BigEndianIsDigits(i: nat)
    requires |BigEndian(i)| <= 8
    ensures BigEndian(i) == Digits(i, |BigEndian(i)|)
  {
    if i >= 256 {
      BigEndianIsDigits(i / 256);
      DigitsStep(i, |BigEndian(i)|);
    }
  }

  /** Writes i at position `at` in big-endian order, using the least number of bytes. */
  method PutInt(b: array<byte>, at: nat, i: nat) returns (size: nat)
    requires i < UINT64_LIMIT
    requires at + |BigEndian(i)| <= b.Length
    modifies b
    ensures size == |BigEndian(i)|
    ensures b[..at + size] == old(b[..at]) + BigEndian(i)
    ensures b[at + size..] == old(b[at + size..])
  {
    BigEndianLengthUint64(i);
    BigEndianIsDigits(i);
    if i < 0x100 {
      size := 1;
    } else if i < 0x1_0000 {
      size := 2;
    } else if i < 0x100_0000 {
      size := 3;
    } else if i < 0x1_0000_0000 {
      size := 4;
    } else if i < 0x100_0000_0000 {
      size := 5;
    } else if i < 0x1_0000_0000_0000 {
      size := 6;
    } else if i < 0x100_0000_0000_0000 {
      size := 7;
    } else {
      size := 8;
    }
    SizeFromRange(i, size);
    CopyTo(b, at, Digits(i, size));
  }

  /** The case split of `PutInt` picks the length of the shortest form. */
  lemma SizeFromRange(i: nat, size: nat)
    requires 1 <= size <= 8 && i < UINT64_LIMIT
    requires size > 1 ==> i >= Pow256(size - 1)
    requires i < Pow256(size)
    ensures |BigEndian(i)| == size
  {
    BigEndianLength(i, size);
    if size > 1 {
      BigEndianLength(i, size - 1);
    }
  }

  /** Writes a header at position `at`. */
  method PutHead(b: array<byte>, at: nat, small: byte, large: byte, size: nat) returns (n: nat)
    requires size < UINT64_LIMIT
    requires at + HeadSize(size) <= b.Length
    modifies b
    ensures n == HeadSize(size)
    ensures b[..at + n] == old(b[..at]) + Header(small, large, size)
    ensures b[at + n..] == old(b[at + n..])
  {
    hide BigEndian;
    if size < 56 {
      b[at] := (small + size) % 256;
      return 1;
    }
    var sizesize := PutInt(b, at + 1, size);
    TagInFront(b[..], old(b[..]), at, (large + sizesize) % 256, BigEndian(size));
    b[at] := (large + sizesize) % 256;
    n := sizesize + 1;
  }

  /** Writing the tag in front of the size bytes. */
  lemma TagInFront(after: seq<byte>, before: seq<byte>, at: nat, tag: byte, bytes: seq<byte>)
    requires |after| == |before| && at + 1 + |bytes| <= |before|
    requires after[..at + 1 + |bytes|] == before[..at + 1] + bytes
    requires after[at + 1 + |bytes|..] == before[at + 1 + |bytes|..]
    ensures after[at := tag][..at + 1 + |bytes|] == before[..at] + ([tag] + bytes)
    ensures after[at := tag][at + 1 + |bytes|..] == before[at + 1 + |bytes|..]
  {
    var n := at + 1 + |bytes|;
    forall k | 0 <= k < n
      ensures after[at := tag][..n][k] == (before[..at] + ([tag] + bytes))[k]
    {
      assert after[..n][k] == after[k];
    }
    assert after[at := tag][n..] == after[n..];
  }

  /** Go's `copy(b[at:], data)` for data that fits. */
  method CopyTo(b: array<byte>, at: nat, data: seq<byte>)
    requires at + |data| <= b.Length
    modifies b
    ensures b[..at + |data|] == old(b[..at]) + data
    ensures b[at + |data|..] == old(b[at + |data|..])
  {
    forall k | 0 <= k < |data| {
      b[at + k] := data[k];
    }
  }

  /** An output that accepts `room` more bytes and fails a write that does not fit, after a partial write. */
  class Writer {
    var written: seq<byte>
    var room: nat

    constructor (room: nat)
      ensures written == [] && this.room == room
    {
      written, this.room := [], room;
    }

    method Write(p: seq<byte>) returns (n: nat, ok: bool)
      modifies this
      ensures n == Min(|p|, old(room)) && ok == (|p| <= old(room))
      ensures written == old(written) + p[..n] && room == old(room) - n
    {
      n := Min(|p|, room);
      ok := |p| <= room;
      written, room := written + p[..n], room - n;
    }
  }

  /** The encoder's buffer. */
  class EncBuf {
    var str: seq<byte>        // string data, everything except list headers
    var lheads: seq<ListHead> // all list headers
    var lhsize: nat           // sum of the sizes of all closed list headers
    const sizebuf: array<byte>

    ghost predicate Valid()
      reads this
    {
      sizebuf.Length == 9
    }

    /** No list is open: the headers are final and counted. */
    ghost predicate Closed()
      reads this
    {
      Valid() && Ordered(lheads, 0, |str|) && lhsize == TotalHeads(lheads)
    }

    ghost function Output(): seq<byte>
      requires Closed()
      reads this
    {
      Splice(str, lheads, 0)
    }

    constructor ()
      ensures Closed() && str == [] && lheads == [] && lhsize == 0
      ensures fresh(sizebuf)
    {
      str, lheads, lhsize := [], [], 0;
      sizebuf := new byte[9](_ => 0);
    }

    function Size(): nat
      reads this
    {
      |str| + lhsize
    }

    method EncodeStringHeader(size: nat)
      requires Valid() && size < UINT64_LIMIT
      modifies this`str, sizebuf
      ensures str == old(str) + Header(STRING_SMALL, STRING_LARGE, size)
    {
      if size < 56 {
        str := str + [0x80 + size];
      } else {
        BigEndianLengthUint64(size);
        var sizesize := PutInt(sizebuf, 1, size);
        ghost var after := sizebuf[..];
        sizebuf[0] := (0xB7 + sizesize) % 256;
        assert sizebuf[..sizesize + 1] == [sizebuf[0]] + after[1..sizesize + 1];
        str := str + sizebuf[..sizesize + 1];
      }
    }

    method EncodeString(b: seq<byte>)
      requires Valid() && |b| < UINT64_LIMIT
      modifies this`str, sizebuf
      ensures str == old(str) + RlpSpec.EncodeString(b)
    {
      if |b| == 1 && b[0] <= 0x7F {
        str := str + [b[0]];
      } else {
        EncodeStringHeader(|b|);
        str := str + b;
      }
    }

    /** Opens a list and returns the place of its header. Until it is closed, the header remembers `lhsize`. */
    method OpenList() returns (lh: nat)
      modifies this`lheads
      ensures lh == |old(lheads)|
      ensures lheads == old(lheads) + [ListHead(|str|, lhsize)]
    {
      lh := |lheads|;
      lheads := lheads + [ListHead(|str|, lhsize)];
    }

    /** Closes a list: its size is everything written since it was opened. */
    method CloseList(lh: nat)
      requires lh < |lheads|
      requires lheads[lh].offset + lheads[lh].size <= |str| + lhsize
      modifies this`lheads, this`lhsize
      ensures var size := |str| + old(lhsize) - old(lheads[lh].offset) - old(lheads[lh].size);
              && lheads == old(lheads)[lh := ListHead(old(lheads[lh].offset), size)]
              && lhsize == old(lhsize) + HeadSize(size)
    {
      var size := Size() - lheads[lh].offset - lheads[lh].size;
      lheads := lheads[lh := ListHead(lheads[lh].offset, size)];
      if size < 56 {
        lhsize := lhsize + 1;
      } else {
        var n := IntSize(size);
        lhsize := lhsize + 1 + n;
      }
    }

    /** Writes a value: each stream grows by exactly what the value contributes to it. */
    method EncodeValue(v: Value)
      requires Valid() && |Encode(v)| < UINT64_LIMIT
      modifies this, sizebuf
      ensures Valid()
      ensures str == old(str) + StringData(v)
      ensures lheads == old(lheads) + ListHeads(v, |old(str)|)
      ensures lhsize == old(lhsize) + TotalHeads(ListHeads(v, |old(str)|))
      decreases v, 1
    {
      hide EncodeAll, StringDataAll, ListHeadsAll, Header, Ordered;
      match v
      case Str(s) =>
        EncodeString(s);
      case List(items) =>
        var lh := OpenList();
        StreamSizesAll(items, |str|);
        ghost var heads := ListHeads(v, |str|);
        assert heads[1..] == ListHeadsAll(items, |str|);
        EncodeItems(items);
        CloseList(lh);
        assert lheads == old(lheads) + heads;
    }

    method EncodeItems(items: seq<Value>)
      requires Valid() && |EncodeAll(items)| < UINT64_LIMIT
      modifies this, sizebuf
      ensures Valid()
      ensures str == old(str) + StringDataAll(items)
      ensures lheads == old(lheads) + ListHeadsAll(items, |old(str)|)
      ensures lhsize == old(lhsize) + TotalHeads(ListHeadsAll(items, |old(str)|))
      decreases items, 0
    {
      hide StringDataAll, ListHeadsAll, TotalHeads, EncodeAll, StringData, ListHeads, Encode;
      ghost var base := |str|;
      NoItems(base);
      for i := 0 to |items|
        invariant Valid()
        invariant str == old(str) + StringDataAll(items[..i])
        invariant lheads == old(lheads) + ListHeadsAll(items[..i], base)
        invariant lhsize == old(lhsize) + TotalHeads(ListHeadsAll(items[..i], base))
      {
        ghost var done := items[..i];
        assert items[..i + 1] == done + [items[i]];
        Assoc(old(str), StringDataAll(done), StringData(items[i]));
        Assoc(old(lheads), ListHeadsAll(done, base), ListHeads(items[i], |str|));
        StringDataAppend(done, items[i]);
        ListHeadsAppend(done, items[i], base);
        TotalHeadsAppend(ListHeadsAll(done, base), ListHeads(items[i], |str|));
        ItemSmaller(items, i);
        EncodeValue(items[i]);
      }
      assert items[..|items|] == items;
    }

    /** The spliced output as a byte array. */
    method ToBytes() returns (out: array<byte>)
      requires Closed()
      ensures fresh(out) && out[..] == Output()
    {
      hide Splice, Ordered, TotalHeads, Header;
      SpliceLength(str, lheads, 0);
      out := new byte[Size()](_ => 0);
      var strpos: nat, pos: nat := 0, 0;
      for k := 0 to |lheads|
        invariant Ordered(lheads[k..], strpos, |str|)
        invariant pos <= out.Length == |Output()|
        invariant out[..pos] + Splice(str, lheads[k..], strpos) == Output()
      {
        var head := lheads[k];
        SpliceRound(str, lheads[k..], strpos, out[..pos]);
        assert lheads[k..][1..] == lheads[k + 1..];
        ghost var rest, all := Splice(str, lheads[k + 1..], head.offset), Output();
        var data := str[strpos..head.offset];
        ghost var next := out[..pos] + data + HeadBytes(head);
        assert all == next + rest;
        CopyTo(out, pos, data);
        var n := PutHead(out, pos + |data|, LIST_SMALL, LIST_LARGE, head.size);
        pos, strpos := pos + |data| + n, strpos + |data|;
        assert out[..pos] == next;
      }
      SpliceEnd(str, lheads, strpos);
      CopyTo(out, pos, str[strpos..]);
      assert out[..] == out[..out.Length];
    }

    /**
      The spliced output, written piece by piece. If the writer runs out of room, it holds the part of the
      output that fitted, and the failure is reported.
      */
    method ToWriter(out: Writer) returns (ok: bool)
      requires Closed()
      modifies out, sizebuf
      ensures ok <==> |Output()| <= old(out.room)
      ensures out.written == old(out.written) + Output()[..Min(|Output()|, old(out.room))]
    {
      hide Splice, Ordered, TotalHeads, Header, HeadSize;
      ghost var start, room := out.written, out.room;
      var strpos: nat := 0;
      ghost var sent: seq<byte> := [];
      for k := 0 to |lheads|
        invariant Ordered(lheads[k..], strpos, |str|)
        invariant sent + Splice(str, lheads[k..], strpos) == Output()
        invariant Sent(out, start, room, sent)
      {
        var head := lheads[k];
        SpliceRound(str, lheads[k..], strpos, sent);
        assert lheads[k..][1..] == lheads[k + 1..];
        ghost var rest := Splice(str, lheads[k + 1..], head.offset);
        var data := str[strpos..head.offset];
        ghost var last := HeadBytes(head) + rest;
        assert Output() == sent + data + last by {
          Assoc(sent + data, HeadBytes(head), rest);
        }
        if head.offset - strpos > 0 {
          var n, fits := WritePiece(out, data, start, room, sent, last);
          strpos := strpos + n;
          if !fits {
            return false;
          }
        }
        sent := sent + data;
        HeadSizeUint64(head.size);
        var n := PutHead(sizebuf, 0, LIST_SMALL, LIST_LARGE, head.size);
        assert sizebuf[..n] == HeadBytes(head);
        var m, fits := WritePiece(out, sizebuf[..n], start, room, sent, rest);
        if !fits {
          return false;
        }
        sent := sent + HeadBytes(head);
      }
      SpliceEnd(str, lheads, strpos);
      if strpos < |str| {
        var n;
        n, ok := WritePiece(out, str[strpos..], start, room, sent, []);
      } else {
        ok := true;
      }
    }
  }

  /** The writer holds `sent` on top of what it held at the start. */
  ghost predicate Sent(out: Writer, start: seq<byte>, room: nat, sent: seq<byte>)
    reads out
  {
    out.written == start + sent && out.room + |sent| == room
  }

  /** One write: it either goes through or leaves the writer with the part of the whole that fits. */
  method WritePiece(out: Writer, p: seq<byte>, ghost start: seq<byte>, ghost room: nat,
                    ghost sent: seq<byte>, ghost rest: seq<byte>) returns (n: nat, ok: bool)
    requires Sent(out, start, room, sent)
    modifies out
    ensures ok <==> |sent + p| <= room
    ensures ok ==> n == |p| && Sent(out, start, room, sent + p) && sent + p + rest == (sent + p) + rest
    ensures ok && rest == [] ==> out.written == start + (sent + p)[..|sent + p|]
    ensures !ok ==> out.written == start + (sent + p + rest)[..room]
  {
    PartOfWhole(start, sent, p, rest, Min(|p|, out.room));
    n, ok := out.Write(p);
  }

  /** After a write of the first n bytes of `data`, the writer holds the corresponding part of the whole. */
  lemma PartOfWhole(start: seq<byte>, sent: seq<byte>, data: seq<byte>, rest: seq<byte>, n: nat)
    requires n <= |data|
    ensures (start + sent) + data[..n] == start + (sent + data + rest)[..|sent| + n]
    ensures n == |data| ==> data[..n] == data && (start + sent) + data == start + (sent + data)
  {
    assert (sent + data + rest)[..|sent| + n] == sent + data[..n];
  }

  lemma ItemSmaller(items: seq<Value>, i: nat)
    requires i < |items|
    ensures |Encode(items[i])| <= |EncodeAll(items)|
    decreases i
  {
    if i > 0 {
      ItemSmaller(items[1..], i - 1);
    }
  }

  lemma HeadSizeUint64(size: nat)
    requires size < UINT64_LIMIT
    ensures HeadSize(size) <= 9
  {
    BigEndianLengthUint64(size);
  }

  /** What EncReader has yet to hand out of the piece it is working on. */
  datatype Piece = NoPiece | Piece(data: seq<byte>)

  /** Hands out the output of an encoder buffer in chunks of the caller's choosing. */
  class EncReader {
    var buf: EncBuf?  // null at the end of the output
    var lhpos: nat    // index of the next list header
    var strpos: nat   // current position in the string data
    var piece: Piece  // next piece to be read

    ghost predicate Valid()
      reads this, buf
    {
      && (buf == null ==> piece == NoPiece)
      && (buf != null ==>
            && buf.Closed()
            && lhpos <= |buf.lheads|
            && Ordered(buf.lheads[lhpos..], strpos, |buf.str|))
      && (piece.Piece? ==> piece.data != [])
    }

    /** What is left to be read. */
    ghost function Remaining(): seq<byte>
      requires Valid()
      reads this, buf
    {
      if buf == null then []
      else (if piece.Piece? then piece.data else []) + Splice(buf.str, buf.lheads[lhpos..], strpos)
    }

    constructor (b: EncBuf)
      requires b.Closed()
      ensures Valid() && buf == b && Remaining() == b.Output()
    {
      buf, lhpos, strpos, piece := b, 0, 0, NoPiece;
      new;
      assert b.lheads[0..] == b.lheads;
      assert [] + b.Output() == b.Output();
    }

    /** The next piece, or none at the end. */
    method Next() returns (p: Piece)
      requires Valid()
      modifies this`lhpos, this`strpos, if buf != null then {buf.sizebuf} else {}
      ensures buf == null || (lhpos <= |buf.lheads| && Ordered(buf.lheads[lhpos..], strpos, |buf.str|))
      ensures p == NoPiece <==> old(Remaining()) == []
      ensures p.Piece? ==> buf != null && p.data != []
      ensures p.Piece? ==> p.data + Splice(buf.str, buf.lheads[lhpos..], strpos) == old(Remaining())
    {
      if buf == null {
        return NoPiece;
      } else if piece.Piece? {
        return piece;
      } else if lhpos < |buf.lheads| {
        OrderedRange(buf.lheads[lhpos..], strpos, |buf.str|);
        var head := buf.lheads[lhpos];
        assert buf.lheads[lhpos..][1..] == buf.lheads[lhpos + 1..];
        if head.offset > strpos {
          p := Piece(buf.str[strpos..head.offset]);
          SpliceFrom(buf.str, buf.lheads[lhpos..], strpos, head.offset);
          strpos := head.offset;
          return p;
        }
        lhpos := lhpos + 1;
        HeadSizeUint64(head.size);
        var n := PutHead(buf.sizebuf, 0, LIST_SMALL, LIST_LARGE, head.size);
        assert buf.str[strpos..head.offset] == [];
        assert buf.sizebuf[..n] == HeadBytes(head);
        return Piece(buf.sizebuf[..n]);
      } else if strpos < |buf.str| {
        assert buf.lheads[lhpos..] == [];
        p := Piece(buf.str[strpos..]);
        strpos := |buf.str|;
        return p;
      } else {
        return NoPiece;
      }
    }

    /** At the end the reader lets go of the buffer. */
    method End()
      modifies this
      ensures Valid() && buf == null && Remaining() == []
    {
      buf, piece := null, NoPiece;
    }

    /** What stays of the current piece. */
    method Keep(rest: Piece)
      requires buf != null && buf.Closed() && lhpos <= |buf.lheads|
      requires Ordered(buf.lheads[lhpos..], strpos, |buf.str|)
      requires rest.Piece? ==> rest.data != []
      modifies this`piece
      ensures Valid()
      ensures Remaining() == (if rest.Piece? then rest.data else []) + Splice(buf.str, buf.lheads[lhpos..], strpos)
    {
      piece := rest;
    }

    /** One round of `Read`: copies what fits of the next piece; `n` bytes of b are filled already. */
    method ReadPiece(b: array<byte>, n: nat) returns (nn: nat, more: bool, eof: bool)
      requires Valid() && n <= b.Length
      requires buf != null ==> buf.sizebuf != b
      modifies this, b, if buf != null then {buf.sizebuf} else {}
      ensures Valid() && n + nn <= b.Length
      ensures buf == null || buf == old(buf)
      ensures b[..n + nn] + Remaining() == old(b[..n] + Remaining())
      ensures if eof then !more && Remaining() == []
              else if more then nn > 0 && buf != null
              else n + nn == b.Length && Remaining() != []
    {
      hide Splice, Ordered, EncReader.Remaining;
      var p := Next();
      if p == NoPiece {
        End();
        return 0, false, true;
      }
      ghost var later := Splice(buf.str, buf.lheads[lhpos..], strpos);
      nn := CopySome(b, n, p.data, old(b[..n] + Remaining()), later);
      var rest := if nn < |p.data| then Piece(p.data[nn..]) else NoPiece;
      Keep(rest);
      return nn, rest == NoPiece, false;
    }

    /** Fills b with as much as there is, and reports the end exactly when everything has been handed out. */
    method Read(b: array<byte>) returns (n: nat, eof: bool)
      requires Valid()
      requires buf != null ==> buf.sizebuf != b
      modifies this, b, if buf != null then {buf.sizebuf} else {}
      ensures Valid()
      ensures buf == null || buf == old(buf)
      ensures n == Min(b.Length, |old(Remaining())|)
      ensures b[..n] + Remaining() == old(Remaining())
      ensures eof <==> Remaining() == []
    {
      hide Splice, Ordered, EncReader.Valid, EncReader.Remaining;
      n, eof := 0, false;
      var more := true;
      while more
        invariant Valid() && n <= b.Length
        invariant buf == null || buf == old(buf)
        invariant more ==> buf == old(buf)
        invariant b[..n] + Remaining() == old(Remaining())
        invariant !more ==> if eof then Remaining() == [] else n == b.Length && Remaining() != []
        decreases more, |Remaining()|
      {
        var nn;
        nn, more, eof := ReadPiece(b, n);
        n := n + nn;
      }
    }
  }

  /** Go's `copy`: as much of data as fits into b[n..]. */
  method CopySome(b: array<byte>, n: nat, data: seq<byte>, ghost all: seq<byte>, ghost later: seq<byte>)
    returns (nn: nat)
    requires n <= b.Length && b[..n] + (data + later) == all
    modifies b
    ensures nn == Min(|data|, b.Length - n)
    ensures b[..n + nn] + (data[nn..] + later) == all
    ensures nn == |data| ==> b[..n + nn] + later == all
  {
    nn := Min(|data|, b.Length - n);
    MoveOver(b[..n], data, later, nn);
    CopyTo(b, n, data[..nn]);
  }

  lemma MoveOver(done: seq<byte>, data: seq<byte>, later: seq<byte>, n: nat)
    requires n <= |data|
    ensures done + (data + later) == (done + data[..n]) + (data[n..] + later)
    ensures [] + later == later
  {
  }

  // ----- the entry points -----

  /** EncodeToBytes gives the recursive encoding. */
  method EncodeToBytes(v: Value) returns (b: seq<byte>)
    requires |Encode(v)| < UINT64_LIMIT
    ensures b == Encode(v)
  {
    var buf := new EncBuf();
    buf.EncodeValue(v);
    FinishedBuffer(v, buf);
    var out := buf.ToBytes();
    b := out[..];
  }

  lemma FinishedBuffer(v: Value, buf: EncBuf)
    requires |Encode(v)| < UINT64_LIMIT
    requires buf.Valid() && buf.str == [] + StringData(v) && buf.lheads == [] + ListHeads(v, 0)
    requires buf.lhsize == TotalHeads(ListHeads(v, 0))
    ensures buf.Closed() && buf.Output() == Encode(v)
  {
    SpliceWhole(v);
    assert [] + StringData(v) == StringData(v) && [] + ListHeads(v, 0) == ListHeads(v, 0);
  }

  /** Encode writes the recursive encoding to a writer, or as much of it as fits. */
  method EncodeToWriter(v: Value, out: Writer) returns (ok: bool)
    requires |Encode(v)| < UINT64_LIMIT
    modifies out
    ensures ok <==> |Encode(v)| <= old(out.room)
    ensures out.written == old(out.written) + Encode(v)[..Min(|Encode(v)|, old(out.room))]
  {
    var buf := new EncBuf();
    buf.EncodeValue(v);
    FinishedBuffer(v, buf);
    ok := buf.ToWriter(out);
  }

  /** EncodeToReader announces the size of the encoding and returns a reader positioned at its start. */
  method EncodeToReader(v: Value) returns (size: nat, r: EncReader)
    requires |Encode(v)| < UINT64_LIMIT
    ensures fresh(r) && r.Valid() && r.buf != null && fresh(r.buf) && fresh(r.buf.sizebuf)
    ensures size == |Encode(v)| && r.Remaining() == Encode(v)
  {
    var buf := new EncBuf();
    buf.EncodeValue(v);
    FinishedBuffer(v, buf);
    SpliceLength(buf.str, buf.lheads, 0);
    size := buf.Size();
    r := new EncReader(buf);
  }

  function Sum(sizes: seq<nat>): nat {
    if sizes == [] then 0 else Sum(sizes[..|sizes| - 1]) + sizes[|sizes| - 1]
  }

  /** Reading with any sequence of buffer sizes hands out the encoding from its start, without gaps. */
  method ReadInChunks(v: Value, sizes: seq<nat>) returns (out: seq<byte>, eof: bool)
    requires |Encode(v)| < UINT64_LIMIT
    ensures out == Encode(v)[..Min(Sum(sizes), |Encode(v)|)]
    ensures eof <==> sizes != [] && Sum(sizes) >= |Encode(v)|
  {
    var size, r := EncodeToReader(v);
    out, eof := [], false;
    for i := 0 to |sizes|
      invariant r.Valid() && fresh(r) && (r.buf != null ==> fresh(r.buf) && fresh(r.buf.sizebuf))
      invariant |out| == Min(Sum(sizes[..i]), |Encode(v)|)
      invariant out + r.Remaining() == Encode(v)
      invariant eof <==> i > 0 && r.Remaining() == []
    {
      assert sizes[..i + 1][..i] == sizes[..i];
      var b := new byte[sizes[i]](_ => 0);
      var n;
      n, eof := r.Read(b);
      Assoc(out, b[..n], r.Remaining());
      out := out + b[..n];
    }
    assert sizes[..|sizes|] == sizes;
  }
}
