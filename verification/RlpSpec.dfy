/**
  The recursive definition of RLP (Appendix B of the Ethereum Yellow Paper) over abstract values, and
  what makes it decodable: no encoding is a proper prefix of another one.
  */
module RlpSpec {
  import opened Bytes

  /** What an `interface{}` holds in the codec: a byte string or a list of values. */
  datatype Value = Str(s: seq<byte>) | List(items: seq<Value>)

  const STRING_SMALL: byte := 0x80
  const STRING_LARGE: byte := 0xB7
  const LIST_SMALL: byte := 0xC0
  const LIST_LARGE: byte := 0xF7

  /** A string or list header. Tags are bytes, so the addition wraps; it does not for sizes below 2^64. */
  function Header(small: byte, large: byte, size: nat): (h: seq<byte>)
    ensures |h| == HeadSize(size)
  {
    if size < 56 then [(small + size) % 256]
    else [(large + |BigEndian(size)|) % 256] + BigEndian(size)
  }

  function HeadSize(size: nat): nat {
    if size < 56 then 1 else 1 + |BigEndian(size)|
  }

  /**
    What a header is: for up to 55 bytes, the base plus the size; for more, the base plus 55 plus the number of bytes
    that the size takes, and the size, big-endian without a leading zero.
    */
  ghost predicate IsHeader(h: seq<byte>, base: byte, size: nat) {
    if size <= 55 then |h| == 1 && h[0] == base as int + size
    else |h| >= 2 && h[0] == base as int + 55 + (|h| - 1) && h[1] != 0 && Number(h[1..]) == size
  }

  /** The encoder's headers are these, and no others. */
  lemma HeaderExact(small: byte, large: byte, size: nat, h: seq<byte>)
    requires (small == STRING_SMALL && large == STRING_LARGE) || (small == LIST_SMALL && large == LIST_LARGE)
    requires size < UINT64_LIMIT
    ensures IsHeader(h, if small == STRING_SMALL then 0x80 else 0xC0, size) <==> h == Header(small, large, size)
  {
    hide Number;
    BigEndianLengthUint64(size);
    if size > 55 {
      BigEndianHead(size);
      NumberOfBigEndian(size);
      if |h| >= 2 && h[1] != 0 && Number(h[1..]) == size {
        BigEndianOfNumber(h[1..]);
        assert h == [h[0]] + h[1..];
      }
      var b := BigEndian(size);
      assert ([(large + |b|) % 256] + b)[1..] == b;
    }
  }

  function EncodeString(s: seq<byte>): (e: seq<byte>)
    ensures |e| >= 1 && |e| >= |s|
  {
    if |s| == 1 && s[0] <= 0x7F then s else Header(STRING_SMALL, STRING_LARGE, |s|) + s
  }

  function Encode(v: Value): (e: seq<byte>)
    ensures |e| >= 1
    decreases v, 1
  {
    match v
    case Str(s) => EncodeString(s)
    case List(items) => Header(LIST_SMALL, LIST_LARGE, |EncodeAll(items)|) + EncodeAll(items)
  }

  function EncodeAll(vs: seq<Value>): seq<byte>
    decreases vs, 0
  {
    if vs == [] then [] else Encode(vs[0]) + EncodeAll(vs[1..])
  }

  lemma {:induction false} EncodeAllAppend(vs: seq<Value>, ws: seq<Value>)
    ensures EncodeAll(vs + ws) == EncodeAll(vs) + EncodeAll(ws)
  {
    if vs == [] {
      assert vs + ws == ws;
    } else {
      EncodeAllAppend(vs[1..], ws);
      assert (vs + ws)[1..] == vs[1..] + ws;
    }
  }

  lemma EncodeAllSingle(v: Value)
    ensures EncodeAll([v]) == Encode(v)
  {
    assert [v][1..] == [];
  }

  /**
    What an encoding is: a byte below 0x80 on its own; any other string behind a header from 0x80 on; a list's items, in
    their order, behind a header from 0xC0 on.
    */
  lemma EncodeIs(v: Value, e: seq<byte>)
    requires |Encode(v)| < UINT64_LIMIT
    ensures e == Encode(v) <==>
              match v
              case Str(s) =>
                if |s| == 1 && s[0] < 0x80 then e == s
                else |s| <= |e| && e[|e| - |s|..] == s && IsHeader(e[..|e| - |s|], 0x80, |s|)
              case List(items) =>
                var p := EncodeAll(items);
                |p| <= |e| && e[|e| - |p|..] == p && IsHeader(e[..|e| - |p|], 0xC0, |p|)
  {
    hide Header, IsHeader;
    var p := if v.Str? then v.s else EncodeAll(v.items);
    var small, large := if v.Str? then STRING_SMALL else LIST_SMALL, if v.Str? then STRING_LARGE else LIST_LARGE;
    if |p| <= |e| {
      assert e == e[..|e| - |p|] + e[|e| - |p|..];
      HeaderExact(small, large, |p|, e[..|e| - |p|]);
    }
    var h := Header(small, large, |p|);
    assert (h + p)[..|h|] == h && (h + p)[|h|..] == p;
  }

  /** The examples of the specification: "dog", the list of "cat" and "dog", and the empty string and list. */
  lemma EncodeExamples()
    ensures Encode(Str([])) == [0x80] && Encode(List([])) == [0xC0] && Encode(Str([0x0F])) == [0x0F]
    ensures Encode(Str([0x64, 0x6F, 0x67])) == [0x83, 0x64, 0x6F, 0x67]
    ensures Encode(List([Str([0x63, 0x61, 0x74]), Str([0x64, 0x6F, 0x67])]))
         == [0xC8, 0x83, 0x63, 0x61, 0x74, 0x83, 0x64, 0x6F, 0x67]
    ensures Header(STRING_SMALL, STRING_LARGE, 1024) == [0xB9, 0x04, 0x00]
  {
    var cat, dog := Str([0x63, 0x61, 0x74]), Str([0x64, 0x6F, 0x67]);
    assert Encode(cat) == [0x83, 0x63, 0x61, 0x74] && Encode(dog) == [0x83, 0x64, 0x6F, 0x67];
    EncodeAllSingle(dog);
    assert [cat, dog][1..] == [dog];
    assert EncodeAll([cat, dog]) == [0x83, 0x63, 0x61, 0x74, 0x83, 0x64, 0x6F, 0x67];
    assert EncodeAll([]) == [];
    assert BigEndian(1024) == BigEndian(4) + [0];
  }

  /** Headers of one family can be told apart, whatever follows them. */
  lemma HeaderPrefixFree(small: byte, large: byte, m: nat, n: nat, x: seq<byte>, y: seq<byte>)
    requires (small == STRING_SMALL && large == STRING_LARGE) || (small == LIST_SMALL && large == LIST_LARGE)
    requires m < UINT64_LIMIT && n < UINT64_LIMIT
    requires Header(small, large, m) + x == Header(small, large, n) + y
    ensures m == n && x == y
  {
    var a, b := Header(small, large, m), Header(small, large, n);
    BigEndianLengthUint64(m);
    BigEndianLengthUint64(n);
    assert a[0] == (a + x)[0] == (b + y)[0] == b[0];
    assert |a| == |b|;
    assert a == (a + x)[..|a|] && b == (b + y)[..|b|];
    assert x == (a + x)[|a|..] && y == (b + y)[|b|..];
    if m >= 56 {
      assert BigEndian(m) == a[1..] && BigEndian(n) == b[1..];
      NumberOfBigEndian(m);
      NumberOfBigEndian(n);
    }
  }

  /** The range of the first byte of an encoding tells its kind. */
  lemma FirstByte(v: Value)
    requires |Encode(v)| < UINT64_LIMIT
    ensures v.List? <==> Encode(v)[0] >= 0xC0
    ensures Encode(v)[0] < 0x80 <==> v.Str? && |v.s| == 1 && v.s[0] < 0x80
  {
    BigEndianLengthUint64(if v.Str? then |v.s| else |EncodeAll(v.items)|);
  }

  /** RLP is prefix free: two encodings that start the same input are encodings of the same value. */
  lemma {:induction false} PrefixFree(a: Value, b: Value, x: seq<byte>, y: seq<byte>)
    requires |Encode(a)| < UINT64_LIMIT && |Encode(b)| < UINT64_LIMIT
    requires Encode(a) + x == Encode(b) + y
    ensures a == b && x == y
    decreases a, 1
  {
    FirstByte(a);
    FirstByte(b);
    assert Encode(a)[0] == (Encode(a) + x)[0] == (Encode(b) + y)[0] == Encode(b)[0];
    if Encode(a)[0] < 0x80 {
      assert a.s == (Encode(a) + x)[..1] && b.s == (Encode(b) + y)[..1];
      assert x == (Encode(a) + x)[1..] && y == (Encode(b) + y)[1..];
    } else {
      var small := if a.Str? then STRING_SMALL else LIST_SMALL;
      var large := if a.Str? then STRING_LARGE else LIST_LARGE;
      var p := if a.Str? then a.s else EncodeAll(a.items);
      var q := if b.Str? then b.s else EncodeAll(b.items);
      assert Encode(a) + x == Header(small, large, |p|) + (p + x);
      assert Encode(b) + y == Header(small, large, |q|) + (q + y);
      HeaderPrefixFree(small, large, |p|, |q|, p + x, q + y);
      assert p == (p + x)[..|p|] && q == (q + y)[..|q|];
      assert x == (p + x)[|p|..] && y == (q + y)[|q|..];
      if a.List? {
        EncodeAllInjective(a.items, b.items);
      }
    }
  }

  /** A list payload splits into items in one way only. */
  lemma {:induction false} EncodeAllInjective(vs: seq<Value>, ws: seq<Value>)
    requires EncodeAll(vs) == EncodeAll(ws)
    requires |EncodeAll(vs)| < UINT64_LIMIT
    ensures vs == ws
    decreases vs, 0
  {
    if vs != [] && ws != [] {
      PrefixFree(vs[0], ws[0], EncodeAll(vs[1..]), EncodeAll(ws[1..]));
      EncodeAllInjective(vs[1..], ws[1..]);
      assert vs == [vs[0]] + vs[1..] && ws == [ws[0]] + ws[1..];
    }
  }
}
