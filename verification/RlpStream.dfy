/**
  The RLP decoder: a stream over an input with an optional limit, a cached header and a stack of open lists.
  Decoding accepts an input exactly when it is the encoding of a value, and then yields that value.
  */
module RlpStream {
  import opened Bytes
  import opened RlpSpec
  import RlpEncode
  import opened Wrappers

  datatype Kind = ByteKind | StringKind | ListKind

  datatype Error =
    | EOL | EOF | UnexpectedEOF
    | ExpectedString | ExpectedList
    | CanonInt | CanonSize
    | ElemTooLarge | ValueTooLarge | MoreThanOneValue
    | NotInList | NotAtEOL | UintOverflow | InvalidBool

  // ----- headers -----

  /** A header that was read: `length` bytes long, announcing `size` bytes of content. */
  datatype Head = Head(kind: Kind, length: nat, size: nat, byteval: byte)

  /** The canonical header at the start of w, if there is one. */
  function ParseHead(w: seq<byte>): Option<Head> {
    if w == [] then None
    else if w[0] < 0x80 then Some(Head(ByteKind, 1, 0, w[0]))
    else if w[0] < 0xB8 then Some(Head(StringKind, 1, w[0] - 0x80, 0))
    else if w[0] < 0xC0 then ParseLongHead(w, w[0] - 0xB7, StringKind)
    else if w[0] < 0xF8 then Some(Head(ListKind, 1, w[0] - 0xC0, 0))
    else ParseLongHead(w, w[0] - 0xF7, ListKind)
  }

  function ParseLongHead(w: seq<byte>, sizesize: nat, kind: Kind): Option<Head>
    requires 1 <= sizesize <= 8
  {
    if |w| < 1 + sizesize then None
    else
      var size := Number(w[1..1 + sizesize]);
      if (sizesize > 1 && w[1] == 0) || size < 56 then None
      else Some(Head(kind, 1 + sizesize, size, 0))
  }

  /** The header bytes that announce a head. */
  function HeadBytes(h: Head): seq<byte> {
    match h.kind
    case ByteKind => [h.byteval]
    case StringKind => Header(STRING_SMALL, STRING_LARGE, h.size)
    case ListKind => Header(LIST_SMALL, LIST_LARGE, h.size)
  }

  /** Only the canonical header is accepted: writing it out again gives the bytes that were read. */
  lemma ParseHeadSound(w: seq<byte>)
    ensures match ParseHead(w)
            case None => true
            case Some(h) =>
              && 1 <= h.length <= |w|
              && h.size < UINT64_LIMIT
              && (h.kind == ByteKind ==> h.size == 0 && h.byteval < 0x80)
              && w[..h.length] == HeadBytes(h)
  {
    hide Number, BigEndian, ParseLongHead;
    if ParseHead(w).Some? {
      if 0xB8 <= w[0] < 0xC0 {
        LongHeadSound(w, w[0] - 0xB7, StringKind);
      } else if w[0] >= 0xF8 {
        LongHeadSound(w, w[0] - 0xF7, ListKind);
      } else {
        assert w[..1] == [w[0]];
      }
    }
  }

  lemma LongHeadSound(w: seq<byte>, sizesize: nat, kind: Kind)
    requires 1 <= sizesize <= 8 && ParseLongHead(w, sizesize, kind).Some?
    ensures var h := ParseLongHead(w, sizesize, kind).value;
            && h.kind == kind && h.length == 1 + sizesize <= |w| && 56 <= h.size < UINT64_LIMIT
            && BigEndian(h.size) == w[1..1 + sizesize] && w[..h.length] == [w[0]] + BigEndian(h.size)
  {
    hide Number, BigEndian, Pow256;
    var digits := w[1..1 + sizesize];
    NumberBound(digits);
    Pow256Of8();
    Pow256Monotone(|digits|, 8);
    BigEndianOfNumber(digits);
    assert w[..1 + sizesize] == [w[0]] + digits;
  }

  /** The head of a value's encoding. */
  function HeadOf(v: Value): Head {
    match v
    case Str(s) =>
      if |s| == 1 && s[0] <= 0x7F then Head(ByteKind, 1, 0, s[0])
      else Head(StringKind, HeadSize(|s|), |s|, 0)
    case List(items) => Head(ListKind, HeadSize(|EncodeAll(items)|), |EncodeAll(items)|, 0)
  }

  /** What follows the head in a value's encoding. */
  function Content(v: Value): seq<byte> {
    match v
    case Str(s) => if |s| == 1 && s[0] <= 0x7F then [] else s
    case List(items) => EncodeAll(items)
  }

  lemma EncodeParts(v: Value)
    requires |Encode(v)| < UINT64_LIMIT
    ensures |Content(v)| == HeadOf(v).size
    ensures HeadOf(v).length == |HeadBytes(HeadOf(v))|
    ensures Encode(v) == HeadBytes(HeadOf(v)) + Content(v)
  {
  }

  /** A header in front of anything is found again. */
  lemma ParseHeadComplete(small: byte, large: byte, size: nat, rest: seq<byte>)
    requires (small == STRING_SMALL && large == STRING_LARGE) || (small == LIST_SMALL && large == LIST_LARGE)
    requires size < UINT64_LIMIT
    ensures ParseHead(Header(small, large, size) + rest)
         == Some(Head(if small == STRING_SMALL then StringKind else ListKind, HeadSize(size), size, 0))
  {
    hide Number, BigEndian, Pow256;
    var w := Header(small, large, size) + rest;
    if size >= 56 {
      BigEndianLengthUint64(size);
      NumberOfBigEndian(size);
      BigEndianHead(size);
      assert w[1..1 + |BigEndian(size)|] == BigEndian(size);
      assert w[0] == large + |BigEndian(size)|;
    } else {
      assert w[0] == small + size;
    }
  }

  /** An input that starts with an encoding has that encoding's head. */
  lemma ParseHeadOfValue(v: Value, w: seq<byte>)
    requires |Encode(v)| < UINT64_LIMIT && Encode(v) <= w
    ensures ParseHead(w) == Some(HeadOf(v))
    ensures HeadOf(v).length + HeadOf(v).size == |Encode(v)|
    ensures w[HeadOf(v).length..|Encode(v)|] == Content(v)
  {
    hide Encode, EncodeAll, Header, ParseHead;
    EncodeParts(v);
    var h := HeadOf(v);
    var rest := w[h.length..];
    assert w == HeadBytes(h) + rest;
    if h.kind == ByteKind {
      SingleByteHead(h.byteval, w);
    } else {
      ParseHeadComplete(if v.Str? then STRING_SMALL else LIST_SMALL, if v.Str? then STRING_LARGE else LIST_LARGE,
                        h.size, rest);
    }
  }

  lemma SingleByteHead(b: byte, w: seq<byte>)
    requires b < 0x80 && [b] <= w
    ensures ParseHead(w) == Some(Head(ByteKind, 1, 0, b))
  {
  }

  // ----- where the stream is -----

  /** How far into a list the stream is, and the list's declared size. */
  datatype ListPos = ListPos(pos: nat, size: nat)

  /** The input position of a stream, without its cached header. */
  datatype Cursor = Cursor(unread: seq<byte>, limited: bool, remaining: nat, stack: seq<ListPos>)

  /** Every frame keeps pos <= size, and its unread part covers the list nested in it. */
  ghost predicate Frames(stack: seq<ListPos>) {
    && (forall k :: 0 <= k < |stack| ==> stack[k].pos <= stack[k].size < UINT64_LIMIT)
    && (forall k :: 0 < k < |stack| ==> stack[k].size <= stack[k - 1].size - stack[k - 1].pos)
  }

  function Top(stack: seq<ListPos>): ListPos
    requires stack != []
  {
    stack[|stack| - 1]
  }

  /** The stack after reading n bytes of the innermost list. */
  function Bump(stack: seq<ListPos>, n: nat): seq<ListPos> {
    if stack == [] then [] else stack[|stack| - 1 := ListPos(Top(stack).pos + n, Top(stack).size)]
  }

  /** How many bytes can be read from here. */
  function Room(c: Cursor): (r: nat)
    requires c.stack != [] ==> Top(c.stack).pos <= Top(c.stack).size
    ensures r <= |c.unread|
  {
    var a := if c.limited then Min(|c.unread|, c.remaining) else |c.unread|;
    if c.stack == [] then a else Min(a, Top(c.stack).size - Top(c.stack).pos)
  }

  /** The bytes that can be read from here. */
  function Window(c: Cursor): (w: seq<byte>)
    requires c.stack != [] ==> Top(c.stack).pos <= Top(c.stack).size
    ensures |w| == Room(c)
  {
    c.unread[..Room(c)]
  }

  function Advance(c: Cursor, n: nat): Cursor
    requires c.stack != [] ==> Top(c.stack).pos <= Top(c.stack).size
    requires n <= Room(c)
  {
    Cursor(c.unread[n..], c.limited, if c.limited then c.remaining - n else c.remaining, Bump(c.stack, n))
  }

  /** Why n bytes cannot be read from here: the list ends before, or the input limit does, or the input. */
  function ReadError(c: Cursor, n: nat): Error {
    if c.stack != [] && Top(c.stack).pos + n > Top(c.stack).size then ElemTooLarge
    else if c.limited && n > c.remaining then ValueTooLarge
    else UnexpectedEOF
  }

  /** How many bytes of size follow the tag. */
  function SizeBytes(tag: byte): nat {
    if 0xB8 <= tag < 0xC0 then tag - 0xB7 else if 0xF8 <= tag then tag - 0xF7 else 0
  }

  /** Why no header can be read from here. At the top, running out of input is not unexpected. */
  function HeadError(c: Cursor): (e: Error)
    requires c.stack != [] ==> Top(c.stack).pos <= Top(c.stack).size
    ensures e != EOL && e != MoreThanOneValue
  {
    if Room(c) == 0 then (if c.stack == [] then EOF else ReadError(c, 1))
    else if 1 + SizeBytes(c.unread[0]) > Room(c) then ReadError(Advance(c, 1), SizeBytes(c.unread[0]))
    else CanonSize
  }

  /** Why no item can be read from here: it has no header, or one that announces more than the list or input holds. */
  function ItemError(c: Cursor): Error
    requires c.stack != [] ==> Top(c.stack).pos <= Top(c.stack).size
  {
    if ParseHead(Window(c)).None? then HeadError(c) else if c.stack == [] then ValueTooLarge else ElemTooLarge
  }

  lemma AdvanceZero(c: Cursor)
    requires c.stack != [] ==> Top(c.stack).pos <= Top(c.stack).size
    ensures Advance(c, 0) == c
  {
  }

  lemma AdvanceWindow(c: Cursor, n: nat)
    requires c.stack != [] ==> Top(c.stack).pos <= Top(c.stack).size
    requires n <= Room(c)
    ensures var d := Advance(c, n);
            && |d.stack| == |c.stack|
            && (d.stack != [] ==> Top(d.stack).pos <= Top(d.stack).size)
            && Window(d) == Window(c)[n..]
  {
  }

  lemma AdvanceTwice(c: Cursor, m: nat, n: nat)
    requires c.stack != [] ==> Top(c.stack).pos <= Top(c.stack).size
    requires m + n <= Room(c)
    ensures var d := Advance(c, m);
            && (d.stack != [] ==> Top(d.stack).pos <= Top(d.stack).size)
            && n <= Room(d)
            && Advance(d, n) == Advance(c, m + n)
  {
    AdvanceWindow(c, m);
  }

  /** What can be read behind a header, and where that leads. */
  lemma BehindHead(c: Cursor, length: nat, size: nat)
    requires c.stack != [] ==> Top(c.stack).pos <= Top(c.stack).size
    requires length <= Room(c)
    ensures var w, d := Window(c), Advance(c, length);
            && (d.stack != [] ==> Top(d.stack).pos <= Top(d.stack).size)
            && Window(d) == w[length..] && Advance(d, 0) == d && |d.unread| == |c.unread| - length
            && (size <= |w| - length ==>
                  && Advance(d, size) == Advance(c, length + size)
                  && w[length..][..size] == w[length..length + size])
  {
    hide Window;
    AdvanceWindow(c, length);
    AdvanceZero(Advance(c, length));
    if size <= Room(c) - length {
      AdvanceTwice(c, length, size);
    }
  }

  /** w starts with the encoding of v. */
  ghost predicate Starts(v: Value, w: seq<byte>) {
    |Encode(v)| < UINT64_LIMIT && Encode(v) <= w
  }

  /** No value starts here: either there is no canonical header or its content does not fit. */
  ghost predicate NoItem(w: seq<byte>) {
    ParseHead(w).None? || ParseHead(w).value.length + ParseHead(w).value.size > |w|
  }

  lemma NoItemNoValue(w: seq<byte>)
    requires NoItem(w)
    ensures forall v :: !Starts(v, w)
  {
    forall v
      ensures !Starts(v, w)
    {
      if Starts(v, w) {
        ParseHeadOfValue(v, w);
      }
    }
  }

  class Stream {
    var unread: seq<byte>       // what the input reader has left
    var limited: bool           // whether there is an input limit
    var remaining: nat          // number of bytes remaining to be read, if limited
    var kind: Option<Kind>      // kind of the value ahead, none if it has to be read
    var size: nat               // size of the value ahead
    var byteval: byte           // value of a single byte in the type tag
    var kinderr: Option<Error>  // error from the last header
    var stack: seq<ListPos>     // the open lists

    ghost predicate Sane()
      reads this
    {
      Frames(stack) && size < UINT64_LIMIT
    }

    /** The value ahead fits into the list it is in, or into the input. */
    ghost predicate Fits()
      requires Sane()
      reads this
    {
      if stack == [] then limited ==> size <= remaining else size <= Top(stack).size - Top(stack).pos
    }

    ghost predicate Ahead()
      reads this
    {
      kind.Some? && kinderr.None?
    }

    ghost predicate Valid()
      reads this
    {
      && Sane()
      && (Ahead() ==> Fits())
      && (Ahead() && kind.value == ByteKind ==> size == 0 && byteval < 0x80)
    }

    ghost function At(): Cursor
      reads this
    {
      Cursor(unread, limited, remaining, stack)
    }

    ghost function View(): seq<byte>
      requires Sane()
      reads this
    {
      Window(At())
    }

    ghost predicate AtEnd()
      reads this
    {
      stack != [] && Top(stack).pos == Top(stack).size
    }

    /** A stream over `input`. A limit of zero means the length of the input, as for a `bytes.Reader`. */
    constructor (input: seq<byte>, inputLimit: nat)
      ensures Valid() && kind.None? && stack == [] && limited && unread == input
      ensures remaining == if inputLimit > 0 then inputLimit else |input|
    {
      unread, limited := input, true;
      remaining := if inputLimit > 0 then inputLimit else |input|;
      kind, size, byteval, kinderr, stack := None, 0, 0, None, [];
    }

    /** A stream over an input whose length is not known. */
    constructor Unlimited(input: seq<byte>)
      ensures Valid() && kind.None? && stack == [] && !limited && unread == input
    {
      unread, limited, remaining := input, false, 0;
      kind, size, byteval, kinderr, stack := None, 0, 0, None, [];
    }

    /** A stream that pretends to be positioned at an encoded list of the given length. */
    constructor ListStream(input: seq<byte>, len: nat)
      requires len < UINT64_LIMIT
      ensures Valid() && kind == Some(ListKind) && kinderr.None? && size == len && stack == []
      ensures unread == input && limited && remaining == if len > 0 then len else |input|
    {
      unread, limited := input, true;
      remaining := if len > 0 then len else |input|;
      kind, size, byteval, kinderr, stack := Some(ListKind), len, 0, None, [];
    }

    /** Accounts for n bytes about to be read. The unsigned subtractions here never wrap. */
    method WillRead(n: nat) returns (e: Option<Error>)
      requires Sane()
      modifies this`kind, this`stack, this`remaining
      ensures Sane() && kind.None?
      ensures e.None? ==> stack == Bump(old(stack), n)
      ensures e.None? ==> if limited then n <= old(remaining) && remaining == old(remaining) - n
                          else remaining == old(remaining)
      ensures e.None? && old(stack) != [] ==> n <= Top(old(stack)).size - Top(old(stack)).pos
      ensures e.Some? ==> n > Room(old(At())) && e.value == ReadError(old(At()), n)
      ensures e.None? ==> ReadError(old(At()), n) == UnexpectedEOF
      ensures |stack| == |old(stack)|
    {
      kind := None;
      if stack != [] {
        var left: nat := Top(stack).size - Top(stack).pos;
        if n > left {
          return Some(ElemTooLarge);
        }
        stack := Bump(stack, n);
      }
      if limited {
        if n > remaining {
          return Some(ValueTooLarge);
        }
        remaining := remaining - n;
      }
      return None;
    }

    method ReadFull(n: nat) returns (r: Result<seq<byte>, Error>)
      requires Sane()
      modifies this`unread, this`kind, this`stack, this`remaining
      ensures Sane() && kind.None?
      ensures r.Ok? <==> n <= |old(View())|
      ensures r.Ok? ==> r.value == old(View())[..n] && At() == Advance(old(At()), n)
      ensures r.Err? ==> r.error == ReadError(old(At()), n)
    {
      var e := WillRead(n);
      if e.Some? {
        return Err(e.value);
      }
      if |unread| < n {
        unread := [];
        return Err(UnexpectedEOF);
      }
      r := Ok(unread[..n]);
      unread := unread[n..];
    }

    method ReadByte() returns (r: Result<byte, Error>)
      requires Sane()
      modifies this`unread, this`kind, this`stack, this`remaining
      ensures Sane() && kind.None?
      ensures r.Ok? <==> old(View()) != []
      ensures r.Ok? ==> r.value == old(View())[0] && At() == Advance(old(At()), 1)
      ensures r.Err? ==> r.error == ReadError(old(At()), 1) && |stack| == |old(stack)|
    {
      var e := WillRead(1);
      if e.Some? {
        return Err(e.value);
      }
      if |unread| == 0 {
        return Err(UnexpectedEOF);
      }
      r := Ok(unread[0]);
      unread := unread[1..];
    }

    /** A big-endian number of the given length without a leading zero byte (one byte may be zero). */
    method ReadUint(n: nat) returns (r: Result<nat, Error>)
      requires Sane() && n <= 8
      modifies this`unread, this`kind, this`stack, this`remaining
      ensures Sane() && kind.None?
      ensures r.Ok? <==> n <= |old(View())| && !(n > 1 && old(View())[0] == 0)
      ensures r.Ok? ==> r.value == Number(old(View())[..n]) < UINT64_LIMIT && At() == Advance(old(At()), n)
      ensures r.Err? ==> r.error == if n <= |old(View())| then CanonSize else ReadError(old(At()), n)
    {
      Pow256Of8();
      if n == 0 {
        AdvanceZero(At());
        kind := None;
        return Ok(0);
      } else if n == 1 {
        var b := ReadByte();
        if b.Err? {
          return Err(b.error);
        }
        assert old(View())[..1] == [b.value];
        return Ok(b.value);
      } else {
        var buf := ReadFull(n);
        if buf.Err? {
          return Err(buf.error);
        }
        if buf.value[0] == 0 {
          return Err(CanonSize);
        }
        NumberBound(buf.value);
        Pow256Monotone(n, 8);
        return Ok(Number(buf.value));
      }
    }

    /** The size bytes of a long header, after its tag byte. */
    method ReadLongSize(sizesize: nat) returns (r: Result<nat, Error>)
      requires Sane() && 1 <= sizesize <= 8
      modifies this`unread, this`kind, this`stack, this`remaining
      ensures Sane() && kind.None?
      ensures r.Ok? <==> && sizesize <= |old(View())| && !(sizesize > 1 && old(View())[0] == 0)
                         && Number(old(View())[..sizesize]) >= 56
      ensures r.Ok? ==> r.value == Number(old(View())[..sizesize]) < UINT64_LIMIT
      ensures r.Ok? ==> At() == Advance(old(At()), sizesize)
      ensures r.Err? ==> r.error == if sizesize <= |old(View())| then CanonSize else ReadError(old(At()), sizesize)
    {
      r := ReadUint(sizesize);
      if r.Ok? && r.value < 56 {
        r := Err(CanonSize);
      }
    }

    /** Reads a header. It succeeds exactly when there is a canonical one. */
    method ReadKind() returns (k: Kind, n: nat, e: Option<Error>)
      requires Sane()
      modifies this`unread, this`kind, this`stack, this`remaining, this`byteval
      ensures Sane() && kind.None? && n < UINT64_LIMIT
      ensures e.None? <==> ParseHead(old(View())).Some?
      ensures e.None? ==> var h := ParseHead(old(View())).value;
                          && k == h.kind && n == h.size && byteval == h.byteval
                          && h.length <= |old(View())|
                          && At() == Advance(old(At()), h.length)
      ensures e.Some? ==> e.value == HeadError(old(At()))
    {
      hide Number, Advance;
      ghost var start, w := At(), View();
      var b := ReadByte();
      if b.Err? {
        var err := b.error;
        if |stack| == 0 && (err == UnexpectedEOF || err == ValueTooLarge) {
          err := EOF;
        }
        return ByteKind, 0, Some(err);
      }
      AdvanceWindow(start, 1);
      byteval := 0;
      var tag := b.value;
      if tag < 0x80 {
        byteval := tag;
        return ByteKind, 0, None;
      } else if tag < 0xB8 {
        return StringKind, tag - 0x80, None;
      } else if tag < 0xC0 {
        k := StringKind;
      } else if tag < 0xF8 {
        return ListKind, tag - 0xC0, None;
      } else {
        k := ListKind;
      }
      var sizesize := if k == StringKind then tag - 0xB7 else tag - 0xF7;
      if sizesize <= |w| - 1 {
        assert w[1..][..sizesize] == w[1..1 + sizesize];
        AdvanceTwice(start, 1, sizesize);
      }
      var r := ReadLongSize(sizesize);
      if r.Err? {
        return k, 0, Some(r.error);
      }
      return k, r.value, None;
    }

    /** The kind and size of the value ahead. The header is read once and then cached, and so is an error. */
    method Peek() returns (k: Kind, n: nat, e: Option<Error>)
      requires Valid()
      modifies this`unread, this`kind, this`stack, this`remaining, this`byteval, this`size, this`kinderr
      ensures Valid()
      ensures e.None? ==> Ahead() && k == kind.value && n == size
      ensures old(kind).Some? ==> At() == old(At()) && kind == old(kind) && size == old(size)
                                  && byteval == old(byteval) && kinderr == old(kinderr) && e == kinderr
      ensures old(kind).None? ==> (e == Some(EOL) <==> old(AtEnd()))
      ensures e == Some(EOL) && old(kind).None? ==> At() == old(At()) && kind.None?
      ensures old(kind).None? && e.Some? && e != Some(EOL) ==> NoItem(old(View())) && e.value == ItemError(old(At()))
      ensures old(kind).None? && e.None? ==>
                var h := ParseHead(old(View()));
                h.Some? && h.value.length <= |old(View())| && h.value == Head(k, h.value.length, n, byteval)
                && At() == Advance(old(At()), h.value.length)
    {
      hide ParseHead, Header, HeadBytes, NoItem, Advance, Window, Room;
      if kind.None? {
        kinderr := None;
        if stack != [] && Top(stack).pos == Top(stack).size {
          return ByteKind, 0, Some(EOL);
        }
        FetchHead();
      }
      return kind.value, size, kinderr;
    }

    /** Reads the header ahead and checks its size against the room that is left. */
    method FetchHead()
      requires Valid() && kind.None? && kinderr.None? && !AtEnd()
      modifies this`unread, this`kind, this`stack, this`remaining, this`byteval, this`size, this`kinderr
      ensures Valid() && kind.Some? && kinderr != Some(EOL)
      ensures kinderr.Some? ==> NoItem(old(View())) && kinderr.value == ItemError(old(At()))
      ensures kinderr.None? ==>
                && Ahead()
                && var h := ParseHead(old(View()));
                   h.Some? && h.value.length <= |old(View())| && h.value == Head(kind.value, h.value.length, size, byteval)
                   && At() == Advance(old(At()), h.value.length)
    {
      hide ParseHead, Header, HeadBytes;
      ghost var w := View();
      var k, n, e := ReadKind();
      kind, size, kinderr := Some(k), n, e;
      if kinderr.None? {
        ParseHeadSound(w);
        if stack == [] {
          if limited && size > remaining {
            kinderr := Some(ValueTooLarge);
          }
        } else {
          var left: nat := Top(stack).size - Top(stack).pos;
          if size > left {
            kinderr := Some(ElemTooLarge);
          }
        }
      }
    }

    /** The string whose header is cached. */
    method TakeString() returns (r: Result<seq<byte>, Error>)
      requires Valid() && Ahead()
      modifies this`unread, this`kind, this`stack, this`remaining
      ensures Valid()
      ensures old(kind.value) == ByteKind ==> r == Ok([byteval]) && At() == old(At()) && kind.None?
      ensures old(kind.value) == StringKind ==>
                && (r.Ok? <==> old(size) <= |old(View())| && !(old(size) == 1 && old(View())[0] < 0x80))
                && (r.Ok? ==> r.value == old(View())[..old(size)] && At() == Advance(old(At()), old(size)) && kind.None?)
                && (r.Err? ==> r.error == if old(size) <= |old(View())| then CanonSize else ReadError(old(At()), old(size)))
      ensures old(kind.value) == ListKind ==> r == Err(ExpectedString) && At() == old(At()) && kind == old(kind)
    {
      match kind.value
      case ByteKind =>
        kind := None;
        return Ok([byteval]);
      case StringKind =>
        r := ReadFull(size);
        if r.Ok? && size == 1 && r.value[0] < 0x80 {
          return Err(CanonSize);
        }
      case ListKind =>
        return Err(ExpectedString);
    }

    /** Reads a string. It succeeds exactly when the input continues with the encoding of one. */
    method ReadString() returns (r: Result<seq<byte>, Error>)
      requires Valid()
      modifies this
      ensures Valid()
      ensures old(kind).None? && r.Ok? ==>
                && Encode(Str(r.value)) <= old(View())
                && At() == Advance(old(At()), |Encode(Str(r.value))|) && kind.None?
      ensures old(kind).None? && r.Err? ==> forall s :: !Starts(Str(s), old(View()))
      ensures old(kind).Some? && old(kinderr).Some? ==> r == Err(old(kinderr).value) && At() == old(At())
      ensures old(Ahead()) && old(kind.value) == ByteKind ==> r == Ok([old(byteval)]) && At() == old(At()) && kind.None?
      ensures old(Ahead()) && old(kind.value) == StringKind ==>
                && (r.Ok? <==> old(size) <= |old(View())| && !(old(size) == 1 && old(View())[0] < 0x80))
                && (r.Ok? ==> r.value == old(View())[..old(size)] && At() == Advance(old(At()), old(size)) && kind.None?)
    {
      hide Encode, ParseHead, Starts, NoItem, Advance, ReadError, HeadError, ItemError, Room;
      ghost var start, w := At(), View();
      ghost var armed := kind.None?;
      var k, n, e := Peek();
      if e.Some? {
        EmptyAtEnd(start);
        if armed {
          NoStringHere(w, e.value == EOL);
        }
        return Err(e.value);
      }
      ghost var h := if armed then ParseHead(w).value else Head(k, 0, n, byteval);
      if armed {
        StringAt(w);
        BehindHead(start, h.length, h.size);
      }
      r := TakeString();
    }

    /** Reads a value without decoding it. The header is written anew, and equals the one that was read. */
    method Raw() returns (r: Result<seq<byte>, Error>)
      requires Valid()
      modifies this
      ensures Valid()
      ensures old(kind).None? && r.Ok? ==>
                && r.value <= old(View()) && At() == Advance(old(At()), |r.value|) && kind.None?
                && var h := ParseHead(old(View())); h.Some? && |r.value| == h.value.length + h.value.size
      ensures old(kind).None? && r.Err? ==> old(AtEnd()) || NoItem(old(View()))
      ensures old(kind).Some? && old(kinderr).Some? ==> r == Err(old(kinderr).value) && At() == old(At())
    {
      hide ParseHead, Header, NoItem, Advance, ReadError, HeadError, ItemError;
      ghost var start, w := At(), View();
      ghost var armed := kind.None?;
      var k, n, e := Peek();
      if e.Some? {
        return Err(e.value);
      }
      ghost var h := if armed then ParseHead(w).value else Head(k, 0, n, byteval);
      if armed {
        AdvanceWindow(start, h.length);
        RawAt(w);
      }
      if k == ByteKind {
        kind := None;
        return Ok([byteval]);
      }
      var content := ReadFull(n);
      if content.Err? {
        return Err(content.error);
      }
      if armed {
        AdvanceTwice(start, h.length, n);
      }
      if k == StringKind {
        return Ok(Header(STRING_SMALL, STRING_LARGE, n) + content.value);
      } else {
        return Ok(Header(LIST_SMALL, LIST_LARGE, n) + content.value);
      }
    }

    /** Starts decoding a list: its frame goes on the stack. */
    method OpenList() returns (r: Result<nat, Error>)
      requires Valid()
      modifies this
      ensures Valid()
      ensures old(Ahead()) && old(kind.value) == ListKind ==>
                r == Ok(old(size)) && At() == old(At()).(stack := old(stack) + [ListPos(0, old(size))]) && kind.None?
      ensures old(Ahead()) && old(kind.value) != ListKind ==> r == Err(ExpectedList) && At() == old(At())
      ensures old(kind).Some? && old(kinderr).Some? ==> r == Err(old(kinderr).value) && At() == old(At())
      ensures old(kind).None? && r.Ok? ==>
                var h := ParseHead(old(View()));
                && h.Some? && h.value.length <= |old(View())| && h.value.kind == ListKind && h.value.size == r.value
                && var c := Advance(old(At()), h.value.length);
                   At() == c.(stack := c.stack + [ListPos(0, r.value)]) && kind.None?
      ensures old(kind).None? && r.Err? ==>
                || old(AtEnd()) || NoItem(old(View()))
                || ParseHead(old(View())).value.kind != ListKind
      ensures r.Ok? && old(stack) == [] && limited ==> r.value <= remaining
    {
      hide ParseHead, NoItem, Room, Frames, ReadError, HeadError, ItemError;
      var k, n, e := Peek();
      if e.Some? {
        return Err(e.value);
      }
      if k != ListKind {
        return Err(ExpectedList);
      }
      EnterList(At(), n);
      stack := stack + [ListPos(0, n)];
      kind, size := None, 0;
      return Ok(n);
    }

    /** Returns to the enclosing list, whose position moves past the closed one and never past its size. */
    method CloseList() returns (e: Option<Error>)
      requires Valid()
      modifies this
      ensures Valid()
      ensures e == if old(stack) == [] then Some(NotInList) else if !old(AtEnd()) then Some(NotAtEOL) else None
      ensures e.Some? ==> At() == old(At()) && kind == old(kind)
      ensures e.None? ==>
                && At() == old(At()).(stack := Bump(old(stack)[..|old(stack)| - 1], Top(old(stack)).size))
                && kind.None?
    {
      if |stack| == 0 {
        return Some(NotInList);
      }
      var tos := Top(stack);
      if tos.pos != tos.size {
        return Some(NotAtEOL);
      }
      stack := Bump(stack[..|stack| - 1], tos.size);
      kind, size := None, 0;
      return None;
    }

    /** The number whose header is cached. */
    method TakeNumber(maxbits: nat) returns (r: Result<nat, Error>)
      requires Valid() && Ahead() && maxbits % 8 == 0 && 8 <= maxbits <= 64
      modifies this`unread, this`kind, this`stack, this`remaining
      ensures Valid()
      ensures old(kind.value) == ByteKind ==> (r.Ok? <==> byteval != 0) && (r.Err? ==> r.error == CanonInt)
      ensures old(kind.value) == ByteKind && r.Ok? ==> r.value == byteval && At() == old(At()) && kind.None?
      ensures old(kind.value) == StringKind ==>
                (r.Ok? <==>
                   && size <= maxbits / 8 && size <= |old(View())|
                   && !(size > 1 && old(View())[0] == 0) && !(size > 0 && Number(old(View())[..size]) < 128))
      ensures old(kind.value) == StringKind && r.Ok? ==>
                r.value == Number(old(View())[..size]) && At() == Advance(old(At()), size) && kind.None?
      ensures old(kind.value) == StringKind && r.Err? ==>
                r.error == if size > maxbits / 8 then UintOverflow
                           else if size > |old(View())| then ReadError(old(At()), size)
                           else if size > 1 && old(View())[0] == 0 then CanonInt else CanonSize
      ensures old(kind.value) == ListKind ==> r == Err(ExpectedString)
    {
      hide Number, Advance;
      match kind.value
      case ByteKind =>
        if byteval == 0 {
          return Err(CanonInt);
        }
        kind := None;
        return Ok(byteval);
      case StringKind =>
        if size > maxbits / 8 {
          return Err(UintOverflow);
        }
        var v := ReadUint(size);
        if v == Err(CanonSize) {
          return Err(CanonInt);
        } else if v.Err? {
          return v;
        } else if size > 0 && v.value < 128 {
          return Err(CanonSize);
        } else {
          return v;
        }
      case ListKind =>
        return Err(ExpectedString);
    }

    /** Reads an unsigned integer of at most `maxbits` bits: exactly the shortest big-endian strings. */
    method ReadNumber(maxbits: nat) returns (r: Result<nat, Error>)
      requires Valid() && maxbits % 8 == 0 && 8 <= maxbits <= 64
      modifies this
      ensures Valid()
      ensures old(kind).None? && r.Ok? ==>
                && r.value < Pow256(maxbits / 8)
                && Encode(NumberValue(r.value)) <= old(View())
                && At() == Advance(old(At()), |Encode(NumberValue(r.value))|) && kind.None?
      ensures old(kind).None? && r.Err? ==>
                forall n: nat :: n < Pow256(maxbits / 8) ==> !Starts(NumberValue(n), old(View()))
      ensures old(kind).Some? && old(kinderr).Some? ==> r == Err(old(kinderr).value) && At() == old(At())
    {
      hide Encode, ParseHead, Starts, NoItem, Number, NumberValue, Pow256, Advance, NumberIn, BigEndian, ReadError,
        HeadError, ItemError;
      ghost var start, w := At(), View();
      ghost var armed := kind.None?;
      var k, n, e := Peek();
      if e.Some? {
        if armed {
          NoNumberHere(w, e.value == EOL);
        }
        return Err(e.value);
      }
      ghost var h := if armed then ParseHead(w).value else Head(k, 0, n, byteval);
      if armed {
        NumberAt(w, maxbits / 8);
        NumberInIs(w, maxbits / 8);
        BehindHead(start, h.length, h.size);
      }
      r := TakeNumber(maxbits);
      if armed {
        assert r.Ok? <==> NumberIn(w, maxbits / 8).Some?;
      }
    }

    method ReadBool() returns (r: Result<bool, Error>)
      requires Valid()
      modifies this
      ensures Valid()
      ensures old(kind).None? && r.Ok? ==>
                var n := if r.value then 1 else 0;
                && Encode(NumberValue(n)) <= old(View())
                && At() == Advance(old(At()), |Encode(NumberValue(n))|) && kind.None?
      ensures old(kind).None? && r.Err? ==> forall n: nat :: n <= 1 ==> !Starts(NumberValue(n), old(View()))
      ensures forall n: nat :: 1 < n < 256 && old(kind).None? && Starts(NumberValue(n), old(View())) ==>
                r == Err(InvalidBool)
    {
      hide Encode, NumberValue, Advance, Starts;
      ghost var w, armed := View(), kind.None?;
      assert Pow256(1) == 256 * Pow256(0);
      var num := ReadNumber(8);
      if num.Err? {
        return Err(num.error);
      }
      if armed {
        OneNumber(num.value, w);
      }
      if num.value == 0 {
        return Ok(false);
      } else if num.value == 1 {
        return Ok(true);
      } else {
        return Err(InvalidBool);
      }
    }

    // ----- decoding into an interface value -----

    /** Decodes the list whose header is cached: exactly the sequences of items that fill its declared size. */
    method DecodeListSlice() returns (r: Result<seq<Value>, Error>)
      requires Valid() && Ahead() && kind.value == ListKind
      modifies this
      ensures Valid()
      ensures r.Ok? ==> |old(View())| >= old(size) && EncodeAll(r.value) == old(View())[..old(size)]
      ensures r.Ok? ==> At() == Advance(old(At()), old(size)) && kind.None?
      ensures r.Err? ==> r.error != EOL && r.error != MoreThanOneValue
      ensures r.Err? && |old(View())| >= old(size) ==> forall vs :: EncodeAll(vs) != old(View())[..old(size)]
      decreases |unread|, 2
    {
      hide EncodeAll, Encode, Frames, Window, Room;
      ghost var start, w, n := At(), View(), size;
      var entered := OpenList();
      EnterList(start, n);
      AdvanceZero(At());
      if entered.value == 0 {
        var e := CloseList();
        LeaveList(start, n);
        NothingEncoded();
        assert w[..0] == [];
        return Ok([]);
      }
      r := DecodeSliceElems(start, n);
      if r.Err? {
        return;
      }
      var e := CloseList();
      LeaveList(start, n);
    }

    /** Decodes items until the end of the list that was just opened. */
    method DecodeSliceElems(ghost start: Cursor, ghost n: nat) returns (r: Result<seq<Value>, Error>)
      requires Valid() && kind.None? && Frames(start.stack) && n < UINT64_LIMIT
      requires At() == start.(stack := start.stack + [ListPos(0, n)])
      modifies this
      ensures Valid()
      ensures r.Ok? ==> n <= Room(old(At())) && At() == Advance(old(At()), n) && kind.None?
      ensures r.Ok? ==> EncodeAll(r.value) == old(View())
      ensures r.Err? ==> r.error != EOL && r.error != MoreThanOneValue
      ensures r.Err? && |old(View())| == n ==> forall vs :: EncodeAll(vs) != old(View())
      decreases |unread|, 1
    {
      hide EncodeAll, Encode, Frames, Room, Starts;
      ghost var begin, w := At(), View();
      var vs: seq<Value> := [];
      NothingEncoded();
      AdvanceZero(begin);
      while true
        invariant Valid() && kind.None?
        invariant EncodeAll(vs) <= w
        invariant At() == Advance(begin, |EncodeAll(vs)|)
        invariant |unread| <= |old(unread)|
        decreases |unread|
      {
        ghost var done := |EncodeAll(vs)|;
        AdvanceWindow(begin, done);
        ghost var rest := View();
        assert rest == w[done..];
        if |w| == n {
          MoreInList(begin, n, done);
        }
        var v := DecodeInterface();
        if v == Err(EOL) {
          EndOfList(begin, n, done);
          return Ok(vs);
        } else if v.Err? {
          if |w| == n {
            StuckInList(vs, w);
          }
          return Err(v.error);
        }
        ghost var len := |Encode(v.value)|;
        NextItem(vs, v.value, w);
        AdvanceTwice(begin, done, len);
        vs := vs + [v.value];
      }
    }

    /** Decodes the value whose header is cached. */
    method TakeValue() returns (r: Result<Value, Error>)
      requires Valid() && Ahead()
      modifies this
      ensures Valid()
      ensures r.Ok? ==> old(size) <= |old(View())| && At() == Advance(old(At()), old(size)) && kind.None?
      ensures r.Ok? ==> r.value == (if old(kind.value) == ByteKind then Str([old(byteval)])
                                    else if old(kind.value) == StringKind then Str(old(View())[..old(size)])
                                    else if r.value.List? then r.value else List([]))
      ensures r.Ok? && old(kind.value) == ListKind ==> EncodeAll(r.value.items) == old(View())[..old(size)]
      ensures r.Ok? && old(kind.value) == StringKind ==> !(old(size) == 1 && old(View())[0] < 0x80)
      ensures r.Err? ==> r.error != EOL && r.error != MoreThanOneValue && old(kind.value) != ByteKind
      ensures r.Err? && old(kind.value) == StringKind && old(size) <= |old(View())| ==>
                old(size) == 1 && old(View())[0] < 0x80
      ensures r.Err? && old(kind.value) == ListKind && old(size) <= |old(View())| ==>
                forall vs :: EncodeAll(vs) != old(View())[..old(size)]
      decreases |unread|, 3
    {
      hide EncodeAll, Encode, Frames, Room;
      AdvanceZero(At());
      if kind.value == ListKind {
        var items := DecodeListSlice();
        return if items.Ok? then Ok(List(items.value)) else Err(items.error);
      } else {
        var b := TakeString();
        return if b.Ok? then Ok(Str(b.value)) else Err(b.error);
      }
    }

    /** Decodes one value. It succeeds exactly when the input continues with the encoding of a value. */
    method DecodeInterface() returns (r: Result<Value, Error>)
      requires Valid()
      modifies this
      ensures Valid()
      ensures old(kind).None? && r.Ok? ==> Encode(r.value) <= old(View())
      ensures old(kind).None? && r.Ok? ==> At() == Advance(old(At()), |Encode(r.value)|) && kind.None?
      ensures old(kind).None? ==> (r == Err(EOL) <==> old(AtEnd()))
      ensures old(kind).None? && r == Err(EOL) ==> At() == old(At()) && kind.None?
      ensures old(kind).None? && r.Err? ==> (forall v :: !Starts(v, old(View()))) && r.error != MoreThanOneValue
      ensures old(kind).None? && !old(AtEnd()) && ParseHead(old(View())).None? ==> r == Err(HeadError(old(At())))
      decreases |unread|, if kind.None? then 0 else 4
    {
      hide Encode, EncodeAll, ParseHead, Starts, NoItem, Room, Header, HeadError, ReadError, Advance;
      ghost var start, w := At(), View();
      ghost var armed := kind.None?;
      var k, n, e := Peek();
      if e.Some? {
        EmptyAtEnd(start);
        if armed {
          NoValueHere(w, e.value == EOL);
        }
        return Err(e.value);
      }
      if armed {
        ghost var h := ParseHead(w).value;
        ItemAt(w);
        BehindHead(start, h.length, h.size);
      }
      r := TakeValue();
    }
  }

  lemma NoStringHere(w: seq<byte>, atEnd: bool)
    requires if atEnd then w == [] else NoItem(w)
    ensures forall s :: !Starts(Str(s), w)
  {
    if !atEnd {
      NoItemNoValue(w);
    }
  }

  /** A string can be taken from w exactly when w starts with the encoding of a string. */
  lemma StringAt(w: seq<byte>)
    requires ParseHead(w).Some? && ParseHead(w).value.length <= |w|
    ensures var h := ParseHead(w).value;
            var fits := h.length + h.size <= |w|;
            var content := if fits then w[h.length..h.length + h.size] else [];
            var s := if h.kind == ByteKind then [h.byteval] else content;
            if h.kind != ListKind && fits && !(h.kind == StringKind && h.size == 1 && content[0] < 0x80)
            then Encode(Str(s)) == w[..h.length + h.size]
            else forall s :: !Starts(Str(s), w)
  {
    hide ParseHead, Encode;
    ParseHeadSound(w);
    var h := ParseHead(w).value;
    var fits := h.length + h.size <= |w|;
    var content := if fits then w[h.length..h.length + h.size] else [];
    if h.kind != ListKind && fits && !(h.kind == StringKind && h.size == 1 && content[0] < 0x80) {
      StringParts(if h.kind == ByteKind then [h.byteval] else content);
      assert w[..h.length + h.size] == w[..h.length] + content;
    } else {
      forall s
        ensures !Starts(Str(s), w)
      {
        if Starts(Str(s), w) {
          ParseHeadOfValue(Str(s), w);
        }
      }
    }
  }

  lemma StringParts(s: seq<byte>)
    ensures Encode(Str(s)) == if |s| == 1 && s[0] <= 0x7F then s else Header(STRING_SMALL, STRING_LARGE, |s|) + s
  {
  }

  /** Header and content of an item that fits are the bytes it was read from. */
  lemma RawAt(w: seq<byte>)
    requires ParseHead(w).Some? && ParseHead(w).value.length <= |w|
    ensures var h := ParseHead(w).value;
            && (h.kind == ByteKind ==> w[..1] == [h.byteval] && h.length == 1)
            && (h.kind != ByteKind ==> h.length == |HeadBytes(h)|)
            && (h.length + h.size <= |w| ==> HeadBytes(h) + w[h.length..][..h.size] == w[..h.length + h.size])
            && (h.length + h.size > |w| ==> NoItem(w))
  {
    ParseHeadSound(w);
  }

  // ----- what the decoding methods rest on -----

  /** The string that stands for an unsigned integer. */
  function NumberValue(n: nat): Value {
    Str(if n == 0 then [] else BigEndian(n))
  }

  /** A number is the one string without a leading zero that denotes it, big-endian. */
  lemma NumberValueIs(n: nat, s: seq<byte>)
    ensures NumberValue(n) == Str(s) <==> Number(s) == n && (s == [] || s[0] != 0)
  {
    hide Number, BigEndian;
    NumberOfBigEndian(n);
    NoNumber();
    if n > 0 {
      BigEndianHead(n);
    }
    if s != [] {
      BigEndianOfNumber(s);
      if s[0] != 0 {
        LeadingByteNonZero(s);
      }
    }
  }

  lemma NoNumber()
    ensures Number([]) == 0
  {
  }

  /** At most one number starts an input. */
  lemma OneNumber(n: nat, w: seq<byte>)
    requires Encode(NumberValue(n)) <= w && n < 256
    ensures forall m: nat :: m < 256 && m != n ==> !Starts(NumberValue(m), w)
  {
    hide Encode;
    forall m: nat | m < 256 && m != n
      ensures !Starts(NumberValue(m), w)
    {
      if Starts(NumberValue(m), w) {
        var a, b := NumberValue(m), NumberValue(n);
        SmallNumber(m);
        SmallNumber(n);
        PrefixFree(a, b, w[|Encode(a)|..], w[|Encode(b)|..]);
      }
    }
  }

  lemma SmallNumber(n: nat)
    requires n < 256
    ensures |Encode(NumberValue(n))| <= 2
    ensures NumberValue(n) == Str(if n == 0 then [] else [n])
  {
  }

  lemma NoValueHere(w: seq<byte>, atEnd: bool)
    requires if atEnd then w == [] else NoItem(w)
    ensures forall v :: !Starts(v, w)
  {
    if !atEnd {
      NoItemNoValue(w);
    }
  }

  lemma NoNumberHere(w: seq<byte>, atEnd: bool)
    requires if atEnd then w == [] else NoItem(w)
    ensures forall n: nat :: !Starts(NumberValue(n), w)
  {
    NoValueHere(w, atEnd);
  }

  lemma NothingEncoded()
    ensures EncodeAll([]) == []
  {
  }

  /** The number at the start of w, if there is one of at most k bytes. */
  function NumberIn(w: seq<byte>, k: nat): Option<nat>
    requires ParseHead(w).Some?
  {
    var h := ParseHead(w).value;
    if h.kind == ListKind || h.length + h.size > |w| then None
    else if h.kind == ByteKind then (if h.byteval == 0 then None else Some(h.byteval))
    else
      var content := w[h.length..h.length + h.size];
      if h.size > k || (h.size > 1 && content[0] == 0) || (h.size > 0 && Number(content) < 128) then None
      else Some(Number(content))
  }

  lemma NumberInIs(w: seq<byte>, k: nat)
    requires ParseHead(w).Some?
    ensures var h := ParseHead(w).value;
            NumberIn(w, k) ==
            if h.kind == ListKind || h.length + h.size > |w| then None
            else if h.kind == ByteKind then (if h.byteval == 0 then None else Some(h.byteval))
            else
              var content := w[h.length..h.length + h.size];
              if h.size > k || (h.size > 1 && content[0] == 0) || (h.size > 0 && Number(content) < 128) then None
              else Some(Number(content))
  {
  }

  lemma NumberAt(w: seq<byte>, k: nat)
    requires ParseHead(w).Some? && 1 <= k <= 8
    ensures NumberIn(w, k).Some? ==>
              var n, h := NumberIn(w, k).value, ParseHead(w).value;
              n < Pow256(k) && h.length + h.size <= |w| && Encode(NumberValue(n)) == w[..h.length + h.size]
    ensures NumberIn(w, k).None? ==> forall n: nat :: n < Pow256(k) ==> !Starts(NumberValue(n), w)
  {
    if NumberIn(w, k).Some? {
      NumberFound(w, k);
    } else {
      forall n: nat | n < Pow256(k)
        ensures !Starts(NumberValue(n), w)
      {
        if Starts(NumberValue(n), w) {
          NumberPresent(w, k, n);
        }
      }
    }
  }

  lemma NumberFound(w: seq<byte>, k: nat)
    requires ParseHead(w).Some? && 1 <= k <= 8 && NumberIn(w, k).Some?
    ensures var n, h := NumberIn(w, k).value, ParseHead(w).value;
            n < Pow256(k) && h.length + h.size <= |w| && Encode(NumberValue(n)) == w[..h.length + h.size]
  {
    hide ParseHead, Encode, Starts;
    ParseHeadSound(w);
    StringAt(w);
    var h := ParseHead(w).value;
    if h.kind == ByteKind {
      Pow256Monotone(1, k);
    } else {
      var content := w[h.length..h.length + h.size];
      NumberBound(content);
      Pow256Monotone(h.size, k);
      if h.size > 0 {
        BigEndianOfNumber(content);
      }
    }
  }

  lemma NumberPresent(w: seq<byte>, k: nat, n: nat)
    requires ParseHead(w).Some? && 1 <= k <= 8 && n < Pow256(k) && Starts(NumberValue(n), w)
    ensures NumberIn(w, k).Some?
  {
    hide ParseHead, Encode, Number, BigEndian, Pow256;
    ParseHeadOfValue(NumberValue(n), w);
    if n > 0 {
      NumberBytes(n, k);
    } else {
      assert Number([]) == 0 by { NoBytes(); }
    }
  }

  lemma NoBytes()
    ensures Number([]) == 0
  {
  }

  /** The bytes of a positive number: without leading zero, and one byte only below 256. */
  lemma NumberBytes(n: nat, k: nat)
    requires n > 0 && n < Pow256(k)
    ensures 1 <= |BigEndian(n)| <= k && BigEndian(n)[0] != 0 && Number(BigEndian(n)) == n
    ensures |BigEndian(n)| == 1 ==> BigEndian(n) == [n]
    ensures |BigEndian(n)| > 1 ==> n >= 256
  {
    NumberOfBigEndian(n);
    BigEndianHead(n);
    BigEndianLength(n, k);
  }

  /** Opening a list narrows the window to the list's declared size. */
  lemma EnterList(c: Cursor, n: nat)
    requires Frames(c.stack) && n < UINT64_LIMIT
    requires if c.stack == [] then c.limited ==> n <= c.remaining else n <= Top(c.stack).size - Top(c.stack).pos
    ensures var d := c.(stack := c.stack + [ListPos(0, n)]);
            && Frames(d.stack) && Top(d.stack) == ListPos(0, n)
            && Window(d) == (if |Window(c)| >= n then Window(c)[..n] else Window(d))
            && |Window(d)| <= n
            && (|Window(c)| < n ==> |Window(d)| < n)
  {
  }

  /** Reading a list to its end and closing it is the same as reading its size from the outside. */
  lemma LeaveList(c: Cursor, n: nat)
    requires Frames(c.stack) && n < UINT64_LIMIT
    requires if c.stack == [] then c.limited ==> n <= c.remaining else n <= Top(c.stack).size - Top(c.stack).pos
    ensures var d := c.(stack := c.stack + [ListPos(0, n)]);
            Frames(d.stack) &&
            (n <= Room(d) ==>
               var e := Advance(d, n);
               && e.stack != [] && Top(e.stack).pos == Top(e.stack).size == n
               && n <= Room(c)
               && e.(stack := Bump(e.stack[..|e.stack| - 1], n)) == Advance(c, n))
  {
    var d := c.(stack := c.stack + [ListPos(0, n)]);
    if n <= Room(d) {
      assert Advance(d, n).stack[..|c.stack|] == c.stack;
    }
  }

  /** At the end of the list, everything in its window has been read. */
  lemma EndOfList(c: Cursor, n: nat, done: nat)
    requires Frames(c.stack) && c.stack != [] && Top(c.stack) == ListPos(0, n) && done <= Room(c)
    requires Top(Advance(c, done).stack).pos == Top(Advance(c, done).stack).size
    ensures done == n == Room(c)
  {
  }

  /** Unless the list is at its end, fewer bytes have been read than its window holds. */
  lemma MoreInList(c: Cursor, n: nat, done: nat)
    requires Frames(c.stack) && c.stack != [] && Top(c.stack) == ListPos(0, n) && done <= Room(c) == n
    ensures var t := Advance(c, done).stack;
            t != [] && (Top(t).pos != Top(t).size ==> done < n)
  {
  }

  lemma EmptyAtEnd(c: Cursor)
    requires Frames(c.stack)
    ensures c.stack != [] && Top(c.stack).pos == Top(c.stack).size ==> Window(c) == []
  {
  }

  lemma NextItem(vs: seq<Value>, v: Value, w: seq<byte>)
    requires EncodeAll(vs) <= w && Encode(v) <= w[|EncodeAll(vs)|..]
    ensures EncodeAll(vs + [v]) == EncodeAll(vs) + Encode(v)
    ensures EncodeAll(vs + [v]) <= w
  {
    hide Encode, EncodeAll;
    EncodeAllAppend(vs, [v]);
    EncodeAllSingle(v);
    PrefixJoin(EncodeAll(vs), Encode(v), w);
  }

  lemma PrefixJoin(a: seq<byte>, b: seq<byte>, w: seq<byte>)
    requires a <= w && b <= w[|a|..]
    ensures a + b <= w
  {
    assert w == a + w[|a|..];
  }

  /** Items that encode to the start of a payload are its first items. */
  lemma {:induction false} FirstItems(vs: seq<Value>, us: seq<Value>)
    requires EncodeAll(vs) <= EncodeAll(us) && |EncodeAll(us)| < UINT64_LIMIT
    ensures vs <= us
  {
    if vs != [] {
      assert us != [];
      var w := EncodeAll(us);
      assert w == Encode(vs[0]) + w[|Encode(vs[0])|..];
      PrefixFree(vs[0], us[0], w[|Encode(vs[0])|..], EncodeAll(us[1..]));
      assert EncodeAll(vs[1..]) <= EncodeAll(us[1..]);
      FirstItems(vs[1..], us[1..]);
      assert vs == [vs[0]] + vs[1..] && us == [us[0]] + us[1..];
    }
  }

  /** If no value starts after some items and bytes are left, the payload is no sequence of items at all. */
  lemma StuckInList(vs: seq<Value>, w: seq<byte>)
    requires EncodeAll(vs) <= w && |EncodeAll(vs)| < |w| < UINT64_LIMIT
    requires forall v :: !Starts(v, w[|EncodeAll(vs)|..])
    ensures forall us :: EncodeAll(us) != w
  {
    forall us
      ensures EncodeAll(us) != w
    {
      if EncodeAll(us) == w {
        FirstItems(vs, us);
        var rest := us[|vs|..];
        assert us == vs + rest;
        EncodeAllAppend(vs, rest);
        assert EncodeAll(rest) == w[|EncodeAll(vs)|..];
        assert rest != [];
        assert Starts(rest[0], w[|EncodeAll(vs)|..]);
      }
    }
  }

  /** An item whose header has been read decodes exactly when the input starts with the encoding of a value. */
  lemma ItemAt(w: seq<byte>)
    requires ParseHead(w).Some? && ParseHead(w).value.length <= |w|
    ensures var h := ParseHead(w).value;
            var fits := h.length + h.size <= |w|;
            var content := if fits then w[h.length..h.length + h.size] else [];
            var s := if h.kind == ByteKind then [h.byteval] else content;
            && h.length >= 1
            && (h.kind != ListKind && fits && !(h.kind == StringKind && h.size == 1 && content[0] < 0x80)
                ==> Encode(Str(s)) == w[..h.length + h.size])
            && (h.kind != ListKind && !(fits && !(h.kind == StringKind && h.size == 1 && content[0] < 0x80))
                ==> forall v :: !Starts(v, w))
            && (h.kind == ListKind && fits
                ==> forall vs :: EncodeAll(vs) == content ==> Encode(List(vs)) == w[..h.length + h.size])
            && (h.kind == ListKind && (!fits || forall vs :: EncodeAll(vs) != content) ==> forall v :: !Starts(v, w))
  {
    hide ParseHead, Encode, EncodeAll;
    ParseHeadSound(w);
    StringAt(w);
    var h := ParseHead(w).value;
    var fits := h.length + h.size <= |w|;
    var content := if fits then w[h.length..h.length + h.size] else [];
    if h.kind == ListKind && fits {
      assert w[..h.length + h.size] == w[..h.length] + content;
      forall vs | EncodeAll(vs) == content
        ensures Encode(List(vs)) == w[..h.length + h.size]
      {
        ListParts(vs);
      }
    }
    forall v | Starts(v, w)
      ensures h.kind != ListKind ==> v.Str?
      ensures h.kind == ListKind ==> v.List? && fits && EncodeAll(v.items) == content
    {
      ParseHeadOfValue(v, w);
    }
  }

  lemma ListParts(vs: seq<Value>)
    ensures Encode(List(vs)) == Header(LIST_SMALL, LIST_LARGE, |EncodeAll(vs)|) + EncodeAll(vs)
  {
  }

  // ----- entry points -----

  /** DecodeBytes accepts exactly the encodings, and yields the value that was encoded. */
  method DecodeBytes(b: seq<byte>) returns (r: Result<Value, Error>)
    requires |b| < UINT64_LIMIT
    ensures r.Ok? ==> Encode(r.value) == b
    ensures forall v :: Encode(v) == b ==> r == Ok(v)
    ensures r == Err(MoreThanOneValue) <==> exists v :: Encode(v) < b
    ensures b == [] ==> r == Err(EOF)
  {
    hide Encode;
    var s := new Stream(b, |b|);
    assert s.View() == b;
    r := s.DecodeInterface();
    if r.Ok? {
      UniqueValue(r.value, b);
      if |s.unread| > 0 {
        assert Encode(r.value) < b;
        return Err(MoreThanOneValue);
      }
    } else {
      forall v
        ensures !(Encode(v) <= b)
      {
        assert !Starts(v, b);
      }
    }
  }

  lemma UniqueValue(v: Value, b: seq<byte>)
    requires Encode(v) <= b && |b| < UINT64_LIMIT
    ensures forall u :: Encode(u) <= b ==> u == v
  {
    forall u | Encode(u) <= b
      ensures u == v
    {
      assert b == Encode(v) + b[|Encode(v)|..] && b == Encode(u) + b[|Encode(u)|..];
      PrefixFree(u, v, b[|Encode(u)|..], b[|Encode(v)|..]);
    }
  }

  /** Encoding into two streams, splicing them and decoding the result gives the value back. */
  method RoundTrip(v: Value) returns (b: seq<byte>, r: Result<Value, Error>)
    requires |Encode(v)| < UINT64_LIMIT
    ensures r == Ok(v)
  {
    b := RlpEncode.EncodeToBytes(v);
    r := DecodeBytes(b);
  }

  datatype Call =
    | CallKind | CallBytes | CallRaw | CallUint(maxbits: nat) | CallBool
    | CallList | CallListEnd | CallDecode

  /**
    Any sequence of calls on any stream, whatever the calls return: after each of them every list frame keeps
    pos <= size, and the unread part of a frame covers the list nested in it.
    */
  method RunCalls(s: Stream, calls: seq<Call>) returns (trace: seq<seq<ListPos>>)
    requires s.Valid()
    requires forall k :: 0 <= k < |calls| && calls[k].CallUint? ==>
               calls[k].maxbits % 8 == 0 && 8 <= calls[k].maxbits <= 64
    modifies s
    ensures s.Valid() && |trace| == |calls|
    ensures forall k :: 0 <= k < |trace| ==> Frames(trace[k])
  {
    hide Frames;
    trace := [];
    for i := 0 to |calls|
      invariant s.Valid() && |trace| == i
      invariant forall k :: 0 <= k < i ==> Frames(trace[k])
    {
      match calls[i] {
        case CallKind => var _, _, _ := s.Peek();
        case CallBytes => var _ := s.ReadString();
        case CallRaw => var _ := s.Raw();
        case CallUint(maxbits) => var _ := s.ReadNumber(maxbits);
        case CallBool => var _ := s.ReadBool();
        case CallList => var _ := s.OpenList();
        case CallListEnd => var _ := s.CloseList();
        case CallDecode => var _ := s.DecodeInterface();
      }
      trace := trace + [s.stack];
    }
  }
}
