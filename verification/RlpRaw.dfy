/** The second RLP parser, which works on byte slices, and its agreement with the stream parser. */
module RlpRaw {
  import opened Bytes
  import opened RlpSpec
  import opened RlpStream
  import opened Wrappers

  /** Tag and content length of an item. A single byte is its own content and has no tag. */
  datatype RawHead = RawHead(kind: Kind, tagsize: nat, contentsize: nat)

  datatype Item = Item(kind: Kind, content: seq<byte>, rest: seq<byte>)

  function ReadSize(b: seq<byte>, slen: nat): Result<nat, Error>
    requires 1 <= slen <= 8
  {
    if slen > |b| then Err(UnexpectedEOF)
    else
      var s := Number(b[..slen]);
      if s < 56 || b[0] == 0 then Err(CanonSize) else Ok(s)
  }

  function ReadRawHead(buf: seq<byte>): Result<RawHead, Error> {
    if |buf| == 0 then Err(UnexpectedEOF)
    else
      var b := buf[0];
      var head :=
        if b < 0x80 then Ok(RawHead(ByteKind, 0, 1))
        else if b < 0xB8 then
          if b - 0x80 == 1 && |buf| > 1 && buf[1] < 128 then Err(CanonSize)
          else Ok(RawHead(StringKind, 1, b - 0x80))
        else if b < 0xC0 then
          match ReadSize(buf[1..], b - 0xB7)
          case Ok(n) => Ok(RawHead(StringKind, b - 0xB7 + 1, n))
          case Err(e) => Err(e)
        else if b < 0xF8 then Ok(RawHead(ListKind, 1, b - 0xC0))
        else
          match ReadSize(buf[1..], b - 0xF7)
          case Ok(n) => Ok(RawHead(ListKind, b - 0xF7 + 1, n))
          case Err(e) => Err(e);
      if head.Err? then head
      else if head.value.contentsize > |buf| - head.value.tagsize then Err(ValueTooLarge)
      else head
  }

  /** Split returns the content of the first item and what follows it. */
  function Split(b: seq<byte>): (r: Result<Item, Error>)
    ensures r.Ok? ==> |r.value.rest| < |b| && |r.value.content| + |r.value.rest| <= |b|
    ensures r.Ok? ==> r.value.content + r.value.rest == b[|b| - |r.value.content| - |r.value.rest|..]
  {
    match ReadRawHead(b)
    case Err(e) => Err(e)
    case Ok(h) => Ok(Item(h.kind, b[h.tagsize..h.tagsize + h.contentsize], b[h.tagsize + h.contentsize..]))
  }

  function SplitString(b: seq<byte>): Result<Item, Error> {
    match Split(b)
    case Err(e) => Err(e)
    case Ok(item) => if item.kind == ListKind then Err(ExpectedString) else Ok(item)
  }

  function SplitList(b: seq<byte>): Result<Item, Error> {
    match Split(b)
    case Err(e) => Err(e)
    case Ok(item) => if item.kind != ListKind then Err(ExpectedList) else Ok(item)
  }

  /** The slice parser and the stream's header parser accept the same headers. */
  lemma SizesAgree(w: seq<byte>, sizesize: nat, kind: Kind)
    requires 1 <= sizesize <= 8 && w != []
    ensures ReadSize(w[1..], sizesize).Ok? <==> ParseLongHead(w, sizesize, kind).Some?
    ensures ReadSize(w[1..], sizesize).Err? ==>
              ReadSize(w[1..], sizesize).error == if |w| < 1 + sizesize then UnexpectedEOF else CanonSize
    ensures ReadSize(w[1..], sizesize).Ok? ==>
              ParseLongHead(w, sizesize, kind) == Some(Head(kind, 1 + sizesize, ReadSize(w[1..], sizesize).value, 0))
  {
    if sizesize < |w| {
      assert w[1..][..sizesize] == w[1..1 + sizesize];
      if sizesize == 1 {
        assert w[1..2] == [w[1]] && Number([]) == 0;
        assert Number([w[1]]) == w[1];
      }
    }
  }

  /** Split in terms of the stream's header: same kind, same extent, same rejections. */
  lemma SplitIsHead(w: seq<byte>)
    ensures var h := ParseHead(w);
            if h.None? then Split(w) == Err(if w == [] || |w| < 1 + SizeBytes(w[0]) then UnexpectedEOF else CanonSize)
            else if h.value.length + h.value.size > |w| then Split(w) == Err(ValueTooLarge)
            else
              var content := w[h.value.length..h.value.length + h.value.size];
              if h.value.kind == StringKind && h.value.size == 1 && content[0] < 0x80 then Split(w) == Err(CanonSize)
              else Split(w) == Ok(Item(h.value.kind, if h.value.kind == ByteKind then [h.value.byteval] else content,
                                       w[h.value.length + h.value.size..]))
  {
    hide ReadSize, ParseLongHead;
    if w != [] {
      assert w[0..1] == [w[0]];
      if 0xB8 <= w[0] < 0xC0 {
        SizesAgree(w, w[0] - 0xB7, StringKind);
        LongSize(w, w[0] - 0xB7, StringKind);
      } else if w[0] >= 0xF8 {
        SizesAgree(w, w[0] - 0xF7, ListKind);
      }
    }
  }

  lemma LongSize(w: seq<byte>, sizesize: nat, kind: Kind)
    requires 1 <= sizesize <= 8
    ensures ParseLongHead(w, sizesize, kind).Some? ==> ParseLongHead(w, sizesize, kind).value.size >= 56
  {
  }

  /** The first item of an input read by a stream: its kind by Kind, a string by Bytes, the extent of a list by List. */
  method FirstItem(b: seq<byte>) returns (r: Option<Item>)
    requires |b| < UINT64_LIMIT
    ensures r == if Split(b).Ok? then Some(Split(b).value) else None
  {
    hide Encode, Split, Starts, ParseHead;
    SplitIsHead(b);
    ParseHeadSound(b);
    var s := new Stream(b, |b|);
    assert s.View() == b;
    var k, n, e := s.Peek();
    if e.Some? {
      return None;
    }
    SplitIsBehind(b);
    r := ItemAhead(s, k);
  }

  /** Split in terms of a header and what follows it. */
  function SplitBehind(k: Kind, n: nat, byteval: byte, rest: seq<byte>): Option<Item> {
    if n > |rest| then None
    else if k == StringKind && n == 1 && rest[0] < 0x80 then None
    else Some(Item(k, if k == ByteKind then [byteval] else rest[..n], rest[n..]))
  }

  lemma SplitIsBehind(b: seq<byte>)
    requires ParseHead(b).Some? && ParseHead(b).value.length <= |b|
    ensures var h := ParseHead(b).value;
            SplitBehind(h.kind, h.size, h.byteval, b[h.length..]) == if Split(b).Ok? then Some(Split(b).value) else None
  {
    hide Split, ParseHead;
    SplitIsHead(b);
    var h := ParseHead(b).value;
    if h.length + h.size <= |b| {
      assert b[h.length..][..h.size] == b[h.length..h.length + h.size];
      assert b[h.length..][h.size..] == b[h.length + h.size..];
    }
  }

  /** The item whose header has been read. */
  method ItemAhead(s: Stream, k: Kind) returns (r: Option<Item>)
    requires s.Valid() && s.Ahead() && k == s.kind.value && s.stack == [] && s.limited && s.remaining == |s.unread|
    modifies s
    ensures r == old(SplitBehind(k, s.size, s.byteval, s.unread))
  {
    hide ParseHead, Encode, Starts, NoItem, Frames;
    assert s.View() == s.unread;
    if k == ListKind {
      var list := s.OpenList();
      return Some(Item(ListKind, s.unread[..list.value], s.unread[list.value..]));
    }
    var str := s.ReadString();
    if str.Err? {
      return None;
    }
    return Some(Item(k, str.value, s.unread));
  }

  /** An encoded string at the start is what Split finds. */
  lemma StringSplit(b: seq<byte>, s: seq<byte>)
    requires Encode(Str(s)) <= b && |b| < UINT64_LIMIT
    ensures Split(b).Ok? && Split(b).value.kind != ListKind
    ensures Split(b).value.content == s && Split(b).value.rest == b[|Encode(Str(s))|..]
  {
    hide Split, Encode, ParseHead;
    SplitIsHead(b);
    ParseHeadOfValue(Str(s), b);
  }

  lemma SplitStringEncodes(b: seq<byte>)
    requires |b| < UINT64_LIMIT && Split(b).Ok? && Split(b).value.kind != ListKind
    ensures Starts(Str(Split(b).value.content), b)
  {
    hide Split, Encode, ParseHead;
    SplitIsHead(b);
    ParseHeadSound(b);
    StringAt(b);
  }

  /** An encoded value at the start is split off as a whole. */
  lemma SplitValue(v: Value, b: seq<byte>)
    requires |Encode(v)| < UINT64_LIMIT && Encode(v) <= b
    ensures Split(b).Ok? && Split(b).value.rest == b[|Encode(v)|..]
  {
    hide Split, Encode, ParseHead;
    SplitIsHead(b);
    ParseHeadOfValue(v, b);
  }

  /** A string is split off exactly when one starts the input. */
  lemma SplitStringExact(b: seq<byte>)
    requires |b| < UINT64_LIMIT
    ensures SplitString(b).Ok? <==> exists s :: Starts(Str(s), b)
    ensures forall s :: Starts(Str(s), b) ==>
              && SplitString(b).Ok? && SplitString(b).value.content == s
              && SplitString(b).value.rest == b[|Encode(Str(s))|..]
              && SplitList(b) == Err(ExpectedList)
  {
    hide Split, Encode;
    if SplitString(b).Ok? {
      SplitStringEncodes(b);
    }
    forall s | Starts(Str(s), b)
      ensures Split(b).Ok? && Split(b).value.kind != ListKind
      ensures Split(b).value.content == s && Split(b).value.rest == b[|Encode(Str(s))|..]
    {
      StringSplit(b, s);
    }
  }

  /** The input starts with a list header and the bytes it announces, whatever they are. */
  ghost predicate StartsList(c: seq<byte>, b: seq<byte>) {
    |c| < UINT64_LIMIT && Header(LIST_SMALL, LIST_LARGE, |c|) + c <= b
  }

  /** A list is split off exactly when a header and the bytes it announces start the input; they need not be items. */
  lemma SplitListExact(b: seq<byte>)
    requires |b| < UINT64_LIMIT
    ensures SplitList(b).Ok? <==> exists c :: StartsList(c, b)
    ensures forall c :: StartsList(c, b) ==>
              && SplitList(b).Ok? && SplitList(b).value.content == c
              && SplitList(b).value.rest == b[HeadSize(|c|) + |c|..]
              && SplitString(b) == Err(ExpectedString)
    ensures forall items :: Starts(List(items), b) ==> StartsList(EncodeAll(items), b)
  {
    hide Split, Header, HeadSize;
    if SplitList(b).Ok? {
      SplitListStarts(b);
    }
    forall c | StartsList(c, b)
      ensures Split(b).Ok? && Split(b).value.kind == ListKind && Split(b).value.content == c
      ensures Split(b).value.rest == b[HeadSize(|c|) + |c|..]
    {
      ListSplit(b, c);
    }
  }

  lemma ListSplit(b: seq<byte>, c: seq<byte>)
    requires StartsList(c, b)
    ensures Split(b) == Ok(Item(ListKind, c, b[HeadSize(|c|) + |c|..]))
  {
    hide Split, ParseHead;
    SplitIsHead(b);
    var head := Header(LIST_SMALL, LIST_LARGE, |c|);
    var rest := b[|head|..];
    assert b == head + rest && c <= rest;
    ParseHeadComplete(LIST_SMALL, LIST_LARGE, |c|, rest);
    assert b[|head|..|head| + |c|] == c;
  }

  lemma SplitListStarts(b: seq<byte>)
    requires |b| < UINT64_LIMIT && SplitList(b).Ok?
    ensures StartsList(SplitList(b).value.content, b)
  {
    hide Split, ParseHead, Header;
    SplitIsHead(b);
    ParseHeadSound(b);
    var h := ParseHead(b).value;
    var c := b[h.length..h.length + h.size];
    assert b[..h.length] + c <= b;
  }

  /** How many items can be split off one after the other until nothing is left. */
  function Items(b: seq<byte>): Result<nat, Error>
    decreases |b|
  {
    if b == [] then Ok(0)
    else
      match Split(b)
      case Err(e) => Err(e)
      case Ok(item) =>
        match Items(item.rest)
        case Err(e) => Err(e)
        case Ok(n) => Ok(n + 1)
  }

  /** Counts the items of an input. For concatenated encodings it is their number. */
  method CountValues(input: seq<byte>) returns (r: Result<nat, Error>)
    requires |input| < UINT64_LIMIT
    ensures r == Items(input)
    ensures forall vs :: EncodeAll(vs) == input ==> r == Ok(|vs|)
  {
    hide EncodeAll, Split;
    var b, i := input, 0;
    while |b| > 0
      invariant |b| <= |input|
      invariant Items(input) == match Items(b) case Ok(n) => Ok(i + n) case Err(e) => Err(e)
      invariant forall vs :: EncodeAll(vs) == input ==> i <= |vs| && EncodeAll(vs[i..]) == b
      decreases |b|
    {
      var item := Split(b);
      forall vs | EncodeAll(vs) == input
        ensures i < |vs| && item.Ok? && EncodeAll(vs[i + 1..]) == item.value.rest
      {
        CountStep(vs[i..], b);
        assert vs[i..][1..] == vs[i + 1..];
      }
      if item.Err? {
        return Err(item.error);
      }
      b, i := item.value.rest, i + 1;
    }
    forall vs | EncodeAll(vs) == input
      ensures i == |vs|
    {
      assert EncodeAll(vs[i..]) == [];
      NothingLeft(vs[i..]);
    }
    return Ok(i);
  }

  lemma CountStep(vs: seq<Value>, b: seq<byte>)
    requires EncodeAll(vs) == b && b != [] && |b| < UINT64_LIMIT
    ensures vs != [] && Split(b).Ok? && Split(b).value.rest == EncodeAll(vs[1..])
  {
    hide Split;
    SplitValue(vs[0], b);
  }

  lemma NothingLeft(vs: seq<Value>)
    requires EncodeAll(vs) == []
    ensures vs == []
  {
  }
}
