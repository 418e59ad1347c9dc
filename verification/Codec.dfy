/** The OSC message format as liblo prints and parses it: what the validators accept, what the
    parser answers, and that printing and parsing undo each other. */
module Codec {
  import opened Wrappers
  import opened Octets
  import opened Lists
  import opened Arguments

  // ----- Error codes and limits -----

  const ENOTYPE := 9902
  const EINVALIDPATH := 9908
  const EINVALIDTYPE := 9909
  const EBADTYPE := 9910
  const ESIZE := 9911
  const EINVALIDARG := 9912
  const ETERM := 9913
  const EPAD := 9914
  const EINVALIDBUND := 9915

  const MAX_MSG_SIZE := 32768

  const COMMA: byte := ',' as int

  // ----- What the validators answer: a length, or a negated error code -----

  function CheckString(s: seq<byte>): (r: int)
    ensures r >= 0 ==> 0 < r <= |s| && StrLen(s) < r
  {
    var n := StrLen(s);
    if n == |s| then -ETERM
    else if PaddedSize(n) > |s| then -ESIZE
    else if AllZero(s[n..PaddedSize(n)]) then PaddedSize(n)
    else -EPAD
  }

  /** The source reads the size field before it looks at the length of the buffer; with fewer than
      eight bytes every size field gives the same answer. */
  function CheckBlob(s: seq<byte>): (r: int)
    ensures r >= 0 ==> 8 <= r <= |s|
  {
    if |s| < 4 then -ESIZE else
    var end := 4 + NetValue(s[..4]);
    if end - 4 > MAX_MSG_SIZE || PaddedSize(end) > |s| then -ESIZE
    else if AllZero(s[end..PaddedSize(end)]) then PaddedSize(end)
    else -EPAD
  }

  function CheckArg(tag: byte, s: seq<byte>): (r: int)
    ensures r >= 0 ==> r <= |s|
  {
    if IsFlag(tag) then 0
    else if IsWord(tag) then (if |s| >= 4 then 4 else -ESIZE)
    else if IsLong(tag) then (if |s| >= 8 then 8 else -ESIZE)
    else if IsText(tag) then CheckString(s)
    else if tag == BLOB then CheckBlob(s)
    else -EINVALIDTYPE
  }

  // ----- Single strings and arguments -----

  /** The string validator accepts exactly a C string, its terminator and zeros up to the next
      multiple of four, at the front of the buffer. */
  lemma StringAccepted(s: seq<byte>, t: seq<byte>)
    requires IsCString(t)
    ensures Padded(t) <= s ==> CheckString(s) == PaddedSize(|t|) && s[..StrLen(s)] == t
    ensures CheckString(s) >= 0 && t == s[..StrLen(s)] ==> s[..CheckString(s)] == Padded(t)
  {
    if Padded(t) <= s {
      var n := PaddedSize(|t|);
      forall i | 0 <= i < n ensures s[i] == Padded(t)[i] {}
      StrLenIs(s, |t|);
    }
    if CheckString(s) >= 0 && t == s[..StrLen(s)] {
      var r := s[..CheckString(s)];
      assert r[|t|..] == s[|t|..CheckString(s)];
      PaddedIs(r, t);
    }
  }

  /** The argument that accepted wire bytes stand for. */
  function ReadArg(tag: byte, w: seq<byte>): Arg
    requires CheckArg(tag, w) == |w|
  {
    if tag == BLOB then Arg.Blob(w[4..4 + NetValue(w[..4])])
    else if IsText(tag) then Text(tag, w[..StrLen(w)])
    else Fixed(tag, Swapped(tag, w))
  }

  /** The parser refuses blobs over LO_MAX_MSG_SIZE. */
  predicate Fits(a: Arg) {
    a.Blob? ==> |a.data| <= MAX_MSG_SIZE
  }

  lemma TextRead(tag: byte, t: seq<byte>)
    requires IsText(tag) && IsCString(t)
    ensures CheckArg(tag, Padded(t)) == |Padded(t)| && ReadArg(tag, Padded(t)) == Text(tag, t)
  {
    StringAccepted(Padded(t), t);
  }

  function WireBlob(data: seq<byte>): seq<byte>
    requires |data| < TWO32
  {
    Padded(NetWord(|data|) + data)
  }

  lemma BlobOnWire(data: seq<byte>)
    requires |data| < 0x8000_0000
    ensures Wire(Arg.Blob(data)) == WireBlob(data)
  {
    var tail := data + Zeros(PaddedSize(4 + |data|) - 4 - |data|);
    assert Host(Arg.Blob(data)) == HostWord(|data|) + tail;
    SwapHead(BLOB, HostWord(|data|), tail);
    WordOrder(|data|);
    assert NetWord(|data|) + tail == WireBlob(data);
  }

  /** The blob validator accepts exactly a size field up to the limit, that many bytes and zeros. */
  lemma BlobAccepted(s: seq<byte>, data: seq<byte>)
    requires |data| < TWO32 && WireBlob(data) <= s
    ensures CheckBlob(s) == if |data| <= MAX_MSG_SIZE then |WireBlob(data)| else -ESIZE
    ensures NetValue(s[..4]) == |data| && s[4..4 + |data|] == data
  {
    var w := WireBlob(data);
    assert s[..|w|] == w;
    assert s[..4] == w[..4] == NetWord(|data|);
    WordValue(|data|);
    assert s[4..4 + |data|] == w[4..4 + |data|] == data;
    assert s[4 + |data|..|w|] == w[4 + |data|..];
  }

  lemma BlobRead(s: seq<byte>)
    requires CheckBlob(s) >= 0
    ensures var n := NetValue(s[..4]); n <= MAX_MSG_SIZE && 4 + n < CheckBlob(s) && s[..CheckBlob(s)] == WireBlob(s[4..4 + n])
  {
    var n, w := NetValue(s[..4]), s[..CheckBlob(s)];
    ValueWord(s[..4]);
    assert w[..4] == s[..4];
    assert s[..4 + n] == s[..4] + s[4..4 + n];
    assert w[4 + n..] == s[4 + n..CheckBlob(s)];
    PaddedIs(w, s[..4 + n]);
  }

  lemma BlobReadBack(data: seq<byte>)
    requires |data| <= MAX_MSG_SIZE
    ensures CheckArg(BLOB, WireBlob(data)) == |WireBlob(data)| && ReadArg(BLOB, WireBlob(data)) == Arg.Blob(data)
  {
    BlobAccepted(WireBlob(data), data);
  }

  lemma FixedReadBack(a: Arg, rest: seq<byte>)
    requires ValidArg(a) && a.Fixed?
    ensures CheckArg(a.tag, Wire(a) + rest) == |Wire(a)| == CheckArg(a.tag, Wire(a)) && ReadArg(a.tag, Wire(a)) == a
  {
    SwappedTwice(a.tag, a.raw);
    assert ValidArg(a) && !IsText(a.tag) && a.tag != BLOB;
    assert |Wire(a)| == |a.raw|;
    assert ReadArg(a.tag, Wire(a)) == Fixed(a.tag, Swapped(a.tag, Wire(a)));
  }

  /** Printing then reading one argument: it comes back unless it is a blob over the limit, which is
      refused, whatever follows on the wire. */
  lemma ArgPrintRead(a: Arg, rest: seq<byte>)
    requires ValidArg(a)
    ensures if Fits(a) then CheckArg(Tag(a), Wire(a) + rest) == |Wire(a)| else CheckArg(Tag(a), Wire(a) + rest) < 0
    ensures Fits(a) ==> CheckArg(Tag(a), Wire(a)) == |Wire(a)| && ReadArg(Tag(a), Wire(a)) == a
  {
    match a
    case Fixed(_, _) => FixedReadBack(a, rest);
    case Text(tag, t) => TextPrintRead(tag, t, rest);
    case Blob(data) =>
      BlobOnWire(data);
      BlobAccepted(WireBlob(data) + rest, data);
      if |data| <= MAX_MSG_SIZE {
        BlobReadBack(data);
      }
  }

  lemma TextPrintRead(tag: byte, t: seq<byte>, rest: seq<byte>)
    requires IsText(tag) && IsCString(t)
    ensures var w := Wire(Text(tag, t));
      CheckArg(tag, w + rest) == |w| == CheckArg(tag, w) && ReadArg(tag, w) == Text(tag, t)
  {
    assert Wire(Text(tag, t)) == Padded(t) by {
      assert Padded(t)[0..] == Padded(t);
    }
    TextRead(tag, t);
    StringAccepted(Padded(t) + rest, t);
  }

  /** Reading then printing one argument gives back the bytes read. */
  lemma ArgReadPrint(tag: byte, s: seq<byte>)
    requires CheckArg(tag, s) >= 0
    ensures var w := s[..CheckArg(tag, s)];
      && CheckArg(tag, w) == |w|
      && (var a := ReadArg(tag, w); ValidArg(a) && Fits(a) && Tag(a) == tag && Wire(a) == w)
  {
    var w := s[..CheckArg(tag, s)];
    if tag == BLOB {
      var data := s[4..4 + NetValue(s[..4])];
      BlobRead(s);
      BlobReadBack(data);
      BlobOnWire(data);
    } else if IsText(tag) {
      var t := s[..StrLen(s)];
      StringAccepted(s, t);
      TextPrintRead(tag, t, []);
      TextRead(tag, t);
      assert w == Padded(t) && Padded(t)[0..] == Padded(t);
    } else {
      SwappedTwice(tag, w);
    }
  }

  // ----- Argument lists -----

  /** One step of the parser's argument loop. */
  function ReadOne(tag: byte, s: seq<byte>): Read<Arg> {
    var n := CheckArg(tag, s);
    if n < 0 then Refused else
    ArgReadPrint(tag, s);
    Got(ReadArg(tag, s[..n]), n)
  }

  /** An argument that the parser accepts. */
  predicate Acceptable(a: Arg) {
    ValidArg(a) && Fits(a)
  }

  lemma ReaderSound()
    ensures Sound(ReadOne, Tag, Wire, Acceptable)
  {
    forall t: byte, s: seq<byte> | ReadOne(t, s).Got?
      ensures var r := ReadOne(t, s); Acceptable(r.value) && Tag(r.value) == t && r.size <= |s| && Wire(r.value) == s[..r.size]
    {
      ArgReadPrint(t, s);
    }
  }

  lemma ReaderComplete()
    ensures Complete(ReadOne, Tag, Wire, ValidArg, Acceptable)
  {
    forall a: Arg, s: seq<byte> | ValidArg(a)
      ensures ReadOne(Tag(a), Wire(a) + s) == if Acceptable(a) then Got(a, |Wire(a)|) else Refused
    {
      ArgPrintRead(a, s);
      assert (Wire(a) + s)[..|Wire(a)|] == Wire(a);
    }
  }

  /** The argument part of the parser: one argument per type tag, and nothing left over. */
  function ParseArgs(tags: seq<byte>, s: seq<byte>): Result<seq<Arg>> {
    ReadAll(ReadOne, tags, s, EINVALIDARG, ESIZE)
  }

  lemma ParsePrintArgs(tags: seq<byte>, s: seq<byte>)
    requires ParseArgs(tags, s).Ok?
    ensures var args := ParseArgs(tags, s).value; All(Acceptable, args) && Tags(args) == tags && WireData(args) == s
  {
    ReaderSound();
    ReadThenPrint(ReadOne, Tag, Wire, Acceptable, tags, s, EINVALIDARG, ESIZE);
  }

  lemma PrintParseArgs(args: seq<Arg>)
    requires All(ValidArg, args)
    ensures All(Acceptable, args) ==> ParseArgs(Tags(args), WireData(args)) == Ok(args)
    ensures !All(Acceptable, args) ==> ParseArgs(Tags(args), WireData(args)) == Err(EINVALIDARG)
  {
    ReaderComplete();
    PrintThenRead(ReadOne, Tag, Wire, ValidArg, Acceptable, args, EINVALIDARG, ESIZE);
  }

  /** Accepted arguments in front are read, and then the rest decides. */
  lemma ParseArgsPast(args: seq<Arg>, tags: seq<byte>, s: seq<byte>)
    requires All(ValidArg, args) && All(Acceptable, args)
    ensures ParseArgs(Tags(args) + tags, WireData(args) + s) == Onto(args, ParseArgs(tags, s))
  {
    ReaderComplete();
    ReadPast(ReadOne, Tag, Wire, ValidArg, Acceptable, args, tags, s, EINVALIDARG, ESIZE);
  }

  // ----- Messages -----

  datatype Msg = Msg(path: Name, args: seq<Arg>)

  ghost predicate ValidMsg(m: Msg) {
    All(ValidArg, m.args)
  }

  function TypeString(args: seq<Arg>): seq<byte> {
    [COMMA] + Tags(args)
  }

  /** The serialised form of a message. */
  function Print(m: Msg): seq<byte> {
    Padded(m.path) + Padded(TypeString(m.args)) + WireData(m.args)
  }

  /** What lo_message_deserialise makes of a buffer. */
  function Parse(b: seq<byte>): Result<Msg> {
    if b == [] then Err(ESIZE) else
    var pathLen := CheckString(b);
    if pathLen < 0 then Err(EINVALIDPATH) else
    match ParseTyped(b[pathLen..])
    case Err(code) => Err(code)
    case Ok(args) => Ok(Msg(b[..StrLen(b)], args))
  }

  /** The part behind the path: a type string and the arguments. */
  function ParseTyped(rest: seq<byte>): Result<seq<Arg>> {
    if rest == [] then Err(ENOTYPE) else
    var typesLen := CheckString(rest);
    if typesLen < 0 then Err(EINVALIDTYPE)
    else if rest[0] != COMMA then Err(EBADTYPE)
    else ParseArgs(rest[1..StrLen(rest)], rest[typesLen..])
  }

  lemma TagsAreCString(args: seq<Arg>)
    requires All(ValidArg, args)
    ensures IsCString(Tags(args)) && IsCString(TypeString(args))
  {
    forall i | 0 <= i < |args| ensures Tags(args)[i] != 0 {
      assert ValidArg(args[i]);
    }
  }

  /** Print then parse: a message comes back unchanged, unless it carries a blob over the limit. */
  lemma PrintParse(m: Msg)
    requires ValidMsg(m)
    ensures Parse(Print(m)) == if All(Acceptable, m.args) then Ok(m) else Err(EINVALIDARG)
  {
    var b, types, data := Print(m), TypeString(m.args), WireData(m.args);
    TagsAreCString(m.args);
    assert b == Padded(m.path) + (Padded(types) + data);
    StringAccepted(b, m.path);
    assert b[|Padded(m.path)|..] == Padded(types) + data;
    StringAccepted(Padded(types) + data, types);
    assert (Padded(types) + data)[|Padded(types)|..] == data;
    assert (Padded(types) + data)[1..|types|] == Tags(m.args);
    PrintParseArgs(m.args);
  }

  /** The second answer happens: a blob one byte over the limit. */
  lemma OversizedBlob()
    ensures var m := Msg([], [Arg.Blob(Zeros(MAX_MSG_SIZE + 1))]);
      ValidMsg(m) && Parse(Print(m)) == Err(EINVALIDARG)
  {
    var m := Msg([], [Arg.Blob(Zeros(MAX_MSG_SIZE + 1))]);
    assert !Acceptable(m.args[0]);
    PrintParse(m);
  }

  lemma ParsePrintString(s: seq<byte>)
    requires CheckString(s) >= 0
    ensures IsCString(s[..StrLen(s)]) && s == Padded(s[..StrLen(s)]) + s[CheckString(s)..]
  {
    StringAccepted(s, s[..StrLen(s)]);
  }

  /** A parsed buffer falls into path, type string and arguments. */
  lemma ParseParts(b: seq<byte>) returns (types: seq<byte>, data: seq<byte>)
    requires Parse(b).Ok?
    ensures IsCString(Parse(b).value.path) && b == Padded(Parse(b).value.path) + Padded(types) + data
    ensures types != [] && types[0] == COMMA && ParseArgs(types[1..], data) == Ok(Parse(b).value.args)
  {
    var rest := b[CheckString(b)..];
    ParsePrintString(b);
    ParsePrintString(rest);
    types, data := rest[..StrLen(rest)], rest[CheckString(rest)..];
    assert types[1..] == rest[1..StrLen(rest)];
  }

  /** Parse then print: whatever is accepted is the serialised form of the message it is read as. */
  lemma ParsePrint(b: seq<byte>)
    requires Parse(b).Ok?
    ensures var m := Parse(b).value; ValidMsg(m) && All(Acceptable, m.args) && Print(m) == b
  {
    var types, data := ParseParts(b);
    var args := Parse(b).value.args;
    ParsePrintArgs(types[1..], data);
    assert TypeString(args) == types;
    assert All(ValidArg, args) by {
      forall i | 0 <= i < |args| ensures ValidArg(args[i]) {
        assert Acceptable(args[i]);
      }
    }
  }

  /** The accepted byte strings are exactly the serialised forms of messages without oversized blobs. */
  lemma AcceptedExactly(b: seq<byte>)
    ensures Parse(b).Ok? <==> exists m :: ValidMsg(m) && All(Acceptable, m.args) && Print(m) == b
  {
    if Parse(b).Ok? {
      ParsePrint(b);
    }
    if m :| ValidMsg(m) && All(Acceptable, m.args) && Print(m) == b {
      PrintParse(m);
    }
  }

  /** Two messages with the same serialised form are the same message. */
  lemma PrintInjective(m: Msg, m': Msg)
    requires ValidMsg(m) && ValidMsg(m') && All(Acceptable, m.args) && All(Acceptable, m'.args) && Print(m) == Print(m')
    ensures m == m'
  {
    PrintParse(m);
    PrintParse(m');
  }
}
