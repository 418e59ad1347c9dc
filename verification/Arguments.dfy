/** OSC arguments: what an argument is, its bytes in a message's data buffer (host order) and on the
    wire (network order), and liblo's size and byte-order helpers. */
module Arguments {
  import opened Octets
  import opened Lists

  // ----- Type tags -----

  const INT32: byte := 'i' as int
  const FLOAT: byte := 'f' as int
  const STRING: byte := 's' as int
  const BLOB: byte := 'b' as int
  const INT64: byte := 'h' as int
  const TIMETAG: byte := 't' as int
  const DOUBLE: byte := 'd' as int
  const SYMBOL: byte := 'S' as int
  const CHAR: byte := 'c' as int
  const MIDI: byte := 'm' as int
  const TRUE: byte := 'T' as int
  const FALSE: byte := 'F' as int
  const NIL: byte := 'N' as int
  const INFINITUM: byte := 'I' as int

  predicate IsFlag(tag: byte) { tag == TRUE || tag == FALSE || tag == NIL || tag == INFINITUM }
  predicate IsWord(tag: byte) { tag == INT32 || tag == FLOAT || tag == MIDI || tag == CHAR }
  predicate IsLong(tag: byte) { tag == INT64 || tag == TIMETAG || tag == DOUBLE }
  predicate IsText(tag: byte) { tag == STRING || tag == SYMBOL }

  // ----- Arguments -----

  /** Numbers, characters, MIDI packets and time tags are their four or eight bytes in host order;
      the four flags carry no bytes. */
  datatype Arg = Fixed(tag: byte, raw: seq<byte>) | Text(tag: byte, text: seq<byte>) | Blob(data: seq<byte>)

  function Tag(a: Arg): byte {
    if a.Blob? then BLOB else a.tag
  }

  predicate ValidArg(a: Arg) {
    match a
    case Fixed(tag, raw) =>
      (IsFlag(tag) && raw == []) || (IsWord(tag) && |raw| == 4) || (IsLong(tag) && |raw| == 8)
    case Text(tag, text) => IsText(tag) && IsCString(text)
    case Blob(data) => |data| < 0x8000_0000
  }

  /** The bytes of an argument in the data buffer. */
  function Host(a: Arg): seq<byte> {
    match a
    case Fixed(_, raw) => raw
    case Text(_, text) => Padded(text)
    case Blob(data) => Padded(HostWord(|data| % TWO32) + data)
  }

  /** How many bytes at the start of an argument of this type change between host and network order. */
  function SwapWidth(tag: byte): nat {
    if tag == INT32 || tag == FLOAT || tag == BLOB || tag == CHAR then 4
    else if IsLong(tag) then 8
    else 0
  }

  /** Between host and network order, in either direction. */
  function Swapped(tag: byte, s: seq<byte>): (r: seq<byte>)
    ensures |r| == |s|
  {
    if SwapWidth(tag) > |s| then s else Reverse(s[..SwapWidth(tag)]) + s[SwapWidth(tag)..]
  }

  lemma SwapHead(tag: byte, head: seq<byte>, tail: seq<byte>)
    requires |head| == SwapWidth(tag)
    ensures Swapped(tag, head + tail) == Reverse(head) + tail
  {
    assert (head + tail)[..|head|] == head && (head + tail)[|head|..] == tail;
  }

  lemma SwappedTwice(tag: byte, s: seq<byte>)
    ensures Swapped(tag, Swapped(tag, s)) == s
  {
    var w := SwapWidth(tag);
    if w <= |s| {
      assert s == s[..w] + s[w..];
      SwapHead(tag, Reverse(s[..w]), s[w..]);
      ReverseTwice(s[..w]);
    }
  }

  lemma SwapFits(a: Arg)
    requires ValidArg(a)
    ensures SwapWidth(Tag(a)) <= |Host(a)|
  {}

  /** The bytes of an argument on the wire. */
  function Wire(a: Arg): (r: seq<byte>)
    ensures |r| == |Host(a)|
  {
    Swapped(Tag(a), Host(a))
  }

  lemma WireHost(a: Arg)
    requires ValidArg(a)
    ensures Swapped(Tag(a), Wire(a)) == Host(a) && SwapWidth(Tag(a)) <= |Wire(a)|
  {
    SwappedTwice(Tag(a), Host(a));
    SwapFits(a);
  }

  /** The wire carries 32-bit numbers with the most significant byte first. */
  lemma NumberOnWire(tag: byte, n: nat)
    requires n < TWO32 && (tag == INT32 || tag == FLOAT || tag == CHAR)
    ensures Wire(Fixed(tag, HostWord(n))) == NetWord(n)
  {
    WordOrder(n);
    SwapHead(tag, HostWord(n), []);
    assert HostWord(n) + [] == HostWord(n) && NetWord(n) + [] == NetWord(n);
  }

  /** And 64-bit numbers, whose lower half comes first in host order. */
  lemma LongOnWire(tag: byte, lo: nat, hi: nat)
    requires lo < TWO32 && hi < TWO32 && (tag == INT64 || tag == DOUBLE)
    ensures Wire(Fixed(tag, HostWord(lo) + HostWord(hi))) == NetWord(hi) + NetWord(lo)
  {
    LongReversed(tag, lo, hi);
  }

  lemma LongReversed(tag: byte, lo: nat, hi: nat)
    requires lo < TWO32 && hi < TWO32 && SwapWidth(tag) == 8
    ensures Swapped(tag, HostWord(lo) + HostWord(hi)) == NetWord(hi) + NetWord(lo)
  {
    var s := HostWord(lo) + HostWord(hi);
    WordOrder(lo);
    WordOrder(hi);
    SwapHead(tag, s, []);
    assert s + [] == s;
    ReverseJoin(HostWord(lo), HostWord(hi));
  }

  lemma ReverseJoin(a: seq<byte>, b: seq<byte>)
    ensures Reverse(a + b) == Reverse(b) + Reverse(a)
  {}

  /** A time tag is two words, seconds and then fractions, but is swapped as one 64-bit number.  So the
      fractions go first, and the wire has OSC's order exactly if the two words are equal. */
  lemma TimetagOnWire(sec: nat, frac: nat)
    requires sec < TWO32 && frac < TWO32
    ensures var w := Wire(Fixed(TIMETAG, HostWord(sec) + HostWord(frac)));
      w == NetWord(frac) + NetWord(sec) && (w == NetWord(sec) + NetWord(frac) <==> sec == frac)
  {
    LongReversed(TIMETAG, sec, frac);
    var w := NetWord(frac) + NetWord(sec);
    assert w[..4] == NetWord(frac) && (NetWord(sec) + NetWord(frac))[..4] == NetWord(sec);
    WordValue(sec);
    WordValue(frac);
  }

  /** MIDI packets go out as they are, and so do strings, behind which come one to four zeros up to the
      next multiple of four. */
  lemma PlainOnWire(raw: seq<byte>, text: seq<byte>, tag: byte)
    requires tag == STRING || tag == SYMBOL
    ensures Wire(Fixed(MIDI, raw)) == raw
    ensures var w := Wire(Text(tag, text));
      && text <= w && |w| % 4 == 0 && |text| < |w| <= |text| + 4
      && forall i :: |text| <= i < |w| ==> w[i] == 0
  {
    SwapHead(MIDI, [], raw);
    SwapHead(tag, [], Padded(text));
    assert [] + raw == raw && [] + Padded(text) == Padded(text);
  }

  /** The tags of OSC 1.0 that liblo knows: i f m c h t d s S b T F N I. */
  const TAGS: seq<byte> := ['i' as int, 'f' as int, 'm' as int, 'c' as int, 'h' as int, 't' as int, 'd' as int,
                            's' as int, 'S' as int, 'b' as int, 'T' as int, 'F' as int, 'N' as int, 'I' as int]

  /** Which arguments there are: number i of these tags has four bytes for i < 4, eight for i < 7 and
      none for i > 9. */
  lemma TagsExist(tag: byte, raw: seq<byte>)
    ensures tag in TAGS <==> exists a :: ValidArg(a) && Tag(a) == tag
    ensures ValidArg(Fixed(tag, raw)) <==>
            (tag in TAGS[..4] && |raw| == 4) || (tag in TAGS[4..7] && |raw| == 8) || (tag in TAGS[10..] && raw == [])
  {
    assert TAGS[..4] == [INT32, FLOAT, MIDI, CHAR] && TAGS[4..7] == [INT64, TIMETAG, DOUBLE];
    assert TAGS[10..] == [TRUE, FALSE, NIL, INFINITUM];
    TagsOf(tag);
  }

  lemma TagsOf(tag: byte)
    ensures tag in TAGS <==> exists a :: ValidArg(a) && Tag(a) == tag
  {
    var a := if IsText(tag) then Text(tag, []) else if tag == BLOB then Arg.Blob([])
             else Fixed(tag, Zeros(if IsWord(tag) then 4 else if IsLong(tag) then 8 else 0));
    if tag in TAGS {
      assert ValidArg(a) && Tag(a) == tag;
    }
  }

  // ----- Argument lists -----

  function Tags(args: seq<Arg>): (r: seq<byte>)
    ensures |r| == |args| && forall i :: 0 <= i < |args| ==> r[i] == Tag(args[i])
  {
    Map(Tag, args)
  }

  lemma TagsAppend(args: seq<Arg>, a: Arg)
    ensures Tags(args + [a]) == Tags(args) + [Tag(a)]
  {}

  /** The data buffer of a message, and the argument part of its serialised form. */
  function HostData(args: seq<Arg>): seq<byte> { Flat(Host, args) }

  function WireData(args: seq<Arg>): (r: seq<byte>)
    ensures |r| == |HostData(args)|
  {
    FlatSameSizes(Wire, Host, args);
    Flat(Wire, args)
  }

  // ----- liblo's size helpers -----

  /** lo_blobsize of a size field, in 32-bit arithmetic. */
  function BlobSize(size: nat): nat {
    4 * ((4 + size) % TWO32 / 4 + 1) % TWO32
  }

  /** lo_arg_size of the bytes at a data pointer. */
  function ArgSize(tag: byte, s: seq<byte>): nat
    requires tag == BLOB ==> |s| >= 4
  {
    if IsWord(tag) then 4
    else if IsLong(tag) then 8
    else if IsText(tag) then PaddedSize(StrLen(s))
    else if tag == BLOB then BlobSize(HostValue(s[..4]))
    else 0
  }

  lemma TextSizeIs(text: seq<byte>, tag: byte, rest: seq<byte>)
    requires IsCString(text) && IsText(tag)
    ensures ArgSize(tag, Padded(text) + rest) == |Padded(text)|
  {
    PaddedLength(text, rest);
  }

  lemma BlobSizeExact(n: nat)
    requires n < 0x8000_0000
    ensures BlobSize(n) == PaddedSize(4 + n)
  {
    SmallStays(4 + n);
    SmallStays(4 * ((4 + n) / 4 + 1));
  }

  lemma HostBlob(data: seq<byte>)
    requires |data| < 0x8000_0000
    ensures Host(Arg.Blob(data)) == Padded(HostWord(|data|) + data)
    ensures |Host(Arg.Blob(data))| == PaddedSize(4 + |data|)
  {
    SmallStays(|data|);
  }

  lemma BlobSizeIs(data: seq<byte>, rest: seq<byte>)
    requires |data| < 0x8000_0000
    ensures var h := Host(Arg.Blob(data)); |h| >= 4 && ArgSize(BLOB, h + rest) == |h|
  {
    HostBlob(data);
    BlobSizeExact(|data|);
    WordAhead(HostWord(|data|), data, rest);
    WordValue(|data|);
    assert ArgSize(BLOB, Host(Arg.Blob(data)) + rest) == BlobSize(|data|);
  }

  lemma WordAhead(w: seq<byte>, data: seq<byte>, rest: seq<byte>)
    requires |w| == 4
    ensures (Padded(w + data) + rest)[..4] == w
  {}

  lemma FixedSizeIs(tag: byte, raw: seq<byte>, rest: seq<byte>)
    requires ValidArg(Fixed(tag, raw))
    ensures tag != BLOB && ArgSize(tag, raw + rest) == |raw|
  {}

  /** The size helper finds the end of any valid argument, whatever follows it. */
  lemma ArgSizeIs(a: Arg, rest: seq<byte>)
    requires ValidArg(a)
    ensures a.Blob? ==> |Host(a)| >= 4
    ensures ArgSize(Tag(a), Host(a) + rest) == |Host(a)|
  {
    if a.Fixed? {
      FixedSizeIs(a.tag, a.raw, rest);
    } else if a.Text? {
      TextSizeIs(a.text, a.tag, rest);
    } else {
      BlobSizeIs(a.data, rest);
    }
  }
}
