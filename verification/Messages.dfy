/** lo_message: argument types and argument bytes in two growing buffers, and a cache of where each
    argument starts. */
module Messages {
  import opened Wrappers
  import opened Octets
  import opened Lists
  import opened Arguments
  import opened Codec
  import opened Validation

  const DEF_TYPE_SIZE := 8
  const DEF_DATA_SIZE := 8

  /** What a message holds, by value: its type tags and its data bytes. */
  datatype Fields = Fields(types: Name, data: seq<byte>)

  /** A message with the types `i` has the four bytes of a number. */
  type Content = f: Fields | f.types == [INT32] ==> |f.data| == 4 witness Fields([], [])

  function ContentOf(args: seq<Arg>): Content
    requires All(ValidArg, args)
  {
    TagsAreCString(args);
    OneNumber(args);
    Fields(Tags(args), HostData(args))
  }

  /** c is these arguments: tag by tag, and each argument's bytes behind those of the ones before it. */
  ghost predicate Carries(c: Content, args: seq<Arg>) {
    && |c.types| == |args| && |c.data| == |HostData(args)|
    && forall i :: 0 <= i < |args| ==> CarriesOne(c, args, i)
  }

  ghost predicate CarriesOne(c: Content, args: seq<Arg>, i: nat)
    requires i < |args| == |c.types|
  {
    var at := |HostData(args[..i])|;
    c.types[i] == Tag(args[i]) && at + |Host(args[i])| <= |c.data| && c.data[at..at + |Host(args[i])|] == Host(args[i])
  }

  lemma ContentCarries(args: seq<Arg>)
    requires All(ValidArg, args)
    ensures Carries(ContentOf(args), args)
  {
    forall i | 0 <= i < |args| ensures CarriesOne(ContentOf(args), args, i) {
      FlatCut(Host, args, i);
      FlatFrom(Host, args, i);
    }
  }

  /** An argument's place is where its bytes are in the data, and exactly those without bytes have none. */
  lemma PlacePoints(args: seq<Arg>, i: nat)
    requires i < |args|
    ensures var place, h := Places(Host, args)[i], Host(args[i]);
      && (place == Nowhere <==> h == [])
      && (place.Offset? ==> place.at + |h| <= |HostData(args)| && HostData(args)[place.at..place.at + |h|] == h)
      && (place.Offset? ==> place.at == |HostData(args[..i])|)
  {
    FlatCut(Host, args, i);
    FlatFrom(Host, args, i);
  }

  lemma OneNumber(args: seq<Arg>)
    requires All(ValidArg, args)
    ensures Tags(args) == [INT32] ==> |HostData(args)| == 4
  {
    if Tags(args) == [INT32] {
      var a := args[0];
      assert ValidArg(a) && Tag(a) == Tags(args)[0];
      assert Flat(Host, args[1..]) == [] && HostData(args) == Host(a) + Flat(Host, args[1..]);
    }
  }

  class Message {
    var types: array<byte>
    var typelen: nat
    var typesize: nat
    var data: array<byte>
    var datalen: nat
    var datasize: nat
    var argv: array?<Place>

    /** The arguments added so far. */
    ghost var args: seq<Arg>

    /** The type string is `,` and one tag per argument, terminated within its buffer. */
    ghost predicate TypesAre(tags: seq<byte>)
      reads this, types
    {
      && types.Length == typesize && typelen < typesize
      && types[..typelen] == [COMMA] + tags && types[typelen] == 0
    }

    /** The data buffer holds d. */
    ghost predicate DataIs(d: seq<byte>)
      reads this, data
    {
      data.Length == datasize && datalen <= datasize && data[..datalen] == d
    }

    /** Both buffers spell out the arguments, and the cache is empty or says where they start. */
    ghost predicate Valid()
      reads this, types, data, argv
    {
      && All(ValidArg, args)
      && TypesAre(Tags(args))
      && DataIs(HostData(args))
      && (argv != null ==> argv[..] == Places(Host, args))
      && types != data
    }

    /** lo_message_new */
    constructor ()
      ensures Valid() && args == [] && fresh(types) && fresh(data) && argv == null
    {
      types := new byte[DEF_TYPE_SIZE];
      typelen := 1;
      typesize := DEF_TYPE_SIZE;
      data := new byte[0];
      datalen := 0;
      datasize := 0;
      argv := null;
      args := [];
      new;
      types[0] := COMMA;
      types[1] := 0;
    }

    /** The end of lo_message_deserialise: buffers that were filled and checked become a message. */
    constructor Parsed(types: array<byte>, typelen: nat, data: array<byte>, argv: array?<Place>, ghost args: seq<Arg>)
      requires typelen < types.Length && types != data && types[typelen] == 0
      requires types[..typelen] == TypeString(args) && data[..] == HostData(args) && All(ValidArg, args)
      requires argv != null ==> argv[..] == Places(Host, args)
      ensures Valid() && this.args == args && this.types == types && this.data == data && this.argv == argv
    {
      this.types := types;
      this.typelen := typelen;
      this.typesize := types.Length;
      this.data := data;
      this.datalen := data.Length;
      this.datasize := data.Length;
      this.argv := argv;
      this.args := args;
      new;
      assert data[..data.Length] == data[..];
    }

    /** lo_message_add_typechar */
    method AddTypechar(t: byte, ghost tags: seq<byte>)
      requires TypesAre(tags)
      modifies this`types, this`typelen, this`typesize, this`argv, types
      ensures TypesAre(tags + [t]) && argv == null
      ensures types == old(types) || fresh(types)
    {
      if typelen + 1 >= typesize {
        var newTypesize := typesize * 2;
        if newTypesize == 0 {
          newTypesize := DEF_TYPE_SIZE;
        }
        types := Realloc(types, newTypesize);
        typesize := newTypesize;
      }
      types[typelen] := t;
      typelen := typelen + 1;
      types[typelen] := 0;
      argv := null;
    }

    /** lo_message_add_data: makes room for s more bytes and answers where they go. */
    method AddData(s: nat) returns (at: nat)
      requires datalen <= datasize == data.Length
      modifies this`data, this`datalen, this`datasize, this`argv
      ensures fresh(data) && datalen <= datasize == data.Length && argv == null
      ensures at == old(datalen) && datalen == at + s && data[..at] == old(data[..datalen])
    {
      at := datalen;
      var newDatasize := datasize;
      var newDatalen := datalen + s;
      if newDatasize == 0 {
        newDatasize := DEF_DATA_SIZE;
      }
      while newDatalen > newDatasize
        invariant datasize <= newDatasize && newDatasize > 0
        decreases newDatalen - newDatasize
      {
        newDatasize := newDatasize * 2;
      }
      data := Realloc(data, newDatasize);
      datalen := newDatalen;
      datasize := newDatasize;
      argv := null;
    }

    // ----- lo_message_add_* -----

    /** Every adder makes room, appends the type tag and then writes the bytes. */
    ghost predicate Grew(before: seq<Arg>, a: Arg, at: nat)
      reads this, types, data
    {
      && TypesAre(Tags(before) + [Tag(a)]) && argv == null && types != data
      && datalen <= data.Length == datasize && at + |Host(a)| == datalen
      && data[..at] == HostData(before)
    }

    lemma AddedIsValid(before: seq<Arg>, a: Arg, at: nat)
      requires Grew(before, a, at) && All(ValidArg, before) && ValidArg(a) && args == before + [a]
      requires data[at..datalen] == Host(a)
      ensures Valid()
    {
      FlatAppend(Host, before, a);
      assert Tags(args) == Tags(before) + [Tag(a)];
      assert data[..datalen] == data[..at] + data[at..datalen];
    }

    /** The last step of an adder: the bytes of the argument go where room was made for them. */
    method Fill(ghost a: Arg, at: nat, bytes: seq<byte>)
      requires Grew(args, a, at) && All(ValidArg, args) && ValidArg(a) && bytes == Host(a)
      modifies this`args, data
      ensures Valid() && args == old(args) + [a]
    {
      PokedParts(data[..], at, bytes);
      WriteBytes(data, at, bytes);
      Record(a, at, old(data[..]));
    }

    ghost method Record(a: Arg, at: nat, d: seq<byte>)
      requires Grew(args, a, at) && All(ValidArg, args) && ValidArg(a)
      requires at + |Host(a)| <= |d| && data[..] == Poked(d, at, Host(a))
      modifies this`args
      ensures Valid() && args == old(args) + [a]
    {
      PokedParts(d, at, Host(a));
      assert data[..][at..datalen] == data[at..datalen];
      args := args + [a];
      AddedIsValid(old(args), a, at);
    }

    method Grow(tag: byte, size: nat, ghost a: Arg) returns (at: nat)
      requires Valid() && tag == Tag(a) && size == |Host(a)|
      modifies this`types, this`typelen, this`typesize, this`data, this`datalen, this`datasize, this`argv, types
      ensures Grew(args, a, at) && fresh(data) && (types == old(types) || fresh(types))
    {
      at := AddData(size);
      AddTypechar(tag, Tags(args));
    }

    /** lo_message_add_int32, _float, _char and _midi (four bytes), _int64, _timetag and _double (eight). */
    method AddFixed(tag: byte, raw: seq<byte>)
      requires Valid() && ((IsWord(tag) && |raw| == 4) || (IsLong(tag) && |raw| == 8))
      modifies this, types
      ensures Valid() && args == old(args) + [Fixed(tag, raw)]
      ensures fresh(data) && (types == old(types) || fresh(types))
    {
      ghost var a := Fixed(tag, raw);
      var at := Grow(tag, |raw|, a);
      Fill(a, at, raw);
    }

    /** lo_message_add_char: only the first of the four bytes is set. */
    method AddChar(c: byte)
      requires Valid()
      modifies this, types
      ensures Valid() && |args| == |old(args)| + 1 && args[..|old(args)|] == old(args)
      ensures var a := args[|old(args)|]; a.Fixed? && a.tag == CHAR && |a.raw| == 4 && a.raw[0] == c
      ensures fresh(data) && (types == old(types) || fresh(types))
    {
      var b := new byte[4];
      b[0] := c;
      AddFixed(CHAR, b[..]);
    }

    /** lo_message_add_string and lo_message_add_symbol: strncpy fills up with zeros. */
    method AddText(tag: byte, text: seq<byte>)
      requires Valid() && IsText(tag) && IsCString(text)
      modifies this, types
      ensures Valid() && args == old(args) + [Text(tag, text)]
      ensures fresh(data) && (types == old(types) || fresh(types))
    {
      ghost var a := Text(tag, text);
      var size := PaddedSize(|text|);
      var at := Grow(tag, size, a);
      Fill(a, at, text + Zeros(size - |text|));
    }

    /** lo_message_add_blob: clears the last four bytes, then writes the size and the data. */
    method AddBlob(blob: seq<byte>)
      requires Valid() && |blob| < 0x8000_0000
      modifies this, types
      ensures Valid() && args == old(args) + [Arg.Blob(blob)]
      ensures fresh(data) && (types == old(types) || fresh(types))
    {
      ghost var a := Arg.Blob(blob);
      HostBlob(blob);
      BlobSizeExact(|blob|);
      var size := BlobSize(|blob|);
      var at := Grow(BLOB, size, a);
      ghost var d := data[..];
      PokeBlob(at, size, HostWord(|blob|), blob);
      Record(a, at, d);
    }

    method PokeBlob(at: nat, size: nat, w: seq<byte>, blob: seq<byte>)
      requires at + size == datalen <= data.Length && size == PaddedSize(|w + blob|) && |w| == 4
      modifies data
      ensures data[..] == Poked(old(data[..]), at, Padded(w + blob))
    {
      BlobPoked(data[..], at, size, w, blob);
      WriteBytes(data, at + size - 4, Zeros(4));
      WriteBytes(data, at, w);
      WriteBytes(data, at + 4, blob);
    }

    /** lo_message_add_true, _false, _nil and _infinitum: a type tag and no data. */
    method AddFlag(tag: byte)
      requires Valid() && IsFlag(tag)
      modifies this, types
      ensures Valid() && args == old(args) + [Fixed(tag, [])]
      ensures data == old(data) && (types == old(types) || fresh(types))
    {
      ghost var a := Fixed(tag, []);
      AddTypechar(tag, Tags(args));
      args := args + [a];
      FlatAppend(Host, old(args), a);
      assert Tags(args) == Tags(old(args)) + [tag];
    }

    // ----- Reading -----

    /** lo_message_get_argv: walks the type string and the data once and keeps the answer. */
    method GetArgv() returns (places: array<Place>)
      requires Valid()
      modifies this`argv
      ensures Valid() && places[..] == Places(Host, args) && argv == places
      ensures old(argv) != null ==> argv == old(argv)
    {
      if argv != null {
        return argv;
      }
      places := FindPlaces();
      argv := places;
    }

    method FindPlaces() returns (places: array<Place>)
      requires Valid()
      ensures fresh(places) && places[..] == Places(Host, args)
    {
      var argc := typelen - 1;
      places := new Place[argc];
      var ptr, i := 0, 0;
      while i < argc
        invariant i <= argc == |args| && ptr == |Flat(Host, args[..i])|
        invariant forall k :: 0 <= k < i ==> places[k] == PlaceOf(Host, args, k)
      {
        var place, next := PlaceAt(i, ptr);
        places[i] := place;
        ptr := next;
        i := i + 1;
      }
    }

    /** One turn of that loop. */
    method PlaceAt(i: nat, ptr: nat) returns (place: Place, next: nat)
      requires Valid() && i < |args| && ptr == |Flat(Host, args[..i])|
      ensures place == PlaceOf(Host, args, i) && next == |Flat(Host, args[..i + 1])|
    {
      var len := SizeAt(i, ptr);
      FlatUpTo(Host, args, i);
      place := if len > 0 then Offset(ptr) else Nowhere;
      next := ptr + len;
    }

    /** lo_arg_size of argument i, which starts at ptr. */
    method SizeAt(i: nat, ptr: nat) returns (len: nat)
      requires Valid() && i < |args| && ptr == |Flat(Host, args[..i])|
      ensures len == |Host(args[i])| && ptr + len <= datalen
    {
      var tag := TagAt(i);
      ghost var rest := Flat(Host, args[i + 1..]);
      FlatCut(Host, args, i);
      FlatFrom(Host, args, i);
      assert data[ptr..datalen] == data[..datalen][ptr..] == Host(args[i]) + rest;
      assert ValidArg(args[i]);
      ArgSizeIs(args[i], rest);
      len := ArgSize(tag, data[ptr..datalen]);
    }

    /** A copy of what the message holds. */
    method Copied() returns (c: Content)
      requires Valid()
      ensures c == ContentOf(args)
    {
      TagsAreCString(args);
      OneNumber(args);
      assert types[..typelen][1..] == types[1..typelen];
      c := Fields(types[1..typelen], data[..datalen]);
    }

    // ----- lo_message_length and lo_message_serialise -----

    method Length(path: Name) returns (n: nat)
      requires Valid()
      ensures n == |Print(Msg(path, args))|
    {
      n := PaddedSize(|path|) + PaddedSize(typelen) + datalen;
      assert |TypeString(args)| == typelen;
    }

    /** Prints the message into the buffer `to` at `at`, and leaves the rest of the buffer alone. */
    method Serialise(path: Name, to: array<byte>, at: nat) returns (n: nat)
      requires Valid() && to != types && to != data
      requires at + |Print(Msg(path, args))| <= to.Length
      modifies to
      ensures n == |Print(Msg(path, args))|
      ensures to[..] == Poked(old(to[..]), at, Print(Msg(path, args)))
    {
      n := Length(path);
      ghost var d, head := to[..], Padded(path) + Padded(TypeString(args));
      assert Print(Msg(path, args)) == head + WireData(args);
      var ptr := WriteHead(path, to, at);
      WriteBytes(to, ptr, data[..datalen]);
      PokedTwice(d, at, head, HostData(args));
      ToNetwork(d, head, to, at, ptr);
    }

    method WriteHead(path: Name, to: array<byte>, at: nat) returns (ptr: nat)
      requires Valid() && to != types && to != data
      requires at + |Padded(path) + Padded(TypeString(args))| <= to.Length
      modifies to
      ensures ptr == at + |Padded(path) + Padded(TypeString(args))|
      ensures to[..] == Poked(old(to[..]), at, Padded(path) + Padded(TypeString(args)))
    {
      PokedTwice(to[..], at, Padded(path), Padded(TypeString(args)));
      WriteString(to, at, path);
      WriteString(to, at + PaddedSize(|path|), types[..typelen]);
      ptr := at + PaddedSize(|path|) + PaddedSize(typelen);
    }

    /** The serialiser's loop: the data bytes, copied after the head, go to network order in place. */
    method ToNetwork(ghost d: seq<byte>, ghost head: seq<byte>, to: array<byte>, at: nat, from: nat)
      requires Valid() && to != types && to != data
      requires from == at + |head| && from + datalen <= to.Length == |d|
      requires to[..] == Poked(d, at, head + HostData(args))
      modifies to
      ensures to[..] == Poked(d, at, head + WireData(args))
    {
      var argc := typelen - 1;
      var ptr, i := from, 0;
      MixedEnds(args);
      assert |args| == argc && datalen == |HostData(args)|;
      while i < argc
        invariant Valid() && i <= argc == |args| && Sending(d, to[..], at, head, args, i, ptr)
      {
        var len := SendArg(d, head, to, at, ptr, i);
        ptr := ptr + len;
        i := i + 1;
      }
    }

    /** One turn of that loop. */
    method SendArg(ghost d: seq<byte>, ghost head: seq<byte>, to: array<byte>, at: nat, ptr: nat, i: nat) returns (len: nat)
      requires Valid() && to != types && to != data && i < |args| && to.Length == |d|
      requires Sending(d, to[..], at, head, args, i, ptr)
      modifies to
      ensures Sending(d, to[..], at, head, args, i + 1, ptr + len)
    {
      var tag := TagAt(i);
      ghost var a, sent, rest := args[i], head + Flat(Wire, args[..i]), Flat(Host, args[i + 1..]);
      MixedStep(head, args, i);
      MixedNext(head, args, i);
      assert ValidArg(a);
      SwapFits(a);
      len := SizeIn(to, d, at, ptr, tag, sent, a, rest);
      SwapPart(to, d, at, ptr, len, tag, sent, Host(a), rest, Swapper(tag));
    }

    method TagAt(i: nat) returns (tag: byte)
      requires Valid() && i < |args|
      ensures tag == Tag(args[i])
    {
      tag := types[1 + i];
      assert tag == types[..typelen][1 + i] == Tags(args)[i];
    }
  }

  /** The data part of a message whose first i arguments have gone to network order. */
  ghost function Mixed(args: seq<Arg>, i: nat): seq<byte>
    requires i <= |args|
  {
    Flat(Wire, args[..i]) + Flat(Host, args[i..])
  }

  /** Behind the head at `at` the arguments are being sent; the next one is at ptr. */
  ghost predicate Sending(d: seq<byte>, buf: seq<byte>, at: nat, head: seq<byte>, args: seq<Arg>, i: nat, ptr: nat) {
    && i <= |args| && ptr == at + |head| + |Flat(Wire, args[..i])|
    && |Mixed(args, i)| == |HostData(args)| && at + |head| + |HostData(args)| <= |d|
    && buf == Poked(d, at, head + Mixed(args, i))
  }

  lemma MixedStep(head: seq<byte>, args: seq<Arg>, i: nat)
    requires i < |args|
    ensures head + Mixed(args, i) == head + Flat(Wire, args[..i]) + Host(args[i]) + Flat(Host, args[i + 1..])
  {
    FlatFrom(Host, args, i);
  }

  lemma MixedNext(head: seq<byte>, args: seq<Arg>, i: nat)
    requires i < |args|
    ensures head + Mixed(args, i + 1) ==
            head + Flat(Wire, args[..i]) + Swapped(Tag(args[i]), Host(args[i])) + Flat(Host, args[i + 1..])
    ensures |Flat(Wire, args[..i + 1])| == |Flat(Wire, args[..i])| + |Host(args[i])|
    ensures |Mixed(args, i + 1)| == |Mixed(args, i)|
  {
    FlatFrom(Host, args, i);
    FlatUpTo(Wire, args, i);
  }

  lemma MixedEnds(args: seq<Arg>)
    ensures Mixed(args, 0) == HostData(args) && Mixed(args, |args|) == WireData(args)
  {
    assert args[..0] == [] == args[|args|..] && args[..|args|] == args == args[0..];
  }

  /** lo_arg_size of the argument at ptr of a buffer that holds sent, this argument and the rest at `at`. */
  method SizeIn(to: array<byte>, ghost d: seq<byte>, at: nat, ptr: nat, tag: byte,
                ghost sent: seq<byte>, ghost a: Arg, ghost rest: seq<byte>) returns (len: nat)
    requires ValidArg(a) && tag == Tag(a) && ptr == at + |sent|
    requires at + |sent + Host(a) + rest| <= |d| == to.Length && to[..] == Poked(d, at, sent + Host(a) + rest)
    ensures len == |Host(a)|
  {
    ghost var behind := to[ptr..][|Host(a) + rest|..];
    assert to[ptr..] == Host(a) + (rest + behind);
    ArgSizeIs(a, rest + behind);
    len := ArgSize(tag, to[ptr..]);
  }

  /** `swap` is the change of byte order for the tag; it is kept apart from its definition so that the
      work on buffers does not depend on it. */
  ghost predicate IsSwap(swap: seq<byte> -> seq<byte>, tag: byte) {
    && (forall s {:trigger Swapped(tag, s)} :: swap(s) == Swapped(tag, s))
    && (forall s {:trigger swap(s)} :: |swap(s)| == |s|)
  }

  ghost function Swapper(tag: byte): (swap: seq<byte> -> seq<byte>)
    ensures IsSwap(swap, tag)
  {
    s => Swapped(tag, s)
  }

  /** lo_arg_network_endian and lo_arg_host_endian of the argument of len bytes at ptr: reverse the
      word it starts with. */
  method SwapBytes(tag: byte, data: array<byte>, ptr: nat, len: nat, ghost swap: seq<byte> -> seq<byte>)
    requires ptr + len <= data.Length && SwapWidth(tag) <= len && IsSwap(swap, tag)
    modifies data
    ensures data[..] == Poked(old(data[..]), ptr, swap(old(data[..])[ptr..ptr + len]))
  {
    var w := SwapWidth(tag);
    ghost var d := data[..];
    var word := Reverse(data[ptr..ptr + w]);
    assert data[ptr..ptr + w] == d[ptr..ptr + w];
    SwapIsWord(swap, tag, d, ptr, len);
    WordPoked(d, ptr, len, word);
    WriteBytes(data, ptr, word);
  }

  lemma SwapIsWord(swap: seq<byte> -> seq<byte>, tag: byte, d: seq<byte>, at: nat, len: nat)
    requires IsSwap(swap, tag) && SwapWidth(tag) <= len && at + len <= |d|
    ensures var w := SwapWidth(tag);
      swap(d[at..at + len]) == Reverse(d[at..at + w]) + d[at..at + len][w..]
  {
    var w := SwapWidth(tag);
    assert d[at..at + len][..w] == d[at..at + w];
    assert swap(d[at..at + len]) == Swapped(tag, d[at..at + len]);
  }

  /** Writing the front of a part is replacing the part. */
  lemma WordPoked(d: seq<byte>, at: nat, len: nat, word: seq<byte>)
    requires |word| <= len && at + len <= |d|
    ensures Poked(d, at, word) == Poked(d, at, word + d[at..at + len][|word|..])
  {}

  /** A buffer with one part replaced inside what was written at `at`. */
  lemma PokedInside(d: seq<byte>, at: nat, sent: seq<byte>, h: seq<byte>, rest: seq<byte>, h': seq<byte>)
    requires at + |sent + h + rest| <= |d| && |h| == |h'|
    ensures Poked(Poked(d, at, sent + h + rest), at + |sent|, h') == Poked(d, at, sent + h' + rest)
  {}

  lemma PokedRead(d: seq<byte>, at: nat, sent: seq<byte>, h: seq<byte>, rest: seq<byte>)
    requires at + |sent + h + rest| <= |d|
    ensures Poked(d, at, sent + h + rest)[at + |sent|..at + |sent| + |h|] == h
  {}

  /** SwapBytes of the argument bytes h inside what was written at `at`. */
  method SwapPart(to: array<byte>, ghost d: seq<byte>, at: nat, ptr: nat, len: nat, tag: byte,
                  ghost sent: seq<byte>, ghost h: seq<byte>, ghost rest: seq<byte>, ghost swap: seq<byte> -> seq<byte>)
    requires SwapWidth(tag) <= len == |h| && ptr == at + |sent| && IsSwap(swap, tag)
    requires at + |sent + h + rest| <= |d| == to.Length && to[..] == Poked(d, at, sent + h + rest)
    modifies to
    ensures to[..] == Poked(d, at, sent + swap(h) + rest)
  {
    PokedRead(d, at, sent, h, rest);
    PokedInside(d, at, sent, h, rest, swap(h));
    SwapBytes(tag, to, ptr, len, swap);
  }

  // ----- lo_message_deserialise -----

  /** The arguments read so far are what the front of the tags and of the wire bytes stands for. */
  ghost predicate Consumed(done: seq<Arg>, tags: seq<byte>, wire: seq<byte>, ptr: nat) {
    && All(Acceptable, done) && ptr <= |wire| && |done| <= |tags|
    && tags[..|done|] == Tags(done) && wire[..ptr] == WireData(done)
  }

  /** The buffer d holds them in host order, and behind them the wire bytes still to read. */
  ghost predicate Ordered(done: seq<Arg>, wire: seq<byte>, d: seq<byte>, ptr: nat) {
    ptr <= |wire| == |d| && d[..ptr] == HostData(done) && d[ptr..] == wire[ptr..]
  }

  /** The places of the arguments read so far. */
  ghost predicate Noted(done: seq<Arg>, places: seq<Place>) {
    |done| <= |places| && forall i :: 0 <= i < |done| ==> places[i] == PlaceOf(Host, done, i)
  }

  ghost predicate ReadSoFar(done: seq<Arg>, tags: seq<byte>, wire: seq<byte>, data: array<byte>, argv: array?<Place>, ptr: nat)
    reads data, argv
  {
    Consumed(done, tags, wire, ptr) && Ordered(done, wire, data[..], ptr) && (argv != null ==> Noted(done, argv[..]))
  }

  lemma CutFurther(s: seq<byte>, n: nat, len: nat)
    requires n + len <= |s|
    ensures s[..n + len] == s[..n] + s[n..][..len] && (len == 1 ==> s[n..][..len] == [s[n]])
  {}

  lemma ConsumedFurther(done: seq<Arg>, a: Arg, tags: seq<byte>, wire: seq<byte>, ptr: nat, len: nat)
    requires Consumed(done, tags, wire, ptr) && Acceptable(a) && |done| < |tags| && tags[|done|] == Tag(a)
    requires ptr + len <= |wire| && wire[ptr..][..len] == Wire(a)
    ensures Consumed(done + [a], tags, wire, ptr + len)
  {
    FlatAppend(Wire, done, a);
    AllAppend(Acceptable, done, a);
    TagsAppend(done, a);
    CutFurther(tags, |done|, 1);
    CutFurther(wire, ptr, len);
  }

  lemma OrderedFurther(done: seq<Arg>, a: Arg, wire: seq<byte>, d: seq<byte>, d': seq<byte>, ptr: nat, len: nat)
    requires Ordered(done, wire, d, ptr) && ptr + len <= |d| == |d'|
    requires d'[..ptr] == d[..ptr] && d'[ptr..ptr + len] == Host(a) && d'[ptr + len..] == wire[ptr..][len..]
    ensures Ordered(done + [a], wire, d', ptr + len)
  {
    FlatAppend(Host, done, a);
    assert d'[..ptr + len] == d'[..ptr] + d'[ptr..ptr + len];
  }

  lemma NotedFurther(done: seq<Arg>, a: Arg, places: seq<Place>)
    requires Noted(done, places) && |done| < |places|
    requires places[|done|] == if |Host(a)| > 0 then Offset(|HostData(done)|) else Nowhere
    ensures Noted(done + [a], places)
  {
    PlacesAppend(Host, done, a);
    forall i | 0 <= i <= |done| ensures places[i] == PlaceOf(Host, done + [a], i) {
      assert Places(Host, done + [a])[i] == PlaceOf(Host, done + [a], i);
      if i < |done| {
        assert Places(Host, done)[i] == PlaceOf(Host, done, i);
      }
    }
  }

  lemma AcceptableIsValid(args: seq<Arg>)
    requires All(Acceptable, args)
    ensures All(ValidArg, args)
  {
    forall i | 0 <= i < |args| ensures ValidArg(args[i]) {
      assert Acceptable(args[i]);
    }
  }

  /** The parser's argument loop: validates one argument after the other, brings it to host order in
      place and notes where it starts.  The tags are those of the received type string. */
  method ReadLoop(tags: seq<byte>, data: array<byte>, argv: array?<Place>)
    returns (ok: bool, remain: nat, ghost args: seq<Arg>)
    requires argv != null ==> argv.Length == |tags|
    modifies data, argv
    ensures remain <= data.Length && ReadSoFar(args, tags, old(data[..]), data, argv, data.Length - remain)
    ensures if ok then |args| == |tags|
            else |args| < |tags| && CheckArg(tags[|args|], data[data.Length - remain..]) < 0
  {
    ghost var wire := data[..];
    var ptr, i := 0, 0;
    remain := data.Length;
    args := [];
    while i < |tags|
      invariant i == |args| <= |tags| && remain == data.Length - ptr
      invariant ReadSoFar(args, tags, wire, data, argv, ptr)
    {
      var len, a := ReadNext(tags, data, ptr, remain, argv, i, args, wire);
      if len < 0 {
        return false, remain, args;
      }
      args := args + [a];
      remain := remain - len;
      ptr := ptr + len;
      i := i + 1;
    }
    ok := true;
  }

  /** One turn of that loop. */
  method ReadNext(tags: seq<byte>, data: array<byte>, ptr: nat, remain: nat, argv: array?<Place>, i: nat,
                  ghost args: seq<Arg>, ghost wire: seq<byte>)
    returns (len: int, ghost a: Arg)
    requires i == |args| < |tags| && ptr + remain == data.Length
    requires ReadSoFar(args, tags, wire, data, argv, ptr) && (argv != null ==> i < argv.Length)
    modifies data, argv
    ensures len < 0 ==> CheckArg(tags[i], data[ptr..]) < 0 && ReadSoFar(args, tags, wire, data, argv, ptr)
    ensures len >= 0 ==> len <= remain && ReadSoFar(args + [a], tags, wire, data, argv, ptr + len)
  {
    ghost var d := data[..];
    assert data[ptr..] == d[ptr..] == wire[ptr..];
    len, a := Take(tags[i], data, ptr);
    if len >= 0 {
      OrderedFurther(args, a, wire, d, data[..], ptr, len);
      ConsumedFurther(args, a, tags, wire, ptr, len);
      if argv != null {
        argv[i] := if len > 0 then Offset(ptr) else Nowhere;
        NotedFurther(args, a, argv[..]);
      }
    }
  }

  lemma Accepted(tag: byte, s: seq<byte>) returns (a: Arg)
    requires CheckArg(tag, s) >= 0
    ensures Acceptable(a) && Tag(a) == tag && Wire(a) == s[..CheckArg(tag, s)]
    ensures SwapWidth(tag) <= CheckArg(tag, s) && Swapped(tag, s[..CheckArg(tag, s)]) == Host(a)
  {
    a := ReadOne(tag, s).value;
    ArgReadPrint(tag, s);
    WireHost(a);
  }

  /** Validates the argument at ptr and, when it is accepted, brings it to host order. */
  method Take(tag: byte, data: array<byte>, ptr: nat) returns (len: int, ghost a: Arg)
    requires ptr <= data.Length
    modifies data
    ensures len == CheckArg(tag, old(data[ptr..]))
    ensures if len < 0 then data[..] == old(data[..]) else Hosted(tag, old(data[..]), data[..], ptr, len, a)
  {
    ghost var s := data[ptr..];
    assert s == data[ptr..data.Length];
    len := ValidateArg(tag, data, ptr, data.Length - ptr);
    a := Fixed(tag, []);
    if len >= 0 {
      a := Accepted(tag, s);
      assert data[..][ptr..] == s && data[..][ptr..ptr + len] == s[..len];
      HostedThere(tag, data[..], ptr, a);
      SwapBytes(tag, data, ptr, len, Swapper(tag));
    }
  }

  /** Between d and d' the argument a, found in wire order at ptr, went to host order. */
  ghost predicate Hosted(tag: byte, d: seq<byte>, d': seq<byte>, ptr: nat, len: nat, a: Arg) {
    && ptr + len <= |d| == |d'| && Acceptable(a) && Tag(a) == tag
    && d[ptr..][..len] == Wire(a) && d'[ptr..ptr + len] == Host(a)
    && d'[..ptr] == d[..ptr] && d'[ptr + len..] == d[ptr..][len..]
  }

  lemma HostedThere(tag: byte, d: seq<byte>, ptr: nat, a: Arg)
    requires Acceptable(a) && Tag(a) == tag && ptr + |Wire(a)| <= |d| && d[ptr..][..|Wire(a)|] == Wire(a)
    ensures Hosted(tag, d, Poked(d, ptr, Host(a)), ptr, |Wire(a)|, a)
  {
    PokedParts(d, ptr, Host(a));
    assert d[ptr..][|Wire(a)|..] == d[ptr + |Wire(a)|..];
  }

  /** The loop read everything, left bytes over, or met an argument that is not accepted. */
  lemma LoopAnswers(args: seq<Arg>, tags: seq<byte>, wire: seq<byte>, ptr: nat)
    requires Consumed(args, tags, wire, ptr)
    ensures |args| == |tags| ==> ParseArgs(tags, wire) == if ptr == |wire| then Ok(args) else Err(ESIZE)
    ensures |args| < |tags| && CheckArg(tags[|args|], wire[ptr..]) < 0 ==> ParseArgs(tags, wire) == Err(EINVALIDARG)
  {
    AcceptableIsValid(args);
    ParseArgsPast(args, tags[|args|..], wire[ptr..]);
    assert tags == tags[..|args|] + tags[|args|..] && wire == wire[..ptr] + wire[ptr..];
    assert args + [] == args;
  }

  /** The argument part of the parser, on a copy of the data. */
  method ReadArgs(tags: seq<byte>, data: array<byte>)
    returns (argv: array?<Place>, code: int, ghost args: seq<Arg>)
    modifies data
    ensures match ParseArgs(tags, old(data[..]))
            case Ok(xs) =>
              && code == 0 && args == xs && All(ValidArg, xs) && Tags(xs) == tags && data[..] == HostData(xs)
              && (argv == null <==> xs == []) && (argv != null ==> fresh(argv) && argv[..] == Places(Host, xs))
            case Err(c) => code == c != 0
  {
    ghost var wire := data[..];
    argv := null;
    if |tags| > 0 {
      argv := new Place[|tags|];
    }
    var ok, remain;
    ok, remain, args := ReadLoop(tags, data, argv);
    LoopAnswers(args, tags, wire, data.Length - remain);
    if !ok {
      return argv, EINVALIDARG, args;
    }
    if remain != 0 {
      return argv, ESIZE, args;
    }
    code := 0;
    AcceptableIsValid(args);
    assert data[..][..data.Length] == data[..] && tags[..|tags|] == tags;
  }

  /** A copy of part of a buffer. */
  method Copy(a: array<byte>, at: nat, size: nat) returns (b: array<byte>)
    requires at + size <= a.Length
    ensures fresh(b) && b[..] == a[at..at + size]
  {
    b := new byte[size];
    forall i | 0 <= i < size {
      b[i] := a[at + i];
    }
  }

  /** lo_message_deserialise of the `size` bytes at `at`: a new message, or null and an error code. */
  method Deserialise(buf: array<byte>, at: nat, size: nat) returns (m: Message?, code: int)
    requires at + size <= buf.Length
    ensures match Parse(buf[at..at + size])
            case Ok(msg) => m != null && code == 0 && Parsed(m, msg.args) && fresh(m) && fresh(m.types) && fresh(m.data)
            case Err(c) => m == null && code == c
  {
    if size == 0 {
      return null, ESIZE;
    }
    var pathLen := ValidateString(buf, at, size);
    if pathLen < 0 {
      return null, EINVALIDPATH;
    }
    var from, remain := at + pathLen, size - pathLen;
    assert buf[at..at + size][pathLen..] == buf[from..from + remain];
    m, code := DeserialiseTyped(buf, from, remain);
  }

  /** What a message is right after parsing: its argument cache is there unless it has no arguments. */
  ghost predicate Parsed(m: Message, args: seq<Arg>)
    reads m, m.types, m.data, m.argv
  {
    m.Valid() && m.args == args && (m.argv == null <==> args == [])
  }

  /** The parser from the type string on. */
  method DeserialiseTyped(buf: array<byte>, from: nat, remain: nat) returns (m: Message?, code: int)
    requires from + remain <= buf.Length
    ensures match ParseTyped(buf[from..from + remain])
            case Ok(args) => m != null && code == 0 && Parsed(m, args) && fresh(m) && fresh(m.types) && fresh(m.data)
            case Err(c) => m == null && code == c
  {
    if remain == 0 {
      return null, ENOTYPE;
    }
    var typesLen := ValidateString(buf, from, remain);
    if typesLen < 0 {
      return null, EINVALIDTYPE;
    }
    if buf[from] != COMMA {
      return null, EBADTYPE;
    }
    m, code := CopyAndBuild(buf, from, remain, typesLen, buf[from..from + remain]);
  }

  /** The type string and the data are copied into the new message. */
  method CopyAndBuild(buf: array<byte>, from: nat, remain: nat, typesLen: nat, ghost rest: seq<byte>) returns (m: Message?, code: int)
    requires from + remain <= buf.Length && rest == buf[from..from + remain]
    requires typesLen == CheckString(rest) > 0 && rest[0] == COMMA
    ensures match ParseArgs(rest[1..StrLen(rest)], rest[typesLen..])
            case Ok(args) => m != null && code == 0 && Parsed(m, args) && fresh(m) && fresh(m.types) && fresh(m.data)
            case Err(c) => m == null && code == c
  {
    var types := Copy(buf, from, typesLen);
    var typelen := StrLen(types[..]);
    TypesCut(types[..], rest, typesLen);
    var data := Copy(buf, from + typesLen, remain - typesLen);
    assert data[..] == rest[typesLen..];
    assert types[1..typelen] == types[..][1..typelen] && types[0] == types[..][0];
    m, code := Build(types, typelen, data);
  }

  /** The type string at the start of rest, in a buffer of its own. */
  lemma TypesCut(types: seq<byte>, rest: seq<byte>, n: nat)
    requires n <= |rest| && types == rest[..n] && StrLen(rest) < n && rest[0] == COMMA
    ensures StrLen(types) == StrLen(rest) && 1 <= StrLen(types) < |types| && types[StrLen(types)] == 0
    ensures types[0] == COMMA && types[1..StrLen(types)] == rest[1..StrLen(rest)]
  {
    StrLenIs(types, StrLen(rest));
  }

  /** The end of the parser: reads the arguments from copies of the type string and the data. */
  method Build(types: array<byte>, typelen: nat, data: array<byte>) returns (m: Message?, code: int)
    requires 1 <= typelen < types.Length && types != data && types[0] == COMMA && types[typelen] == 0
    modifies data
    ensures match ParseArgs(types[1..typelen], old(data[..]))
            case Ok(args) => m != null && code == 0 && Parsed(m, args) && fresh(m) && m.types == types && m.data == data
            case Err(c) => m == null && code == c
  {
    ghost var tags := types[1..typelen];
    var argv, result, args := ReadArgs(types[1..typelen], data);
    if result != 0 {
      return null, result;
    }
    assert types[..typelen] == [COMMA] + tags;
    m := new Message.Parsed(types, typelen, data, argv, args);
    code := 0;
  }

  /** The buffer d with s written at `at`. */
  function Poked(d: seq<byte>, at: nat, s: seq<byte>): (r: seq<byte>)
    requires at + |s| <= |d|
    ensures |r| == |d|
  {
    d[..at] + s + d[at + |s|..]
  }

  lemma PokedParts(d: seq<byte>, at: nat, s: seq<byte>)
    requires at + |s| <= |d|
    ensures Poked(d, at, s)[at..at + |s|] == s
    ensures Poked(d, at, s)[..at] == d[..at] && Poked(d, at, s)[at + |s|..] == d[at + |s|..]
  {}

  lemma PokedTwice(d: seq<byte>, at: nat, s: seq<byte>, t: seq<byte>)
    requires at + |s| + |t| <= |d|
    ensures Poked(Poked(d, at, s), at + |s|, t) == Poked(d, at, s + t)
  {}

  /** Clearing the last four bytes and then copying a string with its terminator pads it. */
  lemma StringPoked(d: seq<byte>, at: nat, s: seq<byte>)
    requires at + PaddedSize(|s|) <= |d|
    ensures Poked(Poked(d, at + PaddedSize(|s|) - 4, Zeros(4)), at, s + [0]) == Poked(d, at, Padded(s))
  {}

  method WriteBytes(a: array<byte>, at: nat, s: seq<byte>)
    requires at + |s| <= a.Length
    modifies a
    ensures a[..] == Poked(old(a[..]), at, s)
  {
    forall i | 0 <= i < |s| {
      a[at + i] := s[i];
    }
  }

  /** memset over the last four bytes, then strcpy. */
  method WriteString(a: array<byte>, at: nat, s: seq<byte>)
    requires at + PaddedSize(|s|) <= a.Length
    modifies a
    ensures a[..] == Poked(old(a[..]), at, Padded(s))
  {
    StringPoked(a[..], at, s);
    WriteBytes(a, at + PaddedSize(|s|) - 4, Zeros(4));
    WriteBytes(a, at, s + [0]);
  }

  /** Four zeros at the end, then the size, then the data: a padded blob. */
  lemma BlobPoked(d: seq<byte>, at: nat, size: nat, w: seq<byte>, blob: seq<byte>)
    requires |w| == 4 && size == PaddedSize(|w + blob|) && at + size <= |d|
    ensures var r := Poked(Poked(Poked(d, at + size - 4, Zeros(4)), at, w), at + 4, blob);
      r == Poked(d, at, Padded(w + blob))
  {}

  /** realloc to a larger block: the old contents and then whatever was there. */
  method Realloc(a: array<byte>, size: nat) returns (b: array<byte>)
    requires size >= a.Length
    ensures fresh(b) && b.Length == size && b[..a.Length] == a[..]
  {
    b := new byte[size];
    forall i | 0 <= i < a.Length {
      b[i] := a[i];
    }
  }
}
