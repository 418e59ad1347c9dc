/** The two passes over a message whose arguments are converted for a handler: the first adds up the
    size of the converted arguments, the second converts them into a buffer of that size. */
module Coercion {
  import opened Octets
  import opened Lists
  import opened Arguments
  import opened Messages
  import opened Dispatch

  /** How numbers are converted is left open: eight bytes, of which the target type uses the first
      four or all. */
  type Eight = s: seq<byte> | |s| == 8 witness [0, 0, 0, 0, 0, 0, 0, 0]
  type Conversion = (byte, byte, seq<byte>) -> Eight

  /** The argument after its conversion to type `to`. */
  function Converted(convert: Conversion, to: byte, a: Arg): Arg {
    if Tag(a) == to || a.Blob? then a
    else if a.Text? then Text(to, a.text)
    else Fixed(to, convert(a.tag, to, a.raw)[..if IsLong(to) then 8 else 4])
  }

  function ConvertedAll(convert: Conversion, spec: seq<byte>, args: seq<Arg>): (r: seq<Arg>)
    requires |spec| == |args|
    ensures |r| == |args| && forall i :: 0 <= i < |args| ==> r[i] == Converted(convert, spec[i], args[i])
  {
    seq(|args|, i requires 0 <= i < |args| => Converted(convert, spec[i], args[i]))
  }

  /** The bytes that the conversion of a to c writes.  Strings are copied without their padding. */
  function Image(a: Arg, c: Arg): seq<byte> {
    if c.Text? && c != a then c.text + [0] else Host(c)
  }

  /** The slot at `at` is inside the buffer d and holds the argument a converted to c. */
  ghost predicate Holds(d: seq<byte>, at: nat, a: Arg, c: Arg) {
    at + |Image(a, c)| <= at + |Host(c)| <= |d| && d[at..at + |Image(a, c)|] == Image(a, c)
  }

  predicate Convertible(a: Arg, to: byte) {
    ValidArg(a) && CanCoerce(Tag(a), to)
  }

  lemma ConvertedValid(convert: Conversion, to: byte, a: Arg)
    requires Convertible(a, to)
    ensures var c := Converted(convert, to, a); ValidArg(c) && Tag(c) == to && |Image(a, c)| <= |Host(c)|
    ensures a.Text? ==> Converted(convert, to, a) == Text(to, a.text)
  {}

  /** What a conversion keeps: an argument that has the type already, the text of a string, and for numbers
      the type asked for and what the conversion makes of its bytes. */
  lemma ConversionKeeps(convert: Conversion, to: byte, a: Arg)
    requires Convertible(a, to)
    ensures Tag(a) == to ==> Converted(convert, to, a) == a && Image(a, a) == Host(a)
    ensures Tag(a) != to && a.Text? ==>
      Converted(convert, to, a) == Text(to, a.text) && Image(a, Text(to, a.text)) == a.text + [0]
    ensures Tag(a) != to && !a.Text? ==>
      var c := Converted(convert, to, a);
      && a.Fixed? && c.Fixed? && c.tag == to && |c.raw| == (if to == 'h' as int || to == 'd' as int then 8 else 4)
      && c.raw <= convert(a.tag, to, a.raw) && Image(a, c) == c.raw
  {}

  /** The size of the converted argument can be read off the argument before its conversion. */
  lemma SizeBefore(convert: Conversion, to: byte, a: Arg, rest: seq<byte>)
    requires Convertible(a, to)
    ensures to == BLOB ==> |Host(a)| >= 4
    ensures ArgSize(to, Host(a) + rest) == |Host(Converted(convert, to, a))|
  {
    ArgSizeIs(a, rest);
    ConvertedValid(convert, to, a);
  }

  /** It can also be read off the converted argument, although its padding was not written. */
  lemma SizeAfter(convert: Conversion, to: byte, a: Arg, d: seq<byte>, at: nat)
    requires Convertible(a, to) && Holds(d, at, a, Converted(convert, to, a))
    ensures at <= |d| && (to == BLOB ==> |d[at..]| >= 4)
    ensures ArgSize(to, d[at..]) == |Host(Converted(convert, to, a))|
  {
    var c, s := Converted(convert, to, a), d[at..];
    ConvertedValid(convert, to, a);
    assert s == Image(a, c) + d[at + |Image(a, c)|..];
    if c.Text? && c != a {
      forall i | 0 <= i <= |c.text| ensures s[i] == (c.text + [0])[i] {}
      StrLenIs(s, |c.text|);
    } else {
      ArgSizeIs(c, d[at + |Image(a, c)|..]);
    }
  }

  lemma HoldsStill(d: seq<byte>, d': seq<byte>, n: nat, at: nat, a: Arg, c: Arg)
    requires Holds(d, at, a, c) && at + |Host(c)| <= n <= |d| == |d'| && d'[..n] == d[..n]
    ensures Holds(d', at, a, c)
  {
    var m := |Image(a, c)|;
    forall i | at <= i < at + m ensures d'[i] == d[i] {
      assert d'[i] == d'[..n][i] && d[i] == d[..n][i];
    }
    assert d'[at..at + m] == d[at..at + m];
  }

  /** The bytes lo_coerce writes for an argument at the front of s. */
  function Coerced(convert: Conversion, to: byte, from: byte, s: seq<byte>): seq<byte>
    requires CanCoerce(from, to) && (if from == BLOB then |s| >= 4 else true)
  {
    if to == from then s[..Min(ArgSize(from, s), |s|)]
    else if IsText(to) then s[..StrLen(s)] + [0]
    else convert(from, to, s[..Min(if IsLong(from) then 8 else 4, |s|)])[..if IsLong(to) then 8 else 4]
  }

  function Min(m: nat, n: nat): nat { if m <= n then m else n }

  lemma CoercedIs(convert: Conversion, to: byte, a: Arg, rest: seq<byte>)
    requires Convertible(a, to)
    ensures a.Blob? ==> |Host(a)| >= 4
    ensures Coerced(convert, to, Tag(a), Host(a) + rest) == Image(a, Converted(convert, to, a))
  {
    var s := Host(a) + rest;
    ArgSizeIs(a, rest);
    assert s[..|Host(a)|] == Host(a);
    if a.Text? {
      PaddedLength(a.text, rest);
      assert s[..|a.text|] == a.text;
    }
  }

  /** lo_coerce of one argument, from ptr in the message's data to `at` in the new buffer. */
  method LoCoerce(convert: Conversion, typeTo: byte, to: array<byte>, at: nat, typeFrom: byte, from: seq<byte>,
                  ghost a: Arg, ghost rest: seq<byte>)
    requires Convertible(a, typeTo) && typeFrom == Tag(a) && from == Host(a) + rest
    requires at + |Host(Converted(convert, typeTo, a))| <= to.Length
    modifies to
    ensures Holds(to[..], at, a, Converted(convert, typeTo, a))
    ensures to[..][..at] == old(to[..])[..at]
    ensures var end := at + |Image(a, Converted(convert, typeTo, a))|; end <= to.Length && to[..][end..] == old(to[..])[end..]
  {
    ConvertedValid(convert, typeTo, a);
    CoercedIs(convert, typeTo, a, rest);
    var image := Coerced(convert, typeTo, typeFrom, from);
    PokedParts(to[..], at, image);
    WriteBytes(to, at, image);
  }

  /** The message's data from ptr on, where argument i starts. */
  lemma DataFrom(msg: Message, i: nat, ptr: nat)
    requires msg.Valid() && i < |msg.args| && ptr == |Flat(Host, msg.args[..i])|
    ensures ptr <= msg.datalen && msg.data[ptr..msg.datalen] == Host(msg.args[i]) + Flat(Host, msg.args[i + 1..])
    ensures ValidArg(msg.args[i])
  {
    FlatCut(Host, msg.args, i);
    FlatFrom(Host, msg.args, i);
    assert msg.data[ptr..msg.datalen] == msg.data[..msg.datalen][ptr..];
  }

  /** The slots of the first i arguments: each starts where the last one ends. */
  ghost predicate Filled(d: seq<byte>, argv: seq<nat>, args: seq<Arg>, cs: seq<Arg>, i: nat)
    requires |args| == |cs|
  {
    i <= |args| && i <= |argv| && forall k :: 0 <= k < i ==> InPlace(d, argv[k], args, cs, k)
  }

  ghost predicate InPlace(d: seq<byte>, at: nat, args: seq<Arg>, cs: seq<Arg>, k: nat)
    requires k < |args| == |cs|
  {
    at == |Flat(Host, cs[..k])| && Holds(d, at, args[k], cs[k])
  }

  ghost predicate Coercible(msg: Message, spec: seq<byte>)
    reads msg, msg.types, msg.data, msg.argv
  {
    msg.Valid() && CanCoerceSpec(Tags(msg.args), spec)
  }

  /** The size of the converted arguments in front of number i. */
  ghost function SizeUpTo(convert: Conversion, spec: seq<byte>, args: seq<Arg>, i: nat): nat
    requires |spec| == |args| && i <= |args|
  {
    |Flat(Host, ConvertedAll(convert, spec, args)[..i])|
  }

  /** One turn of the first loop: the size of the converted argument, and where the next one starts. */
  method Measure(convert: Conversion, msg: Message, spec: seq<byte>, i: nat, ptr: nat) returns (size: nat, next: nat)
    requires Coercible(msg, spec) && i < |msg.args| && ptr == |Flat(Host, msg.args[..i])|
    ensures next == |Flat(Host, msg.args[..i + 1])|
    ensures SizeUpTo(convert, spec, msg.args, i) + size == SizeUpTo(convert, spec, msg.args, i + 1)
  {
    ghost var a := msg.args[i];
    DataFrom(msg, i, ptr);
    assert Convertible(a, spec[i]) by {
      assert CanCoerce(Tags(msg.args)[i], spec[i]);
    }
    SizeBefore(convert, spec[i], a, Flat(Host, msg.args[i + 1..]));
    size := ArgSize(spec[i], msg.data[ptr..msg.datalen]);
    var len := msg.SizeAt(i, ptr);
    FlatUpTo(Host, msg.args, i);
    FlatUpTo(Host, ConvertedAll(convert, spec, msg.args), i);
    next := ptr + len;
  }

  /** The first pass. */
  method OpSize(convert: Conversion, msg: Message, spec: seq<byte>) returns (opsize: nat)
    requires Coercible(msg, spec)
    ensures opsize == |HostData(ConvertedAll(convert, spec, msg.args))|
  {
    opsize := 0;
    var ptr, i := 0, 0;
    while i < |spec|
      invariant i <= |spec| == |msg.args| && ptr == |Flat(Host, msg.args[..i])|
      invariant opsize == SizeUpTo(convert, spec, msg.args, i)
    {
      var size, next := Measure(convert, msg, spec, i, ptr);
      opsize, ptr, i := opsize + size, next, i + 1;
    }
    assert ConvertedAll(convert, spec, msg.args)[..i] == ConvertedAll(convert, spec, msg.args);
  }

  lemma FilledStill(d: seq<byte>, d': seq<byte>, n: nat, argv: seq<nat>, args: seq<Arg>, cs: seq<Arg>, i: nat)
    requires |args| == |cs| && Filled(d, argv, args, cs, i)
    requires n == |Flat(Host, cs[..i])| <= |d| == |d'| && d'[..n] == d[..n]
    ensures Filled(d', argv, args, cs, i)
  {
    forall k | 0 <= k < i ensures InPlace(d', argv[k], args, cs, k) {
      assert InPlace(d, argv[k], args, cs, k);
      FlatCut(Host, cs[..i], k + 1);
      assert cs[..i][..k + 1] == cs[..k + 1];
      FlatUpTo(Host, cs, k);
      HoldsStill(d, d', n, argv[k], args[k], cs[k]);
    }
  }

  lemma Room(cs: seq<Arg>, i: nat)
    requires i < |cs|
    ensures |Flat(Host, cs[..i])| + |Host(cs[i])| == |Flat(Host, cs[..i + 1])| <= |HostData(cs)|
  {
    FlatUpTo(Host, cs, i);
    FlatCut(Host, cs, i + 1);
  }

  /** Slots do not overlap. */
  lemma OwnSlots(cs: seq<Arg>, i: nat, j: nat)
    requires i < j < |cs|
    ensures |Flat(Host, cs[..i])| + |Host(cs[i])| <= |Flat(Host, cs[..j])|
    ensures |Flat(Host, cs[..j])| + |Host(cs[j])| <= |HostData(cs)|
  {
    Room(cs, i);
    Room(cs, j);
    FlatCut(Host, cs[..j], i + 1);
    assert cs[..j][..i + 1] == cs[..i + 1];
  }

  /** One more slot is filled. */
  lemma FilledFurther(d: seq<byte>, d': seq<byte>, argv: seq<nat>, args: seq<Arg>, cs: seq<Arg>, i: nat, at: nat)
    requires i < |args| == |cs| == |argv| && Filled(d, argv, args, cs, i) && at == |Flat(Host, cs[..i])|
    requires at <= |d| == |d'| && d'[..at] == d[..at] && Holds(d', at, args[i], cs[i])
    ensures Filled(d', argv[i := at], args, cs, i + 1)
  {
    FilledStill(d, d', at, argv, args, cs, i);
    var argv' := argv[i := at];
    forall k | 0 <= k < i + 1 ensures InPlace(d', argv'[k], args, cs, k) {
      if k < i {
        assert InPlace(d', argv[k], args, cs, k);
      }
    }
  }

  /** One turn of the second loop: argument i goes to its slot at `at`. */
  method Put(convert: Conversion, msg: Message, spec: seq<byte>, to: array<byte>, i: nat, ptr: nat, at: nat)
    returns (size: nat, next: nat)
    requires Coercible(msg, spec) && i < |msg.args| && ptr == |Flat(Host, msg.args[..i])|
    requires to != msg.data && to != msg.types
    requires to.Length == |HostData(ConvertedAll(convert, spec, msg.args))|
    requires at == SizeUpTo(convert, spec, msg.args, i) <= to.Length
    modifies to
    ensures next == |Flat(Host, msg.args[..i + 1])|
    ensures at + size == SizeUpTo(convert, spec, msg.args, i + 1) <= to.Length
    ensures to[..][..at] == old(to[..])[..at]
    ensures Holds(to[..], at, msg.args[i], ConvertedAll(convert, spec, msg.args)[i])
  {
    ghost var a, cs := msg.args[i], ConvertedAll(convert, spec, msg.args);
    DataFrom(msg, i, ptr);
    assert Convertible(a, spec[i]) by {
      assert CanCoerce(Tags(msg.args)[i], spec[i]);
    }
    Room(cs, i);
    FlatUpTo(Host, msg.args, i);
    var len := msg.SizeAt(i, ptr);
    var tag := msg.TagAt(i);
    LoCoerce(convert, spec[i], to, at, tag, msg.data[ptr..msg.datalen], a, Flat(Host, msg.args[i + 1..]));
    SizeAfter(convert, spec[i], a, to[..], at);
    assert to[..][at..] == to[at..];
    size := ArgSize(spec[i], to[at..]);
    next := ptr + len;
  }

  /** The same, with its slot noted in the argument vector. */
  method PutNext(convert: Conversion, msg: Message, spec: seq<byte>, to: array<byte>, argv: array<nat>, i: nat, ptr: nat, at: nat)
    returns (size: nat, next: nat)
    requires Coercible(msg, spec) && i < |msg.args| == argv.Length && ptr == |Flat(Host, msg.args[..i])|
    requires to != msg.data && to != msg.types
    requires to.Length == |HostData(ConvertedAll(convert, spec, msg.args))|
    requires at == SizeUpTo(convert, spec, msg.args, i) <= to.Length
    requires Filled(to[..], argv[..], msg.args, ConvertedAll(convert, spec, msg.args), i)
    modifies to, argv
    ensures next == |Flat(Host, msg.args[..i + 1])|
    ensures at + size == SizeUpTo(convert, spec, msg.args, i + 1) <= to.Length
    ensures Filled(to[..], argv[..], msg.args, ConvertedAll(convert, spec, msg.args), i + 1)
  {
    ghost var d, v := to[..], argv[..];
    size, next := Put(convert, msg, spec, to, i, ptr, at);
    FilledFurther(d, to[..], v, msg.args, ConvertedAll(convert, spec, msg.args), i, at);
    argv[i] := at;
    assert argv[..] == v[i := at];
  }

  lemma SizeEnds(convert: Conversion, spec: seq<byte>, args: seq<Arg>)
    requires |spec| == |args|
    ensures SizeUpTo(convert, spec, args, 0) == 0
    ensures SizeUpTo(convert, spec, args, |args|) == |HostData(ConvertedAll(convert, spec, args))|
  {
    var cs := ConvertedAll(convert, spec, args);
    assert cs[..0] == [] && cs[..|args|] == cs;
  }

  /** The second pass, which ends exactly at the end of the buffer. */
  method FillSlots(convert: Conversion, msg: Message, spec: seq<byte>, to: array<byte>, argv: array<nat>)
    requires Coercible(msg, spec) && to != msg.data && to != msg.types && argv.Length == |msg.args|
    requires to.Length == |HostData(ConvertedAll(convert, spec, msg.args))|
    modifies to, argv
    ensures Filled(to[..], argv[..], msg.args, ConvertedAll(convert, spec, msg.args), |msg.args|)
  {
    SizeEnds(convert, spec, msg.args);
    var ptr, at, i := 0, 0, 0;
    while i < |spec|
      invariant Coercible(msg, spec) && i <= |spec| == |msg.args| && ptr == |Flat(Host, msg.args[..i])|
      invariant at == SizeUpTo(convert, spec, msg.args, i) <= to.Length
      invariant Filled(to[..], argv[..], msg.args, ConvertedAll(convert, spec, msg.args), i)
    {
      var size, next := PutNext(convert, msg, spec, to, argv, i, ptr, at);
      at, ptr, i := at + size, next, i + 1;
    }
    assert at == to.Length;
  }

  /** Both passes: every argument is in its own slot, and the argument vector points at the slots. */
  method CoerceAll(convert: Conversion, msg: Message, spec: seq<byte>) returns (dataCo: array<byte>, argv: array<nat>)
    requires Coercible(msg, spec)
    ensures fresh(dataCo) && fresh(argv) && argv.Length == |msg.args|
    ensures var cs := ConvertedAll(convert, spec, msg.args);
      dataCo.Length == |HostData(cs)| && Filled(dataCo[..], argv[..], msg.args, cs, |cs|)
  {
    var opsize := OpSize(convert, msg, spec);
    argv := new nat[|spec|];
    dataCo := new byte[opsize];
    FillSlots(convert, msg, spec, dataCo, argv);
  }
}
