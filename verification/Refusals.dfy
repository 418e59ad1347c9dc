/** Which error code answers which bad buffer: every answer of the validators and of the parser, told
    from the bytes alone. */
module Refusals {
  import opened Wrappers
  import opened Octets
  import opened Lists
  import opened Arguments
  import opened Codec
  import opened Timetags
  import opened Bundles

  // ----- Strings and blobs -----

  /** Where the zeros behind the last of n bytes end: at the next multiple of four, one at least. */
  function EndOf(n: nat): nat {
    n + 4 - n % 4
  }

  lemma EndIs(n: nat)
    ensures EndOf(n) == PaddedSize(n)
  {}

  ghost predicate Dirty(s: seq<byte>, from: nat, to: nat)
    requires from <= to <= |s|
  {
    exists i :: from <= i < to && s[i] != 0
  }

  lemma DirtyIs(s: seq<byte>, from: nat, to: nat)
    requires from <= to <= |s|
    ensures Dirty(s, from, to) <==> !AllZero(s[from..to])
  {
    var t := s[from..to];
    if !AllZero(t) {
      var i :| 0 <= i < |t| && t[i] != 0;
      assert s[from + i] == t[i];
    }
    if i :| from <= i < to && s[i] != 0 {
      assert t[i - from] == s[i];
    }
  }

  /** Without a zero there is no string; with the first zero at n the string's end decides. */
  lemma StringAnswer(s: seq<byte>, n: nat)
    requires n <= |s| && (n < |s| ==> s[n] == 0) && forall i :: 0 <= i < n ==> s[i] != 0
    ensures CheckString(s) ==
      if n == |s| then -ETERM else if EndOf(n) > |s| then -ESIZE else if Dirty(s, n, EndOf(n)) then -EPAD else EndOf(n)
  {
    EndIs(n);
    assert StrLen(s) == n;
    if n < |s| && EndOf(n) <= |s| {
      DirtyIs(s, n, EndOf(n));
    }
  }

  /** A blob needs eight bytes; then its size field, most significant byte first, decides. */
  lemma BlobAnswer(s: seq<byte>)
    ensures |s| < 8 ==> CheckBlob(s) == -ESIZE
    ensures |s| >= 8 ==>
      var end := 4 + (TWO24 * s[0] + TWO16 * s[1] + TWO8 * s[2] + s[3]);
      CheckBlob(s) == if end > 4 + 32768 || EndOf(end) > |s| then -ESIZE
                      else if Dirty(s, end, EndOf(end)) then -EPAD else EndOf(end)
  {
    if |s| >= 4 {
      var end := 4 + NetValue(s[..4]);
      EndIs(end);
      if EndOf(end) <= |s| {
        DirtyIs(s, end, EndOf(end));
      }
    }
  }

  /** Only arguments of an unknown type are refused with that code. */
  lemma UnknownType(tag: byte, s: seq<byte>)
    ensures CheckArg(tag, s) == -EINVALIDTYPE <==> tag !in TAGS
  {}

  // ----- Messages -----

  ghost predicate StartsWithString(s: seq<byte>) {
    exists t: Name :: Padded(t) <= s
  }

  lemma StringInFront(s: seq<byte>)
    ensures CheckString(s) >= 0 <==> StartsWithString(s)
    ensures CheckString(s) >= 0 ==> s == Padded(s[..StrLen(s)]) + s[CheckString(s)..]
  {
    if CheckString(s) >= 0 {
      ParsePrintString(s);
      var t: Name := s[..StrLen(s)];
      assert Padded(t) <= s;
    }
    if t: Name :| Padded(t) <= s {
      StringAccepted(s, t);
    }
  }

  lemma StringThen(t: Name, r: seq<byte>)
    ensures var s := Padded(t) + r;
      CheckString(s) == |Padded(t)| && StrLen(s) == |t| && s[..StrLen(s)] == t && s[CheckString(s)..] == r
  {
    StringAccepted(Padded(t) + r, t);
  }

  lemma Rejoin(s: seq<byte>, n: nat, a: seq<byte>, b: seq<byte>)
    requires n <= |s| && s[n..] == a + b
    ensures s == (s[..n] + a) + b
  {}

  /** A list that is not read either has bytes left over or a first record that is refused. */
  lemma {:induction false} HowItEnds<A>(read: (byte, seq<byte>) -> Read<A>, tag: A -> byte, bytes: A -> seq<byte>,
                                        good: A -> bool, tags: seq<byte>, s: seq<byte>, refused: int, left: int)
    returns (xs: seq<A>, ts: seq<byte>, r: seq<byte>)
    requires Sound(read, tag, bytes, good) && ReadAll(read, tags, s, refused, left).Err?
    ensures All(good, xs) && tags == Map(tag, xs) + ts && s == Flat(bytes, xs) + r
    ensures ts == [] ==> r != [] && ReadAll(read, tags, s, refused, left) == Err(left)
    ensures ts != [] ==> read(ts[0], r).Refused? && ReadAll(read, tags, s, refused, left) == Err(refused)
    decreases |tags|
  {
    xs, ts, r := [], tags, s;
    if tags != [] && read(tags[0], s).Got? {
      var x, n := read(tags[0], s).value, read(tags[0], s).size;
      xs, ts, r := HowItEnds(read, tag, bytes, good, tags[1..], s[n..], refused, left);
      FlatHead(bytes, x, xs);
      Rejoin(s, n, Flat(bytes, xs), r);
      assert Map(tag, [x] + xs) == [tag(x)] + Map(tag, xs);
      xs := [x] + xs;
    } else {
      assert tags == Map(tag, xs) + ts && s == Flat(bytes, xs) + r;
    }
  }

  lemma ArgumentsEnd(tags: seq<byte>, s: seq<byte>) returns (args: seq<Arg>, ts: seq<byte>, r: seq<byte>)
    requires ParseArgs(tags, s).Err?
    ensures All(Acceptable, args) && tags == Tags(args) + ts && s == WireData(args) + r
    ensures ts == [] ==> r != [] && ParseArgs(tags, s) == Err(ESIZE)
    ensures ts != [] ==> CheckArg(ts[0], r) < 0 && ParseArgs(tags, s) == Err(EINVALIDARG)
  {
    ReaderSound();
    args, ts, r := HowItEnds(ReadOne, Tag, Wire, Acceptable, tags, s, EINVALIDARG, ESIZE);
  }

  lemma Valids(args: seq<Arg>)
    requires All(Acceptable, args)
    ensures All(ValidArg, args)
  {
    forall i | 0 <= i < |args| ensures ValidArg(args[i]) {
      assert Acceptable(args[i]);
    }
  }

  lemma ArgumentsRefused(args: seq<Arg>, ts: seq<byte>, r: seq<byte>)
    requires All(Acceptable, args) && (if ts == [] then r != [] else CheckArg(ts[0], r) < 0)
    ensures ParseArgs(Tags(args) + ts, WireData(args) + r) == Err(if ts == [] then ESIZE else EINVALIDARG)
  {
    Valids(args);
    ParseArgsPast(args, ts, r);
  }

  /** The path is not a string. */
  ghost predicate BadPath(b: seq<byte>) {
    b != [] && !StartsWithString(b)
  }

  /** Behind the path p there is no type string. */
  ghost predicate BadTypes(b: seq<byte>, p: Name, r: seq<byte>) {
    b == Padded(p) + r && r != [] && !StartsWithString(r)
  }

  /** The type string t has no comma in front. */
  ghost predicate NoComma(b: seq<byte>, p: Name, t: Name, r: seq<byte>) {
    b == Padded(p) + (Padded(t) + r) && (t == [] || t[0] != COMMA)
  }

  /** The type string t has a comma in front; the arguments args are read, and then the first of the
      types ts is refused at r. */
  ghost predicate BadArgument(b: seq<byte>, p: Name, t: Name, args: seq<Arg>, ts: seq<byte>, r: seq<byte>) {
    && All(Acceptable, args) && ts != [] && CheckArg(ts[0], r) < 0
    && t != [] && t[0] == COMMA && t[1..] == Tags(args) + ts
    && b == Padded(p) + (Padded(t) + (WireData(args) + r))
  }

  /** There are bytes behind a whole message. */
  ghost predicate Surplus(b: seq<byte>, m: Msg, r: seq<byte>) {
    All(Acceptable, m.args) && r != [] && b == Print(m) + r
  }

  lemma Behind(p: Name, r: seq<byte>)
    requires r != []
    ensures Parse(Padded(p) + r) == match ParseTyped(r) case Err(code) => Err(code) case Ok(args) => Ok(Msg(p, args))
  {
    StringThen(p, r);
  }

  lemma BehindBoth(p: Name, t: Name, r: seq<byte>)
    ensures Parse(Padded(p) + (Padded(t) + r)) ==
      if t == [] || t[0] != COMMA then Err(EBADTYPE) else
      match ParseArgs(t[1..], r) case Err(code) => Err(code) case Ok(args) => Ok(Msg(p, args))
  {
    Behind(p, Padded(t) + r);
    StringThen(t, r);
    assert (Padded(t) + r)[..|t|] == t;
    if t == [] {
      assert (Padded(t) + r)[0] == Padded(t)[0] == 0;
    } else {
      assert (Padded(t) + r)[1..|t|] == t[1..];
    }
  }

  lemma TypedRefused(p: Name, t: Name, r: seq<byte>, tags: seq<byte>)
    requires t == [COMMA] + tags && ParseArgs(tags + [], r).Err?
    ensures Parse(Padded(p) + (Padded(t) + r)) == Err(ParseArgs(tags + [], r).code)
  {
    BehindBoth(p, t, r);
    assert t[1..] == tags + [];
  }

  lemma BadTypesRefused(b: seq<byte>, p: Name, r: seq<byte>)
    requires BadTypes(b, p, r)
    ensures Parse(b) == Err(EINVALIDTYPE)
  {
    Behind(p, r);
    StringInFront(r);
  }

  lemma BadArgumentRefused(b: seq<byte>, p: Name, t: Name, args: seq<Arg>, ts: seq<byte>, r: seq<byte>)
    requires BadArgument(b, p, t, args, ts, r)
    ensures Parse(b) == Err(EINVALIDARG)
  {
    BehindBoth(p, t, WireData(args) + r);
    ArgumentsRefused(args, ts, r);
  }

  lemma Regrouped(a: seq<byte>, b: seq<byte>, c: seq<byte>, d: seq<byte>)
    ensures a + b + c + d == a + (b + (c + d))
  {}

  lemma SurplusRefused(b: seq<byte>, m: Msg, r: seq<byte>)
    requires Surplus(b, m, r)
    ensures Parse(b) == Err(ESIZE)
  {
    Valids(m.args);
    TagsAreCString(m.args);
    Regrouped(Padded(m.path), Padded(TypeString(m.args)), WireData(m.args), r);
    ArgumentsRefused(m.args, [], r);
    TypedRefused(m.path, TypeString(m.args), WireData(m.args) + r, Tags(m.args));
  }

  /** Each way to be bad has its code. */
  lemma BadIsRefused(b: seq<byte>)
    ensures BadPath(b) ==> Parse(b) == Err(EINVALIDPATH)
    ensures forall p: Name :: b == Padded(p) ==> Parse(b) == Err(ENOTYPE)
    ensures forall p, r :: BadTypes(b, p, r) ==> Parse(b) == Err(EINVALIDTYPE)
    ensures forall p, t, r :: NoComma(b, p, t, r) ==> Parse(b) == Err(EBADTYPE)
    ensures forall p, t, args, ts, r :: BadArgument(b, p, t, args, ts, r) ==> Parse(b) == Err(EINVALIDARG)
    ensures forall m, r :: Surplus(b, m, r) ==> Parse(b) == Err(ESIZE)
  {
    StringInFront(b);
    forall p: Name | b == Padded(p) ensures Parse(b) == Err(ENOTYPE) {
      StringThen(p, []);
      assert Padded(p) + [] == b;
    }
    forall p, r | BadTypes(b, p, r) ensures Parse(b) == Err(EINVALIDTYPE) {
      BadTypesRefused(b, p, r);
    }
    forall p, t, r | NoComma(b, p, t, r) ensures Parse(b) == Err(EBADTYPE) {
      BehindBoth(p, t, r);
    }
    forall p, t, args, ts, r | BadArgument(b, p, t, args, ts, r) ensures Parse(b) == Err(EINVALIDARG) {
      BadArgumentRefused(b, p, t, args, ts, r);
    }
    forall m, r | Surplus(b, m, r) ensures Parse(b) == Err(ESIZE) {
      SurplusRefused(b, m, r);
    }
  }

  /** And what is refused is bad in one of these ways. */
  ghost predicate Bad(b: seq<byte>, code: int) {
    || (code == EINVALIDPATH && BadPath(b))
    || (code == ENOTYPE && exists p: Name :: b == Padded(p))
    || (code == EINVALIDTYPE && exists p, r :: BadTypes(b, p, r))
    || (code == EBADTYPE && exists p, t, r :: NoComma(b, p, t, r))
    || (code == EINVALIDARG && exists p, t, args, ts, r :: BadArgument(b, p, t, args, ts, r))
    || (code == ESIZE && (b == [] || exists m, r :: Surplus(b, m, r)))
  }

  lemma RefusedIsBad(b: seq<byte>)
    requires Parse(b).Err?
    ensures Bad(b, Parse(b).code)
  {
    StringInFront(b);
    if b != [] && CheckString(b) >= 0 {
      BehindPathBad(b, b[..StrLen(b)], b[CheckString(b)..]);
    }
  }

  lemma BehindPathBad(b: seq<byte>, p: Name, rest: seq<byte>)
    requires b == Padded(p) + rest && Parse(b).Err?
    ensures Bad(b, Parse(b).code)
  {
    StringInFront(rest);
    if rest == [] {
      StringThen(p, []);
      assert b == Padded(p);
    } else if CheckString(rest) < 0 {
      assert BadTypes(b, p, rest);
      BadTypesRefused(b, p, rest);
    } else {
      BehindTypesBad(b, p, rest[..StrLen(rest)], rest[CheckString(rest)..]);
    }
  }

  lemma BehindTypesBad(b: seq<byte>, p: Name, t: Name, r: seq<byte>)
    requires b == Padded(p) + (Padded(t) + r) && Parse(b).Err?
    ensures Bad(b, Parse(b).code)
  {
    BehindBoth(p, t, r);
    if t == [] || t[0] != COMMA {
      assert NoComma(b, p, t, r);
    } else {
      ArgumentsBad(b, p, t, r);
    }
  }

  lemma ArgumentsBad(b: seq<byte>, p: Name, t: Name, s: seq<byte>)
    requires b == Padded(p) + (Padded(t) + s) && t != [] && t[0] == COMMA && ParseArgs(t[1..], s).Err?
    ensures Bad(b, ParseArgs(t[1..], s).code)
  {
    var args, ts, r := ArgumentsEnd(t[1..], s);
    if ts == [] {
      assert TypeString(args) == t;
      Regroup(Padded(p) + Padded(t), WireData(args), r);
      assert Surplus(b, Msg(p, args), r);
    } else {
      assert BadArgument(b, p, t, args, ts, r);
    }
  }

  /** Which code lo_message_deserialise answers to which buffer, for all buffers. */
  lemma RefusedExactly(b: seq<byte>, code: int)
    ensures Parse(b) == Err(code) <==> Bad(b, code)
  {
    BadIsRefused(b);
    if Parse(b).Err? {
      RefusedIsBad(b);
    }
  }

  // ----- Bundles -----

  predicate Small(e: seq<byte>) {
    |e| < TWO32
  }

  lemma {:induction false} ElementsSmall(s: seq<byte>)
    requires Tiled(s)
    ensures All(Small, Elements(s))
    decreases |s|
  {
    if |s| < 4 {
    } else {
      var n := NetValue(s[..4]);
      ElementsStep(s, n);
      ElementsSmall(s[4 + n..]);
    }
  }

  function Itself(e: seq<byte>): seq<byte> {
    e
  }

  /** The body of a bundle is some byte strings behind their sizes, and nothing else. */
  lemma TiledExactly(s: seq<byte>)
    ensures Tiled(s) <==> exists es :: All(Small, es) && Flat(Sized, es) == s
  {
    if Tiled(s) {
      ElementsSmall(s);
      ElementsTile(s);
    }
    if es :| All(Small, es) && Flat(Sized, es) == s {
      SizedElements(es);
    }
  }

  lemma SizedElements(es: seq<seq<byte>>)
    requires All(Small, es)
    ensures Tiled(Flat(Sized, es)) && Elements(Flat(Sized, es)) == es
  {
    forall i | 0 <= i < |es| ensures Prefixed(Itself, Sized, es[i]) {
      assert Small(es[i]);
      SmallStays(|es[i]|);
    }
    ElementsOf(Itself, Sized, es);
    assert Map(Itself, es) == es;
  }

  ghost predicate IsBundleOf(b: seq<byte>, ts: Timetag, es: seq<seq<byte>>) {
    All(Small, es) && b == Header(ts) + Flat(Sized, es)
  }

  lemma BundleIsAccepted(b: seq<byte>, ts: Timetag, es: seq<seq<byte>>)
    requires IsBundleOf(b, ts, es)
    ensures CheckBundle(b) == |b|
  {
    HeaderReads(ts, Flat(Sized, es));
    TiledExactly(Flat(Sized, es));
  }

  lemma AcceptedIsBundle(b: seq<byte>) returns (ts: Timetag, es: seq<seq<byte>>)
    requires CheckBundle(b) >= 0
    ensures IsBundleOf(b, ts, es)
  {
    StringInFront(b);
    assert CheckString(b) == 8;
    ts := Timetag(NetValue(b[8..12]), NetValue(b[12..16]));
    es := Elements(b[16..]);
    ValueWord(b[8..12]);
    ValueWord(b[12..16]);
    ElementsSmall(b[16..]);
    ElementsTile(b[16..]);
    HeaderCut(b);
  }

  lemma HeaderCut(b: seq<byte>)
    requires |b| >= 16
    ensures b == b[..8] + b[8..12] + b[12..16] + b[16..] && b[8..] == b[8..12] + b[12..16] + b[16..]
  {}

  /** What lo_validate_bundle accepts: exactly the mark, a time tag and elements behind their sizes.
      Another string in front is no bundle, and everything else has a wrong size. */
  lemma BundleAnswer(b: seq<byte>)
    ensures CheckBundle(b) == |b| <==> exists ts, es :: IsBundleOf(b, ts, es)
    ensures CheckBundle(b) == -EINVALIDBUND <==> exists p: Name :: p != MARK && Padded(p) <= b
    ensures CheckBundle(b) == |b| || CheckBundle(b) == -EINVALIDBUND || CheckBundle(b) == -ESIZE
  {
    if CheckBundle(b) >= 0 {
      var ts, es := AcceptedIsBundle(b);
    }
    if ts, es :| IsBundleOf(b, ts, es) {
      BundleIsAccepted(b, ts, es);
    }
    StringInFront(b);
    if CheckBundle(b) == -EINVALIDBUND {
      var p: Name := b[..StrLen(b)];
      assert Padded(p) <= b;
    }
    if p: Name :| p != MARK && Padded(p) <= b {
      StringAccepted(b, p);
    }
  }

  // ----- Two buffers byte by byte -----

  const ANSWER: Msg := Msg(['/' as int, 'a' as int], [Fixed(INT32, HostWord(42))])

  /** The message `/a` with the number 42. */
  lemma MessageBytes()
    ensures Print(ANSWER) == ['/' as int, 'a' as int, 0, 0, ',' as int, 'i' as int, 0, 0, 0, 0, 0, 42]
  {
    NumberOnWire(INT32, 42);
    FlatHead(Wire, ANSWER.args[0], []);
    assert ANSWER.args == [ANSWER.args[0]] + [];
    assert WireData(ANSWER.args) == NetWord(42) + Flat(Wire, []);
    assert TypeString(ANSWER.args) == [',' as int, 'i' as int];
    assert Padded(TypeString(ANSWER.args)) == [',' as int, 'i' as int, 0, 0];
    assert Padded(ANSWER.path) == ['/' as int, 'a' as int, 0, 0];
  }

  /** A bundle of that message, for half a second after second one. */
  lemma BundleBytes()
    ensures PrintBundle(Timetag(1, 0x8000_0000), [ANSWER]) ==
      ['#' as int, 'b' as int, 'u' as int, 'n' as int, 'd' as int, 'l' as int, 'e' as int, 0,
       0, 0, 0, 1, 128, 0, 0, 0, 0, 0, 0, 12] + Print(ANSWER)
  {
    MessageBytes();
    assert Flat(Element, [ANSWER]) == Element(ANSWER) + [];
    assert NetWord(12) == [0, 0, 0, 12] && NetWord(1) == [0, 0, 0, 1] && NetWord(0x8000_0000) == [128, 0, 0, 0];
    assert Padded(MARK) == MARK + [0];
  }
}
