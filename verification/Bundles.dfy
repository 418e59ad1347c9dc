/** OSC bundles: the format, the bundle validator, and lo_bundle with its serialiser. */
module Bundles {
  import opened Octets
  import opened Lists
  import opened Codec
  import opened Timetags
  import opened Validation
  import opened Messages

  // ----- The format -----

  const MARK: seq<byte> := ['#' as int, 'b' as int, 'u' as int, 'n' as int, 'd' as int, 'l' as int, 'e' as int]

  /** One element: the size of the message, as far as 32 bits hold it, and the message. */
  function Element(m: Msg): seq<byte> {
    NetWord(|Print(m)| % TWO32) + Print(m)
  }

  function Header(ts: Timetag): (r: seq<byte>)
    ensures |r| == 16
  {
    Padded(MARK) + NetWord(ts.sec) + NetWord(ts.frac)
  }

  /** The serialised form of a bundle. */
  function PrintBundle(ts: Timetag, ms: seq<Msg>): seq<byte> {
    Header(ts) + Flat(Element, ms)
  }

  // ----- lo_validate_bundle -----

  /** Whether size fields and elements fill the buffer exactly. */
  predicate Tiled(s: seq<byte>) {
    if |s| < 4 then |s| == 0 else
    var n := NetValue(s[..4]);
    n <= |s| - 4 && Tiled(s[4 + n..])
  }

  function CheckBundle(b: seq<byte>): int {
    var len := CheckString(b);
    if len < 0 then -ESIZE
    else if b[..StrLen(b)] != MARK then -EINVALIDBUND
    else if |b| - len < 8 then -ESIZE
    else if Tiled(b[len + 8..]) then |b|
    else -ESIZE
  }

  /** The elements of a tiled buffer. */
  function Elements(s: seq<byte>): seq<seq<byte>>
    requires Tiled(s)
  {
    if |s| < 4 then [] else
    var n := NetValue(s[..4]);
    [s[4..4 + n]] + Elements(s[4 + n..])
  }

  function Sized(e: seq<byte>): seq<byte> {
    NetWord(|e| % TWO32) + e
  }

  lemma ElementsStep(s: seq<byte>, n: nat)
    requires Tiled(s) && |s| >= 4 && n == NetValue(s[..4])
    ensures 4 + n <= |s| && Tiled(s[4 + n..]) && Elements(s) == [s[4..4 + n]] + Elements(s[4 + n..])
  {}

  /** The first element of a tiled buffer, behind its size. */
  lemma FirstSized(s: seq<byte>, n: nat)
    requires |s| >= 4 && n == NetValue(s[..4]) && 4 + n <= |s|
    ensures Sized(s[4..4 + n]) + s[4 + n..] == s
  {
    ValueWord(s[..4]);
    SizedIs(s[4..4 + n], n);
    Rejoined(s, n);
  }

  lemma SizedIs(e: seq<byte>, n: nat)
    requires |e| == n < TWO32
    ensures Sized(e) == NetWord(n) + e
  {
    SmallStays(n);
  }

  lemma Rejoined(s: seq<byte>, n: nat)
    requires 4 + n <= |s|
    ensures (s[..4] + s[4..4 + n]) + s[4 + n..] == s
  {}

  /** A tiled buffer is its elements behind their sizes, without a byte left over. */
  lemma {:induction false} ElementsTile(s: seq<byte>)
    requires Tiled(s)
    ensures Flat(Sized, Elements(s)) == s
    decreases |s|
  {
    if |s| < 4 {
      assert s == [];
    } else {
      var n := NetValue(s[..4]);
      ElementsStep(s, n);
      ElementsTile(s[4 + n..]);
      FlatHead(Sized, s[4..4 + n], Elements(s[4 + n..]));
      FirstSized(s, n);
    }
  }

  /** Every message is short enough for a 32-bit size field. */
  predicate Short(m: Msg) {
    |Print(m)| < TWO32
  }

  lemma FirstElement(p: seq<byte>, rest: seq<byte>)
    requires |p| < TWO32
    ensures var s := NetWord(|p|) + p + rest;
      (Tiled(s) <==> Tiled(rest)) && (Tiled(rest) ==> Elements(s) == [p] + Elements(rest))
  {
    var s := NetWord(|p|) + p + rest;
    WordValue(|p|);
    assert s[..4] == NetWord(|p|);
    assert s[4..4 + |p|] == p && s[4 + |p|..] == rest;
  }

  /** e is p behind its size, where the size fits 32 bits. */
  predicate Prefixed<A>(p: A -> seq<byte>, e: A -> seq<byte>, x: A) {
    |p(x)| < TWO32 && e(x) == NetWord(|p(x)|) + p(x)
  }

  /** Records behind their sizes, for any kind of record. */
  lemma {:induction false} ElementsOf<A>(p: A -> seq<byte>, e: A -> seq<byte>, xs: seq<A>)
    requires forall i :: 0 <= i < |xs| ==> Prefixed(p, e, xs[i])
    ensures Tiled(Flat(e, xs)) && Elements(Flat(e, xs)) == Map(p, xs)
  {
    if xs == [] {
    } else {
      assert Prefixed(p, e, xs[0]);
      FirstElement(p(xs[0]), Flat(e, xs[1..]));
      ElementsOf(p, e, xs[1..]);
      assert Map(p, xs) == [p(xs[0])] + Map(p, xs[1..]);
    }
  }

  lemma ElementsOfPrinted(ms: seq<Msg>)
    requires All(Short, ms)
    ensures Tiled(Flat(Element, ms)) && Elements(Flat(Element, ms)) == Map(Print, ms)
  {
    forall i | 0 <= i < |ms| ensures Prefixed(Print, Element, ms[i]) {
      assert Short(ms[i]);
      ElementPrefixed(ms[i]);
    }
    ElementsOf(Print, Element, ms);
  }

  lemma ElementPrefixed(m: Msg)
    requires Short(m)
    ensures Prefixed(Print, Element, m)
  {}

  lemma HeaderReads(ts: Timetag, body: seq<byte>)
    ensures var b := Header(ts) + body;
      && CheckString(b) == 8 && b[..StrLen(b)] == MARK && b[16..] == body
      && NetValue(b[8..12]) == ts.sec && NetValue(b[12..16]) == ts.frac
  {
    var b := Header(ts) + body;
    assert IsCString(MARK);
    assert Padded(MARK) <= b;
    StringAccepted(b, MARK);
    assert b[8..12] == NetWord(ts.sec) && b[12..16] == NetWord(ts.frac);
    WordValue(ts.sec);
    WordValue(ts.frac);
  }

  /** Every printed bundle is accepted, and its elements are the printed messages. */
  lemma BundleAccepted(ts: Timetag, ms: seq<Msg>)
    requires All(Short, ms)
    ensures CheckBundle(PrintBundle(ts, ms)) == |PrintBundle(ts, ms)|
    ensures Elements(PrintBundle(ts, ms)[16..]) == Map(Print, ms)
  {
    HeaderReads(ts, Flat(Element, ms));
    ElementsOfPrinted(ms);
  }

  /** lo_validate_bundle of the `size` bytes at `at`. */
  method ValidateBundle(a: array<byte>, at: nat, size: nat) returns (r: int)
    requires at + size <= a.Length
    ensures r == CheckBundle(a[at..at + size])
  {
    ghost var b := a[at..at + size];
    var len := ValidateString(a, at, size);
    if len < 0 {
      return -ESIZE;
    }
    var path := a[at..at + size];
    if path[..StrLen(path)] != MARK {
      return -EINVALIDBUND;
    }
    var pos, remain := at + len, size - len;
    if remain < 8 {
      return -ESIZE;
    }
    assert a[pos + 8..pos + remain] == b[len + 8..];
    var ok := ValidateElements(a, pos + 8, remain - 8);
    return if ok then size else -ESIZE;
  }

  /** The validator's loop over the elements. */
  method ValidateElements(a: array<byte>, at: nat, size: nat) returns (ok: bool)
    requires at + size <= a.Length
    ensures ok == Tiled(a[at..at + size])
  {
    var pos, remain := at, size;
    while remain >= 4
      invariant pos + remain == at + size
      invariant Tiled(a[pos..pos + remain]) <==> Tiled(a[at..at + size])
    {
      ghost var s := a[pos..pos + remain];
      var elemLen := NetValue(a[pos..pos + 4]);
      assert s[..4] == a[pos..pos + 4];
      pos, remain := pos + 4, remain - 4;
      if elemLen > remain {
        return false;
      }
      assert s[4 + elemLen..] == a[pos + elemLen..pos + remain];
      pos, remain := pos + elemLen, remain - elemLen;
    }
    ok := remain == 0;
  }

  // ----- lo_bundle -----

  ghost function Carried(paths: seq<Name>, held: seq<Message>): (ms: seq<Msg>)
    requires |paths| == |held|
    reads held
    ensures |ms| == |held| && forall i :: 0 <= i < |held| ==> ms[i] == Msg(paths[i], held[i].args)
  {
    seq(|held|, i requires 0 <= i < |held| reads held => Msg(paths[i], held[i].args))
  }

  /** A message ready to be written to the buffer `to`. */
  ghost predicate Fit(m: Message, to: array<byte>)
    reads m, m.types, m.data, m.argv
  {
    m.Valid() && to != m.types && to != m.data
  }

  class Bundle {
    var size: nat
    var len: nat
    const ts: Timetag
    var msgs: array<Message?>
    var paths: array<Name>

    /** The messages added so far. */
    ghost var held: seq<Message>

    ghost predicate Valid()
      reads this, msgs, paths
    {
      && len <= size == msgs.Length == paths.Length && 0 < size && len == |held|
      && msgs[..len] == held
    }

    /** What the bundle carries: each message under its path, in the order of adding. */
    ghost function Contents(): (ms: seq<Msg>)
      requires Valid()
      reads this, msgs, paths, held
    {
      Carried(paths[..len], held)
    }

    /** lo_bundle_new */
    constructor (ts: Timetag)
      ensures Valid() && Contents() == [] && this.ts == ts && fresh(msgs) && fresh(paths)
    {
      size := 4;
      len := 0;
      this.ts := ts;
      msgs := new Message?[4](_ => null);
      paths := new Name[4](_ => []);
      held := [];
    }

    /** lo_bundle_add_message: nothing happens for a null message. */
    method AddMessage(path: Name, m: Message?)
      requires Valid()
      modifies this, msgs, paths
      ensures Valid()
      ensures Contents() == old(Contents()) + if m == null then [] else [Msg(path, m.args)]
      ensures held == old(held) + if m == null then [] else [m]
    {
      if m == null {
        return;
      }
      MakeRoom();
      msgs[len] := m;
      paths[len] := path;
      len := len + 1;
      held := held + [m];
    }

    method MakeRoom()
      requires Valid()
      modifies this`size, this`msgs, this`paths
      ensures Valid() && len < size && paths[..len] == old(paths[..len])
      ensures (msgs == old(msgs) && paths == old(paths)) || (fresh(msgs) && fresh(paths))
    {
      if len >= size {
        size := size * 2;
        msgs := Larger(msgs, size, null);
        paths := Larger(paths, size, []);
      }
    }

    // ----- lo_bundle_length and lo_bundle_serialise -----

    method Length() returns (n: nat)
      requires Valid() && forall m :: m in held ==> m.Valid()
      ensures n == |PrintBundle(ts, Contents())|
    {
      n := 16 + len * 4;
      ghost var ms := Contents();
      var i := 0;
      while i < len
        invariant i <= len && n == 16 + (len - i) * 4 + |Flat(Element, ms[..i])|
      {
        var k := LengthOf(i);
        FlatUpTo(Element, ms, i);
        n := n + k;
        i := i + 1;
      }
      assert ms[..len] == ms;
    }

    method LengthOf(i: nat) returns (n: nat)
      requires Valid() && i < len && held[i].Valid()
      ensures n == |Print(Contents()[i])|
    {
      assert msgs[..len][i] == msgs[i] && paths[..len][i] == paths[i];
      n := msgs[i].Length(paths[i]);
    }

    /** One turn of the serialiser's loop: the message goes behind the place of its size word. */
    method SendElement(ghost d: seq<byte>, ghost sent: seq<byte>, to: array<byte>, pos: nat, i: nat, ghost m: Msg) returns (skip: nat)
      requires Valid() && i < len && Fit(held[i], to) && m == Contents()[i]
      requires pos == |sent| && pos + |Element(m)| <= to.Length == |d| && to[..] == Poked(d, 0, sent)
      modifies to
      ensures skip + 4 == |Element(m)| && to[..] == Poked(d, 0, sent + Element(m))
    {
      assert msgs[..len][i] == msgs[i] && paths[..len][i] == paths[i];
      skip := msgs[i].Serialise(paths[i], to, pos + 4);
      WriteBytes(to, pos, NetWord(skip % TWO32));
      ElementPoked(d, sent, NetWord(skip % TWO32), Print(m));
    }

    method SendNext(ghost d: seq<byte>, to: array<byte>, pos: nat, i: nat, ghost ms: seq<Msg>) returns (next: nat)
      requires Valid() && i < len && Fit(held[i], to) && ms == Contents()
      requires |PrintBundle(ts, ms)| <= to.Length == |d| && Written(d, to[..], ts, ms, i, pos)
      modifies to
      ensures Written(d, to[..], ts, ms, i + 1, next) && next <= |PrintBundle(ts, ms)|
    {
      WrittenNext(d, ts, ms, i);
      var skip := SendElement(d, SentUpTo(ts, ms, i), to, pos, i, ms[i]);
      next := pos + skip + 4;
    }

    /** The serialiser's loop.  A message past the end of the buffer would stop it. */
    method SendAll(ghost d: seq<byte>, to: array<byte>, size: nat, ghost ms: seq<Msg>) returns (pos: nat)
      requires Valid() && ms == Contents() && (forall m :: m in held ==> Fit(m, to))
      requires size == |PrintBundle(ts, ms)| <= to.Length == |d| && Written(d, to[..], ts, ms, 0, 16)
      modifies to
      ensures Written(d, to[..], ts, ms, |ms|, pos)
    {
      var i := 0;
      pos := 16;
      while i < len
        invariant i <= len && ms == Contents() && Written(d, to[..], ts, ms, i, pos)
        invariant forall m :: m in held ==> Fit(m, to)
      {
        pos := SendNext(d, to, pos, i, ms);
        i := i + 1;
        if pos > size {
          assert false;
          return;
        }
      }
    }

    /** Neither of the two data integrity errors can happen. */
    method Serialise(to: array<byte>) returns (ok: bool, size: nat)
      requires Valid() && (forall m :: m in held ==> Fit(m, to))
      requires |PrintBundle(ts, Contents())| <= to.Length
      modifies to
      ensures ok && size == |PrintBundle(ts, Contents())|
      ensures to[..] == Poked(old(to[..]), 0, PrintBundle(ts, Contents()))
    {
      ghost var ms := Contents();
      size := Length();
      var pos := Send(to, size, ms);
      if pos != size {
        return false, size;
      }
      ok := true;
    }

    method Send(to: array<byte>, size: nat, ghost ms: seq<Msg>) returns (pos: nat)
      requires Valid() && ms == Contents() && (forall m :: m in held ==> Fit(m, to))
      requires size == |PrintBundle(ts, ms)| <= to.Length
      modifies to
      ensures pos == size && to[..] == Poked(old(to[..]), 0, PrintBundle(ts, ms))
    {
      ghost var d := to[..];
      WriteHeader(to);
      WrittenEnds(d, ts, ms);
      pos := SendAll(d, to, size, ms);
    }

    method WriteHeader(to: array<byte>)
      requires to.Length >= 16
      modifies to
      ensures to[..] == Poked(old(to[..]), 0, Header(ts))
    {
      HeaderPoked(to[..], ts);
      WriteBytes(to, 0, MARK + [0]);
      WriteBytes(to, 8, NetWord(ts.sec));
      WriteBytes(to, 12, NetWord(ts.frac));
    }
  }

  lemma HeaderPoked(d: seq<byte>, ts: Timetag)
    requires |d| >= 16
    ensures Poked(Poked(Poked(d, 0, MARK + [0]), 8, NetWord(ts.sec)), 12, NetWord(ts.frac)) == Poked(d, 0, Header(ts))
  {
    assert Padded(MARK) == MARK + [0];
    PokedTwice(d, 0, Padded(MARK), NetWord(ts.sec));
    PokedTwice(d, 0, Padded(MARK) + NetWord(ts.sec), NetWord(ts.frac));
  }

  lemma ElementPoked(d: seq<byte>, sent: seq<byte>, word: seq<byte>, body: seq<byte>)
    requires |sent| + |word| + |body| <= |d|
    ensures Poked(Poked(Poked(d, 0, sent), |sent| + |word|, body), |sent|, word) == Poked(d, 0, sent + (word + body))
  {}

  /** The header and the first i elements. */
  ghost function SentUpTo(ts: Timetag, ms: seq<Msg>, i: nat): seq<byte>
    requires i <= |ms|
  {
    Header(ts) + Flat(Element, ms[..i])
  }

  /** They are written at the start of the buffer d, up to pos. */
  ghost predicate Written(d: seq<byte>, buf: seq<byte>, ts: Timetag, ms: seq<Msg>, i: nat, pos: nat) {
    i <= |ms| && pos == |SentUpTo(ts, ms, i)| <= |d| && buf == Poked(d, 0, SentUpTo(ts, ms, i))
  }

  lemma WrittenNext(d: seq<byte>, ts: Timetag, ms: seq<Msg>, i: nat)
    requires i < |ms| && |PrintBundle(ts, ms)| <= |d|
    ensures SentUpTo(ts, ms, i + 1) == SentUpTo(ts, ms, i) + Element(ms[i])
    ensures |SentUpTo(ts, ms, i)| + |Element(ms[i])| <= |PrintBundle(ts, ms)|
  {
    FlatUpTo(Element, ms, i);
    FlatCut(Element, ms, i + 1);
    Regroup(Header(ts), Flat(Element, ms[..i]), Element(ms[i]));
  }

  lemma WrittenEnds(d: seq<byte>, ts: Timetag, ms: seq<Msg>)
    requires |d| >= 16
    ensures Written(d, Poked(d, 0, Header(ts)), ts, ms, 0, 16)
    ensures SentUpTo(ts, ms, |ms|) == PrintBundle(ts, ms)
  {
    assert ms[..0] == [] && ms[..|ms|] == ms;
    assert Header(ts) + [] == Header(ts);
  }

  /** realloc of an array to a larger size. */
  method Larger<T>(a: array<T>, size: nat, fill: T) returns (b: array<T>)
    requires size >= a.Length
    ensures fresh(b) && b.Length == size && b[..a.Length] == a[..]
  {
    b := new T[size](_ => fill);
    forall i | 0 <= i < a.Length {
      b[i] := a[i];
    }
  }
}
