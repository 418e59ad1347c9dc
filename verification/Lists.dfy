/** Lists of records laid end to end: their bytes, where each starts, and reading them back one by
    one, for any kind of record. */
module Lists {
  import opened Wrappers
  import opened Octets

  ghost predicate All<A>(p: A -> bool, xs: seq<A>) {
    forall i :: 0 <= i < |xs| ==> p(xs[i])
  }

  lemma AllAppend<A>(p: A -> bool, xs: seq<A>, x: A)
    requires All(p, xs) && p(x)
    ensures All(p, xs + [x])
  {}

  function Map<A, B>(f: A -> B, xs: seq<A>): (r: seq<B>)
    ensures |r| == |xs| && forall i :: 0 <= i < |xs| ==> r[i] == f(xs[i])
  {
    seq(|xs|, i requires 0 <= i < |xs| => f(xs[i]))
  }

  lemma Regroup<A>(a: seq<A>, b: seq<A>, c: seq<A>)
    ensures a + (b + c) == (a + b) + c
  {}

  /** The members that satisfy p, in order. */
  ghost function Select<A>(p: A -> bool, xs: seq<A>): (r: seq<A>) {
    if xs == [] then [] else (if p(xs[0]) then [xs[0]] else []) + Select(p, xs[1..])
  }

  /** They are members, and p holds of them. */
  lemma {:induction false} SelectMembers<A>(p: A -> bool, xs: seq<A>)
    ensures forall x :: x in Select(p, xs) <==> x in xs && p(x)
  {
    if xs == [] {
    } else {
      SelectMembers(p, xs[1..]);
      assert xs == [xs[0]] + xs[1..];
    }
  }

  lemma SelectHead<A>(p: A -> bool, x: A, xs: seq<A>)
    ensures Select(p, [x] + xs) == (if p(x) then [x] else []) + Select(p, xs)
  {
    assert ([x] + xs)[1..] == xs;
  }

  lemma {:induction false} SelectJoin<A>(p: A -> bool, xs: seq<A>, ys: seq<A>)
    ensures Select(p, xs + ys) == Select(p, xs) + Select(p, ys)
  {
    if xs == [] {
      assert xs + ys == ys;
    } else {
      var x, rest := xs[0], xs[1..];
      SelectJoin(p, rest, ys);
      assert xs + ys == [x] + (rest + ys);
      SelectHead(p, x, rest + ys);
      Regroup(if p(x) then [x] else [], Select(p, rest), Select(p, ys));
    }
  }

  lemma {:induction false} SelectNone<A>(p: A -> bool, xs: seq<A>)
    requires forall i :: 0 <= i < |xs| ==> !p(xs[i])
    ensures Select(p, xs) == []
  {
    if xs == [] {
    } else {
      SelectNone(p, xs[1..]);
    }
  }

  lemma {:induction false} SelectAll<A>(p: A -> bool, xs: seq<A>)
    requires forall i :: 0 <= i < |xs| ==> p(xs[i])
    ensures Select(p, xs) == xs
  {
    if xs == [] {
    } else {
      SelectAll(p, xs[1..]);
      assert xs == [xs[0]] + xs[1..];
    }
  }

  /** When exactly the members in front are selected, or exactly those behind. */
  lemma SelectFront<A>(p: A -> bool, xs: seq<A>, ys: seq<A>)
    requires (forall i :: 0 <= i < |xs| ==> p(xs[i])) && forall i :: 0 <= i < |ys| ==> !p(ys[i])
    ensures Select(p, xs + ys) == xs
  {
    SelectAll(p, xs);
    SelectNone(p, ys);
    SelectJoin(p, xs, ys);
  }

  lemma SelectBack<A>(p: A -> bool, xs: seq<A>, ys: seq<A>)
    requires (forall i :: 0 <= i < |xs| ==> !p(xs[i])) && forall i :: 0 <= i < |ys| ==> p(ys[i])
    ensures Select(p, xs + ys) == ys
  {
    SelectNone(p, xs);
    SelectAll(p, ys);
    SelectJoin(p, xs, ys);
  }

  /** Selecting up to and including member i. */
  lemma SelectUpTo<A>(p: A -> bool, xs: seq<A>, i: nat)
    requires i < |xs|
    ensures Select(p, xs[..i + 1]) == Select(p, xs[..i]) + if p(xs[i]) then [xs[i]] else []
  {
    assert xs[..i + 1] == xs[..i] + [xs[i]];
    SelectJoin(p, xs[..i], [xs[i]]);
    assert [xs[i]][1..] == [];
  }

  /** Halfway through an in-place selection from xs: the first i members of `now` are selected, the
      rest is still as it was, and `gone` members were dropped. */
  ghost predicate Halfway<A>(p: A -> bool, xs: seq<A>, now: seq<A>, i: nat, gone: nat) {
    i <= |now| && i + gone <= |xs| && now[i..] == xs[i + gone..] && now[..i] == Select(p, xs[..i + gone])
  }

  lemma HalfwayStep<A>(p: A -> bool, xs: seq<A>, now: seq<A>, i: nat, gone: nat)
    requires Halfway(p, xs, now, i, gone) && i < |now|
    ensures if p(now[i]) then Halfway(p, xs, now, i + 1, gone) else Halfway(p, xs, now[..i] + now[i + 1..], i, gone + 1)
  {
    SelectUpTo(p, xs, i + gone);
    assert now[i] == now[i..][0] == xs[i + gone];
    assert now[i + 1..] == now[i..][1..] == xs[i + gone + 1..];
    if p(now[i]) {
      assert now[..i + 1] == now[..i] + [now[i]];
    } else {
      var less := now[..i] + now[i + 1..];
      assert less[..i] == now[..i] && less[i..] == now[i + 1..];
    }
  }

  lemma HalfwayEnds<A>(p: A -> bool, xs: seq<A>, now: seq<A>, i: nat, gone: nat)
    requires Halfway(p, xs, now, i, gone) && i == |now|
    ensures now == Select(p, xs)
  {
    assert now[..i] == now && |now[i..]| == 0 && xs[..|xs|] == xs;
  }

  /** The bytes of all records in order. */
  function Flat<A>(f: A -> seq<byte>, xs: seq<A>): seq<byte> {
    if xs == [] then [] else f(xs[0]) + Flat(f, xs[1..])
  }

  lemma FlatHead<A>(f: A -> seq<byte>, x: A, xs: seq<A>)
    ensures Flat(f, [x] + xs) == f(x) + Flat(f, xs)
  {
    assert ([x] + xs)[1..] == xs;
  }

  lemma {:induction false} FlatJoin<A>(f: A -> seq<byte>, xs: seq<A>, ys: seq<A>)
    ensures Flat(f, xs + ys) == Flat(f, xs) + Flat(f, ys)
  {
    if xs == [] {
      assert xs + ys == ys;
    } else {
      assert (xs + ys)[1..] == xs[1..] + ys;
      FlatJoin(f, xs[1..], ys);
    }
  }

  lemma FlatAppend<A>(f: A -> seq<byte>, xs: seq<A>, x: A)
    ensures Flat(f, xs + [x]) == Flat(f, xs) + f(x)
  {
    FlatJoin(f, xs, [x]);
    assert [x][1..] == [];
  }

  /** The records before i, record i and the records after it. */
  lemma FlatUpTo<A>(f: A -> seq<byte>, xs: seq<A>, i: nat)
    requires i < |xs|
    ensures Flat(f, xs[..i + 1]) == Flat(f, xs[..i]) + f(xs[i])
  {
    assert xs[..i + 1] == xs[..i] + [xs[i]];
    FlatAppend(f, xs[..i], xs[i]);
  }

  lemma FlatFrom<A>(f: A -> seq<byte>, xs: seq<A>, i: nat)
    requires i < |xs|
    ensures Flat(f, xs[i..]) == f(xs[i]) + Flat(f, xs[i + 1..])
  {
    assert xs[i..][1..] == xs[i + 1..];
  }

  lemma FlatCut<A>(f: A -> seq<byte>, xs: seq<A>, i: nat)
    requires i <= |xs|
    ensures Flat(f, xs) == Flat(f, xs[..i]) + Flat(f, xs[i..])
  {
    assert xs == xs[..i] + xs[i..];
    FlatJoin(f, xs[..i], xs[i..]);
  }

  lemma {:induction false} FlatSameSizes<A>(f: A -> seq<byte>, g: A -> seq<byte>, xs: seq<A>)
    requires forall i :: 0 <= i < |xs| ==> |f(xs[i])| == |g(xs[i])|
    ensures |Flat(f, xs)| == |Flat(g, xs)|
  {
    if xs == [] {
    } else {
      FlatSameSizes(f, g, xs[1..]);
    }
  }

  // ----- Where records start -----

  /** Records without bytes have no place. */
  datatype Place = Nowhere | Offset(at: nat)

  function PlaceOf<A>(f: A -> seq<byte>, xs: seq<A>, i: nat): Place
    requires i < |xs|
  {
    if |f(xs[i])| > 0 then Offset(|Flat(f, xs[..i])|) else Nowhere
  }

  function Places<A>(f: A -> seq<byte>, xs: seq<A>): (r: seq<Place>)
    ensures |r| == |xs| && forall i :: 0 <= i < |xs| ==> r[i] == PlaceOf(f, xs, i)
  {
    seq(|xs|, i requires 0 <= i < |xs| => PlaceOf(f, xs, i))
  }

  lemma PlacesAppend<A>(f: A -> seq<byte>, xs: seq<A>, x: A)
    ensures Places(f, xs + [x]) == Places(f, xs) + [if |f(x)| > 0 then Offset(|Flat(f, xs)|) else Nowhere]
  {
    assert (xs + [x])[..|xs|] == xs;
    forall i | 0 <= i < |xs| ensures PlaceOf(f, xs + [x], i) == PlaceOf(f, xs, i) {
      assert (xs + [x])[..i] == xs[..i];
    }
  }

  // ----- Reading records back -----

  datatype Read<+A> = Refused | Got(value: A, size: nat)

  /** One record per tag, and nothing left over. */
  function ReadAll<A>(read: (byte, seq<byte>) -> Read<A>, tags: seq<byte>, s: seq<byte>, refused: int, left: int)
    : Result<seq<A>>
    decreases |tags|
  {
    if tags == [] then (if s == [] then Ok([]) else Err(left)) else
    match read(tags[0], s)
    case Refused => Err(refused)
    case Got(x, n) =>
      if n > |s| then Err(refused) else
      match ReadAll(read, tags[1..], s[n..], refused, left)
      case Err(code) => Err(code)
      case Ok(xs) => Ok([x] + xs)
  }

  /** What is taken is a good record with that tag, and the bytes taken are its bytes. */
  ghost predicate Sound<A>(read: (byte, seq<byte>) -> Read<A>, tag: A -> byte, bytes: A -> seq<byte>, good: A -> bool) {
    forall t: byte, s: seq<byte> :: read(t, s).Got? ==>
      var r := read(t, s); good(r.value) && tag(r.value) == t && r.size <= |s| && bytes(r.value) == s[..r.size]
  }

  /** The bytes of a valid record are taken if it is good and refused otherwise, whatever follows. */
  ghost predicate Complete<A(!new)>(read: (byte, seq<byte>) -> Read<A>, tag: A -> byte, bytes: A -> seq<byte>,
                                    valid: A -> bool, good: A -> bool) {
    forall x: A, s: seq<byte> :: valid(x) ==>
      read(tag(x), bytes(x) + s) == if good(x) then Got(x, |bytes(x)|) else Refused
  }

  lemma {:induction false} ReadThenPrint<A>(read: (byte, seq<byte>) -> Read<A>, tag: A -> byte, bytes: A -> seq<byte>,
                                            good: A -> bool, tags: seq<byte>, s: seq<byte>, refused: int, left: int)
    requires Sound(read, tag, bytes, good) && ReadAll(read, tags, s, refused, left).Ok?
    ensures var xs := ReadAll(read, tags, s, refused, left).value;
      All(good, xs) && Map(tag, xs) == tags && Flat(bytes, xs) == s
    decreases |tags|
  {
    if tags == [] {
    } else {
      var r := read(tags[0], s);
      var xs := ReadAll(read, tags[1..], s[r.size..], refused, left).value;
      ReadThenPrint(read, tag, bytes, good, tags[1..], s[r.size..], refused, left);
      assert ([r.value] + xs)[1..] == xs;
      assert s == s[..r.size] + s[r.size..];
    }
  }

  /** What a reader answers that has taken `done` and goes on with r. */
  function Onto<A>(done: seq<A>, r: Result<seq<A>>): Result<seq<A>> {
    if r.Ok? then Ok(done + r.value) else r
  }

  lemma OntoTwice<A>(xs: seq<A>, ys: seq<A>, r: Result<seq<A>>)
    ensures Onto(xs, Onto(ys, r)) == Onto(xs + ys, r)
  {
    if r.Ok? {
      assert xs + (ys + r.value) == xs + ys + r.value;
    }
  }

  lemma OntoNothing<A>(r: Result<seq<A>>)
    ensures Onto([], r) == r
  {
    if r.Ok? {
      assert [] + r.value == r.value;
    }
  }

  lemma ReadFirst<A>(read: (byte, seq<byte>) -> Read<A>, t: byte, ts: seq<byte>, x: A, b: seq<byte>, s: seq<byte>,
                     refused: int, left: int)
    requires read(t, b + s) == Got(x, |b|)
    ensures ReadAll(read, [t] + ts, b + s, refused, left) == Onto([x], ReadAll(read, ts, s, refused, left))
  {
    assert ([t] + ts)[1..] == ts && (b + s)[|b|..] == s;
  }

  /** Good records in front are read, and then the rest decides. */
  lemma {:induction false} ReadPast<A(!new)>(read: (byte, seq<byte>) -> Read<A>, tag: A -> byte, bytes: A -> seq<byte>,
                                             valid: A -> bool, good: A -> bool,
                                             xs: seq<A>, tags: seq<byte>, s: seq<byte>, refused: int, left: int)
    requires Complete(read, tag, bytes, valid, good) && All(valid, xs) && All(good, xs)
    ensures ReadAll(read, Map(tag, xs) + tags, Flat(bytes, xs) + s, refused, left) ==
            Onto(xs, ReadAll(read, tags, s, refused, left))
  {
    if xs == [] {
      assert Map(tag, xs) + tags == tags && Flat(bytes, xs) + s == s;
      OntoNothing(ReadAll(read, tags, s, refused, left));
    } else {
      var x, ts, w := xs[0], Map(tag, xs[1..]) + tags, Flat(bytes, xs[1..]) + s;
      ReadPast(read, tag, bytes, valid, good, xs[1..], tags, s, refused, left);
      assert Map(tag, xs) + tags == [tag(x)] + ts;
      Regroup(bytes(x), Flat(bytes, xs[1..]), s);
      assert read(tag(x), bytes(x) + w) == Got(x, |bytes(x)|) by {
        assert good(x) && valid(x);
      }
      ReadFirst(read, tag(x), ts, x, bytes(x), w, refused, left);
      OntoTwice([x], xs[1..], ReadAll(read, tags, s, refused, left));
      assert [x] + xs[1..] == xs;
    }
  }

  /** The bytes of valid records are read back if all are good, and refused otherwise. */
  lemma {:induction false} PrintThenRead<A(!new)>(read: (byte, seq<byte>) -> Read<A>, tag: A -> byte, bytes: A -> seq<byte>,
                                                  valid: A -> bool, good: A -> bool, xs: seq<A>, refused: int, left: int)
    requires Complete(read, tag, bytes, valid, good) && All(valid, xs)
    ensures All(good, xs) ==> ReadAll(read, Map(tag, xs), Flat(bytes, xs), refused, left) == Ok(xs)
    ensures !All(good, xs) ==> ReadAll(read, Map(tag, xs), Flat(bytes, xs), refused, left) == Err(refused)
  {
    var k := 0;
    while k < |xs| && good(xs[k])
      invariant k <= |xs| && forall i :: 0 <= i < k ==> good(xs[i])
    {
      k := k + 1;
    }
    var front, back := xs[..k], xs[k..];
    ReadPast(read, tag, bytes, valid, good, front, Map(tag, back), Flat(bytes, back), refused, left);
    FlatCut(bytes, xs, k);
    assert Map(tag, front) + Map(tag, back) == Map(tag, xs);
    if k == |xs| {
      assert front + [] == xs;
    } else {
      var x, s := xs[k], Flat(bytes, xs[k + 1..]);
      FlatFrom(bytes, xs, k);
      assert valid(x) && !good(x) && read(tag(x), bytes(x) + s) == Refused;
    }
  }
}
