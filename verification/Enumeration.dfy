/** The reply to a method enumeration call: the next components of all registered paths below a
    path that ends with a slash. */
module Enumeration {
  import opened Wrappers
  import opened Octets
  import opened Lists
  import opened Chains
  import opened Arguments
  import opened Messages
  import opened MethodTable

  const SLASH: byte := '/' as int

  /** The part of s in front of its first slash, or all of it. */
  function UpToSlash(s: seq<byte>): (r: seq<byte>)
    ensures r <= s && SLASH !in r && (|r| < |s| ==> s[|r|] == SLASH)
  {
    if s == [] || s[0] == SLASH then [] else [s[0]] + UpToSlash(s[1..])
  }

  predicate IsUnder(path: Name, m: Method) {
    m.path.Some? && path <= m.path.value
  }

  function Component(path: Name, m: Method): Name
    requires IsUnder(path, m)
  {
    UpToSlash(m.path.value[|path|..])
  }

  /** The component is what follows the path up to the next slash or the end. */
  lemma ComponentExactly(path: Name, m: Method, c: Name)
    ensures IsUnder(path, m) && Component(path, m) == c <==> m.path.Some? && Follows(path, c, m.path.value)
  {
    if m.path.Some? && Follows(path, c, m.path.value) {
      var rest := m.path.value[|path|..];
      assert path <= m.path.value;
      assert c <= rest && (|c| < |rest| ==> rest[|c|] == SLASH);
      UpToSlashIs(rest, c);
    }
    if IsUnder(path, m) && Component(path, m) == c {
      var rest := m.path.value[|path|..];
      assert m.path.value == path + rest && c <= rest;
      if |c| < |rest| {
        assert rest[..|c| + 1] == c + [SLASH];
        assert m.path.value[..|path| + |c| + 1] == path + rest[..|c| + 1];
      } else {
        assert rest == c;
      }
    }
  }

  /** c has no slash, and p goes on with it behind the path, and then ends or has a slash. */
  ghost predicate Follows(path: Name, c: Name, p: Name) {
    SLASH !in c && (p == path + c || path + c + [SLASH] <= p)
  }

  lemma {:induction false} UpToSlashIs(s: seq<byte>, c: seq<byte>)
    requires c <= s && SLASH !in c && (|c| < |s| ==> s[|c|] == SLASH)
    ensures UpToSlash(s) == c
  {
    if c == [] {
    } else {
      UpToSlashIs(s[1..], c[1..]);
    }
  }

  /** What a method adds to the list of components. */
  function Offers(path: Name, m: Method): seq<Name> {
    if IsUnder(path, m) then [Component(path, m)] else []
  }

  function AllOffers(path: Name, ms: seq<Method>): seq<Name> {
    if ms == [] then [] else AllOffers(path, ms[..|ms| - 1]) + Offers(path, ms[|ms| - 1])
  }

  /** The list without repetitions: each member where it occurs first. */
  function Firsts<T(==)>(xs: seq<T>): (r: seq<T>)
    ensures |r| <= |xs|
  {
    if xs == [] then [] else
    var r, x := Firsts(xs[..|xs| - 1]), xs[|xs| - 1];
    if x in r then r else r + [x]
  }

  function Components(path: Name, ms: seq<Method>): seq<Name> {
    Firsts(AllOffers(path, ms))
  }

  lemma ComponentsStep(path: Name, ms: seq<Method>, m: Method)
    ensures Components(path, ms + [m]) ==
            if IsUnder(path, m) && Component(path, m) !in Components(path, ms)
            then Components(path, ms) + [Component(path, m)] else Components(path, ms)
  {
    var all := AllOffers(path, ms);
    assert (ms + [m])[..|ms|] == ms;
    if IsUnder(path, m) {
      assert (all + [Component(path, m)])[..|all|] == all;
    } else {
      assert all + [] == all;
    }
  }

  /** Every component of a method below the path is listed, and nothing else. */
  lemma {:induction false} ComponentsAre(path: Name, ms: seq<Method>, c: Name)
    ensures c in AllOffers(path, ms) <==> exists i :: 0 <= i < |ms| && IsUnder(path, ms[i]) && Component(path, ms[i]) == c
  {
    if ms == [] {
    } else {
      var n, front := |ms| - 1, ms[..|ms| - 1];
      ComponentsAre(path, front, c);
      assert forall i :: 0 <= i < n ==> front[i] == ms[i];
    }
  }

  lemma {:induction false} FirstsSame<T>(xs: seq<T>)
    ensures forall x :: x in Firsts(xs) <==> x in xs
  {
    if xs == [] {
    } else {
      FirstsSame(xs[..|xs| - 1]);
      assert xs == xs[..|xs| - 1] + [xs[|xs| - 1]];
    }
  }

  /** Nothing is listed twice. */
  lemma {:induction false} FirstsDistinct<T>(xs: seq<T>)
    ensures forall i, j :: 0 <= i < j < |Firsts(xs)| ==> Firsts(xs)[i] != Firsts(xs)[j]
  {
    if xs == [] {
    } else {
      FirstsDistinct(xs[..|xs| - 1]);
    }
  }

  /** The components of the first k methods come first. */
  lemma {:induction false} ComponentsGrow(path: Name, ms: seq<Method>, k: nat)
    requires k <= |ms|
    ensures Components(path, ms[..k]) <= Components(path, ms)
  {
    if k == |ms| {
      assert ms[..k] == ms;
    } else {
      var front, last := ms[..|ms| - 1], ms[|ms| - 1];
      ComponentsGrow(path, front, k);
      assert front[..k] == ms[..k] && ms == front + [last];
      ComponentsStep(path, front, last);
    }
  }

  /** The list of a reply: exactly the next components of the methods below the path, each once, and
      in the order of first registration, since those of any first k methods come first. */
  lemma ComponentsListed(path: Name, ms: seq<Method>)
    ensures forall c :: c in Components(path, ms) <==>
                        exists i :: 0 <= i < |ms| && IsUnder(path, ms[i]) && Component(path, ms[i]) == c
    ensures forall i, j :: 0 <= i < j < |Components(path, ms)| ==> Components(path, ms)[i] != Components(path, ms)[j]
    ensures forall k :: 0 <= k <= |ms| ==> Components(path, ms[..k]) <= Components(path, ms)
  {
    FirstsSame(AllOffers(path, ms));
    FirstsDistinct(AllOffers(path, ms));
    forall c: Name ensures c in Components(path, ms) <==>
                           exists i :: 0 <= i < |ms| && IsUnder(path, ms[i]) && Component(path, ms[i]) == c {
      ComponentsAre(path, ms, c);
    }
    forall k | 0 <= k <= |ms| ensures Components(path, ms[..k]) <= Components(path, ms) {
      ComponentsGrow(path, ms, k);
    }
  }

  /** What the client gets: the number it sent, if it sent one, the path and the components. */
  function Reply(path: Name, number: Option<Arg>, ms: seq<Method>): seq<Arg> {
    (if number.Some? then [number.value] else []) + [Text(STRING, path)] + Map(AsText, Components(path, ms))
  }

  function AsText(s: Name): Arg {
    Text(STRING, s)
  }

  /** The reply's arguments one by one: the number, if there is one, then strings only, first the path and
      then the components that follow it in registered paths, each once. */
  lemma ReplyIs(path: Name, number: Option<Arg>, ms: seq<Method>, c: Name)
    ensures var r := Reply(path, number, ms); var k: nat := if number.Some? then 1 else 0;
      && |r| > k && (number.Some? ==> r[0] == number.value) && r[k] == Text('s' as int, path)
      && (forall i :: k <= i < |r| ==> r[i].Text? && r[i].tag == 's' as int)
      && (forall i, j :: k < i < j < |r| ==> r[i].text != r[j].text)
      && ((exists i :: k < i < |r| && r[i].text == c) <==>
          exists j :: 0 <= j < |ms| && ms[j].path.Some? && Follows(path, c, ms[j].path.value))
  {
    var cs := Components(path, ms);
    ReplyParts(if number.Some? then [number.value] else [], Text(STRING, path), cs, c);
    ComponentsListed(path, ms);
    Listed(path, ms, c);
  }

  lemma ReplyParts(head: seq<Arg>, t: Arg, cs: seq<Name>, c: Name)
    ensures var r, k := head + [t] + Map(AsText, cs), |head|;
      && |r| == k + 1 + |cs| && r[..k] == head && r[k] == t && (forall i :: k < i < |r| ==> r[i] == AsText(cs[i - k - 1]))
      && ((exists i :: k < i < |r| && r[i].text == c) <==> c in cs)
  {
    var r, k := head + [t] + Map(AsText, cs), |head|;
    if c in cs {
      var i :| 0 <= i < |cs| && cs[i] == c;
      assert r[k + 1 + i] == AsText(cs[i]);
    }
  }

  lemma Listed(path: Name, ms: seq<Method>, c: Name)
    ensures c in Components(path, ms) <==> exists j :: 0 <= j < |ms| && ms[j].path.Some? && Follows(path, c, ms[j].path.value)
  {
    ComponentsListed(path, ms);
    forall j | 0 <= j < |ms|
      ensures IsUnder(path, ms[j]) && Component(path, ms[j]) == c <==> ms[j].path.Some? && Follows(path, c, ms[j].path.value)
    {
      ComponentExactly(path, ms[j], c);
    }
  }

  /** The search for tmp in the list of components found so far, and the append behind its end. */
  method Note(sl: seq<Name>, tmp: Name) returns (r: seq<Name>)
    ensures r == if tmp in sl then sl else sl + [tmp]
  {
    var slit := 0;
    while slit < |sl|
      invariant slit <= |sl| && tmp !in sl[..slit]
    {
      if sl[slit] == tmp {
        return sl;
      }
      slit := slit + 1;
    }
    return sl + [tmp];
  }

  /** One turn of the loop over the methods. */
  method NoteNext(sl: seq<Name>, path: Name, m: Method, ghost ms: seq<Method>) returns (r: seq<Name>)
    requires sl == Components(path, ms)
    ensures r == Components(path, ms + [m])
  {
    ComponentsStep(path, ms, m);
    r := sl;
    if IsUnder(path, m) {
      r := Note(sl, Component(path, m));
    }
  }

  /** The loop over the methods. */
  method Collect(table: Table, path: Name) returns (sl: seq<Name>)
    requires table.Valid()
    ensures sl == Components(path, table.Methods())
  {
    sl := [];
    var it := table.first;
    ghost var i, ms := 0, table.Methods();
    while it != null
      invariant i <= |ms| && it == At(table.spine, i) && sl == Components(path, ms[..i])
      decreases |ms| - i
    {
      assert ms[..i + 1] == ms[..i] + [it.item];
      sl := NoteNext(sl, path, it.item, ms[..i]);
      it := it.next;
      i := i + 1;
    }
    assert ms[..i] == ms;
  }

  /** Builds the reply. */
  method Answer(table: Table, path: Name, number: Option<Arg>) returns (reply: Message)
    requires table.Valid() && (number.Some? ==> number.value.Fixed? && IsWord(number.value.tag) && |number.value.raw| == 4)
    ensures fresh(reply) && reply.Valid() && reply.args == Reply(path, number, table.Methods())
  {
    reply := Start(path, number);
    var sl := Collect(table, path);
    AddAll(reply, sl);
  }

  method Start(path: Name, number: Option<Arg>) returns (reply: Message)
    requires number.Some? ==> number.value.Fixed? && IsWord(number.value.tag) && |number.value.raw| == 4
    ensures fresh(reply) && fresh(reply.types) && reply.Valid()
    ensures reply.args == (if number.Some? then [number.value] else []) + [Text(STRING, path)]
  {
    reply := new Message();
    if number.Some? {
      reply.AddFixed(number.value.tag, number.value.raw);
    }
    reply.AddText(STRING, path);
  }

  method AddAll(reply: Message, sl: seq<Name>)
    requires reply.Valid()
    modifies reply, reply.types
    ensures reply.Valid() && reply.args == old(reply.args) + Map(AsText, sl)
  {
    ghost var before := reply.args;
    var i := 0;
    while i < |sl|
      invariant i <= |sl| && reply.Valid() && reply.args == before + Map(AsText, sl[..i])
      invariant reply.types == old(reply.types) || fresh(reply.types)
    {
      reply.AddText(STRING, sl[i]);
      assert Map(AsText, sl[..i + 1]) == Map(AsText, sl[..i]) + [AsText(sl[i])];
      i := i + 1;
    }
    assert sl[..i] == sl;
  }
}
