/** The methods of a server: a linked list that lo_server_add_method appends to and
    lo_server_del_method deletes from in place. */
module MethodTable {
  import opened Wrappers
  import opened Octets
  import opened Lists
  import opened Chains
  import PatternMatch

  /** A missing path or typespec matches everything. */
  datatype Method = Method(path: Option<Name>, typespec: Option<Name>, handler: nat)

  // ----- Patterns -----

  const SPECIAL: seq<byte> := [' ' as int, '#' as int, '*' as int, ',' as int, '?' as int,
                               '[' as int, ']' as int, '{' as int, '}' as int]

  /** strpbrk: whether any of the special characters occurs. */
  predicate IsPattern(path: seq<byte>) {
    exists i :: 0 <= i < |path| && path[i] in SPECIAL
  }

  /** The value of a byte as a signed character. */
  function Char(b: byte): PatternMatch.Code {
    if b < 128 then b else b - 256
  }

  /** That is the one value of a signed byte that agrees with b in eight bits. */
  lemma CharExactly(b: byte, c: int)
    ensures c == Char(b) <==> -128 <= c < 128 && (c - b) % 256 == 0
  {
    if (c - b) % 256 == 0 {
      assert c - b == 256 * ((c - b) / 256);
    }
  }

  /** Exactly the paths with one of the characters ` #*,?[]{}` in them are patterns. */
  lemma PatternExactly(path: seq<byte>)
    ensures IsPattern(path) <==> exists b :: b in path && (b == 32 || b == 35 || b == 42 || b == 44 || b == 63 || b == 91 ||
                                                           b == 93 || b == 123 || b == 125)
  {
    if IsPattern(path) {
      var i :| 0 <= i < |path| && path[i] in SPECIAL;
      assert path[i] in path;
    }
  }

  function Chars(s: seq<byte>): seq<PatternMatch.Code> {
    Map(Char, s)
  }

  /** What the matcher answers: the glob relation where it is defined for the pattern, and some
      unknown answer `other` for patterns with brace lists or with `[!` at their very end. */
  ghost predicate Matches(other: (Name, Name) -> bool, str: Name, pattern: Name) {
    var p := Chars(pattern);
    if PatternMatch.Readable(p) then PatternMatch.Glob(PatternMatch.Tokens(p), Chars(str)) else other(str, pattern)
  }

  method Match(other: (Name, Name) -> bool, str: Name, pattern: Name) returns (b: bool)
    ensures b == Matches(other, str, pattern)
  {
    var p := Chars(pattern);
    if PatternMatch.Readable(p) {
      b := PatternMatch.LoPatternMatch(Chars(str), p);
    } else {
      b := other(str, pattern);
    }
  }

  /** What matching means: the string can be cut into one piece for each token of the pattern. */
  lemma MatchesByPieces(other: (Name, Name) -> bool, str: Name, pattern: Name)
    requires PatternMatch.Readable(Chars(pattern))
    ensures Matches(other, str, pattern) <==> PatternMatch.Cuttable(PatternMatch.Tokens(Chars(pattern)), Chars(str))
  {
    PatternMatch.GlobIsCutting(PatternMatch.Tokens(Chars(pattern)), Chars(str));
  }

  /** A path without special characters matches itself only. */
  lemma PlainPath(other: (Name, Name) -> bool, str: Name, path: Name)
    requires !IsPattern(path)
    ensures Matches(other, str, path) <==> str == path
  {
    var p, s := Chars(path), Chars(str);
    forall i | 0 <= i < |p| ensures p[i] != PatternMatch.STAR && p[i] != PatternMatch.QUERY && p[i] != PatternMatch.OPEN
                                    && p[i] != PatternMatch.BRACE {
      assert path[i] !in SPECIAL;
    }
    PatternMatch.PlainMatchesItself(p, s);
    if s == p {
      assert str == path by {
        assert forall i :: 0 <= i < |str| ==> s[i] == p[i];
      }
    }
  }

  // ----- The table -----

  /** What a deletion removes: the path is the same or matched by the pattern, and the typespec is
      the same. */
  ghost predicate Hit(other: (Name, Name) -> bool, path: Option<Name>, typespec: Option<Name>, m: Method) {
    && (m.path == path || (path.Some? && m.path.Some? && IsPattern(path.value) && Matches(other, m.path.value, path.value)))
    && m.typespec == typespec
  }

  /** What a deletion keeps. */
  ghost function Spared(other: (Name, Name) -> bool, path: Option<Name>, typespec: Option<Name>): Method -> bool {
    m => !Hit(other, path, typespec, m)
  }

  /** Exactly what a deletion spares.  Another typespec is always spared.  No path deletes methods without a
      path, a plain path those with the same path, and a pattern those whose path it is or matches. */
  lemma SparesExactly(other: (Name, Name) -> bool, path: Option<Name>, typespec: Option<Name>, m: Method)
    ensures m.typespec != typespec ==> Spared(other, path, typespec)(m)
    ensures m.typespec == typespec && path.None? ==> (Spared(other, path, typespec)(m) <==> m.path.Some?)
    ensures m.typespec == typespec && path.Some? && m.path.None? ==> Spared(other, path, typespec)(m)
    ensures m.typespec == typespec && path.Some? && m.path.Some? && !IsPattern(path.value) ==>
              (Spared(other, path, typespec)(m) <==> m.path.value != path.value)
    ensures m.typespec == typespec && path.Some? && m.path.Some? && IsPattern(path.value) &&
            PatternMatch.Readable(Chars(path.value)) ==>
              (Spared(other, path, typespec)(m) <==>
               m.path.value != path.value && !PatternMatch.Cuttable(PatternMatch.Tokens(Chars(path.value)), Chars(m.path.value)))
  {
    if path.Some? && m.path.Some? && PatternMatch.Readable(Chars(path.value)) {
      MatchesByPieces(other, m.path.value, path.value);
    }
  }

  class Table {
    var first: Cell?<Method>
    ghost var spine: seq<Cell<Method>>
    const other: (Name, Name) -> bool

    ghost predicate Valid()
      reads this, spine
    {
      Chain(first, spine)
    }

    /** The methods in the order of their registration. */
    ghost function Methods(): seq<Method>
      reads this
    {
      Items(spine)
    }

    constructor (other: (Name, Name) -> bool)
      ensures Valid() && Methods() == [] && this.other == other
    {
      first := null;
      spine := [];
      this.other := other;
    }

    /** lo_server_add_method: refuses patterns, appends everything else. */
    method AddMethod(path: Option<Name>, typespec: Option<Name>, handler: nat) returns (m: Cell?<Method>)
      requires Valid()
      modifies this, spine
      ensures Valid() && (m == null <==> path.Some? && IsPattern(path.value))
      ensures m == null ==> Methods() == old(Methods())
      ensures m != null ==> m.item == Method(path, typespec, handler) && Methods() == old(Methods()) + [m.item]
    {
      if path.Some? && IsPattern(path.value) {
        return null;
      }
      m := new Cell(Method(path, typespec, handler));
      Append(m);
    }

    method Append(m: Cell<Method>)
      requires Valid() && m !in spine
      modifies this, spine, m
      ensures Valid() && Methods() == old(Methods()) + [m.item]
    {
      var last := Last();
      ItemsAppend(spine, m);
      first := LinkIn(first, last, m, null, spine, |spine|);
      spine := With(spine, |spine|, m);
    }

    /** The loop to the last method of the list. */
    method Last() returns (it: Cell?<Method>)
      requires Valid()
      ensures it == if spine == [] then null else spine[|spine| - 1]
    {
      it := first;
      if it != null {
        ghost var i := 0;
        while it.next != null
          invariant i < |spine| && it == spine[i]
          decreases |spine| - i
        {
          it := it.next;
          i := i + 1;
        }
      }
    }

    method IsHit(m: Method, path: Option<Name>, typespec: Option<Name>, pattern: bool) returns (b: bool)
      requires pattern == (path.Some? && IsPattern(path.value))
      ensures b == Hit(other, path, typespec, m)
    {
      b := m.path == path;
      if !b && pattern && m.path.Some? {
        b := Match(other, m.path.value, path.value);
      }
      b := b && m.typespec == typespec;
    }

    /** lo_server_del_method: one walk over the list, with `prev` left behind on a freed cell while
        the head is being removed. */
    method DelMethod(path: Option<Name>, typespec: Option<Name>)
      requires Valid()
      modifies this, spine
      ensures Valid() && Methods() == Select(Spared(other, path, typespec), old(Methods()))
    {
      if first == null {
        return;
      }
      var pattern := path.Some? && IsPattern(path.value);
      ghost var keep, ms := Spared(other, path, typespec), Methods();
      ghost var n := Walk(path, typespec, pattern, first, keep, ms);
      HalfwayEnds(keep, ms, Methods(), |spine|, n);
    }

    method Walk(path: Option<Name>, typespec: Option<Name>, pattern: bool, head: Cell<Method>,
                ghost keep: Method -> bool, ghost ms: seq<Method>) returns (ghost gone: nat)
      requires Valid() && Reached(spine, head, head, 0) && Halfway(keep, ms, Methods(), 0, 0)
      requires pattern == (path.Some? && IsPattern(path.value))
      requires keep == Spared(other, path, typespec)
      modifies this, spine
      ensures Valid() && Halfway(keep, ms, Methods(), |spine|, gone)
    {
      var it, prev := head, head;
      ghost var i := 0;
      gone := 0;
      while it != null
        invariant Valid() && Within(spine, old(spine))
        invariant Reached(spine, prev, it, i)
        invariant Halfway(keep, ms, Methods(), i, gone)
        decreases |ms| - i - gone
      {
        prev, it, i, gone := Visit(path, typespec, pattern, prev, it, keep, ms, i, gone);
      }
    }

    /** One turn of that loop. */
    method Visit(path: Option<Name>, typespec: Option<Name>, pattern: bool, prev: Cell<Method>, it: Cell<Method>,
                 ghost keep: Method -> bool, ghost ms: seq<Method>, ghost i: nat, ghost gone: nat)
      returns (prev': Cell<Method>, next: Cell?<Method>, ghost i': nat, ghost gone': nat)
      requires Valid() && i < |spine| && Reached(spine, prev, it, i)
      requires pattern == (path.Some? && IsPattern(path.value))
      requires keep == Spared(other, path, typespec)
      requires Halfway(keep, ms, Methods(), i, gone)
      modifies this, spine
      ensures Valid() && Within(spine, old(spine))
      ensures Reached(spine, prev', next, i') && Halfway(keep, ms, Methods(), i', gone')
      ensures i' + gone' == i + gone + 1
    {
      next := it.next;
      HalfwayStep(keep, ms, Methods(), i, gone);
      var hit := IsHit(it.item, path, typespec, pattern);
      if hit {
        next := it.next;
        Remove(prev, it, i);
        return prev, next, i, gone + 1;
      }
      return it, next, i + 1, gone;
    }

    /** The splice of a deletion. */
    method Remove(prev: Cell<Method>, it: Cell<Method>, ghost i: nat)
      requires Valid() && i < |spine| && Reached(spine, prev, it, i)
      modifies this, spine
      ensures Valid() && spine == Without(old(spine), i) && Reached(spine, prev, old(it.next), i)
      ensures Within(spine, old(spine)) && Methods() == old(Methods())[..i] + old(Methods())[i + 1..]
    {
      ReachedNext(spine, prev, it, i);
      ItemsWithout(spine, i);
      first := LinkOut(first, prev, it, spine, i);
      spine := Without(spine, i);
    }
  }
}
