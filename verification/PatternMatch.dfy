/** lo_pattern_match: the backtracking matcher of OSC address patterns, against a declarative glob
    relation.  A C string is a sequence of non-zero character codes; `char` may be signed or
    unsigned, so the codes are plain integers. */
module PatternMatch {

  type Code = int

  const STAR: Code := '*' as int
  const QUERY: Code := '?' as int
  const OPEN: Code := '[' as int
  const CLOSE: Code := ']' as int
  const BRACE: Code := '{' as int
  const NEGATE: Code := '!' as int
  const HYPHEN: Code := '-' as int

  predicate IsCString(s: seq<Code>) {
    forall i :: 0 <= i < |s| ==> s[i] != 0
  }

  /** What a pointer to the string sees at offset i: the terminator past the last character. */
  function CodeAt(s: seq<Code>, i: nat): Code {
    if i < |s| then s[i] else 0
  }

  // ----- Character sets -----

  /** Whether position i of a set's body is a hyphen that joins its two neighbours: not the first
      position and not itself joined to the left. */
  predicate Joins(body: seq<Code>, i: nat)
    requires i < |body|
  {
    i > 0 && body[i] == HYPHEN && !Joins(body, i - 1)
  }

  /** The characters that position i stands for: itself, what lies strictly between the ends when
      it opens a range, and everything from it upwards when its range has no end. */
  predicate Covers(body: seq<Code>, i: nat, x: Code)
    requires i < |body|
  {
    || x == body[i]
    || (i + 1 < |body| && Joins(body, i + 1) &&
        if i + 2 < |body| then body[i] < x < body[i + 2] else x >= body[i])
  }

  ghost predicate Member(body: seq<Code>, x: Code) {
    exists i: nat :: i < |body| && !Joins(body, i) && Covers(body, i, x)
  }

  // ----- Patterns -----

  /** `Never` is a set that is not closed. */
  datatype Token = Literal(c: Code) | AnyOne | AnyMany | OneOf(negated: bool, body: seq<Code>) | Never

  /** The first position from k on that holds c, or the length of s. */
  function FirstFrom(s: seq<Code>, k: nat, c: Code): (r: nat)
    requires k <= |s|
    ensures k <= r <= |s| && (r < |s| ==> s[r] == c)
    ensures forall i :: k <= i < r ==> s[i] != c
    decreases |s| - k
  {
    if k == |s| || s[k] == c then k else FirstFrom(s, k + 1, c)
  }

  /** Where the body of the set that opens at the start of p begins and ends: the body has at least
      one character, so a closing bracket right at its beginning belongs to it. */
  function BodyStart(p: seq<Code>): (r: nat)
    requires |p| > 0
  {
    if CodeAt(p, 1) == NEGATE then 2 else 1
  }

  function BodyEnd(p: seq<Code>): (r: nat)
    requires |p| > 0
    ensures r <= |p|
  {
    if BodyStart(p) >= |p| then |p| else FirstFrom(p, BodyStart(p) + 1, CLOSE)
  }

  /** The first token of a pattern and how many characters it takes. */
  function TokenLength(p: seq<Code>): (r: nat)
    requires |p| > 0
    ensures 0 < r <= |p|
  {
    if p[0] != OPEN then 1 else if BodyEnd(p) < |p| then BodyEnd(p) + 1 else |p|
  }

  function FirstToken(p: seq<Code>): Token
    requires |p| > 0
  {
    if p[0] == STAR then AnyMany
    else if p[0] == QUERY then AnyOne
    else if p[0] != OPEN then Literal(p[0])
    else if BodyEnd(p) < |p| then OneOf(BodyStart(p) == 2, p[BodyStart(p)..BodyEnd(p)])
    else Never
  }

  function Tokens(p: seq<Code>): seq<Token>
    decreases |p|
  {
    if p == [] then [] else [FirstToken(p)] + Tokens(p[TokenLength(p)..])
  }

  /** Patterns the matcher reads within bounds and without its brace lists: no opening brace outside
      a set, and no `[!` at the very end, after which the source reads past the terminator. */
  predicate Readable(p: seq<Code>)
    decreases |p|
  {
    p == [] || (p[0] != BRACE && !(p[0] == OPEN && |p| == 2 && p[1] == NEGATE) && Readable(p[TokenLength(p)..]))
  }

  /** Every pattern without an opening brace is readable, unless it ends with `[!`. */
  lemma {:induction false} ReadableWithoutBraces(p: seq<Code>)
    requires BRACE !in p && !(|p| >= 2 && p[|p| - 2] == OPEN && p[|p| - 1] == NEGATE)
    ensures Readable(p)
    decreases |p|
  {
    if p == [] {
    } else {
      var rest := p[TokenLength(p)..];
      assert |rest| >= 2 ==> rest[|rest| - 2] == p[|p| - 2] && rest[|rest| - 1] == p[|p| - 1];
      ReadableWithoutBraces(rest);
    }
  }

  // ----- The glob relation -----

  /** Token t accepts exactly the character x. */
  ghost predicate Fits(t: Token, x: Code) {
    match t
    case Literal(c) => x == c
    case AnyOne => true
    case OneOf(negated, body) => Member(body, x) != negated
    case AnyMany => false
    case Never => false
  }

  ghost predicate Glob(ts: seq<Token>, s: seq<Code>) {
    if ts == [] then s == []
    else if ts[0] == AnyMany then exists k :: 0 <= k <= |s| && Glob(ts[1..], s[k..])
    else s != [] && Fits(ts[0], s[0]) && Glob(ts[1..], s[1..])
  }

  ghost predicate Stands(t: Token, piece: seq<Code>) {
    t == AnyMany || (|piece| == 1 && Fits(t, piece[0]))
  }

  function Join(pieces: seq<seq<Code>>): seq<Code> {
    if pieces == [] then [] else pieces[0] + Join(pieces[1..])
  }

  /** s can be cut into one piece per token that the token stands for. */
  ghost predicate Cuts(ts: seq<Token>, s: seq<Code>, pieces: seq<seq<Code>>) {
    |pieces| == |ts| && Join(pieces) == s && forall i :: 0 <= i < |ts| ==> Stands(ts[i], pieces[i])
  }

  lemma {:induction false} GlobCuts(ts: seq<Token>, s: seq<Code>) returns (pieces: seq<seq<Code>>)
    requires Glob(ts, s)
    ensures Cuts(ts, s, pieces)
  {
    if ts == [] {
      pieces := [];
    } else {
      var k: nat := 1;
      if ts[0] == AnyMany {
        k :| 0 <= k <= |s| && Glob(ts[1..], s[k..]);
      }
      var rest := GlobCuts(ts[1..], s[k..]);
      pieces := [s[..k]] + rest;
      assert pieces[1..] == rest;
      assert s == s[..k] + s[k..];
    }
  }

  lemma {:induction false} CutsGlob(ts: seq<Token>, s: seq<Code>, pieces: seq<seq<Code>>)
    requires Cuts(ts, s, pieces)
    ensures Glob(ts, s)
  {
    if ts == [] {
    } else {
      var k := |pieces[0]|;
      assert Stands(ts[0], pieces[0]);
      assert s[k..] == Join(pieces[1..]);
      CutsGlob(ts[1..], s[k..], pieces[1..]);
    }
  }

  ghost predicate Cuttable(ts: seq<Token>, s: seq<Code>) {
    exists pieces :: Cuts(ts, s, pieces)
  }

  /** The relation computed token by token is the relation that cuts the string into pieces. */
  lemma GlobIsCutting(ts: seq<Token>, s: seq<Code>)
    ensures Glob(ts, s) <==> Cuttable(ts, s)
  {
    if Glob(ts, s) {
      var pieces := GlobCuts(ts, s);
    }
    if pieces :| Cuts(ts, s, pieces) {
      CutsGlob(ts, s, pieces);
    }
  }

  // ----- What patterns mean, character by character -----

  /** The first token of a pattern decides, and the rest of the pattern is read on its own. */
  lemma FirstDecides(p: seq<Code>, rest: seq<Code>, n: nat)
    requires p != [] && n == TokenLength(p) && rest == p[n..]
    ensures Tokens(p) == [FirstToken(p)] + Tokens(rest) && Tokens(p)[1..] == Tokens(rest)
  {}

  /** A star stands for any string, a question mark for any character, and everything but an opening bracket
      for itself. */
  lemma StarIs(p: seq<Code>, s: seq<Code>)
    ensures Glob(Tokens([STAR] + p), s) <==> exists k :: 0 <= k <= |s| && Glob(Tokens(p), s[k..])
  {
    FirstDecides([STAR] + p, p, 1);
  }

  lemma QueryIs(p: seq<Code>, s: seq<Code>)
    ensures Glob(Tokens([QUERY] + p), s) <==> s != [] && Glob(Tokens(p), s[1..])
  {
    FirstDecides([QUERY] + p, p, 1);
  }

  lemma LiteralIs(c: Code, p: seq<Code>, s: seq<Code>)
    requires c != STAR && c != QUERY && c != OPEN
    ensures Glob(Tokens([c] + p), s) <==> s != [] && s[0] == c && Glob(Tokens(p), s[1..])
  {
    FirstDecides([c] + p, p, 1);
  }

  lemma FirstFromIs(s: seq<Code>, k: nat, c: Code, r: nat)
    requires k <= r < |s| && s[r] == c && forall i :: k <= i < r ==> s[i] != c
    ensures FirstFrom(s, k, c) == r
  {}

  lemma SetParts(head: seq<Code>, body: seq<Code>, p: seq<Code>)
    requires body != [] && CLOSE !in body[1..]
    ensures var q := head + body + [CLOSE] + p; var from, to := |head|, |head| + |body|;
      && q[from..to] == body && q[to] == CLOSE && q[to + 1..] == p && q[..from] == head && q[from] == body[0]
      && forall i :: from + 1 <= i < to ==> q[i] != CLOSE
  {
    var q := head + body + [CLOSE] + p;
    forall i | |head| + 1 <= i < |head| + |body| ensures q[i] != CLOSE {
      assert q[i] == body[1..][i - |head| - 1];
    }
  }

  lemma SetToken(q: seq<Code>, negated: bool, body: seq<Code>, from: nat, to: nat)
    requires from < to < |q| && q[0] == OPEN && q[from..to] == body && q[to] == CLOSE
    requires if negated then from == 2 && q[1] == NEGATE else from == 1 && q[1] != NEGATE
    requires forall i :: from + 1 <= i < to ==> q[i] != CLOSE
    ensures FirstToken(q) == OneOf(negated, body) && TokenLength(q) == to + 1
  {
    FirstFromIs(q, from + 1, CLOSE, to);
  }

  lemma OneThen(t: Token, ts: seq<Token>, s: seq<Code>)
    requires t != AnyMany
    ensures Glob([t] + ts, s) <==> s != [] && Fits(t, s[0]) && Glob(ts, s[1..])
  {
    assert ([t] + ts)[1..] == ts;
  }

  /** A closed set, with or without the exclamation mark, stands for the characters its body has, or for
      the others.  A closing bracket right at the beginning belongs to the body. */
  lemma SetIs(negated: bool, body: seq<Code>, p: seq<Code>, s: seq<Code>)
    requires body != [] && CLOSE !in body[1..] && (!negated ==> body[0] != NEGATE)
    ensures var q := (if negated then [OPEN, NEGATE] else [OPEN]) + body + [CLOSE] + p;
      Glob(Tokens(q), s) <==> s != [] && Member(body, s[0]) != negated && Glob(Tokens(p), s[1..])
  {
    var head := if negated then [OPEN, NEGATE] else [OPEN];
    var q := head + body + [CLOSE] + p;
    SetParts(head, body, p);
    assert q[..|head|] == head;
    SetToken(q, negated, body, |head|, |head| + |body|);
    FirstDecides(q, p, |head| + |body| + 1);
    OneThen(OneOf(negated, body), Tokens(p), s);
  }

  /** A set that is not closed matches nothing. */
  lemma OpenSetIs(negated: bool, body: seq<Code>, s: seq<Code>)
    requires body == [] || (CLOSE !in body[1..] && (!negated ==> body[0] != NEGATE))
    ensures !Glob(Tokens((if negated then [OPEN, NEGATE] else [OPEN]) + body), s)
  {
    var q := (if negated then [OPEN, NEGATE] else [OPEN]) + body;
    assert FirstToken(q) == Never;
  }

  /** Without hyphens the body of a set lists its characters. */
  lemma PlainSet(body: seq<Code>, x: Code)
    requires HYPHEN !in body
    ensures Member(body, x) <==> x in body
  {
    if x in body {
      var i: nat :| i < |body| && body[i] == x;
      assert !Joins(body, i) && Covers(body, i, x);
    }
  }

  /** A range has its two ends and what lies strictly between them; without an upper end it has everything
      from its lower end on. */
  lemma RangeSet(a: Code, b: Code, x: Code)
    ensures Member([a, HYPHEN, b], x) <==> x == a || x == b || a < x < b
    ensures Member([a, HYPHEN], x) <==> x >= a
  {
    var range, open := [a, HYPHEN, b], [a, HYPHEN];
    assert !Joins(range, 0) && Joins(range, 1) && !Joins(range, 2) && !Joins(open, 0) && Joins(open, 1);
    if x == b {
      assert Covers(range, 2, x);
    }
    if x == a || a < x < b {
      assert Covers(range, 0, x);
    }
    if x >= a {
      assert Covers(open, 0, x);
    }
  }

  /** A body may be cut in front of anything but a hyphen, as long as no range is cut open. */
  predicate Separate(a: seq<Code>, b: seq<Code>) {
    a != [] && b != [] && b[0] != HYPHEN && !Joins(a, |a| - 1)
  }

  lemma JoinsFront(a: seq<Code>, b: seq<Code>, i: nat)
    requires i < |a|
    ensures Joins(a + b, i) == Joins(a, i)
  {
    if i > 0 {
      JoinsFront(a, b, i - 1);
    }
  }

  lemma JoinsBack(a: seq<Code>, b: seq<Code>, i: nat)
    requires Separate(a, b) && i < |b|
    ensures Joins(a + b, |a| + i) == Joins(b, i)
  {
    if i > 0 {
      JoinsBack(a, b, i - 1);
    }
  }

  lemma CoversFront(a: seq<Code>, b: seq<Code>, i: nat, x: Code)
    requires Separate(a, b) && i < |a|
    ensures Covers(a + b, i, x) == Covers(a, i, x)
  {
    if i + 1 < |a| {
      JoinsFront(a, b, i + 1);
    } else {
      JoinsBack(a, b, 0);
    }
  }

  lemma CoversBack(a: seq<Code>, b: seq<Code>, i: nat, x: Code)
    requires Separate(a, b) && i < |b|
    ensures Covers(a + b, |a| + i, x) == Covers(b, i, x)
  {
    if i + 1 < |b| {
      JoinsBack(a, b, i + 1);
    }
  }

  /** Then the set has the characters of both parts. */
  lemma SetUnion(a: seq<Code>, b: seq<Code>, x: Code)
    requires Separate(a, b)
    ensures Member(a + b, x) <==> Member(a, x) || Member(b, x)
  {
    if i: nat :| i < |a| && !Joins(a, i) && Covers(a, i, x) {
      JoinsFront(a, b, i);
      CoversFront(a, b, i, x);
    }
    if i: nat :| i < |b| && !Joins(b, i) && Covers(b, i, x) {
      JoinsBack(a, b, i);
      CoversBack(a, b, i, x);
    }
    if i: nat :| i < |a + b| && !Joins(a + b, i) && Covers(a + b, i, x) {
      if i < |a| {
        JoinsFront(a, b, i);
        CoversFront(a, b, i, x);
      } else {
        JoinsBack(a, b, i - |a|);
        CoversBack(a, b, i - |a|, x);
      }
    }
  }

  // ----- The set scanner -----

  /** No position from j up to k accounts for x. */
  ghost predicate NoneBetween(body: seq<Code>, j: nat, k: nat, x: Code) {
    forall i: nat :: j <= i < k && i < |body| && !Joins(body, i) ==> !Covers(body, i, x)
  }

  /** The body of the set that opens p and where it ends. */
  ghost predicate IsBody(p: seq<Code>, start: nat, end: nat, body: seq<Code>) {
    && start < end <= |p| && body == p[start..end]
    && (forall i :: start < i < end ==> p[i] != CLOSE)
    && (end < |p| ==> p[end] == CLOSE)
  }

  /** One turn of the scanner's loop: the window at `at`, which is either two characters, or three
      when the middle one is a hyphen, or cut short by the closing bracket. `Ended` is the end of
      the pattern, `Closed` the closing bracket, `Open` a window whose last character starts the next. */
  datatype Window = Ended | Closed | Open

  method ScanWindow(x: Code, p: seq<Code>, at: nat, ghost start: nat, ghost end: nat, ghost body: seq<Code>)
    returns (w: Window, hit: bool, next: nat)
    requires IsCString(p) && IsBody(p, start, end, body) && start <= at < end && !Joins(body, at - start)
    ensures w.Ended? ==> end == |p|
    ensures !w.Ended? ==> at < next <= end && (hit ==> Member(body, x))
    ensures !w.Ended? && !hit ==> NoneBetween(body, at - start, if w.Open? then next - start else |body|, x)
    ensures w.Open? ==> next < end && !Joins(body, next - start)
    ensures w.Closed? ==> next == end
  {
    var c := p[at];
    next := at + 1;
    hit := false;
    ghost var k := at - start;
    if CodeAt(p, next) == 0 {
      return Ended, false, next;
    }
    if p[next] == HYPHEN {
      assert body[k + 1] == HYPHEN;
      next := next + 1;
      if CodeAt(p, next) == 0 {
        return Ended, false, next;
      }
      if p[next] != CLOSE {
        assert body[k + 2] == p[next];
        hit := x == c || x == p[next] || (x > c && x < p[next]);
        assert Joins(body, k + 1) && !Joins(body, k + 2);
        if hit {
          assert Covers(body, k, x) || Covers(body, k + 2, x);
        }
        w := Open;
      } else {
        hit := x >= c;
        if hit {
          assert Covers(body, k, x);
        }
        w := Closed;
      }
    } else {
      hit := c == x;
      if hit {
        assert Covers(body, k, x);
      }
      if p[next] != CLOSE {
        assert body[k + 1] == p[next];
        if p[next] == x {
          assert Covers(body, k + 1, x);
          hit := true;
        }
        w := Open;
      } else {
        w := Closed;
      }
    }
  }

  /** The `[` case of the matcher, entered with *p the opening bracket and *str == x: slides the
      window until it accounts for x or meets the closing bracket, then skips to that bracket. */
  method MatchSet(x: Code, p: seq<Code>) returns (ok: bool, next: nat)
    requires IsCString(p) && Readable(p) && p != [] && p[0] == OPEN
    ensures ok == Fits(FirstToken(p), x)
    ensures ok ==> next == TokenLength(p)
  {
    next := 1;
    var negate := false;
    if CodeAt(p, next) == NEGATE {
      negate := true;
      next := next + 1;
    }
    if next == |p| {
      return false, next;
    }
    ghost var start, end := BodyStart(p), BodyEnd(p);
    ghost var body := p[start..end];
    var found := false;
    while !found
      invariant start <= next <= end
      invariant !found ==> next < end && !Joins(body, next - start) && NoneBetween(body, 0, next - start, x)
      invariant found ==> start < next && Member(body, x)
      decreases !found, |p| - next
    {
      var w;
      w, found, next := ScanWindow(x, p, next, start, end, body);
      if w.Ended? {
        return false, next;
      }
      if w.Closed? {
        break;
      }
    }
    assert found == Member(body, x);
    if negate == found {
      return false, next;
    }
    next := FindClose(p, next, end);
    return next < |p|, next + 1;
  }

  /** Skips past the set, from inside it. */
  method FindClose(p: seq<Code>, from: nat, ghost end: nat) returns (next: nat)
    requires from <= end <= |p| && (end < |p| ==> p[end] == CLOSE)
    requires forall i :: from <= i < end ==> p[i] != CLOSE
    ensures next == end
  {
    next := from;
    while next < |p| && p[next] != CLOSE
      invariant from <= next <= end
    {
      next := next + 1;
    }
  }

  // ----- The matcher -----

  lemma StarStar(ts: seq<Token>, s: seq<Code>)
    ensures Glob([AnyMany, AnyMany] + ts, s) == Glob([AnyMany] + ts, s)
  {
    var two, one := [AnyMany, AnyMany] + ts, [AnyMany] + ts;
    assert two[1..] == one && one[1..] == ts;
    if Glob(two, s) {
      var k :| 0 <= k <= |s| && Glob(one, s[k..]);
      var j :| 0 <= j <= |s[k..]| && Glob(ts, s[k..][j..]);
      assert s[k..][j..] == s[k + j..];
    }
    if Glob(one, s) {
      assert s[0..] == s;
    }
  }

  lemma StarAtEnd(s: seq<Code>)
    ensures Glob([AnyMany], s)
  {
    assert s[|s|..] == [];
  }

  /** After a star, nothing that starts with a character the first token rejects can match. */
  lemma StarTries(ts: seq<Token>, s: seq<Code>, from: nat)
    requires ts != [] && ts[0] != AnyMany && from <= |s|
    requires forall i :: 0 <= i < from ==> !Fits(ts[0], s[i])
    ensures Glob([AnyMany] + ts, s) <==> exists k :: from <= k < |s| && Glob(ts, s[k..])
  {
    assert ([AnyMany] + ts)[1..] == ts;
    if Glob([AnyMany] + ts, s) {
      var k :| 0 <= k <= |s| && Glob(ts, s[k..]);
      assert k < |s| && s[k..][0] == s[k];
    }
  }

  /** How a pattern splits off its first token, against a string. */
  lemma GlobStep(str: seq<Code>, p: seq<Code>)
    requires p != [] && Readable(p)
    ensures Readable(p[TokenLength(p)..]) && p[0] != BRACE
    ensures p[0] == STAR ==> TokenLength(p) == 1 && Tokens(p) == [AnyMany] + Tokens(p[1..])
    ensures p[0] != STAR ==>
      (Glob(Tokens(p), str) <==>
       str != [] && Fits(FirstToken(p), str[0]) && Glob(Tokens(p[TokenLength(p)..]), str[1..]))
  {
    FirstDecides(p, p[TokenLength(p)..], TokenLength(p));
  }

  /** lo_pattern_match: whether the pattern p matches the string str.  The two pointers that the
      source advances are the suffixes s and q. */
  method LoPatternMatch(str: seq<Code>, p: seq<Code>) returns (b: bool)
    requires IsCString(str) && IsCString(p) && Readable(p)
    ensures b == Glob(Tokens(p), str)
    decreases |p|, 0
  {
    var s, q := str, p;
    while q != []
      invariant IsCString(s) && IsCString(q) && Readable(q) && |q| <= |p|
      invariant Glob(Tokens(p), str) <==> Glob(Tokens(q), s)
      decreases |q|
    {
      GlobStep(s, q);
      if s == [] && q[0] != STAR {
        return false;
      }
      if q[0] == STAR {
        b := MatchMany(s, q[1..]);
        return;
      }
      var ok, next := MatchOne(s[0], q);
      if !ok {
        return false;
      }
      s, q := s[1..], q[next..];
    }
    return s == [];
  }

  /** The cases of the matcher that consume one character x of the string. */
  method MatchOne(x: Code, p: seq<Code>) returns (ok: bool, next: nat)
    requires IsCString(p) && Readable(p) && p != [] && p[0] != STAR
    ensures ok == Fits(FirstToken(p), x)
    ensures ok ==> next == TokenLength(p)
  {
    if p[0] == QUERY {
      return true, 1;
    } else if p[0] == OPEN {
      ok, next := MatchSet(x, p);
    } else {
      return p[0] == x, 1;
    }
  }

  /** The `*` case of the matcher, entered with p past the star. */
  method MatchMany(str: seq<Code>, p: seq<Code>) returns (b: bool)
    requires IsCString(str) && IsCString(p) && Readable(p)
    ensures b == Glob([AnyMany] + Tokens(p), str)
    decreases |p|, 2
  {
    var at := 0;
    while at < |p| && p[at] == STAR
      invariant at <= |p| && Readable(p[at..])
      invariant Glob([AnyMany] + Tokens(p), str) == Glob([AnyMany] + Tokens(p[at..]), str)
    {
      FirstDecides(p[at..], p[at + 1..], 1);
      assert [AnyMany] + ([AnyMany] + Tokens(p[at + 1..])) == [AnyMany, AnyMany] + Tokens(p[at + 1..]);
      StarStar(Tokens(p[at + 1..]), str);
      at := at + 1;
    }
    if at == |p| {
      StarAtEnd(str);
      return true;
    }
    b := MatchLater(str, p[at..]);
  }

  /** Tries the rest of the pattern, which starts with no star, at every position of the string, but
      skips ahead to the first that can match when the pattern goes on with a literal. */
  method MatchLater(str: seq<Code>, p: seq<Code>) returns (b: bool)
    requires IsCString(str) && IsCString(p) && Readable(p) && p != [] && p[0] != STAR
    ensures b == Glob([AnyMany] + Tokens(p), str)
    decreases |p|, 1
  {
    var s := 0;
    ghost var ts := Tokens(p);
    FirstDecides(p, p[TokenLength(p)..], TokenLength(p));
    if p[0] != QUERY && p[0] != OPEN {
      while s < |str| && p[0] != str[s]
        invariant s <= |str|
        invariant forall i :: 0 <= i < s ==> !Fits(ts[0], str[i])
      {
        s := s + 1;
      }
    }
    StarTries(ts, str, s);
    ghost var from := s;
    while s < |str|
      invariant from <= s <= |str|
      invariant forall k :: from <= k < s ==> !Glob(ts, str[k..])
    {
      b := LoPatternMatch(str[s..], p);
      if b {
        return true;
      }
      s := s + 1;
    }
    return false;
  }

  /** A pattern without pattern characters matches itself and nothing else. */
  lemma {:induction false} PlainMatchesItself(p: seq<Code>, s: seq<Code>)
    requires forall i :: 0 <= i < |p| ==> p[i] != STAR && p[i] != QUERY && p[i] != OPEN && p[i] != BRACE
    ensures Readable(p) && (Glob(Tokens(p), s) <==> s == p)
  {
    if p == [] {
    } else {
      PlainMatchesItself(p[1..], if s == [] then s else s[1..]);
      FirstDecides(p, p[1..], 1);
      if s != [] {
        assert s == [s[0]] + s[1..] && p == [p[0]] + p[1..];
      }
    }
  }
}
