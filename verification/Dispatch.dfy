/** dispatch_method: which handlers a message reaches, with which path and types, and the reply to a
    method enumeration call. */
module Dispatch {
  import opened Wrappers
  import opened Octets
  import opened Lists
  import opened Chains
  import opened Arguments
  import opened Messages
  import opened MethodTable
  import Enumeration
  import PatternMatch

  // ----- Which types fit -----

  predicate IsNumerical(tag: byte) {
    tag == INT32 || tag == FLOAT || tag == INT64 || tag == DOUBLE
  }

  predicate CanCoerce(a: byte, b: byte) {
    a == b || (IsNumerical(a) && IsNumerical(b)) || (IsText(a) && IsText(b))
  }

  /** Types are coerced within their class: the numbers i f h d, the strings s S, and every type alone. */
  lemma CoercionClasses(a: byte, b: byte, c: byte)
    ensures CanCoerce(a, a) && (CanCoerce(a, b) ==> CanCoerce(b, a)) && (CanCoerce(a, b) && CanCoerce(b, c) ==> CanCoerce(a, c))
    ensures a in [102, 104, 100] ==> CanCoerce('i' as int, a)
    ensures a == 83 <==> a != 's' as int && CanCoerce('s' as int, a)
    ensures CanCoerce(a, b) ==> a == b || (a in [105, 102, 104, 100] && b in [105, 102, 104, 100]) || (a in [115, 83] && b in [115, 83])
  {}

  ghost predicate CanCoerceSpec(a: seq<byte>, b: seq<byte>) {
    |a| == |b| && forall i :: 0 <= i < |a| ==> CanCoerce(a[i], b[i])
  }

  /** lo_can_coerce_spec */
  method LoCanCoerceSpec(a: seq<byte>, b: seq<byte>) returns (ok: bool)
    ensures ok == CanCoerceSpec(a, b)
  {
    if |a| != |b| {
      return false;
    }
    var i := 0;
    while i < |a|
      invariant i <= |a| && forall k :: 0 <= k < i ==> CanCoerce(a[k], b[k])
    {
      if !CanCoerce(a[i], b[i]) {
        return false;
      }
      i := i + 1;
    }
    return true;
  }

  // ----- Which methods are called -----

  ghost predicate PathFits(other: (Name, Name) -> bool, path: Name, m: Method) {
    m.path.None? || m.path.value == path || (IsPattern(path) && Matches(other, m.path.value, path))
  }

  ghost predicate TypesFit(types: Name, m: Method) {
    m.typespec.None? || m.typespec.value == types || CanCoerceSpec(types, m.typespec.value)
  }

  /** Exactly which paths fit: every path a method without one; a plain path the method with that path; a
      pattern the methods whose path it is or matches. */
  lemma FitsExactly(other: (Name, Name) -> bool, path: Name, m: Method)
    ensures m.path.None? ==> PathFits(other, path, m)
    ensures m.path.Some? && !IsPattern(path) ==> (PathFits(other, path, m) <==> m.path.value == path)
    ensures m.path.Some? && IsPattern(path) && PatternMatch.Readable(Chars(path)) ==>
              (PathFits(other, path, m) <==>
               m.path.value == path || PatternMatch.Cuttable(PatternMatch.Tokens(Chars(path)), Chars(m.path.value)))
  {
    if m.path.Some? && PatternMatch.Readable(Chars(path)) {
      MatchesByPieces(other, m.path.value, path);
    }
  }

  /** And which types: all for a method without a typespec, else those that can be coerced one by one. */
  lemma TypesFitExactly(types: Name, m: Method)
    ensures m.typespec.None? ==> TypesFit(types, m)
    ensures m.typespec.Some? ==>
              (TypesFit(types, m) <==>
               |types| == |m.typespec.value| && forall i :: 0 <= i < |types| ==> CanCoerce(types[i], m.typespec.value[i]))
  {}

  ghost function Eligible(other: (Name, Name) -> bool, path: Name, types: Name): Method -> bool {
    m => PathFits(other, path, m) && TypesFit(types, m)
  }

  /** The arguments have to be converted for this method. */
  predicate Converts(types: Name, m: Method) {
    m.typespec.Some? && m.typespec.value != types
  }

  /** The argument vector a handler gets: the message's own, a converted copy, or a null pointer, because
      the message has no arguments or the dispatcher forgot its vector with the first copy. */
  datatype Argv = Own | Copy | Null

  datatype Call = Call(handler: nat, path: Name, types: Name, argv: Argv)

  /** Handlers of methods with a path are told that path, others the path of the message. */
  function CallOf(path: Name, types: Name, gone: bool, m: Method): Call {
    Call(m.handler, if m.path.Some? then m.path.value else path, if m.typespec.Some? then m.typespec.value else types,
         if Converts(types, m) then Copy else if types == [] || gone then Null else Own)
  }

  /** The calls for the eligible methods, when call number n of all answers `answer(n)`. */
  function Made(path: Name, types: Name, es: seq<Method>, answer: nat -> int, n: nat, gone: bool): seq<Call> {
    if es == [] then [] else
    [CallOf(path, types, gone, es[0])] +
    if answer(n) == 0 && !IsPattern(path) then [] else
    Made(path, types, es[1..], answer, n + 1, gone || Converts(types, es[0]))
  }

  /** Whether the message's own argument vector is gone after these calls. */
  predicate GoneAfter(path: Name, types: Name, es: seq<Method>, answer: nat -> int, n: nat, gone: bool) {
    if es == [] then gone else
    var gone' := gone || Converts(types, es[0]);
    if answer(n) == 0 && !IsPattern(path) then gone' else GoneAfter(path, types, es[1..], answer, n + 1, gone')
  }

  ghost predicate AnyCopy(calls: seq<Call>) {
    exists i :: 0 <= i < |calls| && calls[i].argv == Copy
  }

  lemma AnyCopyJoin(a: seq<Call>, b: seq<Call>)
    ensures AnyCopy(a + b) <==> AnyCopy(a) || AnyCopy(b)
  {
    var s := a + b;
    if AnyCopy(s) {
      var i :| 0 <= i < |s| && s[i].argv == Copy;
      assert if i < |a| then a[i] == s[i] else b[i - |a|] == s[i];
    }
    if AnyCopy(a) {
      var i :| 0 <= i < |a| && a[i].argv == Copy;
      assert s[i] == a[i];
    }
    if AnyCopy(b) {
      var i :| 0 <= i < |b| && b[i].argv == Copy;
      assert s[|a| + i] == b[i];
    }
  }

  lemma AnyCopyHead(call: Call, calls: seq<Call>, i: nat)
    requires 0 < i <= |calls| + 1
    ensures AnyCopy(([call] + calls)[..i]) <==> call.argv == Copy || AnyCopy(calls[..i - 1])
  {
    assert ([call] + calls)[..i] == [call] + calls[..i - 1];
    AnyCopyJoin([call], calls[..i - 1]);
    assert AnyCopy([call]) <==> [call][0].argv == Copy;
  }

  /** No eligible method is called twice or out of the order of registration.  A pattern reaches all
      of them, a plain path those up to and including the first whose handler answers 0. */
  lemma {:induction false} CallsStop(path: Name, types: Name, es: seq<Method>, answer: nat -> int, n: nat, gone: bool)
    ensures var k := |Made(path, types, es, answer, n, gone)|;
      && k <= |es|
      && (IsPattern(path) ==> k == |es|)
      && (!IsPattern(path) ==> (forall j: nat :: n <= j < n + k - 1 ==> answer(j) != 0)
                               && (k < |es| ==> k > 0 && answer(n + k - 1) == 0))
    decreases |es|
  {
    if es == [] {
    } else {
      CallsStop(path, types, es[1..], answer, n + 1, gone || Converts(types, es[0]));
    }
  }

  /** A later call is made for the rest of the methods. */
  lemma LaterCall(path: Name, types: Name, es: seq<Method>, answer: nat -> int, n: nat, gone: bool, i: nat)
    requires 0 < i < |Made(path, types, es, answer, n, gone)|
    ensures es != []
    ensures var rest := Made(path, types, es[1..], answer, n + 1, gone || Converts(types, es[0]));
      Made(path, types, es, answer, n, gone) == [CallOf(path, types, gone, es[0])] + rest
  {}

  /** What a call gets for the argument vector, with one more call in front. */
  lemma CallBehind(path: Name, types: Name, gone: bool, first: Method, rest: seq<Call>, i: nat, m: Method)
    requires 0 < i <= |rest|
    requires rest[i - 1] == CallOf(path, types, gone || Converts(types, first) || AnyCopy(rest[..i - 1]), m)
    ensures var made := [CallOf(path, types, gone, first)] + rest; made[i] == CallOf(path, types, gone || AnyCopy(made[..i]), m)
  {
    AnyCopyHead(CallOf(path, types, gone, first), rest, i);
  }

  /** What the handlers are told: call number i goes to eligible method i, and what it gets for the
      argument vector depends on earlier calls only through whether one of them was a copy. */
  lemma {:induction false} CallsAre(path: Name, types: Name, es: seq<Method>, answer: nat -> int, n: nat, gone: bool, i: nat)
    requires i < |Made(path, types, es, answer, n, gone)|
    ensures var made := Made(path, types, es, answer, n, gone);
      i < |es| && made[i] == CallOf(path, types, gone || AnyCopy(made[..i]), es[i])
    decreases |es|
  {
    if i == 0 {
    } else {
      LaterCall(path, types, es, answer, n, gone, i);
      CallsAre(path, types, es[1..], answer, n + 1, gone || Converts(types, es[0]), i - 1);
      CallBehind(path, types, gone, es[0], Made(path, types, es[1..], answer, n + 1, gone || Converts(types, es[0])), i, es[i]);
    }
  }

  lemma {:induction false} GoneIs(path: Name, types: Name, es: seq<Method>, answer: nat -> int, n: nat, gone: bool)
    ensures GoneAfter(path, types, es, answer, n, gone) <==> gone || AnyCopy(Made(path, types, es, answer, n, gone))
    decreases |es|
  {
    if es == [] {
    } else {
      var gone' := gone || Converts(types, es[0]);
      var call, rest := CallOf(path, types, gone, es[0]), Made(path, types, es[1..], answer, n + 1, gone');
      GoneIs(path, types, es[1..], answer, n + 1, gone');
      AnyCopyHead(call, rest, |rest| + 1);
      AnyCopyHead(call, [], 1);
      assert rest[..|rest|] == rest && ([call] + rest)[..|rest| + 1] == [call] + rest && ([call] + [])[..1] == [call] + [];
    }
  }

  /** Some of these methods needs the arguments converted. */
  ghost predicate AnyConverts(types: Name, es: seq<Method>) {
    exists i :: 0 <= i < |es| && Converts(types, es[i])
  }

  lemma CopyExactly(path: Name, types: Name, es: seq<Method>, answer: nat -> int, n: nat, gone: bool, i: nat)
    requires i < |Made(path, types, es, answer, n, gone)|
    ensures i < |es| && (Made(path, types, es, answer, n, gone)[i].argv == Copy <==> Converts(types, es[i]))
  {
    CallsAre(path, types, es, answer, n, gone, i);
  }

  lemma CopiesBefore(path: Name, types: Name, es: seq<Method>, answer: nat -> int, n: nat, gone: bool, i: nat)
    requires i <= |Made(path, types, es, answer, n, gone)|
    ensures i <= |es| && (AnyCopy(Made(path, types, es, answer, n, gone)[..i]) <==> AnyConverts(types, es[..i]))
  {
    var made := Made(path, types, es, answer, n, gone);
    CallsStop(path, types, es, answer, n, gone);
    if AnyCopy(made[..i]) {
      var j :| 0 <= j < i && made[..i][j].argv == Copy;
      CopyExactly(path, types, es, answer, n, gone, j);
      assert es[..i][j] == es[j];
    }
    if AnyConverts(types, es[..i]) {
      var j :| 0 <= j < i && Converts(types, es[..i][j]);
      CopyExactly(path, types, es, answer, n, gone, j);
      assert made[..i][j] == made[j];
    }
  }

  /** Exactly when a handler gets a null argument vector: its method needs no conversion, and either the
      message has no arguments or one of the eligible methods registered before it needs one. */
  lemma NullExactly(path: Name, types: Name, es: seq<Method>, answer: nat -> int, n: nat, i: nat)
    requires i < |Made(path, types, es, answer, n, false)|
    ensures i < |es|
    ensures Made(path, types, es, answer, n, false)[i].argv == Null <==>
            !Converts(types, es[i]) && (types == [] || AnyConverts(types, es[..i]))
  {
    CallsAre(path, types, es, answer, n, false, i);
    CopiesBefore(path, types, es, answer, n, false, i);
  }

  /** When no handler stopped the dispatch, every eligible method was called, so the message's vector
      is lost exactly if some eligible method needs a conversion. */
  lemma LostExactly(path: Name, types: Name, es: seq<Method>, answer: nat -> int, n: nat)
    requires LastAnswer(Made(path, types, es, answer, n, false), answer, n) != 0
    ensures AnyCopy(Made(path, types, es, answer, n, false)) <==> AnyConverts(types, es)
  {
    var made := Made(path, types, es, answer, n, false);
    CallsStop(path, types, es, answer, n, false);
    CopiesBefore(path, types, es, answer, n, false, |made|);
    assert made[..|made|] == made && es[..|es|] == es;
  }

  /** What call number i tells its handler.  It is a registered method's handler, the path fits that method,
      and it hears of the method's own path and types where it has them, else of the message's. */
  lemma Told(other: (Name, Name) -> bool, ms: seq<Method>, path: Name, types: Name, answer: nat -> int, n: nat, i: nat)
    requires i < |MadeBy(other, ms, path, types, answer, n)|
    ensures var es := Select(Eligible(other, path, types), ms); i < |es|
    ensures var call, m := MadeBy(other, ms, path, types, answer, n)[i], Select(Eligible(other, path, types), ms)[i];
      && m in ms && PathFits(other, path, m) && TypesFit(types, m) && call.handler == m.handler
      && call.path == (if m.path.Some? then m.path.value else path)
      && call.types == (if m.typespec.Some? then m.typespec.value else types)
      && (call.argv == Copy <==> call.types != types) && (!IsPattern(path) ==> call.path == path)
  {
    var es := Select(Eligible(other, path, types), ms);
    CallsAre(path, types, es, answer, n, false, i);
    SelectMembers(Eligible(other, path, types), ms);
    assert es[i] in es;
  }

  const ROOT: Name := [Enumeration.SLASH]
  const FLOATS: Method := Method(None, Some([FLOAT]), 0)
  const ANYTHING: Method := Method(None, None, 1)

  /** Both can happen: of two methods for every path, the first for a float and the second for
      anything, an integer sent to `/` reaches the second without an argument vector, and if both
      handlers answer 1 the enumeration reply is due with the vector gone. */
  lemma VectorGone(other: (Name, Name) -> bool, answer: nat -> int)
    requires answer(0) == 1 && answer(1) == 1
    ensures var made := MadeBy(other, [FLOATS, ANYTHING], ROOT, [INT32], answer, 0);
      && made == [Call(0, ROOT, [FLOAT], Copy), Call(1, ROOT, [INT32], Null)]
      && Enumerates(true, ROOT, LastAnswer(made, answer, 0)) && AnyCopy(made)
  {
    var eligible := Eligible(other, ROOT, [INT32]);
    assert CanCoerceSpec([INT32], [FLOAT]);
    SelectHead(eligible, FLOATS, [ANYTHING]);
    SelectHead(eligible, ANYTHING, []);
    assert [FLOATS] + [ANYTHING] == [FLOATS, ANYTHING] && [ANYTHING] + [] == [ANYTHING];
    assert Select(eligible, [FLOATS, ANYTHING]) == [FLOATS, ANYTHING];
    TwoMade(answer);
    var made := MadeBy(other, [FLOATS, ANYTHING], ROOT, [INT32], answer, 0);
    assert made[0].argv == Copy;
  }

  lemma TwoMade(answer: nat -> int)
    requires answer(0) == 1 && answer(1) == 1
    ensures Made(ROOT, [INT32], [FLOATS, ANYTHING], answer, 0, false) ==
            [Call(0, ROOT, [FLOAT], Copy), Call(1, ROOT, [INT32], Null)]
  {
    assert [FLOATS, ANYTHING][1..] == [ANYTHING] && [ANYTHING][1..] == [];
    assert Made(ROOT, [INT32], [ANYTHING], answer, 1, true) == [Call(1, ROOT, [INT32], Null)];
  }

  /** The calls one message causes. */
  ghost function MadeBy(other: (Name, Name) -> bool, ms: seq<Method>, path: Name, types: Name, answer: nat -> int, n: nat): seq<Call>
  {
    Made(path, types, Select(Eligible(other, path, types), ms), answer, n, false)
  }

  /** The handlers, as far as a server sees them: the calls so far, and what call number n answers. */
  class Handlers {
    const answer: nat -> int
    var calls: seq<Call>

    constructor (answer: nat -> int)
      ensures this.answer == answer && calls == []
    {
      this.answer := answer;
      calls := [];
    }

    method Invoke(call: Call) returns (ret: int)
      modifies this
      ensures calls == old(calls) + [call] && ret == answer(|old(calls)|)
    {
      ret := answer(|calls|);
      calls := calls + [call];
    }
  }

  /** One method: whether its path fits, and what its handler answers if it is called. */
  method Offer(table: Table, h: Handlers, path: Name, types: Name, pattern: bool, m: Method, gone: bool)
    returns (fits: bool, ret: Option<int>, gone': bool)
    requires pattern == IsPattern(path)
    modifies h
    ensures fits == PathFits(table.other, path, m)
    ensures if Eligible(table.other, path, types)(m)
            then ret == Some(h.answer(|old(h.calls)|)) && h.calls == old(h.calls) + [CallOf(path, types, gone, m)]
                 && gone' == (gone || Converts(types, m))
            else ret == None && h.calls == old(h.calls) && gone' == gone
  {
    fits, ret, gone' := m.path.None? || m.path.value == path, None, gone;
    if !fits && pattern {
      fits := Match(table.other, m.path.value, path);
    }
    if fits {
      var coerce := false;
      if m.typespec.Some? {
        coerce := LoCanCoerceSpec(types, m.typespec.value);
      }
      if m.typespec.None? || m.typespec.value == types {
        var r := h.Invoke(CallOf(path, types, gone, m));
        ret := Some(r);
      } else if coerce {
        var r := h.Invoke(CallOf(path, types, gone, m));
        ret, gone' := Some(r), true;
      }
    }
  }

  /** Where the loop over the methods stands: the calls made so far and those for the methods still to
      come make up the total. */
  ghost predicate Underway(path: Name, types: Name, answer: nat -> int, total: seq<Call>, forgotten: bool,
                           calls: seq<Call>, es: seq<Method>, gone: bool) {
    && total == calls + Made(path, types, es, answer, |calls|, gone)
    && forgotten == GoneAfter(path, types, es, answer, |calls|, gone)
  }

  lemma CallMade(path: Name, types: Name, answer: nat -> int, total: seq<Call>, forgotten: bool, calls: seq<Call>,
                 m: Method, es: seq<Method>, gone: bool)
    requires Underway(path, types, answer, total, forgotten, calls, [m] + es, gone)
    ensures var call, gone' := CallOf(path, types, gone, m), gone || Converts(types, m);
      if answer(|calls|) == 0 && !IsPattern(path) then total == calls + [call] && forgotten == gone'
      else Underway(path, types, answer, total, forgotten, calls + [call], es, gone')
  {
    var call, gone' := CallOf(path, types, gone, m), gone || Converts(types, m);
    assert ([m] + es)[1..] == es && ([m] + es)[0] == m;
    Regroup(calls, [call], Made(path, types, es, answer, |calls| + 1, gone'));
  }

  /** `ret` is 1 if no handler was called, else the last answer. */
  predicate Returned(n: nat, calls: seq<Call>, answer: nat -> int, ret: int) {
    ret == if |calls| <= n then 1 else answer(|calls| - 1)
  }

  function LastAnswer(made: seq<Call>, answer: nat -> int, n: nat): int {
    if made == [] then 1 else answer(n + |made| - 1)
  }

  /** One turn of the loop over the methods: m is offered the message, ms come later. */
  method Turn(table: Table, h: Handlers, path: Name, types: Name, pattern: bool, m: Method, ret: int, gone: bool,
              ghost total: seq<Call>, ghost forgotten: bool, ghost ms: seq<Method>, ghost n: nat)
    returns (stop: bool, ret': int, gone': bool)
    requires pattern == IsPattern(path) && (ret == 0 ==> pattern) && n <= |h.calls| && Returned(n, h.calls, h.answer, ret)
    requires ToCome(table.other, [m] + ms, path, types, h.answer, total, forgotten, h.calls, gone)
    modifies h
    ensures n <= |h.calls| && Returned(n, h.calls, h.answer, ret')
    ensures stop ==> h.calls == total && gone' == forgotten
    ensures !stop ==> ret' == 0 ==> pattern
    ensures !stop ==> ToCome(table.other, ms, path, types, h.answer, total, forgotten, h.calls, gone')
  {
    ghost var eligible, calls := Eligible(table.other, path, types), h.calls;
    SelectHead(eligible, m, ms);
    var fits, answered;
    fits, answered, gone' := Offer(table, h, path, types, pattern, m, gone);
    ret' := ret;
    if answered.Some? {
      ret' := answered.value;
      CallMade(path, types, h.answer, total, forgotten, calls, m, Select(eligible, ms), gone);
    } else {
      assert [] + Select(eligible, ms) == Select(eligible, ms);
    }
    stop := fits && ret' == 0 && !pattern;
  }

  /** The loop over the methods. */
  method CallMethods(table: Table, h: Handlers, path: Name, types: Name) returns (ret: int, gone: bool)
    requires table.Valid()
    modifies h
    ensures var made := MadeBy(table.other, table.Methods(), path, types, h.answer, |old(h.calls)|);
      h.calls == old(h.calls) + made && ret == LastAnswer(made, h.answer, |old(h.calls)|) && gone == AnyCopy(made)
  {
    ghost var made := MadeBy(table.other, table.Methods(), path, types, h.answer, |h.calls|);
    StartsUnderway(table.other, table.Methods(), path, types, h.answer, h.calls);
    ret, gone := CallEach(table, h, path, types, table.Methods(), h.calls + made, AnyCopy(made));
    ReturnedLast(old(h.calls), made, h.answer, ret);
  }

  lemma ReturnedLast(calls: seq<Call>, made: seq<Call>, answer: nat -> int, ret: int)
    requires Returned(|calls|, calls + made, answer, ret)
    ensures ret == LastAnswer(made, answer, |calls|)
  {}

  lemma StartsUnderway(other: (Name, Name) -> bool, ms: seq<Method>, path: Name, types: Name, answer: nat -> int,
                       calls: seq<Call>)
    ensures var made := MadeBy(other, ms, path, types, answer, |calls|);
      ToCome(other, ms, path, types, answer, calls + made, AnyCopy(made), calls, false)
  {
    GoneIs(path, types, Select(Eligible(other, path, types), ms), answer, |calls|, false);
  }

  /** Underway, with the methods ms still to come. */
  ghost predicate ToCome(other: (Name, Name) -> bool, ms: seq<Method>, path: Name, types: Name, answer: nat -> int,
                         total: seq<Call>, forgotten: bool, calls: seq<Call>, gone: bool) {
    Underway(path, types, answer, total, forgotten, calls, Select(Eligible(other, path, types), ms), gone)
  }

  method CallEach(table: Table, h: Handlers, path: Name, types: Name, ghost ms: seq<Method>,
                  ghost total: seq<Call>, ghost forgotten: bool)
    returns (ret: int, gone: bool)
    requires table.Valid() && ms == table.Methods()
    requires ToCome(table.other, ms, path, types, h.answer, total, forgotten, h.calls, false)
    modifies h
    ensures h.calls == total && Returned(|old(h.calls)|, h.calls, h.answer, ret) && gone == forgotten
  {
    var pattern := IsPattern(path);
    ghost var i, n := 0, |h.calls|;
    var it := table.first;
    ret, gone := 1, false;
    ItemsFrom(table.spine, 0);
    while it != null
      invariant i <= |table.spine| && it == At(table.spine, i)
      invariant n <= |h.calls| && Returned(n, h.calls, h.answer, ret) && (ret == 0 ==> pattern)
      invariant ToCome(table.other, ms[i..], path, types, h.answer, total, forgotten, h.calls, gone)
      decreases |table.spine| - i
    {
      ItemsFrom(table.spine, i);
      var stop;
      stop, ret, gone := Turn(table, h, path, types, pattern, it.item, ret, gone, total, forgotten, ms[i + 1..], n);
      if stop {
        return;
      }
      it := it.next;
      i := i + 1;
    }
    ItemsFrom(table.spine, i);
  }

  // ----- One message -----

  /** What the sender hears: nothing, or the reply to an enumeration call.  When the call carries a
      number that the reply should repeat and the argument vector is gone, the source reads through
      a null pointer. */
  datatype Answer = Silent | Replied(reply: Message) | NoArgv

  /** Enumeration calls are paths with a slash at the end that no handler took care of. */
  predicate Enumerates(udp: bool, path: Name, ret: int) {
    udp && ret == 1 && path != [] && path[|path| - 1] == Enumeration.SLASH
  }

  /** An enumeration call: over UDP, a path with a slash at the end, and no handler called or the last one
      answered 1. */
  lemma EnumeratesExactly(udp: bool, p: Name, last: byte, made: seq<Call>, answer: nat -> int, n: nat)
    requires last != 0
    ensures Enumerates(udp, p + [last], LastAnswer(made, answer, n)) <==>
            udp && (made == [] || answer(n + |made| - 1) == 1) && last == '/' as int
    ensures !Enumerates(udp, [], LastAnswer(made, answer, n))
  {}

  ghost predicate Answered(answer: Answer, path: Name, msg: Content, gone: bool, ms: seq<Method>)
    reads if answer.Replied? then {answer.reply} else {}
  {
    var numbered := msg.types == [INT32];
    if numbered && gone then answer.NoArgv? else
    answer.Replied? && answer.reply.args == Enumeration.Reply(path, if numbered then Some(Fixed(INT32, msg.data)) else None, ms)
  }

  lemma LostBy(other: (Name, Name) -> bool, ms: seq<Method>, path: Name, types: Name, answer: nat -> int, n: nat)
    ensures var es := Select(Eligible(other, path, types), ms); var made := MadeBy(other, ms, path, types, answer, n);
      LastAnswer(made, answer, n) == 1 ==> (AnyCopy(made) <==> AnyConverts(types, es))
  {
    var es := Select(Eligible(other, path, types), ms);
    GoneIs(path, types, es, answer, n, false);
    if LastAnswer(MadeBy(other, ms, path, types, answer, n), answer, n) == 1 {
      LostExactly(path, types, es, answer, n);
    }
  }

  /** dispatch_method */
  method DispatchMethod(table: Table, h: Handlers, udp: bool, path: Name, msg: Content) returns (answer: Answer)
    requires table.Valid()
    modifies h
    ensures h.calls == old(h.calls) + MadeBy(table.other, table.Methods(), path, msg.types, h.answer, |old(h.calls)|)
    ensures var made := MadeBy(table.other, table.Methods(), path, msg.types, h.answer, |old(h.calls)|);
      if Enumerates(udp, path, LastAnswer(made, h.answer, |old(h.calls)|))
      then Answered(answer, path, msg, AnyCopy(made), table.Methods()) else answer.Silent?
    ensures var es := Select(Eligible(table.other, path, msg.types), table.Methods());
      answer.NoArgv? <==>
      && Enumerates(udp, path, LastAnswer(Made(path, msg.types, es, h.answer, |old(h.calls)|, false), h.answer, |old(h.calls)|))
      && msg.types == [INT32] && AnyConverts(msg.types, es)
    ensures answer.Replied? ==>
      answer.reply.args != [] &&
      answer.reply.args[0] == if msg.types == ['i' as int] then Fixed('i' as int, msg.data) else Text('s' as int, path)
  {
    var ret, gone := CallMethods(table, h, path, msg.types);
    LostBy(table.other, table.Methods(), path, msg.types, h.answer, |old(h.calls)|);
    answer := Silent;
    if Enumerates(udp, path, ret) {
      answer := ReplyTo(table, path, msg, gone);
    }
  }

  /** The answer to an enumeration call. */
  method ReplyTo(table: Table, path: Name, msg: Content, gone: bool) returns (answer: Answer)
    requires table.Valid()
    ensures Answered(answer, path, msg, gone, table.Methods())
  {
    if msg.types != [INT32] {
      var reply := Enumeration.Answer(table, path, None);
      return Replied(reply);
    }
    if gone {
      return NoArgv;
    }
    var reply := Enumeration.Answer(table, path, Some(Fixed(INT32, msg.data)));
    return Replied(reply);
  }
}
