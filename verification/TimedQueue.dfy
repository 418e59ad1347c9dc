/** The queue of timed messages: a linked list in the order of time tags, filled by queue_data and
    drained in batches by dispatch_queued. */
module TimedQueue {
  import opened Octets
  import opened Lists
  import opened Chains
  import opened Timetags
  import opened Messages

  // ----- What the queue does, on sequences -----

  /** The place of the first item that is later than t. */
  function Spot<T>(when: T -> Timetag, q: seq<T>, t: Timetag): (k: nat)
    ensures k <= |q| && (k < |q| ==> Before(t, when(q[k])))
    ensures forall i :: 0 <= i < k ==> !Before(t, when(q[i]))
  {
    if q == [] || Before(t, when(q[0])) then 0 else 1 + Spot(when, q[1..], t)
  }

  /** queue_data: in front of the first later item. */
  function Insert<T>(when: T -> Timetag, q: seq<T>, x: T): (r: seq<T>)
    ensures |r| == |q| + 1
  {
    var k := Spot(when, q, when(x));
    q[..k] + [x] + q[k..]
  }

  function InsertAll<T>(when: T -> Timetag, q: seq<T>, xs: seq<T>): seq<T>
    decreases |xs|
  {
    if xs == [] then q else InsertAll(when, Insert(when, q, xs[0]), xs[1..])
  }

  lemma {:induction false} InsertAllAppend<T>(when: T -> Timetag, q: seq<T>, xs: seq<T>, x: T)
    ensures InsertAll(when, q, xs + [x]) == Insert(when, InsertAll(when, q, xs), x)
    decreases |xs|
  {
    if xs == [] {
      assert ([] + [x])[1..] == [];
    } else {
      assert (xs + [x])[0] == xs[0] && (xs + [x])[1..] == xs[1..] + [x];
      InsertAllAppend(when, Insert(when, q, xs[0]), xs[1..], x);
    }
  }

  /** How many items at the front are less than EPSILON after the time t. */
  function Due<T>(when: T -> Timetag, q: seq<T>, t: Timetag): (n: nat)
    ensures n <= |q| && (n < |q| ==> Diff(when(q[n]), t) >= EPSILON)
    ensures forall i :: 0 <= i < n ==> Diff(when(q[i]), t) < EPSILON
  {
    if q == [] || Diff(when(q[0]), t) >= EPSILON then 0 else 1 + Due(when, q[1..], t)
  }

  ghost predicate Sorted<T>(when: T -> Timetag, q: seq<T>) {
    forall i, j :: 0 <= i < j < |q| ==> !Before(when(q[j]), when(q[i]))
  }

  /** Which items are due together with one of time t, and which are not. */
  ghost function DueWith<T>(when: T -> Timetag, t: Timetag): T -> bool {
    x => Diff(when(x), t) < EPSILON
  }

  ghost function NotDueWith<T>(when: T -> Timetag, t: Timetag): T -> bool {
    x => Diff(when(x), t) >= EPSILON
  }

  /** Of a sorted queue a batch takes exactly the items due with the head, wherever they stand. */
  lemma BatchIsExactly<T>(when: T -> Timetag, q: seq<T>, i: nat)
    requires Sorted(when, q) && i < |q|
    ensures i < Due(when, q, when(q[0])) <==> Diff(when(q[i]), when(q[0])) < EPSILON
  {
    var n := Due(when, q, when(q[0]));
    if n < i {
      DiffIsOrder(when(q[i]), when(q[n]));
      DiffAdds(when(q[i]), when(q[n]), when(q[0]));
    }
  }

  lemma SelectByDue<T>(when: T -> Timetag, xs: seq<T>, ys: seq<T>, t: Timetag)
    requires forall i :: 0 <= i < |xs| ==> Diff(when(xs[i]), t) < EPSILON
    requires forall i :: 0 <= i < |ys| ==> Diff(when(ys[i]), t) >= EPSILON
    ensures Select(DueWith(when, t), xs + ys) == xs && Select(NotDueWith(when, t), xs + ys) == ys
  {
    SelectFront(DueWith(when, t), xs, ys);
    SelectBack(NotDueWith(when, t), xs, ys);
  }

  lemma SelectAtDue<T>(when: T -> Timetag, q: seq<T>, n: nat, t: Timetag)
    requires n <= |q| && forall i :: 0 <= i < |q| ==> (i < n <==> Diff(when(q[i]), t) < EPSILON)
    ensures q[..n] == Select(DueWith(when, t), q) && q[n..] == Select(NotDueWith(when, t), q)
  {
    SelectByDue(when, q[..n], q[n..], t);
    assert q == q[..n] + q[n..];
  }

  /** So a batch is a selection of the queue, and what stays is the rest. */
  lemma BatchIsSelection<T>(when: T -> Timetag, q: seq<T>)
    requires Sorted(when, q) && q != []
    ensures var n, t := Due(when, q, when(q[0])), when(q[0]);
      q[..n] == Select(DueWith(when, t), q) && q[n..] == Select(NotDueWith(when, t), q)
  {
    var n, t := Due(when, q, when(q[0])), when(q[0]);
    forall i | 0 <= i < |q| ensures i < n <==> Diff(when(q[i]), t) < EPSILON {
      BatchIsExactly(when, q, i);
    }
    SelectAtDue(when, q, n, t);
  }

  /** A batch never ends between two items with the same time tag. */
  lemma SameTagSameBatch<T>(when: T -> Timetag, q: seq<T>, i: nat, j: nat)
    requires Sorted(when, q) && i < |q| && j < |q| && when(q[i]) == when(q[j])
    ensures i < Due(when, q, when(q[0])) <==> j < Due(when, q, when(q[0]))
  {
    BatchIsExactly(when, q, i);
    BatchIsExactly(when, q, j);
  }

  /** No item of one part has the time tag of an item of another part. */
  ghost predicate TagsApart<T>(when: T -> Timetag, parts: seq<seq<T>>) {
    forall a, b, i, j :: 0 <= a < b < |parts| && 0 <= i < |parts[a]| && 0 <= j < |parts[b]| ==>
      when(parts[a][i]) != when(parts[b][j])
  }

  /** Taking a batch off the last part keeps the parts apart. */
  lemma BatchApart<T>(when: T -> Timetag, parts: seq<seq<T>>, q: seq<T>)
    requires Sorted(when, q) && q != [] && TagsApart(when, parts + [q])
    ensures var n := Due(when, q, when(q[0])); TagsApart(when, parts + [q[..n]] + [q[n..]])
  {
    var n, m := Due(when, q, when(q[0])), |parts|;
    var before, after := parts + [q], parts + [q[..n]] + [q[n..]];
    forall a, b, i, j | 0 <= a < b < |after| && 0 <= i < |after[a]| && 0 <= j < |after[b]|
      ensures when(after[a][i]) != when(after[b][j])
    {
      var j' := if b <= m then j else n + j;
      if a == m {
        assert after[a][i] == q[i] && after[b][j] == q[j'];
        if when(q[i]) == when(q[j']) {
          SameTagSameBatch(when, q, i, j');
        }
      } else {
        assert after[a] == before[a] && after[b][j] == before[if b <= m then b else m][j'];
      }
    }
  }

  // ----- Runs -----

  /** One call: an arriving item, or a call of dispatch_queued. */
  datatype Op<T> = Arrive(x: T) | Dispatch

  /** The queue, what arrived and the batches dispatched. */
  datatype State<T> = State(queue: seq<T>, arrived: seq<T>, batches: seq<seq<T>>)

  /** Dispatching an empty queue only raises an error. */
  function Apply<T>(when: T -> Timetag, s: State<T>, op: Op<T>): State<T> {
    match op
    case Arrive(x) => s.(queue := Insert(when, s.queue, x), arrived := s.arrived + [x])
    case Dispatch =>
      if s.queue == [] then s else
      var n := Due(when, s.queue, when(s.queue[0]));
      s.(queue := s.queue[n..], batches := s.batches + [s.queue[..n]])
  }

  function Run<T>(when: T -> Timetag, s: State<T>, ops: seq<Op<T>>): State<T>
    decreases |ops|
  {
    if ops == [] then s else Run(when, Apply(when, s, ops[0]), ops[1..])
  }

  lemma {:induction false} RunAppend<T>(when: T -> Timetag, s: State<T>, ops: seq<Op<T>>, op: Op<T>)
    ensures Run(when, s, ops + [op]) == Apply(when, Run(when, s, ops), op)
    decreases |ops|
  {
    if ops == [] {
      assert (ops + [op])[1..] == [];
    } else {
      assert (ops + [op])[0] == ops[0] && (ops + [op])[1..] == ops[1..] + [op];
      RunAppend(when, Apply(when, s, ops[0]), ops[1..], op);
    }
  }

  function Concat<T>(xs: seq<seq<T>>): seq<T> {
    if xs == [] then [] else Concat(xs[..|xs| - 1]) + xs[|xs| - 1]
  }

  /** The items with time tag t, in order. */
  ghost function Tagged<T>(when: T -> Timetag, xs: seq<T>, t: Timetag): seq<T> {
    Select(x => when(x) == t, xs)
  }

  lemma TaggedJoin<T>(when: T -> Timetag, xs: seq<T>, ys: seq<T>, t: Timetag)
    ensures Tagged(when, xs + ys, t) == Tagged(when, xs, t) + Tagged(when, ys, t)
  {
    SelectJoin(x => when(x) == t, xs, ys);
  }

  lemma NoneTagged<T>(when: T -> Timetag, xs: seq<T>, t: Timetag)
    requires forall i :: 0 <= i < |xs| ==> when(xs[i]) != t
    ensures Tagged(when, xs, t) == []
  {
    SelectNone(x => when(x) == t, xs);
  }

  // ----- What a run keeps -----

  /** Everything that arrived is dispatched or queued, and items with the same tag keep their order. */
  ghost predicate InOrder<T>(when: T -> Timetag, s: State<T>) {
    && Sorted(when, s.queue)
    && multiset(s.arrived) == multiset(Concat(s.batches)) + multiset(s.queue)
    && forall t :: Tagged(when, s.arrived, t) == Tagged(when, Concat(s.batches) + s.queue, t)
  }

  lemma InsertSorted<T>(when: T -> Timetag, q: seq<T>, x: T)
    requires Sorted(when, q)
    ensures Sorted(when, Insert(when, q, x))
  {
    var k := Spot(when, q, when(x));
    if k < |q| {
      forall i | k <= i < |q| ensures !Before(when(q[i]), when(x)) {
        assert i == k || !Before(when(q[i]), when(q[k]));
      }
    }
  }

  lemma TaggedMove<T>(when: T -> Timetag, a: seq<T>, b: seq<T>, x: T, t: Timetag)
    requires Tagged(when, [x], t) == [] || Tagged(when, b, t) == []
    ensures Tagged(when, a + [x] + b, t) == Tagged(when, a + b + [x], t)
  {
    TaggedJoin(when, a + [x], b, t);
    TaggedJoin(when, a, [x], t);
    TaggedJoin(when, a + b, [x], t);
    TaggedJoin(when, a, b, t);
  }

  lemma InsertTagged<T>(when: T -> Timetag, q: seq<T>, x: T, t: Timetag)
    requires Sorted(when, q)
    ensures Tagged(when, Insert(when, q, x), t) == Tagged(when, q + [x], t)
  {
    var k := Spot(when, q, when(x));
    if when(x) == t {
      NoneTagged(when, q[k..], t);
    } else {
      NoneTagged(when, [x], t);
    }
    TaggedMove(when, q[..k], q[k..], x, t);
    assert q == q[..k] + q[k..];
  }

  lemma InsertMultiset<T>(when: T -> Timetag, q: seq<T>, x: T)
    ensures multiset(Insert(when, q, x)) == multiset(q) + multiset{x}
  {
    var k := Spot(when, q, when(x));
    assert q == q[..k] + q[k..];
  }

  lemma ArriveInOrder<T>(when: T -> Timetag, s: State<T>, x: T)
    requires InOrder(when, s)
    ensures InOrder(when, Apply(when, s, Arrive(x)))
  {
    var s' := Apply(when, s, Arrive(x));
    var out := Concat(s.batches);
    InsertSorted(when, s.queue, x);
    InsertMultiset(when, s.queue, x);
    forall t ensures Tagged(when, s'.arrived, t) == Tagged(when, out + s'.queue, t) {
      InsertTagged(when, s.queue, x, t);
      TaggedJoin(when, s.arrived, [x], t);
      TaggedJoin(when, out, s'.queue, t);
      TaggedJoin(when, out, s.queue, t);
      TaggedJoin(when, s.queue, [x], t);
    }
  }

  /** A dispatch moves the front of the queue behind what was dispatched before. */
  lemma DispatchMoves<T>(when: T -> Timetag, s: State<T>)
    ensures var s' := Apply(when, s, Dispatch);
      s'.arrived == s.arrived && Concat(s'.batches) + s'.queue == Concat(s.batches) + s.queue
  {
    if s.queue != [] {
      var s' := Apply(when, s, Dispatch);
      var n := Due(when, s.queue, when(s.queue[0]));
      assert s.queue == s.queue[..n] + s.queue[n..];
      assert s'.batches[..|s.batches|] == s.batches;
    }
  }

  lemma DispatchInOrder<T>(when: T -> Timetag, s: State<T>)
    requires InOrder(when, s)
    ensures InOrder(when, Apply(when, s, Dispatch))
  {
    var s' := Apply(when, s, Dispatch);
    DispatchMoves(when, s);
    assert multiset(Concat(s'.batches) + s'.queue) == multiset(Concat(s.batches) + s.queue);
  }

  lemma {:induction false} RunInOrder<T>(when: T -> Timetag, s: State<T>, ops: seq<Op<T>>)
    requires InOrder(when, s)
    ensures InOrder(when, Run(when, s, ops))
    decreases |ops|
  {
    if ops == [] {
    } else {
      match ops[0] {
        case Arrive(x) => ArriveInOrder(when, s, x);
        case Dispatch => DispatchInOrder(when, s);
      }
      RunInOrder(when, Apply(when, s, ops[0]), ops[1..]);
    }
  }

  /** Over any run from an empty queue: the queue is sorted, everything that arrived was dispatched or
      is still queued, and items with the same time tag keep their order of arrival. */
  lemma RunsKeepOrder<T>(when: T -> Timetag, ops: seq<Op<T>>)
    ensures InOrder(when, Run(when, State([], [], []), ops))
  {
    RunInOrder(when, State([], [], []), ops);
  }

  // ----- Bundles stay whole -----

  /** The items xs, all with time tag t, stand next to each other. */
  ghost predicate Together<T>(xs: seq<T>, q: seq<T>) {
    exists k :: StandsAt(xs, q, k)
  }

  predicate StandsAt<T(==)>(xs: seq<T>, q: seq<T>, k: nat) {
    k + |xs| <= |q| && q[k..k + |xs|] == xs
  }

  ghost predicate SameTag<T>(when: T -> Timetag, xs: seq<T>, t: Timetag) {
    forall i :: 0 <= i < |xs| ==> when(xs[i]) == t
  }

  /** Items with one tag, queued one after the other, stand together behind everything that is not
      later and in front of everything later. */
  lemma {:induction false} BlockLands<T>(when: T -> Timetag, q: seq<T>, xs: seq<T>, t: Timetag)
    requires SameTag(when, xs, t)
    ensures var k := Spot(when, q, t); InsertAll(when, q, xs) == q[..k] + xs + q[k..]
    decreases |xs|
  {
    var k := Spot(when, q, t);
    if xs == [] {
      assert q[..k] + xs + q[k..] == q;
    } else {
      var q' := Insert(when, q, xs[0]);
      SpotBehind(when, q, xs[0]);
      BlockLands(when, q', xs[1..], t);
      Regrouped(q[..k], xs, q[k..]);
    }
  }

  lemma Regrouped<T>(a: seq<T>, xs: seq<T>, b: seq<T>)
    requires xs != []
    ensures (a + [xs[0]]) + xs[1..] + b == a + xs + b
  {}

  /** Behind an inserted item is the place for the next with its tag. */
  lemma SpotBehind<T>(when: T -> Timetag, q: seq<T>, x: T)
    ensures var t, q' := when(x), Insert(when, q, x); var k, k' := Spot(when, q, t), Spot(when, q', t);
      q'[..k'] == q[..k] + [x] && q'[k'..] == q[k..]
  {
    var k, q' := Spot(when, q, when(x)), Insert(when, q, x);
    assert q'[k] == x && q'[..k + 1] == q[..k] + [x] && q'[k + 1..] == q[k..];
    SpotIs(when, q', when(x), k + 1);
  }

  lemma SpotIs<T>(when: T -> Timetag, q: seq<T>, t: Timetag, k: nat)
    requires k <= |q| && (k < |q| ==> Before(t, when(q[k])))
    requires forall i :: 0 <= i < k ==> !Before(t, when(q[i]))
    ensures Spot(when, q, t) == k
  {}

  lemma BlockTag<T>(when: T -> Timetag, q: seq<T>, xs: seq<T>, t: Timetag, k: nat, i: int)
    requires SameTag(when, xs, t) && StandsAt(xs, q, k)
    ensures k <= i < k + |xs| ==> when(q[i]) == t
  {
    if k <= i < k + |xs| {
      assert q[i] == q[k..k + |xs|][i - k];
    }
  }

  lemma ArriveKeepsBlock<T>(when: T -> Timetag, q: seq<T>, x: T, xs: seq<T>, t: Timetag, k: nat)
    requires SameTag(when, xs, t) && StandsAt(xs, q, k)
    ensures Together(xs, Insert(when, q, x))
  {
    var j, q' := Spot(when, q, when(x)), Insert(when, q, x);
    BlockTag(when, q, xs, t, k, j);
    BlockTag(when, q, xs, t, k, j - 1);
    assert StandsAt(xs, q', if j <= k then k + 1 else k);
  }

  lemma DispatchKeepsBlock<T>(when: T -> Timetag, q: seq<T>, head: Timetag, xs: seq<T>, t: Timetag, k: nat)
    requires SameTag(when, xs, t) && StandsAt(xs, q, k)
    ensures var n := Due(when, q, head); Together(xs, q[..n]) || Together(xs, q[n..])
  {
    var n := Due(when, q, head);
    if n <= k {
      assert StandsAt(xs, q[n..], k - n);
    } else {
      BlockTag(when, q, xs, t, k, n);
      BlockTag(when, q, xs, t, k, n - 1);
      assert StandsAt(xs, q[..n], k);
    }
  }

  /** A block queued after n batches is whole while it is queued, and leaves in one later batch. */
  ghost predicate Whole<T>(xs: seq<T>, s: State<T>, n: nat) {
    Together(xs, s.queue) || exists b :: n <= b < |s.batches| && Together(xs, s.batches[b])
  }

  lemma {:induction false} RunKeepsBlock<T>(when: T -> Timetag, s: State<T>, ops: seq<Op<T>>, xs: seq<T>, t: Timetag, n: nat)
    requires SameTag(when, xs, t) && Whole(xs, s, n) && n <= |s.batches|
    ensures Whole(xs, Run(when, s, ops), n)
    decreases |ops|
  {
    if ops == [] {
    } else {
      var s' := Apply(when, s, ops[0]);
      if Together(xs, s.queue) {
        var k :| StandsAt(xs, s.queue, k);
        match ops[0] {
          case Arrive(x) => ArriveKeepsBlock(when, s.queue, x, xs, t, k);
          case Dispatch => DispatchWhole(when, s, xs, t, k, n);
        }
      } else {
        var b :| n <= b < |s.batches| && Together(xs, s.batches[b]);
        assert s'.batches[b] == s.batches[b];
      }
      RunKeepsBlock(when, s', ops[1..], xs, t, n);
    }
  }

  lemma {:induction false} RunJoin<T>(when: T -> Timetag, s: State<T>, ops: seq<Op<T>>, more: seq<Op<T>>)
    ensures Run(when, s, ops + more) == Run(when, Run(when, s, ops), more)
    decreases |ops|
  {
    if ops == [] {
      assert ops + more == more;
    } else {
      assert (ops + more)[0] == ops[0] && (ops + more)[1..] == ops[1..] + more;
      RunJoin(when, Apply(when, s, ops[0]), ops[1..], more);
    }
  }

  /** A block that is whole after some calls is whole after any further ones. */
  lemma LaterWhole<T>(when: T -> Timetag, s: State<T>, ops: seq<Op<T>>, later: seq<Op<T>>, xs: seq<T>, t: Timetag, n: nat)
    requires ops <= later && SameTag(when, xs, t)
    requires Whole(xs, Run(when, s, ops), n) && n <= |Run(when, s, ops).batches|
    ensures Whole(xs, Run(when, s, later), n)
  {
    assert later == ops + later[|ops|..];
    RunJoin(when, s, ops, later[|ops|..]);
    RunKeepsBlock(when, Run(when, s, ops), later[|ops|..], xs, t, n);
  }

  lemma DispatchWhole<T>(when: T -> Timetag, s: State<T>, xs: seq<T>, t: Timetag, k: nat, n: nat)
    requires SameTag(when, xs, t) && StandsAt(xs, s.queue, k) && n <= |s.batches|
    ensures Whole(xs, Apply(when, s, Dispatch), n)
  {
    if s.queue == [] {
      assert Together(xs, s.queue);
    } else {
      var s' := Apply(when, s, Dispatch);
      DispatchKeepsBlock(when, s.queue, when(s.queue[0]), xs, t, k);
      assert s'.batches[|s.batches|] == s.queue[..Due(when, s.queue, when(s.queue[0]))];
    }
  }

  /** Bundle atomicity.  Items with one time tag that arrive in a row are, after any calls, still
      next to each other in the queue or were next to each other in one batch taken off since. */
  lemma BundlesStayWhole<T>(when: T -> Timetag, s: State<T>, xs: seq<T>, t: Timetag, ops: seq<Op<T>>)
    requires SameTag(when, xs, t)
    ensures Whole(xs, Run(when, s.(queue := InsertAll(when, s.queue, xs), arrived := s.arrived + xs), ops), |s.batches|)
  {
    var s' := s.(queue := InsertAll(when, s.queue, xs), arrived := s.arrived + xs);
    BlockLands(when, s.queue, xs, t);
    assert StandsAt(xs, s'.queue, Spot(when, s.queue, t));
    RunKeepsBlock(when, s', ops, xs, t, |s.batches|);
  }

  /** As many dispatches as there are items leave nothing queued. */
  lemma {:induction false} Drained<T>(when: T -> Timetag, s: State<T>, n: nat)
    requires |s.queue| <= n
    ensures Run(when, s, seq(n, _ => Dispatch)).queue == []
    decreases n
  {
    if n == 0 {
    } else {
      var ops := seq(n, _ => Op<T>.Dispatch);
      assert ops[1..] == seq(n - 1, _ => Dispatch);
      if s.queue != [] {
        DueHead(when, s.queue);
      }
      Drained(when, Apply(when, s, Dispatch), n - 1);
    }
  }

  /** A batch has at least the head of the queue. */
  lemma DueHead<T>(when: T -> Timetag, q: seq<T>)
    requires q != []
    ensures Due(when, q, when(q[0])) > 0
  {
    DiffIsOrder(when(q[0]), when(q[0]));
  }

  // ----- The linked list -----

  datatype Item = Item(ts: Timetag, path: Name, msg: Content)

  function TimeOf(x: Item): Timetag {
    x.ts
  }

  lemma SpotOfItems(q: seq<Item>, x: Item, k: nat)
    requires k <= |q| && (k < |q| ==> Before(x.ts, q[k].ts))
    requires forall i :: 0 <= i < k ==> !Before(x.ts, q[i].ts)
    ensures Insert(TimeOf, q, x) == q[..k] + [x] + q[k..]
  {
    SpotIs(TimeOf, q, x.ts, k);
  }

  class Queue {
    var queued: Cell?<Item>
    ghost var spine: seq<Cell<Item>>
    /** All cells the queue may change. */
    ghost var cells: set<Cell<Item>>

    ghost predicate Valid()
      reads this, cells
    {
      Owned(spine, cells) && Chain(queued, spine)
    }

    ghost function Contents(): seq<Item>
      reads this
    {
      Items(spine)
    }

    constructor ()
      ensures Valid() && Contents() == [] && cells == {}
    {
      queued := null;
      spine := [];
      cells := {};
    }

    /** queue_data */
    method QueueData(ts: Timetag, path: Name, msg: Content)
      requires Valid()
      modifies this, cells
      ensures Valid() && Contents() == Insert(TimeOf, old(Contents()), Item(ts, path, msg))
      ensures fresh(cells - old(cells))
    {
      var ins := new Cell(Item(ts, path, msg));
      var prev, it, i := FindLater(ts);
      SpotOfItems(Contents(), ins.item, i);
      Splice(prev, ins, it, i);
    }

    method Splice(prev: Cell?<Item>, ins: Cell<Item>, it: Cell?<Item>, ghost i: nat)
      requires Valid() && ins !in spine && Reached(spine, prev, it, i) && (i == 0 ==> prev == null)
      modifies this, cells, ins
      ensures Valid() && cells == old(cells) + {ins}
      ensures Contents() == old(Contents())[..i] + [ins.item] + old(Contents())[i..]
    {
      ItemsWith(spine, i, ins);
      OwnedWith(spine, cells, i, ins);
      queued := LinkIn(queued, prev, ins, it, spine, i);
      spine := With(spine, i, ins);
      cells := cells + {ins};
    }

    /** The search for the first item later than ts. */
    method FindLater(ts: Timetag) returns (prev: Cell?<Item>, it: Cell?<Item>, ghost i: nat)
      requires Valid()
      ensures Reached(spine, prev, it, i) && (i == 0 ==> prev == null)
      ensures i < |spine| ==> Before(ts, Contents()[i].ts)
      ensures forall k :: 0 <= k < i ==> !Before(ts, Contents()[k].ts)
    {
      it, prev, i := queued, null, 0;
      while it != null
        invariant Reached(spine, prev, it, i) && (i == 0 ==> prev == null)
        invariant forall k :: 0 <= k < i ==> !Before(ts, spine[k].item.ts)
        decreases |spine| - i
      {
        DiffIsOrder(it.item.ts, ts);
        if Diff(it.item.ts, ts) > 0.0 {
          return;
        }
        prev := it;
        it := it.next;
        i := i + 1;
      }
    }

    /** Takes the head off the queue. */
    method Advance(tailhead: Cell?<Item>)
      requires Valid() && spine != [] && tailhead == spine[0].next
      modifies this`queued, this`spine
      ensures Valid() && Contents() == old(Contents())[1..] && spine == old(spine)[1..]
    {
      queued := tailhead;
      spine := spine[1..];
    }
  }
}
