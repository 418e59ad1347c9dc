/** lo_server: arriving data is dispatched at once or queued, and the queue is drained when its head
    is due.  Handlers, the clock and poll are oracles. */
module Server {
  import opened Wrappers
  import opened Octets
  import opened Lists
  import opened Chains
  import opened Arguments
  import opened Codec
  import opened Timetags
  import opened Validation
  import opened Messages
  import opened Bundles
  import opened MethodTable
  import opened Dispatch
  import opened TimedQueue

  // ----- What the handlers see -----

  /** A message handed to dispatch_method, and the methods registered at that time. */
  datatype Delivery = Delivery(path: Name, msg: Content, methods: seq<Method>)

  function Deliveries(methods: seq<Method>, xs: seq<Item>): (r: seq<Delivery>)
    ensures |r| == |xs|
  {
    seq(|xs|, i requires 0 <= i < |xs| => Delivery(xs[i].path, xs[i].msg, methods))
  }

  lemma DeliveriesAppend(methods: seq<Method>, xs: seq<Item>, x: Item)
    ensures Deliveries(methods, xs + [x]) == Deliveries(methods, xs) + [Delivery(x.path, x.msg, methods)]
  {}

  /** The handler calls that the deliveries cause, one after the other. */
  ghost function Effects(other: (Name, Name) -> bool, answer: nat -> int, ds: seq<Delivery>): seq<Call> {
    if ds == [] then [] else
    var before, d := Effects(other, answer, ds[..|ds| - 1]), ds[|ds| - 1];
    before + MadeBy(other, d.methods, d.path, d.msg.types, answer, |before|)
  }

  lemma EffectsAppend(other: (Name, Name) -> bool, answer: nat -> int, ds: seq<Delivery>, d: Delivery)
    ensures var before := Effects(other, answer, ds);
      Effects(other, answer, ds + [d]) == before + MadeBy(other, d.methods, d.path, d.msg.types, answer, |before|)
  {
    assert (ds + [d])[..|ds|] == ds;
  }

  method Hand(table: Table, handlers: Handlers, udp: bool, path: Name, msg: Content, ghost ds: seq<Delivery>)
    requires table.Valid() && handlers.calls == Effects(table.other, handlers.answer, ds)
    modifies handlers
    ensures handlers.calls == Effects(table.other, handlers.answer, ds + [Delivery(path, msg, table.Methods())])
  {
    EffectsAppend(table.other, handlers.answer, ds, Delivery(path, msg, table.Methods()));
    var answer := DispatchMethod(table, handlers, udp, path, msg);
  }

  // ----- Batches -----

  /** How many items the next batch takes. */
  function DueNow(q: seq<Item>): (n: nat)
    ensures n <= |q|
  {
    if q == [] then 0 else Due(TimeOf, q, q[0].ts)
  }

  /** The batch is exactly the items of the queue less than EPSILON after its head, and no other item
      is left out of what stays. */
  ghost predicate BatchSelected(q: seq<Item>) {
    q != [] ==>
      && q[..DueNow(q)] == Select(DueWith(TimeOf, q[0].ts), q)
      && q[DueNow(q)..] == Select(NotDueWith(TimeOf, q[0].ts), q)
  }

  lemma SelectsBatch(q: seq<Item>)
    requires Sorted(TimeOf, q)
    ensures BatchSelected(q)
  {
    if q != [] {
      BatchIsSelection(TimeOf, q);
    }
  }

  /** The first n items belong to the batch, and item n does if the loop goes on. */
  ghost predicate BatchUpTo(q: seq<Item>, n: nat, again: bool) {
    && n <= |q| && q != []
    && (forall i :: 0 <= i < n ==> Diff(q[i].ts, q[0].ts) < EPSILON)
    && again == (n < |q| && Diff(q[n].ts, q[0].ts) < EPSILON)
  }

  lemma BatchStarts(q: seq<Item>)
    requires q != []
    ensures BatchUpTo(q, 0, true)
  {
    DiffIsOrder(q[0].ts, q[0].ts);
  }

  lemma BatchGoesOn(q: seq<Item>, n: nat, again: bool)
    requires BatchUpTo(q, n, true) && again == (n + 1 < |q| && Diff(q[n + 1].ts, q[0].ts) < EPSILON)
    ensures BatchUpTo(q, n + 1, again)
  {}

  lemma DueIs(q: seq<Item>, n: nat)
    requires BatchUpTo(q, n, false)
    ensures n == DueNow(q)
  {}

  /** Of the queue q, the first k were delivered and the others are still there. */
  ghost predicate Served(q: seq<Item>, left: seq<Item>, before: seq<Delivery>, after: seq<Delivery>,
                         methods: seq<Method>, k: nat) {
    k <= |q| && left == q[k..] && after == before + Deliveries(methods, q[..k])
  }

  lemma NoneServed(q: seq<Item>, before: seq<Delivery>, methods: seq<Method>)
    ensures Served(q, q, before, before, methods, 0)
  {
    assert q[..0] == [] && Deliveries(methods, []) == [];
  }

  lemma ServedFurther(q: seq<Item>, left: seq<Item>, before: seq<Delivery>, after: seq<Delivery>,
                      methods: seq<Method>, k: nat)
    requires Served(q, left, before, after, methods, k) && k < |q|
    ensures left != [] && left[0] == q[k]
    ensures Served(q, left[1..], before, after + [Delivery(q[k].path, q[k].msg, methods)], methods, k + 1)
  {
    assert q[..k + 1] == q[..k] + [q[k]];
    DeliveriesAppend(methods, q[..k], q[k]);
  }

  lemma DispatchedAll(s: State<Item>, s': State<Item>, n: nat, ops: seq<Op<Item>>)
    requires s.queue != [] && n == DueNow(s.queue) && s == Run(TimeOf, State([], [], []), ops)
    requires s'.queue == s.queue[n..] && s'.arrived == s.arrived && s'.batches == s.batches + [s.queue[..n]]
    ensures s' == Apply(TimeOf, s, Dispatch) == Run(TimeOf, State([], [], []), ops + [Dispatch])
  {
    RunAppend(TimeOf, State([], [], []), ops, Dispatch);
  }

  // ----- Elements of bundles -----

  /** A message under a bundle's time tag. */
  function ItemOf(ts: Timetag, m: Msg): Item
    requires All(ValidArg, m.args)
  {
    Item(ts, m.path, ContentOf(m.args))
  }

  lemma ParsedIsValid(b: seq<byte>)
    requires Parse(b).Ok?
    ensures All(ValidArg, Parse(b).value.args)
  {
    ParsePrint(b);
  }

  /** The item an element of a bundle stands for, or its error code. */
  function ReadItem(ts: Timetag, b: seq<byte>): Result<Item> {
    match Parse(b)
    case Err(code) => Err(code)
    case Ok(m) =>
      ParsedIsValid(b);
      Ok(ItemOf(ts, m))
  }

  /** An item has the bundle's time tag and the message's path, types and argument bytes. */
  lemma ItemCarries(ts: Timetag, m: Msg)
    requires All(ValidArg, m.args)
    ensures var x := ItemOf(ts, m); x.ts == ts && x.path == m.path && Carries(x.msg, m.args)
  {
    ContentCarries(m.args);
  }

  function Reader(ts: Timetag): seq<byte> -> Result<Item> {
    b => ReadItem(ts, b)
  }

  /** `read` reads items; it is kept apart from what reading means, so that the walk over the elements
      does not depend on the message format. */
  ghost predicate IsReader(read: seq<byte> -> Result<Item>, ts: Timetag) {
    forall b {:trigger ReadItem(ts, b)} :: read(b) == ReadItem(ts, b)
  }

  /** The items in front of the first element that is not a message, and that element's error code. */
  function Front(read: seq<byte> -> Result<Item>, es: seq<seq<byte>>): seq<Item> {
    if es == [] || read(es[0]).Err? then [] else [read(es[0]).value] + Front(read, es[1..])
  }

  function FirstError(read: seq<byte> -> Result<Item>, es: seq<seq<byte>>): Option<int> {
    if es == [] then None else if read(es[0]).Err? then Some(read(es[0]).code) else FirstError(read, es[1..])
  }

  /** A bundle has no error exactly if every element is a message. */
  lemma {:induction false} NoError(read: seq<byte> -> Result<Item>, es: seq<seq<byte>>)
    ensures FirstError(read, es).None? <==> forall i :: 0 <= i < |es| ==> read(es[i]).Ok?
    ensures FirstError(read, es).None? ==> |Front(read, es)| == |es|
  {
    if es == [] {
    } else {
      NoError(read, es[1..]);
      assert forall i :: 0 < i < |es| ==> es[i] == es[1..][i - 1];
    }
  }

  /** What is dispatched or queued of a bundle is what its elements in front of the first bad one are read
      as; that is nothing exactly if there is no element or the first one is bad. */
  lemma {:induction false} HalfTaken(read: seq<byte> -> Result<Item>, es: seq<seq<byte>>)
    ensures var n := |Front(read, es)|;
      && n <= |es| && (forall i :: 0 <= i < n ==> read(es[i]) == Ok(Front(read, es)[i]))
      && (n < |es| ==> read(es[n]).Err? && FirstError(read, es) == Some(read(es[n]).code))
    ensures Front(read, es) == [] <==> es == [] || read(es[0]).Err?
  {
    if es == [] || read(es[0]).Err? {
    } else {
      HalfTaken(read, es[1..]);
      assert forall i :: 0 < i < |es| ==> es[i] == es[1..][i - 1];
    }
  }

  /** When a bundle is taken as a whole, and when nothing of it is taken, by what its elements parse to. */
  lemma WholeOrNothing(ts: Timetag, es: seq<seq<byte>>)
    ensures FirstError(Reader(ts), es).None? <==> forall i :: 0 <= i < |es| ==> Parse(es[i]).Ok?
    ensures Front(Reader(ts), es) == [] <==> es == [] || Parse(es[0]).Err?
  {
    NoError(Reader(ts), es);
    HalfTaken(Reader(ts), es);
    forall i | 0 <= i < |es| ensures Reader(ts)(es[i]).Ok? <==> Parse(es[i]).Ok? {
      assert Reader(ts)(es[i]) == ReadItem(ts, es[i]);
    }
  }

  /** The elements of s come after items that were taken already. */
  ghost predicate Remaining(read: seq<byte> -> Result<Item>, es: seq<seq<byte>>, done: seq<Item>, s: seq<byte>) {
    Tiled(s) && Front(read, es) == done + Front(read, Elements(s)) && FirstError(read, es) == FirstError(read, Elements(s))
  }

  lemma RemainingFurther(read: seq<byte> -> Result<Item>, es: seq<seq<byte>>, done: seq<Item>, s: seq<byte>, n: nat)
    requires Remaining(read, es, done, s) && |s| >= 4 && n == NetValue(s[..4])
    ensures 4 + n <= |s|
    ensures var r := read(s[4..4 + n]);
      if r.Ok? then Remaining(read, es, done + [r.value], s[4 + n..])
      else Front(read, es) == done && FirstError(read, es) == Some(r.code)
  {
    var e, rest := s[4..4 + n], s[4 + n..];
    ElementsStep(s, n);
    assert ([e] + Elements(rest))[1..] == Elements(rest);
    if read(e).Ok? {
      Regroup(done, [read(e).value], Front(read, Elements(rest)));
    } else {
      assert done + [] == done;
    }
  }

  lemma NothingRemains(read: seq<byte> -> Result<Item>, es: seq<seq<byte>>, done: seq<Item>, s: seq<byte>)
    requires Remaining(read, es, done, s) && |s| < 4
    ensures Front(read, es) == done && FirstError(read, es) == None
  {
    assert done + [] == done;
  }

  predicate IsBundle(b: seq<byte>) {
    b[..StrLen(b)] == MARK
  }

  function BundleTag(b: seq<byte>): Timetag
    requires |b| >= 16
  {
    Timetag(NetValue(b[8..12]), NetValue(b[12..16]))
  }

  /** Bundles are told by the mark and its terminator at the start. */
  lemma BundleMarked(b: seq<byte>)
    requires CheckString(b) >= 0
    ensures IsBundle(b) <==> MARK + [0] <= b
  {
    if MARK + [0] <= b {
      forall i | 0 <= i < 8 ensures b[i] == (MARK + [0])[i] {}
      StrLenIs(b, 7);
      assert b[..7] == (MARK + [0])[..7] == MARK;
    }
    if IsBundle(b) {
      assert StrLen(b) == 7 && b[7] == 0 && b[..8] == b[..7] + [b[7]];
    }
  }

  /** A bundle that passed the validator has its elements behind sixteen bytes of header. */
  lemma BundleShape(b: seq<byte>)
    requires CheckBundle(b) >= 0
    ensures |b| >= 16 && Tiled(b[16..])
  {
    assert |b[..StrLen(b)]| == |MARK| == 7;
  }

  /** Dispatched on arrival: the special tag, or a time that has come. */
  predicate IsDue(ts: Timetag, now: Timetag) {
    ts == IMMEDIATE || Diff(ts, now) <= 0.0
  }

  /** A bundle is due if it has the special tag or its tag is not later than the clock. */
  lemma DueExactly(ts: Timetag, now: Timetag)
    ensures IsDue(ts, now) <==> (ts.sec == 0 && ts.frac == 1) || !Before(now, ts)
  {
    DiffIsOrder(ts, now);
  }

  /** The state after items arrived one after the other. */
  function Arrived(s: State<Item>, xs: seq<Item>): State<Item> {
    s.(queue := InsertAll(TimeOf, s.queue, xs), arrived := s.arrived + xs)
  }

  /** The effect of several items that are dispatched at once if they are due, and queued if not. */
  ghost predicate Landed(due: bool, s: State<Item>, s': State<Item>, d: seq<Delivery>, d': seq<Delivery>,
                         methods: seq<Method>, xs: seq<Item>) {
    if due then s' == s && d' == d + Deliveries(methods, xs) else s' == Arrived(s, xs) && d' == d
  }

  lemma LandedNone(due: bool, s: State<Item>, d: seq<Delivery>, methods: seq<Method>)
    ensures Landed(due, s, s, d, d, methods, [])
  {
    assert s.arrived + [] == s.arrived && d + Deliveries(methods, []) == d;
  }

  lemma LandedDelivered(s: State<Item>, d: seq<Delivery>, d': seq<Delivery>, methods: seq<Method>, xs: seq<Item>, x: Item)
    requires Landed(true, s, s, d, d', methods, xs)
    ensures Landed(true, s, s, d, d' + [Delivery(x.path, x.msg, methods)], methods, xs + [x])
  {
    DeliveriesAppend(methods, xs, x);
    Regroup(d, Deliveries(methods, xs), [Delivery(x.path, x.msg, methods)]);
  }

  lemma LandedQueued(s: State<Item>, s': State<Item>, d: seq<Delivery>, methods: seq<Method>, xs: seq<Item>, x: Item)
    requires Landed(false, s, s', d, d, methods, xs)
    ensures Landed(false, s, Apply(TimeOf, s', Arrive(x)), d, d, methods, xs + [x])
  {
    InsertAllAppend(TimeOf, s.queue, xs, x);
    Regroup(s.arrived, xs, [x]);
  }

  // ----- The server -----

  class Server {
    const table: Table
    const queue: Queue
    const handlers: Handlers
    const udp: bool
    const clock: nat -> Timetag
    /** How often the clock was read. */
    var ticks: nat

    /** Everything handed to dispatch_method, everything queued, the batches taken off the queue, and
        the calls that queued and took off. */
    ghost var delivered: seq<Delivery>
    ghost var arrived: seq<Item>
    ghost var batches: seq<seq<Item>>
    ghost var ops: seq<Op<Item>>

    /** Both lists are in shape, and the handlers saw what was delivered. */
    ghost predicate Working()
      reads this`delivered, table, table.spine, queue, queue.cells, handlers
    {
      table.Valid() && queue.Valid() && handlers.calls == Effects(table.other, handlers.answer, delivered)
    }

    /** The queue and the batches are what the calls so far make of an empty queue. */
    ghost predicate Valid()
      reads this`delivered, this`arrived, this`batches, this`ops, table, table.spine, queue, queue.cells, handlers
    {
      Working() && Log() == Run(TimeOf, State([], [], []), ops)
    }

    ghost function Log(): State<Item>
      reads this`arrived, this`batches, queue
    {
      State(queue.Contents(), arrived, batches)
    }

    constructor (table: Table, handlers: Handlers, udp: bool, clock: nat -> Timetag)
      requires table.Valid() && handlers.calls == []
      ensures Valid() && Log() == State([], [], []) && delivered == []
      ensures this.table == table && this.handlers == handlers && this.udp == udp && this.clock == clock && fresh(queue)
    {
      this.table := table;
      this.queue := new Queue();
      this.handlers := handlers;
      this.udp := udp;
      this.clock := clock;
      ticks := 0;
      delivered := [];
      arrived := [];
      batches := [];
      ops := [];
    }

    /** Whatever the server did: its queue is sorted, everything that arrived was dispatched or is
        queued, and items with the same time tag keep their order of arrival. */
    lemma StaysInOrder()
      requires Valid()
      ensures InOrder(TimeOf, Log())
    {
      RunsKeepOrder(TimeOf, ops);
    }

    /** Later calls only add to what was done, so a block of items with one time tag that is together
        in the queue after n batches is whole ever after: still together there, or taken off in one
        batch since. */
    twostate lemma StaysWhole(xs: seq<Item>, t: Timetag, n: nat)
      requires old(Valid()) && Valid() && old(ops) <= ops
      requires SameTag(TimeOf, xs, t) && n <= |old(batches)| && old(Whole(xs, Log(), n))
      ensures Whole(xs, Log(), n)
    {
      LaterWhole(TimeOf, State([], [], []), old(ops), ops, xs, t, n);
    }

    method Now() returns (t: Timetag)
      modifies this`ticks
      ensures t == clock(old(ticks)) && ticks == old(ticks) + 1
    {
      t := clock(ticks);
      ticks := ticks + 1;
    }

    /** dispatch_method */
    method Deliver(path: Name, msg: Content)
      requires Working()
      modifies this`delivered, handlers
      ensures Working() && delivered == old(delivered) + [Delivery(path, msg, table.Methods())]
    {
      Hand(table, handlers, udp, path, msg, delivered);
      delivered := delivered + [Delivery(path, msg, table.Methods())];
    }

    /** queue_data */
    method Enqueue(ts: Timetag, path: Name, msg: Content)
      requires Valid()
      modifies this`arrived, this`ops, queue, queue.cells
      ensures old(ops) <= ops
      ensures Valid() && Log() == Apply(TimeOf, old(Log()), Arrive(Item(ts, path, msg)))
      ensures fresh(queue.cells - old(queue.cells))
    {
      ghost var x := Item(ts, path, msg);
      RunAppend(TimeOf, State([], [], []), ops, Arrive(x));
      queue.QueueData(ts, path, msg);
      arrived := arrived + [x];
      ops := ops + [Arrive(x)];
    }

    // ----- dispatch_queued -----

    method TakeOff(tailhead: Cell?<Item>)
      requires Working() && queue.spine != [] && tailhead == queue.spine[0].next
      modifies queue`queued, queue`spine
      ensures Working() && tailhead == queue.queued && queue.spine == old(queue.spine)[1..]
      ensures queue.Contents() == old(queue.Contents())[1..]
    {
      queue.Advance(tailhead);
    }

    /** One turn of the loop: the head is dispatched and then taken off. */
    method ServeHead(head: Cell<Item>) returns (tailhead: Cell?<Item>)
      requires Working() && queue.spine != [] && head == queue.queued
      modifies this`delivered, handlers, queue`queued, queue`spine
      ensures Working() && tailhead == queue.queued && queue.spine == old(queue.spine)[1..]
      ensures delivered == old(delivered) + [Delivery(head.item.path, head.item.msg, table.Methods())]
      ensures queue.Contents() == old(queue.Contents())[1..]
    {
      tailhead := head.next;
      Deliver(head.item.path, head.item.msg);
      TakeOff(tailhead);
    }

    /** The first n items of the queue q are dispatched. */
    ghost predicate Serving(q: seq<Item>, before: seq<Delivery>, n: nat)
      reads this, table, table.spine, queue, queue.cells, handlers
    {
      Working() && Served(q, queue.Contents(), before, delivered, table.Methods(), n)
    }

    method ServeNext(head: Cell<Item>, dispTime: Timetag, ghost q: seq<Item>, ghost before: seq<Delivery>, ghost n: nat)
      returns (tailhead: Cell?<Item>, again: bool)
      requires Serving(q, before, n) && n < |q| && head == queue.queued
      modifies this`delivered, handlers, queue`queued, queue`spine
      ensures Serving(q, before, n + 1) && tailhead == queue.queued && (again ==> tailhead != null)
      ensures again == (n + 1 < |q| && Diff(q[n + 1].ts, dispTime) < EPSILON)
    {
      ServedFurther(q, queue.Contents(), before, delivered, table.Methods(), n);
      tailhead := ServeHead(head);
      assert |queue.spine| == |q| - n - 1;
      again := tailhead != null && Diff(tailhead.item.ts, dispTime) < EPSILON;
    }

    /** The head is next, and belongs to the batch if the loop goes on. */
    ghost predicate Batching(q: seq<Item>, before: seq<Delivery>, n: nat, head: Cell?<Item>, again: bool)
      reads this, table, table.spine, queue, queue.cells, handlers
    {
      head == queue.queued && (again ==> head != null && n < |q|) && BatchUpTo(q, n, again) && Serving(q, before, n)
    }

    lemma StartsBatching(q: seq<Item>)
      requires Working() && q == queue.Contents() && q != []
      ensures Batching(q, delivered, 0, queue.queued, true)
    {
      NoneServed(q, delivered, table.Methods());
      BatchStarts(q);
    }

    method ServeOne(head: Cell<Item>, dispTime: Timetag, ghost q: seq<Item>, ghost before: seq<Delivery>, ghost n: nat)
      returns (tailhead: Cell?<Item>, again: bool)
      requires Batching(q, before, n, head, true) && dispTime == q[0].ts
      modifies this`delivered, handlers, queue`queued, queue`spine
      ensures Batching(q, before, n + 1, tailhead, again)
    {
      tailhead, again := ServeNext(head, dispTime, q, before, n);
      BatchGoesOn(q, n, again);
    }

    method ServeBatch(first: Cell<Item>, ghost q: seq<Item>) returns (ghost n: nat)
      requires Working() && q == queue.Contents() && q != [] && first == queue.queued
      modifies this`delivered, handlers, queue`queued, queue`spine
      ensures n == DueNow(q) && Serving(q, old(delivered), n)
    {
      StartsBatching(q);
      var dispTime := first.item.ts;
      var head: Cell?<Item> := first;
      var again := true;
      n := 0;
      while again
        invariant Batching(q, old(delivered), n, head, again)
        decreases |q| - n
      {
        head, again := ServeOne(head, dispTime, q, old(delivered), n);
        n := n + 1;
      }
      DueIs(q, n);
    }

    /** Notes that the first n items of the queue of s were taken off. */
    ghost method LogBatch(s: State<Item>, n: nat)
      requires Working() && s.queue != [] && n == DueNow(s.queue) && s == Run(TimeOf, State([], [], []), ops)
      requires Log() == State(s.queue[n..], s.arrived, s.batches)
      modifies this`batches, this`ops
      ensures old(ops) <= ops
      ensures Valid() && Log() == Apply(TimeOf, s, Dispatch)
    {
      ghost var s' := State(s.queue[n..], s.arrived, s.batches + [s.queue[..n]]);
      DispatchedAll(s, s', n, ops);
      batches := s'.batches;
      ops := ops + [Dispatch];
      assert Log() == s';
    }

    method ServeAndLog(first: Cell<Item>, ghost q: seq<Item>)
      requires Valid() && q == queue.Contents() && q != [] && first == queue.queued
      modifies this`delivered, this`batches, this`ops, handlers, queue`queued, queue`spine
      ensures old(ops) <= ops
      ensures Valid() && Log() == Apply(TimeOf, old(Log()), Dispatch)
      ensures delivered == old(delivered) + Deliveries(table.Methods(), q[..DueNow(q)])
    {
      ghost var s := Log();
      ghost var n := ServeBatch(first, q);
      LogBatch(s, n);
    }

    /** dispatch_queued: an error if the queue is empty, else the items due with the head are
        dispatched and taken off. */
    method DispatchQueued() returns (r: int)
      requires Valid()
      modifies this`delivered, this`batches, this`ops, handlers, queue`queued, queue`spine
      ensures old(ops) <= ops
      ensures Valid() && Log() == Apply(TimeOf, old(Log()), Dispatch)
      ensures r == if old(queue.Contents()) == [] then 1 else 0
      ensures delivered == old(delivered) + Deliveries(table.Methods(), old(queue.Contents()[..DueNow(queue.Contents())]))
      ensures BatchSelected(old(queue.Contents()))
    {
      StaysInOrder();
      SelectsBatch(queue.Contents());
      if queue.queued == null {
        assert delivered + [] == delivered;
        return 1;
      }
      ServeAndLog(queue.queued, queue.Contents());
      r := 0;
    }

    // ----- lo_server_dispatch_data -----

    /** A message is dispatched at once if it is due, else queued. */
    method Route(x: Item, due: bool, ghost s: State<Item>, ghost d: seq<Delivery>, ghost xs: seq<Item>)
      requires Valid() && Landed(due, s, Log(), d, delivered, table.Methods(), xs)
      modifies this`delivered, this`arrived, this`ops, handlers, queue, queue.cells
      ensures old(ops) <= ops
      ensures Valid() && Landed(due, s, Log(), d, delivered, table.Methods(), xs + [x])
      ensures fresh(queue.cells - old(queue.cells))
    {
      if due {
        LandedDelivered(s, d, delivered, table.Methods(), xs, x);
        Deliver(x.path, x.msg);
      } else {
        LandedQueued(s, Log(), d, table.Methods(), xs, x);
        Enqueue(x.ts, x.path, x.msg);
      }
    }

    /** Halfway through the elements es: the items xs are dispatched or queued, and `rest` is to come. */
    ghost predicate Taking(read: seq<byte> -> Result<Item>, es: seq<seq<byte>>, rest: seq<byte>, due: bool,
                           s: State<Item>, d: seq<Delivery>, xs: seq<Item>)
      reads this, table, table.spine, queue, queue.cells, handlers
    {
      Valid() && Remaining(read, es, xs, rest) && Landed(due, s, Log(), d, delivered, table.Methods(), xs)
    }

    /** The end of the walk: everything in front of the first element that is not a message is
        dispatched or queued. */
    ghost predicate Taken(read: seq<byte> -> Result<Item>, es: seq<seq<byte>>, error: Option<int>, due: bool,
                          s: State<Item>, d: seq<Delivery>)
      reads this, table, table.spine, queue, queue.cells, handlers
    {
      Valid() && error == FirstError(read, es) && Landed(due, s, Log(), d, delivered, table.Methods(), Front(read, es))
    }

    /** One turn of the loop. */
    method TakeElement(data: array<byte>, pos: nat, ts: Timetag, due: bool, ghost read: seq<byte> -> Result<Item>,
                       ghost es: seq<seq<byte>>, ghost s: State<Item>, ghost d: seq<Delivery>, ghost xs: seq<Item>)
      returns (error: Option<int>, next: nat, ghost xs': seq<Item>)
      requires pos + 4 <= data.Length && IsReader(read, ts) && Taking(read, es, data[pos..], due, s, d, xs)
      modifies this`delivered, this`arrived, this`ops, handlers, queue, queue.cells
      ensures old(ops) <= ops
      ensures pos + 4 <= next <= data.Length && fresh(queue.cells - old(queue.cells))
      ensures if error.None? then Taking(read, es, old(data[next..]), due, s, d, xs') else Taken(read, es, error, due, s, d)
    {
      var r;
      r, next := ReadElement(data, pos, ts, read, es, xs);
      if r.Err? {
        return Some(r.code), next, xs;
      }
      Route(r.value, due, s, d, xs);
      return None, next, xs + [r.value];
    }

    lemma TakenNone(read: seq<byte> -> Result<Item>, rest: seq<byte>, due: bool)
      requires Valid() && Tiled(rest)
      ensures Taking(read, Elements(rest), rest, due, Log(), delivered, [])
    {
      LandedNone(due, Log(), delivered, table.Methods());
      assert [] + Front(read, Elements(rest)) == Front(read, Elements(rest));
    }

    lemma TakenAll(read: seq<byte> -> Result<Item>, es: seq<seq<byte>>, rest: seq<byte>, due: bool,
                   s: State<Item>, d: seq<Delivery>, xs: seq<Item>)
      requires Taking(read, es, rest, due, s, d, xs) && |rest| < 4
      ensures Taken(read, es, None, due, s, d)
    {
      NothingRemains(read, es, xs, rest);
    }

    /** The loop over the elements of a bundle. */
    method DispatchElements(data: array<byte>, from: nat, ts: Timetag, due: bool, ghost read: seq<byte> -> Result<Item>)
      returns (error: Option<int>)
      requires Valid() && from <= data.Length && Tiled(data[from..]) && IsReader(read, ts)
      modifies this`delivered, this`arrived, this`ops, handlers, queue, queue.cells
      ensures old(ops) <= ops
      ensures Taken(read, Elements(old(data[from..])), error, due, old(Log()), old(delivered))
    {
      ghost var es, s, d, xs := Elements(data[from..]), Log(), delivered, [];
      var pos, remain := from, data.Length - from;
      TakenNone(read, data[pos..], due);
      while remain >= 4
        invariant 0 <= remain && pos + remain == data.Length
        invariant old(ops) <= ops && fresh(queue.cells - old(queue.cells)) && Taking(read, es, data[pos..], due, s, d, xs)
      {
        var next;
        error, next, xs := TakeElement(data, pos, ts, due, read, es, s, d, xs);
        if error.Some? {
          return;
        }
        pos, remain := next, remain - (next - pos);
      }
      TakenAll(read, es, data[pos..], due, s, d, xs);
      error := None;
    }

    /** lo_server_dispatch_data on a bundle that passed the validator.  The clock is read once. */
    method DispatchBundle(data: array<byte>, ts: Timetag) returns (r: int)
      requires Valid() && data.Length >= 16 && Tiled(data[16..])
      modifies this`ticks, this`delivered, this`arrived, this`ops, handlers, queue, queue.cells
      ensures old(ops) <= ops
      ensures ticks == old(ticks) + 1
      ensures var es := Elements(old(data[16..])); var error := FirstError(Reader(ts), es);
        && Taken(Reader(ts), es, error, IsDue(ts, clock(old(ticks))), old(Log()), old(delivered))
        && r == if error.Some? then -error.value else data.Length
    {
      var now := Now();
      var due := ts == IMMEDIATE || Diff(ts, now) <= 0.0;
      var error := DispatchElements(data, 16, ts, due, Reader(ts));
      r := if error.Some? then -error.value else data.Length;
    }

    /** Nothing is dispatched or queued, and the clock was read t times. */
    ghost predicate Idle(s: State<Item>, d: seq<Delivery>, t: nat)
      reads this, queue
    {
      Log() == s && delivered == d && ticks == t
    }

    /** A message that is no bundle is dispatched, or refused. */
    ghost predicate SingleDone(s: State<Item>, d: seq<Delivery>, read: Result<Item>, size: nat, r: int, t: nat)
      reads this, queue, table
    {
      && Log() == s && ticks == t
      && match read
         case Err(code) => r == -code && delivered == d
         case Ok(x) => r == size && delivered == d + Deliveries(table.Methods(), [x])
    }

    /** Of a bundle everything in front of the first element that is not a message is dispatched, if
        the bundle is due, or queued. */
    ghost predicate BundleDone(s: State<Item>, d: seq<Delivery>, b: seq<byte>, r: int, t: nat)
      requires CheckBundle(b) >= 0
      reads this, table, table.spine, queue, queue.cells, handlers
    {
      BundleShape(b);
      var ts, es := BundleTag(b), Elements(b[16..]);
      var error := FirstError(Reader(ts), es);
      && ticks == t + 1
      && Taken(Reader(ts), es, error, IsDue(ts, clock(t)), s, d)
      && r == if error.Some? then -error.value else |b|
    }

    /** What lo_server_dispatch_data does with the data b when the clock was read t times before. */
    ghost predicate DataDone(s: State<Item>, d: seq<Delivery>, b: seq<byte>, r: int, t: nat)
      reads this, table, table.spine, queue, queue.cells, handlers
    {
      if CheckString(b) < 0 then r == CheckString(b) && Idle(s, d, t)
      else if !IsBundle(b) then SingleDone(s, d, Reader(IMMEDIATE)(b), |b|, r, t)
      else if CheckBundle(b) < 0 then r == CheckBundle(b) && Idle(s, d, t)
      else BundleDone(s, d, b, r, t)
    }

    /** lo_server_dispatch_data on a message that is no bundle. */
    method DispatchSingle(data: array<byte>, ghost read: seq<byte> -> Result<Item>) returns (r: int)
      requires Valid() && IsReader(read, IMMEDIATE)
      modifies this`delivered, handlers
      ensures Valid() && SingleDone(old(Log()), old(delivered), read(old(data[..])), data.Length, r, old(ticks))
    {
      assert data[0..data.Length] == data[..];
      var x := ReadMessage(data, 0, data.Length, IMMEDIATE, read);
      r := Settle(x, data.Length);
    }

    method Settle(x: Result<Item>, size: nat) returns (r: int)
      requires Valid()
      modifies this`delivered, handlers
      ensures Valid()
      ensures x.Err? ==> r == -x.code && delivered == old(delivered)
      ensures x.Ok? ==> r == size && delivered == old(delivered) + Deliveries(table.Methods(), [x.value])
    {
      if x.Err? {
        return -x.code;
      }
      Deliver(x.value.path, x.value.msg);
      assert Deliveries(table.Methods(), [x.value]) == [Delivery(x.value.path, x.value.msg, table.Methods())];
      r := size;
    }

    method DispatchIfBundle(data: array<byte>) returns (r: int)
      requires Valid()
      modifies this`ticks, this`delivered, this`arrived, this`ops, handlers, queue, queue.cells
      ensures old(ops) <= ops
      ensures Valid()
      ensures if CheckBundle(old(data[..])) < 0
              then r == CheckBundle(old(data[..])) && Idle(old(Log()), old(delivered), old(ticks))
              else BundleDone(old(Log()), old(delivered), old(data[..]), r, old(ticks))
    {
      assert data[0..data.Length] == data[..];
      r := ValidateBundle(data, 0, data.Length);
      if r >= 0 {
        BundleShape(data[..]);
        assert data[..][16..] == data[16..] && data[..][8..12] == data[8..12] && data[..][12..16] == data[12..16];
        var ts := Timetag(NetValue(data[8..12]), NetValue(data[12..16]));
        r := DispatchBundle(data, ts);
      }
    }

    /** lo_server_dispatch_data: answers the size of the data or a negated error code. */
    method DispatchData(data: array<byte>) returns (r: int)
      requires Valid()
      modifies this`ticks, this`delivered, this`arrived, this`ops, handlers, queue, queue.cells
      ensures old(ops) <= ops
      ensures Valid() && DataDone(old(Log()), old(delivered), old(data[..]), r, old(ticks))
    {
      assert data[0..data.Length] == data[..];
      r := ValidateString(data, 0, data.Length);
      if r >= 0 {
        var path := data[..];
        if path[..StrLen(path)] == MARK {
          r := DispatchIfBundle(data);
        } else {
          r := DispatchSingle(data, Reader(IMMEDIATE));
        }
      }
    }

    // ----- Waiting -----

    /** The head of the linked list is the head of the queue. */
    ghost predicate HeadKnown(q: seq<Item>)
      reads queue
    {
      q == queue.Contents() && if q == [] then queue.queued == null else queue.queued != null && queue.queued.item == q[0]
    }

    /** lo_server_next_event_delay */
    method NextEventDelay(ghost q: seq<Item>) returns (delay: real)
      requires HeadKnown(q)
      modifies this`ticks
      ensures delay == DelayOf(q, clock(old(ticks)))
      ensures ticks == old(ticks) + if q == [] then 0 else 1
    {
      if queue.queued == null {
        return 100.0;
      }
      var now := Now();
      delay := Diff(queue.queued.item.ts, now);
      delay := if delay > 100.0 then 100.0 else delay;
      delay := if delay < 0.0 then 0.0 else delay;
    }

    /** After n polls the delay was computed with the reading of the clock behind the first n. */
    ghost predicate Current(q: seq<Item>, delay: real, since: nat, n: nat)
      reads this
    {
      ticks == since + (if q == [] then 0 else n + 1) && delay == DelayOf(q, clock(since + n))
    }

    /** One turn of the poll loop of lo_server_recv. */
    method PollNext(polls: seq<seq<Revents>>, ghost q: seq<Item>, ghost since: nat, timeouts: seq<int>, schedTime: real)
      returns (end: PollEnd, timeouts': seq<int>, delay: real)
      requires HeadKnown(q) && Current(q, schedTime, since, |timeouts|) && Polling(q, clock, since, polls, timeouts)
      requires |timeouts| < |polls| && schedTime > 0.01
      modifies this`ticks
      ensures end != HeadDue && |timeouts'| == |timeouts| + 1 && ticks >= old(ticks) && Slept(q, clock, since, timeouts')
      ensures if end == StillQuiet then Polling(q, clock, since, polls, timeouts') && Current(q, delay, since, |timeouts'|)
              else Polled(polls, timeouts', end)
    {
      PollingFurther(q, clock, since, polls, timeouts, schedTime);
      var timeout;
      end, timeout := PollOnce(schedTime, polls[|timeouts|]);
      timeouts' := timeouts + [timeout];
      delay := schedTime;
      if end == StillQuiet {
        delay := NextEventDelay(q);
      }
    }

    /** The poll loop of lo_server_recv: poll answers `polls` one after the other.  It ends when the
        head of the queue is due or a socket has something, or goes on waiting. */
    method Poll(polls: seq<seq<Revents>>, ghost q: seq<Item>) returns (end: PollEnd, timeouts: seq<int>)
      requires HeadKnown(q)
      modifies this`ticks
      ensures ticks >= old(ticks) && Polled(polls, timeouts, end)
      ensures end == HeadDue ==> ticks > old(ticks) && HeadIsDue(q, clock(ticks - 1))
      ensures HeadIsDue(q, clock(old(ticks))) ==> end == HeadDue && timeouts == []
      ensures Slept(q, clock, old(ticks), timeouts)
    {
      var schedTime := NextEventDelay(q);
      timeouts := [];
      DelayBounds(q, clock(old(ticks)));
      while schedTime > 0.01
        invariant Current(q, schedTime, old(ticks), |timeouts|) && Polling(q, clock, old(ticks), polls, timeouts)
        invariant HeadIsDue(q, clock(old(ticks))) ==> timeouts == [] && schedTime <= 0.01
        decreases |polls| - |timeouts|
      {
        if |timeouts| == |polls| {
          return StillQuiet, timeouts;
        }
        end, timeouts, schedTime := PollNext(polls, q, old(ticks), timeouts, schedTime);
        if end != StillQuiet {
          return;
        }
      }
      DelayBounds(q, if q == [] then IMMEDIATE else clock(ticks - 1));
      end := HeadDue;
    }

    lemma KnowsHead()
      requires Valid()
      ensures HeadKnown(queue.Contents())
    {}

    /** A batch was dispatched: everything due with the head of the queue, and none of it more than 0.01
        seconds and EPSILON before its time. */
    ghost predicate BatchDone(s: State<Item>, d: seq<Delivery>, now: Timetag)
      reads this, queue, table
    {
      var xs := s.queue[..DueNow(s.queue)];
      && s.queue != [] && Log() == Apply(TimeOf, s, Dispatch)
      && delivered == d + Deliveries(table.Methods(), xs) && NotEarly(xs, now)
    }

    /** What lo_server_recv did after its polls: a batch was dispatched, or the data of a socket, or
        nothing.  `bytes` is what the socket gave, and lo_server_dispatch_data answered r to it. */
    ghost predicate Done(s: State<Item>, d: seq<Delivery>, bytes: Option<seq<byte>>, res: Received, r: int, t: nat)
      reads this, table, table.spine, queue, queue.cells, handlers
    {
      match res
      case Batch(value) => value == 0 && ticks == t > 0 && BatchDone(s, d, clock(t - 1))
      case Data(value) =>
        if bytes == None then value == 0 && Idle(s, d, t)
        else value == (if r < 0 then -1 else |bytes.value|) && DataDone(s, d, bytes.value, r, t)
      case Waiting => Idle(s, d, t)
      case HungUp => Idle(s, d, t)
    }

    method Act(end: PollEnd, data: array?<byte>) returns (res: Received, ghost r: int)
      requires Valid() && (end == HeadDue ==> ticks > 0 && HeadIsDue(queue.Contents(), clock(ticks - 1)))
      modifies this`ticks, this`delivered, this`arrived, this`batches, this`ops, handlers, queue, queue.cells
      ensures old(ops) <= ops
      ensures Valid() && Done(old(Log()), old(delivered), old(Bytes(data)), res, r, old(ticks))
      ensures end == EndOf(res)
    {
      r := 0;
      match end {
        case StillQuiet => res := Waiting;
        case SocketHungUp => res := HungUp;
        case SocketReady =>
          var value, result := RecvData(data);
          r := result;
          res := Data(value);
        case HeadDue =>
          var value := RecvBatch(clock(ticks - 1));
          res := Batch(value);
      }
    }

    /** lo_server_recv, when poll answers `polls` and the socket then gives `data`.  The queue is never
        dispatched empty, and a head that is due is dispatched without a poll. */
    method Recv(polls: seq<seq<Revents>>, data: array?<byte>)
      returns (res: Received, timeouts: seq<int>, ghost r: int, ghost t: nat)
      requires Valid()
      modifies this`ticks, this`delivered, this`arrived, this`batches, this`ops, handlers, queue, queue.cells
      ensures old(ops) <= ops
      ensures Valid() && old(ticks) <= t && Done(old(Log()), old(delivered), old(Bytes(data)), res, r, t)
      ensures Polled(polls, timeouts, EndOf(res))
      ensures HeadIsDue(old(queue.Contents()), clock(old(ticks))) ==> res.Batch? && timeouts == []
      ensures Slept(old(queue.Contents()), clock, old(ticks), timeouts)
    {
      KnowsHead();
      ghost var s, d := Log(), delivered;
      var end;
      end, timeouts := Poll(polls, queue.Contents());
      t := ticks;
      assert Log() == s && delivered == d && Valid();
      res, r := Act(end, data);
    }

    method RecvBatch(ghost now: Timetag) returns (value: int)
      requires Valid() && HeadIsDue(queue.Contents(), now)
      modifies this`delivered, this`batches, this`ops, handlers, queue`queued, queue`spine
      ensures old(ops) <= ops
      ensures Valid() && value == 0 && BatchDone(old(Log()), old(delivered), now)
    {
      BatchOnTime(queue.Contents(), now);
      value := DispatchQueued();
    }

    method RecvData(data: array?<byte>) returns (value: int, ghost r: int)
      requires Valid()
      modifies this`ticks, this`delivered, this`arrived, this`ops, handlers, queue, queue.cells
      ensures old(ops) <= ops
      ensures Valid() && (data == null ==> value == 0 && Idle(old(Log()), old(delivered), old(ticks)))
      ensures data != null ==> DataDone(old(Log()), old(delivered), old(data[..]), r, old(ticks))
      ensures data != null ==> value == if r < 0 then -1 else data.Length
    {
      value, r := 0, 0;
      if data != null {
        value := DispatchData(data);
        r := value;
        value := if value < 0 then -1 else data.Length;
      }
    }

    /** lo_server_wait: polls once, then answers 1 if the head of the queue is due (and says so in
        `due`) or a socket has something. */
    method Wait(timeout: int, revents: seq<Revents>, ghost q: seq<Item>) returns (r: int, due: bool, pollTimeout: int)
      requires HeadKnown(q)
      modifies this`ticks
      ensures ticks == old(ticks) + if q == [] then 0 else 2
      ensures due <==> q != [] && Diff(q[0].ts, clock(old(ticks) + 1)) < 0.01
      ensures due ==> ticks > old(ticks) && HeadIsDue(q, clock(ticks - 1))
      ensures r == if due || Scanned(revents) == SocketReady then 1 else 0
      ensures var delay := (DelayOf(q, clock(old(ticks))) * 1000.0).Floor;
        pollTimeout <= timeout && pollTimeout <= delay && (pollTimeout == timeout || pollTimeout == delay)
    {
      var delay := NextEventDelay(q);
      var schedTimeout := (delay * 1000.0).Floor;
      pollTimeout := if timeout > schedTimeout then schedTimeout else timeout;
      delay := NextEventDelay(q);
      DelayBounds(q, if q == [] then IMMEDIATE else clock(ticks - 1));
      due := delay < 0.01;
      if due {
        return 1, due, pollTimeout;
      }
      var end := Scan(revents);
      r := if end == SocketReady then 1 else 0;
    }

    /** lo_server_recv after a wait that found something. */
    method RecvReady(due: bool, polls: seq<seq<Revents>>, data: array?<byte>)
      returns (res: Received, timeouts: seq<int>, ghost result: int, ghost t: nat)
      requires Valid() && (due ==> ticks > 0 && HeadIsDue(queue.Contents(), clock(ticks - 1)))
      modifies this`ticks, this`delivered, this`arrived, this`batches, this`ops, handlers, queue, queue.cells
      ensures old(ops) <= ops
      ensures Valid() && Done(old(Log()), old(delivered), old(Bytes(data)), res, result, t)
      ensures Polled(polls, timeouts, EndOf(res))
      ensures due && Monotone(clock) ==> res == Batch(0) && timeouts == []
    {
      if due {
        DueAgain(queue.Contents(), clock, ticks);
      }
      res, timeouts, result, t := Recv(polls, data);
    }

    /** lo_server_recv_noblock: nothing but a wait if that found nothing, else lo_server_recv.  With a clock
        that does not run backwards, a wait that ended because the head of the queue is due is followed by
        its dispatch, without another poll. */
    method RecvNoblock(timeout: int, revents: seq<Revents>, polls: seq<seq<Revents>>, data: array?<byte>)
      returns (res: Option<Received>, due: bool, timeouts: seq<int>, ghost result: int, ghost t: nat)
      requires Valid()
      modifies this`ticks, this`delivered, this`arrived, this`batches, this`ops, handlers, queue, queue.cells
      ensures old(ops) <= ops
      ensures Valid()
      ensures res.None? <==> !due && Scanned(revents) != SocketReady
      ensures due && Monotone(clock) ==> res == Some(Batch(0)) && timeouts == []
      ensures res.None? ==> Idle(old(Log()), old(delivered), t) && timeouts == []
      ensures res.Some? ==> Done(old(Log()), old(delivered), old(Bytes(data)), res.value, result, t)
      ensures res.Some? ==> Polled(polls, timeouts, EndOf(res.value))
    {
      KnowsHead();
      ghost var q, s, d := queue.Contents(), Log(), delivered;
      var r, pollTimeout;
      r, due, pollTimeout := Wait(timeout, revents, q);
      if r <= 0 {
        return None, due, [], 0, ticks;
      }
      assert Log() == s && delivered == d && Valid();
      var received;
      received, timeouts, result, t := RecvReady(due, polls, data);
      res := Some(received);
    }
  }

  // ----- Polling -----

  /** What a socket gives: nothing usable, or bytes. */
  function Bytes(data: array?<byte>): Option<seq<byte>>
    reads data
  {
    if data == null then None else Some(data[..])
  }

  /** The events of one socket: none, exactly POLLERR, exactly POLLHUP, or anything else. */
  datatype Revents = Nothing | PollErr | PollHup | Other

  /** How lo_server_recv ends, with its answer; `Waiting` when the given polls are not enough. */
  datatype Received = Waiting | HungUp | Batch(value: int) | Data(value: int)

  /** How the polls of lo_server_recv ended, judging by what it did then. */
  function EndOf(res: Received): PollEnd {
    match res
    case Waiting => StillQuiet
    case HungUp => SocketHungUp
    case Batch(_) => HeadDue
    case Data(_) => SocketReady
  }

  datatype PollEnd = StillQuiet | SocketReady | SocketHungUp | HeadDue

  /** The first socket with an event decides. */
  function Scanned(revents: seq<Revents>): (end: PollEnd)
    ensures end != HeadDue
  {
    if revents == [] then StillQuiet
    else if revents[0] == PollErr || revents[0] == PollHup then SocketHungUp
    else if revents[0] != Nothing then SocketReady
    else Scanned(revents[1..])
  }

  /** That is the first event in the list, if there is one. */
  lemma {:induction false} ScannedIs(revents: seq<Revents>, i: nat)
    requires i <= |revents| && forall k :: 0 <= k < i ==> revents[k] == Nothing
    ensures i == |revents| ==> Scanned(revents) == StillQuiet
    ensures i < |revents| && (revents[i] == PollErr || revents[i] == PollHup) ==> Scanned(revents) == SocketHungUp
    ensures i < |revents| && revents[i] == Other ==> Scanned(revents) == SocketReady
  {
    if i > 0 {
      ScannedIs(revents[1..], i - 1);
    }
  }

  method Scan(revents: seq<Revents>) returns (end: PollEnd)
    ensures end == Scanned(revents)
  {
    var i := 0;
    while i < |revents|
      invariant i <= |revents| && Scanned(revents) == Scanned(revents[i..])
    {
      if revents[i] == PollErr || revents[i] == PollHup {
        return SocketHungUp;
      }
      if revents[i] != Nothing {
        return SocketReady;
      }
      i := i + 1;
    }
    end := StillQuiet;
  }

  /** The seconds until the head of the queue is due, between 0 and 100. */
  function DelayOf(q: seq<Item>, now: Timetag): real {
    if q == [] || Diff(q[0].ts, now) > 100.0 then 100.0
    else if Diff(q[0].ts, now) < 0.0 then 0.0
    else Diff(q[0].ts, now)
  }

  /** The delay is the nearest to the time until the head's tag. */
  lemma DelayIsNearest(q: seq<Item>, now: Timetag, x: real)
    requires q != [] && 0.0 <= x <= 100.0
    ensures var d, diff := DelayOf(q, now), Diff(q[0].ts, now);
      0.0 <= d <= 100.0 && (if d < diff then diff - d else d - diff) <= (if x < diff then diff - x else x - diff)
  {}

  /** The milliseconds a poll may take: the delay, but 10 seconds at most. */
  function PollTimeout(q: seq<Item>, now: Timetag): int {
    Millis(DelayOf(q, now))
  }

  function Millis(delay: real): int {
    ((if delay > 10.0 then 10.0 else delay) * 1000.0).Floor
  }

  /** One call of poll, which answers `revents`, and the look at the events. */
  method PollOnce(delay: real, revents: seq<Revents>) returns (end: PollEnd, timeout: int)
    ensures timeout == Millis(delay) && end == Scanned(revents)
  {
    var schedTime := delay;
    if schedTime > 10.0 {
      schedTime := 10.0;
    }
    timeout := (schedTime * 1000.0).Floor;
    end := Scan(revents);
  }

  /** Poll number i was made because the head was not due by reading number i of the clock, and it was
      allowed to take the time until then. */
  ghost predicate Slept(q: seq<Item>, clock: nat -> Timetag, since: nat, timeouts: seq<int>) {
    forall i: nat :: i < |timeouts| ==> SleptOnce(q, clock(since + i), timeouts[i])
  }

  ghost predicate SleptOnce(q: seq<Item>, now: Timetag, timeout: int) {
    !HeadIsDue(q, now) && timeout == PollTimeout(q, now)
  }

  /** Before poll number |timeouts|: all before were quiet and as long as they may be. */
  ghost predicate Polling(q: seq<Item>, clock: nat -> Timetag, since: nat, polls: seq<seq<Revents>>, timeouts: seq<int>) {
    Quiet(polls, timeouts) && Slept(q, clock, since, timeouts)
  }

  lemma PollingFurther(q: seq<Item>, clock: nat -> Timetag, since: nat, polls: seq<seq<Revents>>, timeouts: seq<int>, delay: real)
    requires Polling(q, clock, since, polls, timeouts) && |timeouts| < |polls|
    requires delay == DelayOf(q, clock(since + |timeouts|)) && delay > 0.01
    ensures var ts := timeouts + [Millis(delay)]; var end := Scanned(polls[|timeouts|]);
      Slept(q, clock, since, ts) && if end == StillQuiet then Polling(q, clock, since, polls, ts) else Polled(polls, ts, end)
  {
    var n, ts := |timeouts|, timeouts + [Millis(delay)];
    DelayBounds(q, clock(since + n));
    assert ts[..n] == timeouts;
    assert SleptOnce(q, clock(since + n), ts[n]);
  }

  /** A poll takes 10 seconds with nothing queued.  Otherwise it never sleeps past the head's time tag, and
      by at most a millisecond short of it unless the 10 seconds are over first. */
  lemma AwakeInTime(q: seq<Item>, now: Timetag)
    requires !HeadIsDue(q, now)
    ensures q == [] ==> PollTimeout(q, now) == 10000
    ensures q != [] ==>
      var n, until := PollTimeout(q, now) as real, Diff(q[0].ts, now) * 1000.0;
      10.0 <= n <= 10000.0 && n <= until && (until < n + 1.0 || n == 10000.0)
  {}

  /** So no poll of a run sleeps past the head's time tag, by the clock reading before it. */
  lemma NeverLate(q: seq<Item>, clock: nat -> Timetag, since: nat, timeouts: seq<int>, i: nat)
    requires Slept(q, clock, since, timeouts) && i < |timeouts| && q != []
    ensures timeouts[i] as real <= Diff(q[0].ts, clock(since + i)) * 1000.0
  {
    assert SleptOnce(q, clock(since + i), timeouts[i]);
    AwakeInTime(q, clock(since + i));
  }

  lemma DelayBounds(q: seq<Item>, now: Timetag)
    ensures 0.0 <= DelayOf(q, now) <= 100.0
    ensures DelayOf(q, now) <= 0.01 <==> HeadIsDue(q, now)
  {}

  ghost predicate Monotone(clock: nat -> Timetag) {
    forall i: nat, j: nat :: i <= j ==> !Before(clock(j), clock(i))
  }

  lemma MonotoneStep(clock: nat -> Timetag, t: nat)
    ensures Monotone(clock) ==> !Before(clock(t + 1), clock(t))
  {}

  lemma DueAgain(q: seq<Item>, clock: nat -> Timetag, t: nat)
    requires t > 0 && HeadIsDue(q, clock(t - 1))
    ensures Monotone(clock) ==> HeadIsDue(q, clock(t))
  {
    MonotoneStep(clock, t - 1);
    StillDue(q, clock(t - 1), clock(t));
  }

  lemma StillDue(q: seq<Item>, now: Timetag, later: Timetag)
    requires HeadIsDue(q, now)
    ensures !Before(later, now) ==> HeadIsDue(q, later)
  {
    DiffAdds(q[0].ts, now, later);
    DiffIsOrder(now, later);
  }

  predicate NotEarly(xs: seq<Item>, now: Timetag) {
    forall i :: 0 <= i < |xs| ==> Diff(xs[i].ts, now) < 0.01 + EPSILON
  }

  lemma BatchOnTime(q: seq<Item>, now: Timetag)
    requires HeadIsDue(q, now)
    ensures NotEarly(q[..DueNow(q)], now)
  {
    forall i | 0 <= i < DueNow(q) ensures Diff(q[i].ts, now) < 0.01 + EPSILON {
      DiffAdds(q[i].ts, q[0].ts, now);
    }
  }

  /** Every poll so far waited between 10 milliseconds and 10 seconds and found nothing. */
  ghost predicate Quiet(polls: seq<seq<Revents>>, timeouts: seq<int>) {
    && |timeouts| <= |polls|
    && forall i :: 0 <= i < |timeouts| ==> 10 <= timeouts[i] <= 10000 && Scanned(polls[i]) == StillQuiet
  }

  /** All polls but perhaps the last found nothing, and the last decides. */
  ghost predicate Polled(polls: seq<seq<Revents>>, timeouts: seq<int>, end: PollEnd) {
    var n := |timeouts|;
    match end
    case StillQuiet => Quiet(polls, timeouts) && n == |polls|
    case HeadDue => Quiet(polls, timeouts)
    case _ =>
      && 0 < n <= |polls| && Quiet(polls, timeouts[..n - 1])
      && 10 <= timeouts[n - 1] <= 10000 && Scanned(polls[n - 1]) == end
  }

  predicate HeadIsDue(q: seq<Item>, now: Timetag) {
    q != [] && Diff(q[0].ts, now) <= 0.01
  }

  /** The size field of an element, and then lo_message_deserialise. */
  method ReadElement(data: array<byte>, pos: nat, ts: Timetag, ghost read: seq<byte> -> Result<Item>,
                     ghost es: seq<seq<byte>>, ghost xs: seq<Item>)
    returns (r: Result<Item>, next: nat)
    requires pos + 4 <= data.Length && IsReader(read, ts) && Remaining(read, es, xs, data[pos..])
    ensures pos + 4 <= next <= data.Length
    ensures if r.Ok? then Remaining(read, es, xs + [r.value], data[next..])
            else Front(read, es) == xs && FirstError(read, es) == Some(r.code)
  {
    var elemLen := NetValue(data[pos..pos + 4]);
    SlicesBehind(data, pos, elemLen);
    RemainingFurther(read, es, xs, data[pos..], elemLen);
    next := pos + 4 + elemLen;
    r := ReadMessage(data, pos + 4, elemLen, ts, read);
  }

  lemma SlicesBehind(data: array<byte>, pos: nat, n: nat)
    requires pos + 4 <= data.Length
    ensures data[pos..][..4] == data[pos..pos + 4]
    ensures pos + 4 + n <= data.Length ==>
      data[pos..][4..4 + n] == data[pos + 4..pos + 4 + n] && data[pos..][4 + n..] == data[pos + 4 + n..]
  {}

  /** lo_message_deserialise, and the C string at the start of the buffer. */
  method ReadMessage(data: array<byte>, at: nat, size: nat, ts: Timetag, ghost read: seq<byte> -> Result<Item>)
    returns (r: Result<Item>)
    requires at + size <= data.Length && IsReader(read, ts)
    ensures r == read(data[at..at + size])
  {
    var b := data[at..at + size];
    var path := b[..StrLen(b)];
    var m, code := Deserialise(data, at, size);
    assert read(b) == ReadItem(ts, b);
    if m == null {
      return Err(code);
    }
    ParsedIsValid(b);
    var msg := m.Copied();
    r := Ok(Item(ts, path, msg));
  }
}
