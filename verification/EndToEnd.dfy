/** From a bundle to the handlers: a bundle is serialised, the bytes go to lo_server_dispatch_data and
    the queue is drained. */
module EndToEnd {
  import opened Wrappers
  import opened Octets
  import opened Lists
  import opened Codec
  import opened Timetags
  import opened Messages
  import opened Bundles
  import opened TimedQueue
  import opened Refusals
  import MethodTable
  import S = Server

  /** A well-formed message that the parser accepts: its blobs are within the limit, and its size fits
      the size field of a bundle's element. */
  ghost predicate Sendable(m: Msg) {
    ValidMsg(m) && All(Acceptable, m.args) && Short(m)
  }

  /** The items a bundle's messages stand for: same paths, same type tags, same argument bytes. */
  ghost function ItemsOf(ts: Timetag, ms: seq<Msg>): (xs: seq<Item>)
    requires All(Sendable, ms)
    ensures |xs| == |ms| && forall i :: 0 <= i < |ms| ==> Sendable(ms[i]) && xs[i] == S.ItemOf(ts, ms[i])
  {
    SendableAt(ms);
    seq(|ms|, i requires 0 <= i < |ms| => S.ItemOf(ts, ms[i]))
  }

  /** One of the items: the bundle's time tag, and the message's path, type tags and argument bytes. */
  ghost predicate StandsFor(x: Item, ts: Timetag, m: Msg) {
    x.ts == ts && x.path == m.path && Carries(x.msg, m.args)
  }

  ghost predicate StandFor(xs: seq<Item>, ts: Timetag, ms: seq<Msg>) {
    |xs| == |ms| && forall i :: 0 <= i < |xs| ==> StandsFor(xs[i], ts, ms[i])
  }

  lemma ItemsStandFor(ts: Timetag, ms: seq<Msg>)
    requires All(Sendable, ms)
    ensures StandFor(ItemsOf(ts, ms), ts, ms)
  {
    forall i | 0 <= i < |ms| ensures StandsFor(ItemsOf(ts, ms)[i], ts, ms[i]) {
      S.ItemCarries(ts, ms[i]);
    }
  }

  /** A delivery of this message to these methods. */
  ghost predicate Delivers(d: S.Delivery, methods: seq<MethodTable.Method>, m: Msg) {
    d.path == m.path && d.methods == methods && Carries(d.msg, m.args)
  }

  /** From position k on, the messages ms were delivered, one after the other. */
  ghost predicate DeliveredAt(d: seq<S.Delivery>, k: nat, methods: seq<MethodTable.Method>, ms: seq<Msg>) {
    k + |ms| <= |d| && forall i :: 0 <= i < |ms| ==> Delivers(d[k + i], methods, ms[i])
  }

  lemma ItemsDelivered(d: seq<S.Delivery>, methods: seq<MethodTable.Method>, before: seq<Item>, xs: seq<Item>,
                       after: seq<Item>, ts: Timetag, ms: seq<Msg>)
    requires StandFor(xs, ts, ms)
    ensures DeliveredAt(d + S.Deliveries(methods, before + xs + after), |d| + |before|, methods, ms)
  {
    var all := before + xs + after;
    forall i | 0 <= i < |ms| ensures Delivers((d + S.Deliveries(methods, all))[|d| + |before| + i], methods, ms[i]) {
      assert StandsFor(xs[i], ts, ms[i]);
      DeliveryAt(d, methods, all, |before| + i);
    }
  }

  lemma DeliveryAt(d: seq<S.Delivery>, methods: seq<MethodTable.Method>, xs: seq<Item>, i: nat)
    requires i < |xs|
    ensures (d + S.Deliveries(methods, xs))[|d| + i] == S.Delivery.Delivery(xs[i].path, xs[i].msg, methods)
  {}

  lemma SendableAt(ms: seq<Msg>)
    requires All(Sendable, ms)
    ensures forall i :: 0 <= i < |ms| ==> Sendable(ms[i])
  {}

  lemma {:induction false} FrontIsAll(read: seq<byte> -> Result<Item>, es: seq<seq<byte>>, xs: seq<Item>)
    requires |es| == |xs| && forall i :: 0 <= i < |es| ==> read(es[i]) == Ok(xs[i])
    ensures S.Front(read, es) == xs && S.FirstError(read, es) == None
  {
    if es == [] {
    } else {
      FrontIsAll(read, es[1..], xs[1..]);
      assert xs == [xs[0]] + xs[1..];
    }
  }

  lemma PrintedIsRead(ts: Timetag, m: Msg)
    requires Sendable(m)
    ensures S.Reader(ts)(Print(m)) == Ok(S.ItemOf(ts, m))
  {
    PrintParse(m);
  }

  /** What the server reads from a serialised bundle: its time tag, and its messages, all of them. */
  lemma BundleIsRead(ts: Timetag, ms: seq<Msg>)
    requires All(Sendable, ms)
    ensures var b := PrintBundle(ts, ms);
      && CheckString(b) >= 0 && S.IsBundle(b) && CheckBundle(b) >= 0 && |b| >= 16 && S.BundleTag(b) == ts
      && Tiled(b[16..]) && S.FirstError(S.Reader(ts), Elements(b[16..])) == None
      && S.Front(S.Reader(ts), Elements(b[16..])) == ItemsOf(ts, ms)
  {
    var b := PrintBundle(ts, ms);
    SendableAt(ms);
    HeaderReads(ts, Flat(Element, ms));
    BundleAccepted(ts, ms);
    S.BundleShape(b);
    forall i | 0 <= i < |ms| ensures S.Reader(ts)(Map(Print, ms)[i]) == Ok(ItemsOf(ts, ms)[i]) {
      PrintedIsRead(ts, ms[i]);
    }
    FrontIsAll(S.Reader(ts), Map(Print, ms), ItemsOf(ts, ms));
  }

  const PING: Msg := Msg(['/' as int, 'a' as int], [])

  /** A valid bundle can be half refused: one whose second element is empty passes the validator, its
      first message is dispatched or queued, and then the element's error is answered. */
  lemma HalfRefused(ts: Timetag)
    ensures var b := Header(ts) + (NetWord(|Print(PING)|) + Print(PING) + NetWord(0));
      && CheckString(b) >= 0 && S.IsBundle(b) && CheckBundle(b) >= 0 && Elements(b[16..]) == [Print(PING), []]
      && S.Front(S.Reader(ts), [Print(PING), []]) == [S.ItemOf(ts, PING)]
      && S.FirstError(S.Reader(ts), [Print(PING), []]) == Some(ESIZE)
  {
    HeaderReads(ts, NetWord(|Print(PING)|) + Print(PING) + NetWord(0));
    EmptySecond(Print(PING));
    S.BundleShape(Header(ts) + (NetWord(|Print(PING)|) + Print(PING) + NetWord(0)));
    PrintedIsRead(ts, PING);
    FrontOfTwo(S.Reader(ts), Print(PING), S.ItemOf(ts, PING), ESIZE);
  }

  lemma EmptySecond(p: seq<byte>)
    requires |p| < TWO32
    ensures var s := NetWord(|p|) + p + NetWord(0); Tiled(s) && Elements(s) == [p, []]
  {
    FirstElement([], []);
    assert NetWord(0) + [] + [] == NetWord(0);
    assert Elements([]) == [] && Elements(NetWord(0)) == [[]] + [];
    FirstElement(p, NetWord(0));
  }

  lemma FrontOfTwo(read: seq<byte> -> Result<Item>, p: seq<byte>, x: Item, code: int)
    requires read(p) == Ok(x) && read([]) == Err(code)
    ensures S.Front(read, [p, []]) == [x] && S.FirstError(read, [p, []]) == Some(code)
  {
    assert [p, []][1..] == [[]];
    assert S.Front(read, [[]]) == [] && S.FirstError(read, [[]]) == Some(code);
  }

  // ----- Draining the queue -----

  /** On the way from the queue q0: some batches were taken off its front, the rest is still queued,
      the block xs is whole, and no time tag is in two of the parts. */
  ghost predicate Draining(q0: seq<Item>, xs: seq<Item>, left: seq<Item>, taken: seq<seq<Item>>) {
    Concat(taken) + left == q0 && Whole(xs, State(left, [], taken), 0) && TagsApart(TimeOf, taken + [left])
  }

  lemma DrainStep(q0: seq<Item>, xs: seq<Item>, t: Timetag, left: seq<Item>, taken: seq<seq<Item>>)
    requires Draining(q0, xs, left, taken) && left != [] && SameTag(TimeOf, xs, t) && Sorted(TimeOf, left)
    ensures var n := S.DueNow(left); n > 0 && Draining(q0, xs, left[n..], taken + [left[..n]])
  {
    var s := State(left, [], taken);
    DueHead(TimeOf, left);
    DispatchMoves(TimeOf, s);
    RunKeepsBlock(TimeOf, s, [Dispatch], xs, t, 0);
    BatchApart(TimeOf, taken, left);
    assert Run(TimeOf, s, [Dispatch]) == Apply(TimeOf, s, Dispatch) by {
      assert [Op<Item>.Dispatch][1..] == [];
    }
  }

  lemma DeliveriesJoin(methods: seq<MethodTable.Method>, xs: seq<Item>, ys: seq<Item>)
    ensures S.Deliveries(methods, xs + ys) == S.Deliveries(methods, xs) + S.Deliveries(methods, ys)
  {}

  /** Since the queue was q0, the batches `taken` were taken off its front and delivered. */
  ghost predicate Account(q0: seq<Item>, b0: seq<seq<Item>>, d0: seq<S.Delivery>, methods: seq<MethodTable.Method>,
                          taken: seq<seq<Item>>, q: seq<Item>, b: seq<seq<Item>>, d: seq<S.Delivery>) {
    Concat(taken) + q == q0 && b == b0 + taken && d == d0 + S.Deliveries(methods, Concat(taken))
  }

  lemma AccountFurther(q0: seq<Item>, b0: seq<seq<Item>>, d0: seq<S.Delivery>, methods: seq<MethodTable.Method>,
                       taken: seq<seq<Item>>, q: seq<Item>, b: seq<seq<Item>>, d: seq<S.Delivery>)
    requires Account(q0, b0, d0, methods, taken, q, b, d)
    ensures var n := S.DueNow(q);
      Account(q0, b0, d0, methods, taken + [q[..n]], q[n..], b + [q[..n]], d + S.Deliveries(methods, q[..n]))
  {
    var n := S.DueNow(q);
    assert (taken + [q[..n]])[..|taken|] == taken;
    Regroup(Concat(taken), q[..n], q[n..]);
    assert q == q[..n] + q[n..];
    DeliveriesJoin(methods, Concat(taken), q[..n]);
    Regroup(d0, S.Deliveries(methods, Concat(taken)), S.Deliveries(methods, q[..n]));
    Regroup(b0, taken, [q[..n]]);
  }

  lemma AccountStarts(q: seq<Item>, b: seq<seq<Item>>, d: seq<S.Delivery>, methods: seq<MethodTable.Method>)
    ensures Account(q, b, d, methods, [], q, b, d)
  {
    assert Concat<Item>([]) == [] && S.Deliveries(methods, []) == [];
  }

  lemma DispatchFields(s: State<Item>, s': State<Item>)
    requires s.queue != [] && s' == Apply(TimeOf, s, Dispatch)
    ensures var n := S.DueNow(s.queue); s'.queue == s.queue[n..] && s'.batches == s.batches + [s.queue[..n]]
  {}

  /** Calls dispatch_queued until nothing is queued.  Every queued item is delivered once, in the order
      of the queue, items with one time tag that stand together leave in one batch, and no two batches
      have a time tag in common. */
  method Drain(server: S.Server, ghost xs: seq<Item>, ghost t: Timetag) returns (ghost taken: seq<seq<Item>>)
    requires server.Valid() && Together(xs, server.queue.Contents()) && SameTag(TimeOf, xs, t)
    modifies server`delivered, server`batches, server`ops, server.handlers, server.queue`queued, server.queue`spine
    ensures server.Valid() && server.queue.Contents() == [] && old(server.ops) <= server.ops
    ensures Account(old(server.queue.Contents()), old(server.batches), old(server.delivered), server.table.Methods(),
                    taken, [], server.batches, server.delivered)
    ensures Whole(xs, State([], [], taken), 0) && TagsApart(TimeOf, taken)
  {
    ghost var q0, b0, d0 := server.queue.Contents(), server.batches, server.delivered;
    taken := [];
    AccountStarts(q0, b0, d0, server.table.Methods());
    while server.queue.queued != null
      invariant server.Valid() && old(server.ops) <= server.ops
      invariant Account(q0, b0, d0, server.table.Methods(), taken, server.queue.Contents(), server.batches, server.delivered)
      invariant Draining(q0, xs, server.queue.Contents(), taken)
      decreases |server.queue.Contents()|
    {
      ghost var q := server.queue.Contents();
      server.StaysInOrder();
      DrainStep(q0, xs, t, q, taken);
      AccountFurther(q0, b0, d0, server.table.Methods(), taken, q, server.batches, server.delivered);
      var r := DrainOnce(server);
      taken := taken + [q[..S.DueNow(q)]];
    }
    assert (taken + [server.queue.Contents()])[..|taken|] == taken;
  }

  method DrainOnce(server: S.Server) returns (r: int)
    requires server.Valid() && server.queue.Contents() != []
    modifies server`delivered, server`batches, server`ops, server.handlers, server.queue`queued, server.queue`spine
    ensures server.Valid() && r == 0 && old(server.ops) <= server.ops
    ensures var q := old(server.queue.Contents()); var n := S.DueNow(q);
      && server.queue.Contents() == q[n..] && server.batches == old(server.batches) + [q[..n]]
      && server.delivered == old(server.delivered) + S.Deliveries(server.table.Methods(), q[..n])
  {
    ghost var s := server.Log();
    r := server.DispatchQueued();
    DispatchFields(s, server.Log());
  }

  // ----- All the way -----

  /** The time of the tag has not come, and it is not the special tag. */
  predicate Future(ts: Timetag, now: Timetag) {
    Before(now, ts) && !(ts.sec == 0 && ts.frac == 1)
  }

  /** A bundle that is not due when it arrives is queued as one block, behind everything that is not
      later and in front of everything later. */
  method Feed(server: S.Server, data: array<byte>, ghost ts: Timetag, ghost ms: seq<Msg>) returns (r: int)
    requires server.Valid() && All(Sendable, ms) && data[..] == PrintBundle(ts, ms)
    requires Future(ts, server.clock(server.ticks))
    modifies server`ticks, server`delivered, server`arrived, server`ops, server.handlers, server.queue, server.queue.cells
    ensures server.Valid() && r == data.Length && server.delivered == old(server.delivered)
    ensures old(server.ops) <= server.ops && Whole(ItemsOf(ts, ms), server.Log(), |old(server.batches)|)
    ensures server.batches == old(server.batches) && server.arrived == old(server.arrived) + ItemsOf(ts, ms)
    ensures server.queue.Contents() == old(Queued(server.queue.Contents(), ts, ItemsOf(ts, ms)))
  {
    S.DueExactly(ts, server.clock(server.ticks));
    BundleIsRead(ts, ms);
    BlockLands(TimeOf, server.queue.Contents(), ItemsOf(ts, ms), ts);
    QueuedStands(server.queue.Contents(), ts, ItemsOf(ts, ms));
    r := server.DispatchData(data);
  }

  function Queued(q: seq<Item>, ts: Timetag, xs: seq<Item>): seq<Item> {
    var k := Spot(TimeOf, q, ts);
    q[..k] + xs + q[k..]
  }

  /** A fresh buffer of the right size, as lo_bundle_serialise allocates it. */
  method NewBuffer(b: Bundle) returns (data: array<byte>)
    requires b.Valid() && forall m :: m in b.held ==> m.Valid()
    ensures fresh(data) && data.Length == |PrintBundle(b.ts, b.Contents())|
    ensures forall m :: m in b.held ==> Fit(m, data)
  {
    var n := b.Length();
    data := new byte[n];
  }

  method PrintedBundle(b: Bundle) returns (data: array<byte>)
    requires b.Valid() && forall m :: m in b.held ==> m.Valid()
    ensures fresh(data) && data[..] == PrintBundle(b.ts, b.Contents())
  {
    data := NewBuffer(b);
    PokedAll(data[..], PrintBundle(b.ts, b.Contents()));
    var ok, size := b.Serialise(data);
  }

  lemma PokedAll(d: seq<byte>, s: seq<byte>)
    requires |d| == |s|
    ensures Poked(d, 0, s) == s
  {}

  /** The messages ms of a bundle with the time tag ts were queued among q and the queue was drained: every
      queued item was taken once, in order (Account), the bundle's items in one batch next to each other, no
      two batches have a time tag in common, and from the place on where the bundle belongs in the queue the
      deliveries are its messages, one after the other. */
  ghost predicate SentAndDrained(q: seq<Item>, b0: seq<seq<Item>>, d0: seq<S.Delivery>, methods: seq<MethodTable.Method>,
                                 ts: Timetag, ms: seq<Msg>, taken: seq<seq<Item>>, b: seq<seq<Item>>, d: seq<S.Delivery>)
    requires All(Sendable, ms)
  {
    var xs := ItemsOf(ts, ms);
    && Account(Queued(q, ts, xs), b0, d0, methods, taken, [], b, d)
    && (xs != [] ==> exists batch :: batch in taken && Together(xs, batch))
    && TagsApart(TimeOf, taken)
    && DeliveredAt(d, |d0| + Spot(TimeOf, q, ts), methods, ms)
  }

  lemma IsSentAndDrained(q: seq<Item>, b0: seq<seq<Item>>, d0: seq<S.Delivery>, methods: seq<MethodTable.Method>,
                         ts: Timetag, ms: seq<Msg>, taken: seq<seq<Item>>, b: seq<seq<Item>>, d: seq<S.Delivery>)
    requires All(Sendable, ms) && Account(Queued(q, ts, ItemsOf(ts, ms)), b0, d0, methods, taken, [], b, d)
    requires Whole(ItemsOf(ts, ms), State([], [], taken), 0) && TagsApart(TimeOf, taken)
    ensures SentAndDrained(q, b0, d0, methods, ts, ms, taken, b, d)
  {
    var xs := ItemsOf(ts, ms);
    ItemsStandFor(ts, ms);
    AllDelivered(q, ts, xs, ms, b0, d0, methods, taken, b, d);
    if xs != [] {
      InOneBatch(xs, taken);
    }
  }

  lemma InOneBatch(xs: seq<Item>, taken: seq<seq<Item>>)
    requires Whole(xs, State([], [], taken), 0) && xs != []
    ensures exists batch :: batch in taken && Together(xs, batch)
  {
    assert !Together(xs, []);
    var b :| 0 <= b < |taken| && Together(xs, taken[b]);
    assert taken[b] in taken;
  }

  /** The promise of bundles.  Serialising a bundle of sendable messages whose time has not come, giving
      the bytes to lo_server_dispatch_data and draining the queue delivers every message exactly once,
      in bundle order and with its path, type tags and argument bytes, all in one call of
      dispatch_queued with no other message between them; and no call ends between two messages with
      one time tag. */
  method SendAndDrain(b: Bundle, server: S.Server) returns (ghost taken: seq<seq<Item>>)
    requires b.Valid() && (forall m :: m in b.held ==> m.Valid()) && All(Sendable, b.Contents())
    requires server.Valid() && Future(b.ts, server.clock(server.ticks))
    modifies server, server.handlers, server.queue, server.queue.cells
    ensures server.Valid() && server.queue.Contents() == [] && old(server.ops) <= server.ops
    ensures SentAndDrained(old(server.queue.Contents()), old(server.batches), old(server.delivered), server.table.Methods(),
                           b.ts, old(b.Contents()), taken, server.batches, server.delivered)
  {
    ghost var ms := b.Contents();
    var data := PrintedBundle(b);
    taken := FeedAndDrain(server, data, b.ts, ms);
  }

  method FeedAndDrain(server: S.Server, data: array<byte>, ghost ts: Timetag, ghost ms: seq<Msg>) returns (ghost taken: seq<seq<Item>>)
    requires server.Valid() && All(Sendable, ms) && data[..] == PrintBundle(ts, ms)
    requires Future(ts, server.clock(server.ticks))
    modifies server, server.handlers, server.queue, server.queue.cells
    ensures server.Valid() && server.queue.Contents() == [] && old(server.ops) <= server.ops
    ensures SentAndDrained(old(server.queue.Contents()), old(server.batches), old(server.delivered), server.table.Methods(),
                           ts, ms, taken, server.batches, server.delivered)
  {
    ghost var q, b0, d0 := server.queue.Contents(), server.batches, server.delivered;
    var r := Feed(server, data, ts, ms);
    QueuedStands(q, ts, ItemsOf(ts, ms));
    taken := Drain(server, ItemsOf(ts, ms), ts);
    IsSentAndDrained(q, b0, d0, server.table.Methods(), ts, ms, taken, server.batches, server.delivered);
  }

  lemma AllDelivered(q: seq<Item>, ts: Timetag, xs: seq<Item>, ms: seq<Msg>, b0: seq<seq<Item>>, d0: seq<S.Delivery>,
                     methods: seq<MethodTable.Method>, taken: seq<seq<Item>>, b: seq<seq<Item>>, d: seq<S.Delivery>)
    requires StandFor(xs, ts, ms) && Account(Queued(q, ts, xs), b0, d0, methods, taken, [], b, d)
    ensures DeliveredAt(d, |d0| + Spot(TimeOf, q, ts), methods, ms)
  {
    var k := Spot(TimeOf, q, ts);
    AccountCloses(Queued(q, ts, xs), b0, d0, methods, taken, b, d);
    assert |q[..k]| == k;
    ItemsDelivered(d0, methods, q[..k], xs, q[k..], ts, ms);
  }

  lemma AccountCloses(q0: seq<Item>, b0: seq<seq<Item>>, d0: seq<S.Delivery>, methods: seq<MethodTable.Method>,
                      taken: seq<seq<Item>>, b: seq<seq<Item>>, d: seq<S.Delivery>)
    requires Account(q0, b0, d0, methods, taken, [], b, d)
    ensures d == d0 + S.Deliveries(methods, q0)
  {
    assert Concat(taken) + [] == Concat(taken);
  }

  lemma QueuedStands(q: seq<Item>, ts: Timetag, xs: seq<Item>)
    ensures Together(xs, Queued(q, ts, xs))
  {
    assert StandsAt(xs, Queued(q, ts, xs), Spot(TimeOf, q, ts));
  }

  // ----- At once -----

  /** A bundle whose time has come, or with the special tag, is dispatched on arrival: message by message,
      in order, with nothing queued. */
  method FeedDue(server: S.Server, data: array<byte>, ghost ts: Timetag, ghost ms: seq<Msg>) returns (r: int)
    requires server.Valid() && All(Sendable, ms) && data[..] == PrintBundle(ts, ms)
    requires !Future(ts, server.clock(server.ticks))
    modifies server`ticks, server`delivered, server`arrived, server`ops, server.handlers, server.queue, server.queue.cells
    ensures server.Valid() && r == data.Length && server.Log() == old(server.Log())
    ensures old(server.delivered) <= server.delivered && |server.delivered| == |old(server.delivered)| + |ms|
    ensures DeliveredAt(server.delivered, |old(server.delivered)|, server.table.Methods(), ms)
  {
    S.DueExactly(ts, server.clock(server.ticks));
    BundleIsRead(ts, ms);
    ItemsStandFor(ts, ms);
    DeliveredBehind(server.delivered, server.table.Methods(), ItemsOf(ts, ms), ts, ms);
    r := server.DispatchData(data);
  }

  lemma DeliveredBehind(d: seq<S.Delivery>, methods: seq<MethodTable.Method>, xs: seq<Item>, ts: Timetag, ms: seq<Msg>)
    requires StandFor(xs, ts, ms)
    ensures var d' := d + S.Deliveries(methods, xs); d <= d' && |d'| == |d| + |ms| && DeliveredAt(d', |d|, methods, ms)
  {
    ItemsDelivered(d, methods, [], xs, [], ts, ms);
    assert [] + xs + [] == xs;
  }

  lemma SingleIsRead(m: Msg)
    requires Sendable(m) && m.path != MARK
    ensures var b := Print(m);
      CheckString(b) >= 0 && !S.IsBundle(b) && S.Reader(IMMEDIATE)(b) == Ok(S.ItemOf(IMMEDIATE, m))
  {
    PrintedIsRead(IMMEDIATE, m);
    StringAccepted(Print(m), m.path);
  }

  /** A message that comes without a bundle is dispatched on arrival. */
  method FeedMessage(server: S.Server, data: array<byte>, ghost m: Msg) returns (r: int)
    requires server.Valid() && Sendable(m) && m.path != MARK && data[..] == Print(m)
    modifies server`ticks, server`delivered, server`arrived, server`ops, server.handlers, server.queue, server.queue.cells
    ensures server.Valid() && r == data.Length && server.Log() == old(server.Log()) && server.ticks == old(server.ticks)
    ensures old(server.delivered) <= server.delivered && |server.delivered| == |old(server.delivered)| + 1
    ensures Delivers(server.delivered[|old(server.delivered)|], server.table.Methods(), m)
  {
    SingleIsRead(m);
    S.ItemCarries(IMMEDIATE, m);
    r := server.DispatchData(data);
  }

  // ----- Bad data -----

  /** The answer to data that is refused as a whole: no string in front, a broken bundle, or a bad message. */
  ghost predicate Refused(b: seq<byte>, r: int) {
    if !StartsWithString(b) then r == CheckString(b) && (r == -ETERM || r == -ESIZE || r == -EPAD)
    else if MARK + [0] <= b then r == -ESIZE && forall ts, es :: !IsBundleOf(b, ts, es)
    else Parse(b).Err? && r == -Parse(b).code && Bad(b, -r)
  }

  ghost predicate Hopeless(b: seq<byte>) {
    !StartsWithString(b) || if MARK + [0] <= b then CheckBundle(b) < 0 else Parse(b).Err?
  }

  lemma BundleHopeless(b: seq<byte>)
    requires MARK + [0] <= b && StartsWithString(b) && CheckBundle(b) < 0
    ensures Refused(b, CheckBundle(b))
  {
    BundleAnswer(b);
    StringInFront(b);
    S.BundleMarked(b);
  }

  lemma NoString(b: seq<byte>)
    requires CheckString(b) < 0
    ensures Refused(b, CheckString(b))
  {
    StringInFront(b);
    StringAnswer(b, StrLen(b));
  }

  lemma HopelessIs(b: seq<byte>)
    requires Hopeless(b)
    ensures CheckString(b) < 0 ==> Refused(b, CheckString(b))
    ensures CheckString(b) >= 0 && S.IsBundle(b) ==> CheckBundle(b) < 0 && Refused(b, CheckBundle(b))
    ensures CheckString(b) >= 0 && !S.IsBundle(b) ==>
      Parse(b).Err? && Refused(b, -Parse(b).code) && Parse(b).code > 0 && S.Reader(IMMEDIATE)(b) == Err(Parse(b).code)
  {
    StringInFront(b);
    if CheckString(b) < 0 {
      NoString(b);
    } else {
      S.BundleMarked(b);
      if S.IsBundle(b) {
        BundleHopeless(b);
      } else {
        RefusedExactly(b, Parse(b).code);
      }
    }
  }

  /** Data that is refused as a whole leaves no trace but the error code. */
  method FeedBad(server: S.Server, data: array<byte>) returns (r: int)
    requires server.Valid() && Hopeless(data[..])
    modifies server`ticks, server`delivered, server`arrived, server`ops, server.handlers, server.queue, server.queue.cells
    ensures server.Valid() && server.Idle(old(server.Log()), old(server.delivered), old(server.ticks))
    ensures Refused(old(data[..]), r) && r < 0
  {
    HopelessIs(data[..]);
    r := server.DispatchData(data);
  }

  /** The messages ms are what the elements es in front of the first bad one parse to, and r is the negated
      error of that one, or the size of the bundle if all are good. */
  ghost predicate TakenUpTo(es: seq<seq<byte>>, ms: seq<Msg>, r: int, size: nat) {
    && |ms| <= |es| && (forall i :: 0 <= i < |ms| ==> Parse(es[i]) == Ok(ms[i]))
    && if |ms| == |es| then r == size else Parse(es[|ms|]).Err? && r == -Parse(es[|ms|]).code
  }

  lemma FrontParsed(ts: Timetag, es: seq<seq<byte>>, size: nat) returns (ms: seq<Msg>)
    ensures StandFor(S.Front(S.Reader(ts), es), ts, ms)
    ensures var error := S.FirstError(S.Reader(ts), es);
      TakenUpTo(es, ms, if error.Some? then -error.value else size, size)
  {
    var read := S.Reader(ts);
    var xs := S.Front(read, es);
    S.HalfTaken(read, es);
    S.NoError(read, es);
    ms := seq(|xs|, i requires 0 <= i < |xs| => if Parse(es[i]).Ok? then Parse(es[i]).value else PING);
    forall i | 0 <= i < |es| ensures read(es[i]) == S.ReadItem(ts, es[i]) {}
    forall i | 0 <= i < |xs| ensures StandsFor(xs[i], ts, ms[i]) && Parse(es[i]) == Ok(ms[i]) {
      S.ParsedIsValid(es[i]);
      S.ItemCarries(ts, ms[i]);
    }
  }

  /** lo_server_dispatch_data on a bundle of any elements.  Everything in front of the first bad one is
      queued as one block, if the time of the tag has not come, or else dispatched. */
  method FeedAny(server: S.Server, data: array<byte>, ghost ts: Timetag, ghost es: seq<seq<byte>>)
    returns (r: int, ghost ms: seq<Msg>, ghost xs: seq<Item>)
    requires server.Valid() && IsBundleOf(data[..], ts, es)
    modifies server`ticks, server`delivered, server`arrived, server`ops, server.handlers, server.queue, server.queue.cells
    ensures server.Valid() && TakenUpTo(es, ms, r, data.Length) && StandFor(xs, ts, ms)
    ensures Future(ts, server.clock(old(server.ticks))) ==>
      server.delivered == old(server.delivered) && server.queue.Contents() == Queued(old(server.queue.Contents()), ts, xs)
    ensures !Future(ts, server.clock(old(server.ticks))) ==>
      server.Log() == old(server.Log()) && server.delivered == old(server.delivered) + S.Deliveries(server.table.Methods(), xs)
  {
    ghost var q := server.queue.Contents();
    S.DueExactly(ts, server.clock(server.ticks));
    AnyIsRead(data[..], ts, es);
    xs := S.Front(S.Reader(ts), es);
    ms := FrontParsed(ts, es, data.Length);
    SameTags(xs, ts, ms);
    BlockLands(TimeOf, q, xs, ts);
    r := server.DispatchData(data);
  }

  lemma SameTags(xs: seq<Item>, ts: Timetag, ms: seq<Msg>)
    requires StandFor(xs, ts, ms)
    ensures SameTag(TimeOf, xs, ts)
  {
    forall i | 0 <= i < |xs| ensures TimeOf(xs[i]) == ts {
      assert StandsFor(xs[i], ts, ms[i]);
    }
  }

  lemma AnyIsRead(b: seq<byte>, ts: Timetag, es: seq<seq<byte>>)
    requires IsBundleOf(b, ts, es)
    ensures CheckString(b) >= 0 && S.IsBundle(b) && CheckBundle(b) >= 0 && |b| >= 16 && S.BundleTag(b) == ts
    ensures Tiled(b[16..]) && Elements(b[16..]) == es
  {
    HeaderReads(ts, Flat(Sized, es));
    BundleIsAccepted(b, ts, es);
    SizedElements(es);
  }

  // ----- Received by poll -----

  lemma OneReady(timeouts: seq<int>, q: seq<Item>, clock: nat -> Timetag, since: nat, res: S.Received)
    requires S.Polled([[S.Other]], timeouts, S.EndOf(res)) && S.Slept(q, clock, since, timeouts) && q == [] && !res.Batch?
    ensures res.Data? && timeouts == [10000]
  {
    var revents := [S.Other];
    S.ScannedIs(revents, 0);
    assert S.Scanned([[S.Other]][0]) == S.SocketReady;
    assert S.SleptOnce(q, clock(since), timeouts[0]);
    S.AwakeInTime(q, clock(since));
  }

  /** lo_server_recv with nothing queued and a socket that gives a message: one poll of ten seconds, then
      the message is dispatched, and the answer is its size. */
  method RecvMessage(server: S.Server, data: array<byte>, ghost m: Msg) returns (res: S.Received, timeouts: seq<int>)
    requires server.Valid() && server.queue.Contents() == []
    requires Sendable(m) && m.path != MARK && data[..] == Print(m)
    modifies server`ticks, server`delivered, server`arrived, server`batches, server`ops
    modifies server.handlers, server.queue, server.queue.cells
    ensures server.Valid() && res == S.Received.Data(data.Length) && timeouts == [10000]
    ensures old(server.delivered) <= server.delivered && |server.delivered| == |old(server.delivered)| + 1
    ensures Delivers(server.delivered[|old(server.delivered)|], server.table.Methods(), m)
  {
    ghost var r, t;
    SingleIsRead(m);
    S.ItemCarries(IMMEDIATE, m);
    res, timeouts, r, t := server.Recv([[S.Other]], data);
    OneReady(timeouts, [], server.clock, old(server.ticks), res);
  }

  /** And if it gives data that is refused, the answer is -1. */
  method RecvBad(server: S.Server, data: array<byte>) returns (res: S.Received, timeouts: seq<int>)
    requires server.Valid() && server.queue.Contents() == [] && Hopeless(data[..])
    modifies server`ticks, server`delivered, server`arrived, server`batches, server`ops
    modifies server.handlers, server.queue, server.queue.cells
    ensures server.Valid() && res == S.Received.Data(-1) && timeouts == [10000]
    ensures server.delivered == old(server.delivered) && server.Log() == old(server.Log())
  {
    ghost var r, t;
    HopelessIs(data[..]);
    res, timeouts, r, t := server.Recv([[S.Other]], data);
    OneReady(timeouts, [], server.clock, old(server.ticks), res);
  }

  // ----- Single messages -----

  /** The serialised form in a buffer of its own, as lo_message_serialise allocates it. */
  method Printed(m: Message, path: Name) returns (to: array<byte>)
    requires m.Valid()
    ensures fresh(to) && to[..] == Print(Msg(path, m.args))
  {
    var n := m.Length(path);
    to := new byte[n];
    PokedAll(to[..], Print(Msg(path, m.args)));
    n := m.Serialise(path, to, 0);
  }

  method ParseAll(data: array<byte>) returns (m: Message?, code: int)
    ensures match Parse(data[..])
            case Ok(msg) => m != null && code == 0 && m.Valid() && m.args == msg.args && fresh(m) && fresh(m.types) && fresh(m.data)
            case Err(c) => m == null && code == c
  {
    assert data[0..data.Length] == data[..];
    m, code := Deserialise(data, 0, data.Length);
  }

  /** Print then parse, on the objects: a well-formed message, however it was built, is deserialised
      from its serialised bytes with the same type string, data bytes and argument places, unless it
      carries a blob over the limit, which the parser refuses. */
  method PrintThenParse(m: Message, path: Name) returns (m': Message?, code: int)
    requires m.Valid()
    ensures if All(Acceptable, m.args)
            then m' != null && code == 0 && m'.Valid() && m'.args == m.args && SameBytes(m, m')
            else m' == null && code == EINVALIDARG
  {
    var to := Printed(m, path);
    PrintParse(Msg(path, m.args));
    m', code := ParseAll(to);
    if m' != null {
      ContentsAgree(m, m');
    }
  }

  /** Both messages have the same type string, the same data bytes and, as far as they are known, the
      same argument places. */
  ghost predicate SameBytes(m: Message, m': Message)
    reads m, m.types, m.data, m.argv, m', m'.types, m'.data, m'.argv
    requires m.Valid() && m'.Valid()
  {
    && m.types[..m.typelen] == m'.types[..m'.typelen] && m.data[..m.datalen] == m'.data[..m'.datalen]
    && (m.argv != null && m'.argv != null ==> m.argv[..] == m'.argv[..])
  }

  lemma ContentsAgree(m: Message, m': Message)
    requires m.Valid() && m'.Valid() && m.args == m'.args
    ensures SameBytes(m, m')
  {}

  /** Parse then print, on the objects: whatever bytes are accepted come out again. */
  method ParseThenPrint(data: array<byte>) returns (to: array?<byte>, code: int)
    ensures to == null <==> Parse(data[..]).Err?
    ensures to != null ==> to[..] == data[..]
    ensures Parse(data[..]).Err? ==> code == Parse(data[..]).code
  {
    to := null;
    var m;
    m, code := ParseAll(data);
    if m != null {
      ParsePrint(data[..]);
      var b := data[..];
      var path: Name := b[..StrLen(b)];
      to := Printed(m, path);
    }
  }
}
