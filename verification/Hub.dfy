// Subscription hubs: EventHub (internal/web/events.go) and the two LogHubs (internal/tools/logs.go,
// internal/web/events.go). All three subscribe and cancel alike; EventHub also sends every item to
// the subscribers of the global key "", the LogHubs keep a bounded history.
//
// Each method body runs under one mutex and is one atomic step; a receiver's read from its channel
// is a step of its own. The channel of a subscription is named by the subscription's id.
module Hub {

  const CAPACITY: nat := 8

  /** A buffered channel together with what its receiver has read so far. */
  datatype Channel<T> = Channel(buf: seq<T>, closed: bool, taken: seq<T>)

  /** `panicked` records a close of a closed channel or a send to one. */
  datatype Core<T> = Core(nextId: nat, subs: map<string, set<nat>>, chans: map<nat, Channel<T>>, panicked: bool)

  datatype Op<T> = Subscribe(key: string) | Cancel(key: string, id: nat) | Send(key: string, item: T) | Receive(id: nat)

  function Empty<T>(): (h: Core<T>) {
    Core(0, map[], map[], false)
  }

  function Fresh<T>(): (c: Channel<T>) {
    Channel([], false, [])
  }

  /** A non-blocking send: dropped when the buffer is full. */
  function Offer<T>(c: Channel<T>, x: T): (c1: Channel<T>) {
    if |c.buf| < CAPACITY then c.(buf := c.buf + [x]) else c
  }

  function Take<T>(c: Channel<T>): (c1: Channel<T>) {
    if c.buf == [] then c else Channel(c.buf[1..], c.closed, c.taken + [c.buf[0]])
  }

  function Live<T>(h: Core<T>, key: string): (ids: set<nat>) {
    if key in h.subs then h.subs[key] else {}
  }

  function Targets<T>(h: Core<T>, global: bool, key: string): (ids: set<nat>) {
    Live(h, key) + if global then Live(h, "") else {}
  }

  predicate AnyClosed<T>(h: Core<T>, ids: set<nat>) {
    exists id :: id in ids && id in h.chans && h.chans[id].closed
  }

  function SendAll<T>(h: Core<T>, ids: set<nat>, x: T): (h1: Core<T>) {
    h.(chans := map id | id in h.chans :: if id in ids then Offer(h.chans[id], x) else h.chans[id],
       panicked := h.panicked || AnyClosed(h, ids))
  }

  function DoSubscribe<T>(h: Core<T>, key: string): (h1: Core<T>) {
    Core(h.nextId + 1, h.subs[key := Live(h, key) + {h.nextId}], h.chans[h.nextId := Fresh<T>()], h.panicked)
  }

  function DoCancel<T>(h: Core<T>, key: string, id: nat): (h1: Core<T>) {
    if key !in h.subs then h
    else
      var left := h.subs[key] - {id};
      var h1 := h.(subs := if left == {} then h.subs - {key} else h.subs[key := left]);
      if id !in h.subs[key] || id !in h.chans then h1
      else h1.(chans := h.chans[id := h.chans[id].(closed := true)], panicked := h.panicked || h.chans[id].closed)
  }

  function Step<T>(h: Core<T>, global: bool, op: Op<T>): (h1: Core<T>) {
    match op
    case Subscribe(key) => DoSubscribe(h, key)
    case Cancel(key, id) => DoCancel(h, key, id)
    case Send(key, x) => SendAll(h, Targets(h, global, key), x)
    case Receive(id) => if id in h.chans then h.(chans := h.chans[id := Take(h.chans[id])]) else h
  }

  function Run<T>(h: Core<T>, global: bool, ops: seq<Op<T>>): (h1: Core<T>)
    decreases |ops|
  {
    if ops == [] then h else Run(Step(h, global, ops[0]), global, ops[1..])
  }

  // ---------------------------------------------------------------- safety

  /** Ids are issued in order, listed under at most one key, and listed exactly while open. */
  ghost predicate Valid<T>(h: Core<T>) {
    && !h.panicked
    && (forall id: nat :: id in h.chans <==> id < h.nextId)
    && (forall id :: id in h.chans ==> |h.chans[id].buf| <= 8)
    && (forall k :: k in h.subs ==> h.subs[k] != {})
    && (forall k, id :: k in h.subs && id in h.subs[k] ==> id in h.chans && !h.chans[id].closed)
    && (forall k, j, id :: k in h.subs && j in h.subs && id in h.subs[k] && id in h.subs[j] ==> k == j)
  }

  lemma SubscribeValid<T>(h: Core<T>, key: string)
    requires Valid(h)
    ensures Valid(DoSubscribe(h, key))
  {
    var h1 := DoSubscribe(h, key);
    forall k, j, id | k in h1.subs && j in h1.subs && id in h1.subs[k] && id in h1.subs[j] ensures k == j {
      assert k != key ==> id in h.subs[k];
      assert j != key ==> id in h.subs[j];
      assert h.nextId !in h.chans;
      assert id != h.nextId && key in {k, j} ==> id in Live(h, key);
    }
  }

  lemma CancelValid<T>(h: Core<T>, key: string, id: nat)
    requires Valid(h)
    ensures Valid(DoCancel(h, key, id))
  {
    var h1 := DoCancel(h, key, id);
    if key in h.subs {
      assert forall k :: k in h1.subs ==> k in h.subs && h1.subs[k] == if k == key then h.subs[k] - {id} else h.subs[k];
      if id in h.subs[key] {
        Unlisted(h, h1, key, id);
      } else {
        assert h.subs[key] - {id} == h.subs[key];
        assert h1.subs == h.subs;
      }
    }
  }

  /** Closing a channel that no key lists any more. */
  lemma Unlisted<T>(h: Core<T>, h1: Core<T>, key: string, id: nat)
    requires Valid(h) && key in h.subs && id in h.subs[key]
    requires forall k :: k in h1.subs ==> k in h.subs && h1.subs[k] == if k == key then h.subs[k] - {id} else h.subs[k]
    requires forall k :: k in h1.subs ==> h1.subs[k] != {}
    requires h1.chans == h.chans[id := h.chans[id].(closed := true)] && h1.nextId == h.nextId && !h1.panicked
    ensures Valid(h1)
  {
    forall k, i | k in h1.subs && i in h1.subs[k] ensures i in h1.chans && !h1.chans[i].closed {
      assert i in h.subs[k];
    }
    forall k, j, i | k in h1.subs && j in h1.subs && i in h1.subs[k] && i in h1.subs[j] ensures k == j {
      assert i in h.subs[k] && i in h.subs[j];
    }
  }

  lemma SendValid<T>(h: Core<T>, ids: set<nat>, x: T)
    requires Valid(h) && forall id :: id in ids ==> id in h.chans && !h.chans[id].closed
    ensures Valid(SendAll(h, ids, x))
  {
  }

  lemma StepValid<T>(h: Core<T>, global: bool, op: Op<T>)
    requires Valid(h)
    ensures Valid(Step(h, global, op))
  {
    match op
    case Subscribe(key) => SubscribeValid(h, key);
    case Cancel(key, id) => CancelValid(h, key, id);
    case Send(key, x) => SendValid(h, Targets(h, global, key), x);
    case Receive(id) =>
  }

  /** In every interleaving no channel is closed twice or sent to after it was closed. */
  lemma {:induction false} NeverPanics<T>(h: Core<T>, global: bool, ops: seq<Op<T>>)
    requires Valid(h)
    ensures Valid(Run(h, global, ops))
    decreases |ops|
  {
    if ops != [] {
      StepValid(h, global, ops[0]);
      NeverPanics(Step(h, global, ops[0]), global, ops[1..]);
    }
  }

  // ---------------------------------------------------------------- one subscriber on its own

  predicate Relevant<T>(key: string, global: bool, op: Op<T>) {
    op.Send? && (op.key == key || (global && key == ""))
  }

  /** What one op means to the channel of subscription (key, id), with no hub around it. */
  function SoloStep<T>(c: Channel<T>, key: string, id: nat, global: bool, op: Op<T>): (c1: Channel<T>) {
    if Relevant(key, global, op) && !c.closed then Offer(c, op.item)
    else if op == Cancel(key, id) then c.(closed := true)
    else if op == Receive(id) then Take(c)
    else c
  }

  function Solo<T>(c: Channel<T>, key: string, id: nat, global: bool, ops: seq<Op<T>>): (c1: Channel<T>) {
    if ops == [] then c
    else
      var n := |ops| - 1;
      SoloStep(Solo(c, key, id, global, ops[..n]), key, id, global, ops[n])
  }

  /** The hub's channel `id` is `c`, listed under `key` exactly while open. */
  ghost predicate Tracks<T>(h: Core<T>, key: string, id: nat, c: Channel<T>) {
    && id in h.chans && h.chans[id] == c
    && (id in Live(h, key) <==> !c.closed)
    && forall k :: k in h.subs && id in h.subs[k] ==> k == key
  }

  lemma TracksStep<T>(h: Core<T>, key: string, id: nat, c: Channel<T>, global: bool, op: Op<T>)
    requires Valid(h) && Tracks(h, key, id, c)
    ensures Tracks(Step(h, global, op), key, id, SoloStep(c, key, id, global, op))
  {
    match op
    case Subscribe(k) => TracksSubscribe(h, key, id, c, k);
    case Cancel(k, i) => TracksCancel(h, key, id, c, k, i);
    case Send(k, x) =>
    case Receive(i) =>
  }

  lemma TracksSubscribe<T>(h: Core<T>, key: string, id: nat, c: Channel<T>, k: string)
    requires Valid(h) && Tracks(h, key, id, c)
    ensures Tracks(DoSubscribe(h, k), key, id, c)
  {
  }

  lemma TracksCancel<T>(h: Core<T>, key: string, id: nat, c: Channel<T>, k: string, i: nat)
    requires Valid(h) && Tracks(h, key, id, c)
    ensures Tracks(DoCancel(h, k, i), key, id, if k == key && i == id then c.(closed := true) else c)
  {
    var h1 := DoCancel(h, k, i);
    assert forall j :: j in h1.subs ==> j in h.subs && h1.subs[j] <= h.subs[j];
    if i == id && k != key { assert k in h.subs ==> i !in h.subs[k]; }
    if i == id && k == key && c.closed { assert k in h.subs ==> i !in h.subs[k]; }
  }

  lemma {:induction false} RunSnoc<T>(h: Core<T>, global: bool, ops: seq<Op<T>>, op: Op<T>)
    ensures Run(h, global, ops + [op]) == Step(Run(h, global, ops), global, op)
    decreases |ops|
  {
    if ops == [] {
      assert [op][1..] == [];
    } else {
      assert (ops + [op])[1..] == ops[1..] + [op];
      RunSnoc(Step(h, global, ops[0]), global, ops[1..], op);
    }
  }

  lemma {:induction false} TracksRun<T>(h: Core<T>, key: string, id: nat, c: Channel<T>, global: bool, ops: seq<Op<T>>)
    requires Valid(h) && Tracks(h, key, id, c)
    ensures Tracks(Run(h, global, ops), key, id, Solo(c, key, id, global, ops))
    decreases |ops|
  {
    if ops != [] {
      var n := |ops| - 1;
      TracksRun(h, key, id, c, global, ops[..n]);
      NeverPanics(h, global, ops[..n]);
      assert ops == ops[..n] + [ops[n]];
      RunSnoc(h, global, ops[..n], ops[n]);
      TracksStep(Run(h, global, ops[..n]), key, id, Solo(c, key, id, global, ops[..n]), global, ops[n]);
    }
  }

  /** Other subscriptions, other keys and other receivers make no difference: after `before`, a
      subscription to `key` and `after`, its channel is what it would be on its own. */
  lemma SubscriberOnItsOwn<T>(global: bool, before: seq<Op<T>>, key: string, after: seq<Op<T>>)
    ensures var h := Run(Empty<T>(), global, before);
            var id := h.nextId;
            var h1 := Run(DoSubscribe(h, key), global, after);
            && id in h1.chans
            && h1.chans[id] == Solo(Fresh<T>(), key, id, global, after)
            && (id in Live(h1, key) <==> Cancel(key, id) !in after)
  {
    var h := Run(Empty<T>(), global, before);
    var id, c := h.nextId, Fresh<T>();
    NeverPanics(Empty<T>(), global, before);
    StepValid(h, global, Op<T>.Subscribe(key));
    assert Step(h, global, Op<T>.Subscribe(key)) == DoSubscribe(h, key);
    TracksRun(DoSubscribe(h, key), key, id, c, global, after);
    SoloClosed(c, key, id, global, after);
  }

  lemma {:induction false} SoloClosed<T>(c: Channel<T>, key: string, id: nat, global: bool, ops: seq<Op<T>>)
    ensures Solo(c, key, id, global, ops).closed <==> c.closed || Cancel(key, id) in ops
  {
    if ops != [] {
      var n := |ops| - 1;
      SoloClosed(c, key, id, global, ops[..n]);
      assert ops == ops[..n] + [ops[n]];
    }
  }

  /** Everything the subscriber was given: what it has read, then what waits in its buffer. */
  function Seen<T>(key: string, id: nat, global: bool, ops: seq<Op<T>>): (items: seq<T>) {
    var c := Solo(Fresh<T>(), key, id, global, ops);
    c.taken + c.buf
  }

  /** `at` are positions of sends for this subscriber, in order and without repetition, and the items
      sent there are those it was given. */
  ghost predicate InOrder<T>(at: seq<nat>, key: string, id: nat, global: bool, ops: seq<Op<T>>) {
    var seen := Seen(key, id, global, ops);
    && |at| == |seen|
    && (forall j :: 0 <= j < |at| ==> at[j] < |ops| && Relevant(key, global, ops[at[j]]) && ops[at[j]].item == seen[j])
    && (forall j, k :: 0 <= j < k < |at| ==> at[j] < at[k])
  }

  /** A send is missing from `at` exactly if the subscription was cancelled before it or the buffer was
      full at that moment. */
  ghost predicate DropsOnlyWhenFull<T>(at: seq<nat>, key: string, id: nat, global: bool, ops: seq<Op<T>>) {
    forall i :: 0 <= i < |ops| && Relevant(key, global, ops[i]) ==>
      (i in at <==> Cancel(key, id) !in ops[..i] && |Solo(Fresh<T>(), key, id, global, ops[..i]).buf| < CAPACITY)
  }

  lemma InOrderSnoc<T>(prev: seq<nat>, key: string, id: nat, global: bool, ops: seq<Op<T>>)
    requires ops != [] && InOrder(prev, key, id, global, ops[..|ops| - 1])
    ensures var n := |ops| - 1;
            var hit := Accepts(Solo(Fresh<T>(), key, id, global, ops[..n]), key, global, ops[n]);
            InOrder(if hit then prev + [n] else prev, key, id, global, ops)
  {
    hide Solo, Seen, Accepts, Relevant;
    var n := |ops| - 1;
    var hit := SeenSnoc(key, id, global, ops);
    PositionsSnoc(prev, if hit then prev + [n] else prev, key, global, ops,
                  Seen(key, id, global, ops[..n]), Seen(key, id, global, ops));
  }

  lemma SeenSnoc<T>(key: string, id: nat, global: bool, ops: seq<Op<T>>) returns (hit: bool)
    requires ops != []
    ensures var n := |ops| - 1;
            && hit == Accepts(Solo(Fresh<T>(), key, id, global, ops[..n]), key, global, ops[n])
            && (hit ==>
                  && Relevant(key, global, ops[n])
                  && Seen(key, id, global, ops) == Seen(key, id, global, ops[..n]) + [ops[n].item])
            && (!hit ==> Seen(key, id, global, ops) == Seen(key, id, global, ops[..n]))
  {
    var n := |ops| - 1;
    var s := Solo(Fresh<T>(), key, id, global, ops[..n]);
    hit := Accepts(s, key, global, ops[n]);
    SoloSees(s, key, id, global, ops[n]);
  }

  lemma PositionsSnoc<T>(prev: seq<nat>, at: seq<nat>, key: string, global: bool, ops: seq<Op<T>>,
                         seen0: seq<T>, seen: seq<T>)
    requires ops != [] && |prev| == |seen0|
    requires forall j :: 0 <= j < |prev| ==>
               && prev[j] < |ops| - 1 && Relevant(key, global, ops[..|ops| - 1][prev[j]])
               && ops[..|ops| - 1][prev[j]].item == seen0[j]
    requires forall j, k :: 0 <= j < k < |prev| ==> prev[j] < prev[k]
    requires || (at == prev && seen == seen0)
             || (&& at == prev + [|ops| - 1] && Relevant(key, global, ops[|ops| - 1])
                 && seen == seen0 + [ops[|ops| - 1].item])
    ensures |at| == |seen|
    ensures forall j :: 0 <= j < |at| ==>
              at[j] < |ops| && Relevant(key, global, ops[at[j]]) && ops[at[j]].item == seen[j]
    ensures forall j, k :: 0 <= j < k < |at| ==> at[j] < at[k]
  {
    forall j | 0 <= j < |at| ensures at[j] < |ops| && Relevant(key, global, ops[at[j]]) && ops[at[j]].item == seen[j] {
      if j < |prev| { assert at[j] == prev[j] && ops[..|ops| - 1][prev[j]] == ops[prev[j]]; }
    }
  }

  lemma DropsSnoc<T>(prev: seq<nat>, key: string, id: nat, global: bool, ops: seq<Op<T>>)
    requires ops != [] && DropsOnlyWhenFull(prev, key, id, global, ops[..|ops| - 1])
    requires forall i :: i in prev ==> i < |ops| - 1
    ensures var n := |ops| - 1;
            var hit := Accepts(Solo(Fresh<T>(), key, id, global, ops[..n]), key, global, ops[n]);
            DropsOnlyWhenFull(if hit then prev + [n] else prev, key, id, global, ops)
  {
    var n := |ops| - 1;
    SoloClosed(Fresh<T>(), key, id, global, ops[..n]);
    forall i | 0 <= i < n ensures ops[..n][..i] == ops[..i] && ops[..n][i] == ops[i] {
    }
  }

  /** A subscriber is given an in-order subsequence of the items sent for it since it subscribed, each
      at most once, with drops only when its buffer is full. */
  lemma {:induction false} DeliveredInOrder<T>(key: string, id: nat, global: bool, ops: seq<Op<T>>)
    returns (at: seq<nat>)
    ensures InOrder(at, key, id, global, ops)
    ensures DropsOnlyWhenFull(at, key, id, global, ops)
    decreases |ops|
  {
    if ops == [] {
      at := [];
    } else {
      var n := |ops| - 1;
      var prev := DeliveredInOrder(key, id, global, ops[..n]);
      InOrderSnoc(prev, key, id, global, ops);
      DropsSnoc(prev, key, id, global, ops);
      at := if Accepts(Solo(Fresh<T>(), key, id, global, ops[..n]), key, global, ops[n]) then prev + [n] else prev;
    }
  }

  predicate Accepts<T>(c: Channel<T>, key: string, global: bool, op: Op<T>) {
    Relevant(key, global, op) && !c.closed && |c.buf| < CAPACITY
  }

  lemma SoloSees<T>(c: Channel<T>, key: string, id: nat, global: bool, op: Op<T>)
    ensures var c1 := SoloStep(c, key, id, global, op);
            c1.taken + c1.buf == if Accepts(c, key, global, op) then c.taken + c.buf + [op.item] else c.taken + c.buf
  {
  }

  /** The items sent at the positions `at`, in that order, are what the receiver of channel `id` has read
      and what still waits for it. */
  ghost predicate DeliveredAt<T>(at: seq<nat>, h: Core<T>, key: string, id: nat, global: bool, ops: seq<Op<T>>) {
    var h1 := Run(h, global, ops);
    && id in h1.chans
    && |at| == |h1.chans[id].taken + h1.chans[id].buf|
    && (forall j :: 0 <= j < |at| ==>
          && at[j] < |ops| && Relevant(key, global, ops[at[j]])
          && ops[at[j]].item == (h1.chans[id].taken + h1.chans[id].buf)[j])
    && (forall j, k :: 0 <= j < k < |at| ==> at[j] < at[k])
  }

  /** At that moment the hub lists the channel and its buffer has room. */
  ghost predicate CanTake<T>(h: Core<T>, key: string, id: nat) {
    id in h.chans && key in h.subs && id in h.subs[key] && |h.chans[id].buf| < 8
  }

  lemma OwnCanTake<T>(h: Core<T>, key: string, id: nat, global: bool, ops: seq<Op<T>>, at: seq<nat>, i: nat)
    requires i < |ops| && Relevant(key, global, ops[i]) && DropsOnlyWhenFull(at, key, id, global, ops)
    requires id in h.chans && h.chans[id] == Solo(Fresh<T>(), key, id, global, ops[..i])
    requires id in Live(h, key) <==> Cancel(key, id) !in ops[..i]
    ensures i in at <==> CanTake(h, key, id)
  {
    hide Solo, Relevant;
  }

  lemma OwnDelivered<T>(h: Core<T>, key: string, id: nat, global: bool, ops: seq<Op<T>>, at: seq<nat>)
    requires InOrder(at, key, id, global, ops)
    requires id in Run(h, global, ops).chans && Run(h, global, ops).chans[id] == Solo(Fresh<T>(), key, id, global, ops)
    ensures DeliveredAt(at, h, key, id, global, ops)
  {
    hide Solo, Run, Relevant;
  }

  /** The same of the hub's own channel, whatever else goes on: after `before`, a subscription to `key` and
      `after`, its receiver was given the items sent at `at`, and a send for it is in `at` exactly if at
      that moment the hub listed the channel and its buffer had room. */
  lemma HubDelivers<T>(global: bool, before: seq<Op<T>>, key: string, after: seq<Op<T>>) returns (at: seq<nat>)
    ensures var id := Run(Empty<T>(), global, before).nextId;
            var h := DoSubscribe(Run(Empty<T>(), global, before), key);
            && DeliveredAt(at, h, key, id, global, after)
            && forall i :: 0 <= i < |after| && Relevant(key, global, after[i]) ==>
                 (i in at <==> CanTake(Run(h, global, after[..i]), key, id))
  {
    hide *;
    var id := Run(Empty<T>(), global, before).nextId;
    var h := DoSubscribe(Run(Empty<T>(), global, before), key);
    at := DeliveredInOrder(key, id, global, after);
    SubscriberOnItsOwn(global, before, key, after);
    OwnDelivered(h, key, id, global, after, at);
    forall i | 0 <= i < |after| && Relevant(key, global, after[i])
      ensures i in at <==> CanTake(Run(h, global, after[..i]), key, id)
    {
      SubscriberOnItsOwn(global, before, key, after[..i]);
      OwnCanTake(Run(h, global, after[..i]), key, id, global, after, at, i);
    }
  }

  // ---------------------------------------------------------------- reading

  /** A read takes the oldest waiting item, and nothing else changes. */
  lemma ReadTakesOldest<T>(h: Core<T>, global: bool, id: nat)
    requires id in h.chans
    ensures var c, h1 := h.chans[id], Step(h, global, Op<T>.Receive(id));
            && h1.nextId == h.nextId && h1.subs == h.subs && h1.panicked == h.panicked
            && h1.chans.Keys == h.chans.Keys
            && (forall i :: i in h.chans && i != id ==> h1.chans[i] == h.chans[i])
            && h1.chans[id].closed == c.closed
            && (c.buf == [] ==> h1.chans[id] == c)
            && (c.buf != [] ==> h1.chans[id].taken == c.taken + [c.buf[0]] && [c.buf[0]] + h1.chans[id].buf == c.buf)
  {
  }

  function Reads<T>(id: nat, n: nat): (ops: seq<Op<T>>) {
    seq(n, _ => Receive(id))
  }

  /** However often it was sent to, and also after it was cancelled, a receiver that reads on gets everything
      that waits for it, in order, and then nothing more. */
  lemma {:induction false} ReadingOnGetsAll<T>(h: Core<T>, global: bool, id: nat, n: nat)
    requires id in h.chans && n >= |h.chans[id].buf|
    ensures var c, h1 := h.chans[id], Run(h, global, Reads<T>(id, n));
            id in h1.chans && h1.chans[id].taken == c.taken + c.buf && h1.chans[id].buf == []
    decreases n
  {
    var c := h.chans[id];
    if n > 0 {
      var h1 := Step(h, global, Op<T>.Receive(id));
      ReadTakesOldest(h, global, id);
      assert Reads<T>(id, n)[1..] == Reads<T>(id, n - 1) && Reads<T>(id, n)[0] == Receive(id);
      ReadingOnGetsAll(h1, global, id, n - 1);
    } else {
      assert c.taken + c.buf == c.taken;
    }
  }
}
