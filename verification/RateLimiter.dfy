// The per-client token bucket with its idle-entry sweep (internal/web/ratelimit.go).
// Time is in nanoseconds, tokens are reals.
module RateLimiter {
  import opened Prelude

  const SECOND: int := 1_000_000_000
  const FIVE_MINUTES: int := 300 * SECOND
  const TEN_MINUTES: int := 600 * SECOND

  datatype Config = Config(rate: real, burst: int)
  datatype Entry = Entry(tokens: real, lastCheck: int)
  datatype Limiter = Limiter(clients: map<string, Entry>, lastSweep: int)
  datatype Request = Request(client: string, at: int)

  /** Tokens earned between two instants. */
  function Gain(cfg: Config, from: int, to: int): (tokens: real) {
    (to - from) as real / 1_000_000_000.0 * cfg.rate
  }

  function Refilled(cfg: Config, e: Entry, now: int): (tokens: real) {
    var t := e.tokens + Gain(cfg, e.lastCheck, now);
    if t > cfg.burst as real then cfg.burst as real else t
  }

  // ---------------------------------------------------------------- the limiter

  function Fresh(start: int): (l: Limiter) {
    Limiter(map[], start)
  }

  function Sweep(l: Limiter, now: int): (l1: Limiter) {
    if now - l.lastSweep > FIVE_MINUTES then
      Limiter(map k | k in l.clients && !(l.clients[k].lastCheck < now - TEN_MINUTES) :: l.clients[k], now)
    else l
  }

  function Admit(cfg: Config, l: Limiter, client: string, now: int): (r: (Limiter, bool)) {
    var s := Sweep(l, now);
    if client !in s.clients then
      (s.(clients := s.clients[client := Entry(cfg.burst as real - 1.0, now)]), true)
    else
      var t := Refilled(cfg, s.clients[client], now);
      if t < 1.0 then (s.(clients := s.clients[client := Entry(t, now)]), false)
      else (s.(clients := s.clients[client := Entry(t - 1.0, now)]), true)
  }

  function Run(cfg: Config, l: Limiter, reqs: seq<Request>): (r: (Limiter, seq<bool>))
    ensures |r.1| == |reqs|
    decreases |reqs|
  {
    if reqs == [] then (l, [])
    else
      var (l1, ok) := Admit(cfg, l, reqs[0].client, reqs[0].at);
      var (l2, rest) := Run(cfg, l1, reqs[1..]);
      (l2, [ok] + rest)
  }

  class RateLimiter {
    const cfg: Config
    var clients: map<string, Entry>
    var lastSweep: int

    constructor (cfg: Config, now: int)
      ensures this.cfg == cfg && View() == Fresh(now)
    {
      this.cfg, this.clients, this.lastSweep := cfg, map[], now;
    }

    ghost function View(): (view: Limiter)
      reads this
    {
      Limiter(clients, lastSweep)
    }

    method Allow(client: string, now: int) returns (ok: bool)
      modifies this
      ensures (View(), ok) == Admit(cfg, old(View()), client, now)
    {
      if now - lastSweep > FIVE_MINUTES {
        var todo := clients.Keys;
        while todo != {}
          invariant todo <= clients.Keys
          invariant lastSweep == old(lastSweep)
          invariant clients ==
                    map k | k in old(clients) && (k in todo || !(old(clients)[k].lastCheck < now - TEN_MINUTES)) ::
                      old(clients)[k]
        {
          var k :| k in todo;
          todo := todo - {k};
          if clients[k].lastCheck < now - TEN_MINUTES { clients := clients - {k}; }
        }
        lastSweep := now;
      }
      assert View() == Sweep(old(View()), now);
      if client !in clients {
        clients := clients[client := Entry(cfg.burst as real - 1.0, now)];
        return true;
      }
      var e := clients[client];
      var tokens := e.tokens + (now - e.lastCheck) as real / 1_000_000_000.0 * cfg.rate;
      if tokens > cfg.burst as real { tokens := cfg.burst as real; }
      assert tokens == Refilled(cfg, e, now);
      ghost var swept := clients;
      clients := clients[client := Entry(tokens, now)];
      if tokens < 1.0 { return false; }
      clients := clients[client := Entry(tokens - 1.0, now)];
      assert clients == swept[client := Entry(tokens - 1.0, now)];
      return true;
    }
  }

  // ---------------------------------------------------------------- the plain bucket

  /** One client's bucket: full when it has no entry, never swept. */
  function BucketAdmit(cfg: Config, b: Option<Entry>, now: int): (r: (Entry, bool)) {
    var t := if b.None? then cfg.burst as real else Refilled(cfg, b.value, now);
    if t < 1.0 then (Entry(t, now), false) else (Entry(t - 1.0, now), true)
  }

  function BucketRun(cfg: Config, b: Option<Entry>, times: seq<int>): (r: seq<bool>)
    ensures |r| == |times|
    decreases |times|
  {
    if times == [] then []
    else
      var (e, ok) := BucketAdmit(cfg, b, times[0]);
      [ok] + BucketRun(cfg, Some(e), times[1..])
  }

  ghost predicate Ordered(from: int, reqs: seq<Request>)
    decreases |reqs|
  {
    reqs != [] ==> from <= reqs[0].at && Ordered(reqs[0].at, reqs[1..])
  }

  ghost predicate OrderedTimes(from: int, times: seq<int>)
    decreases |times|
  {
    times != [] ==> from <= times[0] && OrderedTimes(times[0], times[1..])
  }

  /** The instants of one client's requests, and the answers it got. */
  function Times(reqs: seq<Request>, c: string): (times: seq<int>) {
    if reqs == [] then []
    else (if reqs[0].client == c then [reqs[0].at] else []) + Times(reqs[1..], c)
  }

  function Answers(reqs: seq<Request>, oks: seq<bool>, c: string): (answers: seq<bool>)
    requires |oks| == |reqs|
  {
    if reqs == [] then []
    else (if reqs[0].client == c then [oks[0]] else []) + Answers(reqs[1..], oks[1..], c)
  }

  // ---------------------------------------------------------------- arithmetic

  lemma Scale(a: real, b: real, r: real)
    requires 0.0 <= r && a <= b
    ensures a * r <= b * r
  {
  }

  lemma GainSplits(cfg: Config, a: int, b: int, c: int)
    ensures Gain(cfg, a, b) + Gain(cfg, b, c) == Gain(cfg, a, c)
  {
    var x, y := (b - a) as real / 1_000_000_000.0, (c - b) as real / 1_000_000_000.0;
    assert x * cfg.rate + y * cfg.rate == (x + y) * cfg.rate;
  }

  lemma GainGrows(cfg: Config, a: int, b: int, x: int, y: int)
    requires 0.0 <= cfg.rate && b - a <= y - x
    ensures Gain(cfg, a, b) <= Gain(cfg, x, y)
    ensures a <= b ==> 0.0 <= Gain(cfg, a, b)
  {
    Scale((b - a) as real / 1_000_000_000.0, (y - x) as real / 1_000_000_000.0, cfg.rate);
    if a <= b { Scale(0.0, (b - a) as real / 1_000_000_000.0, cfg.rate); }
  }

  // ---------------------------------------------------------------- the sweep is invisible

  /** A bucket idle for long enough to be swept is full again. */
  ghost predicate SweepsOnlyFullBuckets(cfg: Config) {
    cfg.burst as real <= Gain(cfg, 0, TEN_MINUTES + 1)
  }

  ghost predicate Simulates(cfg: Config, l: Limiter, c: string, b: Option<Entry>, now: int) {
    match b
    case None => c !in l.clients
    case Some(e) =>
      && 0.0 <= e.tokens <= cfg.burst as real && e.lastCheck <= now
      && if c in l.clients then l.clients[c] == e
         else cfg.burst as real <= e.tokens + Gain(cfg, e.lastCheck, now)
  }

  lemma SimulatesStep(cfg: Config, l: Limiter, c: string, b: Option<Entry>, from: int, r: Request)
    requires cfg.burst >= 1 && cfg.rate >= 0.0 && SweepsOnlyFullBuckets(cfg)
    requires Simulates(cfg, l, c, b, from) && from <= r.at
    ensures var (l1, ok) := Admit(cfg, l, r.client, r.at);
            if r.client == c then
              var (e, okB) := BucketAdmit(cfg, b, r.at);
              ok == okB && Simulates(cfg, l1, c, Some(e), r.at)
            else Simulates(cfg, l1, c, b, r.at)
  {
    if b.Some? {
      var e := b.value;
      GainSplits(cfg, e.lastCheck, from, r.at);
      GainGrows(cfg, from, r.at, from, r.at);
      GainGrows(cfg, e.lastCheck, r.at, e.lastCheck, r.at);
      var s := Sweep(l, r.at);
      if c in l.clients && c !in s.clients {
        GainGrows(cfg, 0, TEN_MINUTES + 1, e.lastCheck, r.at);
      }
      assert Simulates(cfg, s, c, b, r.at);
    }
  }

  lemma {:induction false} SimulatesRun(cfg: Config, l: Limiter, c: string, b: Option<Entry>, from: int,
                                        reqs: seq<Request>)
    requires cfg.burst >= 1 && cfg.rate >= 0.0 && SweepsOnlyFullBuckets(cfg)
    requires Simulates(cfg, l, c, b, from) && Ordered(from, reqs)
    ensures Answers(reqs, Run(cfg, l, reqs).1, c) == BucketRun(cfg, b, Times(reqs, c))
    decreases |reqs|
  {
    if reqs != [] {
      var r := reqs[0];
      var (l1, ok) := Admit(cfg, l, r.client, r.at);
      SimulatesStep(cfg, l, c, b, from, r);
      assert Run(cfg, l, reqs).1[1..] == Run(cfg, l1, reqs[1..]).1;
      if r.client == c {
        var e := BucketAdmit(cfg, b, r.at).0;
        SimulatesRun(cfg, l1, c, Some(e), r.at, reqs[1..]);
        assert Times(reqs, c)[1..] == Times(reqs[1..], c);
      } else {
        SimulatesRun(cfg, l1, c, b, r.at, reqs[1..]);
        assert Times(reqs, c) == Times(reqs[1..], c);
        assert Answers(reqs, Run(cfg, l, reqs).1, c) == Answers(reqs[1..], Run(cfg, l1, reqs[1..]).1, c);
      }
    }
  }

  /** Client c is answered as by a bucket of its own that sees only c's requests. */
  ghost predicate LikeOwnBucket(cfg: Config, start: int, reqs: seq<Request>, c: string) {
    Answers(reqs, Run(cfg, Fresh(start), reqs).1, c) == BucketRun(cfg, None, Times(reqs, c))
  }

  // ---------------------------------------------------------------- a run that shows the sweep

  function Same(c: string, at: int, n: nat): (reqs: seq<Request>) {
    if n == 0 then [] else [Request(c, at)] + Same(c, at, n - 1)
  }

  function Repeat<T>(x: T, n: nat): (xs: seq<T>) {
    if n == 0 then [] else [x] + Repeat(x, n - 1)
  }

  lemma TimesCons(r: Request, rest: seq<Request>, c: string)
    ensures Times([r] + rest, c) == (if r.client == c then [r.at] else []) + Times(rest, c)
  {
    assert ([r] + rest)[1..] == rest;
  }

  lemma AnswersCons(r: Request, ok: bool, rest: seq<Request>, oks: seq<bool>, c: string)
    requires |oks| == |rest|
    ensures Answers([r] + rest, [ok] + oks, c) == (if r.client == c then [ok] else []) + Answers(rest, oks, c)
  {
    assert ([r] + rest)[1..] == rest && ([ok] + oks)[1..] == oks;
  }

  lemma RunCons(cfg: Config, l: Limiter, r: Request, rest: seq<Request>)
    ensures var (l1, ok) := Admit(cfg, l, r.client, r.at);
            var (l2, oks) := Run(cfg, l1, rest);
            Run(cfg, l, [r] + rest) == (l2, [ok] + oks)
  {
    assert ([r] + rest)[1..] == rest;
  }

  lemma Unfold(c: string, at: int, n: nat, rest: seq<Request>)
    requires n > 0
    ensures Same(c, at, n) + rest == [Request(c, at)] + (Same(c, at, n - 1) + rest)
  {
  }

  lemma UnfoldRepeat<T>(x: T, n: nat, rest: seq<T>)
    requires n > 0
    ensures Repeat(x, n) + rest == [x] + (Repeat(x, n - 1) + rest)
  {
  }

  lemma NoneLeft<T>(c: string, at: int, rest: seq<Request>, x: T, xs: seq<T>)
    ensures Same(c, at, 0) + rest == rest && Repeat(x, 0) + xs == xs
  {
  }

  lemma {:induction false} SameLength(c: string, at: int, n: nat)
    ensures |Same(c, at, n)| == n
  {
    if n > 0 { SameLength(c, at, n - 1); }
  }

  lemma {:induction false} SameTimes(c: string, at: int, n: nat, rest: seq<Request>)
    ensures Times(Same(c, at, n) + rest, c) == Repeat(at, n) + Times(rest, c)
  {
    hide Times, Same, Repeat;
    if n == 0 {
      NoneLeft(c, at, rest, at, Times(rest, c));
    } else {
      SameTimes(c, at, n - 1, rest);
      Unfold(c, at, n, rest);
      UnfoldRepeat(at, n, Times(rest, c));
      TimesCons(Request(c, at), Same(c, at, n - 1) + rest, c);
    }
  }

  lemma {:induction false} SameAnswers(c: string, at: int, n: nat, rest: seq<Request>, oks: seq<bool>)
    requires |oks| == |rest|
    ensures |Same(c, at, n)| == n && |Repeat(true, n)| == n
    ensures Answers(Same(c, at, n) + rest, Repeat(true, n) + oks, c) == Repeat(true, n) + Answers(rest, oks, c)
  {
    SameLength(c, at, n);
    RepeatLength(true, n);
    hide Answers, Same, Repeat;
    if n == 0 {
      NoneLeft(c, at, rest, true, oks);
      NoneLeft(c, at, rest, true, Answers(rest, oks, c));
    } else {
      SameAnswers(c, at, n - 1, rest, oks);
      Unfold(c, at, n, rest);
      UnfoldRepeat(true, n, oks);
      UnfoldRepeat(true, n, Answers(rest, oks, c));
      AnswersCons(Request(c, at), true, Same(c, at, n - 1) + rest, Repeat(true, n - 1) + oks, c);
    }
  }

  lemma AdmitFromEntry(cfg: Config, l: Limiter, c: string, at: int)
    requires c in l.clients && l.clients[c].lastCheck == at && at == l.lastSweep
    requires 1.0 <= l.clients[c].tokens <= cfg.burst as real
    ensures Admit(cfg, l, c, at) == (l.(clients := l.clients[c := Entry(l.clients[c].tokens - 1.0, at)]), true)
  {
  }

  /** Requests at one instant drain an entry that is already in place. */
  lemma {:induction false} DrainEntry(cfg: Config, l: Limiter, c: string, at: int, n: nat, rest: seq<Request>)
    requires c in l.clients && l.clients[c].lastCheck == at
    requires n as real <= l.clients[c].tokens <= cfg.burst as real && at == l.lastSweep
    ensures var l1 := l.(clients := l.clients[c := Entry(l.clients[c].tokens - n as real, at)]);
            var (end, oks) := Run(cfg, l1, rest);
            Run(cfg, l, Same(c, at, n) + rest) == (end, Repeat(true, n) + oks)
    decreases n
  {
    hide Run, Admit, Same, Repeat;
    var left := l.clients[c := Entry(l.clients[c].tokens - n as real, at)];
    var oks := Run(cfg, l.(clients := left), rest).1;
    if n == 0 {
      assert left == l.clients;
      NoneLeft(c, at, rest, true, oks);
    } else {
      AdmitFromEntry(cfg, l, c, at);
      var l1 := Admit(cfg, l, c, at).0;
      Unfold(c, at, n, rest);
      UnfoldRepeat(true, n, oks);
      RunCons(cfg, l, Request(c, at), Same(c, at, n - 1) + rest);
      DrainEntry(cfg, l1, c, at, n - 1, rest);
      assert l1.clients[c := Entry(l.clients[c].tokens - n as real, at)] == left;
    }
  }

  lemma AdmitIntoEmpty(cfg: Config, l: Limiter, c: string, at: int)
    requires Sweep(l, at) == Limiter(map[], at)
    ensures Admit(cfg, l, c, at) == (Limiter(map[c := Entry(cfg.burst as real - 1.0, at)], at), true)
  {
  }

  lemma DrainFull(cfg: Config, l: Limiter, c: string, at: int, rest: seq<Request>)
    requires cfg.burst >= 1
    requires Sweep(l, at) == Limiter(map[], at)
    ensures var (end, oks) := Run(cfg, Limiter(map[c := Entry(0.0, at)], at), rest);
            Run(cfg, l, Same(c, at, cfg.burst) + rest) == (end, Repeat(true, cfg.burst) + oks)
  {
    var n := cfg.burst - 1;
    var l1 := Limiter(map[c := Entry(n as real, at)], at);
    AdmitIntoEmpty(cfg, l, c, at);
    hide Run, Admit, Sweep, Same, Repeat;
    Unfold(c, at, n + 1, rest);
    UnfoldRepeat(true, n + 1, Run(cfg, Limiter(map[c := Entry(0.0, at)], at), rest).1);
    RunCons(cfg, l, Request(c, at), Same(c, at, n) + rest);
    DrainEntry(cfg, l1, c, at, n, rest);
    assert l1.clients[c := Entry(0.0, at)] == map[c := Entry(0.0, at)];
  }

  lemma {:induction false} SameOrdered(c: string, at: int, n: nat, rest: seq<Request>, from: int)
    requires from <= at && Ordered(at, rest)
    ensures Ordered(from, Same(c, at, n) + rest)
    decreases n
  {
    if n == 0 {
      assert Same(c, at, 0) + rest == rest;
    } else {
      Unfold(c, at, n, rest);
      var tail := Same(c, at, n - 1) + rest;
      assert ([Request(c, at)] + tail)[1..] == tail;
      SameOrdered(c, at, n - 1, rest, at);
    }
  }

  // ---------------------------------------------------------------- admission bound

  /** Requests admitted in [s, t]. */
  function Admitted(times: seq<int>, oks: seq<bool>, s: int, t: int): (n: nat)
    requires |oks| == |times|
  {
    if times == [] then 0
    else (if s <= times[0] <= t && oks[0] then 1 else 0) + Admitted(times[1..], oks[1..], s, t)
  }

  lemma {:induction false} NoneAfter(times: seq<int>, oks: seq<bool>, s: int, t: int)
    requires |oks| == |times| && OrderedTimes(t + 1, times)
    ensures Admitted(times, oks, s, t) == 0
    decreases |times|
  {
    if times != [] {
      OrderedWeaken(times[0], t + 1, times[1..]);
      NoneAfter(times[1..], oks[1..], s, t);
    }
  }

  lemma OrderedWeaken(from: int, less: int, times: seq<int>)
    requires OrderedTimes(from, times) && less <= from
    ensures OrderedTimes(less, times)
  {
  }

  /** From an entry inside the interval, no more is admitted than it holds and can still earn. */
  lemma {:induction false} BoundFromEntry(cfg: Config, e: Entry, times: seq<int>, s: int, t: int)
    requires cfg.rate >= 0.0 && cfg.burst >= 0 && 0.0 <= e.tokens <= cfg.burst as real
    requires s <= e.lastCheck <= t && OrderedTimes(e.lastCheck, times)
    ensures Admitted(times, BucketRun(cfg, Some(e), times), s, t) as real <= e.tokens + Gain(cfg, e.lastCheck, t)
    decreases |times|
  {
    GainGrows(cfg, e.lastCheck, t, e.lastCheck, t);
    if times != [] {
      var v := times[0];
      var (e1, ok) := BucketAdmit(cfg, Some(e), v);
      var oks := BucketRun(cfg, Some(e), times);
      assert oks[1..] == BucketRun(cfg, Some(e1), times[1..]);
      if v > t {
        NoneAfter(times, oks, s, t);
      } else {
        GainSplits(cfg, e.lastCheck, v, t);
        GainGrows(cfg, e.lastCheck, v, e.lastCheck, v);
        BoundFromEntry(cfg, e1, times[1..], s, t);
      }
    }
  }

  lemma {:induction false} BucketBound(cfg: Config, b: Option<Entry>, from: int, times: seq<int>, s: int, t: int)
    requires cfg.rate >= 0.0 && cfg.burst >= 1
    requires b.Some? ==> 0.0 <= b.value.tokens <= cfg.burst as real && b.value.lastCheck <= from
    requires OrderedTimes(from, times) && s <= t
    ensures Admitted(times, BucketRun(cfg, b, times), s, t) as real <= cfg.burst as real + Gain(cfg, s, t)
    decreases |times|
  {
    GainGrows(cfg, s, t, s, t);
    if times != [] {
      var v := times[0];
      var (e, ok) := BucketAdmit(cfg, b, v);
      var oks := BucketRun(cfg, b, times);
      assert oks[1..] == BucketRun(cfg, Some(e), times[1..]);
      if b.Some? { GainGrows(cfg, b.value.lastCheck, v, b.value.lastCheck, v); }
      if v > t {
        NoneAfter(times, oks, s, t);
      } else if v < s {
        BucketBound(cfg, Some(e), v, times[1..], s, t);
      } else {
        BoundFromEntry(cfg, e, times[1..], s, t);
        GainGrows(cfg, v, t, s, t);
      }
    }
  }

  /** Draining a full bucket at time 0 leaves Entry(0, 0). */
  lemma {:induction false} DrainBucket(cfg: Config, x: nat, rest: seq<int>)
    requires x <= cfg.burst
    ensures BucketRun(cfg, Some(Entry(x as real, 0)), Repeat(0, x) + rest) ==
            Repeat(true, x) + BucketRun(cfg, Some(Entry(0.0, 0)), rest)
    decreases x
  {
    if x == 0 {
      assert [] + rest == rest;
    } else {
      assert (Repeat(0, x) + rest)[1..] == Repeat(0, x - 1) + rest;
      assert BucketAdmit(cfg, Some(Entry(x as real, 0)), 0) == (Entry((x - 1) as real, 0), true);
      DrainBucket(cfg, x - 1, rest);
      assert [true] + (Repeat(true, x - 1) + BucketRun(cfg, Some(Entry(0.0, 0)), rest))
          == Repeat(true, x) + BucketRun(cfg, Some(Entry(0.0, 0)), rest);
    }
  }

  lemma BucketDrained(cfg: Config, n: nat, late: int)
    requires n == cfg.burst >= 1
    ensures |Repeat(0, n)| == |Repeat(true, n)| == n
    ensures BucketRun(cfg, None, Repeat(0, n) + Repeat(late, n))[n..] ==
            BucketRun(cfg, Some(Entry(0.0, 0)), Repeat(late, n))
  {
    var rest := Repeat(late, n);
    assert (Repeat(0, n) + rest)[1..] == Repeat(0, n - 1) + rest;
    assert BucketAdmit(cfg, None, 0) == (Entry((n - 1) as real, 0), true);
    DrainBucket(cfg, n - 1, rest);
    RepeatLength(0, n - 1);
    RepeatLength(true, n - 1);
    var tail := BucketRun(cfg, Some(Entry(0.0, 0)), rest);
    assert BucketRun(cfg, None, Repeat(0, n) + rest) == [true] + (Repeat(true, n - 1) + tail);
  }

  lemma {:induction false} RepeatLength<T>(x: T, n: nat)
    ensures |Repeat(x, n)| == n
  {
    if n > 0 { RepeatLength(x, n - 1); }
  }

  lemma {:induction false} CountAll(t: int, n: nat)
    requires t >= 0
    ensures |Repeat(t, n)| == |Repeat(true, n)| == n
    ensures Admitted(Repeat(t, n), Repeat(true, n), 0, t) == n
    ensures OrderedTimes(0, Repeat(t, n))
    ensures OrderedTimes(t, Repeat(t, n))
  {
    if n > 0 {
      CountAll(t, n - 1);
      assert Repeat(t, n)[1..] == Repeat(t, n - 1) && Repeat(true, n)[1..] == Repeat(true, n - 1);
    }
  }

  // ---------------------------------------------------------------- main results

  /** When sweeping only meets full buckets, no client can tell the limiter from a bucket of its own. */
  lemma SweepInvisible(cfg: Config, start: int, reqs: seq<Request>, c: string)
    requires cfg.burst >= 1 && cfg.rate >= 0.0 && SweepsOnlyFullBuckets(cfg)
    requires Ordered(start, reqs)
    ensures LikeOwnBucket(cfg, start, reqs, c)
  {
    SimulatesRun(cfg, Fresh(start), c, None, start, reqs);
  }

  /** Drain the bucket, wait just over ten minutes, drain again: the sweep in between lets everything in. */
  lemma TwoDrains(cfg: Config, c: string) returns (reqs: seq<Request>)
    requires cfg.burst >= 1
    ensures var n, late := cfg.burst, TEN_MINUTES + 1;
            && Ordered(0, reqs)
            && Times(reqs, c) == Repeat(0, n) + Repeat(late, n)
            && Answers(reqs, Run(cfg, Fresh(0), reqs).1, c) == Repeat(true, n) + Repeat(true, n)
  {
    var n, late := cfg.burst, TEN_MINUTES + 1;
    var second := Same(c, late, n);
    reqs := Same(c, 0, n) + second;
    assert second + [] == second;
    SameOrdered(c, late, n, [], 0);
    SameOrdered(c, 0, n, second, 0);
    var drained := Limiter(map[c := Entry(0.0, 0)], 0);
    DrainFull(cfg, Fresh(0), c, 0, second);
    assert Sweep(drained, late).clients == map[];
    DrainFull(cfg, drained, c, late, []);
    assert Repeat(true, n) + [] == Repeat(true, n);
    SameTimes(c, late, n, []);
    SameAnswers(c, late, n, [], []);
    SameTimes(c, 0, n, second);
    SameAnswers(c, 0, n, second, Repeat(true, n));
  }

  /** Otherwise that run tells them apart. */
  lemma SweepVisible(cfg: Config, c: string) returns (reqs: seq<Request>)
    requires cfg.burst >= 1 && cfg.rate >= 0.0 && !SweepsOnlyFullBuckets(cfg)
    ensures Ordered(0, reqs) && !LikeOwnBucket(cfg, 0, reqs, c)
  {
    hide Ordered, Times, Answers, Run, Repeat;
    var n, late := cfg.burst, TEN_MINUTES + 1;
    reqs := TwoDrains(cfg, c);
    if LikeOwnBucket(cfg, 0, reqs, c) {
      BucketDrained(cfg, n, late);
      CountAll(late, n);
      assert (Repeat(true, n) + Repeat(true, n))[n..] == Repeat(true, n);
      BoundFromEntry(cfg, Entry(0.0, 0), Repeat(late, n), 0, late);
    }
  }

  /** The condition is exact. */
  lemma SweepInvisibleIff(cfg: Config)
    requires cfg.burst >= 1 && cfg.rate >= 0.0
    ensures (forall start, reqs, c :: Ordered(start, reqs) ==> LikeOwnBucket(cfg, start, reqs, c))
            <==> SweepsOnlyFullBuckets(cfg)
  {
    if SweepsOnlyFullBuckets(cfg) {
      forall start, reqs, c | Ordered(start, reqs) ensures LikeOwnBucket(cfg, start, reqs, c) {
        SweepInvisible(cfg, start, reqs, c);
      }
    } else {
      var reqs := SweepVisible(cfg, "client");
    }
  }

  /** `burst <= 600 * rate` is enough for it. */
  lemma TenMinutesRefill(cfg: Config)
    requires cfg.rate >= 0.0 && cfg.burst as real <= 600.0 * cfg.rate
    ensures SweepsOnlyFullBuckets(cfg)
  {
    Scale(600.0, (TEN_MINUTES + 1) as real / 1_000_000_000.0, cfg.rate);
  }

  lemma {:induction false} TimesOrdered(from: int, reqs: seq<Request>, c: string)
    requires Ordered(from, reqs)
    ensures OrderedTimes(from, Times(reqs, c))
    decreases |reqs|
  {
    if reqs != [] {
      TimesOrdered(reqs[0].at, reqs[1..], c);
      var rest := Times(reqs[1..], c);
      if reqs[0].client == c {
        assert Times(reqs, c)[1..] == rest;
      } else {
        assert Times(reqs, c) == rest;
        OrderedWeaken(reqs[0].at, from, rest);
      }
    }
  }

  /** In [s, t] client c is admitted at most burst + rate * (t - s) times. */
  ghost predicate Bounded(cfg: Config, start: int, reqs: seq<Request>, c: string, s: int, t: int) {
    var oks := Answers(reqs, Run(cfg, Fresh(start), reqs).1, c);
    && |oks| == |Times(reqs, c)|
    && Admitted(Times(reqs, c), oks, s, t) as real <= cfg.burst as real + Gain(cfg, s, t)
  }

  lemma AdmissionBound(cfg: Config, start: int, reqs: seq<Request>, c: string, s: int, t: int)
    requires cfg.burst >= 1 && cfg.rate >= 0.0 && SweepsOnlyFullBuckets(cfg)
    requires Ordered(start, reqs) && s <= t
    ensures Bounded(cfg, start, reqs, c, s, t)
  {
    SweepInvisible(cfg, start, reqs, c);
    TimesOrdered(start, reqs, c);
    BucketBound(cfg, None, start, Times(reqs, c), s, t);
  }

  lemma {:induction false} AdmittedAppend(a: seq<int>, oksA: seq<bool>, b: seq<int>, oksB: seq<bool>, s: int, t: int)
    requires |a| == |oksA| && |b| == |oksB|
    ensures Admitted(a + b, oksA + oksB, s, t) == Admitted(a, oksA, s, t) + Admitted(b, oksB, s, t)
    decreases |a|
  {
    if a == [] {
      assert a + b == b && oksA + oksB == oksB;
    } else {
      AdmittedAppend(a[1..], oksA[1..], b, oksB, s, t);
      assert (a + b)[1..] == a[1..] + b && (oksA + oksB)[1..] == oksA[1..] + oksB;
    }
  }

  /** Without the condition the two drains admit 2 * burst requests in just over ten minutes. */
  lemma BoundBroken(cfg: Config, c: string) returns (reqs: seq<Request>)
    requires cfg.burst >= 1 && cfg.rate >= 0.0 && !SweepsOnlyFullBuckets(cfg)
    ensures Ordered(0, reqs) && !Bounded(cfg, 0, reqs, c, 0, TEN_MINUTES + 1)
  {
    var n, late := cfg.burst, TEN_MINUTES + 1;
    CountAll(late, n);
    CountEarly(late, n);
    AdmittedAppend(Repeat(0, n), Repeat(true, n), Repeat(late, n), Repeat(true, n), 0, late);
    hide Ordered, Times, Answers, Run, Repeat, Admitted;
    reqs := TwoDrains(cfg, c);
  }

  lemma {:induction false} CountEarly(t: int, n: nat)
    requires t >= 0
    ensures |Repeat(0, n)| == |Repeat(true, n)| == n && Admitted(Repeat(0, n), Repeat(true, n), 0, t) == n
  {
    if n > 0 {
      CountEarly(t, n - 1);
      assert Repeat(0, n)[1..] == Repeat(0, n - 1) && Repeat(true, n)[1..] == Repeat(true, n - 1);
    }
  }

  /** In every run and every interval a client is admitted at most burst + rate * (t - s) times, exactly
      if sweeping only meets full buckets. */
  lemma AdmissionBoundIff(cfg: Config)
    requires cfg.burst >= 1 && cfg.rate >= 0.0
    ensures (forall start, reqs, c, s, t :: Ordered(start, reqs) && s <= t ==> Bounded(cfg, start, reqs, c, s, t))
            <==> SweepsOnlyFullBuckets(cfg)
  {
    hide Ordered, Bounded;
    if SweepsOnlyFullBuckets(cfg) {
      forall start, reqs, c, s, t | Ordered(start, reqs) && s <= t ensures Bounded(cfg, start, reqs, c, s, t) {
        AdmissionBound(cfg, start, reqs, c, s, t);
      }
    } else {
      var reqs := BoundBroken(cfg, "client");
    }
  }

  /** Consecutive instants at least 1/rate seconds apart. */
  ghost predicate Spaced(cfg: Config, times: seq<int>)
    requires cfg.rate > 0.0
  {
    forall i :: 0 <= i < |times| - 1 ==> 1.0 / cfg.rate <= (times[i + 1] - times[i]) as real / 1_000_000_000.0
  }

  /** An entry of the client is not in debt and is old enough for its next request. */
  ghost predicate Ready(cfg: Config, l: Limiter, c: string, times: seq<int>)
    requires cfg.rate > 0.0
  {
    c in l.clients ==>
      && 0.0 <= l.clients[c].tokens
      && (times != [] ==> 1.0 / cfg.rate <= (times[0] - l.clients[c].lastCheck) as real / 1_000_000_000.0)
  }

  lemma SpacedTail(cfg: Config, times: seq<int>)
    requires cfg.rate > 0.0 && times != [] && Spaced(cfg, times)
    ensures Spaced(cfg, times[1..])
    ensures |times| > 1 ==> 1.0 / cfg.rate <= (times[1] - times[0]) as real / 1_000_000_000.0
  {
    if |times| > 1 { assert times[0 + 1] == times[1]; }
    forall i | 0 <= i < |times[1..]| - 1
      ensures 1.0 / cfg.rate <= (times[1..][i + 1] - times[1..][i]) as real / 1_000_000_000.0
    {
      assert times[1..][i] == times[i + 1] && times[1..][i + 1] == times[i + 1 + 1];
    }
  }

  lemma EarnsOne(cfg: Config, e: Entry, now: int)
    requires cfg.burst >= 1 && cfg.rate > 0.0 && 0.0 <= e.tokens
    requires 1.0 / cfg.rate <= (now - e.lastCheck) as real / 1_000_000_000.0
    ensures 1.0 <= Refilled(cfg, e, now)
  {
    var wait := 1.0 / cfg.rate;
    assert wait * cfg.rate == 1.0;
    Scale(wait, (now - e.lastCheck) as real / 1_000_000_000.0, cfg.rate);
  }

  lemma ReadyStep(cfg: Config, l: Limiter, c: string, times: seq<int>, r: Request)
    requires cfg.burst >= 1 && cfg.rate > 0.0 && Spaced(cfg, times) && Ready(cfg, l, c, times)
    requires r.client == c ==> times != [] && times[0] == r.at
    ensures var (l1, ok) := Admit(cfg, l, r.client, r.at);
            if r.client == c then ok && Ready(cfg, l1, c, times[1..]) else Ready(cfg, l1, c, times)
  {
    if r.client == c {
      SpacedTail(cfg, times);
      if c in l.clients { EarnsOne(cfg, l.clients[c], r.at); }
      hide Spaced, Refilled;
    }
  }

  lemma {:induction false} SpacedRun(cfg: Config, l: Limiter, reqs: seq<Request>, c: string)
    requires cfg.burst >= 1 && cfg.rate > 0.0
    requires Spaced(cfg, Times(reqs, c)) && Ready(cfg, l, c, Times(reqs, c))
    ensures Answers(reqs, Run(cfg, l, reqs).1, c) == Repeat(true, |Times(reqs, c)|)
    decreases |reqs|
  {
    if reqs != [] {
      var r, times, rest := reqs[0], Times(reqs, c), Times(reqs[1..], c);
      var l1 := Admit(cfg, l, r.client, r.at).0;
      assert times == (if r.client == c then [r.at] else []) + rest;
      assert if r.client == c then times[1..] == rest else times == rest;
      ReadyStep(cfg, l, c, times, r);
      if r.client == c { SpacedTail(cfg, times); }
      assert Run(cfg, l, reqs).1[1..] == Run(cfg, l1, reqs[1..]).1;
      hide Spaced, Ready, Admit, Times;
      SpacedRun(cfg, l1, reqs[1..], c);
    }
  }

  /** A client whose requests are at least 1/rate apart is never refused, whatever is swept. */
  lemma SpacedAlwaysAdmitted(cfg: Config, start: int, reqs: seq<Request>, c: string)
    requires cfg.burst >= 1 && cfg.rate > 0.0 && Spaced(cfg, Times(reqs, c))
    ensures Answers(reqs, Run(cfg, Fresh(start), reqs).1, c) == Repeat(true, |Times(reqs, c)|)
  {
    SpacedRun(cfg, Fresh(start), reqs, c);
  }

  ghost predicate InRange(cfg: Config, l: Limiter, now: int) {
    forall k :: k in l.clients ==> 0.0 <= l.clients[k].tokens <= cfg.burst as real && l.clients[k].lastCheck <= now
  }

  lemma AdmitInRange(cfg: Config, l: Limiter, from: int, client: string, now: int)
    requires cfg.burst >= 1 && cfg.rate >= 0.0 && from <= now && InRange(cfg, l, from)
    ensures InRange(cfg, Admit(cfg, l, client, now).0, now)
  {
    if client in l.clients {
      var e := l.clients[client];
      GainGrows(cfg, e.lastCheck, now, e.lastCheck, now);
    }
  }

  /** Every stored balance stays between 0 and burst. */
  lemma {:induction false} TokensInRange(cfg: Config, l: Limiter, from: int, reqs: seq<Request>)
    requires cfg.burst >= 1 && cfg.rate >= 0.0 && Ordered(from, reqs) && InRange(cfg, l, from)
    ensures InRange(cfg, Run(cfg, l, reqs).0, if reqs == [] then from else reqs[|reqs| - 1].at)
    decreases |reqs|
  {
    if reqs != [] {
      var r := reqs[0];
      AdmitInRange(cfg, l, from, r.client, r.at);
      TokensInRange(cfg, Admit(cfg, l, r.client, r.at).0, r.at, reqs[1..]);
    }
  }

  // ---------------------------------------------------------------- exactly which requests are admitted

  /** How many of a list of requests were admitted. */
  function Count(oks: seq<bool>): (n: nat) {
    if oks == [] then 0 else Count(oks[..|oks| - 1]) + if oks[|oks| - 1] then 1 else 0
  }

  /** Counting the requests from j on, the first i leave room for x more at `now`. */
  ghost predicate Room(cfg: Config, times: seq<int>, oks: seq<bool>, j: nat, x: real, now: int)
    requires j < |oks| == |times|
  {
    Count(oks[j..]) as real + x <= cfg.burst as real + (now - times[j]) as real / 1_000_000_000.0 * cfg.rate
  }

  ghost predicate RoomFromAll(cfg: Config, times: seq<int>, oks: seq<bool>, x: real, now: int)
    requires |oks| == |times|
  {
    forall j :: 0 <= j < |times| ==> Room(cfg, times, oks, j, x, now)
  }

  /** What a bucket holds at `now`. */
  function Level(cfg: Config, b: Option<Entry>, now: int): (tokens: real) {
    if b.None? then cfg.burst as real else Refilled(cfg, b.value, now)
  }

  lemma RoomSnoc(cfg: Config, times: seq<int>, oks: seq<bool>, t: int, ok: bool, j: nat, x: real, now: int)
    requires j < |oks| == |times|
    ensures var used := if ok then 1.0 else 0.0;
            Room(cfg, times + [t], oks + [ok], j, x, now) <==>
            Room(cfg, times, oks, j, x + used - Gain(cfg, t, now), t)
  {
    var all := oks + [ok];
    assert all[j..][..|all[j..]| - 1] == oks[j..] && all[j..][|all[j..]| - 1] == ok;
    GainSplits(cfg, times[j], t, now);
  }

  lemma LastRoom(cfg: Config, times: seq<int>, oks: seq<bool>, t: int, ok: bool, x: real, now: int)
    requires |oks| == |times|
    ensures Room(cfg, times + [t], oks + [ok], |times|, x, now) <==>
            x + (if ok then 1.0 else 0.0) - Gain(cfg, t, now) <= cfg.burst as real
  {
    assert (oks + [ok])[|oks|..] == [ok] && [ok][..0] == [];
    assert Count([ok]) == if ok then 1 else 0;
    assert (times + [t])[|times|] == t;
  }

  lemma RoomFromAllSnoc(cfg: Config, times: seq<int>, oks: seq<bool>, t: int, ok: bool, x: real, now: int)
    requires |oks| == |times|
    ensures var y := x + (if ok then 1.0 else 0.0) - Gain(cfg, t, now);
            RoomFromAll(cfg, times + [t], oks + [ok], x, now) <==>
            RoomFromAll(cfg, times, oks, y, t) && y <= cfg.burst as real
  {
    var n, y := |times|, x + (if ok then 1.0 else 0.0) - Gain(cfg, t, now);
    forall j | 0 <= j < n ensures Room(cfg, times + [t], oks + [ok], j, x, now) <==> Room(cfg, times, oks, j, y, t) {
      RoomSnoc(cfg, times, oks, t, ok, j, x, now);
    }
    LastRoom(cfg, times, oks, t, ok, x, now);
    hide Room, Gain;
    if RoomFromAll(cfg, times + [t], oks + [ok], x, now) {
      assert Room(cfg, times + [t], oks + [ok], n, x, now);
      forall j | 0 <= j < n ensures Room(cfg, times, oks, j, y, t) {
        assert Room(cfg, times + [t], oks + [ok], j, x, now);
      }
    }
  }

  lemma LevelSnoc(cfg: Config, b: Option<Entry>, t: int, x: real, now: int)
    ensures var (e, ok) := BucketAdmit(cfg, b, t);
            x <= Level(cfg, Some(e), now) <==>
            x <= cfg.burst as real && x + (if ok then 1.0 else 0.0) - Gain(cfg, t, now) <= Level(cfg, b, t)
  {
    hide Gain;
  }

  /** The bucket after the first i of its requests. */
  function BucketAt(cfg: Config, times: seq<int>): (b: Option<Entry>) {
    if times == [] then None
    else Some(BucketAdmit(cfg, BucketAt(cfg, times[..|times| - 1]), times[|times| - 1]).0)
  }

  function BucketOks(cfg: Config, times: seq<int>): (oks: seq<bool>)
    ensures |oks| == |times|
  {
    if times == [] then []
    else
      var n := |times| - 1;
      BucketOks(cfg, times[..n]) + [BucketAdmit(cfg, BucketAt(cfg, times[..n]), times[n]).1]
  }

  /** A bucket holds x tokens at `now`, after the requests so far, exactly if that is no more than burst and
      leaves room counting from any of them. */
  lemma {:induction false} BucketLevels(cfg: Config, times: seq<int>, x: real, now: int)
    ensures x <= Level(cfg, BucketAt(cfg, times), now) <==>
            x <= cfg.burst as real && RoomFromAll(cfg, times, BucketOks(cfg, times), x, now)
    decreases |times|
  {
    if times != [] {
      hide Level, RoomFromAll, Gain, BucketAdmit;
      var n := |times| - 1;
      var t, past, b := times[n], times[..n], BucketAt(cfg, times[..n]);
      var ok := BucketAdmit(cfg, b, t).1;
      BucketLevels(cfg, past, x + (if ok then 1.0 else 0.0) - Gain(cfg, t, now), t);
      LevelSnoc(cfg, b, t, x, now);
      RoomFromAllSnoc(cfg, past, BucketOks(cfg, past), t, ok, x, now);
      assert past + [t] == times;
    }
  }

  lemma BucketSnoc(cfg: Config, past: seq<int>, t: int)
    ensures var (e, ok) := BucketAdmit(cfg, BucketAt(cfg, past), t);
            BucketAt(cfg, past + [t]) == Some(e) && BucketOks(cfg, past + [t]) == BucketOks(cfg, past) + [ok]
  {
    hide BucketAdmit;
    assert (past + [t])[..|past|] == past;
  }

  lemma {:induction false} BucketRunFrom(cfg: Config, past: seq<int>, times: seq<int>)
    ensures BucketOks(cfg, past + times) == BucketOks(cfg, past) + BucketRun(cfg, BucketAt(cfg, past), times)
    decreases |times|
  {
    hide BucketAdmit, BucketOks, BucketAt;
    if times == [] {
      assert past + times == past;
    } else {
      BucketSnoc(cfg, past, times[0]);
      BucketRunFrom(cfg, past + [times[0]], times[1..]);
      assert past + [times[0]] + times[1..] == past + times;
    }
  }

  lemma {:induction false} OksPrefix(cfg: Config, times: seq<int>, i: nat)
    requires i <= |times|
    ensures BucketOks(cfg, times)[..i] == BucketOks(cfg, times[..i])
    decreases |times|
  {
    if i == |times| {
      assert times[..i] == times;
    } else {
      var n := |times| - 1;
      OksPrefix(cfg, times[..n], i);
      assert times[..n][..i] == times[..i];
    }
  }

  /** Request i of a client is admitted exactly if, counting from each earlier request j of that client, one
      more than were admitted since is no more than burst + rate * (the time since j). */
  ghost predicate AdmitsExactly(cfg: Config, times: seq<int>, oks: seq<bool>) {
    && |oks| == |times|
    && forall i :: 0 <= i < |times| ==> (oks[i] <==> RoomForOne(cfg, times, oks, i))
  }

  ghost predicate RoomForOne(cfg: Config, times: seq<int>, oks: seq<bool>, i: nat)
    requires i < |oks| == |times|
  {
    forall j :: 0 <= j < i ==>
      Count(oks[j..i]) as real + 1.0 <=
      cfg.burst as real + (times[i] - times[j]) as real / 1_000_000_000.0 * cfg.rate
  }

  lemma RoomIsRoomForOne(cfg: Config, times: seq<int>, oks: seq<bool>, i: nat)
    requires i < |oks| == |times|
    ensures RoomFromAll(cfg, times[..i], oks[..i], 1.0, times[i]) <==> RoomForOne(cfg, times, oks, i)
  {
    hide Count;
    assert forall j :: 0 <= j < i ==> oks[..i][j..] == oks[j..i];
    assert forall j :: 0 <= j < i ==> times[..i][j] == times[j];
    if RoomFromAll(cfg, times[..i], oks[..i], 1.0, times[i]) {
      forall j | 0 <= j < i
        ensures Count(oks[j..i]) as real + 1.0 <=
                cfg.burst as real + (times[i] - times[j]) as real / 1_000_000_000.0 * cfg.rate
      {
        assert Room(cfg, times[..i], oks[..i], j, 1.0, times[i]);
      }
    }
  }

  lemma BucketAdmitsExactly(cfg: Config, times: seq<int>)
    requires cfg.burst >= 1
    ensures AdmitsExactly(cfg, times, BucketRun(cfg, None, times))
  {
    var oks := BucketRun(cfg, None, times);
    BucketRunFrom(cfg, [], times);
    assert [] + times == times && [] + oks == oks && oks == BucketOks(cfg, times);
    hide BucketOks, BucketRun, BucketAt, RoomForOne, RoomFromAll, Level;
    forall i | 0 <= i < |times| ensures oks[i] <==> RoomForOne(cfg, times, oks, i) {
      BucketLevels(cfg, times[..i], 1.0, times[i]);
      OksPrefix(cfg, times, i);
      OneDecision(cfg, times, i);
      RoomIsRoomForOne(cfg, times, oks, i);
    }
  }

  lemma OneDecision(cfg: Config, times: seq<int>, i: nat)
    requires i < |times|
    ensures BucketOks(cfg, times)[i] <==> 1.0 <= Level(cfg, BucketAt(cfg, times[..i]), times[i])
  {
    OksPrefix(cfg, times, i + 1);
    assert times[..i + 1][..i] == times[..i];
    assert BucketOks(cfg, times)[i] == BucketOks(cfg, times)[..i + 1][i];
  }

  /** Under the condition, the limiter admits exactly those requests, for every client of every run. */
  lemma AdmitsExactlyWhatRefills(cfg: Config, start: int, reqs: seq<Request>, c: string)
    requires cfg.burst >= 1 && cfg.rate >= 0.0 && SweepsOnlyFullBuckets(cfg) && Ordered(start, reqs)
    ensures AdmitsExactly(cfg, Times(reqs, c), Answers(reqs, Run(cfg, Fresh(start), reqs).1, c))
  {
    hide *;
    SweepInvisible(cfg, start, reqs, c);
    OwnBucket(cfg, start, reqs, c);
    BucketAdmitsExactly(cfg, Times(reqs, c));
  }

  lemma OwnBucket(cfg: Config, start: int, reqs: seq<Request>, c: string)
    requires LikeOwnBucket(cfg, start, reqs, c)
    ensures Answers(reqs, Run(cfg, Fresh(start), reqs).1, c) == BucketRun(cfg, None, Times(reqs, c))
  {
  }

  // ---------------------------------------------------------------- what the sweep keeps and drops

  /** Less than five minutes after a sweep no entry goes; a later request drops exactly the other clients'
      entries that were idle for more than ten minutes. */
  lemma SweepDropsExactly(cfg: Config, l: Limiter, client: string, now: int, k: string)
    requires k != client
    ensures var l1 := Admit(cfg, l, client, now).0;
            && (k in l1.clients <==> k in l.clients && !(now - l.lastSweep > 300_000_000_000
                                                         && now - l.clients[k].lastCheck > 600_000_000_000))
            && (k in l1.clients ==> l1.clients[k] == l.clients[k])
            && l1.lastSweep == if now - l.lastSweep > 300_000_000_000 then now else l.lastSweep
  {
  }

  /** No entry is more than ten minutes older than the last sweep, which was within five minutes. */
  ghost predicate Swept(l: Limiter, now: int) {
    && 0 <= now - l.lastSweep <= 300_000_000_000
    && forall k :: k in l.clients ==> l.lastSweep - l.clients[k].lastCheck <= 600_000_000_000
  }

  lemma {:induction false} StaysSwept(cfg: Config, l: Limiter, from: int, reqs: seq<Request>)
    requires Ordered(from, reqs) && Swept(l, from)
    ensures Swept(Run(cfg, l, reqs).0, if reqs == [] then from else reqs[|reqs| - 1].at)
    decreases |reqs|
  {
    if reqs != [] {
      var r := reqs[0];
      assert Swept(Admit(cfg, l, r.client, r.at).0, r.at) by { hide Refilled; }
      StaysSwept(cfg, Admit(cfg, l, r.client, r.at).0, r.at, reqs[1..]);
    }
  }

  /** So after every run each stored entry was last checked within fifteen minutes. */
  lemma EntriesAreRecent(cfg: Config, start: int, reqs: seq<Request>)
    requires Ordered(start, reqs)
    ensures var now := if reqs == [] then start else reqs[|reqs| - 1].at;
            var l := Run(cfg, Fresh(start), reqs).0;
            Swept(l, now) && forall k :: k in l.clients ==> now - l.clients[k].lastCheck <= 900_000_000_000
  {
    StaysSwept(cfg, Fresh(start), start, reqs);
  }
}
