// The bounded per-key histories of a log hub (internal/tools/logs.go:71-104,
// internal/web/events.go:141-173).
module LogHistory {
  import opened Hub

  datatype Limits = Limits(maxLines: int, maxKeys: int)
  datatype Log<T> = Log(core: Core<T>, history: map<string, seq<T>>)

  /** Append carries the set of keys that its eviction loop removed. */
  datatype LogOp<T> = Other(op: Op<T>) | Append(key: string, line: T, evicted: set<string>)

  function LinesOf<T>(history: map<string, seq<T>>, key: string): (lines: seq<T>) {
    if key in history then history[key] else []
  }

  /** The last maxLines lines; all of them when maxLines is not positive. */
  function Trim<T>(lim: Limits, lines: seq<T>): (tail: seq<T>) {
    if lim.maxLines > 0 && |lines| > lim.maxLines then lines[|lines| - lim.maxLines..] else lines
  }

  function Recorded<T>(lim: Limits, history: map<string, seq<T>>, key: string, line: T)
    : (history1: map<string, seq<T>>)
  {
    history[key := Trim(lim, LinesOf(history, key) + [line])]
  }

  function Idle<T>(history: map<string, seq<T>>, subs: map<string, set<nat>>, key: string): (keys: set<string>) {
    set k | k in history && k != key && k !in subs
  }

  /** What the eviction loop may remove: nothing while within the limit, else just enough idle keys, or
      all of them if they are too few. */
  ghost predicate MayEvict<T>(lim: Limits, history: map<string, seq<T>>, subs: map<string, set<nat>>, key: string,
                              evicted: set<string>)
  {
    if lim.maxKeys > 0 && |history| > lim.maxKeys then
      && evicted <= Idle(history, subs, key)
      && (|history - evicted| == lim.maxKeys ||
          (|history - evicted| > lim.maxKeys && evicted == Idle(history, subs, key)))
    else evicted == {}
  }

  function AppendStep<T>(lim: Limits, l: Log<T>, key: string, line: T, evicted: set<string>): (l1: Log<T>) {
    Log(Step(l.core, false, Send(key, line)), Recorded(lim, l.history, key, line) - evicted)
  }

  function LogStep<T>(lim: Limits, l: Log<T>, op: LogOp<T>): (l1: Log<T>) {
    match op
    case Other(o) => l.(core := Step(l.core, false, o))
    case Append(key, line, evicted) => AppendStep(lim, l, key, line, evicted)
  }

  ghost predicate Allowed<T>(lim: Limits, l: Log<T>, op: LogOp<T>) {
    match op
    case Other(o) => !o.Send?
    case Append(key, line, evicted) => MayEvict(lim, Recorded(lim, l.history, key, line), l.core.subs, key, evicted)
  }

  /** The state after a run, from an empty hub. */
  function After<T>(lim: Limits, ops: seq<LogOp<T>>): (l: Log<T>) {
    if ops == [] then Log(Empty<T>(), map[])
    else LogStep(lim, After(lim, ops[..|ops| - 1]), ops[|ops| - 1])
  }

  ghost predicate Legal<T>(lim: Limits, ops: seq<LogOp<T>>) {
    ops != [] ==> Legal(lim, ops[..|ops| - 1]) && Allowed(lim, After(lim, ops[..|ops| - 1]), ops[|ops| - 1])
  }

  /** All lines appended to `key` since it was last evicted. */
  function Since<T>(ops: seq<LogOp<T>>, key: string): (lines: seq<T>) {
    if ops == [] then []
    else
      var past, op := Since(ops[..|ops| - 1], key), ops[|ops| - 1];
      if op.Other? then past
      else if key in op.evicted then []
      else if op.key == key then past + [op.line] else past
  }

  /** `h` is the end of `all`: the last maxLines of it, or all of it if maxLines is not positive or more. */
  ghost predicate IsRecentTail<T>(lim: Limits, h: seq<T>, all: seq<T>) {
    && |h| == (if 0 < lim.maxLines < |all| then lim.maxLines else |all|)
    && forall i :: 0 <= i < |h| ==> h[i] == all[|all| - |h| + i]
  }

  lemma TrimIsRecentTail<T>(lim: Limits, all: seq<T>)
    ensures IsRecentTail(lim, Trim(lim, all), all)
  {
  }

  lemma TrimTrim<T>(lim: Limits, lines: seq<T>, x: T)
    ensures Trim(lim, Trim(lim, lines) + [x]) == Trim(lim, lines + [x])
  {
  }

  lemma {:induction false} HistoryIsTrimmed<T>(lim: Limits, ops: seq<LogOp<T>>, key: string)
    requires Legal(lim, ops)
    ensures var history := After(lim, ops).history;
            && LinesOf(history, key) == Trim(lim, Since(ops, key))
            && (key in history <==> Since(ops, key) != [])
    decreases |ops|
  {
    if ops != [] {
      var n := |ops| - 1;
      HistoryIsTrimmed(lim, ops[..n], key);
      if ops[n].Append? { TrimTrim(lim, Since(ops[..n], key), ops[n].line); }
    }
  }

  /** Each key's history is the last min(n, maxLines) of the lines appended since its last eviction, in order;
      a key without such lines has none. */
  lemma HistoryIsRecentTail<T>(lim: Limits, ops: seq<LogOp<T>>, key: string)
    requires Legal(lim, ops)
    ensures var history := After(lim, ops).history;
            && (key in history <==> Since(ops, key) != [])
            && (key in history ==> IsRecentTail(lim, history[key], Since(ops, key)))
  {
    HistoryIsTrimmed(lim, ops, key);
    TrimIsRecentTail(lim, Since(ops, key));
  }

  /** A log op as the subscribers see it. */
  function CoreOp<T>(op: LogOp<T>): (core: Op<T>) {
    if op.Other? then op.op else Send(op.key, op.line)
  }

  lemma {:induction false} AfterValid<T>(lim: Limits, ops: seq<LogOp<T>>)
    ensures Valid(After(lim, ops).core)
    decreases |ops|
  {
    if ops != [] {
      var n := |ops| - 1;
      AfterValid(lim, ops[..n]);
      StepValid(After(lim, ops[..n]).core, false, CoreOp(ops[n]));
    }
  }

  function CoreOps<T>(ops: seq<LogOp<T>>): (core: seq<Op<T>>) {
    seq(|ops|, i requires 0 <= i < |ops| => CoreOp(ops[i]))
  }

  /** The subscription side of a log hub is a hub without a global key: what is proved of hub runs holds
      of it. */
  lemma {:induction false} CoreIsHubRun<T>(lim: Limits, ops: seq<LogOp<T>>)
    ensures After(lim, ops).core == Run(Empty<T>(), false, CoreOps(ops))
    decreases |ops|
  {
    if ops != [] {
      var n := |ops| - 1;
      CoreIsHubRun(lim, ops[..n]);
      assert CoreOps(ops) == CoreOps(ops[..n]) + [CoreOp(ops[n])];
      RunSnoc(Empty<T>(), false, CoreOps(ops[..n]), CoreOp(ops[n]));
    }
  }

  /** After any append there are at most maxKeys histories, or every other one has a live subscriber. */
  lemma KeysBounded<T>(lim: Limits, ops: seq<LogOp<T>>)
    requires ops != [] && Legal(lim, ops) && ops[|ops| - 1].Append? && lim.maxKeys > 0
    ensures var l := After(lim, ops);
            || |l.history| <= lim.maxKeys
            || forall k :: k in l.history && k != ops[|ops| - 1].key ==> Live(l.core, k) != {}
  {
    var n := |ops| - 1;
    var op, before := ops[n], After(lim, ops[..n]);
    var l := After(lim, ops);
    AfterValid(lim, ops[..n]);
    assert l.core.subs == before.core.subs;
    if |l.history| > lim.maxKeys {
      forall k | k in l.history && k != op.key ensures Live(l.core, k) != {} {
        assert k in before.core.subs;
      }
    }
  }

  /** An append forgets no key without need: its own key stays, and if any other key is gone, that one had no
      subscriber and there are still maxKeys histories. */
  lemma EvictsNoMoreThanNeeded<T>(lim: Limits, ops: seq<LogOp<T>>)
    requires ops != [] && Legal(lim, ops) && ops[|ops| - 1].Append?
    ensures var before, l, key := After(lim, ops[..|ops| - 1]), After(lim, ops), ops[|ops| - 1].key;
            && key in l.history
            && (forall k :: k in before.history && k !in l.history ==>
                  k !in before.core.subs && 0 < lim.maxKeys <= |l.history|)
            && (forall k :: k in l.history && k != key ==> k in before.history && l.history[k] == before.history[k])
  {
  }

  /** The lines appended to `key` in a stretch of a run. */
  function Appended<T>(ops: seq<LogOp<T>>, key: string): (lines: seq<T>) {
    if ops == [] then []
    else
      var op := ops[|ops| - 1];
      Appended(ops[..|ops| - 1], key) + if op.Append? && op.key == key then [op.line] else []
  }

  lemma LiveStep<T>(lim: Limits, l: Log<T>, op: LogOp<T>, key: string, id: nat)
    requires Valid(l.core) && Allowed(lim, l, op) && id in Live(l.core, key)
    requires op != Other(Cancel(key, id))
    ensures id in Live(LogStep(lim, l, op).core, key)
    ensures op.Append? ==> key !in op.evicted
  {
    if op.Other? && op.op.Cancel? && op.op.key == key {
      assert id in l.core.subs[key] - {op.op.id};
    }
  }

  lemma {:induction false} LiveRun<T>(lim: Limits, start: seq<LogOp<T>>, after: seq<LogOp<T>>, key: string, id: nat)
    requires Legal(lim, start + after) && id in Live(After(lim, start).core, key)
    requires Other(Cancel(key, id)) !in after
    ensures id in Live(After(lim, start + after).core, key)
    ensures forall op :: op in after && op.Append? ==> key !in op.evicted
    decreases |after|
  {
    hide LogStep, Allowed, Live;
    if after == [] {
      assert start + after == start;
    } else {
      var n, ops := |after| - 1, start + after;
      var op, init := after[n], start + after[..n];
      assert ops[..|ops| - 1] == init && ops[|ops| - 1] == op;
      assert after == after[..n] + [op];
      LiveRun(lim, start, after[..n], key, id);
      AfterValid(lim, init);
      LiveStep(lim, After(lim, init), op, key, id);
    }
  }

  lemma {:induction false} SinceWithoutEviction<T>(start: seq<LogOp<T>>, after: seq<LogOp<T>>, key: string)
    requires forall op :: op in after && op.Append? ==> key !in op.evicted
    ensures Since(start + after, key) == Since(start, key) + Appended(after, key)
    decreases |after|
  {
    if after == [] {
      assert start + after == start;
    } else {
      var n, ops := |after| - 1, start + after;
      assert ops[..|ops| - 1] == start + after[..n];
      assert after[n] in after;
      SinceWithoutEviction(start, after[..n], key);
    }
  }

  /** From a subscription to `key` on, and for as long as it is not cancelled, the key is never evicted:
      its history is the tail of everything it had then and everything appended since. */
  lemma LiveKeyNeverEvicted<T>(lim: Limits, before: seq<LogOp<T>>, key: string, after: seq<LogOp<T>>)
    requires Legal(lim, before + [Other(Subscribe(key))] + after)
    requires Other(Cancel(key, After(lim, before).core.nextId)) !in after
    ensures var ops := before + [Other(Subscribe(key))] + after;
            var history := After(lim, ops).history;
            IsRecentTail(lim, if key in history then history[key] else [], Since(before, key) + Appended(after, key))
  {
    var start: seq<LogOp<T>> := before + [Other(Subscribe(key))];
    assert start[..|start| - 1] == before;
    LiveRun(lim, start, after, key, After(lim, before).core.nextId);
    SinceWithoutEviction(start, after, key);
    HistoryIsTrimmed(lim, start + after, key);
    TrimIsRecentTail(lim, Since(before, key) + Appended(after, key));
  }
}
