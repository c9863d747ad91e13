// The event gate: window, minimum count and backoff per (source, fingerprint)
// (internal/db/event_gates.go). Each call is one atomic step.
module EventGate {
  import opened Prelude
  import opened Text

  datatype Params = Params(window: int, backoff: int, minCount: int)

  /** A row of event_gates. */
  datatype Gate = Gate(firstSeen: int, lastSeen: int, count: int, suppressedUntil: Option<int>)

  // ---------------------------------------------------------------- specification

  function Suppression(p: Params, allowed: bool, now: int): (until: Option<int>) {
    if allowed && p.backoff > 0 then Some(now + p.backoff) else None
  }

  predicate Suppressed(g: Gate, now: int) {
    g.suppressedUntil.Some? && now < g.suppressedUntil.value
  }

  predicate Restarts(p: Params, g: Gate, now: int) {
    p.window > 0 && now - g.firstSeen > p.window
  }

  /** One event: the row written and whether the event is let through. */
  function Upsert(p: Params, row: Option<Gate>, now: int): (r: (Gate, bool)) {
    if row.None? then
      var allowed := p.minCount <= 1;
      (Gate(now, now, 1, Suppression(p, allowed, now)), allowed)
    else
      var g := row.value;
      if Suppressed(g, now) then (g.(lastSeen := now, count := g.count + 1), false)
      else
        var first := if Restarts(p, g, now) then now else g.firstSeen;
        var count := if Restarts(p, g, now) then 1 else g.count + 1;
        var allowed := p.minCount <= 1 || count >= p.minCount;
        (Gate(first, now, count, Suppression(p, allowed, now)), allowed)
  }

  /** The state handed back to the caller. */
  function Reported(p: Params, row: Option<Gate>, now: int): (state: Gate) {
    var g := Upsert(p, row, now).0;
    if row.None? || Suppressed(row.value, now) || Restarts(p, row.value, now) || g.suppressedUntil.Some? then g
    else g.(suppressedUntil := row.value.suppressedUntil)
  }

  /** One key's row after recorded events at the given times, and whether the i-th of them passes. */
  function After(p: Params, times: seq<int>): (row: Option<Gate>) {
    if times == [] then None else Some(Upsert(p, After(p, times[..|times| - 1]), times[|times| - 1]).0)
  }

  predicate Passes(p: Params, times: seq<int>, i: nat)
    requires i < |times|
  {
    Upsert(p, After(p, times[..i]), times[i]).1
  }

  class EventGates {
    var rows: map<(string, string), Gate>

    constructor ()
      ensures rows == map[]
    {
      rows := map[];
    }

    /** The row of one key changes as Upsert says and no other row does; nothing changes if the row could not
        be read or written. The state comes back whenever the row was read. */
    method UpsertEventGate(source: string, fingerprint: string, now: int, p: Params, readOk: bool, write: Stored)
      returns (allowed: bool, state: Option<Gate>, ok: bool)
      modifies this
      ensures state.Some? <==> !Blank(source) && !Blank(fingerprint) && readOk
      ensures ok <==> state.Some? && write.Ok()
      ensures state.None? || !write.Applied() ==> rows == old(rows)
      ensures state.None? ==> !allowed
      ensures state.Some? ==>
                var key := (TrimSpace(source), TrimSpace(fingerprint));
                var row := if key in old(rows) then Some(old(rows)[key]) else None;
                && (state.value, allowed) == (Reported(p, row, now), Upsert(p, row, now).1)
                && (write.Applied() ==> rows == old(rows)[key := Upsert(p, row, now).0])
    {
      if Blank(source) || Blank(fingerprint) || !readOk { return false, None, false; }
      var key := (TrimSpace(source), TrimSpace(fingerprint));
      ok := write.Ok();
      if key !in rows {
        allowed := p.minCount <= 1;
        var until := if allowed && p.backoff > 0 then Some(now + p.backoff) else None;
        if write.Applied() { rows := rows[key := Gate(now, now, 1, until)]; }
        return allowed, Some(Gate(now, now, 1, until)), ok;
      }
      var g := rows[key];
      if g.suppressedUntil.Some? && now < g.suppressedUntil.value {
        g := g.(lastSeen := now, count := g.count + 1);
        if write.Applied() { rows := rows[key := g]; }
        return false, Some(g), ok;
      }
      if p.window > 0 && now - g.firstSeen > p.window {
        g := g.(firstSeen := now, count := 0, suppressedUntil := None);
      }
      g := g.(lastSeen := now, count := g.count + 1);
      allowed := p.minCount <= 1 || g.count >= p.minCount;
      var until: Option<int> := None;
      if allowed && p.backoff > 0 {
        until := Some(now + p.backoff);
        g := g.(suppressedUntil := until);
      }
      if write.Applied() { rows := rows[key := g.(suppressedUntil := until)]; }
      return allowed, Some(g), ok;
    }
  }

  /** The state handed back is the row written, except that it keeps a suppression that has run out when the
      event neither restarts the window nor sets a suppression of its own; the row forgets that one. */
  lemma ReportedIsWrittenIff(p: Params, row: Option<Gate>, now: int)
    ensures var (g, allowed) := Upsert(p, row, now);
            Reported(p, row, now) ==
            if row.Some? && row.value.suppressedUntil.Some? && row.value.suppressedUntil.value <= now
               && !(p.window > 0 && now - row.value.firstSeen > p.window) && !(allowed && p.backoff > 0)
            then g.(suppressedUntil := row.value.suppressedUntil) else g
    ensures row.Some? && row.value.suppressedUntil.Some? && row.value.suppressedUntil.value <= now ==>
              var (g, allowed) := Upsert(p, row, now);
              g.suppressedUntil == if allowed && p.backoff > 0 then Some(now + p.backoff) else None
  {
  }

  // ---------------------------------------------------------------- the recorded events of one key

  ghost predicate Ordered(times: seq<int>) {
    forall i, j :: 0 <= i < j < |times| ==> times[i] <= times[j]
  }

  /** Event `start` set first_seen: the count is the number of events from it on, which are exactly the
      events at or after first_seen. */
  ghost predicate CountsFrom(p: Params, times: seq<int>, start: nat) {
    && start < |times| && After(p, times).Some?
    && var g := After(p, times).value;
       && g.firstSeen == times[start] && g.count == |times| - start
       && g.lastSeen == times[|times| - 1]
       && (forall j :: 0 <= j < |times| ==> (g.firstSeen <= times[j] <==> start <= j))
  }

  lemma {:induction false} CountOfRecorded(p: Params, times: seq<int>) returns (start: nat)
    requires times != [] && Ordered(times)
    ensures CountsFrom(p, times, start)
    decreases |times|
  {
    var n := |times| - 1;
    var init, now := times[..n], times[n];
    if n == 0 {
      start := 0;
    } else {
      var s := CountOfRecorded(p, init);
      var g := After(p, init).value;
      assert forall j :: 0 <= j < n ==> init[j] == times[j];
      if !Suppressed(g, now) && Restarts(p, g, now) {
        start := n;
        NoEarlierAtRestart(p, times);
      } else {
        start := s;
      }
    }
  }

  /** An event that restarts the count is strictly later than all before it. */
  lemma NoEarlierAtRestart(p: Params, times: seq<int>)
    requires |times| > 1 && Ordered(times)
    requires var n := |times| - 1;
             var g := After(p, times[..n]).value;
             !Suppressed(g, times[n]) && Restarts(p, g, times[n])
    ensures forall j :: 0 <= j < |times| - 1 ==> times[j] < times[|times| - 1]
  {
    var n := |times| - 1;
    var init := times[..n];
    assert init[n - 1] == times[n - 1];
  }

  lemma {:induction false} BackoffPending(p: Params, times: seq<int>, i: nat)
    requires i < |times| && Ordered(times) && p.backoff > 0 && Passes(p, times, i)
    ensures var g := After(p, times).value;
            g.suppressedUntil == Some(times[i] + p.backoff) || times[i] + p.backoff <= times[|times| - 1]
    decreases |times|
  {
    var n := |times| - 1;
    if i < n {
      assert times[..n][..i] == times[..i] && times[..n][i] == times[i] && times[..n][n - 1] == times[n - 1];
      BackoffPending(p, times[..n], i);
    }
  }

  /** Two of them that pass are at least `backoff` apart. */
  lemma RecordedPassesApart(p: Params, times: seq<int>, i: nat, j: nat)
    requires i < j < |times| && Ordered(times)
    requires Passes(p, times, i) && Passes(p, times, j)
    ensures times[j] - times[i] >= p.backoff
  {
    if p.backoff > 0 {
      assert times[..j][..i] == times[..i] && times[..j][i] == times[i];
      BackoffPending(p, times[..j], i);
      assert times[..j][j - 1] <= times[j];
    }
  }

  /** With a positive window, an event that passes is the last of at least minCount events of its key
      within the window that ends with it. */
  lemma RecordedPassHasMinCount(p: Params, times: seq<int>, i: nat) returns (start: nat)
    requires i < |times| && Ordered(times) && p.window > 0 && Passes(p, times, i)
    ensures start <= i && i - start + 1 >= p.minCount
    ensures forall j :: start <= j <= i ==> times[i] - p.window <= times[j] <= times[i]
  {
    start := i;
    if i > 0 {
      var s := CountOfRecorded(p, times[..i]);
      assert times[..i][s] == times[s];
      if !Restarts(p, After(p, times[..i]).value, times[i]) { start := s; }
    }
  }

  // ---------------------------------------------------------------- exactly which events pass

  /** An earlier event passed less than `backoff` before event i. */
  ghost predicate TooSoon(p: Params, times: seq<int>, i: nat)
    requires i < |times|
  {
    exists j :: 0 <= j < i && Passes(p, times, j) && times[i] - times[j] < p.backoff
  }

  /** A suppression that has not run out is that of the last event that passed. */
  lemma {:induction false} SuppressionOfPass(p: Params, times: seq<int>, now: int) returns (j: nat)
    requires times != [] && Ordered(times) && times[|times| - 1] <= now && Suppressed(After(p, times).value, now)
    ensures j < |times| && Passes(p, times, j) && now - times[j] < p.backoff
    decreases |times|
  {
    var n := |times| - 1;
    var init := times[..n];
    if Passes(p, times, n) {
      j := n;
    } else {
      assert forall k :: 0 <= k < n ==> init[k] == times[k];
      j := SuppressionOfPass(p, init, now);
      assert init[..j] == times[..j];
    }
  }

  lemma SuppressedIffTooSoon(p: Params, times: seq<int>, i: nat)
    requires 0 < i < |times| && Ordered(times)
    ensures Suppressed(After(p, times[..i]).value, times[i]) <==> TooSoon(p, times, i)
  {
    var past := times[..i];
    assert forall k :: 0 <= k < i ==> past[k] == times[k] && past[..k] == times[..k];
    if Suppressed(After(p, past).value, times[i]) {
      var j := SuppressionOfPass(p, past, times[i]);
      assert Passes(p, times, j);
    }
    if TooSoon(p, times, i) {
      var j :| 0 <= j < i && Passes(p, times, j) && times[i] - times[j] < p.backoff;
      assert times[j] <= times[i] && Passes(p, past, j);
      BackoffPending(p, past, j);
    }
  }

  /** The first_seen stored with event i. */
  ghost function FirstSeen(p: Params, times: seq<int>, i: nat): (at: int)
    requires i < |times|
  {
    After(p, times[..i + 1]).value.firstSeen
  }

  /** How many events came at or after an instant. */
  function HowManyFrom(times: seq<int>, from: int): (n: nat) {
    if times == [] then 0
    else
      var n := |times| - 1;
      HowManyFrom(times[..n], from) + if from <= times[n] then 1 else 0
  }

  lemma {:induction false} HowManyFromStart(times: seq<int>, from: int, start: nat)
    requires start <= |times| && forall j :: 0 <= j < |times| ==> (from <= times[j] <==> start <= j)
    ensures HowManyFrom(times, from) == |times| - start
  {
    if times != [] {
      var n := |times| - 1;
      assert forall j :: 0 <= j < n ==> times[..n][j] == times[j];
      HowManyFromStart(times[..n], from, if start <= n then start else n);
    }
  }

  lemma CountSinceFirst(p: Params, times: seq<int>, i: nat)
    requires i < |times| && Ordered(times)
    ensures After(p, times[..i + 1]).value.count == HowManyFrom(times[..i + 1], FirstSeen(p, times, i))
  {
    var start := CountOfRecorded(p, times[..i + 1]);
    HowManyFromStart(times[..i + 1], FirstSeen(p, times, i), start);
  }

  /** Recorded event i of a key passes exactly if none passed less than `backoff` before it, and minCount is at
      most 1 or at least minCount events, itself included, came at or after the first_seen stored with it. */
  lemma PassesIff(p: Params, times: seq<int>, i: nat)
    requires i < |times| && Ordered(times)
    ensures Passes(p, times, i) <==>
            && !TooSoon(p, times, i)
            && (p.minCount <= 1 || p.minCount <= HowManyFrom(times[..i + 1], FirstSeen(p, times, i)))
  {
    CountSinceFirst(p, times, i);
    assert times[..i + 1][..i] == times[..i];
    if i > 0 { SuppressedIffTooSoon(p, times, i); }
  }

  /** That first_seen is the event's own instant exactly if it is the first, or comes more than a positive window
      after the first_seen before it and not too soon after one that passed; otherwise it stays. */
  lemma FirstSeenIs(p: Params, times: seq<int>, i: nat)
    requires i < |times| && Ordered(times)
    ensures FirstSeen(p, times, i) ==
            if i == 0 then times[0]
            else
              var before := FirstSeen(p, times, i - 1);
              if !TooSoon(p, times, i) && p.window > 0 && times[i] - before > p.window then times[i] else before
  {
    assert times[..i + 1][..i] == times[..i];
    if i > 0 { SuppressedIffTooSoon(p, times, i); }
  }

  // ---------------------------------------------------------------- runs over all keys, with failing writes

  /** An event whose row could not be read is one whose write is rejected: nothing is recorded, and its
      answer is an error. */
  datatype Event = Event(key: (string, string), at: int, write: Stored)

  function RowIn(rows: map<(string, string), Gate>, key: (string, string)): (row: Option<Gate>) {
    if key in rows then Some(rows[key]) else None
  }

  /** The table after a run: an event whose write does not take effect leaves it as it is. */
  function Rows(p: Params, events: seq<Event>): (rows: map<(string, string), Gate>) {
    if events == [] then map[]
    else
      var n := |events| - 1;
      var rows, e := Rows(p, events[..n]), events[n];
      if e.write.Applied() then rows[e.key := Upsert(p, RowIn(rows, e.key), e.at).0] else rows
  }

  /** When the events of a key came that were recorded. */
  function Recorded(events: seq<Event>, key: (string, string)): (times: seq<int>) {
    if events == [] then []
    else
      var n := |events| - 1;
      Recorded(events[..n], key) + if events[n].key == key && events[n].write.Applied() then [events[n].at] else []
  }

  /** In a run over all keys, whatever writes fail, each key's row is that of its own recorded events. */
  lemma {:induction false} KeysDoNotInterfere(p: Params, events: seq<Event>, key: (string, string))
    ensures RowIn(Rows(p, events), key) == After(p, Recorded(events, key))
    decreases |events|
  {
    if events != [] {
      var n := |events| - 1;
      KeysDoNotInterfere(p, events[..n], key);
      var past := Recorded(events[..n], key);
      assert (past + [events[n].at])[..|past|] == past && past + [] == past;
    }
  }

  /** Event i is let through, and no error comes with the answer. */
  predicate LetThrough(p: Params, events: seq<Event>, i: nat)
    requires i < |events|
  {
    var e := events[i];
    e.write.Ok() && Upsert(p, RowIn(Rows(p, events[..i]), e.key), e.at).1
  }

  ghost predicate InOrder(events: seq<Event>) {
    forall i, j :: 0 <= i < j < |events| ==> events[i].at <= events[j].at
  }

  lemma {:induction false} RecordedInOrder(events: seq<Event>, key: (string, string))
    requires InOrder(events)
    ensures Ordered(Recorded(events, key))
    ensures forall t :: t in Recorded(events, key) ==> exists i :: 0 <= i < |events| && events[i].at == t
  {
    if events != [] {
      var n := |events| - 1;
      var init, past := events[..n], Recorded(events[..n], key);
      assert forall i :: 0 <= i < n ==> init[i] == events[i];
      RecordedInOrder(init, key);
      forall t | t in Recorded(events, key) ensures exists i :: 0 <= i < |events| && events[i].at == t {
        if t in past {
          var i :| 0 <= i < |init| && init[i].at == t;
          assert events[i].at == t;
        } else {
          assert events[n].at == t;
        }
      }
      forall k | 0 <= k < |past| ensures past[k] <= events[n].at {
        assert past[k] in past;
        var i :| 0 <= i < |init| && init[i].at == past[k];
        assert events[i].at <= events[n].at;
      }
    }
  }

  /** What is recorded up to event i is the beginning of what is recorded in the end. */
  lemma {:induction false} RecordedPrefix(events: seq<Event>, key: (string, string), i: nat)
    requires i <= |events|
    ensures Recorded(events[..i], key) <= Recorded(events, key)
    decreases |events|
  {
    if i == |events| {
      assert events[..i] == events;
    } else {
      var n := |events| - 1;
      RecordedPrefix(events[..n], key, i);
      assert events[..n][..i] == events[..i];
    }
  }

  /** An event whose write is saved is let through exactly if it passes among the recorded events of its key. */
  lemma LetThroughIff(p: Params, events: seq<Event>, i: nat) returns (at: nat)
    requires i < |events| && events[i].write == Saved
    ensures var times := Recorded(events, events[i].key);
            && at == |Recorded(events[..i], events[i].key)| < |times| && times[at] == events[i].at
            && (LetThrough(p, events, i) <==> Passes(p, times, at))
  {
    var key := events[i].key;
    var past := Recorded(events[..i], key);
    at := |past|;
    KeysDoNotInterfere(p, events[..i], key);
    assert events[..i + 1][..i] == events[..i];
    assert Recorded(events[..i + 1], key) == past + [events[i].at];
    RecordedPrefix(events, key, i + 1);
    hide Recorded, Rows, Upsert;
    assert Recorded(events, key)[..at] == past;
  }

  /** An event that is let through is recorded, and passes among the recorded events of its key. */
  lemma ThroughIsRecorded(p: Params, events: seq<Event>, i: nat) returns (at: nat)
    requires i < |events| && LetThrough(p, events, i)
    ensures var times := Recorded(events, events[i].key);
            && at == |Recorded(events[..i], events[i].key)| < |times|
            && times[at] == events[i].at && Passes(p, times, at)
            && times[..at + 1] == Recorded(events[..i + 1], events[i].key)
  {
    var key := events[i].key;
    var past := Recorded(events[..i], key);
    at := |past|;
    KeysDoNotInterfere(p, events[..i], key);
    assert events[..i + 1][..i] == events[..i];
    assert Recorded(events[..i + 1], key) == past + [events[i].at];
    RecordedPrefix(events, key, i + 1);
    hide Recorded, Rows, Upsert;
    assert Recorded(events, key)[..at] == past;
  }

  /** Whatever writes fail, the stored count of a key is the number of its recorded events at or after
      first_seen. */
  lemma CountIsEventsSinceFirstSeen(p: Params, events: seq<Event>, key: (string, string)) returns (start: nat)
    requires InOrder(events) && Recorded(events, key) != []
    ensures RowIn(Rows(p, events), key) == After(p, Recorded(events, key))
    ensures CountsFrom(p, Recorded(events, key), start)
  {
    KeysDoNotInterfere(p, events, key);
    RecordedInOrder(events, key);
    start := CountOfRecorded(p, Recorded(events, key));
  }

  /** Whatever writes fail, two events of a key that are let through are at least `backoff` apart. */
  lemma PassesAreBackoffApart(p: Params, events: seq<Event>, i: nat, j: nat)
    requires i < j < |events| && InOrder(events) && events[i].key == events[j].key
    requires LetThrough(p, events, i) && LetThrough(p, events, j)
    ensures events[j].at - events[i].at >= p.backoff
  {
    var key := events[i].key;
    RecordedInOrder(events, key);
    var a := ThroughIsRecorded(p, events, i);
    var b := ThroughIsRecorded(p, events, j);
    assert a < b by {
      RecordedPrefix(events[..j], key, i + 1);
      assert events[..j][..i + 1] == events[..i + 1];
    }
    hide Recorded, LetThrough, Passes;
    RecordedPassesApart(p, Recorded(events, key), a, b);
  }

  /** Whatever writes fail, with a positive window, an event that is let through is the last of at least
      minCount recorded events of its key within the window that ends with it. */
  lemma PassHasMinCount(p: Params, events: seq<Event>, i: nat) returns (start: nat)
    requires i < |events| && InOrder(events) && p.window > 0 && LetThrough(p, events, i)
    ensures var times := Recorded(events[..i + 1], events[i].key);
            && start < |times| && |times| - start >= p.minCount && times[|times| - 1] == events[i].at
            && forall j :: start <= j < |times| ==> events[i].at - p.window <= times[j] <= events[i].at
  {
    var key := events[i].key;
    var times := Recorded(events, key);
    RecordedInOrder(events, key);
    var at := ThroughIsRecorded(p, events, i);
    hide Recorded, LetThrough, Passes;
    start := RecordedPassHasMinCount(p, times, at);
    var upTo := Recorded(events[..i + 1], key);
    forall j | start <= j < |upTo| ensures events[i].at - p.window <= upTo[j] <= events[i].at {
      assert upTo[j] == times[j];
    }
  }
}
