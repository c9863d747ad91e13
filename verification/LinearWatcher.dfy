// The Linear approval watcher (internal/approvals/watcher.go) and the issue text it reads plan ids
// from (internal/approvals/linear.go).
module LinearWatcher {
  import opened Prelude

  datatype Issue = Issue(id: string, title: string, description: string, labels: seq<string>, createdAt: int)

  /** A listed issue with the answers that writing about it would get: relabelling it in Linear, and
      storing the status. */
  datatype Item = Item(issue: Issue, labelOk: bool, store: Stored)

  /** One call of syncOnce: what was listed and when. */
  datatype Sync = Sync(items: seq<Item>, now: int)

  /** A store write that took effect, and whether the watcher saw it succeed. */
  datatype Write = Write(issue: string, plan: string, status: string, confirmed: bool)

  /** The watcher's memory and the store writes that took effect. */
  datatype Watch = Watch(last: map<string, string>, writes: seq<Write>)

  // ---------------------------------------------------------------- statuses and plan ids

  const PENDING := "approval:pending"
  const APPROVED := "approval:approved"
  const DENIED := "approval:denied"
  const EXPIRED := "approval:expired"

  function LabelForStatus(status: string): (name: Option<string>) {
    match status
    case "pending" => Some(PENDING)
    case "approved" => Some(APPROVED)
    case "denied" => Some(DENIED)
    case "expired" => Some(EXPIRED)
    case _ => None
  }

  function ApprovalStatus(labels: seq<string>): (status: string) {
    if APPROVED in labels then "approved"
    else if DENIED in labels then "denied"
    else if EXPIRED in labels then "expired"
    else if PENDING in labels then "pending"
    else ""
  }

  /** Relabelling an issue and listing it again gives the status back. */
  lemma LabelRoundTrip(status: string)
    requires LabelForStatus(status).Some?
    ensures ApprovalStatus([LabelForStatus(status).value]) == status
  {
    assert PENDING[9] == 'p' && APPROVED[9] == 'a' && DENIED[9] == 'd' && EXPIRED[9] == 'e';
  }

  /** What the labels of an issue say: approved before denied before expired before pending. */
  lemma StatusOfLabels(labels: seq<string>)
    ensures var s := ApprovalStatus(labels);
            && (s == "approved" <==> "approval:approved" in labels)
            && (s == "denied" <==> "approval:denied" in labels && "approval:approved" !in labels)
            && (s == "expired" <==>
                "approval:expired" in labels && "approval:denied" !in labels && "approval:approved" !in labels)
            && (s == "pending" <==>
                && "approval:pending" in labels && "approval:expired" !in labels
                && "approval:denied" !in labels && "approval:approved" !in labels)
            && (s in {"approved", "denied", "expired", "pending", ""})
  {
    assert "approved"[0] == 'a' && "denied"[0] == 'd' && "expired"[0] == 'e' && "pending"[0] == 'p';
  }

  const MARK := "plan_"

  predicate MarkAt(s: string, i: nat) {
    i + 5 <= |s| && s[i..i + 5] == MARK
  }

  predicate IsDigit(c: char) {
    '0' <= c <= '9'
  }

  /** strings.Index(s, "plan_") from position i on. */
  function FindMark(s: string, i: nat): (at: Option<nat>)
    decreases |s| - i
  {
    if i + 5 > |s| then None else if MarkAt(s, i) then Some(i) else FindMark(s, i + 1)
  }

  function DigitsEnd(s: string, i: nat): (end: nat)
    requires i <= |s|
    ensures i <= end <= |s|
    decreases |s| - i
  {
    if i < |s| && IsDigit(s[i]) then DigitsEnd(s, i + 1) else i
  }

  function PlanIdIn(s: string): (id: Option<string>) {
    var at := FindMark(s, 0);
    if at.None? then None
    else if at.value + 5 > |s| then None
    else
      var end := DigitsEnd(s, at.value + 5);
      if end == at.value + 5 then None else Some(s[at.value..end])
  }

  method ExtractPlanId(s: string) returns (id: Option<string>)
    ensures id == PlanIdIn(s)
  {
    var start := 0;
    while start + 5 <= |s| && s[start..start + 5] != MARK
      invariant FindMark(s, start) == FindMark(s, 0)
      decreases |s| - start
    {
      start := start + 1;
    }
    if start + 5 > |s| { return None; }
    var end := start + 5;
    while end < |s|
      invariant start + 5 <= end <= |s|
      invariant DigitsEnd(s, end) == DigitsEnd(s, start + 5)
    {
      if s[end] < '0' || s[end] > '9' { break; }
      end := end + 1;
    }
    if end == start + 5 { return None; }
    return Some(s[start..end]);
  }

  predicate IsPlanId(p: string) {
    |p| > 5 && p[..5] == MARK && forall i :: 5 <= i < |p| ==> IsDigit(p[i])
  }

  /** The description and the title that CreateApprovalIssue writes. */
  const DESCRIPTION_HEAD := "Approval required for plan.\n\nPlan ID: "
  const TITLE_HEAD := "Approval required: "

  function Description(plan: string): (text: string) {
    DESCRIPTION_HEAD + plan + "\n"
  }

  function Title(plan: string): (text: string) {
    TITLE_HEAD + plan
  }

  lemma {:induction false} FindMarkFirst(s: string, i: nat, k: nat)
    requires i <= k && MarkAt(s, k) && forall j: nat :: i <= j < k ==> !MarkAt(s, j)
    ensures FindMark(s, i) == Some(k)
    decreases k - i
  {
    if i < k { FindMarkFirst(s, i + 1, k); }
  }

  lemma {:induction false} FindMarkFinds(s: string, i: nat)
    ensures FindMark(s, i).Some? ==> MarkAt(s, FindMark(s, i).value)
    decreases |s| - i
  {
    if i + 5 <= |s| && !MarkAt(s, i) { FindMarkFinds(s, i + 1); }
  }

  lemma {:induction false} DigitsEndAt(s: string, i: nat, end: nat)
    requires i <= end <= |s| && (forall j :: i <= j < end ==> IsDigit(s[j])) && (end < |s| ==> !IsDigit(s[end]))
    ensures DigitsEnd(s, i) == end
    decreases end - i
  {
    if i < end { DigitsEndAt(s, i + 1, end); }
  }

  lemma {:induction false} DigitsEndDigits(s: string, i: nat)
    requires i <= |s|
    ensures forall j :: i <= j < DigitsEnd(s, i) ==> IsDigit(s[j])
    decreases |s| - i
  {
    if i < |s| && IsDigit(s[i]) { DigitsEndDigits(s, i + 1); }
  }

  /** Whatever is extracted is a plan id. */
  lemma ExtractedIsPlanId(s: string)
    ensures PlanIdIn(s).Some? ==> IsPlanId(PlanIdIn(s).value)
  {
    FindMarkFinds(s, 0);
    if PlanIdIn(s).Some? {
      var at := FindMark(s, 0).value;
      DigitsEndDigits(s, at + 5);
      assert s[at..DigitsEnd(s, at + 5)][..5] == s[at..at + 5];
    }
  }

  /** What is extracted: at the first place where the text reads `plan_`, that and all the digits that follow, if
      there are any; nothing if there is no such place or no digit follows it. */
  lemma ExtractedIff(s: string, p: string)
    ensures PlanIdIn(s) == Some(p) <==> exists k: nat :: PlanIdAt(s, p, k)
  {
    FindMarkFinds(s, 0);
    var at := FindMark(s, 0);
    if k: nat :| PlanIdAt(s, p, k) {
      FindMarkFirst(s, 0, k);
      DigitsEndAt(s, k + 5, k + |p|);
      assert s[k..k + |p|] == p;
    }
    if PlanIdIn(s) == Some(p) {
      FirstMark(s, 0);
      DigitsEndDigits(s, at.value + 5);
      DigitsEndStops(s, at.value + 5);
      assert forall i :: 5 <= i < |p| ==> p[i] == s[at.value + i];
      assert PlanIdAt(s, p, at.value);
    }
  }

  /** At k the text reads p, which is `plan_` and at least one digit; no digit follows, and `plan_` is not found
      earlier. */
  ghost predicate PlanIdAt(s: string, p: string, k: nat) {
    && |p| > 5 && k + |p| <= |s| && s[k..k + |p|] == p && s[k..k + 5] == "plan_"
    && (forall i :: 5 <= i < |p| ==> '0' <= p[i] <= '9')
    && (k + |p| < |s| ==> !('0' <= s[k + |p|] <= '9'))
    && forall j: nat :: j < k ==> !MarkAt(s, j)
  }

  lemma {:induction false} FirstMark(s: string, i: nat)
    ensures FindMark(s, i).Some? ==>
              i <= FindMark(s, i).value && forall j: nat :: i <= j < FindMark(s, i).value ==> !MarkAt(s, j)
    decreases |s| - i
  {
    if i + 5 <= |s| && !MarkAt(s, i) { FirstMark(s, i + 1); }
  }

  lemma {:induction false} DigitsEndStops(s: string, i: nat)
    requires i <= |s|
    ensures DigitsEnd(s, i) < |s| ==> !IsDigit(s[DigitsEnd(s, i)])
    decreases |s| - i
  {
    if i < |s| && IsDigit(s[i]) { DigitsEndStops(s, i + 1); }
  }

  /** In a text that opens with no "plan_" of its own, a following plan id is found. */
  lemma FoundAfter(head: string, p: string, tail: string)
    requires IsPlanId(p) && (tail != "" ==> !IsDigit(tail[0]))
    requires forall i :: 0 <= i < |head| ==> head[i] != '_' && (head[i] == 'p' ==> i + 4 < |head|)
    ensures PlanIdIn(head + p + tail) == Some(p)
  {
    var s, k := head + p + tail, |head|;
    assert s[k..k + 5] == p[..5];
    forall j: nat | j < k ensures !MarkAt(s, j) {
      assert MARK[0] == 'p' && MARK[4] == '_';
      if head[j] == 'p' {
        assert s[j..j + 5][4] == head[j + 4];
      } else if j + 5 <= |s| {
        assert s[j..j + 5][0] == head[j];
      }
    }
    FindMarkFirst(s, 0, k);
    DigitsEndAt(s, k + 5, k + |p|);
    assert s[k..k + |p|] == p;
  }

  /** The watcher reads back from an issue the client created exactly the plan ids of the form
      plan_<digits>, from its description and from its title. */
  lemma EmbeddedIdRoundTrip(p: string)
    ensures PlanIdIn(Description(p)) == Some(p) <==> IsPlanId(p)
    ensures PlanIdIn(Title(p)) == Some(p) <==> IsPlanId(p)
  {
    ExtractedIsPlanId(Description(p));
    ExtractedIsPlanId(Title(p));
    if IsPlanId(p) {
      FoundAfter(DESCRIPTION_HEAD, p, "\n");
      FoundAfter(TITLE_HEAD, p, "");
      assert TITLE_HEAD + p + "" == Title(p);
    }
  }

  /** An id of another form is not: issues for `plan_1a` are read as issues for `plan_1`. */
  lemma LongerIdReadShort()
    ensures PlanIdIn(Description("plan_1a")) == Some("plan_1") == PlanIdIn(Title("plan_1a"))
  {
    FoundAfter(DESCRIPTION_HEAD, "plan_1", "a\n");
    FoundAfter(TITLE_HEAD, "plan_1", "a");
    assert DESCRIPTION_HEAD + "plan_1" + "a\n" == Description("plan_1a");
    assert TITLE_HEAD + "plan_1" + "a" == Title("plan_1a");
  }

  // ---------------------------------------------------------------- one sync

  function PlanOf(issue: Issue): (plan: Option<string>) {
    if PlanIdIn(issue.description).Some? then PlanIdIn(issue.description) else PlanIdIn(issue.title)
  }

  predicate TimedOut(issue: Issue, now: int, timeout: int) {
    issue.createdAt < now - timeout
  }

  /** What an issue says at `now`: nothing while it is unlabelled, has no plan id or is pending; a
      pending issue past its timeout has expired. */
  function Effective(issue: Issue, now: int, timeout: int): (status: Option<string>) {
    var s := ApprovalStatus(issue.labels);
    if s == "" || PlanOf(issue).None? then None
    else if s != "pending" then Some(s)
    else if TimedOut(issue, now, timeout) then Some("expired") else None
  }

  /** One turn of the loop: the new memory and whether there was no error. */
  function Observe(w: Watch, it: Item, now: int, timeout: int): (r: (Watch, bool)) {
    var issue := it.issue;
    var eff := Effective(issue, now, timeout);
    if eff.None? then (w, true)
    else if ApprovalStatus(issue.labels) == "pending" && !it.labelOk then (w, false)
    else if issue.id in w.last && w.last[issue.id] == eff.value then (w, true)
    else
      var write := Write(issue.id, PlanOf(issue).value, eff.value, it.store.Ok());
      var w1 := w.(writes := if it.store.Applied() then w.writes + [write] else w.writes);
      if it.store.Ok() then (w1.(last := w.last[issue.id := eff.value]), true) else (w1, false)
  }

  /** The plan of an issue is the one its description names, or else the one its title names. */
  lemma PlanOfIssue(issue: Issue, p: string)
    ensures PlanOf(issue) == Some(p) <==>
            || (exists k: nat :: PlanIdAt(issue.description, p, k))
            || (&& (exists k: nat :: PlanIdAt(issue.title, p, k))
                && (forall q, k: nat :: !PlanIdAt(issue.description, q, k)))
  {
    ExtractedIff(issue.description, p);
    ExtractedIff(issue.title, p);
    var d := PlanIdIn(issue.description);
    if d.Some? {
      ExtractedIff(issue.description, d.value);
    } else {
      forall q, k: nat ensures !PlanIdAt(issue.description, q, k) {
        ExtractedIff(issue.description, q);
      }
    }
  }

  /** When an issue says what: one that names a plan says approved, denied or expired by its labels, and a pending
      one expired exactly if it is older than the timeout; everything else says nothing. */
  lemma EffectiveIff(issue: Issue, now: int, timeout: int, s: string)
    ensures Effective(issue, now, timeout) == Some(s) <==>
            && PlanOf(issue).Some?
            && var ls := issue.labels;
               if "approval:approved" in ls then s == "approved"
               else if "approval:denied" in ls then s == "denied"
               else if "approval:expired" in ls then s == "expired"
               else "approval:pending" in ls && now - issue.createdAt > timeout && s == "expired"
  {
    StatusOfLabels(issue.labels);
  }

  /** What a turn does. It fails exactly if a pending issue has timed out and cannot be relabelled, or its status is
      news and the store reports an error. It writes exactly if the status is news, the relabelling did not fail
      and the store takes it; it remembers exactly if that is confirmed. */
  lemma TurnIs(w: Watch, it: Item, now: int, timeout: int)
    ensures var (w1, ok) := Observe(w, it, now, timeout);
            var eff := Effective(it.issue, now, timeout);
            var stuck := ApprovalStatus(it.issue.labels) == "pending" && !it.labelOk;
            var news := eff.Some? && !stuck && !(it.issue.id in w.last && w.last[it.issue.id] == eff.value);
            && (ok <==> !(eff.Some? && stuck) && !(news && it.store != Saved))
            && (!news || it.store == Rejected ==> w1.writes == w.writes)
            && (news && it.store != Rejected ==>
                  var write := Write(it.issue.id, PlanOf(it.issue).value, eff.value, it.store == Saved);
                  w1.writes == w.writes + [write])
            && w1.last == if news && it.store == Saved then w.last[it.issue.id := eff.value] else w.last
  {
    hide PlanOf, ApprovalStatus;
  }

  function ObserveAll(w: Watch, items: seq<Item>, now: int, timeout: int): (r: (Watch, bool))
    decreases |items|
  {
    if items == [] then (w, true)
    else
      var (w1, ok) := Observe(w, items[0], now, timeout);
      if ok then ObserveAll(w1, items[1..], now, timeout) else (w1, false)
  }

  class Watcher {
    const timeout: int
    var last: map<string, string>
    var writes: seq<Write>

    constructor (timeout: int)
      ensures this.timeout == (if timeout <= 0 then 24 * 3600_000_000_000 else timeout) && View() == Watch(map[], [])
    {
      this.timeout := if timeout <= 0 then 24 * 3600_000_000_000 else timeout;
      last, writes := map[], [];
    }

    ghost function View(): (view: Watch)
      reads this
    {
      Watch(last, writes)
    }

    method SyncOnce(items: seq<Item>, now: int) returns (ok: bool)
      modifies this
      ensures (View(), ok) == ObserveAll(old(View()), items, now, timeout)
    {
      for i := 0 to |items|
        invariant ObserveAll(View(), items[i..], now, timeout) == ObserveAll(old(View()), items, now, timeout)
      {
        assert items[i..][1..] == items[i + 1..];
        var it := items[i];
        var issue := it.issue;
        var status := ApprovalStatus(issue.labels);
        if status == "" { continue; }
        var plan := ExtractPlanId(issue.description);
        if plan.None? { plan := ExtractPlanId(issue.title); }
        if plan.None? { continue; }
        if status == "pending" && issue.createdAt < now - timeout {
          if !it.labelOk { return false; }
          status := "expired";
        }
        if status == "pending" { continue; }
        if issue.id in last && last[issue.id] == status { continue; }
        if it.store.Applied() { writes := writes + [Write(issue.id, plan.value, status, it.store.Ok())]; }
        if !it.store.Ok() { return false; }
        last := last[issue.id := status];
      }
      return true;
    }
  }

  // ---------------------------------------------------------------- series of syncs

  /** The watcher's loop: one sync after the other, up to and including the first that fails. */
  function Run(w: Watch, syncs: seq<Sync>, timeout: int): (w1: Watch)
    decreases |syncs|
  {
    if syncs == [] then w
    else
      var (w1, ok) := ObserveAll(w, syncs[0].items, syncs[0].now, timeout);
      if ok then Run(w1, syncs[1..], timeout) else w1
  }

  /** A sync goes through the issues in order, each turn starting where the one before ended, and stops at the first
      that fails: the issues after it make no difference. */
  lemma {:induction false} SyncStopsAtError(w: Watch, past: seq<Item>, it: Item, rest: seq<Item>, now: int,
                                            timeout: int)
    ensures var (w1, ok) := ObserveAll(w, past, now, timeout);
            var (w2, fine) := Observe(w1, it, now, timeout);
            && (!ok ==> ObserveAll(w, past + [it] + rest, now, timeout) == (w1, false))
            && (ok && !fine ==> ObserveAll(w, past + [it] + rest, now, timeout) == (w2, false))
            && (ok && fine ==>
                  ObserveAll(w, past + [it] + rest, now, timeout) == ObserveAll(w2, rest, now, timeout))
    decreases |past|
  {
    hide Observe;
    var all := past + [it] + rest;
    if past == [] {
      assert all[0] == it && all[1..] == rest;
    } else {
      assert all[0] == past[0] && all[1..] == past[1..] + [it] + rest;
      SyncStopsAtError(Observe(w, past[0], now, timeout).0, past[1..], it, rest, now, timeout);
    }
  }

  /** The loop goes on after a sync exactly if that succeeded. */
  lemma LoopStopsAtError(w: Watch, s: Sync, rest: seq<Sync>, timeout: int)
    ensures var (w1, ok) := ObserveAll(w, s.items, s.now, timeout);
            Run(w, [s] + rest, timeout) == if ok then Run(w1, rest, timeout) else w1
  {
    hide ObserveAll;
    assert ([s] + rest)[1..] == rest;
  }

  /** The statuses written for an issue and confirmed. */
  function Written(writes: seq<Write>, id: string): (statuses: seq<string>) {
    if writes == [] then []
    else
      var n := |writes| - 1;
      Written(writes[..n], id) + if writes[n].issue == id && writes[n].confirmed then [writes[n].status] else []
  }

  /** `last` is the last confirmed write of each issue. */
  ghost predicate Remembers(w: Watch) {
    forall id :: var ss := Written(w.writes, id);
                 if id in w.last then ss != [] && ss[|ss| - 1] == w.last[id] else ss == []
  }

  lemma ObserveRemembers(w: Watch, it: Item, now: int, timeout: int)
    requires Remembers(w)
    ensures Remembers(Observe(w, it, now, timeout).0)
  {
    var w1 := Observe(w, it, now, timeout).0;
    if w1 != w {
      var n := |w.writes|;
      assert w1.writes[..n] == w.writes;
    }
  }

  lemma {:induction false} ObserveAllRemembers(w: Watch, items: seq<Item>, now: int, timeout: int)
    requires Remembers(w)
    ensures Remembers(ObserveAll(w, items, now, timeout).0)
    decreases |items|
  {
    if items != [] {
      ObserveRemembers(w, items[0], now, timeout);
      ObserveAllRemembers(Observe(w, items[0], now, timeout).0, items[1..], now, timeout);
    }
  }

  /** Over any series of syncs, a failing one included, `last` equals the last confirmed write. */
  lemma {:induction false} LastIsLastWrite(w: Watch, syncs: seq<Sync>, timeout: int)
    requires Remembers(w)
    ensures Remembers(Run(w, syncs, timeout))
    decreases |syncs|
  {
    if syncs != [] {
      ObserveAllRemembers(w, syncs[0].items, syncs[0].now, timeout);
      var (w1, ok) := ObserveAll(w, syncs[0].items, syncs[0].now, timeout);
      if ok { LastIsLastWrite(w1, syncs[1..], timeout); }
    }
  }

  /** The effective statuses of one issue, in the order observed, pending ones dropped. */
  function Seen(items: seq<Item>, now: int, timeout: int, id: string): (statuses: seq<string>) {
    if items == [] then []
    else SeenOne(items[0], now, timeout, id) + Seen(items[1..], now, timeout, id)
  }

  function SeenInAll(syncs: seq<Sync>, timeout: int, id: string): (statuses: seq<string>) {
    if syncs == [] then []
    else Seen(syncs[0].items, syncs[0].now, timeout, id) + SeenInAll(syncs[1..], timeout, id)
  }

  /** Collapse repeats, `prev` being the element before the first. */
  function Collapse(prev: Option<string>, ss: seq<string>): (changes: seq<string>)
    decreases |ss|
  {
    if ss == [] then []
    else if prev == Some(ss[0]) then Collapse(prev, ss[1..])
    else [ss[0]] + Collapse(Some(ss[0]), ss[1..])
  }

  function LastOf(w: Watch, id: string): (status: Option<string>) {
    if id in w.last then Some(w.last[id]) else None
  }

  ghost predicate ErrorFree(items: seq<Item>) {
    forall it :: it in items ==> it.labelOk && it.store.Ok()
  }

  lemma WrittenSnoc(writes: seq<Write>, x: Write, id: string)
    ensures Written(writes + [x], id) ==
            Written(writes, id) + if x.issue == id && x.confirmed then [x.status] else []
  {
    assert (writes + [x])[..|writes|] == writes;
  }

  lemma {:induction false} CollapseAppend(prev: Option<string>, a: seq<string>, b: seq<string>)
    ensures Collapse(prev, a + b) ==
            Collapse(prev, a) + Collapse(if a == [] then prev else Some(a[|a| - 1]), b)
    decreases |a|
  {
    if a == [] {
      assert a + b == b;
    } else {
      assert (a + b)[1..] == a[1..] + b;
      CollapseAppend(Some(a[0]), a[1..], b);
    }
  }

  /** What one listed item contributes to the observations of an issue. */
  function SeenOne(it: Item, now: int, timeout: int, id: string): (statuses: seq<string>) {
    var eff := Effective(it.issue, now, timeout);
    if it.issue.id == id && eff.Some? then [eff.value] else []
  }

  lemma ItemWritten(w: Watch, it: Item, now: int, timeout: int, id: string)
    requires it.labelOk && it.store.Ok()
    ensures var (w1, ok) := Observe(w, it, now, timeout);
            var seen := SeenOne(it, now, timeout, id);
            && ok
            && Written(w1.writes, id) == Written(w.writes, id) + Collapse(LastOf(w, id), seen)
            && LastOf(w1, id) == if seen == [] then LastOf(w, id) else Some(seen[|seen| - 1])
  {
    hide Effective, PlanOf, ApprovalStatus;
    var w1 := Observe(w, it, now, timeout).0;
    if w1 != w {
      WrittenSnoc(w.writes, w1.writes[|w.writes|], id);
    }
    assert Written(w.writes, id) + [] == Written(w.writes, id);
  }

  lemma {:induction false} ItemsWritten(w: Watch, items: seq<Item>, now: int, timeout: int, id: string)
    requires ErrorFree(items)
    ensures var (w1, ok) := ObserveAll(w, items, now, timeout);
            var seen := Seen(items, now, timeout, id);
            && ok
            && Written(w1.writes, id) == Written(w.writes, id) + Collapse(LastOf(w, id), seen)
            && LastOf(w1, id) == if seen == [] then LastOf(w, id) else Some(seen[|seen| - 1])
    decreases |items|
  {
    hide Observe, SeenOne, Effective, Written, LastOf, Collapse;
    if items == [] {
      assert Collapse(LastOf(w, id), []) == [] by { CollapseNothing(LastOf(w, id)); }
    } else {
      var it := items[0];
      var one, rest := SeenOne(it, now, timeout, id), Seen(items[1..], now, timeout, id);
      assert Seen(items, now, timeout, id) == one + rest;
      hide Seen;
      var w1 := Observe(w, it, now, timeout).0;
      ItemWritten(w, it, now, timeout, id);
      ItemsWritten(w1, items[1..], now, timeout, id);
      CollapseAppend(LastOf(w, id), one, rest);
      Assoc(Written(w.writes, id), Collapse(LastOf(w, id), one), Collapse(LastOf(w1, id), rest));
    }
  }

  lemma CollapseNothing(prev: Option<string>)
    ensures Collapse(prev, []) == []
  {
  }

  /** Over any error-free series of syncs, what is written for an issue is its observed effective statuses
      with repeats collapsed. */
  lemma {:induction false} WritesAreStatusChanges(w: Watch, syncs: seq<Sync>, timeout: int, id: string)
    requires forall s :: s in syncs ==> ErrorFree(s.items)
    ensures Written(Run(w, syncs, timeout).writes, id) ==
            Written(w.writes, id) + Collapse(LastOf(w, id), SeenInAll(syncs, timeout, id))
    decreases |syncs|
  {
    hide ObserveAll, Seen, Written, LastOf, Collapse;
    if syncs == [] {
      CollapseNothing(LastOf(w, id));
    } else {
      var s := syncs[0];
      assert s in syncs;
      var w1 := ObserveAll(w, s.items, s.now, timeout).0;
      var one, rest := Seen(s.items, s.now, timeout, id), SeenInAll(syncs[1..], timeout, id);
      ItemsWritten(w, s.items, s.now, timeout, id);
      WritesAreStatusChanges(w1, syncs[1..], timeout, id);
      CollapseAppend(LastOf(w, id), one, rest);
      Assoc(Written(w.writes, id), Collapse(LastOf(w, id), one), Collapse(LastOf(w1, id), rest));
    }
  }

  /** Every listed issue named `id` is one the client created for `plan`. */
  ghost predicate CreatedFor(items: seq<Item>, id: string, plan: string) {
    forall it :: it in items && it.issue.id == id ==> it.issue.description == Description(plan)
  }

  ghost predicate WritesFor(writes: seq<Write>, id: string, plan: string) {
    forall x :: x in writes && x.issue == id ==> x.plan == plan
  }

  lemma {:induction false} ItemsWriteFor(w: Watch, items: seq<Item>, now: int, timeout: int, id: string, plan: string)
    requires IsPlanId(plan) && CreatedFor(items, id, plan) && WritesFor(w.writes, id, plan)
    ensures WritesFor(ObserveAll(w, items, now, timeout).0.writes, id, plan)
    decreases |items|
  {
    if items != [] {
      assert items[0] in items;
      EmbeddedIdRoundTrip(plan);
      var (w1, ok) := Observe(w, items[0], now, timeout);
      if ok { ItemsWriteFor(w1, items[1..], now, timeout, id, plan); }
    }
  }

  /** Over any series of syncs, each write for an issue that the client created names the plan whose
      plan_<digits> id it embedded. */
  lemma {:induction false} WritesNameEmbeddedPlan(w: Watch, syncs: seq<Sync>, timeout: int, id: string, plan: string)
    requires IsPlanId(plan) && WritesFor(w.writes, id, plan)
    requires forall s :: s in syncs ==> CreatedFor(s.items, id, plan)
    ensures WritesFor(Run(w, syncs, timeout).writes, id, plan)
    decreases |syncs|
  {
    if syncs != [] {
      var s := syncs[0];
      assert s in syncs;
      ItemsWriteFor(w, s.items, s.now, timeout, id, plan);
      var (w1, ok) := ObserveAll(w, s.items, s.now, timeout);
      if ok { WritesNameEmbeddedPlan(w1, syncs[1..], timeout, id, plan); }
    }
  }
}
