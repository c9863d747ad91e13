// From a label in Linear to an execution: the watcher, the approval rows and the execute gate together.
// A sync is a listing followed by one turn per listed issue, an :execute request is a check followed by a
// creation; anything may happen in between.
module ApprovalFlow {
  import opened Prelude
  import W = LinearWatcher
  import L = ApprovalLedger

  /** The watcher lists issues; it takes its turn on the next listed one; its process starts anew; or
      something else happens to the ledger: an approval request, a decision from elsewhere, a step of an
      execute request. */
  datatype Event = Listed(sync: W.Sync) | Turn | Restarted | Ledgered(op: L.Op)

  /** The watcher's memory, what its current sync has still to reach, whether it is still running, and
      everything that has happened to the ledger, in order. */
  datatype Flow = Flow(watch: W.Watch, queue: seq<W.Item>, now: int, running: bool, ops: seq<L.Op>)

  const START: Flow := Flow(W.Watch(map[], []), [], 0, true, [])

  /** A store write of the watcher is a by-plan decision. */
  function Decisions(writes: seq<W.Write>): (ops: seq<L.Op>) {
    seq(|writes|, i requires 0 <= i < |writes| => L.Decide(writes[i].plan, writes[i].status))
  }

  function NewWrites(before: W.Watch, after: W.Watch): (writes: seq<W.Write>) {
    if |before.writes| <= |after.writes| then after.writes[|before.writes|..] else []
  }

  /** The watcher is one goroutine: it lists again only when its sync is over. An error ends it, and only
      a new process, which remembers nothing, lists again. */
  function Step(f: Flow, e: Event, timeout: int): (f1: Flow) {
    match e
    case Listed(s) => if f.running && f.queue == [] then f.(queue := s.items, now := s.now) else f
    case Turn =>
      if f.queue == [] then f
      else
        var (w, ok) := W.Observe(f.watch, f.queue[0], f.now, timeout);
        Flow(w, if ok then f.queue[1..] else [], f.now, ok, f.ops + Decisions(NewWrites(f.watch, w)))
    case Restarted => f.(watch := f.watch.(last := map[]), queue := [], running := true)
    case Ledgered(op) => f.(ops := f.ops + [op])
  }

  function After(events: seq<Event>, timeout: int): (f: Flow) {
    if events == [] then START
    else Step(After(events[..|events| - 1], timeout), events[|events| - 1], timeout)
  }

  // ---------------------------------------------------------------- histories

  /** An issue with the plan and the effective status it was found to have; or a restart. */
  datatype Note = Note(issue: string, plan: string, status: string) | Restart

  function NoteOf(it: W.Item, now: int, timeout: int): (notes: seq<Note>) {
    var eff := W.Effective(it.issue, now, timeout);
    if eff.Some? then [Note(it.issue.id, W.PlanOf(it.issue).value, eff.value)] else []
  }

  function NotesOf(items: seq<W.Item>, now: int, timeout: int): (notes: seq<Note>) {
    if items == [] then [] else NoteOf(items[0], now, timeout) + NotesOf(items[1..], now, timeout)
  }

  /** What a step adds to what has been processed: the status that a turn gets through with, be it that
      the turn succeeds or that its write takes effect. */
  function ProcessedIn(f: Flow, e: Event, timeout: int): (notes: seq<Note>) {
    match e
    case Turn =>
      if f.queue == [] then []
      else
        var (w, ok) := W.Observe(f.watch, f.queue[0], f.now, timeout);
        if ok || |f.watch.writes| < |w.writes| then NoteOf(f.queue[0], f.now, timeout) else []
    case Restarted => [Restart]
    case _ => []
  }

  function Processed(events: seq<Event>, timeout: int): (notes: seq<Note>) {
    if events == [] then []
    else
      var n := |events| - 1;
      Processed(events[..n], timeout) + ProcessedIn(After(events[..n], timeout), events[n], timeout)
  }

  /** What a step adds to what has been observed: everything that a listing shows. */
  function ObservedIn(f: Flow, e: Event, timeout: int): (notes: seq<Note>) {
    match e
    case Listed(s) => if f.running && f.queue == [] then NotesOf(s.items, s.now, timeout) else []
    case Restarted => [Restart]
    case _ => []
  }

  function Observed(events: seq<Event>, timeout: int): (notes: seq<Note>) {
    if events == [] then []
    else
      var n := |events| - 1;
      Observed(events[..n], timeout) + ObservedIn(After(events[..n], timeout), events[n], timeout)
  }

  /** The last status noted for an issue since the last restart. */
  function LastStatus(notes: seq<Note>, id: string): (s: Option<string>) {
    if notes == [] then None
    else
      var n := |notes| - 1;
      match notes[n]
      case Restart => None
      case Note(issue, _, status) => if issue == id then Some(status) else LastStatus(notes[..n], id)
  }

  /** The last status noted for an issue at all. */
  function LastEver(notes: seq<Note>, id: string): (s: Option<string>) {
    if notes == [] then None
    else
      var n := |notes| - 1;
      if notes[n].Note? && notes[n].issue == id then Some(notes[n].status) else LastEver(notes[..n], id)
  }

  /** The statuses noted for a plan, through whatever issues, that differ from the one noted before for the
      same issue since the last restart. */
  function Changes(notes: seq<Note>, plan: string): (ss: seq<string>) {
    if notes == [] then []
    else
      var n := |notes| - 1;
      var x := notes[n];
      Changes(notes[..n], plan) +
      if x.Note? && x.plan == plan && LastStatus(notes[..n], x.issue) != Some(x.status) then [x.status] else []
  }

  function LastIn(ss: seq<string>): (s: Option<string>) {
    if ss == [] then None else Some(ss[|ss| - 1])
  }

  function LastDecision(ops: seq<L.Op>, plan: string): (s: Option<string>) {
    if ops == [] then None
    else
      var op := ops[|ops| - 1];
      if op.Decide? && op.plan == plan then Some(op.status) else LastDecision(ops[..|ops| - 1], plan)
  }

  /** The statuses of the writes that name the plan. */
  function PlanWrites(writes: seq<W.Write>, plan: string): (ss: seq<string>) {
    if writes == [] then []
    else
      var n := |writes| - 1;
      PlanWrites(writes[..n], plan) + if writes[n].plan == plan then [writes[n].status] else []
  }

  lemma LastDecisionSnoc(ops: seq<L.Op>, op: L.Op, plan: string)
    ensures LastDecision(ops + [op], plan) ==
            if op.Decide? && op.plan == plan then Some(op.status) else LastDecision(ops, plan)
  {
    assert (ops + [op])[..|ops|] == ops;
  }

  lemma {:induction false} ApprovalIsLastDecision(ops: seq<L.Op>, plan: string)
    requires L.LatestIsApproval(ops, plan)
    ensures LastDecision(ops, plan) == Some("approved")
    decreases |ops|
  {
    L.LatestSnoc(ops, plan);
    var n := |ops| - 1;
    if !(ops[n].Decide? && ops[n].plan == plan) { ApprovalIsLastDecision(ops[..n], plan); }
  }

  /** Once a plan with a row has been approved, the latest decision alone tells whether it still is. */
  lemma {:induction false} LastDecisionTells(ops: seq<L.Op>, plan: string, from: nat, until: nat)
    requires from <= until <= |ops| && L.LatestIsApproval(ops[..from], plan)
    ensures L.LatestIsApproval(ops[..until], plan) <==> LastDecision(ops[..until], plan) == Some("approved")
    decreases until
  {
    hide L.LatestIsApproval, L.HasRow, L.After;
    if from == until {
      ApprovalIsLastDecision(ops[..from], plan);
    } else {
      LastDecisionTells(ops, plan, from, until - 1);
      assert ops[..until][..until - 1] == ops[..until - 1];
      L.LatestSnoc(ops[..until], plan);
      L.ApprovalHasRow(ops[..from], plan);
      L.RowsStay(ops, plan, from, until - 1);
    }
  }

  lemma AppendLast(a: seq<string>, b: seq<string>)
    ensures LastIn(a + b) == if b == [] then LastIn(a) else LastIn(b)
  {
    assert a + [] == a;
  }

  lemma NotesSnoc(notes: seq<Note>, x: Note, plan: string)
    ensures forall id :: LastStatus(notes + [x], id) ==
                         if x.Restart? then None else if x.issue == id then Some(x.status) else LastStatus(notes, id)
    ensures Changes(notes + [x], plan) == Changes(notes, plan) +
              if x.Note? && x.plan == plan && LastStatus(notes, x.issue) != Some(x.status) then [x.status] else []
  {
    assert (notes + [x])[..|notes|] == notes;
  }

  lemma PlanWritesSnoc(writes: seq<W.Write>, x: W.Write, plan: string)
    ensures PlanWrites(writes + [x], plan) == PlanWrites(writes, plan) + if x.plan == plan then [x.status] else []
  {
    assert (writes + [x])[..|writes|] == writes;
  }

  // ---------------------------------------------------------------- writes are changes

  ghost predicate Agrees(w: W.Watch, notes: seq<Note>) {
    forall id :: W.LastOf(w, id) == LastStatus(notes, id)
  }

  /** While it runs, the watcher remembers for each issue the last status it got through with since its
      process started. */
  ghost predicate Remembers(f: Flow, notes: seq<Note>) {
    && (f.queue != [] ==> f.running)
    && (f.running ==> Agrees(f.watch, notes))
  }

  /** What a turn does, in terms of the issue's effective status alone. */
  lemma TurnWrites(w: W.Watch, it: W.Item, now: int, timeout: int)
    ensures var (w1, ok) := W.Observe(w, it, now, timeout);
            var eff := W.Effective(it.issue, now, timeout);
            && (eff.None? ==> ok && w1 == w)
            && (eff.Some? && |w1.writes| <= |w.writes| ==> w1 == w && (ok ==> W.LastOf(w, it.issue.id) == eff))
            && (eff.Some? && |w.writes| < |w1.writes| ==>
                  && W.LastOf(w, it.issue.id) != eff
                  && w1.writes == w.writes + [W.Write(it.issue.id, W.PlanOf(it.issue).value, eff.value, ok)]
                  && (ok ==> w1.last == w.last[it.issue.id := eff.value]))
  {
    hide W.Effective, W.PlanOf, W.ApprovalStatus;
    EffectiveHasPlan(it.issue, now, timeout);
  }

  lemma EffectiveHasPlan(issue: W.Issue, now: int, timeout: int)
    ensures W.Effective(issue, now, timeout).Some? ==> W.PlanOf(issue).Some?
  {
  }

  /** A status that is written is a change. */
  lemma WrittenIsChange(w: W.Watch, w1: W.Watch, x: Note, ok: bool, notes: seq<Note>, plan: string)
    requires x.Note? && Agrees(w, notes) && PlanWrites(w.writes, plan) == Changes(notes, plan)
    requires W.LastOf(w, x.issue) != Some(x.status)
    requires w1.writes == w.writes + [W.Write(x.issue, x.plan, x.status, ok)]
    requires ok ==> w1.last == w.last[x.issue := x.status]
    ensures PlanWrites(w1.writes, plan) == Changes(notes + [x], plan) && (ok ==> Agrees(w1, notes + [x]))
  {
    NotesSnoc(notes, x, plan);
    PlanWritesSnoc(w.writes, W.Write(x.issue, x.plan, x.status, ok), plan);
    hide LastStatus, Changes, PlanWrites;
  }

  /** A status that is remembered is none. */
  lemma RememberedIsNone(w: W.Watch, x: Note, notes: seq<Note>, plan: string)
    requires x.Note? && Agrees(w, notes) && W.LastOf(w, x.issue) == Some(x.status)
    ensures Changes(notes + [x], plan) == Changes(notes, plan) && Agrees(w, notes + [x])
  {
    NotesSnoc(notes, x, plan);
    hide LastStatus, Changes;
    assert Changes(notes, plan) + [] == Changes(notes, plan);
  }

  lemma TurnKeeps(f: Flow, timeout: int, notes: seq<Note>, plan: string)
    requires f.queue != [] && Remembers(f, notes) && PlanWrites(f.watch.writes, plan) == Changes(notes, plan)
    ensures var f1, notes1 := Step(f, Turn, timeout), notes + ProcessedIn(f, Turn, timeout);
            Remembers(f1, notes1) && PlanWrites(f1.watch.writes, plan) == Changes(notes1, plan)
  {
    var it := f.queue[0];
    var (w1, ok) := W.Observe(f.watch, it, f.now, timeout);
    TurnWrites(f.watch, it, f.now, timeout);
    hide W.Observe, W.Effective, W.PlanOf, W.LastOf, LastStatus, Changes, PlanWrites, Agrees;
    assert notes + [] == notes;
    var eff := W.Effective(it.issue, f.now, timeout);
    if eff.Some? {
      var x := Note(it.issue.id, W.PlanOf(it.issue).value, eff.value);
      if |f.watch.writes| < |w1.writes| {
        WrittenIsChange(f.watch, w1, x, ok, notes, plan);
      } else if ok {
        RememberedIsNone(f.watch, x, notes, plan);
      }
    }
  }

  lemma StepKeeps(f: Flow, e: Event, timeout: int, notes: seq<Note>, plan: string)
    requires Remembers(f, notes) && PlanWrites(f.watch.writes, plan) == Changes(notes, plan)
    ensures var f1, notes1 := Step(f, e, timeout), notes + ProcessedIn(f, e, timeout);
            Remembers(f1, notes1) && PlanWrites(f1.watch.writes, plan) == Changes(notes1, plan)
  {
    hide LastStatus, Changes, PlanWrites, NoteOf, W.Observe;
    assert notes + [] == notes;
    match e
    case Turn => if f.queue != [] { TurnKeeps(f, timeout, notes, plan); }
    case Restarted =>
      NotesSnoc(notes, Restart, plan);
      assert Changes(notes, plan) + [] == Changes(notes, plan);
    case _ =>
  }

  /** In every interleaving, failing syncs and restarts included, the watcher remembers the last status it
      got through with for each issue, and its writes for a plan are exactly the changes of status it got
      through with, whatever the number of issues that name the plan. */
  lemma {:induction false} WritesAreChanges(events: seq<Event>, timeout: int, plan: string)
    ensures var f, notes := After(events, timeout), Processed(events, timeout);
            Remembers(f, notes) && PlanWrites(f.watch.writes, plan) == Changes(notes, plan)
    decreases |events|
  {
    if events != [] {
      hide Step, ProcessedIn, Remembers, PlanWrites, Changes;
      var n := |events| - 1;
      WritesAreChanges(events[..n], timeout, plan);
      StepKeeps(After(events[..n], timeout), events[n], timeout, Processed(events[..n], timeout), plan);
    }
  }

  // ---------------------------------------------------------------- decisions follow the changes

  /** No one else decides on the plan. */
  ghost predicate WatcherDecides(events: seq<Event>, plan: string) {
    forall e :: e in events && e.Ledgered? && e.op.Decide? ==> e.op.plan != plan
  }

  lemma PrefixDecides(events: seq<Event>, k: nat, plan: string)
    requires k <= |events| && WatcherDecides(events, plan)
    ensures WatcherDecides(events[..k], plan)
  {
    assert forall e :: e in events[..k] ==> e in events;
  }

  lemma TurnAddsOneWrite(f: Flow, timeout: int, plan: string)
    requires f.queue != [] && LastDecision(f.ops, plan) == LastIn(PlanWrites(f.watch.writes, plan))
    ensures var f1 := Step(f, Turn, timeout); LastDecision(f1.ops, plan) == LastIn(PlanWrites(f1.watch.writes, plan))
  {
    var it := f.queue[0];
    var w1 := W.Observe(f.watch, it, f.now, timeout).0;
    TurnWrites(f.watch, it, f.now, timeout);
    hide W.Observe, W.Effective, W.PlanOf, LastDecision, PlanWrites, LastIn;
    if |f.watch.writes| < |w1.writes| {
      var x := w1.writes[|f.watch.writes|];
      assert NewWrites(f.watch, w1) == [x];
      assert Decisions([x]) == [L.Decide(x.plan, x.status)];
      LastDecisionSnoc(f.ops, L.Decide(x.plan, x.status), plan);
      PlanWritesSnoc(f.watch.writes, x, plan);
      AppendLast(PlanWrites(f.watch.writes, plan), if x.plan == plan then [x.status] else []);
      assert LastIn([x.status]) == Some(x.status) by { LastOfOne(x.status); }
    } else {
      assert NewWrites(f.watch, w1) == [] && Decisions([]) == [] && f.ops + [] == f.ops;
    }
  }

  lemma LastOfOne(s: string)
    ensures LastIn([s]) == Some(s)
  {
  }

  lemma StepDecides(f: Flow, e: Event, timeout: int, plan: string)
    requires e.Ledgered? && e.op.Decide? ==> e.op.plan != plan
    requires LastDecision(f.ops, plan) == LastIn(PlanWrites(f.watch.writes, plan))
    ensures var f1 := Step(f, e, timeout); LastDecision(f1.ops, plan) == LastIn(PlanWrites(f1.watch.writes, plan))
  {
    hide LastIn, PlanWrites, LastDecision, W.Observe;
    match e
    case Turn => if f.queue != [] { TurnAddsOneWrite(f, timeout, plan); }
    case Ledgered(op) => LastDecisionSnoc(f.ops, op, plan);
    case _ =>
  }

  lemma {:induction false} DecisionIsLastWrite(events: seq<Event>, timeout: int, plan: string)
    requires WatcherDecides(events, plan)
    ensures var f := After(events, timeout); LastDecision(f.ops, plan) == LastIn(PlanWrites(f.watch.writes, plan))
    decreases |events|
  {
    if events != [] {
      hide Step, LastIn, PlanWrites, LastDecision;
      var n := |events| - 1;
      assert events[n] in events;
      PrefixDecides(events, n, plan);
      DecisionIsLastWrite(events[..n], timeout, plan);
      StepDecides(After(events[..n], timeout), events[n], timeout, plan);
    } else {
      hide Step, W.Observe;
    }
  }

  /** If only the watcher decides on a plan, then in every interleaving the latest decision on it is the
      last change of status that the watcher got through with, among all issues that name the plan. */
  lemma DecisionIsLastChange(events: seq<Event>, timeout: int, plan: string)
    requires WatcherDecides(events, plan)
    ensures LastDecision(After(events, timeout).ops, plan) == LastIn(Changes(Processed(events, timeout), plan))
  {
    hide *;
    DecisionIsLastWrite(events, timeout, plan);
    WritesAreChanges(events, timeout, plan);
  }

  // ---------------------------------------------------------------- one plan, one issue

  /** The plan and the issue name only each other. */
  ghost predicate OneIssue(notes: seq<Note>, id: string, plan: string) {
    forall x :: x in notes && x.Note? ==> (x.issue == id <==> x.plan == plan)
  }

  lemma {:induction false} StatusOrNone(notes: seq<Note>, id: string)
    ensures LastStatus(notes, id).Some? ==> LastStatus(notes, id) == LastEver(notes, id)
  {
    if notes != [] { StatusOrNone(notes[..|notes| - 1], id); }
  }

  lemma {:induction false} OneIssueChanges(notes: seq<Note>, id: string, plan: string)
    requires OneIssue(notes, id, plan)
    ensures LastIn(Changes(notes, plan)) == LastEver(notes, id)
  {
    if notes != [] {
      var n := |notes| - 1;
      var x := notes[n];
      assert x in notes && forall y :: y in notes[..n] ==> y in notes;
      OneIssueChanges(notes[..n], id, plan);
      StatusOrNone(notes[..n], id);
      if x.Note? { AppendLast(Changes(notes[..n], plan), [x.status]); }
      hide LastStatus;
      assert Changes(notes[..n], plan) + [] == Changes(notes[..n], plan);
    }
  }

  /** With one issue for the plan, the latest decision is the last status processed for that issue. */
  lemma DecisionIsLastProcessed(events: seq<Event>, timeout: int, id: string, plan: string)
    requires WatcherDecides(events, plan) && OneIssue(Processed(events, timeout), id, plan)
    ensures LastDecision(After(events, timeout).ops, plan) == LastEver(Processed(events, timeout), id)
  {
    hide *;
    DecisionIsLastChange(events, timeout, plan);
    OneIssueChanges(Processed(events, timeout), id, plan);
  }

  // ---------------------------------------------------------------- the gap

  /** The watcher's calls succeed and its process is not restarted. */
  ghost predicate Undisturbed(events: seq<Event>) {
    forall e :: e in events ==> !e.Restarted? && (e.Listed? ==> W.ErrorFree(e.sync.items))
  }

  lemma StepObserves(f: Flow, e: Event, timeout: int)
    requires f.running && W.ErrorFree(f.queue) && !e.Restarted? && (e.Listed? ==> W.ErrorFree(e.sync.items))
    ensures var f1 := Step(f, e, timeout);
            && f1.running && W.ErrorFree(f1.queue)
            && NotesOf(f.queue, f.now, timeout) + ObservedIn(f, e, timeout) ==
               ProcessedIn(f, e, timeout) + NotesOf(f1.queue, f1.now, timeout)
  {
    var empty: seq<Note> := [];
    assert forall xs: seq<Note> :: xs + empty == xs && empty + xs == xs;
    if e.Turn? && f.queue != [] {
      assert f.queue[0] in f.queue;
      W.ItemWritten(f.watch, f.queue[0], f.now, timeout, "");
      hide W.Observe, NoteOf;
    }
  }

  /** What has been listed is what has been processed and what the current sync has still to reach. */
  lemma {:induction false} ListedIsProcessedOrQueued(events: seq<Event>, timeout: int)
    requires Undisturbed(events)
    ensures var f := After(events, timeout);
            && f.running && W.ErrorFree(f.queue)
            && Observed(events, timeout) == Processed(events, timeout) + NotesOf(f.queue, f.now, timeout)
    decreases |events|
  {
    if events != [] {
      hide Step, ObservedIn, ProcessedIn, NotesOf, W.ErrorFree;
      var n := |events| - 1;
      var f, e := After(events[..n], timeout), events[n];
      assert e in events && forall d :: d in events[..n] ==> d in events;
      ListedIsProcessedOrQueued(events[..n], timeout);
      StepObserves(f, e, timeout);
      var f1 := Step(f, e, timeout);
      Assoc(Processed(events[..n], timeout), NotesOf(f.queue, f.now, timeout), ObservedIn(f, e, timeout));
      Assoc(Processed(events[..n], timeout), ProcessedIn(f, e, timeout), NotesOf(f1.queue, f1.now, timeout));
    }
  }

  lemma {:induction false} ChangesGrow(notes: seq<Note>, more: seq<Note>, plan: string)
    ensures Changes(notes, plan) <= Changes(notes + more, plan)
    decreases |more|
  {
    if more == [] {
      assert notes + more == notes;
    } else {
      var n := |more| - 1;
      ChangesGrow(notes, more[..n], plan);
      assert notes + more == notes + more[..n] + [more[n]];
      NotesSnoc(notes + more[..n], more[n], plan);
    }
  }

  /** The changes that the listed issues in the queue would bring on top of what has been processed. */
  function QueuedChanges(notes: seq<Note>, f: Flow, timeout: int, plan: string): (ss: seq<string>)
    ensures Changes(notes + NotesOf(f.queue, f.now, timeout), plan) == Changes(notes, plan) + ss
  {
    ChangesGrow(notes, NotesOf(f.queue, f.now, timeout), plan);
    Changes(notes + NotesOf(f.queue, f.now, timeout), plan)[|Changes(notes, plan)|..]
  }

  /** The sync under way has listed a change for the plan, other than the status decided, and has not
      reached it. */
  ghost predicate ChangeQueued(events: seq<Event>, timeout: int, plan: string) {
    var f := After(events, timeout);
    var ss := QueuedChanges(Processed(events, timeout), f, timeout, plan);
    ss != [] && LastIn(ss) != LastDecision(f.ops, plan)
  }

  /** The latest decision is the last change observed for the plan exactly while no listed change of it
      waits in an unfinished sync. */
  lemma DecisionIsLastObservedIff(events: seq<Event>, timeout: int, plan: string)
    requires WatcherDecides(events, plan) && Undisturbed(events)
    ensures LastDecision(After(events, timeout).ops, plan) == LastIn(Changes(Observed(events, timeout), plan))
            <==> !ChangeQueued(events, timeout, plan)
  {
    hide After, LastDecision, LastIn, Observed, Processed, NotesOf, Changes, WatcherDecides, QueuedChanges;
    var f, notes := After(events, timeout), Processed(events, timeout);
    DecisionIsLastChange(events, timeout, plan);
    ListedIsProcessedOrQueued(events, timeout);
    AppendLast(Changes(notes, plan), QueuedChanges(notes, f, timeout, plan));
  }

  // ---------------------------------------------------------------- end to end

  lemma TurnAddsOne(w: W.Watch, it: W.Item, now: int, timeout: int)
    ensures |Decisions(NewWrites(w, W.Observe(w, it, now, timeout).0))| <= 1
  {
    hide W.Effective, W.PlanOf, W.ApprovalStatus;
  }

  lemma StepAddsOne(f: Flow, e: Event, timeout: int)
    ensures var f1 := Step(f, e, timeout);
            f.ops <= f1.ops && |f1.ops| <= |f.ops| + 1
  {
    hide W.Observe, Decisions;
    if e.Turn? && f.queue != [] { TurnAddsOne(f.watch, f.queue[0], f.now, timeout); }
  }

  /** The moment in the run at which the ledger had exactly its first i ops behind it. */
  lemma {:induction false} MomentOf(events: seq<Event>, timeout: int, i: nat) returns (k: nat)
    requires i <= |After(events, timeout).ops|
    ensures k <= |events| && After(events[..k], timeout).ops == After(events, timeout).ops[..i]
    decreases |events|
  {
    var ops := After(events, timeout).ops;
    if i == |ops| {
      k := |events|;
      assert events[..k] == events && ops[..i] == ops;
    } else {
      hide Step;
      var n := |events| - 1;
      StepAddsOne(After(events[..n], timeout), events[n], timeout);
      k := MomentOf(events[..n], timeout, i);
      assert events[..n][..k] == events[..k];
      assert After(events[..n], timeout).ops[..i] == ops[..i];
    }
  }

  /** If only the watcher decides on a plan, then in every interleaving of its syncs with requests an
      execution of a write plan read its status (moment k) when the last change processed for the plan was
      `approved`; at its creation (moment j) that is still so exactly if no denial processed in between
      lasted. */
  lemma ExecutedOnlyWhenLabelled(events: seq<Event>, timeout: int, plan: string, x: L.Execution)
    returns (k: nat, j: nat)
    requires WatcherDecides(events, plan)
    requires x in L.After(After(events, timeout).ops).executions && x.plan == plan && x.write
    ensures var ops := After(events, timeout).ops;
            && x.readAt < x.at < |ops| && k <= |events| && j <= |events|
            && After(events[..k], timeout).ops == ops[..x.readAt]
            && After(events[..j], timeout).ops == ops[..x.at]
            && LastIn(Changes(Processed(events[..k], timeout), plan)) == Some("approved")
            && (LastIn(Changes(Processed(events[..j], timeout), plan)) == Some("approved") <==>
                L.NoLastingDenial(ops, plan, x.readAt, x.at))
  {
    hide *;
    var ops := After(events, timeout).ops;
    L.ReadWasApproved(ops, x);
    L.CreatedWhileApprovedIff(ops, x);
    k := MomentOf(events, timeout, x.readAt);
    j := MomentOf(events, timeout, x.at);
    PrefixDecides(events, k, plan);
    PrefixDecides(events, j, plan);
    DecisionIsLastChange(events[..k], timeout, plan);
    DecisionIsLastChange(events[..j], timeout, plan);
    ApprovalIsLastDecision(ops[..x.readAt], plan);
    LastDecisionTells(ops, plan, x.readAt, x.at);
  }

  // ---------------------------------------------------------------- turns make a sync

  lemma AfterSnoc(events: seq<Event>, e: Event, timeout: int)
    ensures var f := After(events, timeout);
            && After(events + [e], timeout) == Step(f, e, timeout)
            && Processed(events + [e], timeout) == Processed(events, timeout) + ProcessedIn(f, e, timeout)
            && Observed(events + [e], timeout) == Observed(events, timeout) + ObservedIn(f, e, timeout)
  {
    assert (events + [e])[..|events|] == events;
  }

  function Turns(n: nat): (events: seq<Event>) {
    seq(n, _ => Turn)
  }

  /** Taking its turn on each queued issue, the watcher does what a sync does, and is still running exactly if
      that succeeds. */
  lemma {:induction false} TurnsAreSync(events: seq<Event>, timeout: int, n: nat)
    requires var f := After(events, timeout); f.running && n == |f.queue|
    ensures var f, f1 := After(events, timeout), After(events + Turns(n), timeout);
            f1.queue == [] && (f1.watch, f1.running) == W.ObserveAll(f.watch, f.queue, f.now, timeout)
    decreases n
  {
    var f := After(events, timeout);
    if n == 0 {
      assert events + Turns(0) == events;
    } else {
      AfterSnoc(events, Turn, timeout);
      var more := events + [Turn];
      var f1 := After(more, timeout);
      assert events + Turns(n) == more + Turns(n - 1);
      hide W.Observe, Decisions, After;
      if f1.running {
        TurnsAreSync(more, timeout, n - 1);
      } else {
        IdleTurns(more, timeout, n - 1);
      }
    }
  }

  lemma {:induction false} IdleTurns(events: seq<Event>, timeout: int, n: nat)
    requires After(events, timeout).queue == []
    ensures After(events + Turns(n), timeout) == After(events, timeout)
    decreases n
  {
    if n == 0 {
      assert events + Turns(0) == events;
    } else {
      AfterSnoc(events, Turn, timeout);
      assert events + Turns(n) == events + [Turn] + Turns(n - 1);
      hide After;
      IdleTurns(events + [Turn], timeout, n - 1);
    }
  }

  // ---------------------------------------------------------------- two issues for one plan

  function IssueFor(plan: string, id: string, name: string): (it: W.Item) {
    W.Item(W.Issue(id, W.Title(plan), W.Description(plan), [name], 0), true, Saved)
  }

  lemma IssueNote(plan: string, id: string, status: string, now: int, timeout: int)
    requires W.IsPlanId(plan) && status in {"approved", "denied"}
    ensures var it := IssueFor(plan, id, W.LabelForStatus(status).value);
            && NoteOf(it, now, timeout) == [Note(id, plan, status)]
            && W.ErrorFree([it])
  {
    W.EmbeddedIdRoundTrip(plan);
    W.LabelRoundTrip(status);
  }

  /** A turn on an item whose calls succeed gets through. */
  lemma TurnSucceeds(events: seq<Event>, timeout: int)
    requires var f := After(events, timeout); f.queue != [] && W.ErrorFree([f.queue[0]])
    ensures var f, f1 := After(events, timeout), After(events + [Turn], timeout);
            && f1.queue == f.queue[1..] && f1.now == f.now && f1.running
            && Processed(events + [Turn], timeout) == Processed(events, timeout) + NoteOf(f.queue[0], f.now, timeout)
  {
    var f := After(events, timeout);
    assert f.queue[0] in [f.queue[0]];
    W.ItemWritten(f.watch, f.queue[0], f.now, timeout, "");
    AfterSnoc(events, Turn, timeout);
    hide After, Processed, W.Observe, NoteOf;
  }

  /** A listing when no sync is under way. */
  lemma ListSucceeds(events: seq<Event>, sync: W.Sync, timeout: int)
    requires var f := After(events, timeout); f.running && f.queue == []
    ensures var f, listed := After(events, timeout), events + [Listed(sync)];
            && After(listed, timeout) == f.(queue := sync.items, now := sync.now)
            && Processed(listed, timeout) == Processed(events, timeout)
            && Observed(listed, timeout) == Observed(events, timeout) + NotesOf(sync.items, sync.now, timeout)
  {
    AfterSnoc(events, Listed(sync), timeout);
    hide After, Processed, Observed, NotesOf;
    assert Processed(events, timeout) + [] == Processed(events, timeout);
  }

  lemma NothingYet(timeout: int)
    ensures After([], timeout) == Flow(W.Watch(map[], []), [], 0, true, [])
    ensures Processed([], timeout) == [] && Observed([], timeout) == []
  {
  }

  lemma TwoNotes(notes: seq<Note>)
    requires notes == [Note("issue-1", "plan_1", "approved")] + [Note("issue-2", "plan_1", "denied")]
    ensures LastEver(notes, "issue-1") == Some("approved") && LastIn(Changes(notes, "plan_1")) == Some("denied")
  {
    var first := [Note("issue-1", "plan_1", "approved")];
    assert notes[..1] == first && first[..0] == [];
    assert LastStatus(first, "issue-2") == None;
    assert Changes(first, "plan_1") == ["approved"];
  }

  lemma TwoIssuesRun(yes: W.Item, no: W.Item, events: seq<Event>)
    requires W.ErrorFree([yes]) && W.ErrorFree([no])
    requires events == [] + [Listed(W.Sync([yes, no], 0))] + [Turn] + [Turn]
    ensures WatcherDecides(events, "plan_1") && Undisturbed(events)
    ensures Processed(events, 1) == NoteOf(yes, 0, 1) + NoteOf(no, 0, 1)
  {
    assert yes in [yes] && no in [no];
    assert W.ErrorFree([yes, no]);
    hide W.ErrorFree, After, Processed, Observed, NoteOf, Step;
    var listed := [] + [Listed(W.Sync([yes, no], 0))];
    NothingYet(1);
    ListSucceeds([], W.Sync([yes, no], 0), 1);
    TurnSucceeds(listed, 1);
    TurnSucceeds(listed + [Turn], 1);
    assert [] + NoteOf(yes, 0, 1) == NoteOf(yes, 0, 1);
  }

  /** A plan with two issues, one approved and one denied: the last status processed for the first issue is
      `approved`, the latest decision on the plan is `denied`. */
  lemma TwoIssuesDisagree() returns (events: seq<Event>)
    ensures WatcherDecides(events, "plan_1") && Undisturbed(events)
    ensures LastEver(Processed(events, 1), "issue-1") == Some("approved")
    ensures LastDecision(After(events, 1).ops, "plan_1") == Some("denied")
  {
    PlanOne();
    hide *;
    var yes, no := IssueFor("plan_1", "issue-1", W.APPROVED), IssueFor("plan_1", "issue-2", W.DENIED);
    IssueNote("plan_1", "issue-1", "approved", 0, 1);
    IssueNote("plan_1", "issue-2", "denied", 0, 1);
    events := [] + [Listed(W.Sync([yes, no], 0))] + [Turn] + [Turn];
    TwoIssuesRun(yes, no, events);
    DecisionIsLastChange(events, 1, "plan_1");
    TwoNotes(Processed(events, 1));
  }

  lemma PlanOne()
    ensures W.IsPlanId("plan_1")
    ensures W.LabelForStatus("approved") == Some(W.APPROVED) && W.LabelForStatus("denied") == Some(W.DENIED)
  {
  }

  // ---------------------------------------------------------------- the gap at a concrete run

  /** After a request and a sync that finds the issue approved, the issue is listed as denied, and an
      execute request comes before the watcher's turn. */
  function RaceEvents(yes: W.Item, no: W.Item, check: L.Op, finish: L.Op): (events: seq<Event>) {
    [] + [Ledgered(L.Create("a1", "plan_1"))] + [Listed(W.Sync([yes], 0))] + [Turn] + [Listed(W.Sync([no], 1))]
    + [Ledgered(check)] + [Ledgered(finish)]
  }

  lemma RaceIsQuiet(yes: W.Item, no: W.Item, check: L.Op, finish: L.Op)
    requires W.ErrorFree([yes]) && W.ErrorFree([no]) && check.Check? && finish.Finish?
    ensures var events := RaceEvents(yes, no, check, finish);
            WatcherDecides(events, "plan_1") && Undisturbed(events)
  {
    hide W.ErrorFree;
  }

  lemma LedgerOnly(events: seq<Event>, op: L.Op, timeout: int)
    ensures var f := After(events, timeout);
            && After(events + [Ledgered(op)], timeout) == f.(ops := f.ops + [op])
            && Processed(events + [Ledgered(op)], timeout) == Processed(events, timeout)
            && Observed(events + [Ledgered(op)], timeout) == Observed(events, timeout)
  {
    AfterSnoc(events, Ledgered(op), timeout);
    hide After, Processed, Observed;
    assert Processed(events, timeout) + [] == Processed(events, timeout);
    assert Observed(events, timeout) + [] == Observed(events, timeout);
  }

  lemma ApprovingTurn(events: seq<Event>, yes: W.Item, timeout: int)
    requires yes == IssueFor("plan_1", "issue-1", W.APPROVED)
    requires var f := After(events, timeout); f.queue == [yes] && f.watch == W.Watch(map[], []) && f.running
    ensures var f, f1 := After(events, timeout), After(events + [Turn], timeout);
            f1.queue == [] && f1.running && f1.ops == f.ops + [L.Decide("plan_1", "approved")]
    ensures Observed(events + [Turn], timeout) == Observed(events, timeout)
  {
    var f := After(events, timeout);
    PlanOne();
    IssueNote("plan_1", "issue-1", "approved", f.now, timeout);
    TurnWrites(f.watch, yes, f.now, timeout);
    AfterSnoc(events, Turn, timeout);
    W.ItemWritten(f.watch, yes, f.now, timeout, "");
    hide After, Observed, W.Observe, W.Effective, W.PlanOf, IssueFor;
    assert Observed(events, timeout) + [] == Observed(events, timeout);
    var w := W.Observe(f.watch, yes, f.now, timeout).0;
    var x := W.Write("issue-1", "plan_1", "approved", true);
    assert w.writes == [x] && NewWrites(f.watch, w) == [x];
    assert Decisions([x]) == [L.Decide("plan_1", "approved")];
  }

  lemma OneNote(it: W.Item, now: int, timeout: int)
    ensures NotesOf([it], now, timeout) == NoteOf(it, now, timeout)
  {
    hide NoteOf;
    assert [it][1..] == [] && NotesOf([], now, timeout) == [];
  }

  lemma RaceRun(yes: W.Item, no: W.Item, check: L.Op, finish: L.Op)
    requires yes == IssueFor("plan_1", "issue-1", W.APPROVED)
    ensures var events := RaceEvents(yes, no, check, finish);
            && After(events, 1).ops ==
               [L.Create("a1", "plan_1")] + [L.Decide("plan_1", "approved")] + [check] + [finish]
            && Observed(events, 1) == NoteOf(yes, 0, 1) + NoteOf(no, 1, 1)
  {
    hide *;
    var a := [] + [Ledgered(L.Create("a1", "plan_1"))];
    var b := a + [Listed(W.Sync([yes], 0))];
    var c := b + [Turn];
    var d := c + [Listed(W.Sync([no], 1))];
    NothingYet(1);
    LedgerOnly([], L.Create("a1", "plan_1"), 1);
    ListSucceeds(a, W.Sync([yes], 0), 1);
    ApprovingTurn(b, yes, 1);
    ListSucceeds(c, W.Sync([no], 1), 1);
    LedgerOnly(d, check, 1);
    LedgerOnly(d + [Ledgered(check)], finish, 1);
    OneNote(yes, 0, 1);
    OneNote(no, 1, 1);
    RaceParts(yes, no, check, finish);
    assert [] + [L.Create("a1", "plan_1")] == [L.Create("a1", "plan_1")];
    assert [] + NoteOf(yes, 0, 1) == NoteOf(yes, 0, 1);
  }

  lemma RaceParts(yes: W.Item, no: W.Item, check: L.Op, finish: L.Op)
    ensures RaceEvents(yes, no, check, finish) ==
            [] + [Ledgered(L.Create("a1", "plan_1"))] + [Listed(W.Sync([yes], 0))] + [Turn] + [Listed(W.Sync([no], 1))]
            + [Ledgered(check)] + [Ledgered(finish)]
  {
  }

  lemma RaceExecutes(check: L.Op, finish: L.Op) returns (x: L.Execution)
    requires check == L.Check(0, "plan_1", true, "", 0, L.OPEN) && finish == L.Finish(0, true, false, Saved)
    ensures var ops := [L.Create("a1", "plan_1")] + [L.Decide("plan_1", "approved")] + [check] + [finish];
            x in L.After(ops).executions && x.plan == "plan_1" && x.write
  {
    var past := [L.Create("a1", "plan_1")] + [L.Decide("plan_1", "approved")];
    L.OnceApproved(past);
    L.OpenFor(L.After(past).rows, check);
    L.AfterSnoc(past, check);
    L.AfterSnoc(past + [check], finish);
    hide L.After, L.Passes, L.LatestIsApproval;
    x := L.Execution("plan_1", true, 2, 3);
    assert L.After(past + [check] + [finish]).executions == [x];
  }

  lemma ChangedToDenied(notes: seq<Note>)
    requires notes == [Note("issue-1", "plan_1", "approved")] + [Note("issue-1", "plan_1", "denied")]
    ensures LastIn(Changes(notes, "plan_1")) == Some("denied")
  {
    var first := [Note("issue-1", "plan_1", "approved")];
    assert notes[..1] == first && first[..0] == [];
    assert Changes(first, "plan_1") == ["approved"];
    assert "denied"[0] != "approved"[0];
  }

  /** A denial that has been listed and not yet reached does not stop an execution: the plan runs after its
      last observed change was to `denied`. */
  lemma ListedDenialNotYetWritten() returns (events: seq<Event>, x: L.Execution)
    ensures WatcherDecides(events, "plan_1") && Undisturbed(events)
    ensures x in L.After(After(events, 1).ops).executions && x.plan == "plan_1" && x.write
    ensures LastIn(Changes(Observed(events, 1), "plan_1")) == Some("denied")
  {
    PlanOne();
    hide *;
    var yes, no := IssueFor("plan_1", "issue-1", W.APPROVED), IssueFor("plan_1", "issue-1", W.DENIED);
    var check, finish := L.Check(0, "plan_1", true, "", 0, L.OPEN), L.Finish(0, true, false, Saved);
    IssueNote("plan_1", "issue-1", "approved", 0, 1);
    IssueNote("plan_1", "issue-1", "denied", 1, 1);
    events := RaceEvents(yes, no, check, finish);
    RaceIsQuiet(yes, no, check, finish);
    RaceRun(yes, no, check, finish);
    ChangedToDenied(Observed(events, 1));
    x := RaceExecutes(check, finish);
  }
}
