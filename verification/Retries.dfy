// What the retry policy of the Temporal workflows changes and what it does not
// (internal/workflows/temporal_workflow.go:23-31, temporal_catalog.go:75-83): the same protocol with one
// try per activity or with several.
module Retries {
  import opened Prelude
  import opened Text
  import opened Stages
  import opened PlanProtocol

  // ---------------------------------------------------------------- outcomes decide the run

  /** The activities of a stage when the i-th activity of the run succeeds exactly if outs(i). */
  function RunScript(outs: nat -> bool, n: nat, steps: seq<PlanStep>): (r: (seq<Event>, nat))
    ensures r.1 <= |steps|
    decreases |steps|
  {
    if steps == [] then ([], 0)
    else if !outs(n) then ([Ran(steps[0], false)], 0)
    else var (t, k) := RunScript(outs, n + 1, steps[1..]); ([Ran(steps[0], true)] + t, k + 1)
  }

  function UndoScript(outs: nat -> bool, n: nat, steps: seq<PlanStep>): (r: (seq<Event>, bool))
    decreases |steps|
  {
    if steps == [] then ([], true)
    else
      var m := |steps| - 1;
      var (t, ok) := UndoScript(outs, n + 1, steps[..m]);
      ([Undid(steps[m], outs(n))] + t, outs(n) && ok)
  }

  /** A whole plan run written from its activities' outcomes alone: no tools, no rows, no retries. */
  function Script(outs: nat -> bool, n: nat, acts: seq<PlanStep>, verifies: seq<PlanStep>): (r: (seq<Event>, Status)) {
    var (t1, k) := RunScript(outs, n, acts);
    if k < |acts| then
      var ok := outs(n + |t1|);
      (t1 + [Undid(acts[k], ok)], if ok then RolledBack else Failed)
    else
      var (t2, m) := RunScript(outs, n + |t1|, verifies);
      if m < |verifies| then
        var (t3, ok) := UndoScript(outs, n + |t1| + |t2|, acts);
        (t1 + t2 + t3, if ok then RolledBack else Failed)
      else (t1 + t2, Succeeded)
  }

  /** outs gives the outcomes of the activities that `after` has on top of `before`. */
  ghost predicate Tells<W>(outs: nat -> bool, before: State<W>, after: State<W>) {
    && before.events <= after.events
    && forall i :: |before.events| <= i < |after.events| ==> outs(i) == after.events[i].ok
  }

  lemma TellsNext<W>(outs: nat -> bool, st: State<W>, e: Event, st1: State<W>, end: State<W>)
    requires st1.events == st.events + [e] && st1.events <= end.events
    ensures st.events <= end.events
    ensures Tells(outs, st, end) ==> outs(|st.events|) == e.ok && Tells(outs, st1, end)
  {
    assert end.events[|st.events|] == e;
  }

  lemma {:induction false} RunFollows<W>(env: Env<W>, tries: nat, st: State<W>, steps: seq<PlanStep>, outs: nat -> bool)
    ensures st.events <= RunAll(env, tries, st, steps).0.events
    ensures var (st1, k) := RunAll(env, tries, st, steps);
            Tells(outs, st, st1) ==>
              var (t, j) := RunScript(outs, |st.events|, steps);
              st1.events == st.events + t && k == j
    decreases |steps|
  {
    hide RunStep, Tells;
    if steps != [] {
      var (st1, ok) := RunStep(env, tries, st, steps[0]);
      EventsOfOne(env, tries, st, steps[0]);
      if ok { RunFollows(env, tries, st1, steps[1..], outs); }
      TellsNext(outs, st, Ran(steps[0], ok), st1, RunAll(env, tries, st, steps).0);
      Assoc(st.events, [Ran(steps[0], ok)], RunScript(outs, |st.events| + 1, steps[1..]).0);
    }
  }

  lemma {:induction false} UndoFollows<W>(env: Env<W>, tries: nat, st: State<W>, steps: seq<PlanStep>,
                                          outs: nat -> bool)
    ensures st.events <= Unwind(env, tries, st, steps).0.events
    ensures var (st1, ok) := Unwind(env, tries, st, steps);
            Tells(outs, st, st1) ==>
              var (t, all) := UndoScript(outs, |st.events|, steps);
              st1.events == st.events + t && ok == all
    decreases |steps|
  {
    hide UndoStep, Tells;
    if steps != [] {
      var n := |steps| - 1;
      var (st1, ok) := UndoStep(env, tries, st, steps[n]);
      EventsOfOne(env, tries, st, steps[n]);
      UndoFollows(env, tries, st1, steps[..n], outs);
      TellsNext(outs, st, Undid(steps[n], ok), st1, Unwind(env, tries, st, steps).0);
      Assoc(st.events, [Undid(steps[n], ok)], UndoScript(outs, |st.events| + 1, steps[..n]).0);
    }
  }

  lemma TellsPart<W>(outs: nat -> bool, a: State<W>, b: State<W>, c: State<W>)
    requires a.events <= b.events <= c.events && Tells(outs, a, c)
    ensures Tells(outs, a, b) && Tells(outs, b, c)
  {
  }

  /** Whatever the tools, the rows and the number of tries, the activities and the status of a run are
      determined by the activities' outcomes. */
  lemma ProtocolFollowsScript<W>(env: Env<W>, tries: nat, st: State<W>, acts: seq<PlanStep>, verifies: seq<PlanStep>,
                                 outs: nat -> bool)
    ensures st.events <= Protocol(env, tries, st, acts, verifies).0.events
    ensures var (st1, status) := Protocol(env, tries, st, acts, verifies);
            Tells(outs, st, st1) ==>
              var (t, scripted) := Script(outs, |st.events|, acts, verifies);
              st1.events == st.events + t && status == scripted
  {
    hide RunAll, Unwind, UndoStep, RunScript, UndoScript;
    var (st1, k) := RunAll(env, tries, st, acts);
    RunFollows(env, tries, st, acts, outs);
    var end := Protocol(env, tries, st, acts, verifies).0;
    if k < |acts| {
      EventsOfOne(env, tries, st1, acts[k]);
      if Tells(outs, st, end) {
        TellsPart(outs, st, st1, end);
        assert end.events[|st1.events|].ok == outs(|st1.events|);
        var t1 := RunScript(outs, |st.events|, acts).0;
        Assoc(st.events, t1, [Undid(acts[k], outs(|st1.events|))]);
      }
    } else {
      var (st2, m) := RunAll(env, tries, st1, verifies);
      RunFollows(env, tries, st1, verifies, outs);
      if m < |verifies| { UndoFollows(env, tries, st2, acts, outs); }
      if Tells(outs, st, end) {
        TellsPart(outs, st, st1, end);
        TellsPart(outs, st1, st2, end);
        var t1 := RunScript(outs, |st.events|, acts).0;
        var t2 := RunScript(outs, |st1.events|, verifies).0;
        assert st.events + t1 + t2 == st.events + (t1 + t2);
        if m < |verifies| {
          var t3 := UndoScript(outs, |st2.events|, acts).0;
          assert st.events + t1 + t2 + t3 == st.events + (t1 + t2 + t3);
        }
      }
    }
  }

  /** As far as both logs go, their activities have the same outcomes. */
  ghost predicate SameOutcomes(a: seq<Event>, b: seq<Event>) {
    forall i :: 0 <= i < |a| && i < |b| ==> a[i].ok == b[i].ok
  }

  /** Two runs of one plan, in environments and with numbers of tries of their own, that have the same
      activity outcomes issue the same activities and end with the same status. */
  lemma SameOutcomesSameRun<W>(env1: Env<W>, tries1: nat, st1: State<W>, env2: Env<W>, tries2: nat, st2: State<W>,
                               acts: seq<PlanStep>, verifies: seq<PlanStep>)
    requires st1.events == st2.events
    ensures var (end1, status1) := Protocol(env1, tries1, st1, acts, verifies);
            var (end2, status2) := Protocol(env2, tries2, st2, acts, verifies);
            SameOutcomes(end1.events, end2.events) ==> end1.events == end2.events && status1 == status2
  {
    hide Protocol, Script;
    var (end1, status1) := Protocol(env1, tries1, st1, acts, verifies);
    var (end2, status2) := Protocol(env2, tries2, st2, acts, verifies);
    if SameOutcomes(end1.events, end2.events) {
      var a, b := end1.events, end2.events;
      var outs: nat -> bool := (i: nat) => if i < |a| then a[i].ok else if i < |b| then b[i].ok else false;
      ProtocolFollowsScript(env1, tries1, st1, acts, verifies, outs);
      ProtocolFollowsScript(env2, tries2, st2, acts, verifies, outs);
      assert Tells(outs, st1, end1) && Tells(outs, st2, end2);
    }
  }

  // ---------------------------------------------------------------- same environment

  /** A step that succeeds at once is not tried again. */
  lemma FirstTrySame<W>(env: Env<W>, tries: nat, st: State<W>, s: PlanStep)
    requires tries > 0
    ensures RunStep(env, 1, st, s).1 ==> RunStep(env, tries, st, s) == RunStep(env, 1, st, s)
  {
    OneTry(env, st, s);
    hide CallStep;
  }

  lemma {:induction false} CleanStageSame<W>(env: Env<W>, tries: nat, st: State<W>, steps: seq<PlanStep>)
    requires tries > 0
    ensures RunAll(env, 1, st, steps).1 == |steps| ==> RunAll(env, tries, st, steps) == RunAll(env, 1, st, steps)
    decreases |steps|
  {
    if steps != [] {
      hide RunStep;
      FirstTrySame(env, tries, st, steps[0]);
      CleanStageSame(env, tries, RunStep(env, 1, st, steps[0]).0, steps[1..]);
    }
  }

  lemma OneCallMore<W>(env: Env<W>, st: State<W>, s: PlanStep)
    ensures CallStep(env, st, s).0.calls == st.calls + [Ran(s, CallStep(env, st, s).1)]
    ensures CallUndo(env, st, s).0.calls == st.calls + [Undid(s, CallUndo(env, st, s).1)]
  {
    hide HasEvidence, UsableRollback, Attempt;
  }

  lemma {:induction false} StepCallsGrow<W>(env: Env<W>, tries: nat, st: State<W>, s: PlanStep)
    ensures st.calls <= TryStep(env, tries, st, s).0.calls
    decreases tries
  {
    if tries > 0 {
      hide CallStep;
      OneCallMore(env, st, s);
      StepCallsGrow(env, tries - 1, CallStep(env, st, s).0, s);
    }
  }

  lemma {:induction false} UndoCallsGrow<W>(env: Env<W>, tries: nat, st: State<W>, s: PlanStep)
    ensures st.calls <= TryUndo(env, tries, st, s).0.calls
    decreases tries
  {
    if tries > 0 {
      hide CallUndo;
      OneCallMore(env, st, s);
      UndoCallsGrow(env, tries - 1, CallUndo(env, st, s).0, s);
    }
  }

  lemma {:induction false} RunAllCallsGrow<W>(env: Env<W>, tries: nat, st: State<W>, steps: seq<PlanStep>)
    ensures st.calls <= RunAll(env, tries, st, steps).0.calls
    decreases |steps|
  {
    if steps != [] {
      var st1 := RunStep(env, tries, st, steps[0]).0;
      assert st.calls <= st1.calls by { StepCallsGrow(env, tries, st, steps[0]); hide TryStep; }
      hide RunStep;
      RunAllCallsGrow(env, tries, st1, steps[1..]);
    }
  }

  lemma {:induction false} UnwindCallsGrow<W>(env: Env<W>, tries: nat, st: State<W>, steps: seq<PlanStep>)
    ensures st.calls <= Unwind(env, tries, st, steps).0.calls
    decreases |steps|
  {
    if steps != [] {
      var n := |steps| - 1;
      var st1 := UndoStep(env, tries, st, steps[n]).0;
      assert st.calls <= st1.calls by { UndoCallsGrow(env, tries, st, steps[n]); hide TryUndo; }
      hide UndoStep;
      UnwindCallsGrow(env, tries, st1, steps[..n]);
    }
  }

  /** A stage that fails with one try made p calls; with more tries its (p+1)-st call is a step again. */
  lemma {:induction false} FailedStageRetries<W>(env: Env<W>, tries: nat, st: State<W>, steps: seq<PlanStep>)
    requires tries > 1 && RunAll(env, 1, st, steps).1 < |steps|
    ensures var p := |RunAll(env, 1, st, steps).0.calls|;
            p < |RunAll(env, tries, st, steps).0.calls| && RunAll(env, tries, st, steps).0.calls[p].Ran?
    decreases |steps|
  {
    var s := steps[0];
    var (st1, ok) := RunStep(env, 1, st, s);
    OneTry(env, st, s);
    if ok {
      FirstTrySame(env, tries, st, s);
      hide RunStep, CallStep;
      FailedStageRetries(env, tries, st1, steps[1..]);
    } else {
      var a := CallStep(env, st, s).0;
      var b := CallStep(env, a, s).0;
      assert a.calls == st.calls + [Ran(s, false)];
      assert b.calls == a.calls + [Ran(s, CallStep(env, a, s).1)];
      assert st1.calls == a.calls && RunAll(env, 1, st, steps).0 == st1;
      hide CallStep;
      SecondTry(env, tries, st, s);
      var c := RunStep(env, tries, st, s).0;
      assert b.calls <= c.calls;
      hide RunStep;
      RunAllCallsGrow(env, tries, c, steps[1..]);
      assert c.calls <= RunAll(env, tries, st, steps).0.calls;
    }
  }

  lemma SecondTry<W>(env: Env<W>, tries: nat, st: State<W>, s: PlanStep)
    requires tries > 1 && !CallStep(env, st, s).1
    ensures CallStep(env, CallStep(env, st, s).0, s).0.calls <= RunStep(env, tries, st, s).0.calls
  {
    hide CallStep;
    var a := CallStep(env, st, s).0;
    var (b, ok) := CallStep(env, a, s);
    assert TryStep(env, tries, st, s) == TryStep(env, tries - 1, a, s);
    if !ok { StepCallsGrow(env, tries - 2, b, s); }
  }

  /** What follows a failed stage with one try: no step is called any more. */
  lemma OnlyUndosFollow<W>(env: Env<W>, st: State<W>, steps: seq<PlanStep>)
    ensures var calls := Unwind(env, 1, st, steps).0.calls;
            |st.calls| < |calls| ==> calls[|st.calls|].Undid?
    ensures forall s :: var calls := UndoStep(env, 1, st, s).0.calls;
                        |st.calls| < |calls| ==> calls[|st.calls|].Undid?
  {
    forall s ensures var calls := UndoStep(env, 1, st, s).0.calls; |st.calls| < |calls| && calls[|st.calls|].Undid? {
      OneTry(env, st, s);
      hide UndoStep, Attempt, UsableRollback;
    }
    if steps != [] {
      var n := |steps| - 1;
      var st1 := UndoStep(env, 1, st, steps[n]).0;
      UnwindCallsGrow(env, 1, st1, steps[..n]);
      hide UndoStep;
    }
  }

  /** Facing the same environment, a run with retries makes the same calls as one without exactly if the
      one without succeeds; then the two are the same in everything: world, rows, calls and activities. */
  lemma RetriesChangeNothingIff<W>(env: Env<W>, tries: nat, st: State<W>, acts: seq<PlanStep>, verifies: seq<PlanStep>)
    requires tries > 1
    ensures var once, more := Protocol(env, 1, st, acts, verifies), Protocol(env, tries, st, acts, verifies);
            && (more.0.calls == once.0.calls <==> once.1 == Succeeded)
            && (once.1 == Succeeded ==> more == once)
  {
    hide RunAll, UndoStep, Unwind;
    var (st1, k) := RunAll(env, 1, st, acts);
    var once, more := Protocol(env, 1, st, acts, verifies), Protocol(env, tries, st, acts, verifies);
    if k < |acts| {
      FailedStageRetries(env, tries, st, acts);
      OnlyUndosFollow(env, st1, []);
      RetriedCallKept(env, tries, st, acts, verifies);
    } else {
      CleanStageSame(env, tries, st, acts);
      CleanStageSame(env, tries, st1, verifies);
      var (st2, m) := RunAll(env, 1, st1, verifies);
      if m < |verifies| {
        FailedStageRetries(env, tries, st1, verifies);
        OnlyUndosFollow(env, st2, acts);
        UnwindCallsGrow(env, tries, RunAll(env, tries, st1, verifies).0, acts);
      }
    }
  }

  /** The calls of the act stage stay at the front of the run's calls. */
  lemma RetriedCallKept<W>(env: Env<W>, tries: nat, st: State<W>, acts: seq<PlanStep>, verifies: seq<PlanStep>)
    ensures RunAll(env, tries, st, acts).0.calls <= Protocol(env, tries, st, acts, verifies).0.calls
  {
    var (st1, k) := RunAll(env, tries, st, acts);
    if k < |acts| {
      UndoCallsGrow(env, tries, st1, acts[k]);
      hide TryUndo, RunAll;
    } else {
      hide RunAll, Unwind;
      var (st2, m) := RunAll(env, tries, st1, verifies);
      RunAllCallsGrow(env, tries, st1, verifies);
      if m < |verifies| { UnwindCallsGrow(env, tries, st2, acts); }
    }
  }

  lemma NoStepsLeft<W>(env: Env<W>, tries: nat, st: State<W>, s: PlanStep)
    ensures var (st1, ok) := RunStep(env, tries, st, s); RunAll(env, tries, st, [s]) == (st1, if ok then 1 else 0)
    ensures RunAll(env, tries, st, []) == (st, 0)
  {
    hide RunStep;
    assert [s][1..] == [];
  }

  /** A one-step plan whose first call fails and whose second call of the step would succeed. */
  lemma OneStepPlan<W>(env: Env<W>, st: State<W>, s: PlanStep, a: State<W>)
    requires CallStep(env, st, s) == (a, false) && CallStep(env, a, s).1
    ensures var (once, status) := Protocol(env, 1, st, [s], []);
            var (undone, ok) := CallUndo(env, a, s);
            once.world == undone.world && once.rows == undone.rows && status == if ok then RolledBack else Failed
    ensures var (more, status) := Protocol(env, 5, st, [s], []);
            var retried := CallStep(env, a, s).0;
            more.world == retried.world && more.rows == retried.rows && status == Succeeded
  {
    hide CallStep, CallUndo, RunAll;
    OneTry(env, st, s);
    var failed := RunStep(env, 1, st, s).0;
    UndoIgnoresEvents(env, a, failed, s);
    OneTry(env, failed, s);
    NoStepsLeft(env, 1, st, s);
    assert TryStep(env, 5, st, s) == TryStep(env, 4, a, s);
    NoStepsLeft(env, 5, st, s);
    NoStepsLeft(env, 5, RunStep(env, 5, st, s).0, s);
  }

  /** A tool that fails only at the first attempt: without retries the plan fails, with them it succeeds
      and leaves two rows. */
  lemma RetriesCanChangeOutcome() returns (env: Env<int>, st: State<int>, s: PlanStep)
    ensures Protocol(env, 1, st, [s], []).1 == Failed && |Protocol(env, 1, st, [s], []).0.rows| == 1
    ensures Protocol(env, 5, st, [s], []).1 == Succeeded && |Protocol(env, 5, st, [s], []).0.rows| == 2
  {
    env := Env(_ => Saved, _ => true, (n, c, w) => (w, n != 0), _ => true, _ => UpdateOutcome(true, true), _ => true);
    st := State(0, [], [], [], []);
    s := PlanStep("s1", "act", "sync", "argocd", "", Missing);
    hide HasEvidence, Protocol;
    OneStepPlan(env, st, s, CallStep(env, st, s).0);
  }

  /** World and rows alone do not tell: here they agree by accident, since the second call is a rollback
      that succeeds in one run and a retry that succeeds in the other. */
  lemma SameRowsByAccident() returns (env: Env<int>, st: State<int>, s: PlanStep)
    ensures var (once, status1) := Protocol(env, 1, st, [s], []);
            var (more, status5) := Protocol(env, 5, st, [s], []);
            once.world == more.world && once.rows == more.rows && status1 == RolledBack && status5 == Succeeded
  {
    env := Env(_ => Saved, _ => true, (n, c, w) => (w, n != 0), _ => true, _ => UpdateOutcome(true, true), _ => true);
    st := State(0, [], [], [], []);
    s := PlanStep("s1", "act", "up", "kubectl", "", Fields("kubectl", "down", ""));
    assert !Blank("kubectl") by { assert TrimLeft("kubectl") == "kubectl"; }
    assert !Blank("down") by { assert TrimLeft("down") == "down"; }
    hide HasEvidence, Blank, Protocol;
    OneStepPlan(env, st, s, CallStep(env, st, s).0);
  }

  lemma UndoIgnoresEvents<W>(env: Env<W>, a: State<W>, b: State<W>, s: PlanStep)
    requires b == a.(events := b.events)
    ensures var (a1, okA) := CallUndo(env, a, s);
            var (b1, okB) := CallUndo(env, b, s);
            okA == okB && a1.rows == b1.rows && a1.world == b1.world
  {
  }
}
