// The Temporal reimplementations of the protocol: PlanExecutionWorkflow and the catalog's
// runWorkflowSteps. Their ExecuteStep and RollbackStep activities call the executor's own methods
// (internal/workflows/temporal_activities.go:27-41), again and again until one call succeeds or the
// retry policy's five attempts are used up.
module Temporal {
  import opened Prelude
  import opened Text
  import opened Stages
  import opened PlanProtocol
  import opened CallLog
  import opened Executor
  import opened Retries

  /** MaximumAttempts of the retry policy. */
  const ATTEMPTS: nat := 5

  // ---------------------------------------------------------------- activities

  method ExecuteStepActivity<W>(a: PlanExecutor<W>, step: PlanStep) returns (ok: bool)
    modifies a`world, a`rows, a`made, a`calls, a`events
    ensures (a.View(), ok) == RunStep(a.env, ATTEMPTS, old(a.View()), step)
  {
    hide CallStep;
    ok := false;
    var left: nat := ATTEMPTS;
    while left > 0 && !ok
      invariant 0 <= left <= ATTEMPTS
      invariant a.events == old(a.events)
      invariant TryStep(a.env, ATTEMPTS, old(a.View()), step) ==
                if ok then (a.View(), true) else TryStep(a.env, left, a.View(), step)
    {
      ok := a.ExecuteStep(step);
      left := left - 1;
    }
    a.events := a.events + [Ran(step, ok)];
  }

  method RollbackStepActivity<W>(a: PlanExecutor<W>, step: PlanStep) returns (ok: bool)
    modifies a`world, a`rows, a`made, a`calls, a`events
    ensures (a.View(), ok) == UndoStep(a.env, ATTEMPTS, old(a.View()), step)
  {
    hide CallUndo;
    ok := false;
    var left: nat := ATTEMPTS;
    while left > 0 && !ok
      invariant 0 <= left <= ATTEMPTS
      invariant a.events == old(a.events)
      invariant TryUndo(a.env, ATTEMPTS, old(a.View()), step) ==
                if ok then (a.View(), true) else TryUndo(a.env, left, a.View(), step)
    {
      ok := a.TryRollback(step);
      left := left - 1;
    }
    a.events := a.events + [Undid(step, ok)];
  }

  // ---------------------------------------------------------------- the two workflows

  method PlanExecutionWorkflow<W>(a: PlanExecutor<W>, executionId: string, steps: seq<PlanStep>,
                                  mark: Stored, completeOk: bool) returns (ok: bool)
    modifies a
    ensures executionId == "" || !mark.Ok() ==>
              && !ok && a.View() == old(a.View())
              && a.control == old(a.control) + if executionId != "" && mark.Applied() then [Marked(executionId)] else []
    ensures executionId != "" && mark.Ok() ==>
              var (st, status) := Protocol(a.env, ATTEMPTS, old(a.View()), Select(steps, false), Select(steps, true));
              && a.View() == st
              && a.control == old(a.control) +
                 [Marked(executionId), Completed(executionId, if status == Succeeded then Succeeded else Failed)]
              && ok == (status == Succeeded && completeOk)
  {
    hide RunStep, UndoStep, Select;
    if executionId == "" { return false; }
    if mark.Applied() { a.control := a.control + [Marked(executionId)]; }
    if !mark.Ok() { return false; }
    var acts, verifies := SplitStepsByStage(steps);
    var k := 0;
    while k < |acts|
      modifies a`world, a`rows, a`made, a`calls, a`events
      invariant k <= |acts|
      invariant var (st, more) := RunAll(a.env, ATTEMPTS, a.View(), acts[k..]);
                RunAll(a.env, ATTEMPTS, old(a.View()), acts) == (st, k + more)
    {
      assert acts[k..][1..] == acts[k + 1..];
      var done := ExecuteStepActivity(a, acts[k]);
      if !done { break; }
      k := k + 1;
    }
    assert (a.View(), k) == RunAll(a.env, ATTEMPTS, old(a.View()), acts);
    if k < |acts| {
      hide RunAll;
      var _ := RollbackStepActivity(a, acts[k]);
      a.CompleteExecution(executionId, Failed);
      return false;
    }
    ok := VerifyThenComplete(a, executionId, acts, verifies, completeOk);
    hide RunAll;
  }

  /** The verify loop of PlanExecutionWorkflow with its reverse rollback loop, and the completion. */
  method VerifyThenComplete<W>(a: PlanExecutor<W>, executionId: string, acts: seq<PlanStep>, verifies: seq<PlanStep>,
                               completeOk: bool) returns (ok: bool)
    modifies a
    ensures var (st, m) := RunAll(a.env, ATTEMPTS, old(a.View()), verifies);
            if m < |verifies| then
              && !ok && a.View() == Unwind(a.env, ATTEMPTS, st, acts).0
              && a.control == old(a.control) + [Completed(executionId, Failed)]
            else
              && ok == completeOk && a.View() == st
              && a.control == old(a.control) + [Completed(executionId, Succeeded)]
  {
    hide RunStep, UndoStep;
    var m := 0;
    while m < |verifies|
      modifies a`world, a`rows, a`made, a`calls, a`events
      invariant m <= |verifies|
      invariant var (st, more) := RunAll(a.env, ATTEMPTS, a.View(), verifies[m..]);
                RunAll(a.env, ATTEMPTS, old(a.View()), verifies) == (st, m + more)
    {
      assert verifies[m..][1..] == verifies[m + 1..];
      var done := ExecuteStepActivity(a, verifies[m]);
      if !done { break; }
      m := m + 1;
    }
    assert (a.View(), m) == RunAll(a.env, ATTEMPTS, old(a.View()), verifies);
    hide RunAll;
    if m < |verifies| {
      ghost var failed := a.View();
      var i := |acts| - 1;
      assert acts[..i + 1] == acts;
      while i >= 0
        modifies a`world, a`rows, a`made, a`calls, a`events
        invariant -1 <= i < |acts|
        invariant Unwind(a.env, ATTEMPTS, a.View(), acts[..i + 1]).0 == Unwind(a.env, ATTEMPTS, failed, acts).0
      {
        assert acts[..i + 1][..i] == acts[..i];
        var _ := RollbackStepActivity(a, acts[i]);
        i := i - 1;
      }
      a.CompleteExecution(executionId, Failed);
      return false;
    }
    a.CompleteExecution(executionId, Succeeded);
    return completeOk;
  }

  method RunWorkflowSteps<W>(a: PlanExecutor<W>, steps: seq<PlanStep>, approvalOk: bool, created: Option<string>,
                             mark: Stored, completeOk: bool) returns (ok: bool)
    modifies a
    ensures !approvalOk || created.None? || !mark.Ok() ==>
              && !ok && a.View() == old(a.View())
              && a.control == old(a.control) +
                 if approvalOk && created.Some? && mark.Applied() then [Marked(created.value)] else []
    ensures approvalOk && created.Some? && mark.Ok() ==>
              var id := created.value;
              var (st, status) := Protocol(a.env, ATTEMPTS, old(a.View()), Select(steps, false), Select(steps, true));
              && a.View() == st
              && a.control == old(a.control) +
                 [Marked(id), Completed(id, if status == Succeeded then Succeeded else Failed)]
              && ok == (status == Succeeded && completeOk)
  {
    hide RunStep, UndoStep, Select;
    if !approvalOk { return false; }
    if created.None? { return false; }
    if mark.Applied() { a.control := a.control + [Marked(created.value)]; }
    if !mark.Ok() { return false; }
    var acts, verifies := SplitStepsByStage(steps);
    var i := 0;
    var failed := false;
    while i < |acts| && !failed
      modifies a`world, a`rows, a`made, a`calls, a`events
      invariant i <= |acts| && (failed ==> i < |acts|)
      invariant var (st, more) := RunAll(a.env, ATTEMPTS, a.View(), acts[i..]);
                RunAll(a.env, ATTEMPTS, old(a.View()), acts) == if failed then (a.View(), i) else (st, i + more)
      decreases |acts| - i, !failed
    {
      assert acts[i..][1..] == acts[i + 1..];
      var done := ExecuteStepActivity(a, acts[i]);
      if done { i := i + 1; } else { failed := true; }
    }
    assert (a.View(), i) == RunAll(a.env, ATTEMPTS, old(a.View()), acts);
    if failed {
      hide RunAll;
      var _ := RollbackStepActivity(a, acts[i]);
      a.CompleteExecution(created.value, Failed);
      return false;
    }
    ok := FinishWorkflow(a, created.value, acts, verifies, completeOk);
    hide RunAll;
  }

  /** The rest of runWorkflowSteps after its act loop. */
  method FinishWorkflow<W>(a: PlanExecutor<W>, executionId: string, acts: seq<PlanStep>, verifies: seq<PlanStep>,
                           completeOk: bool) returns (ok: bool)
    modifies a
    ensures var (st, m) := RunAll(a.env, ATTEMPTS, old(a.View()), verifies);
            if m < |verifies| then
              && !ok && a.View() == Unwind(a.env, ATTEMPTS, st, acts).0
              && a.control == old(a.control) + [Completed(executionId, Failed)]
            else
              && ok == completeOk && a.View() == st
              && a.control == old(a.control) + [Completed(executionId, Succeeded)]
  {
    hide RunStep, UndoStep;
    var i := 0;
    var failed := false;
    while i < |verifies| && !failed
      modifies a`world, a`rows, a`made, a`calls, a`events
      invariant i <= |verifies| && (failed ==> i < |verifies|)
      invariant var (st, more) := RunAll(a.env, ATTEMPTS, a.View(), verifies[i..]);
                RunAll(a.env, ATTEMPTS, old(a.View()), verifies) == if failed then (a.View(), i) else (st, i + more)
      decreases |verifies| - i, !failed
    {
      assert verifies[i..][1..] == verifies[i + 1..];
      var done := ExecuteStepActivity(a, verifies[i]);
      if done { i := i + 1; } else { failed := true; }
    }
    assert (a.View(), i) == RunAll(a.env, ATTEMPTS, old(a.View()), verifies);
    hide RunAll;
    if failed {
      ghost var after := a.View();
      var j := |acts|;
      assert acts[..j] == acts;
      while j > 0
        modifies a`world, a`rows, a`made, a`calls, a`events
        invariant 0 <= j <= |acts|
        invariant Unwind(a.env, ATTEMPTS, a.View(), acts[..j]).0 == Unwind(a.env, ATTEMPTS, after, acts).0
      {
        j := j - 1;
        assert acts[..j + 1][..j] == acts[..j];
        var _ := RollbackStepActivity(a, acts[j]);
      }
      a.CompleteExecution(executionId, Failed);
      return false;
    }
    a.CompleteExecution(executionId, Succeeded);
    return completeOk;
  }

  // ---------------------------------------------------------------- the three together

  /** The logs of a workflow run: every activity is made of its calls, five if it fails and at most five if it
      succeeds, and the calls explain the attempts and the world. */
  lemma WorkflowLogs<W>(env: Env<W>, w0: W, st: State<W>, acts: seq<PlanStep>, verifies: seq<PlanStep>)
    requires Grouped(5, st.events, st.calls) && Explained(env, w0, st)
    ensures var st1 := Protocol(env, ATTEMPTS, st, acts, verifies).0;
            Grouped(5, st1.events, st1.calls) && Explained(env, w0, st1)
  {
    hide Protocol, Grouped, Explained;
    ProtocolGrouped(env, 5, st, acts, verifies);
    ProtocolExplained(env, 5, w0, st, acts, verifies);
  }

  /** What two runs must agree on: the activities with their outcomes, the verdict, and the status writes since
      `from`, where a Temporal run records `failed` instead of `rolled_back`. */
  ghost predicate Agree<W>(from: nat, e: State<W>, eControl: seq<Control>, eOk: bool,
                           t: State<W>, tControl: seq<Control>, tOk: bool)
  {
    && e.events == t.events && eOk == tOk && |eControl| == |tControl|
    && forall i :: 0 <= i < |eControl| ==>
         tControl[i] ==
         if i >= from && eControl[i].Completed? && eControl[i].status == RolledBack
         then Completed(eControl[i].executionId, Failed) else eControl[i]
  }

  /** The status writes of a plan that succeeds. */
  function Success(id: string): (control: seq<Control>) {
    [Marked(id), Completed(id, Succeeded)]
  }

  /** The executor and the two workflows on one plan and execution, each in an environment of its own.
      If their activities have the same outcomes, they issue the same activities, succeed together and
      write the same statuses, up to `failed` for `rolled_back`. In one and the same environment they also
      leave the same world, tool-call rows and calls exactly if the executor completes with success. The
      executor refuses ids of white space only, the workflows do not. */
  method ThreeImplementationsAgree<W>(e: PlanExecutor<W>, p: PlanExecutor<W>, r: PlanExecutor<W>,
                                      exec: ExecutionRef, steps: seq<PlanStep>, mark: Stored, completeOk: bool)
    returns (okE: bool, okP: bool, okR: bool)
    requires e != p && p != r && e != r
    requires e.events == p.events == r.events && e.control == p.control == r.control
    requires !Blank(exec.executionId) && !Blank(exec.planId)
    modifies e, p, r
    ensures SameOutcomes(e.events, p.events) ==>
              Agree(|old(e.control)|, e.View(), e.control, okE, p.View(), p.control, okP)
    ensures SameOutcomes(e.events, r.events) ==>
              Agree(|old(e.control)|, e.View(), e.control, okE, r.View(), r.control, okR)
    ensures e.env == p.env && old(e.View()) == old(p.View()) && mark.Ok() ==>
              (e.View() == p.View() <==> e.control == old(e.control) + Success(exec.executionId))
    ensures e.env == r.env && old(e.View()) == old(r.View()) && mark.Ok() ==>
              (e.View() == r.View() <==> e.control == old(e.control) + Success(exec.executionId))
  {
    hide Protocol, Select, Blank;
    ghost var ve, vp, vr := e.View(), p.View(), r.View();
    ghost var acts, verifies := Select(steps, false), Select(steps, true);
    okE := e.ExecutePlan(Job(exec, Answers(mark, true, Some(steps), completeOk)));
    okP := PlanExecutionWorkflow(p, exec.executionId, steps, mark, completeOk);
    okR := RunWorkflowSteps(r, steps, true, Some(exec.executionId), mark, completeOk);
    NotEmpty(exec.executionId);
    SameOutcomesSameRun(e.env, 1, ve, p.env, ATTEMPTS, vp, acts, verifies);
    SameOutcomesSameRun(e.env, 1, ve, r.env, ATTEMPTS, vr, acts, verifies);
    RetriesChangeNothingIff(e.env, ATTEMPTS, ve, acts, verifies);
    CompletionTells(old(e.control), exec.executionId, Protocol(e.env, 1, ve, acts, verifies).1);
    hide Success;
  }

  lemma CompletionTells(issued: seq<Control>, id: string, status: Status)
    ensures issued + [Marked(id), Completed(id, status)] == issued + Success(id) <==> status == Succeeded
  {
    var n := |issued| + 1;
    assert (issued + [Marked(id), Completed(id, status)])[n] == Completed(id, status);
    assert (issued + Success(id))[n] == Completed(id, Succeeded);
  }

  lemma NotEmpty(s: string)
    ensures !Blank(s) ==> s != ""
  {
  }
}
