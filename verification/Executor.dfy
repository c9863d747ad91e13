// The executor itself (internal/workflows/executor.go), updating its store rows in place, proved
// against the protocol of PlanProtocol.
module Executor {
  import opened Prelude
  import opened Text
  import opened Stages
  import opened PlanProtocol
  import opened ToolCallLedger
  import opened CallLog

  datatype ExecutionRef = ExecutionRef(executionId: string, planId: string)

  /** What the store answers for one execution: to marking it running, to reading its plan, to
      reading its steps, and to completing it. */
  datatype Answers = Answers(mark: Stored, planOk: bool, steps: Option<seq<PlanStep>>, completeOk: bool)

  datatype Job = Job(exec: ExecutionRef, answers: Answers)

  /** What one executePlan call does: the new state, the status writes it issues, no error? */
  datatype Effect<W> = Effect(state: State<W>, control: seq<Control>, ok: bool)

  predicate Named(j: Job) {
    !Blank(j.exec.executionId) && !Blank(j.exec.planId)
  }

  predicate Starts(j: Job) {
    Named(j) && j.answers.mark.Ok()
  }

  /** Marked running by a write that reported an error: executePlan gives up on it. */
  predicate Stuck(j: Job) {
    Named(j) && j.answers.mark.Unconfirmed?
  }

  function PlanEffect<W>(env: Env<W>, st: State<W>, j: Job): (eff: Effect<W>) {
    var id := j.exec.executionId;
    if !Starts(j) then Effect(st, if Stuck(j) then [Marked(id)] else [], false)
    else if !j.answers.planOk || j.answers.steps.None? then Effect(st, [Marked(id), Completed(id, Failed)], false)
    else
      var steps := j.answers.steps.value;
      var (st1, status) := Protocol(env, 1, st, Select(steps, false), Select(steps, true));
      Effect(st1, [Marked(id), Completed(id, status)], status == Succeeded && j.answers.completeOk)
  }

  /** A batch stops at its first failing execution. The second result is the number finished. */
  function BatchEffect<W>(env: Env<W>, st: State<W>, jobs: seq<Job>): (r: (Effect<W>, nat))
    ensures r.1 <= |jobs| && (r.0.ok <==> r.1 == |jobs|)
    decreases |jobs|
  {
    if jobs == [] then (Effect(st, [], true), 0)
    else
      var e := PlanEffect(env, st, jobs[0]);
      if !e.ok then (e, 0)
      else
        var (rest, n) := BatchEffect(env, e.state, jobs[1..]);
        (rest.(control := e.control + rest.control), n + 1)
  }

  /** The writes `running` and then exactly one completion for each of the first n executions, in order; then
      nothing else but a last `running` if the next execution is stuck. */
  ghost predicate OneCompletionEach(control: seq<Control>, jobs: seq<Job>, n: nat, stuck: bool) {
    && n <= |jobs| && |control| == 2 * n + (if stuck then 1 else 0)
    && (stuck ==> n < |jobs| && control[2 * n] == Marked(jobs[n].exec.executionId))
    && forall i :: 0 <= i < n ==>
         && control[2 * i] == Marked(jobs[i].exec.executionId)
         && control[2 * i + 1].Completed?
         && control[2 * i + 1].executionId == jobs[i].exec.executionId
  }

  lemma PlanWrites<W>(env: Env<W>, st: State<W>, jobs: seq<Job>)
    requires jobs != []
    ensures var e := PlanEffect(env, st, jobs[0]);
            && (e.ok ==> Starts(jobs[0]))
            && OneCompletionEach(e.control, jobs, if Starts(jobs[0]) then 1 else 0, Stuck(jobs[0]))
  {
    hide Protocol, Blank, Select;
  }

  lemma OneMore(first: seq<Control>, rest: seq<Control>, jobs: seq<Job>, n: nat, stuck: bool)
    requires jobs != [] && OneCompletionEach(first, jobs, 1, false) && OneCompletionEach(rest, jobs[1..], n, stuck)
    ensures OneCompletionEach(first + rest, jobs, n + 1, stuck)
  {
    var all := first + rest;
    assert first[2 * 0] == Marked(jobs[0].exec.executionId);
    forall i | 0 <= i < n + 1
      ensures all[2 * i] == Marked(jobs[i].exec.executionId)
      ensures all[2 * i + 1].Completed?
      ensures all[2 * i + 1].executionId == jobs[i].exec.executionId
    {
      if i > 0 {
        assert all[2 * i] == rest[2 * (i - 1)] && all[2 * i + 1] == rest[2 * (i - 1) + 1];
        assert jobs[i] == jobs[1..][i - 1];
      }
    }
    if stuck { assert all[2 * (n + 1)] == rest[2 * n] && jobs[n + 1] == jobs[1..][n]; }
  }

  /** How many executions of a batch that finished `finished` of them got a completion: those, and the
      failing one if it was marked without error. */
  function Completions(jobs: seq<Job>, finished: nat): (n: nat) {
    if finished < |jobs| && Starts(jobs[finished]) then finished + 1 else finished
  }

  predicate EndsStuck(jobs: seq<Job>, finished: nat) {
    finished < |jobs| && Stuck(jobs[finished])
  }

  /** In every batch, each execution that is marked running without error is completed exactly once, and the
      executions after the failing one are not touched. One that was marked by a write that reported an
      error is left running. */
  lemma {:induction false} CompletedExactlyOnce<W>(env: Env<W>, st: State<W>, jobs: seq<Job>)
    ensures var (e, finished) := BatchEffect(env, st, jobs);
            OneCompletionEach(e.control, jobs, Completions(jobs, finished), EndsStuck(jobs, finished))
    decreases |jobs|
  {
    hide PlanEffect, Starts, Stuck, OneCompletionEach;
    if jobs == [] {
      NoCompletion(jobs);
    } else {
      var e := PlanEffect(env, st, jobs[0]);
      PlanWrites(env, st, jobs);
      if e.ok {
        StartsNotStuck(jobs[0]);
        CompletedExactlyOnce(env, e.state, jobs[1..]);
        var (rest, finished) := BatchEffect(env, e.state, jobs[1..]);
        OneMore(e.control, rest.control, jobs, Completions(jobs[1..], finished), EndsStuck(jobs[1..], finished));
      }
    }
  }

  lemma StartsNotStuck(j: Job)
    ensures !(Starts(j) && Stuck(j))
  {
  }

  lemma NoCompletion(jobs: seq<Job>)
    ensures OneCompletionEach([], jobs, 0, false)
  {
  }

  /** A whole batch keeps the tool-call table exact: one row for each insert that took effect, of any step or
      rollback of any execution, which tells its own attempt. */
  lemma {:induction false} BatchKeepsLedger<W>(env: Env<W>, st: State<W>, jobs: seq<Job>)
    ensures Extends(env, st, BatchEffect(env, st, jobs).0.state)
    decreases |jobs|
  {
    hide PlanEffect, Exact;
    if jobs != [] {
      var e := PlanEffect(env, st, jobs[0]);
      PlanKeepsLedger(env, st, jobs[0]);
      if e.ok {
        BatchKeepsLedger(env, e.state, jobs[1..]);
        ExtendsTrans(env, st, e.state, BatchEffect(env, e.state, jobs[1..]).0.state);
      }
    }
  }

  lemma PlanKeepsLedger<W>(env: Env<W>, st: State<W>, j: Job)
    ensures Extends(env, st, PlanEffect(env, st, j).state)
  {
    hide Protocol, Blank, Select, Exact;
    if j.answers.steps.Some? {
      var steps := j.answers.steps.value;
      ProtocolKeepsLedger(env, 1, st, Select(steps, false), Select(steps, true));
    }
  }

  /** A whole batch keeps its logs explained, and every activity of it is a single call. */
  lemma {:induction false} BatchLogs<W>(env: Env<W>, w0: W, st: State<W>, jobs: seq<Job>)
    requires Grouped(1, st.events, st.calls) && Explained(env, w0, st)
    ensures var st1 := BatchEffect(env, st, jobs).0.state;
            Grouped(1, st1.events, st1.calls) && Explained(env, w0, st1)
    decreases |jobs|
  {
    hide PlanEffect, Explained, Grouped;
    if jobs != [] {
      PlanLogs(env, w0, st, jobs[0]);
      BatchLogs(env, w0, PlanEffect(env, st, jobs[0]).state, jobs[1..]);
    }
  }

  lemma PlanLogs<W>(env: Env<W>, w0: W, st: State<W>, j: Job)
    requires Grouped(1, st.events, st.calls) && Explained(env, w0, st)
    ensures var st1 := PlanEffect(env, st, j).state; Grouped(1, st1.events, st1.calls) && Explained(env, w0, st1)
  {
    hide Protocol, Blank, Select, Explained, Grouped;
    if j.answers.steps.Some? {
      var steps := j.answers.steps.value;
      ProtocolGrouped(env, 1, st, Select(steps, false), Select(steps, true));
      ProtocolExplained(env, 1, w0, st, Select(steps, false), Select(steps, true));
    }
  }

  /** What one execution comes to. Blank ids and a mark that reports an error leave everything but the mark
      untouched. A plan that cannot be read is completed as failed without running anything. Otherwise the
      activities have one of the protocol's three shapes, the completion records the status of that shape, and
      there is no error exactly if the plan succeeded and its completion did. */
  lemma PlanOutcome<W>(env: Env<W>, st: State<W>, j: Job) returns (trace: seq<Event>, status: Status)
    ensures var e, id := PlanEffect(env, st, j), j.exec.executionId;
            if Blank(id) || Blank(j.exec.planId) || j.answers.mark != Saved then
              && e.state == st && !e.ok
              && e.control == if !Blank(id) && !Blank(j.exec.planId) && j.answers.mark == Unconfirmed
                              then [Marked(id)] else []
            else if !j.answers.planOk || j.answers.steps.None? then
              e.state == st && !e.ok && e.control == [Marked(id), Completed(id, Failed)]
            else
              var steps := j.answers.steps.value;
              && e.state.events == st.events + trace
              && HasShape(trace, Select(steps, false), Select(steps, true), status)
              && e.control == [Marked(id), Completed(id, status)]
              && (e.ok <==> status == Succeeded && j.answers.completeOk)
  {
    hide Protocol, Blank, Select, HasShape;
    trace, status := [], Failed;
    if j.answers.steps.Some? {
      var steps := j.answers.steps.value;
      trace := TraceShape(env, 1, st, Select(steps, false), Select(steps, true));
      status := Protocol(env, 1, st, Select(steps, false), Select(steps, true)).1;
    }
  }

  /** Batch result `all` is `rest` after `done` executions that issued the writes `issued`. */
  ghost predicate Prefixed<W>(all: (Effect<W>, nat), issued: seq<Control>, done: nat, rest: (Effect<W>, nat)) {
    && all.0.state == rest.0.state && all.0.ok == rest.0.ok
    && all.0.control == issued + rest.0.control && all.1 == done + rest.1
  }

  lemma PrefixedStep<W>(env: Env<W>, st: State<W>, jobs: seq<Job>, all: (Effect<W>, nat), issued: seq<Control>,
                        done: nat)
    requires jobs != [] && Prefixed(all, issued, done, BatchEffect(env, st, jobs))
    ensures var e := PlanEffect(env, st, jobs[0]);
            if e.ok then Prefixed(all, issued + e.control, done + 1, BatchEffect(env, e.state, jobs[1..]))
            else all == (Effect(e.state, issued + e.control, false), done)
  {
    hide PlanEffect;
    var e := PlanEffect(env, st, jobs[0]);
    if e.ok {
      var rest := BatchEffect(env, e.state, jobs[1..]).0;
      assert issued + (e.control + rest.control) == issued + e.control + rest.control;
    }
  }

  class PlanExecutor<W> {
    const env: Env<W>
    var world: W
    var rows: seq<Row>
    var made: seq<Made<W>>
    var calls: seq<Event>
    var events: seq<Event>
    var control: seq<Control>

    constructor (env: Env<W>, world: W)
      ensures this.env == env && View() == State(world, [], [], [], []) && control == []
    {
      this.env := env;
      this.world, this.rows, this.made, this.calls, this.events, this.control := world, [], [], [], [], [];
    }

    ghost function View(): (st: State<W>)
      reads this
    {
      State(world, made, rows, calls, events)
    }

    method InsertToolCall(n: nat, tool: string) returns (id: nat, ok: bool)
      modifies this`rows
      ensures ok == env.insert(n).Ok() && id == |old(rows)|
      ensures rows == if env.insert(n).Applied() then old(rows) + [Row(n, tool, Running, 0)] else old(rows)
    {
      id, ok := |rows|, env.insert(n).Ok();
      if env.insert(n).Applied() { rows := rows + [Row(n, tool, Running, 0)]; }
    }

    method UpdateToolCall(n: nat, id: nat, status: RowStatus) returns (ok: bool)
      requires id < |rows|
      modifies this`rows
      ensures ok == env.update(n).ok
      ensures var r := old(rows)[id];
              var s := if env.update(n).applied then status else r.status;
              rows == old(rows)[id := r.(status := s, updates := r.updates + 1)]
    {
      var r, u := rows[id], env.update(n);
      rows := rows[id := r.(status := if u.applied then status else r.status, updates := r.updates + 1)];
      ok := u.ok;
    }

    method RunTool(n: nat, c: Call) returns (ok: bool)
      modifies this`world
      ensures (world, ok) == env.tool(n, c, old(world))
    {
      var (w, b) := env.tool(n, c, world);
      world, ok := w, b;
    }

    method ExecuteStep(step: PlanStep) returns (ok: bool)
      modifies this`world, this`rows, this`made, this`calls
      ensures (View(), ok) == CallStep(env, old(View()), step)
    {
      var n, w := |made|, world;
      ok := ExecuteStepBody(n, step);
      made := made + [Made(StepCall(step), w)];
      calls := calls + [Ran(step, ok)];
    }

    method ExecuteStepBody(n: nat, step: PlanStep) returns (ok: bool)
      requires n == |made|
      modifies this`rows, this`world
      ensures var (st, called) := Attempt(env, old(View()), StepCall(step));
              && rows == st.rows && world == st.world
              && ok == (called && (HasEvidence(step.tool) ==> env.evidenceOk(n)))
    {
      hide HasEvidence;
      var id, inserted := InsertToolCall(n, step.tool);
      if !inserted { return false; }
      if !env.inputOk(n) {
        var _ := UpdateToolCall(n, id, Broken);
        return false;
      }
      var ran := RunTool(n, StepCall(step));
      if !ran {
        var _ := UpdateToolCall(n, id, Broken);
        return false;
      }
      if !env.outputOk(n) {
        var _ := UpdateToolCall(n, id, Broken);
        return false;
      }
      var updated := UpdateToolCall(n, id, Done);
      if !updated { return false; }
      if !HasEvidence(step.tool) { return true; }
      return env.evidenceOk(n);
    }

    method TryRollback(step: PlanStep) returns (ok: bool)
      modifies this`world, this`rows, this`made, this`calls
      ensures (View(), ok) == CallUndo(env, old(View()), step)
    {
      hide Blank;
      if UsableRollback(step) {
        var n, w := |made|, world;
        ok := TryRollbackBody(n, RollbackCall(step));
        made := made + [Made(RollbackCall(step), w)];
      } else {
        ok := false;
      }
      calls := calls + [Undid(step, ok)];
    }

    method TryRollbackBody(n: nat, c: Call) returns (ok: bool)
      requires n == |made|
      modifies this`rows, this`world
      ensures var (st, called) := Attempt(env, old(View()), c);
              rows == st.rows && world == st.world && ok == called
    {
      var id, inserted := InsertToolCall(n, c.tool);
      if !inserted { return false; }
      if !env.inputOk(n) {
        var _ := UpdateToolCall(n, id, Broken);
        return false;
      }
      var ran := RunTool(n, c);
      if !ran {
        var _ := UpdateToolCall(n, id, Broken);
        return false;
      }
      if !env.outputOk(n) {
        var _ := UpdateToolCall(n, id, Broken);
        return false;
      }
      ok := UpdateToolCall(n, id, Done);
    }

    /** The executor calls a step once. */
    method StepOnce(step: PlanStep) returns (ok: bool)
      modifies this`world, this`rows, this`made, this`calls, this`events
      ensures (View(), ok) == RunStep(env, 1, old(View()), step)
    {
      hide CallStep, CallUndo, RunStep, UndoStep;
      OneTry(env, View(), step);
      ok := ExecuteStep(step);
      events := events + [Ran(step, ok)];
    }

    /** The executor calls a rollback once. */
    method UndoOnce(step: PlanStep) returns (ok: bool)
      modifies this`world, this`rows, this`made, this`calls, this`events
      ensures (View(), ok) == UndoStep(env, 1, old(View()), step)
    {
      hide CallStep, CallUndo, RunStep, UndoStep;
      OneTry(env, View(), step);
      ok := TryRollback(step);
      events := events + [Undid(step, ok)];
    }

    method RollbackSteps(steps: seq<PlanStep>) returns (ok: bool)
      modifies this`world, this`rows, this`made, this`calls, this`events
      ensures (View(), ok) == Unwind(env, 1, old(View()), steps)
    {
      hide UndoStep;
      ok := true;
      var i := |steps|;
      assert steps[..i] == steps;
      while i > 0
        invariant 0 <= i <= |steps|
        invariant var (st, rest) := Unwind(env, 1, View(), steps[..i]);
                  Unwind(env, 1, old(View()), steps) == (st, ok && rest)
      {
        i := i - 1;
        assert steps[..i + 1][..i] == steps[..i];
        var undone := UndoOnce(steps[i]);
        if !undone { ok := false; }
      }
    }

    /** Run steps in order up to and including the first that fails. */
    method RunSteps(steps: seq<PlanStep>) returns (k: nat)
      modifies this`world, this`rows, this`made, this`calls, this`events
      ensures (View(), k) == RunAll(env, 1, old(View()), steps)
    {
      hide RunStep;
      k := 0;
      while k < |steps|
        invariant k <= |steps|
        invariant var (st, more) := RunAll(env, 1, View(), steps[k..]);
                  RunAll(env, 1, old(View()), steps) == (st, k + more)
      {
        assert steps[k..][1..] == steps[k + 1..];
        var ok := StepOnce(steps[k]);
        if !ok { return; }
        k := k + 1;
      }
    }

    method CompleteExecution(id: string, status: Status)
      modifies this`control
      ensures control == old(control) + [Completed(id, status)]
    {
      control := control + [Completed(id, status)];
    }

    method ExecutePlan(j: Job) returns (ok: bool)
      modifies this
      ensures var e := PlanEffect(env, old(View()), j);
              View() == e.state && control == old(control) + e.control && ok == e.ok
    {
      hide RunAll, Unwind, UndoStep, Select, Blank;
      if Blank(j.exec.executionId) || Blank(j.exec.planId) { return false; }
      var id := j.exec.executionId;
      if j.answers.mark.Applied() { control := control + [Marked(id)]; }
      if !j.answers.mark.Ok() { return false; }
      if !j.answers.planOk || j.answers.steps.None? {
        CompleteExecution(id, Failed);
        return false;
      }
      var acts, verifies := SplitStepsByStage(j.answers.steps.value);
      var k := RunSteps(acts);
      if k < |acts| {
        var undone := UndoOnce(acts[k]);
        CompleteExecution(id, if undone then RolledBack else Failed);
        return false;
      }
      var m := RunSteps(verifies);
      if m < |verifies| {
        var undone := RollbackSteps(acts);
        CompleteExecution(id, if undone then RolledBack else Failed);
        return false;
      }
      CompleteExecution(id, Succeeded);
      return j.answers.completeOk;
    }

    method RunOnce(jobs: seq<Job>) returns (count: nat, ok: bool)
      modifies this
      ensures var (e, finished) := BatchEffect(env, old(View()), jobs);
              View() == e.state && control == old(control) + e.control && ok == e.ok && count == finished
    {
      hide PlanEffect;
      count, ok := 0, true;
      ghost var issued := [];
      assert jobs[0..] == jobs;
      while count < |jobs|
        invariant count <= |jobs| && ok
        invariant control == old(control) + issued
        invariant Prefixed(BatchEffect(env, old(View()), jobs), issued, count, BatchEffect(env, View(), jobs[count..]))
      {
        ghost var before, e := View(), PlanEffect(env, View(), jobs[count]);
        assert jobs[count..][0] == jobs[count] && jobs[count..][1..] == jobs[count + 1..];
        ok := ExecutePlan(jobs[count]);
        PrefixedStep(env, before, jobs[count..], BatchEffect(env, old(View()), jobs), issued, count);
        issued := issued + e.control;
        if !ok { return; }
        count := count + 1;
      }
    }
  }
}
