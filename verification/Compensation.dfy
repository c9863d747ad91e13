// When rolling back puts the world back (internal/workflows/executor.go:106-155), for the executor's single
// calls and for the retried activities of the workflows (internal/workflows/temporal_workflow.go:23-71).
module Compensation {
  import opened Prelude
  import opened Text
  import opened Stages
  import opened PlanProtocol

  /** A rollback that succeeds undoes a call of the step's tool that succeeded. */
  ghost predicate UndoesDone<W(!new)>(env: Env<W>, s: PlanStep) {
    UsableRollback(s) ==>
      forall n, m, w :: (var t := env.tool(n, StepCall(s), w);
                         var r := env.tool(m, RollbackCall(s), t.0);
                         t.1 && r.1 ==> r.0 == w)
  }

  /** A rollback that succeeds undoes any call of the step's tool, failed ones included. */
  ghost predicate UndoesAny<W(!new)>(env: Env<W>, s: PlanStep) {
    UsableRollback(s) ==>
      forall n, m, w :: (var r := env.tool(m, RollbackCall(s), env.tool(n, StepCall(s), w).0); r.1 ==> r.0 == w)
  }

  ghost predicate ReadOnly<W(!new)>(env: Env<W>, s: PlanStep) {
    forall n, w :: env.tool(n, StepCall(s), w).0 == w
  }

  lemma {:induction false} RunAllSnoc<W>(env: Env<W>, tries: nat, st: State<W>, steps: seq<PlanStep>, last: PlanStep)
    ensures var (st1, k) := RunAll(env, tries, st, steps);
            RunAll(env, tries, st, steps + [last]) ==
            if k < |steps| then (st1, k)
            else var (st2, ok) := RunStep(env, tries, st1, last); (st2, if ok then k + 1 else k)
    decreases |steps|
  {
    hide RunStep;
    if steps != [] {
      assert (steps + [last])[1..] == steps[1..] + [last];
      RunAllSnoc(env, tries, RunStep(env, tries, st, steps[0]).0, steps[1..], last);
    } else {
      assert [last][1..] == [];
    }
  }

  /** The failing step ran in the state left by the steps before it. */
  lemma {:induction false} RunAllFailure<W>(env: Env<W>, tries: nat, st: State<W>, steps: seq<PlanStep>)
    requires RunAll(env, tries, st, steps).1 < |steps|
    ensures var (st1, k) := RunAll(env, tries, st, steps);
            var before := RunAll(env, tries, st, steps[..k]);
            before.1 == k && RunStep(env, tries, before.0, steps[k]) == (st1, false)
    decreases |steps|
  {
    hide RunStep;
    var (st1, ok) := RunStep(env, tries, st, steps[0]);
    if ok {
      RunAllFailure(env, tries, st1, steps[1..]);
      var k := RunAll(env, tries, st1, steps[1..]).1;
      assert steps[..k + 1][1..] == steps[1..][..k];
    }
  }

  // ---------------------------------------------------------------- the last try

  /** The state in which the last call of a step's activity starts. */
  function LastTry<W>(env: Env<W>, tries: nat, st: State<W>, s: PlanStep): (last: State<W>)
    decreases tries
  {
    var (st1, ok) := CallStep(env, st, s);
    if tries <= 1 || ok then st else LastTry(env, tries - 1, st1, s)
  }

  /** The state in which the last call of a rollback's activity starts. */
  function LastUndo<W>(env: Env<W>, tries: nat, st: State<W>, s: PlanStep): (last: State<W>)
    decreases tries
  {
    var (st1, ok) := CallUndo(env, st, s);
    if tries <= 1 || ok then st else LastUndo(env, tries - 1, st1, s)
  }

  /** That call decides the activity. */
  lemma {:induction false} LastTryDecides<W>(env: Env<W>, tries: nat, st: State<W>, s: PlanStep)
    requires tries > 0
    ensures TryStep(env, tries, st, s) == CallStep(env, LastTry(env, tries, st, s), s)
    ensures TryUndo(env, tries, st, s) == CallUndo(env, LastUndo(env, tries, st, s), s)
    decreases tries
  {
    hide CallStep, CallUndo;
    if tries > 1 {
      LastTryDecides(env, tries - 1, CallStep(env, st, s).0, s);
      LastTryDecides(env, tries - 1, CallUndo(env, st, s).0, s);
    } else {
      assert forall a: State<W> :: TryStep(env, 0, a, s) == (a, false) && TryUndo(env, 0, a, s) == (a, false);
    }
  }

  /** The failed tries of step i left the world alone: its last call found the world that the step found. */
  ghost predicate QuietAt<W>(env: Env<W>, tries: nat, st: State<W>, steps: seq<PlanStep>, i: nat)
    requires i < |steps|
  {
    var before := RunAll(env, tries, st, steps[..i]).0;
    LastTry(env, tries, before, steps[i]).world == before.world
  }

  /** So did the failed tries of every rollback of an unwinding. */
  ghost predicate QuietUnwind<W>(env: Env<W>, tries: nat, st: State<W>, steps: seq<PlanStep>)
    decreases |steps|
  {
    steps != [] ==>
      var n := |steps| - 1;
      && LastUndo(env, tries, st, steps[n]).world == st.world
      && QuietUnwind(env, tries, UndoStep(env, tries, st, steps[n]).0, steps[..n])
  }

  lemma {:induction false} OneTryIsQuiet<W>(env: Env<W>, st: State<W>, steps: seq<PlanStep>)
    ensures forall i :: 0 <= i < |steps| ==> QuietAt(env, 1, st, steps, i)
    ensures QuietUnwind(env, 1, st, steps)
    decreases |steps|
  {
    hide CallStep, CallUndo, RunAll, UndoStep;
    if steps != [] {
      var n := |steps| - 1;
      OneTryIsQuiet(env, UndoStep(env, 1, st, steps[n]).0, steps[..n]);
    }
  }

  // ---------------------------------------------------------------- verify failures

  lemma ReadOnlyCall<W(!new)>(env: Env<W>, st: State<W>, s: PlanStep)
    requires ReadOnly(env, s)
    ensures CallStep(env, st, s).0.world == st.world
  {
    hide HasEvidence;
  }

  lemma {:induction false} ReadOnlyTries<W(!new)>(env: Env<W>, tries: nat, st: State<W>, s: PlanStep)
    requires ReadOnly(env, s)
    ensures TryStep(env, tries, st, s).0.world == st.world
    decreases tries
  {
    if tries > 0 {
      hide CallStep, ReadOnly;
      ReadOnlyCall(env, st, s);
      ReadOnlyTries(env, tries - 1, CallStep(env, st, s).0, s);
    }
  }

  lemma {:induction false} ReadOnlyRun<W(!new)>(env: Env<W>, tries: nat, st: State<W>, steps: seq<PlanStep>)
    requires forall s :: s in steps ==> ReadOnly(env, s)
    ensures RunAll(env, tries, st, steps).0.world == st.world
    decreases |steps|
  {
    hide TryStep, ReadOnly;
    if steps != [] {
      ReadOnlyTries(env, tries, st, steps[0]);
      ReadOnlyRun(env, tries, RunStep(env, tries, st, steps[0]).0, steps[1..]);
    }
  }

  /** The world that a successful activity leaves, by its last call. */
  lemma StepWorld<W>(env: Env<W>, tries: nat, st: State<W>, s: PlanStep)
    requires tries > 0
    ensures RunStep(env, tries, st, s).1 ==>
              var last := LastTry(env, tries, st, s);
              var t := env.tool(|last.made|, StepCall(s), last.world);
              t.1 && RunStep(env, tries, st, s).0.world == t.0
    ensures UndoStep(env, tries, st, s).1 ==>
              var last := LastUndo(env, tries, st, s);
              && UsableRollback(s)
              && var t := env.tool(|last.made|, RollbackCall(s), last.world);
                 t.1 && UndoStep(env, tries, st, s).0.world == t.0
  {
    LastTryDecides(env, tries, st, s);
    hide LastTry, LastUndo, TryStep, TryUndo, HasEvidence, Blank;
  }

  lemma UndoInvertsStep<W(!new)>(env: Env<W>, tries: nat, before: State<W>, s: PlanStep, after: State<W>)
    requires tries > 0 && UndoesDone(env, s)
    requires RunStep(env, tries, before, s).1 && after.world == RunStep(env, tries, before, s).0.world
    requires UndoStep(env, tries, after, s).1 && LastUndo(env, tries, after, s).world == after.world
    ensures UndoStep(env, tries, after, s).0.world == LastTry(env, tries, before, s).world
  {
    StepWorld(env, tries, before, s);
    StepWorld(env, tries, after, s);
    hide RunStep, UndoStep, LastTry, LastUndo, Blank;
  }

  lemma QuietPrefix<W>(env: Env<W>, tries: nat, st: State<W>, steps: seq<PlanStep>, init: seq<PlanStep>)
    requires init <= steps && forall i :: 1 <= i < |steps| ==> QuietAt(env, tries, st, steps, i)
    ensures forall i :: 1 <= i < |init| ==> QuietAt(env, tries, st, init, i)
  {
    hide RunAll, LastTry;
    forall i | 1 <= i < |init| ensures QuietAt(env, tries, st, init, i) {
      assert QuietAt(env, tries, st, steps, i) && init[..i] == steps[..i] && init[i] == steps[i];
    }
  }

  /** A fully successful unwinding of a fully successful run, whose rollbacks undo successful calls and whose
      failed tries, except those of the first step, left the world alone: the world is then as the last
      try of the first step found it. */
  lemma {:induction false} UnwindInvertsRun<W(!new)>(env: Env<W>, tries: nat, st: State<W>, steps: seq<PlanStep>,
                                                            after: State<W>)
    requires tries > 0 && steps != [] && forall s :: s in steps ==> UndoesDone(env, s)
    requires forall i :: 1 <= i < |steps| ==> QuietAt(env, tries, st, steps, i)
    requires QuietUnwind(env, tries, after, steps)
    ensures var (st1, k) := RunAll(env, tries, st, steps);
            var (st2, ok) := Unwind(env, tries, after, steps);
            k == |steps| && after.world == st1.world && ok ==> st2.world == LastTry(env, tries, st, steps[0]).world
    decreases |steps|
  {
    hide RunStep, UndoStep, UndoesDone, LastTry, LastUndo;
    if RunAll(env, tries, st, steps).1 == |steps| && after.world == RunAll(env, tries, st, steps).0.world
       && Unwind(env, tries, after, steps).1 {
      var n := |steps| - 1;
      var init, last := steps[..n], steps[n];
      assert steps == init + [last];
      RunAllSnoc(env, tries, st, init, last);
      var before, undone := RunAll(env, tries, st, init).0, UndoStep(env, tries, after, last).0;
      UndoInvertsStep(env, tries, before, last, after);
      if n > 0 {
        assert QuietAt(env, tries, st, steps, n);
        QuietPrefix(env, tries, st, steps, init);
        UnwindInvertsRun(env, tries, st, init, undone);
      }
    }
  }

  /** A plan that fails in its verify stage and ends with every rollback done, for any number of steps and
      tries: the world is as the last try of the first act step found it, if rollbacks undo successful
      calls, verify steps only read, and failed tries of the other act steps and of the rollbacks left the
      world alone. So it is as before the plan exactly if the failed tries of the first step did too. */
  lemma VerifyFailureWorld<W(!new)>(env: Env<W>, tries: nat, st: State<W>, acts: seq<PlanStep>, verifies: seq<PlanStep>)
    requires tries > 0 && acts != []
    requires forall s :: s in acts ==> UndoesDone(env, s)
    requires forall s :: s in verifies ==> ReadOnly(env, s)
    requires RunAll(env, tries, st, acts).1 == |acts| && Protocol(env, tries, st, acts, verifies).1 == RolledBack
    requires forall i :: 1 <= i < |acts| ==> QuietAt(env, tries, st, acts, i)
    requires QuietUnwind(env, tries, RunAll(env, tries, RunAll(env, tries, st, acts).0, verifies).0, acts)
    ensures Protocol(env, tries, st, acts, verifies).0.world == LastTry(env, tries, st, acts[0]).world
  {
    hide RunAll, Unwind, UndoesDone, ReadOnly, LastTry, QuietUnwind, QuietAt;
    var st1 := RunAll(env, tries, st, acts).0;
    ReadOnlyRun(env, tries, st1, verifies);
    UnwindInvertsRun(env, tries, st, acts, RunAll(env, tries, st1, verifies).0);
  }

  /** The executor, which calls once, puts the world back whatever fails: a plan that fails in its verify
      stage and ends `rolled_back` leaves the world as it was before the plan, for any number of steps. */
  lemma VerifyFailureRestoresWorld<W(!new)>(env: Env<W>, st: State<W>, acts: seq<PlanStep>, verifies: seq<PlanStep>)
    requires forall s :: s in acts ==> UndoesDone(env, s)
    requires forall s :: s in verifies ==> ReadOnly(env, s)
    requires RunAll(env, 1, st, acts).1 == |acts|
    requires Protocol(env, 1, st, acts, verifies).1 == RolledBack
    ensures Protocol(env, 1, st, acts, verifies).0.world == st.world
  {
    var st1 := RunAll(env, 1, st, acts).0;
    if acts == [] {
      ReadOnlyRun(env, 1, st1, verifies);
    } else {
      hide RunAll, Protocol, UndoesDone, ReadOnly, CallStep, QuietUnwind, QuietAt;
      OneTryIsQuiet(env, st, acts);
      OneTryIsQuiet(env, RunAll(env, 1, st1, verifies).0, acts);
      VerifyFailureWorld(env, 1, st, acts, verifies);
    }
  }

  // ---------------------------------------------------------------- act failures

  /** What a failed activity followed by its successful rollback does to the world. */
  lemma FailedThenUndone<W(!new)>(env: Env<W>, tries: nat, before: State<W>, s: PlanStep)
    requires tries > 0 && UndoesAny(env, s)
    requires var (failed, ok) := RunStep(env, tries, before, s);
             !ok && UndoStep(env, tries, failed, s).1 && LastUndo(env, tries, failed, s).world == failed.world
    ensures var failed := RunStep(env, tries, before, s).0;
            var last, undo := LastTry(env, tries, before, s), LastUndo(env, tries, failed, s);
            && UsableRollback(s)
            && UndoStep(env, tries, failed, s).0.world ==
               if ToolReached(env, |last.made|) then last.world
               else env.tool(|undo.made|, RollbackCall(s), last.world).0
  {
    var failed := RunStep(env, tries, before, s).0;
    var last := LastTry(env, tries, before, s);
    LastTryDecides(env, tries, before, s);
    StepWorld(env, tries, failed, s);
    assert failed.world == CallStep(env, last, s).0.world && !CallStep(env, last, s).1;
    hide RunStep, UndoStep, LastTry, LastUndo, HasEvidence, Blank;
    if ToolReached(env, |last.made|) {
      assert failed.world == env.tool(|last.made|, StepCall(s), last.world).0;
    }
  }

  /** A plan that fails at act step k and ends with that step rolled back, for any number of tries: the world
      is as the step's last call found it when that call reached the tool. When it did not (its row or its
      stored input was refused), the rollback still runs, on a world that call never touched, and what it
      does there is left. With a single call (`OneCall`) that is the world just before the step. */
  lemma ActFailureRestoresWorld<W(!new)>(env: Env<W>, tries: nat, st: State<W>, acts: seq<PlanStep>,
                                         verifies: seq<PlanStep>, k: nat)
    requires tries > 0 && k == RunAll(env, tries, st, acts).1 < |acts|
    requires UndoesAny(env, acts[k]) && Protocol(env, tries, st, acts, verifies).1 == RolledBack
    requires var failed := RunAll(env, tries, st, acts).0; LastUndo(env, tries, failed, acts[k]).world == failed.world
    ensures var before := RunAll(env, tries, st, acts[..k]).0;
            var last := LastTry(env, tries, before, acts[k]);
            var undo := LastUndo(env, tries, RunAll(env, tries, st, acts).0, acts[k]);
            var final := Protocol(env, tries, st, acts, verifies).0;
            && UsableRollback(acts[k])
            && (ToolReached(env, |last.made|) ==> final.world == last.world)
            && (!ToolReached(env, |last.made|) ==>
                  final.world == env.tool(|undo.made|, RollbackCall(acts[k]), last.world).0)
  {
    hide RunAll, RunStep, UndoStep, UndoesAny, LastTry, LastUndo;
    RunAllFailure(env, tries, st, acts);
    FailedThenUndone(env, tries, RunAll(env, tries, st, acts[..k]).0, acts[k]);
  }

  /** With a single call, the last call starts where the activity does. */
  lemma OneCall<W>(env: Env<W>, st: State<W>, s: PlanStep)
    ensures LastTry(env, 1, st, s) == st && LastUndo(env, 1, st, s) == st
  {
  }

  /** The condition is needed: a one-step plan whose tool-call row is refused is `rolled_back` to a
      world it was never in. */
  lemma ActFailureCanMoveWorld() returns (env: Env<int>, st: State<int>, s: PlanStep)
    ensures UndoesAny(env, s)
    ensures Protocol(env, 1, st, [s], []).1 == RolledBack
    ensures Protocol(env, 1, st, [s], []).0.world != st.world
  {
    env := Env(n => if n != 0 then Saved else Rejected, _ => true,
               (n, c: Call, w: int) => (if c.action == "up" then w + 1 else w - 1, true),
               _ => true, _ => UpdateOutcome(true, true), _ => true);
    st := State(5, [], [], [], []);
    s := PlanStep("s1", "act", "up", "kubectl", "", Fields("kubectl", "down", ""));
    assert !Blank("kubectl") by { assert TrimLeft("kubectl") == "kubectl"; }
    assert !Blank("down") by { assert TrimLeft("down") == "down"; }
    assert UsableRollback(s);
    OneTry(env, st, s);
    var failed := RunStep(env, 1, st, s).0;
    OneTry(env, failed, s);
    assert RunAll(env, 1, st, [s]) == (failed, 0);
  }

  // ---------------------------------------------------------------- a retried step leaves a residue

  /** A step that is never let through fails however often it is tried. */
  lemma {:induction false} AlwaysFails<W>(env: Env<W>, tries: nat, st: State<W>, s: PlanStep)
    requires forall n, w: W :: !env.tool(n, StepCall(s), w).1
    ensures !TryStep(env, tries, st, s).1
    decreases tries
  {
    if tries > 0 {
      assert !CallStep(env, st, s).1 by { hide HasEvidence; }
      hide CallStep;
      AlwaysFails(env, tries - 1, CallStep(env, st, s).0, s);
    }
  }

  /** An act step that acts, reports failure and succeeds when tried again, before a check that fails: its
      rollback undoes a successful call and succeeds, and the world is still one off. */
  lemma RetriedStepLeavesResidue() returns (env: Env<int>, st: State<int>, act: PlanStep, check: PlanStep)
    ensures UndoesDone(env, act) && ReadOnly(env, check)
    ensures Protocol(env, 5, st, [act], [check]).1 == RolledBack
    ensures Protocol(env, 5, st, [act], [check]).0.world == st.world + 1
  {
    env := Env(_ => Saved, _ => true,
               (n, c: Call, w: int) =>
                 if c.action == "up" then (w + 1, n != 0) else if c.action == "down" then (w - 1, true) else (w, false),
               _ => true, _ => UpdateOutcome(true, true), _ => true);
    st := State(0, [], [], [], []);
    act := PlanStep("s1", "act", "up", "kubectl", "", Fields("kubectl", "down", ""));
    check := PlanStep("s2", "verify", "check", "kubectl", "", Missing);
    assert !Blank("kubectl") by { assert TrimLeft("kubectl") == "kubectl"; }
    assert !Blank("down") by { assert TrimLeft("down") == "down"; }
    assert UsableRollback(act);
    hide HasEvidence, Blank;
    var a := CallStep(env, st, act).0;
    assert !CallStep(env, st, act).1 && a.world == 1 && CallStep(env, a, act).1;
    assert forall w: State<int> :: CallUndo(env, w, act).1;
    RetriedOnce(env, st, act, check, a);
  }

  /** A plan of one act step that succeeds at its second call and one verify step that always fails. */
  lemma RetriedOnce<W(!new)>(env: Env<W>, st: State<W>, act: PlanStep, check: PlanStep, a: State<W>)
    requires CallStep(env, st, act) == (a, false) && CallStep(env, a, act).1
    requires UndoesDone(env, act) && ReadOnly(env, check)
    requires forall n, w: W :: !env.tool(n, StepCall(check), w).1
    requires forall w: State<W> :: CallUndo(env, w, act).1
    ensures Protocol(env, 5, st, [act], [check]).1 == RolledBack
    ensures Protocol(env, 5, st, [act], [check]).0.world == a.world
  {
    hide CallStep, CallUndo, UndoesDone, ReadOnly, HasEvidence;
    assert TryStep(env, 5, st, act) == TryStep(env, 4, a, act);
    assert [act][1..] == [] && [act][..0] == [];
    var (st1, k) := RunAll(env, 5, st, [act]);
    assert k == 1;
    AlwaysFails(env, 5, st1, check);
    var (st2, m) := RunAll(env, 5, st1, [check]);
    assert m == 0;
    assert LastUndo(env, 5, st2, act) == st2 && TryUndo(env, 5, st2, act).1;
    assert QuietUnwind(env, 5, UndoStep(env, 5, st2, act).0, []);
    assert QuietUnwind(env, 5, st2, [act]);
    assert Unwind(env, 5, st2, [act]).1 by { assert Unwind(env, 5, UndoStep(env, 5, st2, act).0, []).1; }
    assert LastTry(env, 5, st, act) == LastTry(env, 4, a, act) == a;
    VerifyFailureWorld(env, 5, st, [act], [check]);
  }
}
