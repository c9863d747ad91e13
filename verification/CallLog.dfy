// What every step and rollback of a run calls, what comes of it and what it does to the world, read off the
// logs of the run (internal/workflows/executor.go:188-254): activities are made of calls, calls of
// tool-call attempts.
module CallLog {
  import opened Prelude
  import opened Text
  import opened Stages
  import opened PlanProtocol

  // ---------------------------------------------------------------- calls and attempts

  /** The n-th attempt went well all the way: row, input, tool, output and the row's update. */
  ghost predicate WentWell<W>(env: Env<W>, n: nat, m: Made<W>) {
    && env.insert(n) == Saved && env.inputOk(n)
    && env.tool(n, m.call, m.before).1 && env.outputOk(n) && env.update(n).ok
  }

  /** The world after the n-th attempt: its tool runs only if its row and its input were stored. */
  ghost function WorldAfter<W>(env: Env<W>, n: nat, m: Made<W>): (w: W) {
    if env.insert(n) == Saved && env.inputOk(n) then env.tool(n, m.call, m.before).0 else m.before
  }

  /** The calls explain the attempts: from the world w0, each executeStep attempts its step's tool, action and
      input, each tryRollback those of the step's rollback if they are given and not blank and nothing
      otherwise, and there are no other attempts; a call succeeds exactly if its attempt went well and, for
      a step of a tool with evidence, the evidence was stored; each attempt finds the world that the one
      before it left, and w is the world at the end. */
  ghost predicate Explains<W>(env: Env<W>, w0: W, calls: seq<Event>, made: seq<Made<W>>, w: W)
    decreases |calls|
  {
    if calls == [] then made == [] && w == w0
    else
      var past := calls[..|calls| - 1];
      match calls[|calls| - 1]
      case Ran(s, ok) =>
        && made != []
        && var n := |made| - 1;
           && made[n].call == Call(s.tool, s.action, s.input)
           && (ok <==> WentWell(env, n, made[n]) && (HasEvidence(s.tool) ==> env.evidenceOk(n)))
           && w == WorldAfter(env, n, made[n])
           && Explains(env, w0, past, made[..n], made[n].before)
      case Undid(s, ok) =>
        if s.rollback.Fields? && !Blank(s.rollback.tool) && !Blank(s.rollback.action) then
          && made != []
          && var n := |made| - 1;
             && made[n].call == Call(s.rollback.tool, s.rollback.action, s.rollback.input)
             && (ok <==> WentWell(env, n, made[n]))
             && w == WorldAfter(env, n, made[n])
             && Explains(env, w0, past, made[..n], made[n].before)
        else !ok && Explains(env, w0, past, made, w)
  }

  /** The logs of a state explain it. */
  ghost predicate Explained<W>(env: Env<W>, w0: W, st: State<W>) {
    Explains(env, w0, st.calls, st.made, st.world)
  }

  lemma CallExplained<W>(env: Env<W>, w0: W, st: State<W>, s: PlanStep)
    requires Explained(env, w0, st)
    ensures Explained(env, w0, CallStep(env, st, s).0)
  {
    hide HasEvidence;
    var a := CallStep(env, st, s).0;
    assert a.calls[..|a.calls| - 1] == st.calls && a.made[..|st.made|] == st.made;
  }

  lemma UndoExplained<W>(env: Env<W>, w0: W, st: State<W>, s: PlanStep)
    requires Explained(env, w0, st)
    ensures Explained(env, w0, CallUndo(env, st, s).0)
  {
    hide Blank;
    var b := CallUndo(env, st, s).0;
    assert b.calls[..|b.calls| - 1] == st.calls;
    if UsableRollback(s) { assert b.made[..|st.made|] == st.made; }
  }

  lemma {:induction false} TriesExplained<W>(env: Env<W>, tries: nat, w0: W, st: State<W>, s: PlanStep)
    requires Explained(env, w0, st)
    ensures Explained(env, w0, TryStep(env, tries, st, s).0)
    decreases tries
  {
    if tries > 0 {
      hide CallStep, Explained;
      CallExplained(env, w0, st, s);
      TriesExplained(env, tries - 1, w0, CallStep(env, st, s).0, s);
    }
  }

  lemma {:induction false} UndosExplained<W>(env: Env<W>, tries: nat, w0: W, st: State<W>, s: PlanStep)
    requires Explained(env, w0, st)
    ensures Explained(env, w0, TryUndo(env, tries, st, s).0)
    decreases tries
  {
    if tries > 0 {
      hide CallUndo, Explained;
      UndoExplained(env, w0, st, s);
      UndosExplained(env, tries - 1, w0, CallUndo(env, st, s).0, s);
    }
  }

  lemma ActivitiesExplained<W>(env: Env<W>, tries: nat, w0: W, st: State<W>, s: PlanStep)
    requires Explained(env, w0, st)
    ensures Explained(env, w0, RunStep(env, tries, st, s).0)
    ensures Explained(env, w0, UndoStep(env, tries, st, s).0)
  {
    hide TryStep, TryUndo, Explains;
    TriesExplained(env, tries, w0, st, s);
    UndosExplained(env, tries, w0, st, s);
  }

  lemma {:induction false} RunAllExplained<W>(env: Env<W>, tries: nat, w0: W, st: State<W>, steps: seq<PlanStep>)
    requires Explained(env, w0, st)
    ensures Explained(env, w0, RunAll(env, tries, st, steps).0)
    decreases |steps|
  {
    hide RunStep, Explained;
    if steps != [] {
      ActivitiesExplained(env, tries, w0, st, steps[0]);
      RunAllExplained(env, tries, w0, RunStep(env, tries, st, steps[0]).0, steps[1..]);
    }
  }

  lemma {:induction false} UnwindExplained<W>(env: Env<W>, tries: nat, w0: W, st: State<W>, steps: seq<PlanStep>)
    requires Explained(env, w0, st)
    ensures Explained(env, w0, Unwind(env, tries, st, steps).0)
    decreases |steps|
  {
    hide UndoStep, Explained;
    if steps != [] {
      var n := |steps| - 1;
      ActivitiesExplained(env, tries, w0, st, steps[n]);
      UnwindExplained(env, tries, w0, UndoStep(env, tries, st, steps[n]).0, steps[..n]);
    }
  }

  /** A whole plan, retried or not, keeps its logs explained. */
  lemma ProtocolExplained<W>(env: Env<W>, tries: nat, w0: W, st: State<W>, acts: seq<PlanStep>, verifies: seq<PlanStep>)
    requires Explained(env, w0, st)
    ensures Explained(env, w0, Protocol(env, tries, st, acts, verifies).0)
  {
    hide RunAll, UndoStep, Unwind, Explained;
    var (st1, k) := RunAll(env, tries, st, acts);
    RunAllExplained(env, tries, w0, st, acts);
    if k < |acts| {
      ActivitiesExplained(env, tries, w0, st1, acts[k]);
    } else {
      RunAllExplained(env, tries, w0, st1, verifies);
      UnwindExplained(env, tries, w0, RunAll(env, tries, st1, verifies).0, acts);
    }
  }

  // ---------------------------------------------------------------- the attempts of a stage and of an unwinding

  /** What attempts call, in order. */
  function CallsOf<W>(made: seq<Made<W>>): (calls: seq<Call>) {
    seq(|made|, i requires 0 <= i < |made| => made[i].call)
  }

  function StepCalls(steps: seq<PlanStep>): (calls: seq<Call>) {
    seq(|steps|, i requires 0 <= i < |steps| => Call(steps[i].tool, steps[i].action, steps[i].input))
  }

  /** The rollbacks that are given and not blank, last step first. */
  function RollbackCalls(steps: seq<PlanStep>): (calls: seq<Call>) {
    if steps == [] then []
    else
      var n := |steps| - 1;
      var r := steps[n].rollback;
      (if r.Fields? && !Blank(r.tool) && !Blank(r.action) then [Call(r.tool, r.action, r.input)] else [])
      + RollbackCalls(steps[..n])
  }

  lemma OneAttempt<W>(env: Env<W>, st: State<W>, s: PlanStep)
    ensures RunStep(env, 1, st, s).0.made == st.made + [Made(Call(s.tool, s.action, s.input), st.world)]
    ensures UndoStep(env, 1, st, s).0.made ==
            if s.rollback.Fields? && !Blank(s.rollback.tool) && !Blank(s.rollback.action)
            then st.made + [Made(Call(s.rollback.tool, s.rollback.action, s.rollback.input), st.world)] else st.made
  {
    OneTry(env, st, s);
    hide RunStep, UndoStep, HasEvidence, Blank;
  }

  lemma CallsOfSnoc<W>(made: seq<Made<W>>, m: Made<W>)
    ensures CallsOf(made + [m]) == CallsOf(made) + [m.call]
  {
  }

  /** The steps that a stage gets to, the failing one included. */
  function Reached(steps: seq<PlanStep>, k: nat): (some: seq<PlanStep>) {
    if k < |steps| then steps[..k + 1] else steps
  }

  lemma FirstCall(steps: seq<PlanStep>, k: nat)
    requires steps != []
    ensures var first := [Call(steps[0].tool, steps[0].action, steps[0].input)];
            && StepCalls(Reached(steps, k + 1)) == first + StepCalls(Reached(steps[1..], k))
            && StepCalls(Reached(steps, 0)) == first
  {
    if k + 1 < |steps| { assert steps[..k + 2][1..] == steps[1..][..k + 1]; }
  }

  /** A stage of the executor attempts exactly its steps' calls, each once and in order, up to and including the
      first that fails. */
  lemma {:induction false} StageAttempts<W>(env: Env<W>, st: State<W>, steps: seq<PlanStep>)
    ensures var (st1, k) := RunAll(env, 1, st, steps);
            CallsOf(st1.made) == CallsOf(st.made) + StepCalls(Reached(steps, k))
    decreases |steps|
  {
    hide RunStep, CallsOf;
    if steps == [] {
      assert StepCalls(steps) == [];
    } else {
      hide StepCalls, Reached;
      var (st1, ok) := RunStep(env, 1, st, steps[0]);
      var c := Call(steps[0].tool, steps[0].action, steps[0].input);
      OneAttempt(env, st, steps[0]);
      CallsOfSnoc(st.made, Made(c, st.world));
      var k := RunAll(env, 1, st1, steps[1..]).1;
      FirstCall(steps, k);
      if ok {
        StageAttempts(env, st1, steps[1..]);
        Assoc(CallsOf(st.made), [c], StepCalls(Reached(steps[1..], k)));
      }
    }
  }

  /** An unwinding of the executor attempts exactly the steps' given rollbacks, last step first, with the tool,
      the action and the input that each rollback names. */
  lemma {:induction false} UnwindAttempts<W>(env: Env<W>, st: State<W>, steps: seq<PlanStep>)
    ensures CallsOf(Unwind(env, 1, st, steps).0.made) == CallsOf(st.made) + RollbackCalls(steps)
    decreases |steps|
  {
    hide UndoStep, Blank;
    if steps != [] {
      var n := |steps| - 1;
      var r, st1 := steps[n].rollback, UndoStep(env, 1, st, steps[n]).0;
      OneAttempt(env, st, steps[n]);
      UnwindAttempts(env, st1, steps[..n]);
      if r.Fields? && !Blank(r.tool) && !Blank(r.action) {
        CallsOfSnoc(st.made, Made(Call(r.tool, r.action, r.input), st.world));
        Assoc(CallsOf(st.made), [Call(r.tool, r.action, r.input)], RollbackCalls(steps[..n]));
      } else {
        assert [] + RollbackCalls(steps[..n]) == RollbackCalls(steps[..n]);
      }
    }
  }

  // ---------------------------------------------------------------- activities and calls

  /** The calls of one activity: of that step alone, at most `tries`, all failing but the last of an activity
      that succeeds; one that fails has used up its tries. */
  ghost predicate CallsOfActivity(tries: nat, e: Event, group: seq<Event>) {
    && |group| <= tries && (e.ok ==> group != []) && (!e.ok ==> |group| == tries)
    && forall i :: 0 <= i < |group| ==> group[i] == e.(ok := e.ok && i == |group| - 1)
  }

  /** The calls are those of the activities, one after the other. */
  ghost predicate Grouped(tries: nat, events: seq<Event>, calls: seq<Event>)
    decreases |events|
  {
    if events == [] then calls == []
    else
      var n := |events| - 1;
      exists k :: 0 <= k <= |calls| &&
        CallsOfActivity(tries, events[n], calls[k..]) && Grouped(tries, events[..n], calls[..k])
  }

  lemma GroupedSnoc(tries: nat, events: seq<Event>, calls: seq<Event>, e: Event, group: seq<Event>)
    requires Grouped(tries, events, calls) && CallsOfActivity(tries, e, group)
    ensures Grouped(tries, events + [e], calls + group)
  {
    var all, k := calls + group, |calls|;
    assert (events + [e])[..|events|] == events && all[k..] == group && all[..k] == calls;
  }

  lemma {:induction false} StepGroup<W>(env: Env<W>, tries: nat, st: State<W>, s: PlanStep) returns (group: seq<Event>)
    ensures var (st1, ok) := TryStep(env, tries, st, s);
            st1.calls == st.calls + group && st1.events == st.events && CallsOfActivity(tries, Ran(s, ok), group)
    decreases tries
  {
    group := [];
    if tries > 0 {
      var (st1, ok) := CallStep(env, st, s);
      assert st1.calls == st.calls + [Ran(s, ok)] && st1.events == st.events;
      hide CallStep;
      group := [Ran(s, ok)];
      if !ok {
        var rest := StepGroup(env, tries - 1, st1, s);
        group := group + rest;
      }
    }
  }

  lemma {:induction false} UndoGroup<W>(env: Env<W>, tries: nat, st: State<W>, s: PlanStep) returns (group: seq<Event>)
    ensures var (st1, ok) := TryUndo(env, tries, st, s);
            st1.calls == st.calls + group && st1.events == st.events && CallsOfActivity(tries, Undid(s, ok), group)
    decreases tries
  {
    group := [];
    if tries > 0 {
      var (st1, ok) := CallUndo(env, st, s);
      assert st1.calls == st.calls + [Undid(s, ok)] && st1.events == st.events by { hide Blank; }
      hide CallUndo;
      group := [Undid(s, ok)];
      if !ok {
        var rest := UndoGroup(env, tries - 1, st1, s);
        group := group + rest;
      }
    }
  }

  lemma ActivitiesGrouped<W>(env: Env<W>, tries: nat, st: State<W>, s: PlanStep)
    requires Grouped(tries, st.events, st.calls)
    ensures var st1 := RunStep(env, tries, st, s).0; Grouped(tries, st1.events, st1.calls)
    ensures var st1 := UndoStep(env, tries, st, s).0; Grouped(tries, st1.events, st1.calls)
  {
    hide TryStep, TryUndo, Grouped, CallsOfActivity;
    var a := StepGroup(env, tries, st, s);
    var b := UndoGroup(env, tries, st, s);
    GroupedSnoc(tries, st.events, st.calls, Ran(s, TryStep(env, tries, st, s).1), a);
    GroupedSnoc(tries, st.events, st.calls, Undid(s, TryUndo(env, tries, st, s).1), b);
  }

  lemma {:induction false} RunAllGrouped<W>(env: Env<W>, tries: nat, st: State<W>, steps: seq<PlanStep>)
    requires Grouped(tries, st.events, st.calls)
    ensures var st1 := RunAll(env, tries, st, steps).0; Grouped(tries, st1.events, st1.calls)
    decreases |steps|
  {
    hide RunStep, Grouped;
    if steps != [] {
      ActivitiesGrouped(env, tries, st, steps[0]);
      RunAllGrouped(env, tries, RunStep(env, tries, st, steps[0]).0, steps[1..]);
    }
  }

  lemma {:induction false} UnwindGrouped<W>(env: Env<W>, tries: nat, st: State<W>, steps: seq<PlanStep>)
    requires Grouped(tries, st.events, st.calls)
    ensures var st1 := Unwind(env, tries, st, steps).0; Grouped(tries, st1.events, st1.calls)
    decreases |steps|
  {
    hide UndoStep, Grouped;
    if steps != [] {
      var n := |steps| - 1;
      ActivitiesGrouped(env, tries, st, steps[n]);
      UnwindGrouped(env, tries, UndoStep(env, tries, st, steps[n]).0, steps[..n]);
    }
  }

  /** Over a whole plan, every activity is tried until it succeeds or its tries are used up, and no call is made
      outside of an activity. */
  lemma ProtocolGrouped<W>(env: Env<W>, tries: nat, st: State<W>, acts: seq<PlanStep>, verifies: seq<PlanStep>)
    requires Grouped(tries, st.events, st.calls)
    ensures var st1 := Protocol(env, tries, st, acts, verifies).0; Grouped(tries, st1.events, st1.calls)
  {
    hide RunAll, UndoStep, Unwind, Grouped;
    var (st1, k) := RunAll(env, tries, st, acts);
    RunAllGrouped(env, tries, st, acts);
    if k < |acts| {
      ActivitiesGrouped(env, tries, st1, acts[k]);
    } else {
      RunAllGrouped(env, tries, st1, verifies);
      UnwindGrouped(env, tries, RunAll(env, tries, st1, verifies).0, acts);
    }
  }
}
