// What a plan run does, as a function of the environment's answers (internal/workflows/executor.go):
// run the act steps, then the verify steps, and compensate on failure.
//
// The tools, the object store and the tool-call table answer through an oracle `Env`, indexed by
// the number of the attempt, so that every sequence of outcomes is some oracle. The state the
// tools act on is an arbitrary type W. A step or a rollback is an activity of up to `tries` calls:
// one for the executor, five under the retry policy of the Temporal workflows.
module PlanProtocol {
  import opened Prelude
  import opened Text
  import opened Stages

  datatype Call = Call(tool: string, action: string, input: Input)

  /** UpdateToolCall: whether the row changed and whether the caller saw no error. An update that matches no
      row changes nothing and reports no error. */
  datatype UpdateOutcome = UpdateOutcome(applied: bool, ok: bool)

  /** The environment's answers at the n-th tool-call attempt. */
  datatype Env<!W> = Env(insert: nat -> Stored, inputOk: nat -> bool, tool: (nat, Call, W) -> (W, bool),
                         outputOk: nat -> bool, update: nat -> UpdateOutcome, evidenceOk: nat -> bool)

  datatype RowStatus = Running | Done | Broken

  /** A tool_calls row with the attempt it belongs to and the number of updates issued for it. */
  datatype Row = Row(attempt: nat, tool: string, status: RowStatus, updates: nat)

  /** An executeStep or a tryRollback and its outcome. */
  datatype Event = Ran(step: PlanStep, ok: bool) | Undid(step: PlanStep, ok: bool)

  /** An attempt: what was to be called, and the world it found. */
  datatype Made<W> = Made(call: Call, before: W)

  /** `made` are the attempts so far, `calls` the single calls of executeStep and tryRollback, `events`
      the activities they add up to. */
  datatype State<W> = State(world: W, made: seq<Made<W>>, rows: seq<Row>, calls: seq<Event>, events: seq<Event>)

  datatype Status = Succeeded | Failed | RolledBack

  datatype Control = Marked(executionId: string) | Completed(executionId: string, status: Status)

  // ---------------------------------------------------------------- one call

  function StepCall(s: PlanStep): (c: Call) {
    Call(s.tool, s.action, s.input)
  }

  predicate UsableRollback(s: PlanStep) {
    s.rollback.Fields? && !Blank(s.rollback.tool) && !Blank(s.rollback.action)
  }

  function RollbackCall(s: PlanStep): (c: Call)
    requires UsableRollback(s)
  {
    Call(s.rollback.tool, s.rollback.action, s.rollback.input)
  }

  predicate HasEvidence(tool: string) {
    ToLower(TrimSpace(tool)) in {"prometheus", "thanos", "tempo", "argocd", "kubectl", "aws", "grafana",
                                 "github", "gitlab", "git"}
  }

  lemma EvidenceIff(tool: string)
    ensures HasEvidence(tool) <==>
            || Says(tool, "prometheus") || Says(tool, "thanos") || Says(tool, "tempo") || Says(tool, "argocd")
            || Says(tool, "kubectl") || Says(tool, "aws") || Says(tool, "grafana") || Says(tool, "github")
            || Says(tool, "gitlab") || Says(tool, "git")
  {
    hide ToLower, TrimSpace, Says;
    LowerTrimIff(tool, "prometheus");
    LowerTrimIff(tool, "thanos");
    LowerTrimIff(tool, "tempo");
    LowerTrimIff(tool, "argocd");
    LowerTrimIff(tool, "kubectl");
    LowerTrimIff(tool, "aws");
    LowerTrimIff(tool, "grafana");
    LowerTrimIff(tool, "github");
    LowerTrimIff(tool, "gitlab");
    LowerTrimIff(tool, "git");
  }

  /** The row left by attempt n: its single update either took effect or did not. */
  function FinalRow(n: nat, tool: string, status: RowStatus, u: UpdateOutcome): (r: Row) {
    Row(n, tool, if u.applied then status else Running, 1)
  }

  /** Did attempt n get as far as the tool itself? */
  predicate ToolReached<W>(env: Env<W>, n: nat) {
    env.insert(n).Ok() && env.inputOk(n)
  }

  /** Insert a row, store the input, run the tool, store the output, close the row. */
  function Attempt<W>(env: Env<W>, st: State<W>, c: Call): (r: (State<W>, bool)) {
    var n, u := |st.made|, env.update(|st.made|);
    var st1 := st.(made := st.made + [Made(c, st.world)]);
    if !env.insert(n).Ok() then
      (st1.(rows := if env.insert(n).Applied() then st.rows + [Row(n, c.tool, Running, 0)] else st.rows), false)
    else if !env.inputOk(n) then (st1.(rows := st.rows + [FinalRow(n, c.tool, Broken, u)]), false)
    else
      var (w, ok) := env.tool(n, c, st.world);
      var st2 := st1.(world := w);
      if !ok || !env.outputOk(n) then (st2.(rows := st.rows + [FinalRow(n, c.tool, Broken, u)]), false)
      else (st2.(rows := st.rows + [FinalRow(n, c.tool, Done, u)]), u.ok)
  }

  /** executeStep. */
  function CallStep<W>(env: Env<W>, st: State<W>, s: PlanStep): (r: (State<W>, bool)) {
    var (st1, called) := Attempt(env, st, StepCall(s));
    var ok := called && (HasEvidence(s.tool) ==> env.evidenceOk(|st.made|));
    (st1.(calls := st.calls + [Ran(s, ok)]), ok)
  }

  /** tryRollback. */
  function CallUndo<W>(env: Env<W>, st: State<W>, s: PlanStep): (r: (State<W>, bool)) {
    var (st1, ok) := if UsableRollback(s) then Attempt(env, st, RollbackCall(s)) else (st, false);
    (st1.(calls := st.calls + [Undid(s, ok)]), ok)
  }

  // ---------------------------------------------------------------- activities

  /** Call executeStep until it succeeds, at most `tries` times. */
  function TryStep<W>(env: Env<W>, tries: nat, st: State<W>, s: PlanStep): (r: (State<W>, bool))
    decreases tries
  {
    if tries == 0 then (st, false)
    else
      var (st1, ok) := CallStep(env, st, s);
      if ok then (st1, true) else TryStep(env, tries - 1, st1, s)
  }

  function TryUndo<W>(env: Env<W>, tries: nat, st: State<W>, s: PlanStep): (r: (State<W>, bool))
    decreases tries
  {
    if tries == 0 then (st, false)
    else
      var (st1, ok) := CallUndo(env, st, s);
      if ok then (st1, true) else TryUndo(env, tries - 1, st1, s)
  }

  function RunStep<W>(env: Env<W>, tries: nat, st: State<W>, s: PlanStep): (r: (State<W>, bool)) {
    var (st1, ok) := TryStep(env, tries, st, s);
    (st1.(events := st.events + [Ran(s, ok)]), ok)
  }

  function UndoStep<W>(env: Env<W>, tries: nat, st: State<W>, s: PlanStep): (r: (State<W>, bool)) {
    var (st1, ok) := TryUndo(env, tries, st, s);
    (st1.(events := st.events + [Undid(s, ok)]), ok)
  }

  /** With a single try an activity is its one call. */
  lemma OneTry<W>(env: Env<W>, st: State<W>, s: PlanStep)
    ensures var (st1, ok) := CallStep(env, st, s);
            RunStep(env, 1, st, s) == (st1.(events := st.events + [Ran(s, ok)]), ok)
    ensures var (st1, ok) := CallUndo(env, st, s);
            UndoStep(env, 1, st, s) == (st1.(events := st.events + [Undid(s, ok)]), ok)
  {
    hide CallStep, CallUndo;
    assert forall a: State<W> :: TryStep(env, 0, a, s) == (a, false) && TryUndo(env, 0, a, s) == (a, false);
  }

  // ---------------------------------------------------------------- stages and plans

  /** Run steps until one fails; also the number that succeeded. */
  function RunAll<W>(env: Env<W>, tries: nat, st: State<W>, steps: seq<PlanStep>): (r: (State<W>, nat))
    ensures r.1 <= |steps|
    decreases |steps|
  {
    if steps == [] then (st, 0)
    else
      var (st1, ok) := RunStep(env, tries, st, steps[0]);
      if !ok then (st1, 0)
      else var (st2, k) := RunAll(env, tries, st1, steps[1..]); (st2, k + 1)
  }

  /** Undo steps last first, never stopping; did every undo succeed? */
  function Unwind<W>(env: Env<W>, tries: nat, st: State<W>, steps: seq<PlanStep>): (r: (State<W>, bool))
    decreases |steps|
  {
    if steps == [] then (st, true)
    else
      var n := |steps| - 1;
      var (st1, ok1) := UndoStep(env, tries, st, steps[n]);
      var (st2, ok2) := Unwind(env, tries, st1, steps[..n]);
      (st2, ok1 && ok2)
  }

  /** The whole protocol from the first act step to the decision on the final status. */
  function Protocol<W>(env: Env<W>, tries: nat, st: State<W>, acts: seq<PlanStep>, verifies: seq<PlanStep>)
    : (r: (State<W>, Status))
  {
    var (st1, k) := RunAll(env, tries, st, acts);
    if k < |acts| then
      var (st2, ok) := UndoStep(env, tries, st1, acts[k]);
      (st2, if ok then RolledBack else Failed)
    else
      var (st2, m) := RunAll(env, tries, st1, verifies);
      if m < |verifies| then
        var (st3, ok) := Unwind(env, tries, st2, acts);
        (st3, if ok then RolledBack else Failed)
      else (st2, Succeeded)
  }

  // ---------------------------------------------------------------- trace shapes

  function Rans(steps: seq<PlanStep>): (es: seq<Event>) {
    seq(|steps|, i requires 0 <= i < |steps| => Ran(steps[i], true))
  }

  /** Rollback attempts of `steps` in exact reverse order, outs[i] being step i's outcome. */
  function ReverseUndos(steps: seq<PlanStep>, outs: seq<bool>): (es: seq<Event>)
    requires |outs| == |steps|
  {
    seq(|steps|, i requires 0 <= i < |steps| => Undid(steps[|steps| - 1 - i], outs[|steps| - 1 - i]))
  }

  predicate AllTrue(outs: seq<bool>) {
    forall i :: 0 <= i < |outs| ==> outs[i]
  }

  lemma EventsOfOne<W>(env: Env<W>, tries: nat, st: State<W>, s: PlanStep)
    ensures var (st1, ok) := RunStep(env, tries, st, s); st1.events == st.events + [Ran(s, ok)]
    ensures var (st1, ok) := UndoStep(env, tries, st, s); st1.events == st.events + [Undid(s, ok)]
  {
    hide TryStep, TryUndo;
  }

  lemma RansOfNone()
    ensures Rans([]) == []
  {
  }

  lemma RansCons(steps: seq<PlanStep>, k: nat)
    requires k < |steps|
    ensures Rans(steps[..k + 1]) == [Ran(steps[0], true)] + Rans(steps[1..][..k])
    ensures Rans(steps) == [Ran(steps[0], true)] + Rans(steps[1..])
  {
  }

  lemma {:induction false} RunAllTrace<W>(env: Env<W>, tries: nat, st: State<W>, steps: seq<PlanStep>)
    ensures var (st1, k) := RunAll(env, tries, st, steps);
            && (k < |steps| ==> st1.events == st.events + Rans(steps[..k]) + [Ran(steps[k], false)])
            && (k == |steps| ==> st1.events == st.events + Rans(steps))
    decreases |steps|
  {
    hide RunStep, Rans;
    if steps == [] {
      RansOfNone();
    } else {
      var (st1, ok) := RunStep(env, tries, st, steps[0]);
      var k := RunAll(env, tries, st1, steps[1..]).1;
      EventsOfOne(env, tries, st, steps[0]);
      RansCons(steps, k);
      if ok {
        RunAllTrace(env, tries, st1, steps[1..]);
        Assoc(st.events, [Ran(steps[0], true)], Rans(steps[1..]));
        Assoc(st.events, [Ran(steps[0], true)], Rans(steps[1..][..k]));
      } else {
        RansOfNone();
        assert steps[..0] == [] && st.events + [] == st.events;
      }
    }
  }

  lemma ReverseUndosSnoc(steps: seq<PlanStep>, outs: seq<bool>)
    requires |outs| == |steps| > 0
    ensures var n := |steps| - 1;
            ReverseUndos(steps, outs) == [Undid(steps[n], outs[n])] + ReverseUndos(steps[..n], outs[..n])
  {
  }

  lemma {:induction false} UnwindTrace<W>(env: Env<W>, tries: nat, st: State<W>, steps: seq<PlanStep>)
    returns (outs: seq<bool>)
    ensures |outs| == |steps|
    ensures var (st1, ok) := Unwind(env, tries, st, steps);
            && st1.events == st.events + ReverseUndos(steps, outs)
            && (ok <==> AllTrue(outs))
    decreases |steps|
  {
    if steps == [] {
      outs := [];
    } else {
      hide UndoStep;
      var n := |steps| - 1;
      var (st1, ok1) := UndoStep(env, tries, st, steps[n]);
      EventsOfOne(env, tries, st, steps[n]);
      var rest := UnwindTrace(env, tries, st1, steps[..n]);
      outs := rest + [ok1];
      ReverseUndosSnoc(steps, outs);
      assert outs[..n] == rest;
      assert forall i :: 0 <= i < n ==> outs[i] == rest[i];
      hide ReverseUndos;
      Assoc(st.events, [Undid(steps[n], ok1)], ReverseUndos(steps[..n], rest));
    }
  }

  /** All act steps, then all verify steps, all of them fine. */
  ghost predicate CleanRun(trace: seq<Event>, acts: seq<PlanStep>, verifies: seq<PlanStep>) {
    trace == Rans(acts) + Rans(verifies)
  }

  /** A prefix of the act steps, the failing one, and one rollback attempt of it. */
  ghost predicate ActFailure(trace: seq<Event>, acts: seq<PlanStep>, k: nat, undone: bool) {
    k < |acts| && trace == Rans(acts[..k]) + [Ran(acts[k], false), Undid(acts[k], undone)]
  }

  /** All act steps, a prefix of the verify steps, the failing one, and a rollback attempt of
      every act step in exact reverse order. */
  ghost predicate VerifyFailure(trace: seq<Event>, acts: seq<PlanStep>, verifies: seq<PlanStep>, m: nat,
                                outs: seq<bool>)
  {
    && m < |verifies| && |outs| == |acts|
    && trace == Rans(acts) + Rans(verifies[..m]) + [Ran(verifies[m], false)] + ReverseUndos(acts, outs)
  }

  /** The three shapes, and which status each gets: `rolled_back` exactly when every rollback that
      the shape attempts succeeded. */
  ghost predicate HasShape(trace: seq<Event>, acts: seq<PlanStep>, verifies: seq<PlanStep>, status: Status) {
    match status
    case Succeeded => CleanRun(trace, acts, verifies)
    case RolledBack =>
      || (exists k :: ActFailure(trace, acts, k, true))
      || (exists m, outs :: VerifyFailure(trace, acts, verifies, m, outs) && AllTrue(outs))
    case Failed =>
      || (exists k :: ActFailure(trace, acts, k, false))
      || (exists m, outs :: VerifyFailure(trace, acts, verifies, m, outs) && !AllTrue(outs))
  }

  lemma ActFailureTrace<W>(env: Env<W>, tries: nat, st: State<W>, acts: seq<PlanStep>, verifies: seq<PlanStep>)
    returns (trace: seq<Event>)
    requires RunAll(env, tries, st, acts).1 < |acts|
    ensures var (st1, status) := Protocol(env, tries, st, acts, verifies);
            && st1.events == st.events + trace
            && status != Succeeded
            && ActFailure(trace, acts, RunAll(env, tries, st, acts).1, status == RolledBack)
  {
    hide RunAll, UndoStep;
    var (st1, k) := RunAll(env, tries, st, acts);
    RunAllTrace(env, tries, st, acts);
    EventsOfOne(env, tries, st1, acts[k]);
    trace := Rans(acts[..k]) + [Ran(acts[k], false), Undid(acts[k], UndoStep(env, tries, st1, acts[k]).1)];
  }

  lemma CleanTrace<W>(env: Env<W>, tries: nat, st: State<W>, acts: seq<PlanStep>, verifies: seq<PlanStep>)
    requires RunAll(env, tries, st, acts).1 == |acts|
    requires RunAll(env, tries, RunAll(env, tries, st, acts).0, verifies).1 == |verifies|
    ensures Protocol(env, tries, st, acts, verifies).1 == Succeeded
    ensures Protocol(env, tries, st, acts, verifies).0.events == st.events + (Rans(acts) + Rans(verifies))
  {
    hide RunAll;
    RunAllTrace(env, tries, st, acts);
    RunAllTrace(env, tries, RunAll(env, tries, st, acts).0, verifies);
    assert st.events + Rans(acts) + Rans(verifies) == st.events + (Rans(acts) + Rans(verifies));
  }

  lemma VerifyFailureTrace<W>(env: Env<W>, tries: nat, st: State<W>, acts: seq<PlanStep>, verifies: seq<PlanStep>)
    returns (trace: seq<Event>, outs: seq<bool>)
    requires RunAll(env, tries, st, acts).1 == |acts|
    requires RunAll(env, tries, RunAll(env, tries, st, acts).0, verifies).1 < |verifies|
    ensures Protocol(env, tries, st, acts, verifies).0.events == st.events + trace
    ensures VerifyFailure(trace, acts, verifies, RunAll(env, tries, RunAll(env, tries, st, acts).0, verifies).1, outs)
    ensures Protocol(env, tries, st, acts, verifies).1 == if AllTrue(outs) then RolledBack else Failed
  {
    hide RunAll, Unwind;
    var st1 := RunAll(env, tries, st, acts).0;
    RunAllTrace(env, tries, st, acts);
    var (st2, m) := RunAll(env, tries, st1, verifies);
    RunAllTrace(env, tries, st1, verifies);
    outs := UnwindTrace(env, tries, st2, acts);
    var a, b, c, d := Rans(acts), Rans(verifies[..m]), [Ran(verifies[m], false)], ReverseUndos(acts, outs);
    trace := a + b + c + d;
    assert Protocol(env, tries, st, acts, verifies).0.events == st.events + a + b + c + d;
    SameConcat(st.events, a, b, c, d);
  }

  lemma SameConcat<T>(a: seq<T>, b: seq<T>, c: seq<T>, d: seq<T>, e: seq<T>)
    ensures a + b + c + d + e == a + (b + c + d + e)
  {
  }

  /** Every run has one of the three shapes, whatever the number of tries. */
  lemma TraceShape<W>(env: Env<W>, tries: nat, st: State<W>, acts: seq<PlanStep>, verifies: seq<PlanStep>)
    returns (trace: seq<Event>)
    ensures var (st1, status) := Protocol(env, tries, st, acts, verifies);
            && st1.events == st.events + trace
            && HasShape(trace, acts, verifies, status)
  {
    hide RunAll, Protocol;
    if RunAll(env, tries, st, acts).1 < |acts| {
      trace := ActFailureTrace(env, tries, st, acts, verifies);
    } else if RunAll(env, tries, RunAll(env, tries, st, acts).0, verifies).1 < |verifies| {
      var outs;
      trace, outs := VerifyFailureTrace(env, tries, st, acts, verifies);
    } else {
      CleanTrace(env, tries, st, acts, verifies);
      trace := Rans(acts) + Rans(verifies);
    }
  }
}
