// The tool_calls rows of a run (internal/workflows/executor.go:188-254): one per insert that took
// effect, each closed by its own update unless the insert reported an error.
module ToolCallLedger {
  import opened Text
  import opened Stages
  import opened PlanProtocol

  /** Did attempt n get its input stored, its tool run without error and its output stored? */
  predicate Fine<W>(env: Env<W>, n: nat, m: Made<W>) {
    env.inputOk(n) && env.tool(n, m.call, m.before).1 && env.outputOk(n)
  }

  /** The row of attempt n: updated once, to the attempt's outcome if that update took effect; or left as it
      was inserted if the insert reported an error. */
  function RowOf<W>(env: Env<W>, n: nat, m: Made<W>): (r: Row) {
    if !env.insert(n).Ok() then Row(n, m.call.tool, Running, 0)
    else Row(n, m.call.tool, if !env.update(n).applied then Running else if Fine(env, n, m) then Done else Broken, 1)
  }

  /** The rows that a series of attempts must leave: one for each insert that took effect, in order. */
  function RowsOf<W>(env: Env<W>, made: seq<Made<W>>): (rows: seq<Row>) {
    if made == [] then []
    else
      var n := |made| - 1;
      RowsOf(env, made[..n]) + if env.insert(n).Applied() then [RowOf(env, n, made[n])] else []
  }

  ghost predicate Exact<W>(env: Env<W>, st: State<W>) {
    st.rows == RowsOf(env, st.made)
  }

  /** From `a` to `b` attempts and rows are only added, and the table stays exact. */
  ghost predicate Extends<W>(env: Env<W>, a: State<W>, b: State<W>) {
    a.made <= b.made && a.rows <= b.rows && (Exact(env, a) ==> Exact(env, b))
  }

  lemma ExtendsTrans<W>(env: Env<W>, a: State<W>, b: State<W>, c: State<W>)
    requires Extends(env, a, b) && Extends(env, b, c)
    ensures Extends(env, a, c)
  {
  }

  lemma AttemptExtends<W>(env: Env<W>, st: State<W>, c: Call)
    ensures Extends(env, st, Attempt(env, st, c).0)
  {
    var st1 := Attempt(env, st, c).0;
    assert st1.made[..|st.made|] == st.made;
    assert RowsOf(env, st.made) + [] == RowsOf(env, st.made);
  }

  lemma CallsExtend<W>(env: Env<W>, st: State<W>, s: PlanStep)
    ensures Extends(env, st, CallStep(env, st, s).0)
    ensures Extends(env, st, CallUndo(env, st, s).0)
  {
    hide Attempt, Blank, HasEvidence, RowsOf;
    AttemptExtends(env, st, StepCall(s));
    if UsableRollback(s) { AttemptExtends(env, st, RollbackCall(s)); }
  }

  lemma {:induction false} TriesExtend<W>(env: Env<W>, tries: nat, st: State<W>, s: PlanStep)
    ensures Extends(env, st, TryStep(env, tries, st, s).0)
    ensures Extends(env, st, TryUndo(env, tries, st, s).0)
    decreases tries
  {
    if tries > 0 {
      hide CallStep, CallUndo, Exact;
      CallsExtend(env, st, s);
      var a, b := CallStep(env, st, s).0, CallUndo(env, st, s).0;
      TriesExtend(env, tries - 1, a, s);
      TriesExtend(env, tries - 1, b, s);
      ExtendsTrans(env, st, a, TryStep(env, tries - 1, a, s).0);
      ExtendsTrans(env, st, b, TryUndo(env, tries - 1, b, s).0);
    }
  }

  lemma ActivitiesExtend<W>(env: Env<W>, tries: nat, st: State<W>, s: PlanStep)
    ensures Extends(env, st, RunStep(env, tries, st, s).0)
    ensures Extends(env, st, UndoStep(env, tries, st, s).0)
  {
    hide TryStep, TryUndo;
    TriesExtend(env, tries, st, s);
  }

  lemma {:induction false} RunAllExtends<W>(env: Env<W>, tries: nat, st: State<W>, steps: seq<PlanStep>)
    ensures Extends(env, st, RunAll(env, tries, st, steps).0)
    decreases |steps|
  {
    if steps != [] {
      hide RunStep, Exact;
      var (st1, ok) := RunStep(env, tries, st, steps[0]);
      ActivitiesExtend(env, tries, st, steps[0]);
      if ok {
        RunAllExtends(env, tries, st1, steps[1..]);
        ExtendsTrans(env, st, st1, RunAll(env, tries, st1, steps[1..]).0);
      }
    }
  }

  lemma {:induction false} UnwindExtends<W>(env: Env<W>, tries: nat, st: State<W>, steps: seq<PlanStep>)
    ensures Extends(env, st, Unwind(env, tries, st, steps).0)
    decreases |steps|
  {
    if steps != [] {
      hide UndoStep, Exact;
      var n := |steps| - 1;
      var st1 := UndoStep(env, tries, st, steps[n]).0;
      ActivitiesExtend(env, tries, st, steps[n]);
      UnwindExtends(env, tries, st1, steps[..n]);
      ExtendsTrans(env, st, st1, Unwind(env, tries, st1, steps[..n]).0);
    }
  }

  /** A whole plan keeps the table exact: every attempt of every step and rollback whose insert took effect
      has its one row, which tells its own outcome. */
  lemma ProtocolKeepsLedger<W>(env: Env<W>, tries: nat, st: State<W>, acts: seq<PlanStep>, verifies: seq<PlanStep>)
    ensures Extends(env, st, Protocol(env, tries, st, acts, verifies).0)
  {
    hide RunAll, UndoStep, Unwind, Exact;
    var (st1, k) := RunAll(env, tries, st, acts);
    RunAllExtends(env, tries, st, acts);
    if k < |acts| {
      ActivitiesExtend(env, tries, st1, acts[k]);
      ExtendsTrans(env, st, st1, UndoStep(env, tries, st1, acts[k]).0);
    } else {
      var (st2, m) := RunAll(env, tries, st1, verifies);
      RunAllExtends(env, tries, st1, verifies);
      ExtendsTrans(env, st, st1, st2);
      if m < |verifies| {
        UnwindExtends(env, tries, st2, acts);
        ExtendsTrans(env, st, st2, Unwind(env, tries, st2, acts).0);
      }
    }
  }

  /** The row's attempt was made and its insert took effect; the row was updated exactly once, or not at all
      exactly if that insert reported an error; it is still running exactly if it was not updated or its own
      update did not take effect, and otherwise records whether its own attempt was fine. */
  ghost predicate TellsItsAttempt<W>(env: Env<W>, made: seq<Made<W>>, r: Row) {
    var n := r.attempt;
    && n < |made| && env.insert(n).Applied() && r.tool == made[n].call.tool
    && r.updates == (if env.insert(n).Ok() then 1 else 0)
    && (r.status == Running <==> !env.insert(n).Ok() || !env.update(n).applied)
    && (r.status == Done <==>
          && env.insert(n).Ok() && env.update(n).applied
          && env.inputOk(n) && env.tool(n, made[n].call, made[n].before).1 && env.outputOk(n))
  }

  /** The rows belong to distinct attempts, in order. */
  ghost predicate InAttemptOrder(rows: seq<Row>) {
    forall i, j :: 0 <= i < j < |rows| ==> rows[i].attempt < rows[j].attempt
  }

  /** No insert that took effect lacks its row. */
  ghost predicate NoneLacks<W>(env: Env<W>, made: seq<Made<W>>, rows: seq<Row>) {
    forall n: nat :: n < |made| && env.insert(n).Applied() ==> exists r :: r in rows && r.attempt == n
  }

  /** The rows belong to distinct attempts, in order; each tells its own attempt's outcome; and no insert
      that took effect lacks its row. */
  ghost predicate Tabulates<W>(env: Env<W>, made: seq<Made<W>>, rows: seq<Row>) {
    && InAttemptOrder(rows)
    && (forall r :: r in rows ==> TellsItsAttempt(env, made, r))
    && NoneLacks(env, made, rows)
  }

  lemma TellsOnMore<W>(env: Env<W>, made: seq<Made<W>>, m: Made<W>, r: Row)
    ensures TellsItsAttempt(env, made, r) ==> TellsItsAttempt(env, made + [m], r) && r.attempt < |made|
    ensures env.insert(|made|).Applied() ==> TellsItsAttempt(env, made + [m], RowOf(env, |made|, m))
    ensures RowOf(env, |made|, m).attempt == |made|
  {
  }

  lemma OrderSnoc(rows: seq<Row>, r: Row)
    requires InAttemptOrder(rows) && forall q :: q in rows ==> q.attempt < r.attempt
    ensures InAttemptOrder(rows + [r])
  {
  }

  lemma NoneLacksSnoc<W>(env: Env<W>, made: seq<Made<W>>, m: Made<W>, rows: seq<Row>, r: Row)
    requires NoneLacks(env, made, rows) && r.attempt == |made|
    ensures env.insert(|made|).Applied() ==> NoneLacks(env, made + [m], rows + [r])
    ensures !env.insert(|made|).Applied() ==> NoneLacks(env, made + [m], rows)
  {
    var n, rows1 := |made|, rows + [r];
    assert r in rows1 && forall q :: q in rows ==> q in rows1;
  }

  lemma TabulatesSnoc<W>(env: Env<W>, made: seq<Made<W>>, m: Made<W>, rows: seq<Row>)
    requires Tabulates(env, made, rows)
    ensures env.insert(|made|).Applied() ==> Tabulates(env, made + [m], rows + [RowOf(env, |made|, m)])
    ensures !env.insert(|made|).Applied() ==> Tabulates(env, made + [m], rows)
  {
    hide TellsItsAttempt, RowOf, InAttemptOrder, NoneLacks;
    var r := RowOf(env, |made|, m);
    forall q | q in rows ensures TellsItsAttempt(env, made + [m], q) && q.attempt < |made| {
      TellsOnMore(env, made, m, q);
    }
    TellsOnMore(env, made, m, r);
    OrderSnoc(rows, r);
    NoneLacksSnoc(env, made, m, rows, r);
  }

  /** What an exact table says. */
  lemma {:induction false} ExactTable<W>(env: Env<W>, made: seq<Made<W>>)
    ensures Tabulates(env, made, RowsOf(env, made))
  {
    if made != [] {
      var n := |made| - 1;
      ExactTable(env, made[..n]);
      TabulatesSnoc(env, made[..n], made[n], RowsOf(env, made[..n]));
      assert made[..n] + [made[n]] == made && RowsOf(env, made[..n]) + [] == RowsOf(env, made[..n]);
    }
  }
}
