// Approval rows and the gate on plan execution (internal/db/approvals.go, internal/db/queries.go,
// internal/web/http.go).
module ApprovalLedger {
  import opened Prelude
  import opened Text

  datatype Row = Row(id: string, plan: string, status: string)

  /** An :execute request that has passed the status read and not yet created its execution. `readAt` is
      the length of the run when it read. */
  datatype Ticket = Ticket(plan: string, write: bool, readAt: nat)

  /** An execution, whether it needed an approval, and when its request read the status and created it. */
  datatype Execution = Execution(plan: string, write: bool, readAt: nat, at: nat)

  datatype Ledger = Ledger(rows: seq<Row>, inFlight: map<nat, Ticket>, executions: seq<Execution>, clock: nat)

  /** What the checks of an :execute request before the status read answer: that the plan is found and the
      session may execute it, that its context is valid, what the policy says, that constraints are met. */
  datatype Guards = Guards(sessionOk: bool, contextOk: bool, decision: string, constraintsOk: bool)

  /** An :execute request is two steps with anything in between: Check reads the status, Finish reads hash
      and active executions and creates. `picked` is the row that an unordered read happens to return. */
  datatype Op =
    | Create(id: string, plan: string)
    | Decide(plan: string, status: string)
    | Check(caller: nat, plan: string, write: bool, token: string, picked: nat, guards: Guards)
    | Finish(caller: nat, hashOk: bool, active: bool, create: Stored)

  // ---------------------------------------------------------------- specification

  function Inserted(rows: seq<Row>, id: string, plan: string): (r: seq<Row>) {
    if exists r :: r in rows && r.id == id then rows else rows + [Row(id, plan, "pending")]
  }

  function Updated(rows: seq<Row>, plan: string, status: string): (r: seq<Row>) {
    seq(|rows|, i requires 0 <= i < |rows| => if rows[i].plan == plan then rows[i].(status := status) else rows[i])
  }

  predicate HasRow(rows: seq<Row>, plan: string) {
    exists r :: r in rows && r.plan == plan
  }

  /** Could a status read for this plan and token return row i? Every expires_at is null, so a by-plan
      read may return any row of the plan. */
  predicate Readable(rows: seq<Row>, plan: string, token: string, i: nat) {
    && i < |rows| && rows[i].plan == plan
    && (TrimSpace(token) != "" ==> rows[i].id == TrimSpace(token))
  }

  predicate PolicyPasses(decision: string, write: bool) {
    decision == "allow" || (decision == "require_approval" && write)
  }

  /** Every check before the status read. */
  predicate GuardsPass(plan: string, write: bool, g: Guards) {
    !Blank(plan) && g.sessionOk && g.contextOk && PolicyPasses(g.decision, write) && g.constraintsOk
  }

  predicate Passes(rows: seq<Row>, op: Op)
    requires op.Check?
  {
    && GuardsPass(op.plan, op.write, op.guards)
    && (op.write ==> Readable(rows, op.plan, op.token, op.picked) && rows[op.picked].status == "approved")
  }

  function Step(l: Ledger, op: Op): (l1: Ledger) {
    var next := l.(clock := l.clock + 1);
    match op
    case Create(id, plan) => next.(rows := Inserted(l.rows, id, plan))
    case Decide(plan, status) => next.(rows := Updated(l.rows, plan, status))
    case Check(caller, plan, write, _, _, _) =>
      if caller !in l.inFlight && Passes(l.rows, op)
      then next.(inFlight := l.inFlight[caller := Ticket(plan, write, l.clock)]) else next
    case Finish(caller, hashOk, active, create) =>
      if caller !in l.inFlight then next
      else
        var t, gone := l.inFlight[caller], next.(inFlight := l.inFlight - {caller});
        if hashOk && !active && create.Applied()
        then gone.(executions := l.executions + [Execution(t.plan, t.write, t.readAt, l.clock)]) else gone
  }

  function After(ops: seq<Op>): (l: Ledger) {
    if ops == [] then Ledger([], map[], [], 0) else Step(After(ops[..|ops| - 1]), ops[|ops| - 1])
  }

  // ---------------------------------------------------------------- the latest decision

  predicate Approved(rows: seq<Row>, plan: string) {
    exists r :: r in rows && r.plan == plan && r.status == "approved"
  }

  /** Op i is the latest by-plan write, it was an approval, and the plan had a row then. */
  ghost predicate ApprovedAt(ops: seq<Op>, plan: string, i: nat) {
    && i < |ops| && ops[i] == Decide(plan, "approved") && HasRow(After(ops[..i]).rows, plan)
    && forall j :: i < j < |ops| && ops[j].Decide? ==> ops[j].plan != plan
  }

  ghost predicate LatestIsApproval(ops: seq<Op>, plan: string) {
    exists i :: ApprovedAt(ops, plan, i)
  }

  lemma LatestSnoc(ops: seq<Op>, plan: string)
    requires ops != []
    ensures var n := |ops| - 1;
            LatestIsApproval(ops, plan) <==>
            if ops[n].Decide? && ops[n].plan == plan
            then ops[n].status == "approved" && HasRow(After(ops[..n]).rows, plan)
            else LatestIsApproval(ops[..n], plan)
  {
    var n := |ops| - 1;
    forall i | 0 <= i < n ensures ops[..n][..i] == ops[..i] && ops[..n][i] == ops[i] {
    }
    if ops[n].Decide? && ops[n].plan == plan {
      if ops[n].status == "approved" && HasRow(After(ops[..n]).rows, plan) { assert ApprovedAt(ops, plan, n); }
    } else {
      if i: nat :| ApprovedAt(ops, plan, i) { assert ApprovedAt(ops[..n], plan, i); }
      if i: nat :| ApprovedAt(ops[..n], plan, i) {
        assert forall j :: i < j < n ==> ops[j] == ops[..n][j];
        assert ApprovedAt(ops, plan, i);
      }
    }
  }

  lemma UpdatedRows(rows: seq<Row>, plan: string, status: string, other: string)
    ensures HasRow(Updated(rows, plan, status), other) <==> HasRow(rows, other)
    ensures Approved(Updated(rows, plan, status), other) <==>
            if other == plan then status == "approved" && HasRow(rows, plan) else Approved(rows, other)
  {
    var u := Updated(rows, plan, status);
    assert |u| == |rows|;
    assert forall i :: 0 <= i < |rows| ==>
      u[i].plan == rows[i].plan && u[i].status == if rows[i].plan == plan then status else rows[i].status;
    if HasRow(rows, other) {
      var i :| 0 <= i < |rows| && rows[i].plan == other;
      assert u[i] in u;
    }
    if HasRow(u, other) {
      var i :| 0 <= i < |u| && u[i].plan == other;
      assert rows[i] in rows;
    }
    if other != plan && Approved(rows, other) {
      var i :| 0 <= i < |rows| && rows[i].plan == other && rows[i].status == "approved";
      assert u[i] in u;
    }
    if other != plan && Approved(u, other) {
      var i :| 0 <= i < |u| && u[i].plan == other && u[i].status == "approved";
      assert rows[i] in rows;
    }
  }

  /** In every run, a plan has an approved row exactly if its latest by-plan write was `approved` and it
      had a row at that moment. */
  lemma {:induction false} ApprovedIffLatest(ops: seq<Op>, plan: string)
    ensures Approved(After(ops).rows, plan) <==> LatestIsApproval(ops, plan)
    decreases |ops|
  {
    if ops != [] {
      var n := |ops| - 1;
      ApprovedIffLatest(ops[..n], plan);
      LatestSnoc(ops, plan);
      if ops[n].Decide? { UpdatedRows(After(ops[..n]).rows, ops[n].plan, ops[n].status, plan); }
    }
  }

  lemma {:induction false} ClockCounts(ops: seq<Op>)
    ensures After(ops).clock == |ops|
  {
    if ops != [] { ClockCounts(ops[..|ops| - 1]); }
  }

  // ---------------------------------------------------------------- what the gate read

  ghost predicate TicketsApproved(ops: seq<Op>, l: Ledger) {
    forall c :: c in l.inFlight ==>
      && l.inFlight[c].readAt < |ops|
      && (l.inFlight[c].write ==> LatestIsApproval(ops[..l.inFlight[c].readAt], l.inFlight[c].plan))
  }

  lemma {:induction false} InFlightApproved(ops: seq<Op>)
    ensures TicketsApproved(ops, After(ops))
    decreases |ops|
  {
    if ops != [] {
      var n := |ops| - 1;
      var before, op, l := After(ops[..n]), ops[n], After(ops);
      InFlightApproved(ops[..n]);
      ClockCounts(ops[..n]);
      hide LatestIsApproval;
      forall c | c in l.inFlight
        ensures l.inFlight[c].readAt < |ops|
        ensures l.inFlight[c].write ==> LatestIsApproval(ops[..l.inFlight[c].readAt], l.inFlight[c].plan)
      {
        if c in before.inFlight {
          assert l.inFlight[c] == before.inFlight[c];
          assert ops[..n][..l.inFlight[c].readAt] == ops[..l.inFlight[c].readAt];
        } else {
          ApprovedIffLatest(ops[..n], op.plan);
          if op.write { CheckRead(before.rows, op); }
        }
      }
    }
  }

  lemma CheckRead(rows: seq<Row>, op: Op)
    requires op.Check? && op.write && Passes(rows, op)
    ensures Approved(rows, op.plan)
  {
    assert rows[op.picked] in rows;
  }

  /** In every run, however requests interleave, an execution of a write plan was created by a request that
      read its status when the latest decision on the plan was an approval, whichever row it read. */
  lemma {:induction false} ReadWasApproved(ops: seq<Op>, e: Execution)
    requires e in After(ops).executions && e.write
    ensures e.readAt < e.at < |ops| && LatestIsApproval(ops[..e.readAt], e.plan)
    decreases |ops|
  {
    var n := |ops| - 1;
    var before := After(ops[..n]);
    ClockCounts(ops[..n]);
    hide LatestIsApproval;
    if e in before.executions {
      ReadWasApproved(ops[..n], e);
      assert ops[..n][..e.readAt] == ops[..e.readAt];
    } else {
      InFlightApproved(ops[..n]);
      assert ops[..n][..e.readAt] == ops[..e.readAt];
    }
  }

  /** Every non-approving by-plan write in [from, until) is followed there by an approving one. */
  ghost predicate NoLastingDenial(ops: seq<Op>, plan: string, from: nat, until: nat)
    requires from <= until <= |ops|
  {
    forall j :: from <= j < until && ops[j].Decide? && ops[j].plan == plan && ops[j].status != "approved" ==>
      exists k :: j < k < until && ops[k] == Decide(plan, "approved")
  }

  lemma {:induction false} RowsStay(ops: seq<Op>, plan: string, from: nat, until: nat)
    requires from <= until <= |ops| && HasRow(After(ops[..from]).rows, plan)
    ensures HasRow(After(ops[..until]).rows, plan)
    decreases until
  {
    if from < until {
      RowsStay(ops, plan, from, until - 1);
      assert ops[..until][..until - 1] == ops[..until - 1];
      var op := ops[until - 1];
      if op.Decide? { UpdatedRows(After(ops[..until - 1]).rows, op.plan, op.status, plan); }
    }
  }

  lemma ApprovalHasRow(ops: seq<Op>, plan: string)
    requires LatestIsApproval(ops, plan)
    ensures HasRow(After(ops).rows, plan)
  {
    var i: nat :| ApprovedAt(ops, plan, i);
    RowsStay(ops, plan, i, |ops|);
    assert ops[..|ops|] == ops;
  }

  /** An approval that was the latest decision at `from` is still so at `until` exactly if no denial in between
      lasted. */
  lemma {:induction false} StillApprovedIff(ops: seq<Op>, plan: string, from: nat, until: nat)
    requires from <= until <= |ops| && LatestIsApproval(ops[..from], plan)
    ensures LatestIsApproval(ops[..until], plan) <==> NoLastingDenial(ops, plan, from, until)
    decreases until
  {
    hide *;
    if from < until {
      StillApprovedIff(ops, plan, from, until - 1);
      assert ops[..until][..until - 1] == ops[..until - 1];
      LatestSnoc(ops[..until], plan);
      ApprovalHasRow(ops[..from], plan);
      RowsStay(ops, plan, from, until - 1);
      DenialsSnoc(ops, plan, from, until);
    } else {
      NoDenialYet(ops, plan, from);
    }
  }

  lemma NoDenialYet(ops: seq<Op>, plan: string, from: nat)
    requires from <= |ops|
    ensures NoLastingDenial(ops, plan, from, from)
  {
  }

  lemma DenialsSnoc(ops: seq<Op>, plan: string, from: nat, until: nat)
    requires from < until <= |ops|
    ensures var op := ops[until - 1];
            NoLastingDenial(ops, plan, from, until) <==>
            if op.Decide? && op.plan == plan then op.status == "approved"
            else NoLastingDenial(ops, plan, from, until - 1)
  {
    var op := ops[until - 1];
    if op.Decide? && op.plan == plan {
      if op.status == "approved" { assert ops[until - 1] == Decide(plan, "approved"); }
    } else {
      if NoLastingDenial(ops, plan, from, until - 1) {
        forall j | from <= j < until && ops[j].Decide? && ops[j].plan == plan && ops[j].status != "approved"
          ensures exists k :: j < k < until && ops[k] == Decide(plan, "approved")
        {
          var k :| j < k < until - 1 && ops[k] == Decide(plan, "approved");
        }
      }
      if NoLastingDenial(ops, plan, from, until) {
        forall j | from <= j < until - 1 && ops[j].Decide? && ops[j].plan == plan && ops[j].status != "approved"
          ensures exists k :: j < k < until - 1 && ops[k] == Decide(plan, "approved")
        {
          var k :| j < k < until && ops[k] == Decide(plan, "approved");
        }
      }
    }
  }

  /** When an execution of a write plan is created, the latest decision is still an approval exactly if no
      denial written since its status was read lasted. */
  lemma CreatedWhileApprovedIff(ops: seq<Op>, e: Execution)
    requires e in After(ops).executions && e.write
    ensures e.readAt < e.at < |ops|
    ensures LatestIsApproval(ops[..e.at], e.plan) <==> NoLastingDenial(ops, e.plan, e.readAt, e.at)
  {
    hide LatestIsApproval, NoLastingDenial;
    ReadWasApproved(ops, e);
    StillApprovedIff(ops, e.plan, e.readAt, e.at);
  }

  lemma AfterSnoc(ops: seq<Op>, op: Op)
    ensures After(ops + [op]) == Step(After(ops), op)
  {
    assert (ops + [op])[..|ops|] == ops;
  }

  const OPEN: Guards := Guards(true, true, "allow", true)

  /** A request and its approval, where the examples below start. */
  lemma OnceApproved(ops: seq<Op>)
    requires ops == [Create("a1", "plan_1")] + [Decide("plan_1", "approved")]
    ensures After(ops) == Ledger([Row("a1", "plan_1", "approved")], map[], [], 2)
    ensures LatestIsApproval(ops, "plan_1")
  {
    var first := [Create("a1", "plan_1")];
    assert first[..0] == [];
    assert After(first) == Ledger([Row("a1", "plan_1", "pending")], map[], [], 1);
    AfterSnoc(first, Decide("plan_1", "approved"));
    assert After(ops).rows[0] in After(ops).rows;
    ApprovedIffLatest(ops, "plan_1");
  }

  lemma OpenFor(rows: seq<Row>, check: Op)
    requires rows == [Row("a1", "plan_1", "approved")] && check == Check(0, "plan_1", true, "", 0, OPEN)
    ensures Passes(rows, check)
  {
    assert !Blank("plan_1") by { assert TrimLeft("plan_1") == "plan_1"; }
    assert TrimSpace("") == "";
  }

  /** A denial that arrives between the status read and the creation does not stop the execution. */
  lemma DenialInBetween() returns (ops: seq<Op>, e: Execution)
    ensures e in After(ops).executions && e.write && e.at < |ops| && !LatestIsApproval(ops[..e.at], e.plan)
  {
    var check, deny := Check(0, "plan_1", true, "", 0, OPEN), Decide("plan_1", "denied");
    var finish := Finish(0, true, false, Saved);
    var past := [Create("a1", "plan_1")] + [Decide("plan_1", "approved")];
    OnceApproved(past);
    OpenFor(After(past).rows, check);
    AfterSnoc(past, check);
    AfterSnoc(past + [check], deny);
    AfterSnoc(past + [check] + [deny], finish);
    hide After, Passes, LatestIsApproval;
    ops := past + [check] + [deny] + [finish];
    e := Execution("plan_1", true, 2, 4);
    assert After(ops).executions == [e];
    assert ops[..4] == past + [check] + [deny];
    LatestSnoc(ops[..4], "plan_1");
  }

  // ---------------------------------------------------------------- when the gate must open

  predicate AllApproved(rows: seq<Row>, plan: string) {
    forall r :: r in rows && r.plan == plan ==> r.status == "approved"
  }

  /** Does this op insert a row for the plan? */
  predicate Requests(rows: seq<Row>, op: Op, plan: string) {
    op.Create? && op.plan == plan && forall r :: r in rows ==> r.id != op.id
  }

  /** No approval request for the plan came after op i. */
  ghost predicate NoRequestSince(ops: seq<Op>, plan: string, i: nat) {
    forall j :: i < j < |ops| ==> !Requests(After(ops[..j]).rows, ops[j], plan)
  }

  lemma NoRequestSnoc(ops: seq<Op>, plan: string, i: nat)
    requires i < |ops| - 1
    ensures var n := |ops| - 1;
            NoRequestSince(ops, plan, i) <==>
            NoRequestSince(ops[..n], plan, i) && !Requests(After(ops[..n]).rows, ops[n], plan)
  {
    hide After, Requests;
    var n := |ops| - 1;
    assert forall j :: 0 <= j < n ==> ops[..n][..j] == ops[..j];
    assert forall j :: 0 <= j < n ==> ops[..n][j] == ops[j];
  }

  lemma AllApprovedStep(l: Ledger, op: Op, plan: string)
    requires HasRow(l.rows, plan) && !(op.Decide? && op.plan == plan)
    ensures HasRow(Step(l, op).rows, plan)
    ensures AllApproved(Step(l, op).rows, plan) <==> AllApproved(l.rows, plan) && !Requests(l.rows, op, plan)
  {
    var rows, rows1 := l.rows, Step(l, op).rows;
    if op.Decide? {
      UpdatedRows(rows, op.plan, op.status, plan);
      assert forall k :: 0 <= k < |rows| && rows[k].plan == plan ==> rows1[k] == rows[k];
      assert forall k :: 0 <= k < |rows| && rows1[k].plan == plan ==> rows1[k] == rows[k];
    } else if Requests(rows, op, plan) {
      assert rows1[|rows|] in rows1;
    }
  }

  lemma ApprovedBefore(ops: seq<Op>, plan: string, i: nat)
    requires ApprovedAt(ops, plan, i) && i < |ops| - 1
    ensures ApprovedAt(ops[..|ops| - 1], plan, i) && !(ops[|ops| - 1].Decide? && ops[|ops| - 1].plan == plan)
  {
    hide After;
    var n := |ops| - 1;
    assert ops[..n][..i] == ops[..i];
    assert forall j :: 0 <= j < n ==> ops[..n][j] == ops[j];
  }

  /** All rows of an approved plan are approved exactly if no approval request came since. */
  lemma {:induction false} AllApprovedIff(ops: seq<Op>, plan: string, i: nat)
    requires ApprovedAt(ops, plan, i)
    ensures HasRow(After(ops).rows, plan)
    ensures AllApproved(After(ops).rows, plan) <==> NoRequestSince(ops, plan, i)
    decreases |ops|
  {
    var n := |ops| - 1;
    if i == n {
      UpdatedRows(After(ops[..n]).rows, plan, "approved", plan);
    } else {
      ApprovedBefore(ops, plan, i);
      AllApprovedIff(ops[..n], plan, i);
      AllApprovedStep(After(ops[..n]), ops[n], plan);
      NoRequestSnoc(ops, plan, i);
      hide Step, AllApproved, NoRequestSince, HasRow, Requests, ApprovedAt;
    }
  }

  /** The gate opens for every read it could make exactly if no approval request came after the approval:
      a later request leaves a pending row that a by-plan read may return instead. */
  lemma GateOpensForEveryRead(ops: seq<Op>, plan: string, i: nat, caller: nat, guards: Guards)
    requires ApprovedAt(ops, plan, i) && GuardsPass(plan, true, guards)
    ensures (forall k: nat :: Readable(After(ops).rows, plan, "", k) ==>
               Passes(After(ops).rows, Check(caller, plan, true, "", k, guards)))
            <==> NoRequestSince(ops, plan, i)
  {
    var rows := After(ops).rows;
    AllApprovedIff(ops, plan, i);
    if AllApproved(rows, plan) {
      forall k: nat | Readable(rows, plan, "", k) ensures Passes(rows, Check(caller, plan, true, "", k, guards)) {
        assert rows[k] in rows;
      }
    } else {
      var r :| r in rows && r.plan == plan && r.status != "approved";
      var k: nat :| k < |rows| && rows[k] == r;
      assert Readable(rows, plan, "", k) && !Passes(rows, Check(caller, plan, true, "", k, guards));
    }
  }

  /** An approved plan that a later request gets refused: the read returns the new pending row. */
  lemma ApprovedYetRefused() returns (ops: seq<Op>, check: Op)
    ensures LatestIsApproval(ops, "plan_1")
    ensures check.Check? && check.plan == "plan_1" && GuardsPass("plan_1", true, check.guards)
    ensures Readable(After(ops).rows, "plan_1", check.token, check.picked) && !Passes(After(ops).rows, check)
  {
    var past, again := [Create("a1", "plan_1")] + [Decide("plan_1", "approved")], Create("a2", "plan_1");
    check := Check(0, "plan_1", true, "", 1, OPEN);
    ops := past + [again];
    OnceApproved(past);
    OpenFor(After(past).rows, check.(picked := 0));
    AfterSnoc(past, again);
    assert ops[..2] == past;
    LatestSnoc(ops, "plan_1");
    hide After, LatestIsApproval;
    assert After(ops).rows == [Row("a1", "plan_1", "approved"), Row("a2", "plan_1", "pending")];
  }

  // ---------------------------------------------------------------- what the rows are

  /** Op i is the first request with its id. */
  ghost predicate FirstRequest(ops: seq<Op>, i: nat) {
    i < |ops| && ops[i].Create? && forall j :: 0 <= j < i && ops[j].Create? ==> ops[j].id != ops[i].id
  }

  /** The latest decision on the plan after op i, or `pending` if there is none. */
  function StatusSince(ops: seq<Op>, plan: string, i: nat): (status: string) {
    if |ops| <= i + 1 then "pending"
    else
      var op := ops[|ops| - 1];
      if op.Decide? && op.plan == plan then op.status else StatusSince(ops[..|ops| - 1], plan, i)
  }

  function RowOf(ops: seq<Op>, i: nat): (r: Row)
    requires i < |ops| && ops[i].Create?
  {
    Row(ops[i].id, ops[i].plan, StatusSince(ops, ops[i].plan, i))
  }

  /** The rows are exactly those of the first requests with their ids. */
  ghost predicate RowsOfRequests(ops: seq<Op>, rows: seq<Row>) {
    && (forall r :: r in rows ==> exists i: nat :: FirstRequest(ops, i) && r == RowOf(ops, i))
    && (forall i: nat :: FirstRequest(ops, i) ==> RowOf(ops, i) in rows)
    && (forall a, b :: 0 <= a < b < |rows| ==> rows[a].id != rows[b].id)
  }

  lemma RequestSnoc(ops: seq<Op>, op: Op, i: nat)
    ensures FirstRequest(ops + [op], i) <==>
            || FirstRequest(ops, i)
            || (i == |ops| && op.Create? && forall j :: 0 <= j < i && ops[j].Create? ==> ops[j].id != op.id)
    ensures FirstRequest(ops, i) ==>
              RowOf(ops + [op], i) ==
              if op.Decide? && op.plan == ops[i].plan then RowOf(ops, i).(status := op.status) else RowOf(ops, i)
    ensures i == |ops| && op.Create? ==> RowOf(ops + [op], i) == Row(op.id, op.plan, "pending")
  {
    var all := ops + [op];
    assert all[..|ops|] == ops;
    assert forall j :: 0 <= j < |ops| ==> all[j] == ops[j];
  }

  /** Every requested id has a first request. */
  lemma {:induction false} SomeFirst(ops: seq<Op>, j: nat) returns (i: nat)
    requires j < |ops| && ops[j].Create?
    ensures i <= j && FirstRequest(ops, i) && ops[i].id == ops[j].id
    decreases j
  {
    i := j;
    if !FirstRequest(ops, j) {
      var k :| 0 <= k < j && ops[k].Create? && ops[k].id == ops[j].id;
      i := SomeFirst(ops, k);
    }
  }

  lemma CreateKeeps(ops: seq<Op>, rows: seq<Row>, op: Op)
    requires op.Create? && RowsOfRequests(ops, rows)
    ensures RowsOfRequests(ops + [op], Inserted(rows, op.id, op.plan))
  {
    var all, n := ops + [op], |ops|;
    forall i: nat ensures
      && (FirstRequest(all, i) <==>
          FirstRequest(ops, i) || (i == n && forall j :: 0 <= j < i && ops[j].Create? ==> ops[j].id != op.id))
      && (FirstRequest(ops, i) ==> RowOf(all, i) == RowOf(ops, i))
      && (i == n ==> RowOf(all, i) == Row(op.id, op.plan, "pending"))
    {
      RequestSnoc(ops, op, i);
    }
    if r :| r in rows && r.id == op.id {
      var i: nat :| FirstRequest(ops, i) && r == RowOf(ops, i);
      assert ops[i].Create? && ops[i].id == op.id;
    } else {
      forall j | 0 <= j < n && ops[j].Create? ensures ops[j].id != op.id {
        var i := SomeFirst(ops, j);
        assert RowOf(ops, i) in rows;
      }
      assert FirstRequest(all, n);
      hide StatusSince;
      var rows1 := Inserted(rows, op.id, op.plan);
      assert forall r :: r in rows1 <==> r in rows || r == Row(op.id, op.plan, "pending");
      forall a, b | 0 <= a < b < |rows1| ensures rows1[a].id != rows1[b].id {
        if b == |rows| { assert rows1[a] in rows; }
      }
    }
  }

  lemma DecideKeeps(ops: seq<Op>, rows: seq<Row>, op: Op)
    requires op.Decide? && RowsOfRequests(ops, rows)
    ensures RowsOfRequests(ops + [op], Updated(rows, op.plan, op.status))
  {
    var all, rows1 := ops + [op], Updated(rows, op.plan, op.status);
    forall i: nat ensures
      && (FirstRequest(all, i) <==> FirstRequest(ops, i))
      && (FirstRequest(ops, i) ==>
            RowOf(all, i) == if op.plan == ops[i].plan then RowOf(ops, i).(status := op.status) else RowOf(ops, i))
    {
      RequestSnoc(ops, op, i);
    }
    hide StatusSince;
    assert |rows1| == |rows|;
    assert forall k :: 0 <= k < |rows| ==>
      rows1[k] == if rows[k].plan == op.plan then rows[k].(status := op.status) else rows[k];
    forall r | r in rows1 ensures exists i: nat :: FirstRequest(all, i) && r == RowOf(all, i) {
      var k :| 0 <= k < |rows1| && rows1[k] == r;
      assert rows[k] in rows;
      var i: nat :| FirstRequest(ops, i) && rows[k] == RowOf(ops, i);
      assert r == RowOf(all, i);
    }
    forall i: nat | FirstRequest(all, i) ensures RowOf(all, i) in rows1 {
      assert RowOf(ops, i) in rows;
      var k :| 0 <= k < |rows| && rows[k] == RowOf(ops, i);
      assert rows1[k] == RowOf(all, i);
    }
  }

  lemma OtherKeeps(ops: seq<Op>, rows: seq<Row>, op: Op)
    requires !op.Create? && !op.Decide? && RowsOfRequests(ops, rows)
    ensures RowsOfRequests(ops + [op], rows)
  {
    var all := ops + [op];
    forall i: nat
      ensures FirstRequest(all, i) <==> FirstRequest(ops, i)
      ensures FirstRequest(ops, i) ==> RowOf(all, i) == RowOf(ops, i)
    {
      RequestSnoc(ops, op, i);
    }
    hide StatusSince;
  }

  /** In every run there is exactly one row for each id ever requested: with the plan of the id's first request,
      and the latest decision on that plan since, or `pending`. */
  lemma {:induction false} RowsAreRequests(ops: seq<Op>)
    ensures RowsOfRequests(ops, After(ops).rows)
  {
    if ops != [] {
      var n := |ops| - 1;
      var past, op, rows := ops[..n], ops[n], After(ops[..n]).rows;
      RowsAreRequests(past);
      assert past + [op] == ops;
      hide RowsOfRequests;
      match op
      case Create(_, _) => CreateKeeps(past, rows, op);
      case Decide(_, _) => DecideKeeps(past, rows, op);
      case _ => OtherKeeps(past, rows, op);
    }
  }

  // ---------------------------------------------------------------- what the gate lets through

  /** A check that the gate must let through, on the fields of the request: the plan is named; session, context
      and constraints are fine; the policy allows, or requires approval of a write; and the row read for a write
      plan is the plan's, is approved, and is the one with the given token if a token is given. */
  ghost predicate OpensGate(rows: seq<Row>, op: Op) {
    && op.Check? && !AllSpace(op.plan)
    && op.guards.sessionOk && op.guards.contextOk && op.guards.constraintsOk
    && (op.guards.decision == "allow" || (op.guards.decision == "require_approval" && op.write))
    && (op.write ==>
          && op.picked < |rows| && rows[op.picked].plan == op.plan && rows[op.picked].status == "approved"
          && (AllSpace(op.token) || rows[op.picked].id == TrimSpace(op.token)))
  }

  lemma PassesIff(rows: seq<Row>, op: Op)
    requires op.Check?
    ensures Passes(rows, op) <==> OpensGate(rows, op)
  {
    hide TrimSpace, AllSpace;
    BlankIff(op.plan);
    BlankIff(op.token);
  }

  /** At op i the request of a caller was let through by the gate, and it has not been finished before op `until`. */
  ghost predicate HoldsTicket(ops: seq<Op>, c: nat, i: nat, until: nat) {
    && i < until <= |ops| && ops[i].Check? && ops[i].caller == c
    && c !in After(ops[..i]).inFlight && OpensGate(After(ops[..i]).rows, ops[i])
    && forall k :: i < k < until ==> !(ops[k].Finish? && ops[k].caller == c)
  }

  lemma HoldsOn(ops: seq<Op>, c: nat, i: nat, until: nat)
    requires until < |ops| && HoldsTicket(ops[..until], c, i, until) && !(ops[until].Finish? && ops[until].caller == c)
    ensures HoldsTicket(ops[..until + 1], c, i, until + 1)
  {
    hide After, OpensGate;
    var a, b := ops[..until], ops[..until + 1];
    assert b[..i] == a[..i] && forall k :: 0 <= k < until ==> b[k] == a[k];
    assert b[until] == ops[until];
  }

  lemma HoldsInLonger(ops: seq<Op>, c: nat, i: nat, until: nat)
    requires until <= |ops|
    ensures HoldsTicket(ops[..until], c, i, until) <==> HoldsTicket(ops, c, i, until)
  {
    hide After, OpensGate;
    if i < until { assert ops[..until][..i] == ops[..i]; }
    assert forall k :: 0 <= k < until ==> ops[..until][k] == ops[k];
  }

  /** The tickets in flight are exactly those. */
  lemma {:induction false} TicketsHeld(ops: seq<Op>, c: nat)
    ensures var l := After(ops).inFlight;
            c in l ==> HoldsTicket(ops, c, l[c].readAt, |ops|)
                       && l[c].plan == ops[l[c].readAt].plan && l[c].write == ops[l[c].readAt].write
    decreases |ops|
  {
    if ops != [] {
      var n := |ops| - 1;
      var before, op, l := After(ops[..n]), ops[n], After(ops);
      TicketsHeld(ops[..n], c);
      ClockCounts(ops[..n]);
      if op.Check? { PassesIff(before.rows, op); }
      assert ops[..n + 1] == ops;
      if c in l.inFlight && c in before.inFlight {
        hide OpensGate, Passes;
        assert l.inFlight[c] == before.inFlight[c];
        HoldsOn(ops, c, l.inFlight[c].readAt, n);
      }
    }
  }

  /** An execution comes from a check that the gate had to let through and from the next step of the same caller's
      request, with the hash agreeing, nothing active and the store taking it. */
  ghost predicate WasChecked(ops: seq<Op>, e: Execution) {
    && e.at < |ops| && ops[e.at].Finish?
    && HoldsTicket(ops, ops[e.at].caller, e.readAt, e.at)
    && ops[e.readAt].plan == e.plan && ops[e.readAt].write == e.write
    && ops[e.at].hashOk && !ops[e.at].active && ops[e.at].create != Rejected
  }

  lemma {:induction false} ExecutionsWereChecked(ops: seq<Op>, e: Execution)
    requires e in After(ops).executions
    ensures WasChecked(ops, e)
    decreases |ops|
  {
    var n := |ops| - 1;
    var before := After(ops[..n]);
    ClockCounts(ops[..n]);
    if e in before.executions {
      ExecutionsWereChecked(ops[..n], e);
      hide HoldsTicket;
      HoldsInLonger(ops[..n], ops[e.at].caller, e.readAt, e.at);
      HoldsInLonger(ops, ops[e.at].caller, e.readAt, e.at);
      assert ops[..n][..e.at] == ops[..e.at];
      HeldBefore(ops[..n], ops[e.at].caller, e.readAt, e.at);
    } else {
      TicketsHeld(ops[..n], ops[n].caller);
      HeldBefore(ops[..n], ops[n].caller, e.readAt, n);
      hide HoldsTicket;
      HoldsInLonger(ops, ops[n].caller, e.readAt, n);
    }
  }

  lemma HeldBefore(ops: seq<Op>, c: nat, i: nat, until: nat)
    requires HoldsTicket(ops, c, i, until)
    ensures i < until <= |ops| && ops[i].Check?
  {
  }

  lemma {:induction false} TicketStays(ops: seq<Op>, c: nat, i: nat, until: nat)
    requires HoldsTicket(ops, c, i, until)
    ensures var l := After(ops[..until]).inFlight; c in l && l[c] == Ticket(ops[i].plan, ops[i].write, i)
    decreases until
  {
    hide OpensGate, Passes, After;
    AfterSnoc(ops[..until - 1], ops[until - 1]);
    assert ops[..until] == ops[..until - 1] + [ops[until - 1]];
    if i == until - 1 {
      PassesIff(After(ops[..i]).rows, ops[i]);
      ClockCounts(ops[..i]);
    } else {
      TicketStays(ops, c, i, until - 1);
    }
  }

  lemma {:induction false} ExecutionsStay(ops: seq<Op>, until: nat, e: Execution)
    requires until <= |ops| && e in After(ops[..until]).executions
    ensures e in After(ops).executions
    decreases |ops|
  {
    hide Passes;
    if until == |ops| {
      assert ops[..until] == ops;
    } else {
      assert ops[..|ops| - 1][..until] == ops[..until];
      ExecutionsStay(ops[..|ops| - 1], until, e);
    }
  }

  lemma CheckedIsCreated(ops: seq<Op>, e: Execution)
    requires WasChecked(ops, e)
    ensures e in After(ops).executions
  {
    hide HoldsTicket, After;
    TicketStays(ops, ops[e.at].caller, e.readAt, e.at);
    HeldBefore(ops, ops[e.at].caller, e.readAt, e.at);
    ClockCounts(ops[..e.at]);
    AfterSnoc(ops[..e.at], ops[e.at]);
    assert ops[..e.at + 1] == ops[..e.at] + [ops[e.at]];
    ExecutionsStay(ops, e.at + 1, e);
  }

  /** In every run the executions are exactly those, each created once. */
  lemma ExecutionsIff(ops: seq<Op>, e: Execution)
    ensures e in After(ops).executions <==> WasChecked(ops, e)
  {
    hide WasChecked, After;
    if e in After(ops).executions { ExecutionsWereChecked(ops, e); }
    if WasChecked(ops, e) { CheckedIsCreated(ops, e); }
  }

  lemma {:induction false} ExecutionsInOrder(ops: seq<Op>)
    ensures var xs := After(ops).executions;
            && (forall a, b :: 0 <= a < b < |xs| ==> xs[a].at < xs[b].at)
            && (forall a :: 0 <= a < |xs| ==> xs[a].at < |ops|)
  {
    hide Passes;
    if ops != [] {
      ExecutionsInOrder(ops[..|ops| - 1]);
      ClockCounts(ops[..|ops| - 1]);
    }
  }
}
