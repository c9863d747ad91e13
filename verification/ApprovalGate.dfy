// The approval table and the handlers over it as an object, proved against ApprovalLedger.
module ApprovalGate {
  import opened Prelude
  import opened Text
  import opened ApprovalLedger

  /** normalizeApprovalStatus (internal/web/approvals_helpers.go). */
  function Normalize(status: string): (s: Option<string>) {
    var s := TrimSpace(ToLower(status));
    if s == "" then Some("pending")
    else if s in {"pending", "approved", "denied", "expired"} then Some(s)
    else None
  }

  /** Blank means pending; otherwise the status is one of the four words, in any case and with white space
      around. */
  lemma NormalizeIff(status: string, s: string)
    ensures Normalize(status) == Some(s) <==>
            || (s == "pending" && AllSpace(status))
            || (s in {"pending", "approved", "denied", "expired"} && Says(status, s))
  {
    hide TrimSpace, ToLower, Says, AllSpace;
    TrimLowerBlankIff(status);
    TrimLowerIff(status, "pending");
    TrimLowerIff(status, "approved");
    TrimLowerIff(status, "denied");
    TrimLowerIff(status, "expired");
  }

  class Server {
    var rows: seq<Row>
    var inFlight: map<nat, Ticket>
    var executions: seq<Execution>
    var clock: nat

    constructor ()
      ensures View() == After([])
    {
      rows, inFlight, executions, clock := [], map[], [], 0;
    }

    ghost function View(): (l: Ledger)
      reads this
    {
      Ledger(rows, inFlight, executions, clock)
    }

    /** An id already in use violates the primary key: the insert fails, as it does when the store does. */
    method CreateApproval(id: string, plan: string, store: Stored) returns (ok: bool)
      modifies this
      ensures ok <==> store.Ok() && forall r :: r in old(rows) ==> r.id != id
      ensures View() == if store.Applied() then Step(old(View()), Create(id, plan)) else old(View())
    {
      if !store.Applied() { return false; }
      clock := clock + 1;
      var i := 0;
      while i < |rows|
        invariant i <= |rows|
        invariant forall j :: 0 <= j < i ==> rows[j].id != id
      {
        if rows[i].id == id { return false; }
        i := i + 1;
      }
      rows := rows + [Row(id, plan, "pending")];
      return store.Ok();
    }

    /** createApproval: the row stays when creating the Linear issue fails afterwards. */
    method RequestApproval(id: string, plan: string, external: bool, store: Stored, issueOk: bool) returns (ok: bool)
      modifies this
      ensures ok <==> store.Ok() && (forall r :: r in old(rows) ==> r.id != id) && (external ==> issueOk)
      ensures View() == if store.Applied() then Step(old(View()), Create(id, plan)) else old(View())
    {
      ok := CreateApproval(id, plan, store);
      if !ok { return; }
      if external && !issueOk { ok := false; }
    }

    method UpdateApprovalStatusByPlan(plan: string, status: string, store: Stored) returns (ok: bool)
      modifies this
      ensures ok == store.Ok()
      ensures View() == if store.Applied() then Step(old(View()), Decide(plan, status)) else old(View())
    {
      if !store.Applied() { return false; }
      clock := clock + 1;
      for i := 0 to |rows|
        invariant |rows| == |old(rows)|
        invariant forall j :: 0 <= j < |rows| ==>
                    rows[j] == if j < i then Updated(old(rows), plan, status)[j] else old(rows)[j]
        invariant clock == old(clock) + 1 && executions == old(executions) && inFlight == old(inFlight)
      {
        if rows[i].plan == plan { rows := rows[i := rows[i].(status := status)]; }
      }
      assert rows == Updated(old(rows), plan, status);
      return store.Ok();
    }

    /** approvalStatus: some row that the query matches, or an error when there is none. */
    method ApprovalStatus(plan: string, token: string) returns (status: Option<string>, picked: nat)
      ensures status.Some? ==>
                !Blank(plan) && Readable(rows, plan, token, picked) && rows[picked].status == status.value
      ensures status.None? ==> Blank(plan) || forall i: nat :: !Readable(rows, plan, token, i)
    {
      status, picked := None, 0;
      if Blank(plan) { return; }
      var matching := set i: nat | i < |rows| && Readable(rows, plan, token, i);
      assert forall i: nat :: Readable(rows, plan, token, i) ==> i in matching;
      if matching != {} {
        picked :| picked in matching;
        status := Some(rows[picked].status);
      }
    }

    /** handleApprovals: a pending request inserts a row, any other decision is written to every row of the
        plan. A refusal, by input, policy or store, changes nothing. */
    method HandleApprovals(plan: string, status: string, id: string, policyOk: bool, store: Stored, issueOk: bool)
      returns (ok: bool)
      modifies this
      ensures plan == "" || Normalize(status).None? || !policyOk ==> !ok && View() == old(View())
      ensures plan != "" && Normalize(status).Some? && policyOk ==>
                var s := Normalize(status).value;
                var op := if s == "pending" then Create(id, plan) else Decide(plan, s);
                && View() == (if store.Applied() then Step(old(View()), op) else old(View()))
                && (ok <==> store.Ok() && (s == "pending" ==> (forall r :: r in old(rows) ==> r.id != id) && issueOk))
    {
      if plan == "" { return false; }
      var s := Normalize(status);
      if s.None? { return false; }
      if !policyOk { return false; }
      if s.value == "pending" {
        ok := RequestApproval(id, plan, true, store, issueOk);
      } else {
        ok := UpdateApprovalStatusByPlan(plan, s.value, store);
      }
    }

    /** The :execute branch of handlePlanByID up to and including the status read. `picked` is the row that
        the read returned; with no row to read it names none. */
    method CheckExecute(caller: nat, plan: string, write: bool, token: string, g: Guards)
      returns (ok: bool, picked: nat)
      requires caller !in inFlight
      modifies this
      ensures View() == Step(old(View()), Check(caller, plan, write, token, picked, g))
      ensures ok == OpensGate(old(rows), Check(caller, plan, write, token, picked, g))
      ensures GuardsPass(plan, write, g) && write ==>
                Readable(old(rows), plan, token, picked) || forall i: nat :: !Readable(old(rows), plan, token, i)
    {
      hide Blank, TrimSpace;
      forall i: nat
        ensures var op := Check(caller, plan, write, token, i, g); Passes(rows, op) == OpensGate(rows, op)
      {
        PassesIff(rows, Check(caller, plan, write, token, i, g));
      }
      hide OpensGate;
      picked := 0;
      var now := clock;
      clock := clock + 1;
      if Blank(plan) { return false, picked; }
      if !g.sessionOk || !g.contextOk { return false, picked; }
      if g.decision == "require_approval" {
        if !write { return false, picked; }
      } else if g.decision != "allow" {
        return false, picked;
      }
      if !g.constraintsOk { return false, picked; }
      if write {
        var status;
        status, picked := ApprovalStatus(plan, token);
        if status.None? { return false, picked; }
        if status.value != "approved" { return false, picked; }
      }
      inFlight := inFlight[caller := Ticket(plan, write, now)];
      return true, picked;
    }

    /** The rest of the branch: the hash check, the check for an active execution, and the creation. */
    method FinishExecute(caller: nat, hashOk: bool, active: bool, create: Stored) returns (ok: bool)
      requires caller in inFlight
      modifies this
      ensures View() == Step(old(View()), Finish(caller, hashOk, active, create))
      ensures ok <==> hashOk && !active && create.Ok()
      ensures |executions| == |old(executions)| + if hashOk && !active && create.Applied() then 1 else 0
    {
      var t, now := inFlight[caller], clock;
      clock := clock + 1;
      inFlight := inFlight - {caller};
      if !hashOk { return false; }
      if active { return false; }
      if create.Applied() { executions := executions + [Execution(t.plan, t.write, t.readAt, now)]; }
      return create.Ok();
    }
  }
}
