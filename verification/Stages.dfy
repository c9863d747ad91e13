// Plan steps and their partition into an act stage and a verify stage
// (internal/workflows/types.go, internal/workflows/stages.go).
module Stages {
  import opened Text

  /** A tool's JSON input, kept as text. */
  type Input = string

  /** What step.Rollback decodes to: not a non-empty JSON object, or its three fields (an absent
      or non-string field reads as ""). */
  datatype RollbackSpec = Missing | Fields(tool: string, action: string, input: Input)

  datatype PlanStep = PlanStep(stepId: string, stage: string, action: string, tool: string,
                               input: Input, rollback: RollbackSpec)

  predicate IsVerifyStage(stage: string) {
    ToLower(TrimSpace(stage)) == "verify"
  }

  /** A step is a verify step exactly if its stage reads `verify`, in any case and with white space around. */
  lemma VerifyStageIff(stage: string)
    ensures IsVerifyStage(stage) <==> Says(stage, "verify")
  {
    LowerTrimIff(stage, "verify");
  }

  /** The steps whose stage test answers `verify`, in their original order. */
  function Select(steps: seq<PlanStep>, verify: bool): (stage: seq<PlanStep>) {
    if steps == [] then []
    else
      var last := steps[|steps| - 1];
      Select(steps[..|steps| - 1], verify) + if IsVerifyStage(last.stage) == verify then [last] else []
  }

  /** The indices of those steps. */
  function Positions(steps: seq<PlanStep>, verify: bool): (at: seq<nat>) {
    if steps == [] then []
    else
      var n := |steps| - 1;
      Positions(steps[..n], verify) + if IsVerifyStage(steps[n].stage) == verify then [n] else []
  }

  /** Select is the stable filter: exactly the matching indices, each once, in increasing order. */
  lemma {:induction false} SelectIsStableFilter(steps: seq<PlanStep>, verify: bool)
    ensures var p := Positions(steps, verify);
            && |p| == |Select(steps, verify)|
            && (forall j :: 0 <= j < |p| ==> p[j] < |steps| && Select(steps, verify)[j] == steps[p[j]])
            && (forall j, k :: 0 <= j < k < |p| ==> p[j] < p[k])
            && (forall i :: 0 <= i < |steps| ==> (i in p <==> IsVerifyStage(steps[i].stage) == verify))
  {
    hide IsVerifyStage;
    if steps != [] {
      var n := |steps| - 1;
      SelectIsStableFilter(steps[..n], verify);
      var p, q := Positions(steps, verify), Positions(steps[..n], verify);
      forall i | 0 <= i < |steps| ensures i in p <==> IsVerifyStage(steps[i].stage) == verify {
        assert i < n ==> steps[..n][i] == steps[i];
      }
    }
  }

  method SplitStepsByStage(steps: seq<PlanStep>) returns (act: seq<PlanStep>, verify: seq<PlanStep>)
    ensures act == Select(steps, false)
    ensures verify == Select(steps, true)
  {
    act, verify := [], [];
    if |steps| == 0 { return; }
    for i := 0 to |steps|
      invariant act == Select(steps[..i], false)
      invariant verify == Select(steps[..i], true)
    {
      assert steps[..i + 1][..i] == steps[..i];
      if IsVerifyStage(steps[i].stage) {
        verify := verify + [steps[i]];
        continue;
      }
      act := act + [steps[i]];
    }
    assert steps[..|steps|] == steps;
  }
}
