/**
 * Workflow-run selection: which CI run the dashboard reports for a repository.
 * The runs of the first workflow whose name contains "release" win; otherwise
 * the repository's most recent run of any workflow is used.
 */
module Workflows {
  import opened Wrappers
  import opened Text
  import Scan

  /** One CI run as the API reports it; `conclusion` is None while the run has not finished. */
  datatype Run = Run(status: string, conclusion: Option<string>, createdAt: string, url: string)

  /** A workflow and its runs, newest first; `runs` is None when listing them fails. */
  datatype Workflow = Workflow(name: string, runs: Option<seq<Run>>)

  /**
   * What the API gives for one repository: its workflows (None when listing
   * them fails) and all of its runs across workflows, newest first (None when
   * listing them fails).
   */
  datatype RunSource = RunSource(workflows: Option<seq<Workflow>>, allRuns: Option<seq<Run>>)

  /** The scan's test: `'release' in workflow.name.lower()`. */
  predicate IsReleaseWorkflow(w: Workflow) {
    Contains(Lower(w.name), "release")
  }

  /** The first release workflow, if any. */
  function ReleaseWorkflow(workflows: seq<Workflow>): Option<Workflow> {
    match Scan.FirstIndex(workflows, IsReleaseWorkflow)
    case None => None
    case Some(i) => Some(workflows[i])
  }

  /** The loop over the workflows that stops at the first release workflow. */
  method FindReleaseWorkflow(workflows: seq<Workflow>) returns (found: Option<Workflow>)
    ensures found == ReleaseWorkflow(workflows)
    ensures found.Some? ==> IsReleaseWorkflow(found.value)
    ensures found.None? <==> forall i :: 0 <= i < |workflows| ==> !IsReleaseWorkflow(workflows[i])
  {
    found := None;
    for i := 0 to |workflows|
      invariant forall j :: 0 <= j < i ==> !IsReleaseWorkflow(workflows[j])
    {
      if IsReleaseWorkflow(workflows[i]) {
        Scan.FirstIndexUnique(workflows, IsReleaseWorkflow, i);
        found := Some(workflows[i]);
        break;
      }
    }
  }

  /** The newest run of a list, if it has one (`runs.totalCount > 0` then `runs[0]`). */
  function Newest(runs: seq<Run>): Option<Run> {
    if |runs| > 0 then Some(runs[0]) else None
  }

  /** The fallback: the repository's newest run of any workflow, None when there is none or listing fails. */
  function FallbackRun(allRuns: Option<seq<Run>>): Option<Run> {
    match allRuns
    case None => None
    case Some(runs) => Newest(runs)
  }

  /** The run the dashboard reports; every API failure along the way gives None. */
  function LatestRun(source: RunSource): Option<Run> {
    match source.workflows
    case None => None
    case Some(workflows) =>
      match ReleaseWorkflow(workflows)
      case None => FallbackRun(source.allRuns)
      case Some(w) =>
        match w.runs
        case None => None
        case Some(runs) => if |runs| > 0 then Newest(runs) else FallbackRun(source.allRuns)
  }

  method FetchLatestWorkflowRun(source: RunSource) returns (run: Option<Run>)
    ensures run == LatestRun(source)
  {
    if source.workflows.None? {
      return None;
    }
    var releaseWorkflow := FindReleaseWorkflow(source.workflows.value);
    if releaseWorkflow.Some? {
      if releaseWorkflow.value.runs.None? {
        return None;
      }
      var runs := releaseWorkflow.value.runs.value;
      if |runs| > 0 {
        return Some(runs[0]);
      }
    }
    if source.allRuns.None? {
      return None;
    }
    var runs := source.allRuns.value;
    if |runs| > 0 {
      return Some(runs[0]);
    }
    return None;
  }

  /** When the first release workflow has runs, its newest run is reported. */
  lemma ReleaseWorkflowRunWins(workflows: seq<Workflow>, allRuns: Option<seq<Run>>, i: nat)
    requires i < |workflows| && IsReleaseWorkflow(workflows[i])
    requires forall j :: 0 <= j < i ==> !IsReleaseWorkflow(workflows[j])
    requires workflows[i].runs.Some? && |workflows[i].runs.value| > 0
    ensures LatestRun(RunSource(Some(workflows), allRuns)) == Some(workflows[i].runs.value[0])
  {
    Scan.FirstIndexUnique(workflows, IsReleaseWorkflow, i);
  }

  /**
   * Otherwise (no release workflow, or one without runs) the repository's
   * newest run of any workflow is reported, and None when it has no run at all.
   */
  lemma FallbackToNewestRun(workflows: seq<Workflow>, allRuns: seq<Run>)
    requires ReleaseWorkflow(workflows).None? || ReleaseWorkflow(workflows).value.runs == Some([])
    ensures LatestRun(RunSource(Some(workflows), Some(allRuns))) == if |allRuns| > 0 then Some(allRuns[0]) else None
  {
  }

  /** Whatever run is reported is the newest of its list: of the release workflow's runs or of all runs. */
  lemma ReportedRunIsNewest(source: RunSource)
    ensures LatestRun(source).Some? ==>
      (exists w :: w in source.workflows.value && IsReleaseWorkflow(w) && w.runs.Some? && w.runs.value != [] && LatestRun(source).value == w.runs.value[0])
      || (source.allRuns.Some? && source.allRuns.value != [] && LatestRun(source).value == source.allRuns.value[0])
  {
    if LatestRun(source).Some? {
      var workflows := source.workflows.value;
      match Scan.FirstIndex(workflows, IsReleaseWorkflow)
      case None =>
      case Some(i) =>
        assert workflows[i] in workflows;
    }
  }

  /** The name test ignores ASCII case: "Release", "RELEASE.yaml" and "create-release" all qualify. */
  lemma ReleaseNameIgnoresCase(name: string)
    requires Contains(name, "Release")
    ensures IsReleaseWorkflow(Workflow(name, None))
  {
    ContainsLowered(name, "Release");
    LowerRelease();
  }

  lemma LowerRelease()
    ensures Lower("Release") == "release"
  {
    assert Lower("Release")[0] == 'r';
  }

  lemma {:induction false} ContainsLowered(s: string, sub: string)
    requires Contains(s, sub)
    ensures Contains(Lower(s), Lower(sub))
    decreases |s|
  {
    if IsPrefix(sub, s) {
      assert Lower(s)[..|sub|] == Lower(sub);
    } else {
      ContainsLowered(s[1..], sub);
      assert Lower(s)[1..] == Lower(s[1..]);
    }
  }
}
