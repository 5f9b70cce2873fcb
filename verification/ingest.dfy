/**
 * Record assembly for one ingest repository: the copier-answers check and the
 * combination of release, CI run, Koza marker and template drift into the
 * record the dashboard publishes.
 */
module Ingest {
  import opened Wrappers
  import opened Health
  import opened Workflows
  import KozaVersion
  import Drift
  import Scan
  import Text

  /** The latest release, as published in the record: tag, date and url. */
  datatype Release = Release(tag: string, date: string, url: string)

  /**
   * A value read from the copier answers file: a string, or any other YAML
   * value (number, boolean, list, mapping, null), of which only its Python
   * truthiness matters here.
   */
  datatype AnswerValue = Str(text: string) | NonText(truthy: bool)

  predicate Truthy(v: AnswerValue) {
    match v
    case Str(s) => s != ""
    case NonText(t) => t
  }

  datatype CopierInfo = CopierInfo(commit: AnswerValue, srcPath: Option<AnswerValue>)

  /**
   * The copier check: info exists only when the answers file was read as a
   * mapping (`answers` is None when it is absent or unreadable) and its
   * `_commit` entry is present and truthy.
   */
  function FetchCopierInfo(answers: Option<map<string, AnswerValue>>): (info: Option<CopierInfo>)
    ensures info.Some? <==> answers.Some? && "_commit" in answers.value && Truthy(answers.value["_commit"])
    ensures info.Some? ==> info.value.commit == answers.value["_commit"]
    ensures info.Some? ==> info.value.srcPath == (if "_src_path" in answers.value then Some(answers.value["_src_path"]) else None)
  {
    match answers
    case None => None
    case Some(a) =>
      if "_commit" in a && Truthy(a["_commit"]) then
        Some(CopierInfo(a["_commit"], if "_src_path" in a then Some(a["_src_path"]) else None))
      else None
  }

  datatype TemplateStatus = TemplateStatus(commit: string, commitsBehind: Option<nat>)

  /**
   * What the API gives for one repository, already decoded; None marks a
   * failed or absent lookup. `releaseDaysOld` is the age of the release in
   * whole days, read only when there is a release.
   */
  datatype RepoData = RepoData(
    name: string,
    url: string,
    release: Option<Release>,
    releaseDaysOld: int,
    runs: RunSource,
    pyproject: Option<seq<KozaVersion.Dependency>>,
    answers: Option<map<string, AnswerValue>>)

  datatype IngestRecord = IngestRecord(
    name: string,
    repoUrl: string,
    status: Status,
    lastRelease: Option<Release>,
    lastWorkflowRun: Option<Run>,
    kozaVersion: Option<string>,
    templateStatus: Option<TemplateStatus>)

  /** The whole number of days since the latest release was published; None without a release. */
  function DaysOld(repo: RepoData): Option<int> {
    if repo.release.None? then None else Some(repo.releaseDaysOld)
  }

  function Conclusion(run: Option<Run>): Option<string> {
    match run
    case None => None
    case Some(r) => r.conclusion
  }

  /**
   * The record for one repository, or None when assembling it raises: a
   * truthy `_commit` that is not a string, compared against a non-empty
   * template history with `startswith`, raises a TypeError.
   */
  function IngestRecordOf(repo: RepoData, history: seq<string>): Option<IngestRecord> {
    var run := LatestRun(repo.runs);
    var status := CalculateStatus(DaysOld(repo), Conclusion(run));
    var info := FetchCopierInfo(repo.answers);
    var record := IngestRecord(repo.name, repo.url, status, repo.release, run, KozaVersion.KozaMarker(repo.pyproject), None);
    if info.None? || history == [] then Some(record)
    else match info.value.commit
      case NonText(_) => None
      case Str(commit) =>
        Some(record.(templateStatus := Some(TemplateStatus(commit, Scan.FirstIndex(history, Drift.StartsWithCommit(commit))))))
  }

  method FetchIngestData(repo: RepoData, history: seq<string>) returns (record: Option<IngestRecord>)
    ensures record == IngestRecordOf(repo, history)
  {
    var run := FetchLatestWorkflowRun(repo.runs);
    var koza := KozaVersion.FetchKozaVersion(repo.pyproject);
    var info := FetchCopierInfo(repo.answers);
    var status := CalculateStatus(DaysOld(repo), Conclusion(run));
    var templateStatus: Option<TemplateStatus> := None;
    if info.Some? && history != [] {
      if info.value.commit.NonText? {
        return None;
      }
      var behind := Drift.CalculateCommitsBehind(info.value.commit.text, history);
      templateStatus := Some(TemplateStatus(info.value.commit.text, behind));
    }
    record := Some(IngestRecord(repo.name, repo.url, status, repo.release, run, koza, templateStatus));
  }

  /** Assembly raises exactly for a truthy non-string `_commit` checked against a non-empty history. */
  lemma RaisesOnlyOnNonTextCommit(repo: RepoData, history: seq<string>)
    ensures IngestRecordOf(repo, history).None? <==>
      history != [] && repo.answers.Some? && "_commit" in repo.answers.value
      && repo.answers.value["_commit"].NonText? && repo.answers.value["_commit"].truthy
  {
  }

  /** The status is recomputed from the raw signals: a missing run or a missing release gives Failed. */
  lemma MissingSignalMeansFailed(repo: RepoData, history: seq<string>)
    requires IngestRecordOf(repo, history).Some?
    requires LatestRun(repo.runs).None? || repo.release.None?
    ensures IngestRecordOf(repo, history).value.status == Failed
  {
  }

  /** A finished successful run and a release at most 45 days old give Healthy; an older one Stale. */
  lemma SuccessfulRunUsesReleaseAge(repo: RepoData, history: seq<string>)
    requires IngestRecordOf(repo, history).Some?
    requires LatestRun(repo.runs).Some? && LatestRun(repo.runs).value.conclusion == Some("success")
    requires repo.release.Some?
    ensures IngestRecordOf(repo, history).value.status ==
      if repo.releaseDaysOld <= StalenessThresholdDays then Healthy else Stale
  {
  }

  /**
   * The template status is present exactly when copier info exists and the
   * history is non-empty; it then holds the recorded commit and the index of
   * the first history entry starting with it.
   */
  lemma TemplateStatusPresence(repo: RepoData, history: seq<string>)
    requires IngestRecordOf(repo, history).Some?
    ensures IngestRecordOf(repo, history).value.templateStatus.Some? <==>
      FetchCopierInfo(repo.answers).Some? && history != []
    ensures IngestRecordOf(repo, history).value.templateStatus.Some? ==>
      var ts := IngestRecordOf(repo, history).value.templateStatus.value;
      FetchCopierInfo(repo.answers).value.commit == Str(ts.commit)
      && ts.commitsBehind == Scan.FirstIndex(history, Drift.StartsWithCommit(ts.commit))
      && (ts.commitsBehind.Some? ==> ts.commitsBehind.value < |history| && Text.IsPrefix(ts.commit, history[ts.commitsBehind.value]))
      && (ts.commitsBehind.Some? ==> forall j :: 0 <= j < ts.commitsBehind.value ==> !Text.IsPrefix(ts.commit, history[j]))
      && (ts.commitsBehind.None? <==> forall i :: 0 <= i < |history| ==> !Text.IsPrefix(ts.commit, history[i]))
  {
    var info := FetchCopierInfo(repo.answers);
    if info.Some? && history != [] {
      var commit := info.value.commit.text;
      var found := Scan.FirstIndex(history, Drift.StartsWithCommit(commit));
      if found.None? {
        forall i | 0 <= i < |history|
          ensures !Text.IsPrefix(commit, history[i])
        {
          assert !Drift.StartsWithCommit(commit)(history[i]);
        }
      } else {
        assert Drift.StartsWithCommit(commit)(history[found.value]);
        forall j | 0 <= j < found.value
          ensures !Text.IsPrefix(commit, history[j])
        {
          assert !Drift.StartsWithCommit(commit)(history[j]);
        }
      }
    }
  }

  /**
   * Everything else in the record is passed through from the repository's data
   * unchanged, and the status is the classifier's verdict on the chosen run's
   * conclusion and the release's age.
   */
  lemma RecordPassesThrough(repo: RepoData, history: seq<string>)
    requires IngestRecordOf(repo, history).Some?
    ensures var r := IngestRecordOf(repo, history).value;
      r.name == repo.name && r.repoUrl == repo.url && r.lastRelease == repo.release
      && r.lastWorkflowRun == LatestRun(repo.runs) && r.kozaVersion == KozaVersion.KozaMarker(repo.pyproject)
      && r.status == CalculateStatus(DaysOld(repo), Conclusion(LatestRun(repo.runs)))
  {
  }

  /** A run that did not conclude with "success", a failure or one still going, gives Failed whatever the release. */
  lemma UnsuccessfulRunMeansFailed(repo: RepoData, history: seq<string>)
    requires IngestRecordOf(repo, history).Some?
    requires LatestRun(repo.runs).Some? && LatestRun(repo.runs).value.conclusion != Some("success")
    ensures IngestRecordOf(repo, history).value.status == Failed
  {
  }
}
