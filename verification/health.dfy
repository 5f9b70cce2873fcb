/**
 * The health classifier: a repository's release age and its last CI conclusion
 * give one of three dashboard statuses.
 */
module Health {
  import opened Wrappers

  datatype Status = Healthy | Stale | Failed

  /** Releases at most this many whole days old are healthy. */
  const StalenessThresholdDays: int := 45

  /**
   * `daysOld` is the age in whole days of the latest release (None when there is
   * no release); `conclusion` is the conclusion of the latest CI run (None when
   * there is no run or the run has not concluded). A failed or missing CI run,
   * or a missing release, is `Failed` whatever else holds; otherwise the release
   * age alone decides between `Healthy` and `Stale`.
   */
  function CalculateStatus(daysOld: Option<int>, conclusion: Option<string>): (s: Status)
    ensures s == Failed <==> conclusion != Some("success") || daysOld.None?
    ensures s == Healthy <==> conclusion == Some("success") && daysOld.Some? && daysOld.value <= StalenessThresholdDays
    ensures s == Stale <==> conclusion == Some("success") && daysOld.Some? && daysOld.value > StalenessThresholdDays
  {
    if conclusion != Some("success") then Failed
    else if daysOld.None? then Failed
    else if daysOld.value <= StalenessThresholdDays then Healthy
    else Stale
  }

  /** How good a status is: Healthy > Stale > Failed. */
  function Rank(s: Status): nat {
    match s
    case Failed => 0
    case Stale => 1
    case Healthy => 2
  }

  /** A conclusion other than exactly "success" is failed whatever the release age. */
  lemma NonSuccessAlwaysFailed(d1: Option<int>, d2: Option<int>, conclusion: Option<string>)
    requires conclusion != Some("success")
    ensures CalculateStatus(d1, conclusion) == Failed
    ensures CalculateStatus(d1, conclusion) == CalculateStatus(d2, conclusion)
  {
  }

  /** The threshold is inclusive: 45 days old is healthy, 46 is stale. */
  lemma ThresholdIsInclusive()
    ensures CalculateStatus(Some(45), Some("success")) == Healthy
    ensures CalculateStatus(Some(46), Some("success")) == Stale
    ensures CalculateStatus(None, Some("success")) == Failed
  {
  }

  /** An older release never gives a better status: age can only move healthy to stale, never touch failed. */
  lemma StatusNeverImprovesWithAge(d1: int, d2: int, conclusion: Option<string>)
    requires d1 <= d2
    ensures Rank(CalculateStatus(Some(d2), conclusion)) <= Rank(CalculateStatus(Some(d1), conclusion))
    ensures CalculateStatus(Some(d2), conclusion) == Failed <==> CalculateStatus(Some(d1), conclusion) == Failed
  {
  }
}
