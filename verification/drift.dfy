/**
 * The template drift calculator: how many commits the template repository has
 * gained since the commit an ingest was last generated or updated from.
 */
module Drift {
  import opened Wrappers
  import opened Text
  import Scan

  /** The test the scan applies to each full SHA: does it start with the recorded (possibly abbreviated) commit? */
  function StartsWithCommit(commit: string): string -> bool {
    sha => IsPrefix(commit, sha)
  }

  /**
   * `history` holds the template's full commit SHAs, newest first. The result is
   * the index of the first SHA that starts with `commit` (0 = up to date), or
   * None when no SHA does, which is different from 0.
   */
  method CalculateCommitsBehind(commit: string, history: seq<string>) returns (behind: Option<nat>)
    ensures behind == Scan.FirstIndex(history, StartsWithCommit(commit))
    ensures behind.Some? ==> behind.value < |history| && IsPrefix(commit, history[behind.value])
    ensures behind.Some? ==> forall j :: 0 <= j < behind.value ==> !IsPrefix(commit, history[j])
    ensures behind.None? <==> forall j :: 0 <= j < |history| ==> !IsPrefix(commit, history[j])
  {
    for i := 0 to |history|
      invariant forall j :: 0 <= j < i ==> !IsPrefix(commit, history[j])
    {
      if IsPrefix(commit, history[i]) {
        Scan.FirstIndexUnique(history, StartsWithCommit(commit), i);
        return Some(i);
      }
    }
    return None;
  }

  /** An empty history never gives a distance, not even 0. */
  lemma EmptyHistoryNotFound(commit: string)
    ensures Scan.FirstIndex([], StartsWithCommit(commit)) == None
  {
  }

  /** Newest-first history [a, b, c] with a commit that abbreviates b but not a is one commit behind. */
  lemma SecondCommitIsOneBehind(commit: string, a: string, b: string, c: string)
    requires !IsPrefix(commit, a) && IsPrefix(commit, b)
    ensures Scan.FirstIndex([a, b, c], StartsWithCommit(commit)) == Some(1)
  {
    Scan.FirstIndexUnique([a, b, c], StartsWithCommit(commit), 1);
  }

  /**
   * Abbreviating a commit never makes an ingest look further behind: whenever
   * the longer form is found, the shorter one is found at the same index or a
   * newer one (it may match a newer SHA that shares the prefix).
   */
  lemma {:induction false} AbbreviationNeverFurtherBehind(short: string, full: string, history: seq<string>)
    requires IsPrefix(short, full)
    requires Scan.FirstIndex(history, StartsWithCommit(full)).Some?
    ensures Scan.FirstIndex(history, StartsWithCommit(short)).Some?
    ensures Scan.FirstIndex(history, StartsWithCommit(short)).value <= Scan.FirstIndex(history, StartsWithCommit(full)).value
  {
    var i := Scan.FirstIndex(history, StartsWithCommit(full)).value;
    PrefixTransitive(short, full, history[i]);
    assert StartsWithCommit(short)(history[i]);
  }
}
