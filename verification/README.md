# KozaHub dashboard data: a verified model of its decision logic

KozaHub publishes a dashboard of the Monarch Initiative's Koza ingest
repositories. The script `scripts/fetch_dashboard_data.py` asks GitHub about
every repository with the `kozahub-ingest` topic and writes one JSON document
describing them all. This project models the logic that turns the answers
into that document, and proves what the logic promises. The GitHub answers
become plain input data, and a failed lookup becomes an absent (`None`) value.

- **Health classifier** (`health.dfy`, module `Health`). A repository is
  `Healthy`, `Stale` or `Failed`, decided by its last CI conclusion and the
  age of its latest release in whole days. The threshold is 45 days, inclusive.
- **Template drift** (`drift.dfy`, module `Drift`). The copier template's
  history is a list of full SHAs, newest first. The recorded commit may be
  abbreviated. The result is the index of the first SHA that starts with the
  recorded commit, or none.
- **Koza version marker** (`koza_version.dfy`, module `KozaVersion`, with
  `release_version.dfy`, module `ReleaseVersion`). This part has three steps:
  - Pick the first string dependency whose stripped text starts with `koza`.
  - Run a dedicated scanner for the one pattern `koza\s*([><=!~]+)\s*([0-9.]+)`.
    It returns the leftmost match, and at that position the greedy one.
  - Parse the digit/dot version as a release segment and compare it with
    2.0.0, padding the shorter segment with zeros.
- **Workflow-run selection** (`workflows.dfy`, module `Workflows`). The newest
  run of the first workflow whose lower-cased name contains `release` is used.
  Otherwise the repository's newest run of any workflow is used.
- **Record assembly** (`ingest.dfy`, module `Ingest`). The copier-answers
  check and the record for one repository. The status is recomputed from the
  raw signals.
- **Report building** (`report.dfy`, module `Report`). Every repository is
  processed, and those whose processing raises are dropped. The records are
  stable-sorted by name. The template metadata is derived and the statuses
  are counted.

The remaining modules hold shared pieces:
- `scan.dfy` (`Scan`) is the first index satisfying a predicate. It is the
  specification of the three loops that stop at the first hit.
- `text.dfy` (`Text`) holds prefixes, substrings, Python's `strip` and
  whitespace set, and lower-casing.
- `wrappers.dfy` holds `Option`.

Loops in the script are methods with loop invariants, each proved equal to a
specification function:
- the `enumerate` loop with early return;
- the two loops that assign a variable and `break`;
- the `try`/`append` loop of `main`.

Conditionals and expressions are functions. The properties are lemmas about
those functions.

The script's code and its docstring disagree about the threshold. The
docstring of `calculate_status` says a release younger than 45 days is
healthy. The code tests `days_old <= 45`. The model follows the code, so a
release exactly 45 days old is healthy (`Health.ThresholdIsInclusive`).

## Model

| member | source | states |
|---|---|---|
| Health.CalculateStatus | scripts/fetch_dashboard_data.py:32-53 | Failed iff the conclusion is not exactly "success" or there is no release. Healthy iff the conclusion is "success" and the release is at most 45 days old. Stale iff the conclusion is "success" and the release is more than 45 days old. |
| Health.NonSuccessAlwaysFailed | scripts/fetch_dashboard_data.py:42-43 | Any conclusion other than "success", None included, gives Failed whatever the release age. |
| Health.ThresholdIsInclusive | scripts/fetch_dashboard_data.py:45-53 | With "success": 45 days is Healthy, 46 days is Stale, and no release is Failed. |
| Health.StatusNeverImprovesWithAge | scripts/fetch_dashboard_data.py:42-53 | An older release never gives a better status, and age never changes whether the status is Failed. |
| Scan.FirstIndex | scripts/fetch_dashboard_data.py:245-248 | The result satisfies the predicate with no earlier element satisfying it. It is None iff no element does. |
| Scan.FirstIndexUnique | scripts/fetch_dashboard_data.py:245-248 | An index that satisfies the predicate, with none before it, is the first index. |
| Drift.CalculateCommitsBehind | scripts/fetch_dashboard_data.py:235-248 | Returns the index of the first SHA starting with the commit, and no earlier SHA starts with it. Returns None iff no SHA does. Equals `Scan.FirstIndex`. |
| Drift.EmptyHistoryNotFound | scripts/fetch_dashboard_data.py:245-248 | An empty history gives None, never 0. |
| Drift.SecondCommitIsOneBehind | scripts/fetch_dashboard_data.py:245-248 | A commit abbreviating the second SHA but not the first is one commit behind. |
| Drift.AbbreviationNeverFurtherBehind | scripts/fetch_dashboard_data.py:245-248 | When the full commit is found, any prefix of it is also found, at the same index or a newer one. |
| Text.IsPrefix | scripts/fetch_dashboard_data.py:246 | `s.startswith(pre)` holds iff `pre` is no longer than `s` and agrees with it character by character. |
| Text.Contains | scripts/fetch_dashboard_data.py:102 | `sub in s` holds iff `sub` occurs in `s` at some position. |
| Text.OccursShift | scripts/fetch_dashboard_data.py:102 | When `sub` is not at the start, its occurrences in `s` are those in `s[1..]`, one position later. |
| Text.Strip | scripts/fetch_dashboard_data.py:157 | `strip()` gives a contiguous part of the text with only whitespace before and after it, and the part neither starts nor ends with whitespace. |
| Text.LStrip | scripts/fetch_dashboard_data.py:157 | Removes exactly the leading whitespace, in Python's whitespace set. |
| Text.RStrip | scripts/fetch_dashboard_data.py:157 | Removes exactly the trailing whitespace. |
| Text.StripKeepsPrefix | scripts/fetch_dashboard_data.py:157 | For a prefix ending in a non-space, such as `koza`, `strip().startswith` agrees with testing after the leading whitespace only. |
| Text.Lower | scripts/fetch_dashboard_data.py:102 | Same length, and each character is lowered on its own. |
| KozaVersion.FindKozaDependency | scripts/fetch_dashboard_data.py:155-159 | Returns a string entry of the list whose stripped text starts with `koza`, and it is the first such entry. Returns None iff no entry qualifies. |
| KozaVersion.NonTextEntriesSkipped | scripts/fetch_dashboard_data.py:157 | An entry that is not a string never stops the scan. |
| KozaVersion.FirstKozaEntryDecides | scripts/fetch_dashboard_data.py:156-159 | The first qualifying entry is chosen whatever follows it. |
| KozaVersion.RunLength | scripts/fetch_dashboard_data.py:166 | The run of one character class starting at a position is all in the class and cannot be extended. |
| KozaVersion.MatchAt | scripts/fetch_dashboard_data.py:166 | A match found at a position is a match of the pattern there, with a version group that cannot be extended. |
| KozaVersion.RunLengthExact | scripts/fetch_dashboard_data.py:166 | A maximal run of a class is the run the scanner measures. |
| KozaVersion.RunLengthAtLeast | scripts/fetch_dashboard_data.py:166 | Any run of a class is no longer than the measured run. |
| KozaVersion.MatchAtIsGreedy | scripts/fetch_dashboard_data.py:166 | If the pattern matches at a position at all, the scanner finds a match there. Its groups start where any match's do, and its version group is at least as long. |
| KozaVersion.LeadingSpaceFixed | scripts/fetch_dashboard_data.py:166 | In any match, the whitespace after `koza` is the whole whitespace run. |
| KozaVersion.OperatorFixed | scripts/fetch_dashboard_data.py:166 | In any match, the operator group is the whole run of operator characters. |
| KozaVersion.InnerSpaceFixed | scripts/fetch_dashboard_data.py:166 | In any match, the whitespace after the operator is the whole whitespace run. |
| KozaVersion.ClassesDisjoint | scripts/fetch_dashboard_data.py:166 | No character is in two of the pattern's classes: whitespace, `[><=!~]` and `[0-9.]`. |
| KozaVersion.SearchFrom | scripts/fetch_dashboard_data.py:166 | A result is the scanner's match at a position at or after the start. |
| KozaVersion.SearchFromReaches | scripts/fetch_dashboard_data.py:166 | If a match exists at or after the start, the search finds one at or before it. |
| KozaVersion.Search | scripts/fetch_dashboard_data.py:166 | A found match is a match of the pattern, and it is the scanner's match at its start position. |
| KozaVersion.SearchIsLeftmostLongest | scripts/fetch_dashboard_data.py:166-168 | The search is None iff the pattern matches nowhere. Otherwise it is a match, no match starts earlier, and every match at the same position has the same groups or a shorter version group. |
| KozaVersion.SearchFindsWrittenConstraint | scripts/fetch_dashboard_data.py:166-170 | For `koza<op><version><rest>` with `rest` not starting with a digit or dot, the groups are exactly `<op>` and `<version>`. |
| KozaVersion.WrittenConstraintMatches | scripts/fetch_dashboard_data.py:166 | Such a text matches at position 0 with those groups. |
| KozaVersion.ClassifyDependency | scripts/fetch_dashboard_data.py:161-185 | The only marker ever returned is "2". |
| KozaVersion.ClassifyIsMajorAtLeastTwo | scripts/fetch_dashboard_data.py:166-185 | Gives "2" iff the pattern matches, the version parses, and its first component is at least 2. |
| KozaVersion.OperatorIsIgnored | scripts/fetch_dashboard_data.py:170-182 | Two constraints that differ only in their operator get the same marker. This holds whatever follows the version, provided it does not start with a digit or a dot, as in `koza>=2.0,<3` against `koza~=2.0,<3`. |
| KozaVersion.ClassifyWrittenRelease | scripts/fetch_dashboard_data.py:166-182 | For `koza<op>` followed by a rendered release, the marker is "2" iff the release's first component is at least 2. So "2" and "2.0.0" give "2", and "1.9.0" gives none. |
| KozaVersion.ClassifyMalformedVersion | scripts/fetch_dashboard_data.py:173-185 | A version with an empty component gives no marker, never an error. Examples are `2.`, `.2` and `2..0`. |
| KozaVersion.NoVersionCharsNoMatch | scripts/fetch_dashboard_data.py:166-168 | A dependency with no digit or dot never matches and gives no marker. |
| KozaVersion.KozaMarker | scripts/fetch_dashboard_data.py:152-185 | The only marker is "2". A failed lookup gives None, and so does a list without any Koza dependency. |
| KozaVersion.FetchKozaVersion | scripts/fetch_dashboard_data.py:140-185 | Equals the marker of the first Koza dependency, and that marker is "2" when present. A failed lookup gives None. |
| ReleaseVersion.Numeral | scripts/fetch_dashboard_data.py:174 | The decimal rendering of a number is a non-empty digit string. |
| ReleaseVersion.NumeralRoundTrip | scripts/fetch_dashboard_data.py:174 | Parsing the decimal rendering of a number gives the number back. |
| ReleaseVersion.SplitDots | scripts/fetch_dashboard_data.py:174 | Splitting at dots gives at least one part, and no part contains a dot. |
| ReleaseVersion.SplitDotlessPrefix | scripts/fetch_dashboard_data.py:174 | Text without a dot joins the first part of what follows it. |
| ReleaseVersion.SplitJoin | scripts/fetch_dashboard_data.py:174 | Splitting dot-joined dotless parts gives the parts back. |
| ReleaseVersion.ParseRelease | scripts/fetch_dashboard_data.py:174 | Succeeds iff every dot-separated part is a non-empty digit string. There is one component per part, and each component is the decimal value of its part. |
| ReleaseVersion.ParseAcceptsWellDotted | scripts/fetch_dashboard_data.py:174-185 | On digit/dot text, parsing succeeds iff the text is non-empty, does not start or end with a dot, and has no two dots in a row. |
| ReleaseVersion.AllNumeralsCons | scripts/fetch_dashboard_data.py:174 | A part list is all numerals iff its head is one and its tail is all numerals. |
| ReleaseVersion.DigitsOrDotsParts | scripts/fetch_dashboard_data.py:174 | The parts of digit/dot text are digit strings. |
| ReleaseVersion.JoinedNumeralsChars | scripts/fetch_dashboard_data.py:174 | Dot-joined numerals are non-empty digit/dot text. |
| ReleaseVersion.RenderReleaseChars | scripts/fetch_dashboard_data.py:174 | A rendered release is non-empty digit/dot text. |
| ReleaseVersion.LeadingZeroIgnored | scripts/fetch_dashboard_data.py:174 | A leading zero does not change a component's value, so "02" is 2. |
| ReleaseVersion.NonZeroLeadIsPositive | scripts/fetch_dashboard_data.py:174 | A digit string that does not start with 0 has a positive value. |
| ReleaseVersion.ValueNumeralRoundTrip | scripts/fetch_dashboard_data.py:174 | A digit string without a superfluous leading zero is the decimal rendering of its own value. |
| ReleaseVersion.LeadingZeroRelease | scripts/fetch_dashboard_data.py:174 | "02.0" and "2.0" both parse to release 2.0. |
| ReleaseVersion.ParseRenderRoundTrip | scripts/fetch_dashboard_data.py:174 | Parsing a rendered release gives the release back. |
| ReleaseVersion.CompareRelease | scripts/fetch_dashboard_data.py:179 | The comparison gives -1, 0 or 1. Which one it gives is stated by `CompareReleaseOrder` and `CompareReleaseZeroMeansPaddedEqual`. |
| ReleaseVersion.CompareReleaseOrder | scripts/fetch_dashboard_data.py:179 | -1 iff the first release is lower at the first component where the zero-padded segments differ. 1 iff the second one is. |
| ReleaseVersion.CompareReleaseOlder | scripts/fetch_dashboard_data.py:179 | -1 iff the first release is lower at the first zero-padded component where they differ. |
| ReleaseVersion.CompareReleaseFlips | scripts/fetch_dashboard_data.py:179 | Swapping the operands negates the comparison. |
| ReleaseVersion.CompareReleaseZeroMeansPaddedEqual | scripts/fetch_dashboard_data.py:179 | Two releases compare equal iff they agree at every component after zero padding, so 2 equals 2.0.0. |
| ReleaseVersion.AtLeastTwoIsMajorAtLeastTwo | scripts/fetch_dashboard_data.py:175-182 | A release is at least 2.0.0 iff its first component is at least 2. |
| ReleaseVersion.NothingBelowZeros | scripts/fetch_dashboard_data.py:179 | No release compares below an all-zero release. |
| Workflows.FindReleaseWorkflow | scripts/fetch_dashboard_data.py:98-104 | Returns the first workflow whose lower-cased name contains "release". Returns None iff there is none. |
| Workflows.FetchLatestWorkflowRun | scripts/fetch_dashboard_data.py:96-132 | Equals the selection `LatestRun`, whose properties are the lemmas below. |
| Workflows.ReleaseWorkflowRunWins | scripts/fetch_dashboard_data.py:107-116 | When the first release workflow has runs, its newest run is reported, whatever the other runs are. |
| Workflows.FallbackToNewestRun | scripts/fetch_dashboard_data.py:118-129 | With no release workflow, or one without runs, the repository's newest run is reported. If there is no run at all, the result is None. |
| Workflows.ReportedRunIsNewest | scripts/fetch_dashboard_data.py:107-129 | A reported run is the newest run of a release workflow or the newest run of the repository. |
| Workflows.ReleaseNameIgnoresCase | scripts/fetch_dashboard_data.py:102 | A name containing "Release" qualifies. |
| Workflows.LowerRelease | scripts/fetch_dashboard_data.py:102 | "Release" lower-cases to "release". |
| Workflows.ContainsLowered | scripts/fetch_dashboard_data.py:102 | Lower-casing keeps a substring, lower-cased. |
| Ingest.FetchCopierInfo | scripts/fetch_dashboard_data.py:219-232 | Copier info exists iff the answers file was read and its `_commit` is present and truthy. It then carries that commit and `_src_path`, when present. |
| Ingest.FetchIngestData | scripts/fetch_dashboard_data.py:251-296 | Equals `IngestRecordOf`, whose properties are the lemmas below. The status is `CalculateStatus` of the release age and the chosen run's conclusion, so a run that did not succeed gives Failed. `commits_behind` is the first matching index of the history. |
| Ingest.RaisesOnlyOnNonTextCommit | scripts/fetch_dashboard_data.py:246 | Assembly raises exactly when a truthy non-string `_commit` meets a non-empty history. |
| Ingest.MissingSignalMeansFailed | scripts/fetch_dashboard_data.py:263-271 | A missing run or a missing release gives Failed. |
| Ingest.UnsuccessfulRunMeansFailed | scripts/fetch_dashboard_data.py:268-271 | A run whose conclusion is not "success" gives Failed. That covers "failure" and a run still going, whose conclusion is None. |
| Ingest.SuccessfulRunUsesReleaseAge | scripts/fetch_dashboard_data.py:263-271 | With a successful run and a release, the release age alone decides between Healthy and Stale. |
| Ingest.TemplateStatusPresence | scripts/fetch_dashboard_data.py:274-282 | A template status exists iff copier info exists and the history is non-empty. It then holds the recorded commit, and `commits_behind` is the drift calculator's result for it: the index of a SHA starting with the commit, with no earlier SHA doing so, or None iff no SHA does. |
| Ingest.RecordPassesThrough | scripts/fetch_dashboard_data.py:263-296 | Name, URL, release (tag, date and url), chosen run and Koza marker are carried into the record unchanged. The status is the classifier's verdict on the release age and the chosen run's conclusion. |
| Report.NameLe | scripts/fetch_dashboard_data.py:334 | Python's string order, compared one code point at a time. Its meaning is stated by `NameLeIsCodePointOrder`. |
| Report.NameLeIsCodePointOrder | scripts/fetch_dashboard_data.py:334 | `a <= b` iff `a` is a prefix of `b`, or `a` has the lower code point at their first difference. |
| Report.LowerAtShift | scripts/fetch_dashboard_data.py:334 | With equal first code points, the prefix and first-difference tests are those of the rests. |
| Report.NameLeReflexive | scripts/fetch_dashboard_data.py:334 | The name order is reflexive. |
| Report.NameLeTotal | scripts/fetch_dashboard_data.py:334 | Any two names are ordered one way or the other. |
| Report.NameLeAntisymmetric | scripts/fetch_dashboard_data.py:334 | Names ordered both ways are equal. |
| Report.NameLeTransitive | scripts/fetch_dashboard_data.py:334 | The name order is transitive. |
| Report.Insert | scripts/fetch_dashboard_data.py:334 | Inserting adds exactly the one record. |
| Report.SortByName | scripts/fetch_dashboard_data.py:334 | The sorted list is a permutation of its input. |
| Report.SortedTail | scripts/fetch_dashboard_data.py:334 | The tail of a sorted list is sorted. |
| Report.InsertSorted | scripts/fetch_dashboard_data.py:334 | Inserting into a sorted list keeps it sorted. |
| Report.SortByNameSorted | scripts/fetch_dashboard_data.py:334 | The result is in ascending name order. |
| Report.WithNameInsert | scripts/fetch_dashboard_data.py:334 | Insertion puts a record ahead of all records already present with the same name. |
| Report.SortByNameStable | scripts/fetch_dashboard_data.py:334 | For every name, the records with that name keep their original relative order. |
| Report.WithNameMember | scripts/fetch_dashboard_data.py:334 | The records selected by name are records of the list with that name. |
| Report.OwnNameListed | scripts/fetch_dashboard_data.py:334 | The first record is the first of those with its name. |
| Report.SortedStableUnique | scripts/fetch_dashboard_data.py:334 | Two sorted lists that agree, for every name, on the records with that name are equal. So any stable sort by name gives the same list. |
| Scan.Kept | scripts/fetch_dashboard_data.py:324-332 | The list the try/append loop builds never holds more results than there are inputs. |
| Scan.KeptAppend | scripts/fetch_dashboard_data.py:326-332 | Keeping distributes over concatenation. |
| Scan.KeptAll | scripts/fetch_dashboard_data.py:326-332 | Every input yields a kept result iff every result is present. |
| Scan.KeptMembers | scripts/fetch_dashboard_data.py:326-332 | A value is kept iff some input produced it. |
| Report.ProcessedDropsOnlyRaising | scripts/fetch_dashboard_data.py:326-332 | Every repository contributes a record iff no repository's assembly raises. |
| Report.ProcessedAppend | scripts/fetch_dashboard_data.py:326-332 | Processing is repository by repository: one repository's failure leaves the other records as they are. |
| Report.ProcessedMembers | scripts/fetch_dashboard_data.py:326-332 | A record is kept iff some repository's assembly produced it without raising. |
| Report.ShortSha | scripts/fetch_dashboard_data.py:342 | Gives the first seven characters, or the whole SHA when it is shorter. |
| Report.TemplateInfoOf | scripts/fetch_dashboard_data.py:337-344 | The template block is present iff the history is non-empty. It then holds the template URL, the short form of the newest SHA, and the history length. |
| Report.Count | scripts/fetch_dashboard_data.py:362-364 | A count is at most the number of records. It is 0 iff no record has the status, and it is the number of records iff all have it. Its exact value is fixed by `CountAppend`. |
| Report.CountAppend | scripts/fetch_dashboard_data.py:362-364 | The count of a concatenation is the sum of the counts. A single record counts 1 iff it has the status, else 0. So the count is the number of records with the status. |
| Report.CountsSum | scripts/fetch_dashboard_data.py:362-364 | The healthy, stale and failed counts sum to the number of records. |
| Report.BuildReport | scripts/fetch_dashboard_data.py:324-365 | The records are sorted by name. They are a permutation of the records of the repositories that did not raise, with each name's records in repository order. The template block and the counts are as above, and the counts sum to the number of records. |

## Left out

- GitHub calls are inputs: the repository search, the latest release, workflows and their runs, file contents and the template's commits. A lookup that fails with a GitHub error is an absent value, as the script's handlers make it.
- The second lookup of the template repository, made only for its page URL, is left out. When it fails, the exception is not caught and the whole run stops. The model takes the URL as an input.
- base64, UTF-8, TOML and YAML decoding are inputs. The dependency list and the answers mapping arrive already parsed. An answers file that is missing, unreadable or not a mapping is the absent value.
- Values that are not strings are reduced to what the code uses. A dependency entry that is not a string is only skipped. A `_commit` value that is not a string keeps only its truthiness.
- A `dependencies` value that is a table rather than a list is left out. Iterating it would visit its keys.
- The clock is left out. The release age in whole days is an input (`RepoData.releaseDaysOld`, read only when there is a release), standing for `(now - published).days`. Dates are kept as text. `isoformat` and `fromisoformat` are not modelled.
- Reading `GITHUB_TOKEN`, authentication, creating the output directory, writing the JSON file and every printed message are left out.
- Exceptions that are not GitHub errors, such as a workflow with no name, are left out. The only raising path modelled is the `startswith` TypeError.
- Text.Lower: lowers ASCII letters only. That is exact for the "release" test, because no other character lowers to one of its letters.
- The pattern `koza\s*([><=!~]+)\s*([0-9.]+)` gets a dedicated scanner, not a general regular-expression engine.
- PEP 440 parsing covers only the digit/dot text this pattern can capture. Such text is valid iff its release-segment components are non-empty.
- KozaVersion.ClassifyDependency: its own contract says only that the marker is "2". The exact condition is stated by `ClassifyIsMajorAtLeastTwo` beside it.
- Report.SortByName: `list.sort` works in place on the list. The model sorts a value. `SortedStableUnique` shows that the result is the one any stable sort by name gives.
