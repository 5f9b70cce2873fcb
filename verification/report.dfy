/**
 * Report building: process every repository, keep the records whose assembly
 * did not raise, sort them by name, derive the template metadata and count
 * the statuses.
 */
module Report {
  import opened Wrappers
  import opened Health
  import opened Ingest
  import Text

  // ---------------------------------------------------------------------------
  // Name order: Python compares strings by code point, lexicographically, and
  // a proper prefix comes first.

  /** `a` and `b` agree before position `k`, and at `k` the code point of `a` is the lower one. */
  predicate LowerAt(a: string, b: string, k: nat) {
    k < |a| && k < |b| && a[k] < b[k] && forall j :: 0 <= j < k ==> a[j] == b[j]
  }

  /** `a <= b` on Python strings, one code point at a time. */
  predicate NameLe(a: string, b: string)
  {
    a == [] || (b != [] && (a[0] < b[0] || (a[0] == b[0] && NameLe(a[1..], b[1..]))))
  }

  /** The name order is Python's: `a` is a prefix of `b`, or is lower at their first difference. */
  lemma {:induction false} NameLeIsCodePointOrder(a: string, b: string)
    ensures NameLe(a, b) <==> Text.IsPrefix(a, b) || exists k: nat :: LowerAt(a, b, k)
  {
    if a == [] {
    } else if b == [] {
    } else if a[0] < b[0] {
      assert LowerAt(a, b, 0);
    } else if a[0] > b[0] {
      assert !Text.IsPrefix(a, b);
      forall k: nat
        ensures !LowerAt(a, b, k)
      {
        if k > 0 {
          assert a[0] != b[0];
        }
      }
    } else {
      LowerAtShift(a, b);
      NameLeIsCodePointOrder(a[1..], b[1..]);
    }
  }

  /** With equal first code points, the comparison is that of the rests. */
  lemma LowerAtShift(a: string, b: string)
    requires a != [] && b != [] && a[0] == b[0]
    ensures Text.IsPrefix(a[1..], b[1..]) <==> Text.IsPrefix(a, b)
    ensures (exists k: nat :: LowerAt(a[1..], b[1..], k)) <==> (exists k: nat :: LowerAt(a, b, k))
  {
    if exists k: nat :: LowerAt(a[1..], b[1..], k) {
      var k: nat :| LowerAt(a[1..], b[1..], k);
      assert LowerAt(a, b, k + 1);
    }
    if exists k: nat :: LowerAt(a, b, k) {
      var k: nat :| LowerAt(a, b, k);
      assert k != 0;
      assert LowerAt(a[1..], b[1..], k - 1);
    }
  }

  lemma {:induction false} NameLeReflexive(a: string)
    ensures NameLe(a, a)
  {
    if a != [] {
      NameLeReflexive(a[1..]);
    }
  }

  lemma {:induction false} NameLeTotal(a: string, b: string)
    ensures NameLe(a, b) || NameLe(b, a)
  {
    if a != [] && b != [] && a[0] == b[0] {
      NameLeTotal(a[1..], b[1..]);
    }
  }

  lemma {:induction false} NameLeAntisymmetric(a: string, b: string)
    requires NameLe(a, b) && NameLe(b, a)
    ensures a == b
  {
    if a != [] && b != [] {
      NameLeAntisymmetric(a[1..], b[1..]);
      assert a == [a[0]] + a[1..];
      assert b == [b[0]] + b[1..];
    }
  }

  lemma {:induction false} NameLeTransitive(a: string, b: string, c: string)
    requires NameLe(a, b) && NameLe(b, c)
    ensures NameLe(a, c)
  {
    if a != [] && b != [] && c != [] && a[0] == b[0] && b[0] == c[0] {
      NameLeTransitive(a[1..], b[1..], c[1..]);
    }
  }

  // ---------------------------------------------------------------------------
  // The stable sort `ingests_data.sort(key=lambda x: x["name"])`.

  predicate SortedByName(s: seq<IngestRecord>) {
    forall i, j :: 0 <= i < j < |s| ==> NameLe(s[i].name, s[j].name)
  }

  /** The records of `s` with name `n`, in their order in `s`. */
  function WithName(s: seq<IngestRecord>, n: string): seq<IngestRecord> {
    if s == [] then []
    else if s[0].name == n then [s[0]] + WithName(s[1..], n)
    else WithName(s[1..], n)
  }

  /** Places `x` before the first record whose name is not below its own. */
  function Insert(x: IngestRecord, s: seq<IngestRecord>): (r: seq<IngestRecord>)
    ensures multiset(r) == multiset(s) + multiset{x}
  {
    if s == [] then [x]
    else if NameLe(x.name, s[0].name) then [x] + s
    else
      assert s == [s[0]] + s[1..];
      [s[0]] + Insert(x, s[1..])
  }

  /** Sorting by name, keeping records with equal names in their original order. */
  function SortByName(s: seq<IngestRecord>): (r: seq<IngestRecord>)
    ensures multiset(r) == multiset(s)
  {
    if s == [] then []
    else
      assert s == [s[0]] + s[1..];
      Insert(s[0], SortByName(s[1..]))
  }

  lemma SortedTail(s: seq<IngestRecord>)
    requires SortedByName(s) && s != []
    ensures SortedByName(s[1..])
  {
    forall i, j | 0 <= i < j < |s| - 1
      ensures NameLe(s[1..][i].name, s[1..][j].name)
    {
      assert s[1..][i] == s[i + 1] && s[1..][j] == s[j + 1];
    }
  }

  lemma {:induction false} InsertSorted(x: IngestRecord, s: seq<IngestRecord>)
    requires SortedByName(s)
    ensures SortedByName(Insert(x, s))
  {
    if s == [] {
    } else if NameLe(x.name, s[0].name) {
      forall j | 0 <= j < |s|
        ensures NameLe(x.name, s[j].name)
      {
        if j > 0 {
          NameLeTransitive(x.name, s[0].name, s[j].name);
        }
      }
    } else {
      NameLeTotal(x.name, s[0].name);
      SortedTail(s);
      InsertSorted(x, s[1..]);
      var rest := Insert(x, s[1..]);
      forall k | 0 <= k < |rest|
        ensures NameLe(s[0].name, rest[k].name)
      {
        assert rest[k] in multiset(rest);
        if rest[k] != x {
          assert rest[k] in multiset(s[1..]);
          var m :| 0 <= m < |s[1..]| && s[1..][m] == rest[k];
          assert s[m + 1] == rest[k];
        }
      }
    }
  }

  lemma {:induction false} SortByNameSorted(s: seq<IngestRecord>)
    ensures SortedByName(SortByName(s))
  {
    if s != [] {
      SortByNameSorted(s[1..]);
      InsertSorted(s[0], SortByName(s[1..]));
    }
  }

  lemma {:induction false} WithNameInsert(x: IngestRecord, s: seq<IngestRecord>, n: string)
    ensures WithName(Insert(x, s), n) == if x.name == n then [x] + WithName(s, n) else WithName(s, n)
  {
    if s == [] {
      assert WithName([x], n) == (if x.name == n then [x] else []);
    } else if NameLe(x.name, s[0].name) {
      assert ([x] + s)[1..] == s;
    } else {
      NameLeReflexive(x.name);
      WithNameInsert(x, s[1..], n);
      assert ([s[0]] + Insert(x, s[1..]))[1..] == Insert(x, s[1..]);
    }
  }

  /** Stability: for every name, the records with that name keep their relative order. */
  lemma {:induction false} SortByNameStable(s: seq<IngestRecord>, n: string)
    ensures WithName(SortByName(s), n) == WithName(s, n)
  {
    if s != [] {
      SortByNameStable(s[1..], n);
      WithNameInsert(s[0], SortByName(s[1..]), n);
    }
  }

  lemma {:induction false} WithNameMember(s: seq<IngestRecord>, n: string, y: IngestRecord)
    requires y in WithName(s, n)
    ensures y in s && y.name == n
  {
    if s != [] && !(s[0].name == n && y == s[0]) {
      if s[0].name == n {
        assert y in WithName(s[1..], n);
      }
      WithNameMember(s[1..], n, y);
    }
  }

  lemma OwnNameListed(s: seq<IngestRecord>)
    requires s != []
    ensures WithName(s, s[0].name) == [s[0]] + WithName(s[1..], s[0].name)
  {
  }

  /**
   * A sorted arrangement that keeps every name's records in order is unique,
   * so any stable sort by name, Python's included, yields `SortByName(s)`.
   */
  lemma {:induction false} SortedStableUnique(a: seq<IngestRecord>, b: seq<IngestRecord>)
    requires SortedByName(a) && SortedByName(b)
    requires forall n :: WithName(a, n) == WithName(b, n)
    ensures a == b
    decreases |a| + |b|
  {
    if a == [] {
      forall n
        ensures WithName(b, n) == []
      {
        assert WithName(a, n) == [];
      }
      if b != [] {
        OwnNameListed(b);
      }
    } else if b == [] {
      forall n
        ensures WithName(a, n) == []
      {
        assert WithName(b, n) == [];
      }
      if a != [] {
        OwnNameListed(a);
      }
    } else {
      var n := a[0].name;
      assert a[0] in WithName(b, n);
      WithNameMember(b, n, a[0]);
      var ib :| 0 <= ib < |b| && b[ib] == a[0];
      assert NameLe(b[0].name, n) by {
        if ib > 0 {
          assert NameLe(b[0].name, b[ib].name);
        } else {
          NameLeReflexive(n);
        }
      }
      assert b[0] in WithName(a, b[0].name);
      WithNameMember(a, b[0].name, b[0]);
      var ia :| 0 <= ia < |a| && a[ia] == b[0];
      assert NameLe(n, b[0].name) by {
        if ia > 0 {
          assert NameLe(a[0].name, a[ia].name);
        } else {
          NameLeReflexive(n);
        }
      }
      NameLeAntisymmetric(n, b[0].name);
      assert WithName(a, n) == [a[0]] + WithName(a[1..], n);
      assert WithName(b, n) == [b[0]] + WithName(b[1..], n);
      assert a[0] == WithName(a, n)[0] == WithName(b, n)[0] == b[0];
      forall m
        ensures WithName(a[1..], m) == WithName(b[1..], m)
      {
        assert WithName(a, m) == WithName(b, m);
        if m == n {
          assert WithName(a[1..], m) == WithName(a, m)[1..];
          assert WithName(b[1..], m) == WithName(b, m)[1..];
        }
      }
      SortedTail(a);
      SortedTail(b);
      SortedStableUnique(a[1..], b[1..]);
      assert a == [a[0]] + a[1..];
      assert b == [b[0]] + b[1..];
    }
  }

  // ---------------------------------------------------------------------------
  // Processing every repository; a repository whose assembly raises is dropped.

  /** Assembling one repository's record against the template history. */
  function Assemble(history: seq<string>): RepoData -> Option<IngestRecord> {
    repo => IngestRecordOf(repo, history)
  }

  /** The records of the repositories whose assembly did not raise, in repository order. */
  function Processed(repos: seq<RepoData>, history: seq<string>): seq<IngestRecord> {
    Scan.Kept(repos, Assemble(history))
  }

  /** Processing is repository by repository: one repository's failure leaves the others' records alone. */
  lemma ProcessedAppend(a: seq<RepoData>, b: seq<RepoData>, history: seq<string>)
    ensures Processed(a + b, history) == Processed(a, history) + Processed(b, history)
  {
    Scan.KeptAppend(a, b, Assemble(history));
  }

  /** No record is lost unless its repository's assembly raised. */
  lemma ProcessedDropsOnlyRaising(repos: seq<RepoData>, history: seq<string>)
    ensures |Processed(repos, history)| == |repos| <==> forall i :: 0 <= i < |repos| ==> IngestRecordOf(repos[i], history).Some?
  {
    Scan.KeptAll(repos, Assemble(history));
  }

  /** The published records are exactly the records of the repositories that did not raise. */
  lemma ProcessedMembers(repos: seq<RepoData>, history: seq<string>, r: IngestRecord)
    ensures r in Processed(repos, history) <==> exists repo :: repo in repos && IngestRecordOf(repo, history) == Some(r)
  {
    Scan.KeptMembers(repos, Assemble(history), r);
  }

  // ---------------------------------------------------------------------------
  // Template metadata and the status summary.

  datatype TemplateInfo = TemplateInfo(repoUrl: string, latestCommit: string, totalCommits: nat)

  /** `sha[:7]`: the first seven characters, or the whole string when it is shorter. */
  function ShortSha(sha: string): (r: string)
    ensures |r| == if |sha| < 7 then |sha| else 7
    ensures Text.IsPrefix(r, sha)
  {
    if |sha| <= 7 then sha else sha[..7]
  }

  /** The template block: present exactly when the history is non-empty. */
  function TemplateInfoOf(history: seq<string>, templateUrl: string): (t: Option<TemplateInfo>)
    ensures t.Some? <==> history != []
    ensures t.Some? ==>
      t.value.repoUrl == templateUrl && t.value.totalCommits == |history| && t.value.latestCommit == ShortSha(history[0])
  {
    if history == [] then None else Some(TemplateInfo(templateUrl, ShortSha(history[0]), |history|))
  }

  /** `sum(1 for i in s if i["status"] == status)` */
  function Count(s: seq<IngestRecord>, status: Status): (n: nat)
    ensures n <= |s|
    ensures n == 0 <==> forall i :: 0 <= i < |s| ==> s[i].status != status
    ensures n == |s| <==> forall i :: 0 <= i < |s| ==> s[i].status == status
  {
    if s == [] then 0 else (if s[0].status == status then 1 else 0) + Count(s[1..], status)
  }

  lemma {:induction false} CountsSum(s: seq<IngestRecord>)
    ensures Count(s, Healthy) + Count(s, Stale) + Count(s, Failed) == |s|
  {
    if s != [] {
      CountsSum(s[1..]);
    }
  }

  /** Counting is additive over concatenation, and one record counts 1 exactly when it has the status. */
  lemma {:induction false} CountAppend(s: seq<IngestRecord>, t: seq<IngestRecord>, status: Status)
    ensures Count(s + t, status) == Count(s, status) + Count(t, status)
    ensures forall r :: Count([r], status) == if r.status == status then 1 else 0
  {
    if s != [] {
      assert (s + t)[1..] == s[1..] + t;
      CountAppend(s[1..], t, status);
    } else {
      assert s + t == t;
    }
  }

  datatype Summary = Summary(healthy: nat, stale: nat, failed: nat)

  datatype Dashboard = Dashboard(template: Option<TemplateInfo>, ingests: seq<IngestRecord>)

  /**
   * The report of a run: `templateUrl` is the template repository's page, looked
   * up only when the history is non-empty.
   */
  method BuildReport(repos: seq<RepoData>, history: seq<string>, templateUrl: string)
    returns (report: Dashboard, summary: Summary)
    ensures report.ingests == SortByName(Processed(repos, history))
    ensures SortedByName(report.ingests)
    ensures multiset(report.ingests) == multiset(Processed(repos, history))
    ensures forall n :: WithName(report.ingests, n) == WithName(Processed(repos, history), n)
    ensures report.template == TemplateInfoOf(history, templateUrl)
    ensures summary == Summary(Count(report.ingests, Healthy), Count(report.ingests, Stale), Count(report.ingests, Failed))
    ensures summary.healthy + summary.stale + summary.failed == |report.ingests|
  {
    var ingests: seq<IngestRecord> := [];
    for i := 0 to |repos|
      invariant ingests == Processed(repos[..i], history)
    {
      var data := FetchIngestData(repos[i], history);
      assert repos[..i + 1][..i] == repos[..i];
      if data.Some? {
        ingests := ingests + [data.value];
      }
    }
    assert repos[..|repos|] == repos;
    var processed := ingests;
    ingests := SortByName(ingests);
    SortByNameSorted(processed);
    forall n
      ensures WithName(ingests, n) == WithName(processed, n)
    {
      SortByNameStable(processed, n);
    }
    report := Dashboard(TemplateInfoOf(history, templateUrl), ingests);
    summary := Summary(Count(ingests, Healthy), Count(ingests, Stale), Count(ingests, Failed));
    CountsSum(ingests);
  }
}
