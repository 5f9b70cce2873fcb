/**
 * The Koza version classifier: from the `[project].dependencies` list of an
 * ingest's pyproject.toml, decide whether the ingest declares Koza 2
 * (marker "2") or not (None).
 */
module KozaVersion {
  import opened Wrappers
  import opened Text
  import opened ReleaseVersion
  import Scan

  /** One entry of the dependency list: a string, or any other TOML value. */
  datatype Dependency = DepText(text: string) | DepOther

  /** The scan's test: a string entry whose stripped text starts with "koza". */
  predicate IsKozaDependency(d: Dependency) {
    d.DepText? && IsPrefix("koza", Strip(d.text))
  }

  /** The first Koza entry of the list, unstripped, or None. */
  function KozaDependency(deps: seq<Dependency>): (dep: Option<string>)
  {
    match Scan.FirstIndex(deps, IsKozaDependency)
    case None => None
    case Some(i) => Some(deps[i].text)
  }

  /** The loop that walks the dependency list and stops at the first Koza entry. */
  method FindKozaDependency(deps: seq<Dependency>) returns (dep: Option<string>)
    ensures dep == KozaDependency(deps)
    ensures dep.Some? ==> exists i :: 0 <= i < |deps| && deps[i] == DepText(dep.value) && IsPrefix("koza", Strip(dep.value))
    ensures dep.None? <==> forall i :: 0 <= i < |deps| ==> !IsKozaDependency(deps[i])
  {
    dep := None;
    var i := 0;
    while i < |deps|
      invariant 0 <= i <= |deps|
      invariant forall j :: 0 <= j < i ==> !IsKozaDependency(deps[j])
    {
      if IsKozaDependency(deps[i]) {
        Scan.FirstIndexUnique(deps, IsKozaDependency, i);
        dep := Some(deps[i].text);
        break;
      }
      i := i + 1;
    }
  }

  // ---- the pattern koza\s*([><=!~]+)\s*([0-9.]+) ----

  predicate IsOperatorChar(c: char) {
    c == '>' || c == '<' || c == '=' || c == '!' || c == '~'
  }

  predicate IsVersionChar(c: char) {
    ('0' <= c <= '9') || c == '.'
  }

  /** The three character classes of the pattern: `\s`, `[><=!~]` and `[0-9.]`. */
  datatype CharClass = Space | OperatorClass | VersionClass

  predicate InClass(c: char, k: CharClass) {
    match k
    case Space => IsSpace(c)
    case OperatorClass => IsOperatorChar(c)
    case VersionClass => IsVersionChar(c)
  }

  /** Every character of s[i..j] is in class k. */
  predicate AllIn(s: string, i: nat, j: nat, k: CharClass)
    requires i <= j <= |s|
  {
    forall n {:trigger InClass(s[n], k)} :: i <= n < j ==> InClass(s[n], k)
  }

  /**
   * A match of the pattern in `s`: "koza" at `start`, whitespace up to
   * `opStart`, the operator group s[opStart..opEnd], whitespace up to
   * `verStart`, the version group s[verStart..verEnd].
   */
  datatype KozaMatch = KozaMatch(start: nat, opStart: nat, opEnd: nat, verStart: nat, verEnd: nat)

  /** The literal "koza" at position i. */
  predicate KozaAt(s: string, i: nat) {
    i + 4 <= |s| && s[i] == 'k' && s[i + 1] == 'o' && s[i + 2] == 'z' && s[i + 3] == 'a'
  }

  predicate Matches(s: string, m: KozaMatch) {
    && m.start + 4 <= m.opStart < m.opEnd <= m.verStart < m.verEnd <= |s|
    && KozaAt(s, m.start)
    && AllIn(s, m.start + 4, m.opStart, Space)
    && AllIn(s, m.opStart, m.opEnd, OperatorClass)
    && AllIn(s, m.opEnd, m.verStart, Space)
    && AllIn(s, m.verStart, m.verEnd, VersionClass)
  }

  /** The length of the longest run of characters of class k from position i. */
  function RunLength(s: string, i: nat, k: CharClass): (n: nat)
    requires i <= |s|
    ensures i + n <= |s| && AllIn(s, i, i + n, k)
    ensures i + n == |s| || !InClass(s[i + n], k)
    decreases |s| - i
  {
    if i < |s| && InClass(s[i], k) then 1 + RunLength(s, i + 1, k) else 0
  }

  /** The match the regular-expression engine finds when it tries position i: every repetition as long as it goes. */
  function MatchAt(s: string, i: nat): (r: Option<KozaMatch>)
    requires i <= |s|
    ensures r.Some? ==> r.value.start == i && Matches(s, r.value)
    ensures r.Some? ==> r.value.verEnd == |s| || !IsVersionChar(s[r.value.verEnd])
  {
    if !KozaAt(s, i) then None
    else
      var opStart := i + 4 + RunLength(s, i + 4, Space);
      var opEnd := opStart + RunLength(s, opStart, OperatorClass);
      var verStart := opEnd + RunLength(s, opEnd, Space);
      var verEnd := verStart + RunLength(s, verStart, VersionClass);
      if opEnd == opStart || verEnd == verStart then None
      else Some(KozaMatch(i, opStart, opEnd, verStart, verEnd))
  }

  /** A run that stops where p fails is exactly RunLength long. */
  lemma RunLengthExact(s: string, i: nat, j: nat, k: CharClass)
    requires i <= j <= |s| && AllIn(s, i, j, k)
    requires j == |s| || !InClass(s[j], k)
    ensures RunLength(s, i, k) == j - i
  {
  }

  lemma RunLengthAtLeast(s: string, i: nat, j: nat, k: CharClass)
    requires i <= j <= |s| && AllIn(s, i, j, k)
    ensures RunLength(s, i, k) >= j - i
  {
  }

  /**
   * The three character classes are disjoint, so any match at a position fixes
   * both whitespace runs and the operator group; the engine's version group is
   * the longest one, so it extends the given match's.
   */
  lemma MatchAtIsGreedy(s: string, m: KozaMatch)
    requires Matches(s, m)
    ensures MatchAt(s, m.start).Some?
    ensures var g := MatchAt(s, m.start).value;
      g.opStart == m.opStart && g.opEnd == m.opEnd && g.verStart == m.verStart && m.verEnd <= g.verEnd
  {
    LeadingSpaceFixed(s, m);
    OperatorFixed(s, m);
    InnerSpaceFixed(s, m);
    RunLengthAtLeast(s, m.verStart, m.verEnd, VersionClass);
  }

  lemma LeadingSpaceFixed(s: string, m: KozaMatch)
    requires Matches(s, m)
    ensures RunLength(s, m.start + 4, Space) == m.opStart - (m.start + 4)
  {
    assert InClass(s[m.opStart], OperatorClass);
    ClassesDisjoint(s[m.opStart]);
    RunLengthExact(s, m.start + 4, m.opStart, Space);
  }

  lemma OperatorFixed(s: string, m: KozaMatch)
    requires Matches(s, m)
    ensures RunLength(s, m.opStart, OperatorClass) == m.opEnd - m.opStart
  {
    if m.opEnd < m.verStart {
      assert InClass(s[m.opEnd], Space);
    } else {
      assert InClass(s[m.opEnd], VersionClass);
    }
    ClassesDisjoint(s[m.opEnd]);
    RunLengthExact(s, m.opStart, m.opEnd, OperatorClass);
  }

  lemma InnerSpaceFixed(s: string, m: KozaMatch)
    requires Matches(s, m)
    ensures RunLength(s, m.opEnd, Space) == m.verStart - m.opEnd
  {
    assert InClass(s[m.verStart], VersionClass);
    ClassesDisjoint(s[m.verStart]);
    RunLengthExact(s, m.opEnd, m.verStart, Space);
  }

  /** No character is in two of the pattern's classes. */
  lemma ClassesDisjoint(c: char)
    ensures IsOperatorChar(c) ==> !IsSpace(c) && !IsVersionChar(c)
    ensures IsVersionChar(c) ==> !IsSpace(c)
  {
  }

  /** What `re.search` tries: positions i, i+1, ... up to the end, and the first that matches. */
  function SearchFrom(s: string, i: nat): (r: Option<KozaMatch>)
    requires i <= |s|
    ensures r.Some? ==> i <= r.value.start <= |s| && MatchAt(s, r.value.start) == r
    decreases |s| - i
  {
    var here := MatchAt(s, i);
    if here.Some? then here
    else if i == |s| then None
    else SearchFrom(s, i + 1)
  }

  /** If a match starts at or after i, SearchFrom finds one that starts no later. */
  lemma {:induction false} SearchFromReaches(s: string, i: nat, m: KozaMatch)
    requires i <= m.start && Matches(s, m)
    ensures SearchFrom(s, i).Some? && SearchFrom(s, i).value.start <= m.start
    decreases |s| - i
  {
    var here := MatchAt(s, i);
    if here.None? {
      if i == m.start {
        MatchAtIsGreedy(s, m);
        assert false;
      }
      SearchFromReaches(s, i + 1, m);
    }
  }

  /** `re.search(r'koza\s*([><=!~]+)\s*([0-9.]+)', s)` */
  function Search(s: string): (r: Option<KozaMatch>)
    ensures r.Some? ==> Matches(s, r.value) && MatchAt(s, r.value.start) == r
  {
    SearchFrom(s, 0)
  }

  /** The two groups of a match: the operator and the version text. */
  function Operator(s: string, m: KozaMatch): string
    requires Matches(s, m)
  {
    s[m.opStart..m.opEnd]
  }

  function VersionText(s: string, m: KozaMatch): string
    requires Matches(s, m)
  {
    s[m.verStart..m.verEnd]
  }

  /**
   * Search reports the leftmost match, with the longest version group among the
   * matches at that position, and reports None only when nothing matches.
   */
  lemma SearchIsLeftmostLongest(s: string)
    ensures Search(s).None? <==> forall m :: !Matches(s, m)
    ensures Search(s).Some? ==> Matches(s, Search(s).value)
    ensures Search(s).Some? ==> forall m :: Matches(s, m) ==>
      Search(s).value.start <= m.start &&
      (m.start == Search(s).value.start ==>
         m.opStart == Search(s).value.opStart && m.opEnd == Search(s).value.opEnd &&
         m.verStart == Search(s).value.verStart && m.verEnd <= Search(s).value.verEnd)
  {
    forall m | Matches(s, m)
      ensures Search(s).Some? && Search(s).value.start <= m.start
    {
      SearchFromReaches(s, 0, m);
    }
    forall m | Matches(s, m) && Search(s).Some? && m.start == Search(s).value.start
      ensures m.opStart == Search(s).value.opStart && m.opEnd == Search(s).value.opEnd
      ensures m.verStart == Search(s).value.verStart && m.verEnd <= Search(s).value.verEnd
    {
      MatchAtIsGreedy(s, m);
    }
  }

  /** A constraint written out plainly is found with exactly its operator and version as groups. */
  lemma {:induction false} SearchFindsWrittenConstraint(op: string, ver: string, rest: string)
    requires op != [] && forall k :: 0 <= k < |op| ==> IsOperatorChar(op[k])
    requires ver != [] && forall k :: 0 <= k < |ver| ==> IsVersionChar(ver[k])
    requires rest == [] || !IsVersionChar(rest[0])
    ensures var s := "koza" + op + ver + rest;
      Search(s).Some? && Operator(s, Search(s).value) == op && VersionText(s, Search(s).value) == ver
  {
    var s := "koza" + op + ver + rest;
    var c := 4 + |op|;
    var e := c + |ver|;
    WrittenConstraintMatches(op, ver, rest);
    MatchAtIsGreedy(s, KozaMatch(0, 4, c, c, e));
    RunLengthExact(s, c, e, VersionClass);
  }

  lemma WrittenConstraintMatches(op: string, ver: string, rest: string)
    requires op != [] && forall k :: 0 <= k < |op| ==> IsOperatorChar(op[k])
    requires ver != [] && forall k :: 0 <= k < |ver| ==> IsVersionChar(ver[k])
    requires rest == [] || !IsVersionChar(rest[0])
    ensures var s := "koza" + op + ver + rest;
      var c := 4 + |op|;
      var e := c + |ver|;
      && Matches(s, KozaMatch(0, 4, c, c, e))
      && s[4..c] == op && s[c..e] == ver
      && (e == |s| || !InClass(s[e], VersionClass))
  {
    var s := "koza" + op + ver + rest;
    var c := 4 + |op|;
    var e := c + |ver|;
    forall n | 4 <= n < c ensures InClass(s[n], OperatorClass) {
      assert s[n] == op[n - 4];
    }
    forall n | c <= n < e ensures InClass(s[n], VersionClass) {
      assert s[n] == ver[n - c];
    }
    if rest != [] {
      assert s[e] == rest[0];
    }
    assert s[4..c] == op;
    assert s[c..e] == ver;
  }

  // ---- classification ----

  /** Koza 2 starts at release 2.0.0. */
  const KozaTwo: seq<nat> := [2, 0, 0]

  /**
   * The marker for one dependency string: "2" when the pattern matches and its
   * version group parses to a release at least 2.0.0, None otherwise; the
   * operator group plays no part, and an unparsable version gives None.
   */
  function ClassifyDependency(dep: string): (marker: Option<string>)
    ensures marker.Some? ==> marker.value == "2"
  {
    match Search(dep)
    case None => None
    case Some(m) =>
      match ParseRelease(VersionText(dep, m))
      case None => None
      case Some(v) => if CompareRelease(v, KozaTwo) >= 0 then Some("2") else None
  }

  /** The whole classifier over the parsed pyproject.toml (None when it could not be fetched or parsed). */
  function KozaMarker(pyproject: Option<seq<Dependency>>): (marker: Option<string>)
    ensures marker.Some? ==> marker.value == "2"
    ensures pyproject.None? ==> marker.None?
    ensures pyproject.Some? && (forall i :: 0 <= i < |pyproject.value| ==> !IsKozaDependency(pyproject.value[i])) ==> marker.None?
  {
    match pyproject
    case None => None
    case Some(deps) =>
      match KozaDependency(deps)
      case None => None
      case Some(dep) => ClassifyDependency(dep)
  }

  method FetchKozaVersion(pyproject: Option<seq<Dependency>>) returns (marker: Option<string>)
    ensures marker == KozaMarker(pyproject)
    ensures marker.Some? ==> marker.value == "2"
  {
    if pyproject.None? {
      return None;
    }
    var dep := FindKozaDependency(pyproject.value);
    if dep.None? {
      return None;
    }
    marker := ClassifyDependency(dep.value);
  }

  /** The marker is "2" exactly when the matched version parses and its major component is at least 2. */
  lemma ClassifyIsMajorAtLeastTwo(dep: string)
    ensures ClassifyDependency(dep) == Some("2") <==>
      Search(dep).Some? && ParseRelease(VersionText(dep, Search(dep).value)).Some? &&
      Component(ParseRelease(VersionText(dep, Search(dep).value)).value, 0) >= 2
  {
    if Search(dep).Some? {
      var t := VersionText(dep, Search(dep).value);
      if ParseRelease(t).Some? {
        AtLeastTwoIsMajorAtLeastTwo(ParseRelease(t).value);
      }
    }
  }

  /**
   * The operator is ignored: two constraints that differ only in their
   * operator classify alike, whatever follows the version, as in `koza>=2.0,<3`.
   */
  lemma OperatorIsIgnored(op1: string, op2: string, ver: string, rest: string)
    requires op1 != [] && forall k :: 0 <= k < |op1| ==> IsOperatorChar(op1[k])
    requires op2 != [] && forall k :: 0 <= k < |op2| ==> IsOperatorChar(op2[k])
    requires ver != [] && forall k :: 0 <= k < |ver| ==> IsVersionChar(ver[k])
    requires rest == [] || !IsVersionChar(rest[0])
    ensures ClassifyDependency("koza" + op1 + ver + rest) == ClassifyDependency("koza" + op2 + ver + rest)
  {
    SearchFindsWrittenConstraint(op1, ver, rest);
    SearchFindsWrittenConstraint(op2, ver, rest);
  }


  /** Only the first Koza entry counts; entries that are not strings are passed over. */
  lemma NonTextEntriesSkipped(deps: seq<Dependency>)
    ensures KozaDependency([DepOther] + deps) == KozaDependency(deps)
  {
    var all := [DepOther] + deps;
    assert !IsKozaDependency(all[0]);
    assert all[1..] == deps;
    match Scan.FirstIndex(deps, IsKozaDependency)
    case None =>
    case Some(i) => assert all[i + 1] == deps[i];
  }

  lemma FirstKozaEntryDecides(dep: string, deps: seq<Dependency>)
    requires IsPrefix("koza", Strip(dep))
    ensures KozaDependency([DepText(dep)] + deps) == Some(dep)
  {
  }

  /** A constraint on a written-out release classifies by that release's major component alone. */
  lemma ClassifyWrittenRelease(op: string, v: seq<nat>)
    requires |v| >= 1
    requires op != [] && forall k :: 0 <= k < |op| ==> IsOperatorChar(op[k])
    ensures ClassifyDependency("koza" + op + RenderRelease(v)) == if Component(v, 0) >= 2 then Some("2") else None
  {
    var ver := RenderRelease(v);
    RenderReleaseChars(v);
    SearchFindsWrittenConstraint(op, ver, []);
    assert "koza" + op + ver + [] == "koza" + op + ver;
    ParseRenderRoundTrip(v);
    AtLeastTwoIsMajorAtLeastTwo(v);
  }

  /** A version group that is not a well-formed release segment ("2..0", "2.", ".2") gives None, not an error. */
  lemma ClassifyMalformedVersion(op: string, ver: string)
    requires op != [] && forall k :: 0 <= k < |op| ==> IsOperatorChar(op[k])
    requires ver != [] && forall k :: 0 <= k < |ver| ==> IsVersionChar(ver[k])
    requires !WellDotted(ver)
    ensures ClassifyDependency("koza" + op + ver) == None
  {
    SearchFindsWrittenConstraint(op, ver, []);
    assert "koza" + op + ver + [] == "koza" + op + ver;
    ParseAcceptsWellDotted(ver);
  }

  /** Without a single digit or dot the pattern cannot match ("koza>=abc"), so there is no marker. */
  lemma NoVersionCharsNoMatch(s: string)
    requires forall k :: 0 <= k < |s| ==> !IsVersionChar(s[k])
    ensures Search(s).None?
    ensures ClassifyDependency(s).None?
  {
    SearchIsLeftmostLongest(s);
  }
}
