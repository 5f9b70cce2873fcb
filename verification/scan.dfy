/**
 * Two list scans the dashboard script writes as loops. The "first element
 * that satisfies a test" scan runs three times, stopping at the first hit:
 * over the template history, over the dependency list and over the workflow
 * list. The "keep what succeeds" scan runs once, over the repositories: each
 * step either appends its result or, when it raised, appends nothing.
 */
module Scan {
  import opened Wrappers

  /** The index of the first element of `s` that satisfies `p`, or None when none does. */
  function FirstIndex<T>(s: seq<T>, p: T -> bool): (r: Option<nat>)
    ensures r.Some? ==> r.value < |s| && p(s[r.value])
    ensures r.Some? ==> forall j :: 0 <= j < r.value ==> !p(s[j])
    ensures r.None? <==> forall j :: 0 <= j < |s| ==> !p(s[j])
  {
    if s == [] then None
    else if p(s[0]) then Some(0)
    else
      match FirstIndex(s[1..], p)
      case None => None
      case Some(i) => Some(i + 1)
  }

  /** The first-hit property pins the index down: any index with it is FirstIndex's. */
  lemma FirstIndexUnique<T>(s: seq<T>, p: T -> bool, i: nat)
    requires i < |s| && p(s[i])
    requires forall j :: 0 <= j < i ==> !p(s[j])
    ensures FirstIndex(s, p) == Some(i)
  {
  }

  /** The present results of `f` over `s`, in order; an absent result is skipped. */
  function Kept<A, B>(s: seq<A>, f: A -> Option<B>): (r: seq<B>)
    ensures |r| <= |s|
  {
    if s == [] then []
    else
      Kept(s[..|s| - 1], f) +
      match f(s[|s| - 1])
      case None => []
      case Some(b) => [b]
  }

  /** Keeping works element by element, so it distributes over concatenation. */
  lemma {:induction false} KeptAppend<A, B>(s: seq<A>, t: seq<A>, f: A -> Option<B>)
    ensures Kept(s + t, f) == Kept(s, f) + Kept(t, f)
    decreases |t|
  {
    if t == [] {
      assert s + t == s;
    } else {
      var t' := t[..|t| - 1];
      assert (s + t)[..|s + t| - 1] == s + t';
      assert (s + t)[|s + t| - 1] == t[|t| - 1];
      KeptAppend(s, t', f);
    }
  }

  /** Nothing is skipped exactly when every result is present. */
  lemma {:induction false} KeptAll<A, B>(s: seq<A>, f: A -> Option<B>)
    ensures |Kept(s, f)| == |s| <==> forall i :: 0 <= i < |s| ==> f(s[i]).Some?
  {
    if s != [] {
      var init := s[..|s| - 1];
      KeptAll(init, f);
      assert forall i :: 0 <= i < |init| ==> init[i] == s[i];
    }
  }

  /** The kept values are exactly the present results of elements of `s`. */
  lemma {:induction false} KeptMembers<A, B>(s: seq<A>, f: A -> Option<B>, b: B)
    ensures b in Kept(s, f) <==> exists a :: a in s && f(a) == Some(b)
  {
    if s != [] {
      var init := s[..|s| - 1];
      var last := s[|s| - 1];
      KeptMembers(init, f, b);
      assert s == init + [last];
      if exists a :: a in s && f(a) == Some(b) {
        var a :| a in s && f(a) == Some(b);
        if a != last {
          assert a in init;
        }
      }
    }
  }
}
