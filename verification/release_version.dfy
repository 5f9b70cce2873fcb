/**
 * PEP 440 release segments ("N(.N)*") as the version classifier meets them:
 * parsing a string of digits and dots, and the release ordering of PEP 440,
 * section "Final releases": components compare numerically, left to right,
 * the shorter segment padded with zeros.
 */
module ReleaseVersion {
  import opened Wrappers

  predicate IsDigit(c: char) {
    '0' <= c <= '9'
  }

  /** A non-empty run of ASCII digits. */
  predicate IsNumeral(t: string) {
    t != [] && forall k :: 0 <= k < |t| ==> IsDigit(t[k])
  }

  function NumeralValue(t: string): nat
    requires forall k :: 0 <= k < |t| ==> IsDigit(t[k])
  {
    if t == [] then 0
    else
      assert IsDigit(t[|t| - 1]);
      10 * NumeralValue(t[..|t| - 1]) + (t[|t| - 1] as int - '0' as int)
  }

  /** The canonical decimal numeral of n (no leading zeros). */
  function Numeral(n: nat): (t: string)
    ensures IsNumeral(t)
  {
    var d := ['0' + (n % 10) as char];
    if n < 10 then d else Numeral(n / 10) + d
  }

  /** `s.split('.')` */
  function SplitDots(s: string): (parts: seq<string>)
    ensures |parts| >= 1
    ensures forall k :: 0 <= k < |parts| ==> '.' !in parts[k]
  {
    if s == [] then [""]
    else
      var rest := SplitDots(s[1..]);
      if s[0] == '.' then [""] + rest else [[s[0]] + rest[0]] + rest[1..]
  }

  /** `'.'.join(parts)` */
  function JoinDots(parts: seq<string>): string
    requires |parts| >= 1
  {
    if |parts| == 1 then parts[0] else parts[0] + "." + JoinDots(parts[1..])
  }

  /** Every part is a non-empty run of digits. */
  predicate AllNumerals(parts: seq<string>) {
    forall k :: 0 <= k < |parts| ==> IsNumeral(parts[k])
  }

  /**
   * The release segment written in `s`, or None when `s` is not one: every
   * dot-separated component must be a non-empty run of digits, so an empty
   * component ("1..2", ".1", "2.") is rejected, as `packaging` rejects it.
   */
  function ParseRelease(s: string): (r: Option<seq<nat>>)
    ensures r.Some? <==> AllNumerals(SplitDots(s))
    ensures r.Some? ==> |r.value| == |SplitDots(s)| >= 1
    ensures r.Some? ==> forall k :: 0 <= k < |r.value| ==> r.value[k] == NumeralValue(SplitDots(s)[k])
  {
    var parts := SplitDots(s);
    if AllNumerals(parts)
    then Some(seq(|parts|, k requires 0 <= k < |parts| => NumeralValue(parts[k])))
    else None
  }

  /**
   * The shape of a parsable string of digits and dots: not empty, no dot at
   * either end, no two dots in a row.
   */
  predicate WellDotted(s: string) {
    && s != [] && s[0] != '.' && s[|s| - 1] != '.'
    && forall k :: 0 <= k < |s| - 1 ==> !(s[k] == '.' && s[k + 1] == '.')
  }

  /** On digits and dots, the parser accepts exactly the well-dotted strings. */
  lemma {:induction false} ParseAcceptsWellDotted(s: string)
    requires forall k :: 0 <= k < |s| ==> IsDigit(s[k]) || s[k] == '.'
    ensures ParseRelease(s).Some? <==> WellDotted(s)
    decreases |s|
  {
    if s == [] {
      assert !IsNumeral(SplitDots(s)[0]);
    } else if s[0] == '.' {
      assert !IsNumeral(SplitDots(s)[0]);
    } else {
      var t := s[1..];
      var r := SplitDots(t);
      var parts := SplitDots(s);
      assert parts == [[s[0]] + r[0]] + r[1..];
      assert IsNumeral(parts[0]) by {
        forall k | 0 <= k < |r[0]| ensures IsDigit(r[0][k]) {
          DigitsOrDotsParts(t, 0, k);
        }
      }
      assert AllNumerals(parts) <==> AllNumerals(r[1..]) by {
        assert parts == [parts[0]] + r[1..];
        AllNumeralsCons(parts[0], r[1..]);
      }
      if t == [] {
        assert r == [""];
      } else if t[0] != '.' {
        ParseAcceptsWellDotted(t);
        assert r[0] != [] by { assert SplitDots(t)[0] == [t[0]] + SplitDots(t[1..])[0]; }
        assert AllNumerals(r) <==> AllNumerals(r[1..]) by {
          forall k | 0 <= k < |r[0]| ensures IsDigit(r[0][k]) {
            DigitsOrDotsParts(t, 0, k);
          }
          assert r == [r[0]] + r[1..];
          AllNumeralsCons(r[0], r[1..]);
        }
        assert WellDotted(t) <==> WellDotted(s) by {
          assert forall k :: 0 <= k < |t| ==> t[k] == s[k + 1];
          if WellDotted(t) {
            forall k | 0 <= k < |s| - 1 ensures !(s[k] == '.' && s[k + 1] == '.') {
              if k > 0 { assert s[k] == t[k - 1] && s[k + 1] == t[k]; }
            }
          }
        }
      } else {
        var u := t[1..];
        assert r == [""] + SplitDots(u);
        assert r[1..] == SplitDots(u);
        ParseAcceptsWellDotted(u);
        assert WellDotted(u) <==> WellDotted(s) by {
          assert forall k :: 0 <= k < |u| ==> u[k] == s[k + 2];
          if WellDotted(u) {
            forall k | 0 <= k < |s| - 1 ensures !(s[k] == '.' && s[k + 1] == '.') {
              if k > 1 { assert s[k] == u[k - 2] && s[k + 1] == u[k - 1]; }
            }
          }
          if WellDotted(s) && u != [] {
            assert u[0] == s[2] && s[1] == '.';
            forall k | 0 <= k < |u| - 1 ensures !(u[k] == '.' && u[k + 1] == '.') {
              assert u[k] == s[k + 2] && u[k + 1] == s[k + 3];
            }
          }
          if u == [] {
            assert s[|s| - 1] == '.';
          }
        }
      }
    }
  }

  lemma AllNumeralsCons(x: string, rest: seq<string>)
    ensures AllNumerals([x] + rest) <==> IsNumeral(x) && AllNumerals(rest)
  {
    if IsNumeral(x) && AllNumerals(rest) {
      forall k | 0 <= k < |[x] + rest| ensures IsNumeral(([x] + rest)[k]) {
        if k > 0 { assert ([x] + rest)[k] == rest[k - 1]; }
      }
    }
    if AllNumerals([x] + rest) {
      assert ([x] + rest)[0] == x;
      forall k | 0 <= k < |rest| ensures IsNumeral(rest[k]) {
        assert ([x] + rest)[k + 1] == rest[k];
      }
    }
  }

  /** Every part of a split string of digits and dots is made of digits. */
  lemma {:induction false} DigitsOrDotsParts(s: string, i: nat, k: nat)
    requires forall n :: 0 <= n < |s| ==> IsDigit(s[n]) || s[n] == '.'
    requires i < |SplitDots(s)| && k < |SplitDots(s)[i]|
    ensures IsDigit(SplitDots(s)[i][k])
    decreases |s|
  {
    var r := SplitDots(s[1..]);
    if s[0] == '.' {
      assert SplitDots(s)[i] == r[i - 1];
      DigitsOrDotsParts(s[1..], i - 1, k);
    } else if i == 0 {
      if k > 0 {
        DigitsOrDotsParts(s[1..], 0, k - 1);
      }
    } else {
      assert SplitDots(s)[i] == r[i];
      DigitsOrDotsParts(s[1..], i, k);
    }
  }

  /** The canonical text of a release segment: its components in decimal, joined by dots. */
  function RenderRelease(v: seq<nat>): string
    requires |v| >= 1
  {
    JoinDots(seq(|v|, k requires 0 <= k < |v| => Numeral(v[k])))
  }

  /** Component k of a release segment, zero past its end. */
  function Component(v: seq<nat>, k: nat): nat {
    if k < |v| then v[k] else 0
  }

  function Tail(v: seq<nat>): seq<nat> {
    if v == [] then [] else v[1..]
  }

  /** PEP 440 release ordering: -1, 0 or 1 as `a` is older than, equal to or newer than `b`. */
  function CompareRelease(a: seq<nat>, b: seq<nat>): (r: int)
    ensures -1 <= r <= 1
    decreases |a| + |b|
  {
    if a == [] && b == [] then 0
    else if Component(a, 0) < Component(b, 0) then -1
    else if Component(a, 0) > Component(b, 0) then 1
    else CompareRelease(Tail(a), Tail(b))
  }

  lemma {:induction false} NumeralRoundTrip(n: nat)
    ensures NumeralValue(Numeral(n)) == n
  {
    var t := Numeral(n);
    if n >= 10 {
      NumeralRoundTrip(n / 10);
      assert t[..|t| - 1] == Numeral(n / 10);
    }
  }

  /** Splitting `a + rest` where `a` has no dot extends the first part of `rest`. */
  lemma {:induction false} SplitDotlessPrefix(a: string, rest: string)
    requires '.' !in a
    ensures SplitDots(a + rest) == [a + SplitDots(rest)[0]] + SplitDots(rest)[1..]
  {
    var r := SplitDots(rest);
    if a == [] {
      assert a + rest == rest;
      assert a + r[0] == r[0];
      assert r == [r[0]] + r[1..];
    } else {
      assert (a + rest)[1..] == a[1..] + rest;
      SplitDotlessPrefix(a[1..], rest);
      assert [a[0]] + (a[1..] + r[0]) == a + r[0];
    }
  }

  lemma {:induction false} SplitJoin(parts: seq<string>)
    requires |parts| >= 1
    requires forall k :: 0 <= k < |parts| ==> '.' !in parts[k]
    ensures SplitDots(JoinDots(parts)) == parts
  {
    if |parts| == 1 {
      SplitDotlessPrefix(parts[0], []);
      assert parts[0] + [] == parts[0];
      assert SplitDots([]) == [""];
      assert parts[0] + "" == parts[0];
    } else {
      var rest := JoinDots(parts[1..]);
      SplitJoin(parts[1..]);
      assert parts[0] + "." + rest == parts[0] + ("." + rest);
      SplitDotlessPrefix(parts[0], "." + rest);
      assert ("." + rest)[1..] == rest;
      assert SplitDots("." + rest) == [""] + parts[1..];
      assert parts[0] + "" == parts[0];
      assert parts == [parts[0]] + parts[1..];
    }
  }

  /** Joined numerals hold only digits and dots, and are not empty. */
  lemma {:induction false} JoinedNumeralsChars(parts: seq<string>)
    requires |parts| >= 1 && AllNumerals(parts)
    ensures JoinDots(parts) != []
    ensures forall k :: 0 <= k < |JoinDots(parts)| ==> IsDigit(JoinDots(parts)[k]) || JoinDots(parts)[k] == '.'
  {
    if |parts| > 1 {
      JoinedNumeralsChars(parts[1..]);
      var t := JoinDots(parts[1..]);
      assert JoinDots(parts) == parts[0] + ("." + t);
      forall k | 0 <= k < |JoinDots(parts)|
        ensures IsDigit(JoinDots(parts)[k]) || JoinDots(parts)[k] == '.'
      {
        if k > |parts[0]| {
          assert JoinDots(parts)[k] == t[k - |parts[0]| - 1];
        }
      }
    }
  }

  /** The canonical text of a release segment is a non-empty run of digits and dots. */
  lemma RenderReleaseChars(v: seq<nat>)
    requires |v| >= 1
    ensures RenderRelease(v) != []
    ensures forall k :: 0 <= k < |RenderRelease(v)| ==> IsDigit(RenderRelease(v)[k]) || RenderRelease(v)[k] == '.'
  {
    JoinedNumeralsChars(seq(|v|, k requires 0 <= k < |v| => Numeral(v[k])));
  }

  /** A leading zero does not change a numeral's value: "02" is 2, as `int()` reads it. */
  lemma {:induction false} LeadingZeroIgnored(t: string)
    requires forall k :: 0 <= k < |t| ==> IsDigit(t[k])
    ensures NumeralValue("0" + t) == NumeralValue(t)
  {
    if t != [] {
      var u := "0" + t;
      assert u[..|u| - 1] == "0" + t[..|t| - 1];
      LeadingZeroIgnored(t[..|t| - 1]);
    }
  }

  /** A numeral that does not start with a zero has a positive value. */
  lemma {:induction false} NonZeroLeadIsPositive(t: string)
    requires IsNumeral(t) && t[0] != '0'
    ensures NumeralValue(t) >= 1
  {
    if |t| > 1 {
      NonZeroLeadIsPositive(t[..|t| - 1]);
    }
  }

  /** "02.0" is read as release 2.0, the same release as "2.0". */
  lemma LeadingZeroRelease()
    ensures ParseRelease("02.0") == Some([2, 0])
    ensures ParseRelease("2.0") == Some([2, 0])
  {
    assert JoinDots(["02", "0"]) == "02.0";
    SplitJoin(["02", "0"]);
    assert JoinDots(["2", "0"]) == "2.0";
    SplitJoin(["2", "0"]);
    LeadingZeroIgnored("2");
    assert NumeralValue("2") == 2 && NumeralValue("0") == 0;
    assert "0" + "2" == "02";
    assert AllNumerals(["02", "0"]) && AllNumerals(["2", "0"]);
    var r := ParseRelease("02.0").value;
    assert |r| == 2 && r[0] == 2 && r[1] == 0;
    assert r == [2, 0];
    var r' := ParseRelease("2.0").value;
    assert |r'| == 2 && r'[0] == 2 && r'[1] == 0;
    assert r' == [2, 0];
  }

  /** The other round trip: a numeral without a superfluous leading zero is the canonical numeral of its value. */
  lemma {:induction false} ValueNumeralRoundTrip(t: string)
    requires IsNumeral(t) && (|t| == 1 || t[0] != '0')
    ensures Numeral(NumeralValue(t)) == t
  {
    var d := t[|t| - 1];
    if |t| > 1 {
      var init := t[..|t| - 1];
      NonZeroLeadIsPositive(init);
      ValueNumeralRoundTrip(init);
      var n := NumeralValue(t);
      assert n / 10 == NumeralValue(init) && n % 10 == d as int - '0' as int;
      assert t == init + [d];
    }
  }

  /** Parsing the canonical text of a release segment gives the segment back. */
  lemma ParseRenderRoundTrip(v: seq<nat>)
    requires |v| >= 1
    ensures ParseRelease(RenderRelease(v)) == Some(v)
  {
    var parts := seq(|v|, k requires 0 <= k < |v| => Numeral(v[k]));
    forall k | 0 <= k < |parts|
      ensures '.' !in parts[k] && NumeralValue(parts[k]) == v[k]
    {
      NumeralRoundTrip(v[k]);
    }
    SplitJoin(parts);
    assert RenderRelease(v) == JoinDots(parts);
    assert AllNumerals(parts);
    var r := ParseRelease(JoinDots(parts));
    assert r == Some(seq(|parts|, k requires 0 <= k < |parts| => NumeralValue(parts[k])));
    assert r.value == v;
  }

  /** The ordering is antisymmetric: swapping the operands flips the answer. */
  lemma {:induction false} CompareReleaseFlips(a: seq<nat>, b: seq<nat>)
    ensures CompareRelease(b, a) == -CompareRelease(a, b)
    decreases |a| + |b|
  {
    if !(a == [] && b == []) && Component(a, 0) == Component(b, 0) {
      CompareReleaseFlips(Tail(a), Tail(b));
    }
  }

  /** `a` is older than `b` because of component `k`: they agree before it and `a` is lower there. */
  predicate OlderAt(a: seq<nat>, b: seq<nat>, k: nat) {
    Component(a, k) < Component(b, k) && forall j: nat :: j < k ==> Component(a, j) == Component(b, j)
  }

  /**
   * The direction of the ordering: -1 exactly when `a` is lower at the first
   * component where the zero-padded segments differ, 1 exactly when `b` is.
   */
  lemma CompareReleaseOrder(a: seq<nat>, b: seq<nat>)
    ensures CompareRelease(a, b) == -1 <==> exists k: nat :: OlderAt(a, b, k)
    ensures CompareRelease(a, b) == 1 <==> exists k: nat :: OlderAt(b, a, k)
  {
    CompareReleaseOlder(a, b);
    CompareReleaseOlder(b, a);
    CompareReleaseFlips(a, b);
  }

  lemma {:induction false} CompareReleaseOlder(a: seq<nat>, b: seq<nat>)
    ensures CompareRelease(a, b) == -1 <==> exists k: nat :: OlderAt(a, b, k)
    decreases |a| + |b|
  {
    if a == [] && b == [] {
      assert forall k: nat :: !OlderAt(a, b, k);
    } else if Component(a, 0) < Component(b, 0) {
      assert OlderAt(a, b, 0);
    } else if Component(a, 0) > Component(b, 0) {
      forall k: nat
        ensures !OlderAt(a, b, k)
      {
        if k > 0 {
          assert Component(a, 0) != Component(b, 0);
        }
      }
    } else {
      CompareReleaseOlder(Tail(a), Tail(b));
      assert forall k: nat :: Component(Tail(a), k) == Component(a, k + 1);
      assert forall k: nat :: Component(Tail(b), k) == Component(b, k + 1);
      if exists k: nat :: OlderAt(Tail(a), Tail(b), k) {
        var k: nat :| OlderAt(Tail(a), Tail(b), k);
        forall j: nat | j < k + 1
          ensures Component(a, j) == Component(b, j)
        {
          if j > 0 {
            assert Component(Tail(a), j - 1) == Component(Tail(b), j - 1);
          }
        }
        assert OlderAt(a, b, k + 1);
      }
      if exists k: nat :: OlderAt(a, b, k) {
        var k: nat :| OlderAt(a, b, k);
        assert k > 0;
        forall j: nat | j < k - 1
          ensures Component(Tail(a), j) == Component(Tail(b), j)
        {
          assert Component(a, j + 1) == Component(b, j + 1);
        }
        assert OlderAt(Tail(a), Tail(b), k - 1);
      }
    }
  }

  /** Equal under the ordering means equal component by component once zero-padded ("2" == "2.0.0"). */
  lemma {:induction false} CompareReleaseZeroMeansPaddedEqual(a: seq<nat>, b: seq<nat>)
    ensures CompareRelease(a, b) == 0 <==> forall k: nat :: Component(a, k) == Component(b, k)
    decreases |a| + |b|
  {
    if a == [] && b == [] {
    } else if Component(a, 0) != Component(b, 0) {
    } else {
      CompareReleaseZeroMeansPaddedEqual(Tail(a), Tail(b));
      assert forall k: nat :: Component(Tail(a), k) == Component(a, k + 1);
      assert forall k: nat :: Component(Tail(b), k) == Component(b, k + 1);
      if forall k: nat :: Component(Tail(a), k) == Component(Tail(b), k) {
        forall k: nat ensures Component(a, k) == Component(b, k) {
          if k > 0 {
            assert Component(Tail(a), k - 1) == Component(Tail(b), k - 1);
          }
        }
      }
    }
  }

  /**
   * Against 2.0.0 only the major component matters: a release is at least
   * 2.0.0 exactly when its first component is at least 2.
   */
  lemma AtLeastTwoIsMajorAtLeastTwo(v: seq<nat>)
    ensures CompareRelease(v, [2, 0, 0]) >= 0 <==> Component(v, 0) >= 2
  {
    if Component(v, 0) == 2 {
      assert Tail([2, 0, 0]) == [0, 0];
      NothingBelowZeros(Tail(v), [0, 0]);
    }
  }

  /** Nothing compares below a segment of zeros. */
  lemma {:induction false} NothingBelowZeros(v: seq<nat>, z: seq<nat>)
    requires forall k :: 0 <= k < |z| ==> z[k] == 0
    ensures CompareRelease(v, z) >= 0
    decreases |v| + |z|
  {
    if !(v == [] && z == []) && Component(v, 0) == 0 {
      NothingBelowZeros(Tail(v), Tail(z));
    }
  }
}
