/**
 * Versions: dotted version text such as "2.3.4" or "2.3.x", its parsing into segments,
 * its rendering back to text, and the numeric ordering used to merge `>=` requirements.
 */
module Versions {
  import opened Wrappers

  /** One dot-separated component of a version: a number, or the wildcard segment `x`. */
  datatype Segment = Num(n: nat) | X

  /** The segments of a version, most significant first. */
  type Version = seq<Segment>

  datatype Ordering = Less | Equal | Greater

  /** Numeric weight of a segment in comparisons; the wildcard `x` weighs as 0. */
  function Weight(s: Segment): nat
  {
    match s
    case Num(n) => n
    case X => 0
  }

  // ---------------------------------------------------------------------------------------------
  // Decimal digits

  predicate IsDigit(c: char)
  {
    '0' <= c <= '9'
  }

  predicate AllDigits(t: string)
  {
    forall i :: 0 <= i < |t| ==> IsDigit(t[i])
  }

  function DigitChar(d: nat): (c: char)
    requires d < 10
    ensures IsDigit(c) && c as int - '0' as int == d
  {
    ('0' as int + d) as char
  }

  /** The number a string of decimal digits denotes (leading zeros allowed). */
  function NatValue(t: string): nat
    requires AllDigits(t)
  {
    if t == [] then 0 else NatValue(t[..|t| - 1]) * 10 + (t[|t| - 1] as int - '0' as int)
  }

  /** The decimal text of a number; reading it back gives the number. */
  function NatText(n: nat): (t: string)
    ensures t != [] && AllDigits(t) && NatValue(t) == n
  {
    if n < 10 then [DigitChar(n)]
    else
      var t := NatText(n / 10) + [DigitChar(n % 10)];
      assert t[..|t| - 1] == NatText(n / 10);
      t
  }

  // ---------------------------------------------------------------------------------------------
  // Segments and dotted text

  function ParseSegment(t: string): (r: Option<Segment>)
    ensures r.Some? ==> t != [] && '.' !in t
  {
    if t == "x" then Some(X)
    else if t != [] && AllDigits(t) then Some(Num(NatValue(t)))
    else None
  }

  /** The text of one segment: it holds no dot and parses back to the segment. */
  function SegmentText(s: Segment): (t: string)
    ensures '.' !in t && ParseSegment(t) == Some(s)
  {
    match s
    case X => "x"
    case Num(n) =>
      var t := NatText(n);
      assert IsDigit(t[0]);
      t
  }

  /** Splits text at every '.'; "" gives [""], "1..2" gives ["1", "", "2"]. */
  function SplitDots(t: string): (parts: seq<string>)
    ensures |parts| >= 1
  {
    if t == [] then [""]
    else
      var rest := SplitDots(t[1..]);
      if t[0] == '.' then [""] + rest
      else [[t[0]] + rest[0]] + rest[1..]
  }

  /** Text without a dot is one part. */
  lemma {:induction false} SplitWithoutDot(t: string)
    requires '.' !in t
    ensures SplitDots(t) == [t]
  {
    if t != [] {
      SplitWithoutDot(t[1..]);
      assert [t[0]] + t[1..] == t;
    }
  }

  /** A dot-free part followed by a dot splits off as the first part. */
  lemma {:induction false} SplitAfterPart(t: string, rest: string)
    requires '.' !in t
    ensures SplitDots(t + "." + rest) == [t] + SplitDots(rest)
  {
    var s := t + "." + rest;
    if t == [] {
      assert s == "." + rest && s[1..] == rest;
    } else {
      assert s[1..] == t[1..] + "." + rest;
      SplitAfterPart(t[1..], rest);
      assert [t[0]] + t[1..] == t;
    }
  }

  function ParseSegments(parts: seq<string>): (r: Option<Version>)
    ensures r.Some? ==> |r.value| == |parts|
  {
    if parts == [] then Some([])
    else
      match ParseSegment(parts[0])
      case None => None
      case Some(s) =>
        match ParseSegments(parts[1..])
        case None => None
        case Some(v) => Some([s] + v)
  }

  /** Reads dotted version text: one or more segments, each digits or `x`, separated by single dots. */
  function ParseVersion(t: string): (r: Option<Version>)
    ensures r.Some? ==> |r.value| >= 1
  {
    ParseSegments(SplitDots(t))
  }

  /** The dotted text of a version (the empty version renders as the empty text). */
  function RenderVersion(v: Version): string
  {
    if v == [] then ""
    else if |v| == 1 then SegmentText(v[0])
    else SegmentText(v[0]) + "." + RenderVersion(v[1..])
  }

  /** Every non-empty version survives rendering and parsing unchanged. */
  lemma {:induction false} VersionRoundTrip(v: Version)
    requires v != []
    ensures ParseVersion(RenderVersion(v)) == Some(v)
  {
    var t := SegmentText(v[0]);
    if |v| == 1 {
      SplitWithoutDot(t);
      assert ParseSegments([t][1..]) == Some([]);
      assert [v[0]] + [] == v;
    } else {
      var rest := RenderVersion(v[1..]);
      SplitAfterPart(t, rest);
      VersionRoundTrip(v[1..]);
      var parts := [t] + SplitDots(rest);
      assert parts[0] == t && parts[1..] == SplitDots(rest);
      assert [v[0]] + v[1..] == v;
    }
  }

  // ---------------------------------------------------------------------------------------------
  // Ordering

  /** The leading segment's weight (0 for the empty version). */
  function Lead(v: Version): nat
  {
    if v == [] then 0 else Weight(v[0])
  }

  function Rest(v: Version): Version
  {
    if v == [] then [] else v[1..]
  }

  /**
   * Segment-by-segment numeric comparison; the shorter version is padded with zero segments,
   * so "1.0" and "1" compare Equal and "10" is Greater than "9".
   */
  function Compare(a: Version, b: Version): Ordering
    decreases |a| + |b|
  {
    if a == [] && b == [] then Equal
    else if Lead(a) < Lead(b) then Less
    else if Lead(a) > Lead(b) then Greater
    else Compare(Rest(a), Rest(b))
  }

  /** `a` is at least as high as `b`. */
  predicate NotBelow(a: Version, b: Version)
  {
    Compare(a, b) != Less
  }

  lemma {:induction false} CompareReflexive(a: Version)
    ensures Compare(a, a) == Equal
    decreases |a|
  {
    if a != [] {
      CompareReflexive(Rest(a));
    }
  }

  /** Swapping the arguments swaps Less and Greater. */
  lemma {:induction false} CompareAntisymmetric(a: Version, b: Version)
    ensures Compare(a, b) == Less <==> Compare(b, a) == Greater
    ensures Compare(a, b) == Equal <==> Compare(b, a) == Equal
    decreases |a| + |b|
  {
    if !(a == [] && b == []) && Lead(a) == Lead(b) {
      CompareAntisymmetric(Rest(a), Rest(b));
    }
  }

  lemma {:induction false} NotBelowTransitive(a: Version, b: Version, c: Version)
    requires NotBelow(a, b) && NotBelow(b, c)
    ensures NotBelow(a, c)
    decreases |a| + |b| + |c|
  {
    if a == [] && c == [] {
      CompareReflexive(a);
    } else if Lead(a) == Lead(c) {
      if b == [] && a == [] {
        assert c != [];
        assert Lead(b) == 0 && Lead(a) == 0;
        NotBelowTransitive(Rest(a), Rest(b), Rest(c));
      } else {
        NotBelowTransitive(Rest(a), Rest(b), Rest(c));
      }
    }
  }

  /** A version at least as high as another has at least as high a leading segment. */
  lemma NotBelowLead(a: Version, b: Version)
    requires NotBelow(a, b)
    ensures Lead(a) >= Lead(b)
  {
  }

  /** Two versions each at least as high as the other compare Equal. */
  lemma {:induction false} MutuallyNotBelow(a: Version, b: Version)
    requires NotBelow(a, b) && NotBelow(b, a)
    ensures Compare(a, b) == Equal
  {
    CompareAntisymmetric(a, b);
  }

  /** The higher of two versions; on a tie, the first. */
  function Max(a: Version, b: Version): (m: Version)
    ensures m == a || m == b
    ensures NotBelow(m, a) && NotBelow(m, b)
    ensures Compare(a, b) != Less ==> m == a
  {
    CompareReflexive(a);
    CompareReflexive(b);
    CompareAntisymmetric(a, b);
    if Compare(a, b) == Less then b else a
  }
}
