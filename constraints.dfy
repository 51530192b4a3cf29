/**
 * Constraints: the three kinds of version requirement a package can declare on a dependency
 * ("*", ">=v", "~v"), how raw requirement text is classified and parsed, and how two
 * requirements on the same dependency are reconciled into one.
 */
module Constraints {
  import opened Wrappers
  import opened Versions

  /**
   * A parsed requirement: any version; `v` or higher (">=v"); or a version from `v` on that stays
   * within v's release line ("~v", the next significant release).
   */
  datatype Constraint = Any | AtLeast(version: Version) | NextSignificantRelease(version: Version)

  // ---------------------------------------------------------------------------------------------
  // Classification of raw requirement text

  /** The text asks for the next significant release: it starts with '~'. */
  predicate VersionFormatIsNextSignificantRelease(raw: string)
    ensures VersionFormatIsNextSignificantRelease(raw) <==> |raw| >= 1 && raw[0] == '~'
  {
    "~" <= raw
  }

  /** The text asks for an equal or higher version: it starts with ">=". */
  predicate VersionFormatIsEqualOrHigher(raw: string)
    ensures VersionFormatIsEqualOrHigher(raw) <==> |raw| >= 2 && raw[0] == '>' && raw[1] == '='
  {
    ">=" <= raw
  }

  /** No text carries both prefixes. */
  lemma FormatsAreExclusive(raw: string)
    ensures !(VersionFormatIsNextSignificantRelease(raw) && VersionFormatIsEqualOrHigher(raw))
  {
    if VersionFormatIsNextSignificantRelease(raw) {
      assert raw[0] == "~"[0];
    }
  }

  /**
   * The version text behind a recognised prefix, or None (PHP null) for text with neither
   * prefix: "", "*" and a bare number such as "2.0.2".
   */
  function CalculateVersionNumberFromDependencyVersion(raw: string): (r: Option<string>)
    ensures r.Some? <==> VersionFormatIsNextSignificantRelease(raw) || VersionFormatIsEqualOrHigher(raw)
    ensures r.Some? && VersionFormatIsNextSignificantRelease(raw) ==> raw == "~" + r.value
    ensures r.Some? && VersionFormatIsEqualOrHigher(raw) ==> raw == ">=" + r.value
  {
    if VersionFormatIsNextSignificantRelease(raw) then
      assert raw == raw[..1] + raw[1..];
      FormatsAreExclusive(raw);
      Some(raw[1..])
    else if VersionFormatIsEqualOrHigher(raw) then
      assert raw == raw[..2] + raw[2..];
      Some(raw[2..])
    else None
  }

  /**
   * Parses raw requirement text: "" and "*" are Any; ">=" or "~" followed by a valid version are
   * AtLeast or NextSignificantRelease; everything else (an empty or malformed version after the
   * prefix, a bare number, unknown text) is a bad format, None.
   */
  function Parse(raw: string): (r: Option<Constraint>)
    ensures r == Some(Any) <==> raw == "" || raw == "*"
    ensures r.Some? && r.value.AtLeast? <==>
              VersionFormatIsEqualOrHigher(raw) && ParseVersion(raw[2..]).Some?
    ensures r.Some? && r.value.NextSignificantRelease? <==>
              VersionFormatIsNextSignificantRelease(raw) && ParseVersion(raw[1..]).Some?
    ensures r.Some? && !r.value.Any? ==>
              r.value.version != [] &&
              ParseVersion(CalculateVersionNumberFromDependencyVersion(raw).value) == Some(r.value.version)
  {
    if raw == "" || raw == "*" then Some(Any)
    else
      match CalculateVersionNumberFromDependencyVersion(raw)
      case None => None
      case Some(text) =>
        match ParseVersion(text)
        case None => None
        case Some(v) =>
          if VersionFormatIsNextSignificantRelease(raw) then Some(NextSignificantRelease(v))
          else Some(AtLeast(v))
  }

  /**
   * The canonical text of a constraint; Any renders as "*". The kind can be read back from the
   * prefix of the text.
   */
  function Render(c: Constraint): (r: string)
    ensures r == "*" <==> c.Any?
    ensures VersionFormatIsEqualOrHigher(r) <==> c.AtLeast?
    ensures VersionFormatIsNextSignificantRelease(r) <==> c.NextSignificantRelease?
  {
    match c
    case Any => "*"
    case AtLeast(v) => var r := ">=" + RenderVersion(v); assert r[0] == '>'; r
    case NextSignificantRelease(v) => var r := "~" + RenderVersion(v); assert r[0] == '~'; r
  }

  /** A constraint whose version is non-empty (every parsed constraint is one). */
  predicate WellFormed(c: Constraint)
  {
    !c.Any? ==> c.version != []
  }

  /** Rendering a well-formed constraint and parsing the text gives the constraint back. */
  lemma {:induction false} ParseRender(c: Constraint)
    requires WellFormed(c)
    ensures Parse(Render(c)) == Some(c)
  {
    match c
    case Any =>
    case AtLeast(v) =>
      VersionRoundTrip(v);
      assert (">=" + RenderVersion(v))[2..] == RenderVersion(v);
    case NextSignificantRelease(v) =>
      VersionRoundTrip(v);
      assert ("~" + RenderVersion(v))[1..] == RenderVersion(v);
  }

  // ---------------------------------------------------------------------------------------------
  // Compatibility and reconciliation

  /**
   * Two "~" bases are compatible exactly when their leading segments are equal; deeper
   * segments and the number of segments play no part.
   */
  predicate CheckNextSignificantReleasesAreCompatible(a: Version, b: Version)
    ensures a != [] && b != [] ==>
              (CheckNextSignificantReleasesAreCompatible(a, b) <==> Compare(a[..1], b[..1]) == Equal)
  {
    Lead(a) == Lead(b)
  }

  /** Both texts are versions, and as "~" bases they are compatible. */
  predicate CompatibleTexts(a: string, b: string)
  {
    ParseVersion(a).Some? && ParseVersion(b).Some? &&
    CheckNextSignificantReleasesAreCompatible(ParseVersion(a).value, ParseVersion(b).value)
  }

  /**
   * The part of a version text before its first dot is read as the leading segment, and on its
   * own it is the one-segment version of that segment.
   */
  lemma {:induction false} LeadingPart(a: string, s: string)
    requires '.' !in a && ParseVersion(a + "." + s).Some?
    ensures ParseSegment(a).Some? && ParseVersion(a) == Some([ParseSegment(a).value])
    ensures Lead(ParseVersion(a + "." + s).value) == Weight(ParseSegment(a).value)
  {
    SplitAfterPart(a, s);
    var parts := [a] + SplitDots(s);
    assert parts[0] == a && parts[1..] == SplitDots(s);
    SplitWithoutDot(a);
    assert [a][1..] == [];
    var seg := ParseSegment(a).value;
    assert ParseSegments([a]) == Some([seg] + []);
    assert [seg] + [] == [seg];
  }

  /** Compatibility of texts is symmetric. */
  lemma CompatibilityIsSymmetric(a: string, b: string)
    ensures CompatibleTexts(a, b) <==> CompatibleTexts(b, a)
  {
  }

  /** Only the part before the first dot matters: dropping the deeper segments keeps compatibility. */
  lemma CompatibilityIgnoresDepth(a: string, s: string, b: string)
    requires '.' !in a && ParseVersion(a + "." + s).Some?
    ensures CompatibleTexts(a + "." + s, b) <==> CompatibleTexts(a, b)
  {
    LeadingPart(a, s);
  }

  /**
   * Two dotted texts whose leading parts are digits are compatible exactly when those parts
   * denote the same number ("30.0" and "30.10" are, "1.0" and "2.2" are not).
   */
  lemma CompatibilityComparesLeadingNumbers(a: string, s: string, b: string, t: string)
    requires '.' !in a && '.' !in b && AllDigits(a) && AllDigits(b)
    requires ParseVersion(a + "." + s).Some? && ParseVersion(b + "." + t).Some?
    ensures CompatibleTexts(a + "." + s, b + "." + t) <==> NatValue(a) == NatValue(b)
  {
    LeadingPart(a, s);
    LeadingPart(b, t);
  }

  /** `t` is a "~" constraint and `x` asks for a version beyond t's release line. */
  predicate Clash(t: Constraint, x: Constraint)
  {
    t.NextSignificantRelease? && !x.Any? && Lead(x.version) > Lead(t.version)
  }

  /** No version satisfies both constraints, as this engine judges it. */
  predicate Conflicting(a: Constraint, b: Constraint)
  {
    Clash(a, b) || Clash(b, a)
  }

  /**
   * `r` is at least as strict as `c`: a specific `c` is never replaced by Any, a ">=" bound never
   * decreases, and a "~" constraint stays a "~" constraint on the same release line.
   */
  predicate Covers(r: Constraint, c: Constraint)
  {
    match c
    case Any => true
    case AtLeast(v) => !r.Any? && NotBelow(r.version, v)
    case NextSignificantRelease(v) =>
      r.NextSignificantRelease? && Lead(r.version) == Lead(v) && NotBelow(r.version, v)
  }

  lemma CoversReflexive(c: Constraint)
    ensures Covers(c, c)
  {
    if !c.Any? { CompareReflexive(c.version); }
  }

  lemma CoversTransitive(a: Constraint, b: Constraint, c: Constraint)
    requires Covers(a, b) && Covers(b, c)
    ensures Covers(a, c)
  {
    if !c.Any? { NotBelowTransitive(a.version, b.version, c.version); }
  }

  /** A constraint that covers `e` and does not conflict with `c` keeps what `e` covers apart from `c`. */
  lemma NoConflictThroughCover(e: Constraint, p: Constraint, c: Constraint)
    requires Covers(e, p) && !Conflicting(e, c)
    ensures !Conflicting(p, c)
  {
    if !p.Any? { NotBelowLead(e.version, p.version); }
  }

  /** `r` takes its kind and its version from `a` or from `b`. */
  predicate DrawnFrom(r: Constraint, a: Constraint, b: Constraint)
  {
    && (r.Any? ==> a.Any? && b.Any?)
    && (!r.Any? ==> (!a.Any? && r.version == a.version) || (!b.Any? && r.version == b.version))
    && (r.NextSignificantRelease? ==> a.NextSignificantRelease? || b.NextSignificantRelease?)
  }

  /**
   * Combines the constraint stored for a dependency with a newly required one. Any never
   * overrides a specific constraint; two ">=" bounds give the higher one; two "~" bases must be
   * compatible and give the higher one; a ">=v" with a "~t" is accepted when v does not lie beyond
   * t's release line and gives "~" of the higher version. None means incompatible versions.
   */
  function Reconcile(stored: Constraint, required: Constraint): (r: Option<Constraint>)
    ensures r.None? <==> Conflicting(stored, required)
    ensures stored.NextSignificantRelease? && required.NextSignificantRelease? ==>
              (r.Some? <==> CheckNextSignificantReleasesAreCompatible(stored.version, required.version))
    ensures r.Some? ==> Covers(r.value, stored) && Covers(r.value, required)
    ensures r.Some? ==> DrawnFrom(r.value, stored, required)
  {
    CoversReflexive(stored);
    CoversReflexive(required);
    match (stored, required)
    case (_, Any) => Some(stored)
    case (Any, _) => Some(required)
    case (AtLeast(v), AtLeast(w)) => Some(AtLeast(Max(v, w)))
    case (NextSignificantRelease(v), NextSignificantRelease(w)) =>
      if CheckNextSignificantReleasesAreCompatible(v, w) then Some(NextSignificantRelease(Max(v, w))) else None
    case (AtLeast(v), NextSignificantRelease(w)) =>
      if Lead(v) <= Lead(w) then
        NotBelowLead(Max(v, w), w);
        Some(NextSignificantRelease(Max(v, w)))
      else None
    case (NextSignificantRelease(v), AtLeast(w)) =>
      if Lead(w) <= Lead(v) then
        NotBelowLead(Max(v, w), v);
        Some(NextSignificantRelease(Max(v, w)))
      else None
  }
}
