/**
 * InstallCommandScenarios: the concrete inputs and outcomes that InstallCommand's unit tests fix,
 * each proved about the model.
 */
module InstallCommandScenarios {
  import opened Wrappers
  import opened Versions
  import opened Constraints
  import opened DependencyMerge

  // ---------------------------------------------------------------------------------------------
  // Reading concrete text

  function V2(a: nat, b: nat): Version { [Num(a), Num(b)] }
  function V3(a: nat, b: nat, c: nat): Version { [Num(a), Num(b), Num(c)] }

  /** Text that renders from a version reads back as that version. */
  lemma ReadsAs(t: string, v: Version)
    requires v != [] && RenderVersion(v) == t
    ensures ParseVersion(t) == Some(v)
  {
    VersionRoundTrip(v);
  }

  /** Requirement text that renders from a constraint parses back as that constraint. */
  lemma ParsesAs(raw: string, c: Constraint)
    requires WellFormed(c) && Render(c) == raw
    ensures Parse(raw) == Some(c)
  {
    ParseRender(c);
  }

  function Req(name: string, version: string): Requirement
  {
    Requirement(name, Some(version))
  }

  /** Folding a requirement that steps to `next` goes on from `next`. */
  lemma FoldCons(acc: map<string, Constraint>, r: Requirement, rest: seq<Requirement>, next: map<string, Constraint>)
    requires Step(acc, r) == Ok(next)
    ensures Fold(acc, [r] + rest) == Fold(next, rest)
  {
    assert ([r] + rest)[0] == r && ([r] + rest)[1..] == rest;
  }

  // ---------------------------------------------------------------------------------------------
  // Classifying and stripping requirement text

  lemma NextSignificantReleaseExamples()
    ensures !VersionFormatIsNextSignificantRelease(">=1.0")
    ensures !VersionFormatIsNextSignificantRelease(">=2.3.4")
    ensures !VersionFormatIsNextSignificantRelease(">=2.3.x")
    ensures !VersionFormatIsNextSignificantRelease("1.0")
    ensures VersionFormatIsNextSignificantRelease("~2.3.x")
    ensures VersionFormatIsNextSignificantRelease("~2.0")
  {
    assert ">=1.0"[0] != "~"[0] && ">=2.3.4"[0] != "~"[0] && ">=2.3.x"[0] != "~"[0] && "1.0"[0] != "~"[0];
  }

  lemma EqualOrHigherExamples()
    ensures VersionFormatIsEqualOrHigher(">=1.0")
    ensures VersionFormatIsEqualOrHigher(">=2.3.4")
    ensures VersionFormatIsEqualOrHigher(">=2.3.x")
    ensures !VersionFormatIsEqualOrHigher("~2.3.x")
    ensures !VersionFormatIsEqualOrHigher("1.0")
  {
    assert "~2.3.x"[0] != ">="[0] && "1.0"[0] != ">="[0];
  }

  lemma VersionNumberExamples()
    ensures CalculateVersionNumberFromDependencyVersion(">=2.0") == Some("2.0")
    ensures CalculateVersionNumberFromDependencyVersion(">=2.0.2") == Some("2.0.2")
    ensures CalculateVersionNumberFromDependencyVersion("~2.0.2") == Some("2.0.2")
    ensures CalculateVersionNumberFromDependencyVersion("~1") == Some("1")
    ensures CalculateVersionNumberFromDependencyVersion("") == None
    ensures CalculateVersionNumberFromDependencyVersion("*") == None
    ensures CalculateVersionNumberFromDependencyVersion("2.0.2") == None
  {
  }

  // ---------------------------------------------------------------------------------------------
  // Compatibility of "~" bases given as text

  /** Both texts are versions, and as "~" bases they are not compatible. */
  predicate IncompatibleTexts(a: string, b: string)
  {
    ParseVersion(a).Some? && ParseVersion(b).Some? &&
    !CheckNextSignificantReleasesAreCompatible(ParseVersion(a).value, ParseVersion(b).value)
  }

  // The version texts of the compatibility examples, read

  lemma Reads1_0()
    ensures ParseVersion("1.0") == Some([Num(1), Num(0)])
  {
    ReadsAs("1.0", [Num(1), Num(0)]);
  }

  lemma Reads1_2()
    ensures ParseVersion("1.2") == Some([Num(1), Num(2)])
  {
    ReadsAs("1.2", [Num(1), Num(2)]);
  }

  lemma Reads1_0_10()
    ensures ParseVersion("1.0.10") == Some([Num(1), Num(0), Num(10)])
  {
    ReadsAs("1.0.10", [Num(1), Num(0), Num(10)]);
  }

  lemma Reads1_1()
    ensures ParseVersion("1.1") == Some([Num(1), Num(1)])
  {
    ReadsAs("1.1", [Num(1), Num(1)]);
  }

  lemma Reads1_1_10()
    ensures ParseVersion("1.1.10") == Some([Num(1), Num(1), Num(10)])
  {
    ReadsAs("1.1.10", [Num(1), Num(1), Num(10)]);
  }

  lemma Reads30_0()
    ensures ParseVersion("30.0") == Some([Num(30), Num(0)])
  {
    ReadsAs("30.0", [Num(30), Num(0)]);
  }

  lemma Reads30_10()
    ensures ParseVersion("30.10") == Some([Num(30), Num(10)])
  {
    ReadsAs("30.10", [Num(30), Num(10)]);
  }

  lemma Reads1_8()
    ensures ParseVersion("1.8") == Some([Num(1), Num(8)])
  {
    ReadsAs("1.8", [Num(1), Num(8)]);
  }

  lemma Reads1_0_1()
    ensures ParseVersion("1.0.1") == Some([Num(1), Num(0), Num(1)])
  {
    ReadsAs("1.0.1", [Num(1), Num(0), Num(1)]);
  }

  lemma Reads2_2()
    ensures ParseVersion("2.2") == Some([Num(2), Num(2)])
  {
    ReadsAs("2.2", [Num(2), Num(2)]);
  }

  lemma Reads0_9_99()
    ensures ParseVersion("0.9.99") == Some([Num(0), Num(9), Num(99)])
  {
    ReadsAs("0.9.99", [Num(0), Num(9), Num(99)]);
  }

  lemma Reads1_0_0()
    ensures ParseVersion("1.0.0") == Some([Num(1), Num(0), Num(0)])
  {
    ReadsAs("1.0.0", [Num(1), Num(0), Num(0)]);
  }

  lemma Reads1_0_10_2()
    ensures ParseVersion("1.0.10.2") == Some([Num(1), Num(0), Num(10), Num(2)])
  {
    ReadsAs("1.0.10.2", [Num(1), Num(0), Num(10), Num(2)]);
  }

  /** Bases on one release line: differing after the leading segment, in either order, or in length. */
  lemma CompatibleReleaseLines()
    ensures CompatibleTexts("1.0", "1.2")
    ensures CompatibleTexts("1.2", "1.0")
    ensures CompatibleTexts("1.0", "1.0.10")
    ensures CompatibleTexts("1.1", "1.1.10")
  {
    Reads1_0();
    Reads1_2();
    Reads1_0_10();
    Reads1_1();
    Reads1_1_10();
  }

  /** Two-digit leading segments, and bases on one line whose later segments differ. */
  lemma MoreCompatibleReleaseLines()
    ensures CompatibleTexts("30.0", "30.10")
    ensures CompatibleTexts("1.0", "1.1.10")
    ensures CompatibleTexts("1.0", "1.8")
    ensures CompatibleTexts("1.0.1", "1.1")
  {
    Reads30_0();
    Reads30_10();
    Reads1_0();
    Reads1_1_10();
    Reads1_8();
    Reads1_0_1();
    Reads1_1();
  }

  /** Bases whose leading segments differ, including a 0.x base against 1.x bases of three and four segments. */
  lemma IncompatibleReleaseLines()
    ensures IncompatibleTexts("1.0", "2.2")
    ensures IncompatibleTexts("0.9.99", "1.0.0")
    ensures IncompatibleTexts("0.9.99", "1.0.10")
    ensures IncompatibleTexts("0.9.99", "1.0.10.2")
  {
    Reads1_0();
    Reads2_2();
    Reads0_9_99();
    Reads1_0_0();
    Reads1_0_10();
    Reads1_0_10_2();
  }

  // ---------------------------------------------------------------------------------------------
  // The requirement texts of the merge examples, read

  lemma ParseGe1_0_10()
    ensures Parse(">=1.0.10") == Some(AtLeast(V3(1, 0, 10)))
  {
    ParsesAs(">=1.0.10", AtLeast(V3(1, 0, 10)));
  }

  lemma ParseGe1_0()
    ensures Parse(">=1.0") == Some(AtLeast(V2(1, 0)))
  {
    ParsesAs(">=1.0", AtLeast(V2(1, 0)));
  }

  lemma ParseGe2_0()
    ensures Parse(">=2.0") == Some(AtLeast(V2(2, 0)))
  {
    ParsesAs(">=2.0", AtLeast(V2(2, 0)));
  }

  lemma ParseGe3_2()
    ensures Parse(">=3.2") == Some(AtLeast(V2(3, 2)))
  {
    ParsesAs(">=3.2", AtLeast(V2(3, 2)));
  }

  lemma ParseGe4_0()
    ensures Parse(">=4.0") == Some(AtLeast(V2(4, 0)))
  {
    ParsesAs(">=4.0", AtLeast(V2(4, 0)));
  }

  lemma ParseTilde2_0()
    ensures Parse("~2.0") == Some(NextSignificantRelease(V2(2, 0)))
  {
    ParsesAs("~2.0", NextSignificantRelease(V2(2, 0)));
  }

  lemma ParseTilde3_0()
    ensures Parse("~3.0") == Some(NextSignificantRelease(V2(3, 0)))
  {
    ParsesAs("~3.0", NextSignificantRelease(V2(3, 0)));
  }

  lemma ParseTilde4_0()
    ensures Parse("~4.0") == Some(NextSignificantRelease(V2(4, 0)))
  {
    ParsesAs("~4.0", NextSignificantRelease(V2(4, 0)));
  }

  lemma ParseWildcard()
    ensures Parse("*") == Some(Any)
  {
  }

  lemma ParseBareGe()
    ensures Parse(">=") == None
  {
  }

  lemma RendersGe1_0_10()
    ensures Render(AtLeast(V3(1, 0, 10))) == ">=1.0.10"
  {
  }

  lemma RendersGe1_0()
    ensures Render(AtLeast(V2(1, 0))) == ">=1.0"
  {
  }

  lemma RendersGe3_2()
    ensures Render(AtLeast(V2(3, 2))) == ">=3.2"
  {
  }

  lemma RendersGe4_0()
    ensures Render(AtLeast(V2(4, 0))) == ">=4.0"
  {
  }

  lemma RendersTilde4_0()
    ensures Render(NextSignificantRelease(V2(4, 0))) == "~4.0"
  {
  }

  // ---------------------------------------------------------------------------------------------
  // Folding one requirement at a time

  /** A new name with well-formed text is added with its parsed constraint, and the fold goes on. */
  lemma FoldAdds(acc: map<string, Constraint>, r: Requirement, c: Constraint, rest: seq<Requirement>)
    requires r.name !in acc && Parse(RawVersion(r)) == Some(c)
    ensures Fold(acc, [r] + rest) == Fold(acc[r.name := c], rest)
  {
    FoldCons(acc, r, rest, acc[r.name := c]);
  }

  /** A known name with well-formed text is reconciled with its entry, and the fold goes on. */
  lemma FoldReconciles(acc: map<string, Constraint>, r: Requirement, c: Constraint, merged: Constraint,
                       rest: seq<Requirement>)
    requires r.name in acc && Parse(RawVersion(r)) == Some(c) && Reconcile(acc[r.name], c) == Some(merged)
    ensures Fold(acc, [r] + rest) == Fold(acc[r.name := merged], rest)
  {
    FoldCons(acc, r, rest, acc[r.name := merged]);
  }

  /** Malformed text stops the fold with a bad-format error. */
  lemma FoldRejectsFormat(acc: map<string, Constraint>, r: Requirement, rest: seq<Requirement>)
    requires Parse(RawVersion(r)) == None
    ensures Fold(acc, [r] + rest) == Err(BadFormat(r.name, RawVersion(r)))
  {
    assert ([r] + rest)[0] == r;
  }

  /** Text that conflicts with the stored entry stops the fold with an incompatible-versions error. */
  lemma FoldRejectsConflict(acc: map<string, Constraint>, r: Requirement, c: Constraint, rest: seq<Requirement>)
    requires r.name in acc && Parse(RawVersion(r)) == Some(c) && Reconcile(acc[r.name], c) == None
    ensures Fold(acc, [r] + rest) == Err(IncompatibleVersions(r.name, Render(acc[r.name]), RawVersion(r)))
  {
    assert ([r] + rest)[0] == r;
  }

  // ---------------------------------------------------------------------------------------------
  // Merging: the first working example

  /**
   * The first example's input: package admin requires grav, form, login, errors (as "*") and
   * problems (with no version), and package test requires errors again. The unit test uses those
   * words as the names; any five distinct names behave alike.
   */
  function FirstExample(grav: string, form: string, login: string, errors: string, problems: string): seq<PackageGroup>
  {
    [[Package("admin", [Req(grav, ">=1.0.10"), Req(form, "~2.0"), Req(login, ">=2.0"),
                        Req(errors, "*"), Requirement(problems, None)]),
      Package("test", [Req(errors, ">=1.0")])]]
  }

  predicate Distinct5(a: string, b: string, c: string, d: string, e: string)
  {
    a != b && a != c && a != d && a != e && b != c && b != d && b != e && c != d && c != e && d != e
  }

  lemma FirstExampleFlattens(grav: string, form: string, login: string, errors: string, problems: string)
    ensures FlattenGroups(FirstExample(grav, form, login, errors, problems)) ==
              [Req(grav, ">=1.0.10")] + ([Req(form, "~2.0")] + ([Req(login, ">=2.0")] +
              ([Req(errors, "*")] + ([Requirement(problems, None)] + ([Req(errors, ">=1.0")] + [])))))
  {
    var gs := FirstExample(grav, form, login, errors, problems);
    var ps := gs[0];
    assert gs[1..] == [] && ps[1..][1..] == [];
    assert FlattenPackages(ps[1..]) == [Req(errors, ">=1.0")] + [];
  }

  /** Two requirements on two new, distinct names are both added, and the fold goes on. */
  lemma FoldAddsTwo(acc: map<string, Constraint>, r1: Requirement, r2: Requirement,
                    c1: Constraint, c2: Constraint, rest: seq<Requirement>)
    requires r1.name !in acc && r2.name !in acc && r1.name != r2.name
    requires Parsed(r1) == Some(c1) && Parsed(r2) == Some(c2)
    ensures Fold(acc, [r1] + ([r2] + rest)) == Fold(acc[r1.name := c1][r2.name := c2], rest)
  {
    FoldAdds(acc, r1, c1, [r2] + rest);
    FoldAdds(acc[r1.name := c1], r2, c2, rest);
  }

  /**
   * Six requirements on five distinct names, the fourth name required again last: each of the
   * first five is added, and the sixth is reconciled with the fourth.
   */
  lemma FoldFiveThenRepeat(acc: map<string, Constraint>, r1: Requirement, r2: Requirement, r3: Requirement,
                           r4: Requirement, r5: Requirement, r6: Requirement, c1: Constraint, c2: Constraint,
                           c3: Constraint, c4: Constraint, c5: Constraint, c6: Constraint, merged: Constraint,
                           rest: seq<Requirement>)
    requires Distinct5(r1.name, r2.name, r3.name, r4.name, r5.name) && r6.name == r4.name
    requires r1.name !in acc && r2.name !in acc && r3.name !in acc && r4.name !in acc && r5.name !in acc
    requires Parsed(r1) == Some(c1) && Parsed(r2) == Some(c2) && Parsed(r3) == Some(c3)
    requires Parsed(r4) == Some(c4) && Parsed(r5) == Some(c5) && Parsed(r6) == Some(c6)
    requires Reconcile(c4, c6) == Some(merged)
    ensures Fold(acc, [r1] + ([r2] + ([r3] + ([r4] + ([r5] + ([r6] + rest)))))) ==
              Fold(acc[r1.name := c1][r2.name := c2][r3.name := c3][r4.name := c4][r5.name := c5][r4.name := merged], rest)
  {
    var acc3 := acc[r1.name := c1][r2.name := c2][r3.name := c3];
    FoldAddsThree(acc, r1, r2, r3, c1, c2, c3, [r4] + ([r5] + ([r6] + rest)));
    FoldAddThenRepeat(acc3, r4, r5, r6, c4, c5, c6, merged, rest);
  }

  /** Three requirements on three new, distinct names are all added, and the fold goes on. */
  lemma FoldAddsThree(acc: map<string, Constraint>, r1: Requirement, r2: Requirement, r3: Requirement,
                      c1: Constraint, c2: Constraint, c3: Constraint, rest: seq<Requirement>)
    requires r1.name !in acc && r2.name !in acc && r3.name !in acc
    requires r1.name != r2.name && r1.name != r3.name && r2.name != r3.name
    requires Parsed(r1) == Some(c1) && Parsed(r2) == Some(c2) && Parsed(r3) == Some(c3)
    ensures Fold(acc, [r1] + ([r2] + ([r3] + rest))) == Fold(acc[r1.name := c1][r2.name := c2][r3.name := c3], rest)
  {
    FoldAddsTwo(acc, r1, r2, c1, c2, [r3] + rest);
    FoldAdds(acc[r1.name := c1][r2.name := c2], r3, c3, rest);
  }

  /** Two new names are added, and a third requirement on the first of them is reconciled. */
  lemma FoldAddThenRepeat(acc: map<string, Constraint>, r4: Requirement, r5: Requirement, r6: Requirement,
                          c4: Constraint, c5: Constraint, c6: Constraint, merged: Constraint, rest: seq<Requirement>)
    requires r4.name !in acc && r5.name !in acc && r4.name != r5.name && r6.name == r4.name
    requires Parsed(r4) == Some(c4) && Parsed(r5) == Some(c5) && Parsed(r6) == Some(c6)
    requires Reconcile(c4, c6) == Some(merged)
    ensures Fold(acc, [r4] + ([r5] + ([r6] + rest))) == Fold(acc[r4.name := c4][r5.name := c5][r4.name := merged], rest)
  {
    FoldAddsTwo(acc, r4, r5, c4, c5, [r6] + rest);
    FoldReconciles(acc[r4.name := c4][r5.name := c5], r6, c6, merged, rest);
  }

  /** Updating the fourth of five distinct keys again is the same as giving it the new value at once. */
  lemma UpdateFourthAgain(k1: string, k2: string, k3: string, k4: string, k5: string,
                          c1: Constraint, c2: Constraint, c3: Constraint, c4: Constraint, c5: Constraint,
                          merged: Constraint)
    requires Distinct5(k1, k2, k3, k4, k5)
    ensures map[k1 := c1][k2 := c2][k3 := c3][k4 := c4][k5 := c5][k4 := merged] ==
              map[k1 := c1, k2 := c2, k3 := c3, k4 := merged, k5 := c5]
  {
  }

  lemma FirstExampleFolds(grav: string, form: string, login: string, errors: string, problems: string)
    requires Distinct5(grav, form, login, errors, problems)
    ensures MergedDependencies(FirstExample(grav, form, login, errors, problems)) ==
              Ok(map[grav := AtLeast(V3(1, 0, 10)), form := NextSignificantRelease(V2(2, 0)),
                     login := AtLeast(V2(2, 0)), errors := AtLeast(V2(1, 0)), problems := Any])
  {
    FirstExampleFlattens(grav, form, login, errors, problems);
    ParseGe1_0_10();
    ParseTilde2_0();
    ParseGe2_0();
    ParseWildcard();
    ParseGe1_0();
    SecondExampleReconciles();
    FoldFiveThenRepeat(map[], Req(grav, ">=1.0.10"), Req(form, "~2.0"), Req(login, ">=2.0"), Req(errors, "*"),
                       Requirement(problems, None), Req(errors, ">=1.0"),
                       AtLeast(V3(1, 0, 10)), NextSignificantRelease(V2(2, 0)), AtLeast(V2(2, 0)), Any, Any,
                       AtLeast(V2(1, 0)), AtLeast(V2(1, 0)), []);
    var acc6 := map[grav := AtLeast(V3(1, 0, 10))][form := NextSignificantRelease(V2(2, 0))][login := AtLeast(V2(2, 0))]
                   [errors := Any][problems := Any][errors := AtLeast(V2(1, 0))];
    assert Fold(acc6, []) == Ok(acc6);
    UpdateFourthAgain(grav, form, login, errors, problems, AtLeast(V3(1, 0, 10)), NextSignificantRelease(V2(2, 0)),
                      AtLeast(V2(2, 0)), Any, Any, AtLeast(V2(1, 0)));
  }

  /**
   * Five dependencies; grav keeps ">=1.0.10", errors takes ">=1.0" over the wildcard, and
   * problems, declared without a version, is "*".
   */
  lemma FirstExampleMerges(grav: string, form: string, login: string, errors: string, problems: string)
    requires Distinct5(grav, form, login, errors, problems)
    ensures var res := MergedDependencies(FirstExample(grav, form, login, errors, problems));
            && res.Ok?
            && |res.value| == 5
            && grav in res.value && errors in res.value && problems in res.value
            && Render(res.value[grav]) == ">=1.0.10"
            && Render(res.value[errors]) == ">=1.0"
            && Render(res.value[errors]) != "*"
            && Render(res.value[problems]) == "*"
  {
    FirstExampleFolds(grav, form, login, errors, problems);
    FirstExampleEntries(grav, form, login, errors, problems);
  }

  /** The entries of the first example's merged map, as the unit test inspects them. */
  lemma FirstExampleEntries(grav: string, form: string, login: string, errors: string, problems: string)
    requires Distinct5(grav, form, login, errors, problems)
    ensures var m := map[grav := AtLeast(V3(1, 0, 10)), form := NextSignificantRelease(V2(2, 0)),
                         login := AtLeast(V2(2, 0)), errors := AtLeast(V2(1, 0)), problems := Any];
            && |m| == 5
            && grav in m && errors in m && problems in m
            && Render(m[grav]) == ">=1.0.10"
            && Render(m[errors]) == ">=1.0"
            && Render(m[errors]) != "*"
            && Render(m[problems]) == "*"
  {
    var m := map[grav := AtLeast(V3(1, 0, 10)), form := NextSignificantRelease(V2(2, 0)),
                 login := AtLeast(V2(2, 0)), errors := AtLeast(V2(1, 0)), problems := Any];
    FiveKeys(grav, form, login, errors, problems, m);
    assert m[grav] == AtLeast(V3(1, 0, 10)) && m[errors] == AtLeast(V2(1, 0)) && m[problems] == Any;
    RendersGe1_0_10();
    RendersGe1_0();
  }

  /** A map on five distinct keys has five entries. */
  lemma FiveKeys(k1: string, k2: string, k3: string, k4: string, k5: string, m: map<string, Constraint>)
    requires Distinct5(k1, k2, k3, k4, k5) && m.Keys == {k1, k2, k3, k4, k5}
    ensures |m| == 5
  {
    assert m.Keys == {k1, k2, k3, k4} + {k5};
    assert |{k1, k2, k3, k4}| == 4;
  }

  // ---------------------------------------------------------------------------------------------
  // Merging: three requirements on one dependency

  /** Three packages, admin, test and another, that each require `name` once, in that order. */
  function OneDependency(name: string, first: string, second: string, third: string): seq<PackageGroup>
  {
    [[Package("admin", [Req(name, first)]), Package("test", [Req(name, second)]),
      Package("another", [Req(name, third)])]]
  }

  lemma OneDependencyFlattens(name: string, a: string, b: string, c: string)
    ensures FlattenGroups(OneDependency(name, a, b, c)) == [Req(name, a)] + ([Req(name, b)] + ([Req(name, c)] + []))
  {
    var g := OneDependency(name, a, b, c)[0];
    assert FlattenPackages(g[2..]) == [Req(name, c)] + [] by { assert g[2..][1..] == []; }
    assert FlattenPackages(g[1..]) == [Req(name, b)] + FlattenPackages(g[2..]) by { assert g[1..][1..] == g[2..]; }
  }

  /**
   * Three well-formed texts on one dependency merge into the reconciliation of the first two,
   * reconciled with the third.
   */
  lemma FoldThree(name: string, a: string, b: string, c: string,
                  ca: Constraint, cb: Constraint, cc: Constraint, m2: Constraint, m3: Constraint)
    requires Parse(a) == Some(ca) && Parse(b) == Some(cb) && Parse(c) == Some(cc)
    requires Reconcile(ca, cb) == Some(m2) && Reconcile(m2, cc) == Some(m3)
    ensures MergedDependencies(OneDependency(name, a, b, c)) == Ok(map[name := m3])
  {
    OneDependencyFlattens(name, a, b, c);
    FoldOneNameThrice(Req(name, a), Req(name, b), Req(name, c), ca, cb, cc, m2, m3);
  }

  /** Three requirements on one name: the first is recorded and the other two reconciled into it. */
  lemma FoldOneNameThrice(r1: Requirement, r2: Requirement, r3: Requirement,
                          ca: Constraint, cb: Constraint, cc: Constraint, m2: Constraint, m3: Constraint)
    requires r2.name == r1.name && r3.name == r1.name
    requires Parsed(r1) == Some(ca) && Parsed(r2) == Some(cb) && Parsed(r3) == Some(cc)
    requires Reconcile(ca, cb) == Some(m2) && Reconcile(m2, cc) == Some(m3)
    ensures Fold(map[], [r1] + ([r2] + ([r3] + []))) == Ok(map[r1.name := m3])
  {
    FoldAdds(map[], r1, ca, [r2] + ([r3] + []));
    FoldReconcilesTwice(map[r1.name := ca], r2, r3, cb, cc, m2, m3, []);
    assert map[r1.name := ca][r1.name := m3] == map[r1.name := m3];
  }

  /** Two more requirements on a recorded name are reconciled into its entry in turn. */
  lemma FoldReconcilesTwice(acc: map<string, Constraint>, r2: Requirement, r3: Requirement, cb: Constraint,
                            cc: Constraint, m2: Constraint, m3: Constraint, rest: seq<Requirement>)
    requires r2.name in acc && r3.name == r2.name
    requires Parsed(r2) == Some(cb) && Parsed(r3) == Some(cc)
    requires Reconcile(acc[r2.name], cb) == Some(m2) && Reconcile(m2, cc) == Some(m3)
    ensures Fold(acc, [r2] + ([r3] + rest)) == Fold(acc[r2.name := m3], rest)
  {
    FoldReconciles(acc, r2, cb, m2, [r3] + rest);
    FoldReconciles(acc[r2.name := m2], r3, cc, m3, rest);
    assert acc[r2.name := m2][r2.name := m3] == acc[r2.name := m3];
  }

  /** Any gives way to ">=1.0", and ">=1.0" to the higher ">=3.2". */
  lemma SecondExampleReconciles()
    ensures Reconcile(Any, AtLeast(V2(1, 0))) == Some(AtLeast(V2(1, 0)))
    ensures Reconcile(AtLeast(V2(1, 0)), AtLeast(V2(3, 2))) == Some(AtLeast(V2(3, 2)))
  {
    assert Compare(V2(1, 0), V2(3, 2)) == Less;
  }

  /** ">=4.0" stays above ">=1.0" and ">=3.2". */
  lemma ThirdExampleReconciles()
    ensures Reconcile(AtLeast(V2(4, 0)), AtLeast(V2(1, 0))) == Some(AtLeast(V2(4, 0)))
    ensures Reconcile(AtLeast(V2(4, 0)), AtLeast(V2(3, 2))) == Some(AtLeast(V2(4, 0)))
  {
    assert Compare(V2(4, 0), V2(1, 0)) == Greater && Compare(V2(4, 0), V2(3, 2)) == Greater;
  }

  /** A wildcard and two lower bounds on one dependency merge into the higher bound, ">=3.2". */
  lemma SecondExampleMerges(name: string)
    ensures var res := MergedDependencies(OneDependency(name, "*", ">=1.0", ">=3.2"));
            && res == Ok(map[name := AtLeast(V2(3, 2))])
            && |res.value| == 1 && Render(res.value[name]) == ">=3.2"
  {
    ParseWildcard();
    ParseGe1_0();
    ParseGe3_2();
    SecondExampleReconciles();
    FoldThree(name, "*", ">=1.0", ">=3.2", Any, AtLeast(V2(1, 0)), AtLeast(V2(3, 2)),
              AtLeast(V2(1, 0)), AtLeast(V2(3, 2)));
    RendersGe3_2();
  }

  /** Three lower bounds on one dependency merge into the highest, ">=4.0", though it comes first. */
  lemma ThirdExampleMerges(name: string)
    ensures var res := MergedDependencies(OneDependency(name, ">=4.0", ">=1.0", ">=3.2"));
            && res == Ok(map[name := AtLeast(V2(4, 0))])
            && |res.value| == 1 && Render(res.value[name]) == ">=4.0"
  {
    ParseGe4_0();
    ParseGe1_0();
    ParseGe3_2();
    ThirdExampleReconciles();
    FoldThree(name, ">=4.0", ">=1.0", ">=3.2", AtLeast(V2(4, 0)), AtLeast(V2(1, 0)), AtLeast(V2(3, 2)),
              AtLeast(V2(4, 0)), AtLeast(V2(4, 0)));
    RendersGe4_0();
  }

  // ---------------------------------------------------------------------------------------------
  // Merging: the two failures

  /** Two packages, admin and test, that each require `name` once, in that order. */
  function TwoRequirements(name: string, first: string, second: string): seq<PackageGroup>
  {
    [[Package("admin", [Req(name, first)]), Package("test", [Req(name, second)])]]
  }

  lemma TwoRequirementsFlatten(name: string, a: string, b: string)
    ensures FlattenGroups(TwoRequirements(name, a, b)) == [Req(name, a)] + ([Req(name, b)] + [])
  {
    var g := TwoRequirements(name, a, b)[0];
    assert FlattenPackages(g[1..]) == [Req(name, b)] + [] by { assert g[1..][1..] == []; }
  }

  /** ">=" with no version after it fails with code 1 and the bad-format message. */
  lemma MissingVersionFails(name: string)
    ensures var res := MergedDependencies(TwoRequirements(name, ">=4.0", ">="));
            && res == Err(BadFormat(name, ">="))
            && res.error.Code() == ExceptionBadFormat
            && BadFormatPrefix <= res.error.Message()
  {
    var r1, r2 := Req(name, ">=4.0"), Req(name, ">=");
    TwoRequirementsFlatten(name, ">=4.0", ">=");
    ParseGe4_0();
    ParseBareGe();
    FoldAdds(map[], r1, AtLeast(V2(4, 0)), [r2] + []);
    FoldRejectsFormat(map[name := AtLeast(V2(4, 0))], r2, []);
  }

  /** "~4.0" and "~3.0" lie on different release lines: code 2 and the incompatibility message. */
  lemma IncompatibleReleasesExampleFails(name: string)
    ensures var res := MergedDependencies(TwoRequirements(name, "~4.0", "~3.0"));
            && res == Err(IncompatibleVersions(name, "~4.0", "~3.0"))
            && res.error.Code() == ExceptionIncompatibleVersions
            && EndsWith(res.error.Message(), IncompatibleSuffix)
  {
    var r1, r2 := Req(name, "~4.0"), Req(name, "~3.0");
    TwoRequirementsFlatten(name, "~4.0", "~3.0");
    ParseTilde4_0();
    ParseTilde3_0();
    RendersTilde4_0();
    FoldAdds(map[], r1, NextSignificantRelease(V2(4, 0)), [r2] + []);
    FoldRejectsConflict(map[name := NextSignificantRelease(V2(4, 0))], r2, NextSignificantRelease(V2(3, 0)), []);
  }
}
