/**
 * MergeProperties: what the merge of dependency requirements guarantees, stated over the
 * requirements of all packages and proved once for the fold that the merge method implements.
 */
module MergeProperties {
  import opened Wrappers
  import opened Versions
  import opened Constraints
  import opened DependencyMerge

  // ---------------------------------------------------------------------------------------------
  // Vocabulary over a sequence of requirements

  /** The dependency names the requirements mention. */
  function Names(rs: seq<Requirement>): set<string>
  {
    set r | r in rs :: r.name
  }

  /** Every requirement's version text is well formed. */
  predicate AllParse(rs: seq<Requirement>)
  {
    forall r | r in rs :: Parsed(r).Some?
  }

  /** Both requirements parse and the first is a "~" constraint that the second reaches beyond. */
  predicate ClashBetween(r1: Requirement, r2: Requirement)
  {
    Parsed(r1).Some? && Parsed(r2).Some? && Clash(Parsed(r1).value, Parsed(r2).value)
  }

  /** No two requirements on the same dependency are in conflict. */
  predicate NoConflict(rs: seq<Requirement>)
  {
    forall r1, r2 | r1 in rs && r2 in rs && r1.name == r2.name :: !ClashBetween(r1, r2)
  }

  /** The requirement is specific and its version is `v`. */
  predicate SpecificWith(r: Requirement, v: Version)
  {
    Parsed(r).Some? && !Parsed(r).value.Any? && Parsed(r).value.version == v
  }

  predicate IsNextSignificantReleaseRequirement(r: Requirement)
  {
    Parsed(r).Some? && Parsed(r).value.NextSignificantRelease?
  }

  /** The merged constraint `c` for `n` takes its version, and its "~" kind, from requirements on `n`. */
  predicate Witnessed(rs: seq<Requirement>, n: string, c: Constraint)
  {
    && (!c.Any? ==> exists r | r in rs && r.name == n :: SpecificWith(r, c.version))
    && (c.NextSignificantRelease? ==> exists r | r in rs && r.name == n :: IsNextSignificantReleaseRequirement(r))
  }

  /**
   * `m` is a faithful summary of `rs`: one entry per name, each entry covers every requirement
   * on its name, and each entry is drawn from those requirements.
   */
  predicate Summarises(rs: seq<Requirement>, m: map<string, Constraint>)
  {
    && m.Keys == Names(rs)
    && (forall r | r in rs :: r.name in m && Parsed(r).Some? && Covers(m[r.name], Parsed(r).value))
    && (forall n | n in m :: Witnessed(rs, n, m[n]))
  }

  /** The error is justified by the requirements: a malformed one, or a clashing pair on one name. */
  predicate Explains(rs: seq<Requirement>, e: Error)
  {
    match e
    case BadFormat(n, raw) =>
      exists r | r in rs :: r.name == n && RawVersion(r) == raw && Parsed(r).None?
    case IncompatibleVersions(n, _, _) =>
      exists r1, r2 | r1 in rs && r2 in rs :: r1.name == n && r2.name == n && ClashBetween(r1, r2)
  }

  predicate Within(a: seq<Requirement>, b: seq<Requirement>)
  {
    forall r | r in a :: r in b
  }

  // ---------------------------------------------------------------------------------------------
  // Monotonicity in the set of requirements

  lemma NoConflictShrinks(a: seq<Requirement>, b: seq<Requirement>)
    requires Within(a, b) && NoConflict(b)
    ensures NoConflict(a)
  {
  }

  lemma WitnessedGrows(a: seq<Requirement>, b: seq<Requirement>, n: string, c: Constraint)
    requires Within(a, b) && Witnessed(a, n, c)
    ensures Witnessed(b, n, c)
  {
    if !c.Any? {
      var r :| r in a && r.name == n && SpecificWith(r, c.version);
      assert r in b;
    }
    if c.NextSignificantRelease? {
      var r :| r in a && r.name == n && IsNextSignificantReleaseRequirement(r);
      assert r in b;
    }
  }

  lemma ExplainsGrows(a: seq<Requirement>, b: seq<Requirement>, e: Error)
    requires Within(a, b) && Explains(a, e)
    ensures Explains(b, e)
  {
    match e
    case BadFormat(n, raw) =>
      var r :| r in a && r.name == n && RawVersion(r) == raw && Parsed(r).None?;
      assert r in b;
    case IncompatibleVersions(n, _, _) =>
      var r1, r2 :| r1 in a && r2 in a && r1.name == n && r2.name == n && ClashBetween(r1, r2);
      assert r1 in b && r2 in b;
  }

  lemma NamesSnoc(pre: seq<Requirement>, r: Requirement)
    ensures Names(pre + [r]) == Names(pre) + {r.name}
  {
    forall n | n in Names(pre + [r]) ensures n in Names(pre) + {r.name} {
      var x :| x in pre + [r] && x.name == n;
    }
    forall n | n in Names(pre) + {r.name} ensures n in Names(pre + [r]) {
      if n == r.name {
        assert r in pre + [r];
      } else {
        var x :| x in pre && x.name == n;
        assert x in pre + [r];
      }
    }
  }

  // ---------------------------------------------------------------------------------------------
  // One step of the fold

  /** A first requirement on a name conflicts with no earlier one. */
  lemma NewNameNoConflict(pre: seq<Requirement>, r: Requirement)
    requires NoConflict(pre) && r.name !in Names(pre)
    ensures NoConflict(pre + [r])
  {
    var rs := pre + [r];
    forall x | x in pre ensures x.name != r.name {
      assert x.name in Names(pre);
    }
    forall x, y | x in rs && y in rs && x.name == y.name ensures !ClashBetween(x, y) {
      if x in pre && y in pre {
      }
    }
  }

  /** Recording a requirement's name keeps the map's keys equal to the names required. */
  lemma KeysAfterRecord(pre: seq<Requirement>, acc: map<string, Constraint>, r: Requirement, c: Constraint)
    requires acc.Keys == Names(pre)
    ensures acc[r.name := c].Keys == Names(pre + [r])
  {
    NamesSnoc(pre, r);
  }

  /** A first requirement on a name is recorded as it is, and the summary stays faithful. */
  lemma NewNameSummarised(pre: seq<Requirement>, acc: map<string, Constraint>, r: Requirement, c: Constraint)
    requires Summarises(pre, acc)
    requires Parsed(r) == Some(c) && r.name !in acc
    ensures Summarises(pre + [r], acc[r.name := c])
  {
    var rs := pre + [r];
    var m := acc[r.name := c];
    KeysAfterRecord(pre, acc, r, c);
    forall x | x in rs ensures x.name in m && Parsed(x).Some? && Covers(m[x.name], Parsed(x).value) {
      if x == r { CoversReflexive(c); }
    }
    forall k | k in m ensures Witnessed(rs, k, m[k]) {
      if k == r.name {
        assert r in rs;
      } else {
        WitnessedGrows(pre, rs, k, acc[k]);
      }
    }
  }

  /** A first requirement on a name is recorded as it is. */
  lemma StepNewName(pre: seq<Requirement>, acc: map<string, Constraint>, r: Requirement, c: Constraint)
    requires Summarises(pre, acc) && NoConflict(pre)
    requires Parsed(r) == Some(c) && r.name !in acc
    ensures NoConflict(pre + [r])
    ensures Summarises(pre + [r], acc[r.name := c])
  {
    NewNameNoConflict(pre, r);
    NewNameSummarised(pre, acc, r, c);
  }

  /** Reconciling a later requirement with the recorded constraint introduces no conflict. */
  lemma ReconciledNoConflict(pre: seq<Requirement>, acc: map<string, Constraint>, r: Requirement, c: Constraint)
    requires Summarises(pre, acc) && NoConflict(pre)
    requires Parsed(r) == Some(c) && r.name in acc && !Conflicting(acc[r.name], c)
    ensures NoConflict(pre + [r])
  {
    var rs := pre + [r];
    forall x | x in pre && x.name == r.name ensures !Conflicting(Parsed(x).value, c) {
      NoConflictThroughCover(acc[r.name], Parsed(x).value, c);
    }
    forall x, y | x in rs && y in rs && x.name == y.name ensures !ClashBetween(x, y) {
      if x in pre && y in pre {
      } else if x == r && y == r {
      } else if x == r {
        assert y in pre;
      } else {
        assert x in pre;
      }
    }
  }

  /** The reconciled constraint covers every requirement on its name. */
  lemma ReconciledCovers(pre: seq<Requirement>, acc: map<string, Constraint>, r: Requirement, c: Constraint, merged: Constraint)
    requires forall x | x in pre :: x.name in acc && Parsed(x).Some? && Covers(acc[x.name], Parsed(x).value)
    requires Parsed(r) == Some(c) && r.name in acc && Reconcile(acc[r.name], c) == Some(merged)
    ensures forall x | x in pre + [r] ::
              x.name in acc[r.name := merged] && Parsed(x).Some? &&
              Covers(acc[r.name := merged][x.name], Parsed(x).value)
  {
    var m := acc[r.name := merged];
    forall x | x in pre + [r] ensures x.name in m && Parsed(x).Some? && Covers(m[x.name], Parsed(x).value) {
      if x == r {
      } else if x.name == r.name {
        CoversTransitive(merged, acc[r.name], Parsed(x).value);
      }
    }
  }

  /** The reconciled constraint is drawn from the requirements on its name. */
  lemma ReconciledWitnessed(
    pre: seq<Requirement>, acc: map<string, Constraint>, r: Requirement, c: Constraint, m: map<string, Constraint>)
    requires Summarises(pre, acc)
    requires Parsed(r) == Some(c) && r.name in acc && Reconcile(acc[r.name], c).Some?
    requires m == acc[r.name := Reconcile(acc[r.name], c).value]
    ensures forall k | k in m :: Witnessed(pre + [r], k, m[k])
  {
    var rs := pre + [r];
    assert r in rs;
    forall k | k in m ensures Witnessed(rs, k, m[k]) {
      WitnessedGrows(pre, rs, k, acc[k]);
    }
  }

  /** The map with the reconciled entry still summarises the requirements, the new one included. */
  lemma ReconciledSummarised(pre: seq<Requirement>, acc: map<string, Constraint>, r: Requirement, c: Constraint, merged: Constraint)
    requires Summarises(pre, acc)
    requires Parsed(r) == Some(c) && r.name in acc && Reconcile(acc[r.name], c) == Some(merged)
    ensures Summarises(pre + [r], acc[r.name := merged])
  {
    KeysAfterRecord(pre, acc, r, merged);
    ReconciledCovers(pre, acc, r, c, merged);
    ReconciledWitnessed(pre, acc, r, c, acc[r.name := merged]);
  }

  /** A later requirement on a recorded name is reconciled with what was recorded. */
  lemma StepReconciled(pre: seq<Requirement>, acc: map<string, Constraint>, r: Requirement, c: Constraint, merged: Constraint)
    requires Summarises(pre, acc) && NoConflict(pre)
    requires Parsed(r) == Some(c) && r.name in acc && Reconcile(acc[r.name], c) == Some(merged)
    ensures NoConflict(pre + [r])
    ensures Summarises(pre + [r], acc[r.name := merged])
  {
    ReconciledNoConflict(pre, acc, r, c);
    ReconciledSummarised(pre, acc, r, c, merged);
  }

  /** A "~" constraint covered by a clashing one clashes too: covering keeps the release line. */
  lemma ClashThroughCover(stored: Constraint, t: Constraint, c: Constraint)
    requires Clash(stored, c) && Covers(stored, t) && t.NextSignificantRelease?
    ensures Clash(t, c)
  {
  }

  /** A requirement that conflicts with the recorded constraint clashes with an earlier requirement. */
  lemma StepConflict(pre: seq<Requirement>, acc: map<string, Constraint>, r: Requirement, c: Constraint)
    requires Summarises(pre, acc)
    requires Parsed(r) == Some(c) && r.name in acc && Conflicting(acc[r.name], c)
    ensures exists x | x in pre && x.name == r.name :: ClashBetween(x, r) || ClashBetween(r, x)
  {
    var n := r.name;
    var stored := acc[n];
    assert Witnessed(pre, n, stored);
    if Clash(stored, c) {
      var t :| t in pre && t.name == n && IsNextSignificantReleaseRequirement(t);
      ClashThroughCover(stored, Parsed(t).value, c);
      assert ClashBetween(t, r);
    } else {
      var x :| x in pre && x.name == n && SpecificWith(x, stored.version);
      assert ClashBetween(r, x);
    }
  }

  /** What one step of the fold does to the summary, to conflicts and to errors. */
  lemma StepFacts(pre: seq<Requirement>, acc: map<string, Constraint>, r: Requirement)
    requires Summarises(pre, acc) && NoConflict(pre)
    ensures Step(acc, r).Ok? <==> Parsed(r).Some? && NoConflict(pre + [r])
    ensures Step(acc, r).Ok? ==> Summarises(pre + [r], Step(acc, r).value)
    ensures Step(acc, r).Err? ==> Explains(pre + [r], Step(acc, r).error)
  {
    var rs := pre + [r];
    assert r in rs;
    match Parsed(r)
    case None =>
    case Some(c) =>
      if r.name !in acc {
        StepNewName(pre, acc, r, c);
      } else {
        match Reconcile(acc[r.name], c)
        case Some(merged) => StepReconciled(pre, acc, r, c, merged);
        case None =>
          StepConflict(pre, acc, r, c);
          var x :| x in pre && x.name == r.name && (ClashBetween(x, r) || ClashBetween(r, x));
          assert x in rs;
      }
  }

  // ---------------------------------------------------------------------------------------------
  // The whole fold

  /**
   * The fold succeeds exactly when every requirement is well formed and no two requirements on
   * one name conflict; on success the map summarises all requirements, on failure the error is
   * justified by them.
   */
  lemma {:induction false} FoldFacts(pre: seq<Requirement>, acc: map<string, Constraint>, rs: seq<Requirement>)
    requires Summarises(pre, acc) && NoConflict(pre)
    ensures Fold(acc, rs).Ok? <==> AllParse(rs) && NoConflict(pre + rs)
    ensures Fold(acc, rs).Ok? ==> Summarises(pre + rs, Fold(acc, rs).value)
    ensures Fold(acc, rs).Err? ==> Explains(pre + rs, Fold(acc, rs).error)
    decreases |rs|
  {
    if rs == [] {
      assert pre + rs == pre;
    } else {
      var r := rs[0];
      var pre' := pre + [r];
      assert pre' + rs[1..] == pre + rs;
      assert Within(pre', pre + rs);
      StepFacts(pre, acc, r);
      match Step(acc, r)
      case Err(e) =>
        ExplainsGrows(pre', pre + rs, e);
        if Parsed(r).Some? {
          if NoConflict(pre + rs) { NoConflictShrinks(pre', pre + rs); }
        }
      case Ok(next) =>
        FoldFacts(pre', next, rs[1..]);
        assert AllParse(rs) <==> AllParse(rs[1..]) by {
          assert forall x | x in rs :: x == r || x in rs[1..];
          assert forall x | x in rs[1..] :: x in rs;
        }
    }
  }

  /** The merge of all packages' requirements, characterised over the flattened requirements. */
  lemma MergeFacts(groups: seq<PackageGroup>)
    ensures MergedDependencies(groups).Ok? <==>
              AllParse(FlattenGroups(groups)) && NoConflict(FlattenGroups(groups))
    ensures MergedDependencies(groups).Ok? ==>
              Summarises(FlattenGroups(groups), MergedDependencies(groups).value)
    ensures MergedDependencies(groups).Err? ==>
              Explains(FlattenGroups(groups), MergedDependencies(groups).error)
  {
    var rs := FlattenGroups(groups);
    assert Names([]) == {};
    FoldFacts([], map[], rs);
    assert [] + rs == rs;
  }

  // ---------------------------------------------------------------------------------------------
  // What one entry of the merged map is

  /**
   * An entry of a summary is Any exactly when every requirement on its name is Any; it is a "~"
   * constraint exactly when some requirement on its name is; otherwise its version is one of the
   * requested versions and no requested version is higher.
   */
  lemma SummaryEntry(rs: seq<Requirement>, m: map<string, Constraint>, n: string)
    requires Summarises(rs, m) && n in m
    ensures m[n].Any? <==> forall r | r in rs && r.name == n :: Parsed(r) == Some(Any)
    ensures m[n].NextSignificantRelease? <==>
              exists r | r in rs && r.name == n :: IsNextSignificantReleaseRequirement(r)
    ensures !m[n].Any? ==> exists r | r in rs && r.name == n :: SpecificWith(r, m[n].version)
    ensures forall r | r in rs && r.name == n && Parsed(r).Some? && !Parsed(r).value.Any? ::
              !m[n].Any? && NotBelow(m[n].version, Parsed(r).value.version)
  {
    assert Witnessed(rs, n, m[n]);
    if !m[n].Any? {
      var r :| r in rs && r.name == n && SpecificWith(r, m[n].version);
    }
  }

  /** Equal kinds, and versions that compare Equal. */
  predicate Equivalent(a: Constraint, b: Constraint)
  {
    a.Any? == b.Any? && a.NextSignificantRelease? == b.NextSignificantRelease? &&
    (!a.Any? ==> Compare(a.version, b.version) == Equal)
  }

  /** Two summaries of the same requirements agree entry by entry. */
  lemma SummariesAgree(rs1: seq<Requirement>, m1: map<string, Constraint>, rs2: seq<Requirement>, m2: map<string, Constraint>)
    requires Within(rs1, rs2) && Within(rs2, rs1)
    requires Summarises(rs1, m1) && Summarises(rs2, m2)
    ensures m1.Keys == m2.Keys
    ensures forall n | n in m1 :: Equivalent(m1[n], m2[n])
  {
    assert Names(rs1) == Names(rs2) by {
      forall n | n in Names(rs1) ensures n in Names(rs2) { var x :| x in rs1 && x.name == n; assert x in rs2; }
      forall n | n in Names(rs2) ensures n in Names(rs1) { var x :| x in rs2 && x.name == n; assert x in rs1; }
    }
    forall n | n in m1 ensures Equivalent(m1[n], m2[n]) {
      SummaryEntry(rs1, m1, n);
      SummaryEntry(rs2, m2, n);
      if !m1[n].Any? {
        var r1 :| r1 in rs1 && r1.name == n && SpecificWith(r1, m1[n].version);
        var r2 :| r2 in rs2 && r2.name == n && SpecificWith(r2, m2[n].version);
        assert r1 in rs2 && r2 in rs1;
        MutuallyNotBelow(m1[n].version, m2[n].version);
      }
    }
  }

  // ---------------------------------------------------------------------------------------------
  // The merge of all packages' requirements

  /** The result has exactly one entry per distinct dependency name across all packages of all groups. */
  lemma OneEntryPerName(groups: seq<PackageGroup>)
    requires MergedDependencies(groups).Ok?
    ensures MergedDependencies(groups).value.Keys == Names(FlattenGroups(groups))
  {
    MergeFacts(groups);
  }

  /**
   * A wildcard (or an absent version) never overrides a specific constraint: a dependency stays
   * Any exactly when every requirement on it is Any.
   */
  lemma WildcardOnlyWhenAllWildcard(groups: seq<PackageGroup>, n: string)
    requires MergedDependencies(groups).Ok? && n in MergedDependencies(groups).value
    ensures MergedDependencies(groups).value[n] == Any <==>
              forall r | r in FlattenGroups(groups) && r.name == n :: Parsed(r) == Some(Any)
  {
    MergeFacts(groups);
    SummaryEntry(FlattenGroups(groups), MergedDependencies(groups).value, n);
  }

  /**
   * A specific merged constraint carries the highest requested version: one of the versions
   * requested for the dependency, at least as high as every other one; it is a "~" constraint
   * exactly when some requirement on the dependency is.
   */
  lemma MergedIsHighest(groups: seq<PackageGroup>, n: string)
    requires MergedDependencies(groups).Ok? && n in MergedDependencies(groups).value
    requires MergedDependencies(groups).value[n] != Any
    ensures exists r | r in FlattenGroups(groups) && r.name == n ::
              SpecificWith(r, MergedDependencies(groups).value[n].version)
    ensures forall r | r in FlattenGroups(groups) && r.name == n && Parsed(r).Some? && !Parsed(r).value.Any? ::
              NotBelow(MergedDependencies(groups).value[n].version, Parsed(r).value.version)
    ensures MergedDependencies(groups).value[n].NextSignificantRelease? <==>
              exists r | r in FlattenGroups(groups) && r.name == n :: IsNextSignificantReleaseRequirement(r)
  {
    MergeFacts(groups);
    SummaryEntry(FlattenGroups(groups), MergedDependencies(groups).value, n);
  }

  /** A dependency required by a single requirement keeps that requirement's constraint. */
  lemma SoleRequirementIsKept(groups: seq<PackageGroup>, r: Requirement)
    requires MergedDependencies(groups).Ok? && r in FlattenGroups(groups)
    requires forall x | x in FlattenGroups(groups) && x.name == r.name :: x == r
    ensures Parsed(r).Some? && r.name in MergedDependencies(groups).value
    ensures MergedDependencies(groups).value[r.name] == Parsed(r).value
  {
    var rs := FlattenGroups(groups);
    var m := MergedDependencies(groups).value;
    MergeFacts(groups);
    SummaryEntry(rs, m, r.name);
    if !m[r.name].Any? {
      var x :| x in rs && x.name == r.name && SpecificWith(x, m[r.name].version);
      assert x == r;
    }
  }

  /** When the merge succeeds, all "~" requirements on one dependency share their leading segment. */
  lemma NextSignificantReleasesShareLine(groups: seq<PackageGroup>, r1: Requirement, r2: Requirement)
    requires MergedDependencies(groups).Ok?
    requires r1 in FlattenGroups(groups) && r2 in FlattenGroups(groups) && r1.name == r2.name
    requires IsNextSignificantReleaseRequirement(r1) && IsNextSignificantReleaseRequirement(r2)
    ensures CheckNextSignificantReleasesAreCompatible(Parsed(r1).value.version, Parsed(r2).value.version)
  {
    MergeFacts(groups);
    var m := MergedDependencies(groups).value;
    assert Covers(m[r1.name], Parsed(r1).value) && Covers(m[r2.name], Parsed(r2).value);
  }

  /**
   * Two "~" requirements on one dependency with different leading segments fail the merge, and
   * when every requirement is well formed the failure is the incompatible-versions one (code 2).
   */
  lemma IncompatibleReleasesFail(groups: seq<PackageGroup>, r1: Requirement, r2: Requirement)
    requires r1 in FlattenGroups(groups) && r2 in FlattenGroups(groups) && r1.name == r2.name
    requires IsNextSignificantReleaseRequirement(r1) && IsNextSignificantReleaseRequirement(r2)
    requires !CheckNextSignificantReleasesAreCompatible(Parsed(r1).value.version, Parsed(r2).value.version)
    ensures MergedDependencies(groups).Err?
    ensures AllParse(FlattenGroups(groups)) ==>
              MergedDependencies(groups).error.Code() == ExceptionIncompatibleVersions
  {
    if MergedDependencies(groups).Ok? {
      NextSignificantReleasesShareLine(groups, r1, r2);
    }
    MergeFacts(groups);
  }

  /** A requirement whose version text is malformed fails the whole merge. */
  lemma BadFormatFails(groups: seq<PackageGroup>, r: Requirement)
    requires r in FlattenGroups(groups) && Parsed(r).None?
    ensures MergedDependencies(groups).Err?
  {
    MergeFacts(groups);
  }

  /**
   * A bad-format failure (code 1) names a dependency and the malformed text of one of its
   * requirements; an incompatible-versions failure (code 2) names a dependency with two
   * requirements in conflict.
   */
  lemma FailuresAreJustified(groups: seq<PackageGroup>)
    requires MergedDependencies(groups).Err?
    ensures var e := MergedDependencies(groups).error;
            e.Code() == ExceptionBadFormat ==>
              exists r | r in FlattenGroups(groups) :: r.name == e.dependency && RawVersion(r) == e.raw && Parsed(r).None?
    ensures var e := MergedDependencies(groups).error;
            e.Code() == ExceptionIncompatibleVersions ==>
              exists r1, r2 | r1 in FlattenGroups(groups) && r2 in FlattenGroups(groups) ::
                r1.name == e.dependency && r2.name == e.dependency && ClashBetween(r1, r2)
  {
    MergeFacts(groups);
  }

  /**
   * The merge does not depend on the order of the requirements, on how they are grouped, or on
   * repeats: inputs with the same requirements both succeed or both fail, and on success have
   * the same names with equivalent constraints.
   */
  lemma MergeIsOrderIndependent(g1: seq<PackageGroup>, g2: seq<PackageGroup>)
    requires forall r :: r in FlattenGroups(g1) <==> r in FlattenGroups(g2)
    ensures MergedDependencies(g1).Ok? <==> MergedDependencies(g2).Ok?
    ensures MergedDependencies(g1).Ok? ==>
              MergedDependencies(g1).value.Keys == MergedDependencies(g2).value.Keys &&
              forall n | n in MergedDependencies(g1).value ::
                Equivalent(MergedDependencies(g1).value[n], MergedDependencies(g2).value[n])
  {
    var rs1, rs2 := FlattenGroups(g1), FlattenGroups(g2);
    MergeFacts(g1);
    MergeFacts(g2);
    if NoConflict(rs1) { NoConflictShrinks(rs2, rs1); }
    if NoConflict(rs2) { NoConflictShrinks(rs1, rs2); }
    if MergedDependencies(g1).Ok? {
      SummariesAgree(rs1, MergedDependencies(g1).value, rs2, MergedDependencies(g2).value);
    }
  }
}
