/**
 * DependencyMerge: folds the dependency requirements of many packages into one map from
 * dependency name to a reconciled constraint, failing fast with a bad-format or an
 * incompatible-versions error.
 */
module DependencyMerge {
  import opened Wrappers
  import opened Versions
  import opened Constraints

  /** One entry of a package's `dependencies_versions`: a name and an optional version text. */
  datatype Requirement = Requirement(name: string, version: Option<string>)

  /** A requesting package: its identifier and its requirements, in declaration order. */
  datatype Package = Package(id: string, dependencies: seq<Requirement>)

  /** One batch of packages, in the order the batch lists them. */
  type PackageGroup = seq<Package>

  const ExceptionBadFormat: int := 1
  const ExceptionIncompatibleVersions: int := 2

  const BadFormatPrefix: string := "Bad format for version of dependency"
  const IncompatibleSuffix: string := "required in two incompatible versions"

  predicate EndsWith(s: string, suffix: string)
  {
    |suffix| <= |s| && s[|s| - |suffix|..] == suffix
  }

  /** The two ways a merge fails. */
  datatype Error =
    | BadFormat(dependency: string, raw: string)
    | IncompatibleVersions(dependency: string, stored: string, required: string)
  {
    /** The exception code: 1 for a bad format, 2 for incompatible versions. */
    function Code(): (c: int)
      ensures c == ExceptionBadFormat <==> BadFormat?
      ensures c == ExceptionIncompatibleVersions <==> IncompatibleVersions?
    {
      if BadFormat? then ExceptionBadFormat else ExceptionIncompatibleVersions
    }

    /** The exception message, which names the dependency and the versions involved. */
    function Message(): (m: string)
      ensures BadFormat? ==> BadFormatPrefix <= m
      ensures IncompatibleVersions? ==> EndsWith(m, IncompatibleSuffix)
    {
      match this
      case BadFormat(name, raw) =>
        BadFormatPrefix + " " + name + ": '" + raw + "'"
      case IncompatibleVersions(name, stored, required) =>
        var m := "Dependency " + name + " (" + stored + ", " + required + ") is " + IncompatibleSuffix;
        assert m[|m| - |IncompatibleSuffix|..] == IncompatibleSuffix;
        m
    }
  }

  /** The version text of a requirement; an absent version is the wildcard "*". */
  function RawVersion(r: Requirement): string
  {
    match r.version
    case None => "*"
    case Some(v) => v
  }

  function Parsed(r: Requirement): Option<Constraint>
  {
    Parse(RawVersion(r))
  }

  // ---------------------------------------------------------------------------------------------
  // The merge as a fold

  /**
   * Folds one requirement into the accumulated map: a bad format fails; a new name is added with
   * its constraint; a known name gets the reconciliation of its stored and its new constraint,
   * or the merge fails with incompatible versions. No other entry changes.
   */
  function Step(acc: map<string, Constraint>, r: Requirement): (res: Result<map<string, Constraint>, Error>)
    ensures res.Ok? ==> res.value.Keys == acc.Keys + {r.name}
    ensures res.Ok? ==> forall n | n in acc && n != r.name :: res.value[n] == acc[n]
    ensures res.Ok? ==> Parsed(r).Some? && (r.name !in acc ==> res.value[r.name] == Parsed(r).value)
    ensures res.Ok? && r.name in acc ==>
              && Covers(res.value[r.name], acc[r.name]) && Covers(res.value[r.name], Parsed(r).value)
              && DrawnFrom(res.value[r.name], acc[r.name], Parsed(r).value)
    ensures res.Err? && res.error.BadFormat? <==> Parsed(r).None?
    ensures res.Err? && res.error.IncompatibleVersions? <==>
              Parsed(r).Some? && r.name in acc && Conflicting(acc[r.name], Parsed(r).value)
  {
    match Parsed(r)
    case None => Err(BadFormat(r.name, RawVersion(r)))
    case Some(c) =>
      if r.name !in acc then Ok(acc[r.name := c])
      else
        match Reconcile(acc[r.name], c)
        case None => Err(IncompatibleVersions(r.name, Render(acc[r.name]), RawVersion(r)))
        case Some(merged) => Ok(acc[r.name := merged])
  }

  /** Folds requirements into `acc` in order, stopping at the first error. */
  function Fold(acc: map<string, Constraint>, rs: seq<Requirement>): Result<map<string, Constraint>, Error>
    decreases |rs|
  {
    if rs == [] then Ok(acc)
    else
      match Step(acc, rs[0])
      case Err(e) => Err(e)
      case Ok(next) => Fold(next, rs[1..])
  }

  /** The requirements of packages, package by package, in order. */
  function FlattenPackages(ps: seq<Package>): seq<Requirement>
  {
    if ps == [] then [] else ps[0].dependencies + FlattenPackages(ps[1..])
  }

  /** The requirements of all groups, group by group, in order. */
  function FlattenGroups(gs: seq<PackageGroup>): seq<Requirement>
  {
    if gs == [] then [] else FlattenPackages(gs[0]) + FlattenGroups(gs[1..])
  }

  /** The merge of every requirement of every package of every group, from the empty map. */
  function MergedDependencies(groups: seq<PackageGroup>): Result<map<string, Constraint>, Error>
  {
    Fold(map[], FlattenGroups(groups))
  }

  /** Folding `a + b` folds `a` and, unless that failed, goes on with `b`. */
  lemma {:induction false} FoldAppend(acc: map<string, Constraint>, a: seq<Requirement>, b: seq<Requirement>)
    ensures Fold(acc, a + b) == match Fold(acc, a) case Err(e) => Err(e) case Ok(m) => Fold(m, b)
    decreases |a|
  {
    if a != [] {
      assert (a + b)[0] == a[0] && (a + b)[1..] == a[1..] + b;
      match Step(acc, a[0])
      case Err(e) =>
      case Ok(next) => FoldAppend(next, a[1..], b);
    } else {
      assert a + b == b;
    }
  }

  // ---------------------------------------------------------------------------------------------
  // The merge, step by step

  /**
   * calculateMergedDependenciesOfPackages: walks the groups, their packages and each package's
   * requirements in order, updating the map of merged dependencies in place, and returns at the
   * first bad or incompatible requirement.
   */
  method CalculateMergedDependenciesOfPackages(groups: seq<PackageGroup>)
    returns (res: Result<map<string, Constraint>, Error>)
    ensures res == MergedDependencies(groups)
  {
    var dependencies: map<string, Constraint> := map[];
    for g := 0 to |groups|
      invariant Fold(dependencies, FlattenGroups(groups[g..])) == MergedDependencies(groups)
    {
      var packages := groups[g];
      assert groups[g..][1..] == groups[g + 1..];
      FoldAppend(dependencies, FlattenPackages(packages), FlattenGroups(groups[g + 1..]));
      ghost var groupDone := Fold(dependencies, FlattenPackages(packages));
      for p := 0 to |packages|
        invariant Fold(dependencies, FlattenPackages(packages[p..])) == groupDone
      {
        var requirements := packages[p].dependencies;
        assert packages[p..][1..] == packages[p + 1..];
        FoldAppend(dependencies, requirements, FlattenPackages(packages[p + 1..]));
        ghost var packageDone := Fold(dependencies, requirements);
        for i := 0 to |requirements|
          invariant Fold(dependencies, requirements[i..]) == packageDone
        {
          var requirement := requirements[i];
          assert requirements[i..][1..] == requirements[i + 1..];
          var name := requirement.name;
          var raw := RawVersion(requirement);
          var parsed := Parse(raw);
          if parsed.None? {
            res := Err(BadFormat(name, raw));
            return;
          }
          if name in dependencies {
            var reconciled := Reconcile(dependencies[name], parsed.value);
            if reconciled.None? {
              res := Err(IncompatibleVersions(name, Render(dependencies[name]), raw));
              return;
            }
            dependencies := dependencies[name := reconciled.value];
          } else {
            dependencies := dependencies[name := parsed.value];
          }
        }
      }
    }
    res := Ok(dependencies);
  }
}
