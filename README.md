# Grav GPM install: version-constraint merging, in Dafny

This project models the version-constraint engine behind Grav's package manager command
`InstallCommand` (`Grav\Console\Gpm\InstallCommand`). When several packages are installed
together, each declares requirements on shared dependencies (`"*"`, `">=1.0.10"`, `"~2.0"`, or no
version at all). The command merges them into one constraint per dependency. The merge fails fast
with exception code 1 when a requirement text is malformed. It fails with code 2 when two
`~` ("next significant release") requirements lie on different release lines.

The repository's file in this model is the unit test
`tests/unit/Grav/Console/Gpm/InstallCommandTest.php`. The implementation of `InstallCommand` is
not part of this model. The behaviour here is what the test's assertions fix. Where the test is
silent, the model makes a choice and lists it under "Design choices".

Modules, one per file:

- `Wrappers` (`wrappers.dfy`): `Option` and `Result`.
- `Versions` (`versions.dfy`): dotted version text (`2.3.4`, `2.3.x`) and its parsing into
  segments. Also rendering back to text, the round trip between the two, and numeric
  segment-by-segment comparison.
- `Constraints` (`constraints.dfy`):
  - the two prefix classifiers and version-text extraction;
  - `Parse` and `Render` for the three constraint kinds (`Any`, `AtLeast`, `NextSignificantRelease`);
  - the leading-segment compatibility check;
  - `Reconcile`, which combines a stored and a new constraint.
- `DependencyMerge` (`merge.dfy`):
  - requirements, packages and groups;
  - the two errors with their codes and messages;
  - the merge specified as a left fold `MergedDependencies`;
  - `CalculateMergedDependenciesOfPackages`, which walks groups, packages and requirements in
    three nested loops, updates a `map` in place, returns on the first error, and is proved
    equal to the fold.
- `MergeProperties` (`merge_properties.dfy`): what the merge guarantees for every input, proved
  once by induction over the fold:
  - it succeeds exactly when every requirement is well formed and no two requirements on one
    name conflict;
  - a successful result has one entry per name, and each entry covers every requirement on
    that name and is drawn from them;
  - every failure is justified by the input;
  - the same requirements in any order or grouping succeed or fail together. On success they
    give the same names, with entries of the same kind whose versions compare equal. Which of
    two equal-comparing texts is kept (`>=1.0` or `>=1`) can depend on the order. So can which
    error is reported, when the input holds both a malformed text and a conflicting pair.
- `InstallCommandScenarios` (`scenarios.dfy`): every assertion of the unit test, proved about
  the model. The five merge examples are proved for any distinct dependency names, not only the
  names the test uses.

### Design choices

- A version is a non-empty dot-separated list of segments. Each segment is decimal digits or
  `x`. In comparisons the shorter version is padded with zeros and `x` weighs as 0. A
  description of `x` as "equal to any value" would not give a transitive order, and no assertion
  of the test depends on it.
- The two classifiers look at the prefix only (`~`, `>=`). The test's cases allow this; a
  classifier that also checked the version after the prefix would pass them too. Whether a
  valid version follows is decided by `Parse`.
- Every requirement is parsed, the first one on a name included, so a malformed first
  requirement fails the merge too.
- The test fixes no policy for two compatible `~` constraints or for a `>=v` meeting a `~t`. The
  model reconciles two compatible `~` constraints to `~` of the higher version. A mixed
  `>=v`/`~t` pair is accepted when v's leading segment does not exceed t's, and gives `~` of the
  higher version. Otherwise it is an incompatible-versions failure. With this policy, the order of the
  requirements does not decide success or failure, the merged names, or the kind and
  equal-comparing version of each entry (`MergeProperties.MergeIsOrderIndependent`). The
  rendered text of an entry and the error reported can still depend on the order.
- The merged map holds parsed constraints. `Constraints.Render` gives the text the test compares
  against. `Constraints.ParseRender` proves that rendering and re-parsing gives the constraint back.

## Model

| member | source | states |
|---|---|---|
| `DependencyMerge.Error.Code` | tests/unit/Grav/Console/Gpm/InstallCommandTest.php:7-8 | code 1 exactly for a bad format, code 2 exactly for incompatible versions |
| `DependencyMerge.Error.Message` | tests/unit/Grav/Console/Gpm/InstallCommandTest.php:162-194 | a bad-format message starts with "Bad format for version of dependency"; an incompatible-versions message ends with "required in two incompatible versions" |
| `Constraints.VersionFormatIsNextSignificantRelease` | tests/unit/Grav/Console/Gpm/InstallCommandTest.php:199-204 | a text is a next-significant-release text exactly when its first character is `~` |
| `Constraints.VersionFormatIsEqualOrHigher` | tests/unit/Grav/Console/Gpm/InstallCommandTest.php:209-213 | a text is an equal-or-higher text exactly when its first two characters are `>=` |
| `Constraints.FormatsAreExclusive` | tests/unit/Grav/Console/Gpm/InstallCommandTest.php:197-214 | no requirement text is classified both as next significant release and as equal-or-higher |
| `Constraints.CalculateVersionNumberFromDependencyVersion` | tests/unit/Grav/Console/Gpm/InstallCommandTest.php:239-248 | returns a value exactly when the text starts with `~` or `>=`, and that value is the text after the prefix; otherwise null |
| `Constraints.Parse` | tests/unit/Grav/Console/Gpm/InstallCommandTest.php:147-168 | `""` and `"*"` are Any; `>=` or `~` followed by a valid version give AtLeast or NextSignificantRelease of that version; everything else, `">="` included, is a bad format |
| `Constraints.Render` | tests/unit/Grav/Console/Gpm/InstallCommandTest.php:81-84 | the text of a merged entry is `*` exactly for Any, starts with `>=` exactly for AtLeast and with `~` exactly for NextSignificantRelease |
| `Constraints.ParseRender` | tests/unit/Grav/Console/Gpm/InstallCommandTest.php:81-84 | the text a merged constraint is compared as parses back to the same constraint |
| `Versions.VersionRoundTrip` | tests/unit/Grav/Console/Gpm/InstallCommandTest.php:241-244 | every non-empty version renders to text that parses back to it |
| `Constraints.CheckNextSignificantReleasesAreCompatible` | tests/unit/Grav/Console/Gpm/InstallCommandTest.php:223-235 | two non-empty `~` bases are compatible exactly when their first segments compare equal as numbers |
| `Constraints.CompatibilityIsSymmetric` | tests/unit/Grav/Console/Gpm/InstallCommandTest.php:223-224 | two version texts are compatible in one order exactly when they are in the other |
| `Constraints.CompatibilityIgnoresDepth` | tests/unit/Grav/Console/Gpm/InstallCommandTest.php:225-235 | for any valid dotted text, dropping everything after the first dot keeps its compatibility with any other text |
| `Constraints.CompatibilityComparesLeadingNumbers` | tests/unit/Grav/Console/Gpm/InstallCommandTest.php:223-235 | two valid dotted texts whose leading parts are digits are compatible exactly when those parts denote the same number |
| `Versions.CompareAntisymmetric` | tests/unit/Grav/Console/Gpm/InstallCommandTest.php:89-142 | swapping the versions compared swaps Less and Greater and keeps Equal |
| `Versions.NotBelowTransitive` | tests/unit/Grav/Console/Gpm/InstallCommandTest.php:89-142 | "at least as high" is transitive |
| `Versions.Max` | tests/unit/Grav/Console/Gpm/InstallCommandTest.php:118-142 | the higher of two versions, one of the two, at least as high as both |
| `Constraints.Reconcile` | tests/unit/Grav/Console/Gpm/InstallCommandTest.php:89-194 | fails exactly on a conflict; two `~` constraints succeed exactly when compatible; a success covers both inputs, so Any never overrides a specific constraint and `>=` keeps the higher version, and takes its kind and version from one of them |
| `DependencyMerge.Step` | tests/unit/Grav/Console/Gpm/InstallCommandTest.php:52-76 | one requirement: on success the keys gain its name and no other entry changes; a new name stores the parsed constraint; a known name stores an entry that covers both the old entry and the new constraint and is drawn from them; bad format exactly when its text does not parse; incompatible exactly when it conflicts with the stored entry |
| `DependencyMerge.CalculateMergedDependenciesOfPackages` | tests/unit/Grav/Console/Gpm/InstallCommandTest.php:52-195 | the nested loops over groups, packages and requirements return exactly the fold `MergedDependencies`, including its first error |
| `MergeProperties.FoldFacts` | tests/unit/Grav/Console/Gpm/InstallCommandTest.php:52-195 | folding from a faithful summary succeeds exactly when all texts parse and nothing conflicts; success gives a faithful summary, failure a justified error |
| `MergeProperties.MergeFacts` | tests/unit/Grav/Console/Gpm/InstallCommandTest.php:52-195 | the merge succeeds exactly when every requirement is well formed and no two on one name conflict; success summarises all requirements, failure is explained by them |
| `MergeProperties.SummaryEntry` | tests/unit/Grav/Console/Gpm/InstallCommandTest.php:57-142 | a merged entry is Any exactly when all its requirements are; it is `~` exactly when one of them is; otherwise its version is a requested one and no requested version is higher |
| `MergeProperties.SummariesAgree` | tests/unit/Grav/Console/Gpm/InstallCommandTest.php:89-142 | two summaries of the same requirements have the same names and equivalent entries |
| `MergeProperties.OneEntryPerName` | tests/unit/Grav/Console/Gpm/InstallCommandTest.php:57-79 | a successful merge has exactly one entry per distinct dependency name across all packages of all groups |
| `MergeProperties.WildcardOnlyWhenAllWildcard` | tests/unit/Grav/Console/Gpm/InstallCommandTest.php:64-84 | an entry is Any exactly when every requirement on its name is `"*"`, `""` or has no version |
| `MergeProperties.MergedIsHighest` | tests/unit/Grav/Console/Gpm/InstallCommandTest.php:89-142 | a specific entry carries one of the requested versions, at least as high as every requested version, and is `~` exactly when some requirement is |
| `MergeProperties.SoleRequirementIsKept` | tests/unit/Grav/Console/Gpm/InstallCommandTest.php:61-81 | a name required once keeps that requirement's constraint |
| `MergeProperties.NextSignificantReleasesShareLine` | tests/unit/Grav/Console/Gpm/InstallCommandTest.php:173-194 | after a successful merge all `~` requirements on one name are pairwise compatible |
| `MergeProperties.IncompatibleReleasesFail` | tests/unit/Grav/Console/Gpm/InstallCommandTest.php:173-194 | two `~` requirements on one name with different leading segments fail the merge, with code 2 when every text is well formed |
| `MergeProperties.BadFormatFails` | tests/unit/Grav/Console/Gpm/InstallCommandTest.php:147-168 | one malformed requirement anywhere fails the merge |
| `MergeProperties.FailuresAreJustified` | tests/unit/Grav/Console/Gpm/InstallCommandTest.php:147-194 | a code-1 failure names a dependency and a malformed text required for it; a code-2 failure names a dependency with two conflicting requirements |
| `MergeProperties.MergeIsOrderIndependent` | tests/unit/Grav/Console/Gpm/InstallCommandTest.php:89-142 | inputs with the same requirements in any order or grouping both succeed or both fail, and on success have the same names with equivalent entries |
| `InstallCommandScenarios.NextSignificantReleaseExamples` | tests/unit/Grav/Console/Gpm/InstallCommandTest.php:199-204 | `~2.0` and `~2.3.x` are next-significant-release texts; `>=1.0`, `>=2.3.4`, `>=2.3.x` and `1.0` are not |
| `InstallCommandScenarios.EqualOrHigherExamples` | tests/unit/Grav/Console/Gpm/InstallCommandTest.php:209-213 | `>=1.0`, `>=2.3.4` and `>=2.3.x` are equal-or-higher texts; `~2.3.x` and `1.0` are not |
| `InstallCommandScenarios.VersionNumberExamples` | tests/unit/Grav/Console/Gpm/InstallCommandTest.php:241-247 | the version text of `>=2.0`, `>=2.0.2`, `~2.0.2` and `~1`; null for `""`, `"*"` and `2.0.2` |
| `InstallCommandScenarios.CompatibleReleaseLines` | tests/unit/Grav/Console/Gpm/InstallCommandTest.php:223-226 | `1.0`/`1.2` both ways, `1.0`/`1.0.10` and `1.1`/`1.1.10` are compatible bases |
| `InstallCommandScenarios.MoreCompatibleReleaseLines` | tests/unit/Grav/Console/Gpm/InstallCommandTest.php:227-230 | `30.0`/`30.10`, `1.0`/`1.1.10`, `1.0`/`1.8` and `1.0.1`/`1.1` are compatible bases |
| `InstallCommandScenarios.IncompatibleReleaseLines` | tests/unit/Grav/Console/Gpm/InstallCommandTest.php:232-235 | `1.0`/`2.2` and `0.9.99` against `1.0.0`, `1.0.10` and `1.0.10.2` are incompatible bases |
| `InstallCommandScenarios.FirstExampleFolds` | tests/unit/Grav/Console/Gpm/InstallCommandTest.php:57-76 | the first example merges to exactly grav `>=1.0.10`, form `~2.0`, login `>=2.0`, errors `>=1.0`, problems Any |
| `InstallCommandScenarios.FirstExampleMerges` | tests/unit/Grav/Console/Gpm/InstallCommandTest.php:76-84 | five entries; grav is `>=1.0.10`; errors is `>=1.0` and not `*`; problems is `*` |
| `InstallCommandScenarios.SecondExampleMerges` | tests/unit/Grav/Console/Gpm/InstallCommandTest.php:89-113 | `*`, `>=1.0`, `>=3.2` on one name merge to the single entry `>=3.2` |
| `InstallCommandScenarios.ThirdExampleMerges` | tests/unit/Grav/Console/Gpm/InstallCommandTest.php:118-142 | `>=4.0`, `>=1.0`, `>=3.2` on one name merge to the single entry `>=4.0` |
| `InstallCommandScenarios.MissingVersionFails` | tests/unit/Grav/Console/Gpm/InstallCommandTest.php:147-168 | `>=4.0` then `>=` fails with the bad-format error for that text, code 1, message starting "Bad format for version of dependency" |
| `InstallCommandScenarios.IncompatibleReleasesExampleFails` | tests/unit/Grav/Console/Gpm/InstallCommandTest.php:173-194 | `~4.0` then `~3.0` fails with the incompatible-versions error naming both, code 2, message ending "required in two incompatible versions" |

## Left out

- `GpmStub::findPackage` and `findPackages` (the package registry stand-in) and the test fixtures
  and setup: they are lookup and harness plumbing with no logic of the engine.
- Downloading, extracting and installing packages, and the console command surface of
  `InstallCommand`: I/O outside this engine.
- DependencyMerge.Error.Message: only the asserted prefix and suffix are modelled. The rest of
  the text (dependency name, versions) is this model's own wording.
- Package identifiers (`admin`, `test`, `another`) are carried but play no part in the merge. The
  PHP arrays keyed by them are modelled as sequences in their listed order.
- Constraints.Render: an entry is compared in its canonical text. A requirement written with
  leading zeros (`>=01.0`) is kept as `>=1.0`, and one written `""` is kept as `"*"`, where the
  PHP dictionary would hold the raw string.
- Versions.Compare: an `x` segment weighs 0 rather than comparing equal to any value, so
  `2.x` compares below `2.1`.
- Version text beyond digits, dots and `x` (pre-release suffixes such as `1.0-beta`, surrounding
  whitespace) is a bad format here. PHP's own version comparison rules for such text are not
  modelled.
- Version segments are unbounded naturals; PHP's integer width is not modelled.
