/** The built-in table of Conventional Commits types (src/commit.rs). */
module Commit {
  import opened TypeMap

  /** The names DEFAULT_TYPES inserts, in insertion order. */
  const DefaultNames: seq<string> :=
    ["build", "chore", "ci", "docs", "feat", "fix", "perf", "refactor", "revert", "style", "test"]

  // The description DEFAULT_TYPES gives each name.
  const BuildDesc := "Changes that affect the build system or external dependencies (example scopes: cargo, bazel, make)"
  const ChoreDesc := "Other changes that don't modify src or test files"
  const CiDesc := "Changes to our CI configuration files and scripts (example scopes: Travis, Circle, GitHub Actions)"
  const DocsDesc := "Documentation only changes"
  const FeatDesc := "A new feature"
  const FixDesc := "A bug fix"
  const PerfDesc := "A code change that improves performance"
  const RefactorDesc := "A code change that neither fixes a bug nor adds a feature"
  const RevertDesc := "Reverts a previous commit"
  const StyleDesc := "Changes that do not affect the meaning of the code (white-space, formatting, etc)"
  const TestDesc := "Adding missing tests or correcting existing tests"

  /** DEFAULT_TYPES: one entry per insert of the source table. */
  function DefaultTypes(): TypeTable
  {
    map[
      "build" := BuildDesc, "chore" := ChoreDesc, "ci" := CiDesc, "docs" := DocsDesc,
      "feat" := FeatDesc, "fix" := FixDesc, "perf" := PerfDesc, "refactor" := RefactorDesc,
      "revert" := RevertDesc, "style" := StyleDesc, "test" := TestDesc
    ]
  }

  /** A sequence without repeated elements has as many distinct elements as entries. */
  lemma {:induction false} DistinctCardinality(s: seq<string>)
    requires forall i, j :: 0 <= i < j < |s| ==> s[i] != s[j]
    ensures |set x | x in s| == |s|
  {
    if s != [] {
      var n := |s| - 1;
      DistinctCardinality(s[..n]);
      assert (set x | x in s) == (set x | x in s[..n]) + {s[n]} by {
        assert s == s[..n] + [s[n]];
      }
      assert s[n] !in (set x | x in s[..n]);
    }
  }

  /** The keys of the table are the default names. */
  lemma DefaultKeys()
    ensures DefaultTypes().Keys == set x | x in DefaultNames
  {
  }

  /** No default name is listed twice. */
  lemma DefaultNamesDistinct()
    ensures forall i, j :: 0 <= i < j < |DefaultNames| ==> DefaultNames[i] != DefaultNames[j]
  {
  }

  /** The feat and fix entries carry the standard descriptions. */
  lemma FeatAndFix()
    ensures DefaultTypes()["feat"] == "A new feature"
    ensures DefaultTypes()["fix"] == "A bug fix"
  {
  }

  /** The table holds exactly the eleven standard names, all distinct, with the feat and fix descriptions. */
  lemma DefaultTypesContents()
    ensures DefaultTypes().Keys == set x | x in DefaultNames
    ensures |DefaultTypes()| == 11
    ensures DefaultTypes()["feat"] == "A new feature"
    ensures DefaultTypes()["fix"] == "A bug fix"
  {
    DefaultKeys();
    DefaultNamesDistinct();
    FeatAndFix();
    DistinctCardinality(DefaultNames);
    assert |DefaultTypes().Keys| == 11;
  }
}
