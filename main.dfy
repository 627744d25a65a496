/**
 * src/main.rs, the older self-contained variant: its own survey record (the
 * issue answer kept as one raw string), its own composer, a commit that
 * insists on a parent, the type-table merge and the flow of `main`.
 */
module Legacy {
  import opened Wrappers
  import opened GitRepo
  import opened TypeMap
  import Commit
  import Questions
  import Git

  datatype SurveyResults = SurveyResults(
    commitType: string,
    scope: Option<string>,
    shortMsg: string,
    longMsg: Option<string>,
    breakingChangesDesc: Option<string>,
    affectedOpenIssues: Option<string>)

  /** `SurveyResults::new()`, the derived default record. */
  function NewSurveyResults(): (r: SurveyResults)
    ensures r.commitType == "" && r.shortMsg == ""
    ensures r.scope.None? && r.longMsg.None? && r.breakingChangesDesc.None? && r.affectedOpenIssues.None?
  {
    SurveyResults("", None, "", None, None, None)
  }

  /** Whether some prompt of run_dialog fails (a panic) for these answers on a menu of `menuSize` types. */
  predicate DialogFails(menuSize: nat, answers: Questions.Answers)
  {
    || answers.selection.None?
    || answers.selection.value >= menuSize
    || answers.shortMsg.None?
    || answers.breaking.None?
    || answers.issuesAffected.None?
  }

  /** The record run_dialog fills from the answers once `commitType` has been selected. */
  function SurveyOf(commitType: string, answers: Questions.Answers): SurveyResults
    requires answers.shortMsg.Some?
  {
    SurveyResults(commitType, answers.scope, answers.shortMsg.value, Questions.NonEmpty(answers.longMsg),
                  if answers.breaking == Some(true) then answers.breakingDesc else None,
                  if answers.issuesAffected == Some(true) then answers.issues else None)
  }

  /**
   * run_dialog: the same prompts as the newer survey, except that the scope
   * answer is kept as typed (an empty answer becomes `Some("")`) and the issue
   * line is kept unsplit.
   */
  method RunDialog(types: map<string, string>, answers: Questions.Answers)
    returns (r: Result<SurveyResults, Questions.SurveyError>, options: seq<(string, string)>)
    ensures Questions.IsMenuOf(options, types)
    ensures r.Err? <==> Questions.FirstFailure(options, answers).Some?
    ensures r.Err? ==> r.error == Questions.FirstFailure(options, answers).value
    ensures r.Err? <==> DialogFails(|types|, answers)
    ensures r.Ok? ==> answers.shortMsg.Some? && r.value == SurveyOf(r.value.commitType, answers)
    ensures r.Ok? ==>
      && answers.selection.value < |options|
      && r.value.commitType == options[answers.selection.value].0
      && r.value.commitType in types
    ensures r.Ok? ==>
      Questions.MenuItems(options)[answers.selection.value] == r.value.commitType + ": " + types[r.value.commitType]
    ensures r.Ok? ==> r.value.scope == answers.scope
    ensures r.Ok? ==> Some(r.value.shortMsg) == answers.shortMsg
    ensures r.Ok? ==> r.value.longMsg == Questions.NonEmpty(answers.longMsg) && r.value.longMsg != Some("")
    ensures r.Ok? ==>
      r.value.breakingChangesDesc == (if answers.breaking == Some(true) then answers.breakingDesc else None)
    ensures r.Ok? ==>
      r.value.affectedOpenIssues == (if answers.issuesAffected == Some(true) then answers.issues else None)
  {
    var results := NewSurveyResults();
    options := Questions.TypeOptions(types);
    var items := Questions.MenuItems(options);

    if answers.selection.None? {
      return Err(Questions.SelectFailed), options;
    }
    var selectedIndex := answers.selection.value;
    if selectedIndex >= |options| {
      return Err(Questions.SelectionOutOfRange), options;
    }
    results := results.(commitType := options[selectedIndex].0);

    results := results.(scope := answers.scope);

    if answers.shortMsg.None? {
      return Err(Questions.ShortMsgFailed), options;
    }
    results := results.(shortMsg := answers.shortMsg.value);

    results := results.(longMsg := Questions.NonEmpty(answers.longMsg));

    if answers.breaking.None? {
      return Err(Questions.BreakingConfirmFailed), options;
    }
    if answers.breaking.value {
      results := results.(breakingChangesDesc := answers.breakingDesc);
    }

    if answers.issuesAffected.None? {
      return Err(Questions.IssuesConfirmFailed), options;
    }
    if answers.issuesAffected.value {
      results := results.(affectedOpenIssues := answers.issues);
    }
    r := Ok(results);
  }

  /** generate_commit_msg of main.rs: the raw issue line follows a blank line, with no key or separator. */
  function GenerateCommitMsg(survey: SurveyResults): string
  {
    var commitTypeAndScope := match survey.scope
      case Some(scope) => survey.commitType + "(" + scope + ")"
      case None => survey.commitType;
    var preColon := if survey.breakingChangesDesc.Some? then commitTypeAndScope + "!" else commitTypeAndScope;
    var withShortMsg := preColon + ": " + survey.shortMsg;
    var withLongMsg := match survey.longMsg
      case Some(longMsg) => withShortMsg + "\n\n" + longMsg
      case None => withShortMsg;
    var withBreakingChange := match survey.breakingChangesDesc
      case Some(desc) => withLongMsg + "\n\nBREAKING CHANGE: " + desc
      case None => withLongMsg;
    match survey.affectedOpenIssues
    case Some(issueList) => withBreakingChange + "\n\n" + issueList
    case None => withBreakingChange
  }

  /** The newer record with the same fields and the given issue list. */
  function WithIssueList(survey: SurveyResults, issues: Option<seq<string>>): Questions.SurveyResults
  {
    Questions.SurveyResults(survey.commitType, survey.scope, survey.shortMsg,
                            survey.longMsg, survey.breakingChangesDesc, issues)
  }

  /**
   * Up to the issues the two composers agree: same header, body and breaking
   * block; the older one then appends the raw issue line after a blank line.
   */
  lemma LegacyComposerAgrees(survey: SurveyResults)
    ensures GenerateCommitMsg(survey) ==
      Git.WithBreakingChange(WithIssueList(survey, None))
      + (match survey.affectedOpenIssues case Some(raw) => "\n\n" + raw case None => "")
  {
  }

  /** The header, body and breaking block do not depend on the issue list. */
  lemma SectionsIgnoreIssues(survey: SurveyResults, issues: Option<seq<string>>)
    ensures Git.WithBreakingChange(WithIssueList(survey, issues)) == Git.WithBreakingChange(WithIssueList(survey, None))
  {
    var a := WithIssueList(survey, issues);
    var b := WithIssueList(survey, None);
    assert Git.Header(a) == Git.Header(b);
    assert Git.WithLongMsg(a) == Git.WithLongMsg(b);
  }

  /**
   * For the same answers the newer composer renders the issue line `raw` as
   * key, separator, `raw` and a trailing space, where the older one has `raw`.
   */
  lemma IssueFooterDifference(survey: SurveyResults, raw: string)
    requires survey.affectedOpenIssues == Some(raw)
    ensures Git.GenerateCommitMsg(WithIssueList(survey, Some(Questions.IssueList(raw)))) ==
      Git.WithBreakingChange(WithIssueList(survey, None)) + "\n\n"
      + (Git.FooterKey(survey.commitType) + (if |raw| > 0 && raw[0] == '#' then " " else ": ") + raw + " ")
    ensures GenerateCommitMsg(survey) == Git.WithBreakingChange(WithIssueList(survey, None)) + "\n\n" + raw
  {
    LegacyComposerAgrees(survey);
    var issues := Questions.IssueList(raw);
    Git.FooterOfIssueLine(survey.commitType, raw);
    SectionsIgnoreIssues(survey, Some(issues));
    var current := WithIssueList(survey, Some(issues));
    assert Git.GenerateCommitMsg(current) == Git.WithBreakingChange(current) + "\n\n" + Git.Footer(survey.commitType, issues);
  }

  /** An empty scope answer is kept, so the header shows empty parentheses. */
  lemma EmptyScopeKept(commitType: string, shortMsg: string)
    ensures GenerateCommitMsg(SurveyResults(commitType, Some(""), shortMsg, None, None, None))
      == commitType + "(): " + shortMsg
  {
    assert commitType + "(" + "" + ")" + ": " + shortMsg == commitType + "(): " + shortMsg;
  }

  // ---------------------------------------------------------------------------
  // The commit step of main.rs

  /**
   * commit of main.rs on an opened repository: index, write_tree, signature,
   * find_last_commit and find_tree must succeed in that order, and the new
   * commit always has the last commit as its one parent.
   */
  function CommitSpec(s: RepoState, msg: string): Step
  {
    if s.index.None? then Step(Err(IndexFailed), s)
    else if s.index.value.writtenTree.None? then Step(Err(WriteTreeFailed), s)
    else if s.signature.None? then Step(Err(SignatureFailed), s)
    else if FindLastCommit(s).None? then Step(Err(NoLastCommit), s)
    else if s.index.value.writtenTree.value !in s.trees then Step(Err(TreeNotFound), s)
    else WriteCommit(s, s.index.value.writtenTree.value, s.signature.value, msg, [FindLastCommit(s).value])
  }

  /**
   * Where a last commit resolves the two commit steps do the same; on an
   * unborn branch the older one fails and changes nothing, where the newer
   * one would write a root commit.
   */
  lemma CommitNeedsParent(s: RepoState, msg: string)
    ensures FindLastCommit(s).Some? ==> CommitSpec(s, msg) == Git.CommitToRepoSpec(s, msg)
    ensures FindLastCommit(s).None? ==> CommitSpec(s, msg).result.Err? && CommitSpec(s, msg).state == s
    ensures CommitSpec(s, msg).result.Err? ==> CommitSpec(s, msg).state == s
    ensures var st := CommitSpec(s, msg);
      st.result.Ok? ==>
        && FindLastCommit(s).Some?
        && st.state.head == Some(st.result.value)
        && st.result.value in st.state.commits
        && st.state.commits[st.result.value].message == msg
        && st.state.commits[st.result.value].parents == [s.head.value]
  {
  }

  /** The repository object the commit on `repoRoot` may change. */
  function Target(repoRoot: string, fs: map<string, Repository>): set<object>
  {
    if repoRoot in fs then {fs[repoRoot]} else {}
  }

  /** commit of main.rs: open the repository at `repoRoot` (no cell) and write the commit. */
  method CommitAt(msg: string, repoRoot: string, fs: map<string, Repository>) returns (r: Result<CommitId, GitError>)
    modifies Target(repoRoot, fs)
    ensures repoRoot !in fs ==> r == Err(OpenFailed)
    ensures repoRoot in fs ==> Step(r, fs[repoRoot].State()) == CommitSpec(old(fs[repoRoot].State()), msg)
  {
    if repoRoot !in fs {
      return Err(OpenFailed);
    }
    var repo := fs[repoRoot];
    if repo.index.None? {
      return Err(IndexFailed);
    }
    if repo.index.value.writtenTree.None? {
      return Err(WriteTreeFailed);
    }
    var oid := repo.index.value.writtenTree.value;
    if repo.signature.None? {
      return Err(SignatureFailed);
    }
    var signature := repo.signature.value;
    var parentCommit := FindLastCommit(repo.State());
    if parentCommit.None? {
      return Err(NoLastCommit);
    }
    if oid !in repo.trees {
      return Err(TreeNotFound);
    }
    r := repo.Commit(oid, signature, msg, [parentCommit.value]);
  }

  // ---------------------------------------------------------------------------
  // The type table and main

  /** `package.metadata.commits`: whether to use the defaults, and the custom (name, desc) pairs. */
  datatype CommitsMetadata = CommitsMetadata(defaults: bool, types: Option<seq<(string, string)>>)
  datatype Package = Package(metadata: Option<CommitsMetadata>)
  /** The parsed manifest (reading and parsing Cargo.toml is not modelled). */
  datatype Manifest = Manifest(package: Option<Package>)

  function CustomTypes(commits: CommitsMetadata): seq<(string, string)>
  {
    match commits.types case Some(t) => t case None => []
  }

  /**
   * The types `main` offers: start empty, add the defaults when asked, then
   * insert each custom pair in order, a later pair replacing an earlier
   * entry or a default of the same name.
   */
  function ResolvedTypes(commits: CommitsMetadata): (types: TypeTable)
    ensures commits.defaults ==> Commit.DefaultTypes().Keys <= types.Keys
    ensures types.Keys == (if commits.defaults then Commit.DefaultTypes().Keys else {}) + Names(CustomTypes(commits))
    ensures forall k :: commits.defaults && k in Commit.DefaultTypes() && k !in Names(CustomTypes(commits)) ==>
      types[k] == Commit.DefaultTypes()[k]
    ensures forall i :: 0 <= i < |CustomTypes(commits)| && LastWithName(CustomTypes(commits), i) ==>
      types[CustomTypes(commits)[i].0] == CustomTypes(commits)[i].1
  {
    var start := if commits.defaults then Commit.DefaultTypes() else map[];
    forall k | commits.defaults && k in Commit.DefaultTypes() && k !in Names(CustomTypes(commits)) {
      InsertAllKeepsOthers(start, CustomTypes(commits), k);
    }
    forall i | 0 <= i < |CustomTypes(commits)| && LastWithName(CustomTypes(commits), i) {
      InsertAllLastWins(start, CustomTypes(commits), i);
    }
    InsertAll(start, CustomTypes(commits))
  }

  /** The `for` loop of main: insert each custom pair in order. */
  method InsertCustomTypes(start: TypeTable, custom: seq<(string, string)>) returns (types: TypeTable)
    ensures types == InsertAll(start, custom)
  {
    types := start;
    for i := 0 to |custom|
      invariant types == InsertAll(start, custom[..i])
    {
      assert custom[..i + 1][..i] == custom[..i];
      types := types[custom[i].0 := custom[i].1];
    }
    assert custom[..|custom|] == custom;
  }

  /** The table-merging part of main: `extend` the empty table with the defaults, then insert the custom pairs. */
  method ResolveTypes(commits: CommitsMetadata) returns (types: TypeTable)
    ensures types == ResolvedTypes(commits)
  {
    types := map[];
    if commits.defaults {
      types := types + Commit.DefaultTypes();
    }
    assert types == (if commits.defaults then Commit.DefaultTypes() else map[]);
    if commits.types.Some? {
      types := InsertCustomTypes(types, commits.types.value);
    } else {
      assert CustomTypes(commits) == [];
    }
  }

  /** Defaults alone give the default table; a custom entry overrides a default; without defaults only custom names appear. */
  lemma ResolvedTypesCases(custom: seq<(string, string)>)
    ensures ResolvedTypes(CommitsMetadata(true, None)) == Commit.DefaultTypes()
    ensures ResolvedTypes(CommitsMetadata(true, Some([]))) == Commit.DefaultTypes()
    ensures ResolvedTypes(CommitsMetadata(true, Some([("feat", "custom desc")])))["feat"] == "custom desc"
    ensures ResolvedTypes(CommitsMetadata(false, None)) == map[]
    ensures ResolvedTypes(CommitsMetadata(false, Some(custom))).Keys == Names(custom)
  {
    assert LastWithName([("feat", "custom desc")], 0);
  }

  datatype Outcome =
    | NothingDone                   // the manifest has no package
    | MissingMetadata               // the package has no metadata: message on stderr
    | SurveyAborted(surveyError: Questions.SurveyError)
    | CommitFailed(gitError: GitError)
    | Committed(id: CommitId)       // "Wrote commit: <id>"

  /** The commit step's result an outcome reports (only meaningful for the two commit outcomes). */
  function CommitResult(outcome: Outcome): Result<CommitId, GitError>
  {
    if outcome.Committed? then Ok(outcome.id)
    else if outcome.CommitFailed? then Err(outcome.gitError)
    else Err(WriteFailed)
  }

  /**
   * main: with package metadata, resolve the types, run the dialog, compose
   * the message and commit it; panics end the run with the matching outcome.
   */
  method RunMain(manifest: Manifest, answers: Questions.Answers, repoRoot: string, fs: map<string, Repository>)
    returns (outcome: Outcome)
    modifies Target(repoRoot, fs)
    ensures manifest.package.None? ==> outcome == NothingDone
    ensures manifest.package.Some? && manifest.package.value.metadata.None? ==> outcome == MissingMetadata
    ensures outcome.NothingDone? <==> manifest.package.None?
    ensures outcome.MissingMetadata? <==> manifest.package.Some? && manifest.package.value.metadata.None?
    ensures (manifest.package.Some? && manifest.package.value.metadata.Some?
             && !DialogFails(|ResolvedTypes(manifest.package.value.metadata.value)|, answers)) ==>
      outcome.CommitFailed? || outcome.Committed?
    ensures manifest.package.Some? && manifest.package.value.metadata.Some? ==>
      (outcome.SurveyAborted? <==> DialogFails(|ResolvedTypes(manifest.package.value.metadata.value)|, answers))
    ensures outcome.NothingDone? || outcome.MissingMetadata? || outcome.SurveyAborted? || outcome.CommitFailed? ==>
      repoRoot in fs ==> fs[repoRoot].State() == old(fs[repoRoot].State())
    ensures outcome.CommitFailed? || outcome.Committed? ==>
      && manifest.package.Some? && manifest.package.value.metadata.Some?
      && !DialogFails(|ResolvedTypes(manifest.package.value.metadata.value)|, answers)
      && (repoRoot !in fs ==> outcome == CommitFailed(OpenFailed))
      && exists commitType ::
           && commitType in ResolvedTypes(manifest.package.value.metadata.value)
           && (repoRoot in fs ==>
                 Step(CommitResult(outcome), fs[repoRoot].State())
                 == CommitSpec(old(fs[repoRoot].State()), GenerateCommitMsg(SurveyOf(commitType, answers))))
    ensures outcome.Committed? ==>
      && repoRoot in fs
      && FindLastCommit(old(fs[repoRoot].State())).Some?
      && fs[repoRoot].State().head == Some(outcome.id)
      && outcome.id in fs[repoRoot].State().commits
      && fs[repoRoot].State().commits[outcome.id].parents == [old(fs[repoRoot].State()).head.value]
  {
    if manifest.package.None? {
      return NothingDone;
    }
    var package := manifest.package.value;
    if package.metadata.None? {
      return MissingMetadata;
    }
    var metadata := package.metadata.value;
    var types := ResolveTypes(metadata);
    var survey, _ := RunDialog(types, answers);
    if survey.Err? {
      return SurveyAborted(survey.error);
    }
    var commitMsg := GenerateCommitMsg(survey.value);
    ghost var before := if repoRoot in fs then fs[repoRoot].State() else RepoState(None, map[], 0, None, None, None, {}, false);
    var hash := CommitAt(commitMsg, repoRoot, fs);
    CommitNeedsParent(before, commitMsg);
    if hash.Err? {
      outcome := CommitFailed(hash.error);
    } else {
      outcome := Committed(hash.value);
    }
    assert survey.value == SurveyOf(survey.value.commitType, answers);
  }
}
