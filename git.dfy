/**
 * src/git.rs: the commit-message composer with its issue footer, the check for
 * staged changes, the commit step and the open-once repository handle.
 */
module Git {
  import opened Wrappers
  import opened GitRepo
  import Text
  import TypeMap
  import Commit
  import opened Questions

  // ---------------------------------------------------------------------------
  // The type table (a second copy of the one in src/commit.rs)

  /** DEFAULT_TYPES as git.rs declares it. */
  function DefaultTypes(): TypeMap.TypeTable
  {
    map[
      "build" := "Changes that affect the build system or external dependencies (example scopes: cargo, bazel, make)",
      "chore" := "Other changes that don't modify src or test files",
      "ci" := "Changes to our CI configuration files and scripts (example scopes: Travis, Circle, GitHub Actions)",
      "docs" := "Documentation only changes",
      "feat" := "A new feature",
      "fix" := "A bug fix",
      "perf" := "A code change that improves performance",
      "refactor" := "A code change that neither fixes a bug nor adds a feature",
      "revert" := "Reverts a previous commit",
      "style" := "Changes that do not affect the meaning of the code (white-space, formatting, etc)",
      "test" := "Adding missing tests or correcting existing tests"
    ]
  }

  /** The two copies of the table agree key for key and value for value. */
  lemma DefaultTablesAgree()
    ensures DefaultTypes() == Commit.DefaultTypes()
    ensures |DefaultTypes()| == 11
  {
    Commit.DefaultTypesContents();
  }

  // ---------------------------------------------------------------------------
  // The issue footer

  /** The footer token: "Fixes" for fix, "Closes" for feat, "Referenced-issues" otherwise. */
  function FooterKey(commitType: string): (key: string)
    ensures (key == "Fixes") <==> (commitType == "fix")
    ensures (key == "Closes") <==> (commitType == "feat")
    ensures (key == "Referenced-issues") <==> (commitType != "fix" && commitType != "feat")
  {
    match commitType
    case "fix" => "Fixes"
    case "feat" => "Closes"
    case _ => "Referenced-issues"
  }

  /** Total length of the issues when each is followed by one space. */
  function IssuesWidth(issues: seq<string>): nat
  {
    if issues == [] then 0 else |issues[0]| + 1 + IssuesWidth(issues[1..])
  }

  /** The footer value: every issue followed by exactly one space. */
  function FooterValue(issues: seq<string>): (v: string)
    ensures |v| == IssuesWidth(issues)
    ensures issues == [] ==> v == ""
    ensures issues != [] ==> v[|v| - 1] == ' ' && v[..|issues[0]|] == issues[0]
  {
    if issues == [] then ""
    else
      var rest := FooterValue(issues[1..]);
      assert (issues[0] + " " + rest)[..|issues[0]|] == issues[0];
      issues[0] + " " + rest
  }

  /** The separator: a single space before a value that starts with '#', ": " otherwise. */
  function FooterSeparator(value: string): (sep: string)
    ensures sep == " " || sep == ": "
    ensures (sep == " ") <==> (|value| > 0 && value[0] == '#')
  {
    if |value| > 0 && value[0] == '#' then " " else ": "
  }

  /** format_footer, as a value. */
  function Footer(commitType: string, issues: seq<string>): string
  {
    var value := FooterValue(issues);
    FooterKey(commitType) + FooterSeparator(value) + value
  }

  /** Appending an issue appends it and one space to the footer value. */
  lemma {:induction false} FooterValueSnoc(issues: seq<string>, issue: string)
    ensures FooterValue(issues + [issue]) == FooterValue(issues) + issue + " "
  {
    if issues != [] {
      assert (issues + [issue])[1..] == issues[1..] + [issue];
      FooterValueSnoc(issues[1..], issue);
    } else {
      assert [issue][1..] == [];
    }
  }

  /** format_footer: push each issue and a space onto the value, then prefix key and separator. */
  method FormatFooter(commitType: string, issues: seq<string>) returns (footer: string)
    ensures footer == Footer(commitType, issues)
  {
    var footerKey := FooterKey(commitType);
    var footerValue := "";
    for i := 0 to |issues|
      invariant footerValue == FooterValue(issues[..i])
    {
      assert issues[..i + 1] == issues[..i] + [issues[i]];
      FooterValueSnoc(issues[..i], issues[i]);
      footerValue := footerValue + issues[i] + " ";
    }
    assert issues[..|issues|] == issues;
    var footerSeparator := FooterSeparator(footerValue);
    footer := footerKey + footerSeparator + footerValue;
  }

  /** The separator is decided by the first character of the first issue. */
  lemma FooterSeparatorRule(commitType: string, issues: seq<string>)
    ensures Footer(commitType, issues) ==
      FooterKey(commitType)
      + (if issues != [] && |issues[0]| > 0 && issues[0][0] == '#' then " " else ": ")
      + FooterValue(issues)
  {
    if issues != [] && |issues[0]| > 0 {
      var v := FooterValue(issues);
      assert v[0] == v[..|issues[0]|][0];
    }
  }

  /** The footer value of one or more issues is their space-join followed by one space. */
  lemma {:induction false} FooterValueIsJoin(issues: seq<string>)
    requires |issues| >= 1
    ensures FooterValue(issues) == Text.JoinWith(issues, " ") + " "
  {
    if |issues| > 1 {
      FooterValueIsJoin(issues[1..]);
    }
  }

  /**
   * Survey and footer together: the issue line `s` is split on spaces and
   * joined back with a trailing space, so the footer shows `s` plus one space.
   */
  lemma FooterOfIssueLine(commitType: string, s: string)
    ensures Footer(commitType, IssueList(s)) ==
      FooterKey(commitType) + (if |s| > 0 && s[0] == '#' then " " else ": ") + s + " "
  {
    var issues := IssueList(s);
    FooterValueIsJoin(issues);
    assert FooterValue(issues) == s + " ";
    if |s| > 0 {
      assert FooterValue(issues)[0] == s[0];
    }
  }

  // ---------------------------------------------------------------------------
  // The commit message

  /** `type(scope)!: short`: scope in parentheses when present, '!' when a breaking change is described. */
  function Header(survey: SurveyResults): string
  {
    var commitTypeAndScope := match survey.scope
      case Some(scope) => survey.commitType + "(" + scope + ")"
      case None => survey.commitType;
    var preColon := if survey.breakingChangesDesc.Some? then commitTypeAndScope + "!" else commitTypeAndScope;
    preColon + ": " + survey.shortMsg
  }

  /** The header followed by the long description after a blank line, when there is one. */
  function WithLongMsg(survey: SurveyResults): string
  {
    match survey.longMsg
    case Some(longMsg) => Header(survey) + "\n\n" + longMsg
    case None => Header(survey)
  }

  /** Then the breaking-change block, whenever a description is present (even an empty one). */
  function WithBreakingChange(survey: SurveyResults): string
  {
    match survey.breakingChangesDesc
    case Some(desc) => WithLongMsg(survey) + "\n\nBREAKING CHANGE: " + desc
    case None => WithLongMsg(survey)
  }

  /** generate_commit_msg: then the issue footer, whenever an issue list is present (even an empty one). */
  function GenerateCommitMsg(survey: SurveyResults): string
  {
    match survey.affectedOpenIssues
    case Some(issuesList) => WithBreakingChange(survey) + "\n\n" + Footer(survey.commitType, issuesList)
    case None => WithBreakingChange(survey)
  }

  /** The breaking-change paragraph, present when a description (even an empty one) is. */
  function BreakingParagraph(survey: SurveyResults): Option<string>
  {
    match survey.breakingChangesDesc
    case Some(desc) => Some("BREAKING CHANGE: " + desc)
    case None => None
  }

  /** The footer paragraph, present whenever an issue list is (even an empty one). */
  function FooterParagraph(survey: SurveyResults): Option<string>
  {
    match survey.affectedOpenIssues
    case Some(issues) => Some(Footer(survey.commitType, issues))
    case None => None
  }

  /** A paragraph that is present only when `o` is. */
  function Optional(o: Option<string>): seq<string>
  {
    if o.Some? then [o.value] else []
  }

  /** A present paragraph after a blank line, or nothing. */
  function AfterBlankLine(o: Option<string>): string
  {
    if o.Some? then "\n\n" + o.value else ""
  }

  /** The paragraphs of a message in their fixed order: header, body, breaking change, footer. */
  function Paragraphs(survey: SurveyResults): (ps: seq<string>)
    ensures |ps| >= 1 && ps[0] == Header(survey)
  {
    [Header(survey)] + Optional(survey.longMsg) + Optional(BreakingParagraph(survey)) + Optional(FooterParagraph(survey))
  }

  /** Number of optional sections a survey fills. */
  function SectionCount(survey: SurveyResults): nat
  {
    (if survey.longMsg.Some? then 1 else 0)
    + (if survey.breakingChangesDesc.Some? then 1 else 0)
    + (if survey.affectedOpenIssues.Some? then 1 else 0)
  }

  /** Joining after an optional paragraph adds it after a blank line when present. */
  lemma JoinOptional(ps: seq<string>, o: Option<string>)
    requires |ps| >= 1
    ensures Text.JoinWith(ps + Optional(o), "\n\n") == Text.JoinWith(ps, "\n\n") + AfterBlankLine(o)
  {
    if o.Some? {
      Text.JoinWithSnoc(ps, o.value, "\n\n");
    } else {
      assert ps + [] == ps;
    }
  }

  /** The breaking-change block of the composer is a blank line and the breaking paragraph. */
  lemma BreakingBlock(withLongMsg: string, desc: string)
    ensures withLongMsg + "\n\nBREAKING CHANGE: " + desc == withLongMsg + ("\n\n" + ("BREAKING CHANGE: " + desc))
  {
    assert "\n\nBREAKING CHANGE: " == "\n\n" + "BREAKING CHANGE: ";
  }

  /** The long description follows the header after a blank line, when present. */
  lemma LongMsgStage(survey: SurveyResults)
    ensures WithLongMsg(survey) == Header(survey) + AfterBlankLine(survey.longMsg)
  {
  }

  /** The breaking-change paragraph follows after a blank line, when present. */
  lemma BreakingStage(survey: SurveyResults)
    ensures WithBreakingChange(survey) == WithLongMsg(survey) + AfterBlankLine(BreakingParagraph(survey))
  {
    if survey.breakingChangesDesc.Some? {
      BreakingBlock(WithLongMsg(survey), survey.breakingChangesDesc.value);
    }
  }

  /** The composer appends each present section after a blank line, in the fixed order. */
  lemma MessageSections(survey: SurveyResults)
    ensures GenerateCommitMsg(survey) ==
      Header(survey) + AfterBlankLine(survey.longMsg)
      + AfterBlankLine(BreakingParagraph(survey)) + AfterBlankLine(FooterParagraph(survey))
  {
    LongMsgStage(survey);
    BreakingStage(survey);
  }

  /**
   * The message is its paragraphs separated by blank lines: one paragraph per
   * present section (the footer even for an empty issue list), header first.
   */
  lemma MessageParagraphs(survey: SurveyResults)
    ensures GenerateCommitMsg(survey) == Text.JoinWith(Paragraphs(survey), "\n\n")
    ensures |Paragraphs(survey)| == 1 + SectionCount(survey)
  {
    var p0 := [Header(survey)];
    var p1 := p0 + Optional(survey.longMsg);
    var p2 := p1 + Optional(BreakingParagraph(survey));
    JoinOptional(p0, survey.longMsg);
    JoinOptional(p1, BreakingParagraph(survey));
    JoinOptional(p2, FooterParagraph(survey));
    MessageSections(survey);
  }

  /** Every message starts with its header, and is exactly the header iff no section is present. */
  lemma MessageStartsWithHeader(survey: SurveyResults)
    ensures Header(survey) <= GenerateCommitMsg(survey)
    ensures GenerateCommitMsg(survey) == Header(survey) <==> SectionCount(survey) == 0
  {
    var h := Header(survey);
    var m := GenerateCommitMsg(survey);
    if SectionCount(survey) != 0 {
      assert |m| > |h|;
    }
  }

  // ---------------------------------------------------------------------------
  // Reading a header back

  datatype HeaderFields = HeaderFields(commitType: string, scope: Option<string>, breaking: bool, shortMsg: string)

  /** Position of the first character of `s` in `stops`, or |s| if there is none. */
  function IndexOfFirst(s: string, stops: set<char>): (i: nat)
    ensures i <= |s|
    ensures forall j :: 0 <= j < i ==> s[j] !in stops
    ensures i < |s| ==> s[i] in stops
  {
    if s == [] || s[0] in stops then 0 else 1 + IndexOfFirst(s[1..], stops)
  }

  /** Reads `type(scope)!: short` back into its fields; a reference parser of the header grammar. */
  function ParseHeader(h: string): Option<HeaderFields>
  {
    var i := IndexOfFirst(h, TypeStops);
    var rest := h[i..];
    if |rest| > 0 && rest[0] == '(' then
      var j := IndexOfFirst(rest, {')'});
      if j == |rest| then None
      else ParseMarkerAndSubject(h[..i], Some(rest[1..j]), rest[j + 1..])
    else ParseMarkerAndSubject(h[..i], None, rest)
  }

  function ParseMarkerAndSubject(commitType: string, scope: Option<string>, rest: string): Option<HeaderFields>
  {
    var breaking := |rest| > 0 && rest[0] == '!';
    var after := if breaking then rest[1..] else rest;
    if |after| >= 2 && after[..2] == ": " then Some(HeaderFields(commitType, scope, breaking, after[2..]))
    else None
  }

  /** The first stop character after a stop-free prefix is at the end of that prefix. */
  lemma IndexOfFirstAfter(a: string, b: string, stops: set<char>)
    requires forall j :: 0 <= j < |a| ==> a[j] !in stops
    requires |b| > 0 && b[0] in stops
    ensures IndexOfFirst(a + b, stops) == |a|
  {
    assert (a + b)[|a|] == b[0];
    assert forall j :: 0 <= j < |a| ==> (a + b)[j] == a[j];
  }

  /** The part after type and scope yields the breaking flag and the short message. */
  lemma ParseSubject(commitType: string, scope: Option<string>, breaking: bool, shortMsg: string)
    ensures ParseMarkerAndSubject(commitType, scope, (if breaking then "!" else "") + ": " + shortMsg) ==
      Some(HeaderFields(commitType, scope, breaking, shortMsg))
  {
    var rest := (if breaking then "!" else "") + ": " + shortMsg;
    var after := ": " + shortMsg;
    if breaking {
      assert rest[1..] == after;
    } else {
      assert rest == after;
    }
    assert after[..2] == ": ";
    assert after[2..] == shortMsg;
  }

  /** The characters that can end the type in a header. */
  const TypeStops: set<char> := {'(', '!', ':'}

  /** Header parsing after a stop-free type: the scope in parentheses, then the subject. */
  lemma ParseScopedHeader(t: string, sc: string, subject: string)
    requires forall j :: 0 <= j < |t| ==> t[j] !in TypeStops
    requires ')' !in sc
    ensures ParseHeader(t + ("(" + sc + ")" + subject)) == ParseMarkerAndSubject(t, Some(sc), subject)
  {
    var prefix := "(" + sc;
    var tail := prefix + (")" + subject);
    assert "(" + sc + ")" + subject == tail;
    var h := t + tail;
    IndexOfFirstAfter(t, tail, TypeStops);
    assert h[..|t|] == t;
    assert h[|t|..] == tail;
    assert forall k :: 1 <= k < |prefix| ==> prefix[k] == sc[k - 1];
    IndexOfFirstAfter(prefix, ")" + subject, {')'});
    assert tail[1..|prefix|] == sc;
    assert tail[|prefix| + 1..] == subject;
  }

  /** Header parsing after a stop-free type when no scope follows. */
  lemma ParseUnscopedHeader(t: string, subject: string)
    requires forall j :: 0 <= j < |t| ==> t[j] !in TypeStops
    requires |subject| > 0 && subject[0] in {'!', ':'}
    ensures ParseHeader(t + subject) == ParseMarkerAndSubject(t, None, subject)
  {
    var h := t + subject;
    IndexOfFirstAfter(t, subject, TypeStops);
    assert h[..|t|] == t;
    assert h[|t|..] == subject;
  }

  /**
   * When the type has none of `(`, `!`, `:` and the scope has no `)`, the
   * header determines the type, the scope, whether a breaking change is
   * described (even an empty one) and the short message.
   */
  lemma ParseHeaderInverse(survey: SurveyResults)
    requires forall j :: 0 <= j < |survey.commitType| ==> survey.commitType[j] !in TypeStops
    requires survey.scope.Some? ==> ')' !in survey.scope.value
    ensures ParseHeader(Header(survey)) ==
      Some(HeaderFields(survey.commitType, survey.scope, survey.breakingChangesDesc.Some?, survey.shortMsg))
  {
    var t := survey.commitType;
    var breaking := survey.breakingChangesDesc.Some?;
    var subject := (if breaking then "!" else "") + ": " + survey.shortMsg;
    ParseSubject(t, survey.scope, breaking, survey.shortMsg);
    match survey.scope {
      case Some(sc) =>
        assert Header(survey) == t + ("(" + sc + ")" + subject);
        ParseScopedHeader(t, sc, subject);
      case None =>
        assert Header(survey) == t + subject;
        ParseUnscopedHeader(t, subject);
    }
  }

  /** The fix-with-issue case: "Fixes", a single-space separator and the trailing space. */
  lemma FixWithIssueExample()
    ensures GenerateCommitMsg(SurveyResults("fix", None, "null pointer on empty input", None, None, Some(["#42"])))
      == "fix: null pointer on empty input\n\nFixes #42 "
  {
    var survey := SurveyResults("fix", None, "null pointer on empty input", None, None, Some(["#42"]));
    FixFooterExample();
    FixHeaderExample();
    assert "fix: null pointer on empty input\n\nFixes #42 "
      == "fix: null pointer on empty input" + "\n\n" + "Fixes #42 ";
  }

  /** The footer of the example: "Fixes", a space before '#', the issue and its trailing space. */
  lemma FixFooterExample()
    ensures Footer("fix", ["#42"]) == "Fixes #42 "
  {
    assert FooterValue(["#42"]) == "#42 " by {
      assert ["#42"][1..] == [];
    }
  }

  /** The header of the example: no scope, no '!'. */
  lemma FixHeaderExample()
    ensures WithBreakingChange(SurveyResults("fix", None, "null pointer on empty input", None, None, Some(["#42"])))
      == "fix: null pointer on empty input"
  {
    assert "fix" + ": " + "null pointer on empty input" == "fix: null pointer on empty input";
  }

  /** A scope is put in parentheses and an empty breaking-change description still adds '!' and its block. */
  lemma ScopeAndBreakingExamples(msg: string)
    ensures Header(SurveyResults("feat", Some("api"), msg, None, None, None)) == "feat(api): " + msg
    ensures GenerateCommitMsg(SurveyResults("feat", None, msg, None, Some(""), None))
      == "feat!: " + msg + "\n\nBREAKING CHANGE: "
  {
  }

  // ---------------------------------------------------------------------------
  // Staged changes

  /** The fold of check_staged_files_exist: `acc | status.intersects(INDEX_*)` over the entries. */
  function StagedFold(acc: bool, statuses: seq<set<StatusFlag>>): (r: bool)
    ensures r <==> acc || exists i :: 0 <= i < |statuses| && statuses[i] * IndexFlags != {}
    decreases |statuses|
  {
    if statuses == [] then acc
    else StagedFold(acc || statuses[0] * IndexFlags != {}, statuses[1..])
  }

  /** Some entry is new, modified, deleted, renamed or type-changed in the index. */
  function HasStagedChanges(statuses: seq<set<StatusFlag>>): (r: bool)
    ensures r <==> exists i :: 0 <= i < |statuses| && statuses[i] * IndexFlags != {}
  {
    StagedFold(false, statuses)
  }

  /** With no entries, or only working-tree, ignored and conflict flags, nothing is staged. */
  lemma NothingStagedInWorktreeOnly(statuses: seq<set<StatusFlag>>)
    requires forall i :: 0 <= i < |statuses| ==> statuses[i] !! IndexFlags
    ensures !HasStagedChanges(statuses)
  {
  }

  /** The status query of check_staged_files_exist; a failing query is an error (a panic in the source). */
  function StagedCheck(s: RepoState): (r: Result<bool, GitError>)
    ensures s.statuses.None? <==> r == Err(StatusFailed)
    ensures r.Ok? ==> r.value == HasStagedChanges(s.statuses.value)
  {
    match s.statuses
    case None => Err(StatusFailed)
    case Some(st) => Ok(HasStagedChanges(st))
  }

  // ---------------------------------------------------------------------------
  // The commit step

  /**
   * commit_to_repo on an open repository: index, write_tree, signature and
   * find_tree must succeed in that order; the new commit has the last commit
   * as its one parent, or no parent when there is none.
   */
  function CommitToRepoSpec(s: RepoState, msg: string): Step
  {
    if s.index.None? then Step(Err(IndexFailed), s)
    else if s.index.value.writtenTree.None? then Step(Err(WriteTreeFailed), s)
    else if s.signature.None? then Step(Err(SignatureFailed), s)
    else if s.index.value.writtenTree.value !in s.trees then Step(Err(TreeNotFound), s)
    else
      var tree := s.index.value.writtenTree.value;
      var parents := match FindLastCommit(s) case Some(tip) => [tip] case None => [];
      WriteCommit(s, tree, s.signature.value, msg, parents)
  }

  /** What must hold for commit_to_repo to create a commit. */
  ghost predicate CanCommit(s: RepoState)
  {
    && s.index.Some? && s.index.value.writtenTree.Some?
    && s.signature.Some? && s.index.value.writtenTree.value in s.trees
    && s.writable
  }

  /**
   * A commit is created iff every step succeeds; it then carries the message,
   * the last commit as its only parent (none on an unborn branch), is new, and
   * HEAD moves to it.
   */
  lemma CommitParentRule(s: RepoState, msg: string)
    requires WellFormed(s)
    ensures CommitToRepoSpec(s, msg).result.Ok? <==> CanCommit(s)
    ensures var st := CommitToRepoSpec(s, msg);
      st.result.Ok? ==>
        && st.result.value !in s.commits
        && st.state.head == Some(st.result.value)
        && st.state.commits.Keys == s.commits.Keys + {st.result.value}
        && st.state.commits[st.result.value].message == msg
        && st.state.commits[st.result.value].parents ==
             (if s.head.Some? then [s.head.value] else [])
  {
  }

  /** A failed commit leaves the repository exactly as it was, and every outcome keeps it well formed. */
  lemma CommitAllOrNothing(s: RepoState, msg: string)
    requires WellFormed(s)
    ensures CommitToRepoSpec(s, msg).result.Err? ==> CommitToRepoSpec(s, msg).state == s
    ensures WellFormed(CommitToRepoSpec(s, msg).state)
  {
    if CanCommit(s) {
      var parents := match FindLastCommit(s) case Some(tip) => [tip] case None => [];
      WriteCommitPreservesWellFormed(s, s.index.value.writtenTree.value, s.signature.value, msg, parents);
    }
  }

  /** On an unborn branch the first commit is a root, and the next one has it as its only parent. */
  lemma FirstThenSecondCommit(s: RepoState, msg1: string, msg2: string)
    requires WellFormed(s) && s.head.None? && CanCommit(s)
    ensures var first := CommitToRepoSpec(s, msg1);
      && first.result.Ok?
      && first.state.commits[first.result.value].parents == []
      && var second := CommitToRepoSpec(first.state, msg2);
         && second.result.Ok?
         && second.state.commits[second.result.value].parents == [first.result.value]
  {
    CommitParentRule(s, msg1);
    var first := CommitToRepoSpec(s, msg1);
    CommitAllOrNothing(s, msg1);
    assert CanCommit(first.state);
    CommitParentRule(first.state, msg2);
  }

  // ---------------------------------------------------------------------------
  // The repository handle, opened at most once

  /**
   * get_repository's once-initialised cell. `fs` maps each path to the
   * repository that opening from that path finds (the search is not modelled).
   */
  class Gateway {
    var cell: Option<Repository>

    constructor ()
      ensures cell == None
    {
      cell := None;
    }

    /** The handle get_repository would return now. */
    function Resolve(path: string, fs: map<string, Repository>): Option<Repository>
      reads this
    {
      if cell.Some? then cell else if path in fs then Some(fs[path]) else None
    }

    /** The repository object operations on `path` may change. */
    function Target(path: string, fs: map<string, Repository>): set<object>
      reads this
    {
      match Resolve(path, fs) case Some(r) => {r} case None => {}
    }

    /**
     * get_repository: open the repository once and keep it; while the cell is
     * filled the path is ignored and the same handle is returned.
     */
    method GetRepository(path: string, fs: map<string, Repository>) returns (r: Result<Repository, GitError>)
      modifies this
      ensures cell == old(Resolve(path, fs))
      ensures old(cell).Some? ==> r == Ok(old(cell).value)
      ensures r == (match old(Resolve(path, fs)) case Some(repo) => Ok(repo) case None => Err(OpenFailed))
    {
      if cell.None? {
        if path in fs {
          cell := Some(fs[path]);
        } else {
          return Err(OpenFailed);
        }
      }
      r := Ok(cell.value);
    }

    /** check_staged_files_exist: open (or reuse) the handle and fold over its statuses. */
    method CheckStagedFilesExist(path: string, fs: map<string, Repository>) returns (r: Result<bool, GitError>)
      modifies this
      ensures cell == old(Resolve(path, fs))
      ensures r == (match old(Resolve(path, fs)) case Some(repo) => StagedCheck(repo.State()) case None => Err(OpenFailed))
    {
      var handle := GetRepository(path, fs);
      if handle.Err? {
        return Err(handle.error);
      }
      var repo := handle.value;
      match repo.statuses {
        case None => r := Err(StatusFailed);
        case Some(st) => r := Ok(HasStagedChanges(st));
      }
    }

    /** commit_to_repo: open (or reuse) the handle and write the commit on it. */
    method CommitToRepo(msg: string, path: string, fs: map<string, Repository>) returns (r: Result<CommitId, GitError>)
      modifies this, Target(path, fs)
      ensures cell == old(Resolve(path, fs))
      ensures old(Resolve(path, fs)).None? ==> r == Err(OpenFailed)
      ensures old(Resolve(path, fs)).Some? ==>
        var repo := old(Resolve(path, fs)).value;
        Step(r, repo.State()) == CommitToRepoSpec(old(repo.State()), msg)
    {
      var handle := GetRepository(path, fs);
      if handle.Err? {
        return Err(handle.error);
      }
      var repo := handle.value;
      if repo.index.None? {
        return Err(IndexFailed);
      }
      if repo.index.value.writtenTree.None? {
        return Err(WriteTreeFailed);
      }
      var oid := repo.index.value.writtenTree.value;
      if repo.signature.None? {
        return Err(SignatureFailed);
      }
      var signature := repo.signature.value;
      if oid !in repo.trees {
        return Err(TreeNotFound);
      }
      var parentCommit := FindLastCommit(repo.State());
      match parentCommit {
        case Some(tip) => r := repo.Commit(oid, signature, msg, [tip]);
        case None => r := repo.Commit(oid, signature, msg, []);
      }
    }
  }
}
