# git-cm commit pipeline, modelled in Dafny

git-cm asks a developer a fixed series of questions, renders the answers as a
Conventional Commits message (`type(scope)!: short`, body, `BREAKING CHANGE:`
block, issue footer) and writes that message as a new commit on HEAD. This
project models the core of that pipeline and proves its properties:

- the built-in table of commit types (src/commit.rs, copied in src/git.rs) and
  the merge of defaults with custom types in src/main.rs;
- the survey of src/questions.rs. Each prompt is replaced by a scripted answer:
  what the prompt returned, or `None` when its `interact()` failed. The survey
  then becomes a map from answers to a `SurveyResults` record or to the fatal
  prompt failure;
- the message composer and the issue footer of src/git.rs;
- the staged-change check, the commit step with its parent rule, and the
  open-once repository handle of src/git.rs;
- the older variant in src/main.rs. It has its own survey (raw scope, raw issue
  line), its own composer, a commit that needs a parent, and the flow of `main`.

Files: `wrappers.dfy` (Option, Result), `text.dfy` (Rust's `str::split` on a
char, and joining), `type_map.dfy` (insertion into a type table),
`commit.dfy`, `git_repo.dfy` (the repository library as an abstract state and a
`Repository` class), `questions.dfy`, `git.dfy`, `main.dfy`.

The repository library is reduced to what the pipeline observes. A
`RepoState` holds:
- HEAD and the stored commits;
- the id the next commit gets;
- the answer to each call the pipeline makes: statuses, index, `write_tree`,
  signature, `find_tree`, object write. `None` or `false` stands for a failing
  call.

Each commit step is a function from one state to an outcome and a new state
(`Git.CommitToRepoSpec`, `Legacy.CommitSpec`). The methods that change a
`Repository` object in place are proved equal to those functions.

Three behaviours of the code worth noting:
- the footer is emitted whenever an issue list is present, even an empty one;
- the issue line is split on single spaces, not on any whitespace;
- the header's `!` appears for any breaking-change description, even an empty one.

## Model

| member | source | states |
|---|---|---|
| `Commit.DefaultTypesContents` | src/commit.rs:5-27 | The table has exactly the keys build, chore, ci, docs, feat, fix, perf, refactor, revert, style, test. All are distinct, so its size is 11. feat maps to "A new feature" and fix to "A bug fix". |
| `Commit.DefaultTypes` | src/commit.rs:5-27 | Definition of the table, with no contract of its own. Its eleven entries are the source's inserts; `Commit.DefaultTypesContents` states its keys, size and the feat and fix descriptions. |
| `Git.DefaultTablesAgree` | src/git.rs:8-30 | The git.rs table equals the commit.rs table key for key and value for value, and has 11 entries. |
| `Git.DefaultTypes` | src/git.rs:8-30 | Definition of the git.rs copy, with no contract of its own; `Git.DefaultTablesAgree` proves it equal to `Commit.DefaultTypes`. |
| `TypeMap.InsertAll` | src/main.rs:189-193 | Inserting pairs in order leaves exactly the old keys plus the pairs' names. |
| `TypeMap.InsertAllLastWins` | src/main.rs:189-193 | A name is present and holds the value of the last pair that carries it. |
| `TypeMap.InsertAllKeepsOthers` | src/main.rs:189-193 | A key that no pair names keeps its old value. |
| `Legacy.ResolvedTypes` | src/main.rs:183-193 | With defaults, every default key is present. The key set is the default keys (if used) plus the custom names. A default that no custom pair names keeps its description. The last custom pair with a name decides that name's value. |
| `Legacy.InsertCustomTypes` | src/main.rs:189-193 | The insert loop yields exactly the in-order, last-write-wins fold. |
| `Legacy.ResolveTypes` | src/main.rs:183-193 | Starting empty, extending with the defaults when the flag is set, then inserting the custom pairs yields `ResolvedTypes`. |
| `Legacy.ResolvedTypesCases` | src/main.rs:183-193 | Defaults with no custom types give the default table. A custom ("feat", "custom desc") overrides the default. Without defaults: no custom types give an empty table, and custom types give exactly their names as keys. |
| `Questions.NewSurveyResults` | src/questions.rs:15-20 | The new record has empty type and short message, and every optional field absent. |
| `Questions.TypeOptions` | src/questions.rs:36-39 | The collected options list every (name, description) of the type map exactly once, in an unspecified order. |
| `Questions.MenuItems` | src/questions.rs:40-43 | There is one menu line per option, and it reads `name + ": " + description`. |
| `Questions.NonEmpty` | src/questions.rs:54-60 | A failed or empty answer becomes absent; any other answer is kept verbatim. |
| `Questions.IssueList` | src/questions.rs:102-105 | Splitting the issue line on ' ' gives (number of spaces + 1) tokens. No token contains a space, and joining them with ' ' gives back the line. |
| `Questions.Ask` | src/questions.rs:32-109 | A failing selection, short-message or confirmation prompt is fatal, and the first one decides the error. The type is the name at the selected index and is a key of the map. Scope and long message are normalised (never `Some("")`), and the short message is kept verbatim. The breaking description is set only when confirmed. Issues are set only when confirmed and entered: they are the split of the line, which joins back to it. The menu line shown at the selected index is the chosen type, ": " and its description. |
| `Text.Split` | src/questions.rs:103 | `split(' ')` yields (occurrences + 1) tokens, none of which contains the separator. |
| `Text.JoinSplit` | src/questions.rs:103 | Joining the tokens of a split with the separator gives back the input. |
| `Text.SplitJoin` | src/questions.rs:103 | Splitting the join of separator-free tokens gives back the tokens. |
| `Git.FooterKey` | src/git.rs:69-73 | The key is "Fixes" iff the type is "fix", "Closes" iff it is "feat", and "Referenced-issues" otherwise. |
| `Git.FooterValue` | src/git.rs:74-78 | The value's length is the sum of (issue length + 1). It is "" for no issues. Otherwise it begins with the first issue and ends in a space. |
| `Git.FooterSeparator` | src/git.rs:80-83 | The separator is " " iff the value starts with '#', and ": " otherwise. |
| `Git.FormatFooter` | src/git.rs:68-86 | The push loop builds the footer: key, separator, then each issue followed by one space. |
| `Git.Footer` | src/git.rs:68-86 | Definition of the footer (key, separator, value), with no contract of its own. `Git.FormatFooter` is proved equal to it, and `Git.FooterSeparatorRule`, `Git.FooterValueIsJoin` and `Git.FooterOfIssueLine` state its properties. |
| `Git.FooterSeparatorRule` | src/git.rs:74-85 | The separator is " " exactly when the first issue is non-empty and starts with '#'. This covers an empty list and an empty first token. |
| `Git.FooterValueIsJoin` | src/git.rs:74-78 | For one or more issues, the value is their space-join plus one trailing space. |
| `Git.FooterOfIssueLine` | src/git.rs:68-86 | For a typed issue line `s`, the footer is the key, the separator chosen by `s`'s first character, `s`, and one space. |
| `Git.MessageSections` | src/git.rs:100-115 | The message is the header, then the long message, the `BREAKING CHANGE: ` block and the footer. Each section follows a blank line and appears exactly when its field is present. |
| `Git.GenerateCommitMsg` | src/git.rs:90-116 | Definition of the composer (staged through `Git.Header`, `Git.WithLongMsg`, `Git.WithBreakingChange`), with no contract of its own. `Git.MessageSections`, `Git.MessageParagraphs`, `Git.MessageStartsWithHeader`, `Git.ParseHeaderInverse` and the two example lemmas state its properties. |
| `Git.MessageParagraphs` | src/git.rs:90-116 | The message is its paragraphs joined by blank lines, with the header first. There is one paragraph per present section. |
| `Git.MessageStartsWithHeader` | src/git.rs:91-115 | Every message starts with its header, and equals it iff no optional section is present. |
| `Git.ParseHeaderInverse` | src/git.rs:91-99 | Take a type without `(`, `!`, `:` and a scope without `)`. Reading the header back recovers the type, the scope, whether a breaking description is present (even `Some("")`) and the short message. |
| `Git.FixWithIssueExample` | src/git.rs:90-116 | fix, no scope, "null pointer on empty input" and issues ["#42"] give "fix: null pointer on empty input\n\nFixes #42 ". |
| `Git.ScopeAndBreakingExamples` | src/git.rs:91-107 | Scope "api" on feat gives "feat(api): ...". An empty breaking description still adds "!" and a `BREAKING CHANGE: ` block. |
| `Git.StagedFold` | src/git.rs:53-61 | The fold is true iff the start value is true or some entry has one of the five INDEX_* flags. |
| `Git.HasStagedChanges` | src/git.rs:53-61 | There are staged changes iff some status entry intersects {INDEX_NEW, INDEX_MODIFIED, INDEX_DELETED, INDEX_RENAMED, INDEX_TYPECHANGE}. |
| `Git.NothingStagedInWorktreeOnly` | src/git.rs:53-61 | An empty status list, or entries with only working-tree, ignored or conflict flags, means nothing is staged. |
| `Git.StagedCheck` | src/git.rs:51-64 | A failing status query is an error. Otherwise the answer is `HasStagedChanges` of the entries. |
| `GitRepo.FindLastCommit` | src/git.rs:119-123 | The last commit is HEAD when HEAD leads to a stored commit. It is absent on an unborn branch. |
| `GitRepo.WriteCommit` | src/git.rs:151-159 | A commit write either fails and changes nothing, or stores the new commit under `nextId`, advances `nextId`, moves HEAD to it and leaves every other part of the state alone. That the id was unused holds in a well-formed state (`GitRepo.WriteCommitPreservesWellFormed`). |
| `GitRepo.WriteCommitPreservesWellFormed` | src/git.rs:151-159 | Writing a commit whose parents are stored keeps history closed under parents, and the new id was unused. |
| `GitRepo.Repository.Commit` | src/git.rs:151-159 | The in-place write changes the repository exactly as `WriteCommit` says. |
| `Git.CommitParentRule` | src/git.rs:141-163 | A commit is created iff index, write_tree, signature, find_tree and the write all succeed. The commit is new and carries the message. Its parents are [tip] when HEAD has a commit and [] otherwise, and HEAD moves to it. |
| `Git.CommitToRepoSpec` | src/git.rs:141-163 | Definition of the commit step on a repository state, with no contract of its own. `Git.CommitParentRule`, `Git.CommitAllOrNothing` and `Git.FirstThenSecondCommit` state its properties, and `Git.Gateway.CommitToRepo` is proved to follow it. |
| `Git.CommitAllOrNothing` | src/git.rs:143-160 | Any error leaves the repository unchanged, and every outcome keeps it well formed. |
| `Git.FirstThenSecondCommit` | src/git.rs:148-160 | On an unborn branch the first commit has no parent, and the next commit has exactly the first as its parent. |
| `Git.Gateway.constructor` | src/git.rs:34 | The cell starts empty. |
| `Git.Gateway.GetRepository` | src/git.rs:33-46 | The repository is opened at most once. Once the cell is filled, every call returns the same handle and ignores the path. A failed open leaves the cell empty. |
| `Git.Gateway.CheckStagedFilesExist` | src/git.rs:48-66 | The method opens or reuses the handle, then returns `StagedCheck` of that repository. A failed open is an error. |
| `Git.Gateway.CommitToRepo` | src/git.rs:141-163 | The method opens or reuses the handle, and the repository changes exactly as `CommitToRepoSpec` says. |
| `Legacy.NewSurveyResults` | src/main.rs:38-42 | The new record has empty type and short message, and every optional field absent. |
| `Legacy.RunDialog` | src/main.rs:51-124 | Same prompts and fatal failures as `Questions.Ask`: it fails exactly when the selection, short-message or a confirmation prompt fails or the selection is out of range (`DialogFails`). Otherwise the record is `SurveyOf` the selected type and the answers: the scope kept as typed, even `Some("")`, and the issue line unsplit. The menu line shown at the selected index is the chosen type, ": " and its description. |
| `Legacy.LegacyComposerAgrees` | src/main.rs:126-148 | The older composer has the same header, body and breaking block as the newer one, then appends the raw issue line after a blank line. |
| `Legacy.GenerateCommitMsg` | src/main.rs:126-148 | Definition of the older composer, with no contract of its own. `Legacy.LegacyComposerAgrees`, `Legacy.IssueFooterDifference` and `Legacy.EmptyScopeKept` state its properties. |
| `Legacy.IssueFooterDifference` | src/main.rs:144-147 | For the same issue line `raw`, the newer message ends in key, separator, `raw` and a space, where the older one ends in `raw`. |
| `Legacy.EmptyScopeKept` | src/main.rs:127-130 | An empty scope renders as `type(): short`. |
| `Legacy.CommitNeedsParent` | src/main.rs:156-176 | When a last commit resolves, the older commit step equals the newer one. On an unborn branch it fails and writes nothing, and every failure leaves the repository unchanged. A created commit has exactly the tip as its parent. |
| `Legacy.CommitSpec` | src/main.rs:156-176 | Definition of the older commit step, with no contract of its own. `Legacy.CommitNeedsParent` states its properties, and `Legacy.CommitAt` is proved to follow it. |
| `Legacy.CommitAt` | src/main.rs:156-176 | Opening fails without a repository at the path. Otherwise the repository changes exactly as `CommitSpec` says. |
| `Legacy.RunMain` | src/main.rs:178-203 | Nothing happens exactly when there is no package. The missing-metadata outcome is reported exactly when the package has no metadata. With metadata the survey aborts exactly when `DialogFails` on the resolved table; otherwise the outcome is always a commit outcome, committed or failed. Only a successful commit changes the repository. Both commit outcomes are the older commit step on the message that the older composer renders from `SurveyOf` some type in the resolved table and the answers. A written commit has the old tip as parent and HEAD points to it. |

## Left out

- Reading Cargo.toml (`parse_manifest`, src/config.rs) is not part of this model. The parsed manifest is a parameter, and a parse failure (a panic in `main`) is not modelled.
- Command-line parsing (src/args.rs) and reading argv in src/main.rs:157 are left out. The repository path is a parameter.
- Terminal rendering, themes and key handling of the prompts are left out. Each prompt's result is a scripted answer. A text prompt without `allow_empty` re-asks on empty input in the prompt library; the model does not rely on that and accepts any string.
- Menu order is not modelled. The order in which the type map is iterated is unspecified, so the model picks an arbitrary order, and nothing is proved about display order or the default (first) item.
- The upward search of `Repository::open_ext`, and the difference from `Repository::open`, are not modelled. Opening looks up the path in a map from paths to repositories.
- Object ids are counters rather than hashes. Tree objects written by `write_tree` are not recorded, and object formats are not modelled.
- The mutex and once-cell thread safety are left out; the pipeline is single-threaded. Only the open-once behaviour of the cell is kept.
- Panics (`unwrap`, `expect`, `panic!`) and printing to stdout or stderr become error results or `Legacy.Outcome` values.
- git-cm's code has no editor-template path, comment stripping, empty-message abort or empty-registry error, so none is modelled.

