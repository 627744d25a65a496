/**
 * The repository collaborator (the git2 library) reduced to what the commit
 * pipeline observes: the status of each path, the index written as a tree,
 * the configured identity, the commits reachable by id and the HEAD reference.
 * Object ids, hashing and on-disk formats are abstracted to numbers.
 */
module GitRepo {
  import opened Wrappers

  /** Stands for the `Oid` of a commit object. */
  type CommitId = nat
  /** Stands for the `Oid` of a tree object. */
  type TreeId = nat
  /** Stands for a `git2::Signature` (name and e-mail). */
  type Signature = string

  /** The bits of `git2::Status`; an entry's status is a set of them (the empty set is CURRENT). */
  datatype StatusFlag =
    | IndexNew | IndexModified | IndexDeleted | IndexRenamed | IndexTypechange
    | WtNew | WtModified | WtDeleted | WtTypechange | WtRenamed | WtUnreadable
    | Ignored | Conflicted

  /** The five flags that mean "staged in the index". */
  const IndexFlags: set<StatusFlag> :=
    {IndexNew, IndexModified, IndexDeleted, IndexRenamed, IndexTypechange}

  datatype GitError =
    | OpenFailed       // no repository found from the given path
    | StatusFailed     // repo.statuses() failed
    | IndexFailed      // repo.index() failed
    | WriteTreeFailed  // index.write_tree() failed
    | SignatureFailed  // repo.signature() found no identity
    | TreeNotFound     // repo.find_tree(oid) failed
    | NoLastCommit     // find_last_commit() failed
    | WriteFailed      // repo.commit(..) could not write the object or move HEAD

  datatype CommitObject = CommitObject(
    tree: TreeId,
    parents: seq<CommitId>,
    author: Signature,
    committer: Signature,
    message: string)

  /** The index, with the outcome of writing it as a tree (`None`: write_tree fails). */
  datatype Index = Index(writtenTree: Option<TreeId>)

  /**
   * The state of one repository. `head` is the commit HEAD resolves to (`None`
   * for an unborn branch); `nextId` is the id the next written commit gets.
   * `statuses`, `index`, `signature`, `trees` and `writable` are what the
   * collaborator answers to the corresponding calls (`None`: the call fails).
   */
  datatype RepoState = RepoState(
    head: Option<CommitId>,
    commits: map<CommitId, CommitObject>,
    nextId: CommitId,
    statuses: Option<seq<set<StatusFlag>>>,
    index: Option<Index>,
    signature: Option<Signature>,
    trees: set<TreeId>,
    writable: bool)

  /** History is closed under parents, ids are below `nextId`, and HEAD names a stored commit. */
  ghost predicate WellFormed(s: RepoState)
  {
    && (forall id | id in s.commits :: id < s.nextId)
    && (forall id, p | id in s.commits && p in s.commits[id].parents :: p in s.commits)
    && (s.head.Some? ==> s.head.value in s.commits)
  }

  /** The outcome of a repository operation and the state after it. */
  datatype Step = Step(result: Result<CommitId, GitError>, state: RepoState)

  /**
   * find_last_commit: HEAD, resolved and peeled to a commit. It fails when the
   * branch is unborn or HEAD does not lead to a stored commit.
   */
  function FindLastCommit(s: RepoState): (r: Option<CommitId>)
    ensures r.Some? ==> s.head == r && r.value in s.commits
    ensures r.None? ==> s.head.None? || s.head.value !in s.commits
  {
    if s.head.Some? && s.head.value in s.commits then s.head else None
  }

  /**
   * `repo.commit(Some("HEAD"), sig, sig, msg, tree, parents)`: write a commit
   * object and move HEAD to it, or fail and change nothing.
   */
  function WriteCommit(s: RepoState, tree: TreeId, sig: Signature, msg: string, parents: seq<CommitId>): (st: Step)
    ensures st.result.Err? ==> st.state == s
    ensures st.result.Ok? ==>
      && st.result.value == s.nextId
      && st.state.head == Some(s.nextId)
      && st.state.commits == s.commits[s.nextId := CommitObject(tree, parents, sig, sig, msg)]
      && st.state.nextId == s.nextId + 1
      && st.state.(head := s.head, commits := s.commits, nextId := s.nextId) == s
  {
    if !s.writable then Step(Err(WriteFailed), s)
    else
      var id := s.nextId;
      Step(Ok(id), s.(head := Some(id),
                      commits := s.commits[id := CommitObject(tree, parents, sig, sig, msg)],
                      nextId := id + 1))
  }

  /** Writing a commit whose parents are stored keeps the repository well formed, and its id is new. */
  lemma WriteCommitPreservesWellFormed(s: RepoState, tree: TreeId, sig: Signature, msg: string, parents: seq<CommitId>)
    requires WellFormed(s)
    requires forall p | p in parents :: p in s.commits
    ensures WellFormed(WriteCommit(s, tree, sig, msg, parents).state)
    ensures WriteCommit(s, tree, sig, msg, parents).result.Ok? ==>
      WriteCommit(s, tree, sig, msg, parents).result.value !in s.commits
  {
  }

  /** A repository handle; HEAD and the stored commits change in place when a commit is written. */
  class Repository {
    var head: Option<CommitId>
    var commits: map<CommitId, CommitObject>
    var nextId: CommitId
    var statuses: Option<seq<set<StatusFlag>>>
    var index: Option<Index>
    var signature: Option<Signature>
    var trees: set<TreeId>
    var writable: bool

    function State(): RepoState
      reads this
    {
      RepoState(head, commits, nextId, statuses, index, signature, trees, writable)
    }

    constructor (s: RepoState)
      ensures State() == s
    {
      head, commits, nextId := s.head, s.commits, s.nextId;
      statuses, index, signature := s.statuses, s.index, s.signature;
      trees, writable := s.trees, s.writable;
    }

    method Commit(tree: TreeId, sig: Signature, msg: string, parents: seq<CommitId>)
      returns (r: Result<CommitId, GitError>)
      modifies this
      ensures Step(r, State()) == WriteCommit(old(State()), tree, sig, msg, parents)
    {
      if !writable {
        r := Err(WriteFailed);
      } else {
        r := Ok(nextId);
        commits := commits[nextId := CommitObject(tree, parents, sig, sig, msg)];
        head := Some(nextId);
        nextId := nextId + 1;
      }
    }
  }
}
