/** The repository resolver of app/service.go: the tracked-file listing, the
    status of one file, and its worktree and HEAD contents. Every operation
    opens the repository afresh; the model reads one immutable snapshot of it. */
module Service {
  import opened Wrappers
  import opened Errors
  import opened Text
  import GitStatus
  import Protocol
  import Walk
  import Seqs

  type Hash = nat

  /** A worktree file that opens: either it copies out in full or the copy fails. */
  datatype WorkFile = Readable(content: string) | CopyFails

  /** A blob object: either its reader opens or it does not. */
  datatype Blob = Blob(content: string) | ReaderFails

  /** What the worktree answers. */
  datatype Worktree = Worktree(
    root: Option<seq<Walk.Entry>>,                       // the root directory's listing; None when reading it fails
    excluded: string -> bool,                            // the ignore matcher built from the worktree's exclude patterns
    files: map<string, WorkFile>,                        // the paths the worktree filesystem can open
    status: Option<map<string, GitStatus.StatusCode>>)   // the worktree status of each path; None when computing it fails

  /** What the object store answers. */
  datatype History = History(
    head: Option<Hash>,                  // the commit HEAD points at; None when HEAD cannot be resolved
    commits: map<Hash, Hash>,            // commit object -> its root tree
    trees: map<Hash, map<string, Hash>>, // tree object -> path -> blob
    blobs: map<Hash, Blob>)              // blob objects

  /** A repository snapshot: whether the root opens as a repository, its
      worktree (None when it has none) and its history. */
  datatype Repo = Repo(opens: bool, worktree: Option<Worktree>, history: History)

  // ---------------------------------------------------------------------------
  // GetFileState

  /** The `(state, error)` pair GetFileState returns. */
  datatype StateReply = StateReply(state: Protocol.FileState, err: Option<Error>)

  const ChangedCodes: set<GitStatus.StatusCode> := {
    GitStatus.Added, GitStatus.Copied, GitStatus.Deleted,
    GitStatus.Modified, GitStatus.Renamed, GitStatus.UpdatedButUnmerged }

  /** The fixed table from a worktree status code to the editor's file state. */
  function StateOf(code: GitStatus.StatusCode): (state: Protocol.FileState)
    ensures state == Protocol.Unmodified <==> code !in ChangedCodes
    ensures state == Protocol.Added <==> code == GitStatus.Added
    ensures state == Protocol.Copied <==> code == GitStatus.Copied
    ensures state == Protocol.Deleted <==> code == GitStatus.Deleted
    ensures state == Protocol.Modified <==> code == GitStatus.Modified
    ensures state == Protocol.Renamed <==> code == GitStatus.Renamed
    ensures state == Protocol.UpdatedButUnmerged <==> code == GitStatus.UpdatedButUnmerged
  {
    if code == GitStatus.Added then Protocol.Added
    else if code == GitStatus.Copied then Protocol.Copied
    else if code == GitStatus.Deleted then Protocol.Deleted
    else if code == GitStatus.Modified then Protocol.Modified
    else if code == GitStatus.Renamed then Protocol.Renamed
    else if code == GitStatus.UpdatedButUnmerged then Protocol.UpdatedButUnmerged
    else Protocol.Unmodified
  }

  /** The status code git uses for each file state. */
  function CodeOf(state: Protocol.FileState): GitStatus.StatusCode {
    match state
    case Unmodified => GitStatus.Unmodified
    case Added => GitStatus.Added
    case Copied => GitStatus.Copied
    case Deleted => GitStatus.Deleted
    case Modified => GitStatus.Modified
    case Renamed => GitStatus.Renamed
    case UpdatedButUnmerged => GitStatus.UpdatedButUnmerged
  }

  /** Every file state is reached, from the same-named status code. */
  lemma StateOfCodeOf(state: Protocol.FileState)
    ensures StateOf(CodeOf(state)) == state
  {
  }

  /** Two codes that give the same changed state are the same code. */
  lemma StateOfInjectiveOnChanges(a: GitStatus.StatusCode, b: GitStatus.StatusCode)
    requires StateOf(a) == StateOf(b) != Protocol.Unmodified
    ensures a == b && CodeOf(StateOf(a)) == a
  {
  }

  /** GetFileState: open the repository, its worktree and its status, then map the
      path's worktree code; any failure answers Unmodified together with an error. */
  function GetFileState(repo: Repo, path: string): (r: StateReply)
    ensures r.err.None? <==> repo.opens && repo.worktree.Some? && repo.worktree.value.status.Some?
    ensures r.err.Some? ==> r.state == Protocol.Unmodified
    ensures !repo.opens ==> r.err == Some(OpenRepository)
    ensures r.err.None? ==>
      var status := repo.worktree.value.status.value;
      && (path !in status ==> r.state == Protocol.Unmodified)
      && (path in status ==> r.state == StateOf(status[path]))
  {
    if !repo.opens then StateReply(Protocol.Unmodified, Some(OpenRepository))
    else if repo.worktree.None? then StateReply(Protocol.Unmodified, Some(OpenWorktree))
    else if repo.worktree.value.status.None? then StateReply(Protocol.Unmodified, Some(WorktreeStatus))
    else StateReply(StateOf(GitStatus.FileCode(repo.worktree.value.status.value, path)), None)
  }

  // ---------------------------------------------------------------------------
  // GetGitTrackedFiles

  /** Paths inside the repository's own metadata directory. */
  const GitDirPrefix: string := ".git/"

  /** The filter's test: outside the metadata directory and not ignored. */
  predicate KeepTracked(excluded: string -> bool, path: string) {
    !HasPrefix(path, GitDirPrefix) && !excluded(path)
  }

  /** The filter over the walked paths, in order. */
  function FilterTracked(files: seq<string>, excluded: string -> bool): (kept: seq<string>)
    ensures forall p :: p in kept ==> !HasPrefix(p, GitDirPrefix) && !excluded(p)
    ensures forall p :: multiset(kept)[p] == if KeepTracked(excluded, p) then multiset(files)[p] else 0
    ensures Seqs.IsSubsequence(kept, files)
    decreases |files|
  {
    if |files| == 0 then []
    else
      var rest := FilterTracked(files[1..], excluded);
      assert files == [files[0]] + files[1..];
      if KeepTracked(excluded, files[0]) then
        assert ([files[0]] + rest)[1..] == rest;
        [files[0]] + rest
      else rest
  }

  /** GetGitTrackedFiles: walk the worktree from its root and keep the paths that
      are neither under the metadata directory nor ignored. */
  function GetGitTrackedFiles(repo: Repo): (r: Result<seq<string>>)
    ensures r.Ok? <==>
      && repo.opens && repo.worktree.Some?
      && (repo.worktree.value.root.Some? ==> !Walk.BlockedList(repo.worktree.value.root.value))
    ensures !repo.opens ==> r == Err(OpenRepository)
    ensures repo.opens && repo.worktree.None? ==> r == Err(OpenWorktree)
    ensures repo.opens && repo.worktree.Some? && r.Err? ==> r.error.ReadDirPanic?
    ensures r.Ok? && repo.worktree.value.root.None? ==> r.value == []
    ensures r.Ok? && repo.worktree.value.root.Some? ==>
      forall p :: p in r.value <==>
        Walk.FileInList(Walk.Root, repo.worktree.value.root.value, p) && KeepTracked(repo.worktree.value.excluded, p)
  {
    if !repo.opens then Err(OpenRepository)
    else if repo.worktree.None? then Err(OpenWorktree)
    else
      var wt := repo.worktree.value;
      match Walk.AllFiles(wt.root)
      case Err(e) => Err(e)
      case Ok(files) => Ok(FilterTracked(files, wt.excluded))
  }

  // ---------------------------------------------------------------------------
  // GetFileContent and GetFileContentsHEAD

  /** GetFileContent: the worktree bytes of a path. */
  function GetFileContent(repo: Repo, path: string): (r: Result<string>)
    ensures r.Ok? <==>
      repo.opens && repo.worktree.Some? && path in repo.worktree.value.files && repo.worktree.value.files[path].Readable?
    ensures r.Ok? ==> r.value == repo.worktree.value.files[path].content
    ensures !repo.opens ==> r == Err(OpenRepository)
    ensures repo.opens && repo.worktree.None? ==> r == Err(OpenWorktree)
    ensures repo.opens && repo.worktree.Some? && path !in repo.worktree.value.files ==> r == Err(OpenFile(path))
    ensures (&& repo.opens && repo.worktree.Some? && path in repo.worktree.value.files
             && repo.worktree.value.files[path].CopyFails?) ==> r == Err(ReadFile(path))
  {
    if !repo.opens then Err(OpenRepository)
    else if repo.worktree.None? then Err(OpenWorktree)
    else if path !in repo.worktree.value.files then Err(OpenFile(path))
    else match repo.worktree.value.files[path]
      case CopyFails => Err(ReadFile(path))
      case Readable(content) => Ok(content)
  }

  /** `content` is what HEAD's commit holds at `path`: HEAD names a commit, the
      commit a tree, the tree an entry for the path, the entry a readable blob. */
  ghost predicate CommittedAt(h: History, path: string, content: string) {
    exists c, t, b ::
      && h.head == Some(c)
      && c in h.commits && h.commits[c] == t
      && t in h.trees && path in h.trees[t] && h.trees[t][path] == b
      && b in h.blobs && h.blobs[b] == Blob(content)
  }

  /** The commit tree HEAD leads to, when the first three steps succeed. */
  function HeadTree(h: History): Option<map<string, Hash>> {
    if h.head.Some? && h.head.value in h.commits && h.commits[h.head.value] in h.trees
    then Some(h.trees[h.commits[h.head.value]])
    else None
  }

  /** GetFileContentsHEAD: follow HEAD to the committed bytes of a path; each of
      the six steps can fail. */
  function GetFileContentsHEAD(repo: Repo, path: string): (r: Result<string>)
    ensures r.Ok? <==> repo.opens && exists content :: CommittedAt(repo.history, path, content)
    ensures r.Ok? ==> CommittedAt(repo.history, path, r.value)
    ensures !repo.opens ==> r == Err(OpenRepository)
    ensures repo.opens && HeadTree(repo.history).Some? && path !in HeadTree(repo.history).value ==>
      r == Err(FindEntry(path))
  {
    var h := repo.history;
    if !repo.opens then Err(OpenRepository)
    else if h.head.None? then Err(HeadReference)
    else if h.head.value !in h.commits then Err(CommitObject)
    else if h.commits[h.head.value] !in h.trees then Err(CommitTree)
    else
      var tree := h.trees[h.commits[h.head.value]];
      if path !in tree then Err(FindEntry(path))
      else if tree[path] !in h.blobs then Err(BlobObject)
      else match h.blobs[tree[path]]
        case ReaderFails => Err(BlobReader)
        case Blob(content) =>
          assert CommittedAt(h, path, content);
          Ok(content)
  }

  /** When the directory reads are well formed (valid names, distinct within each
      directory), the tracked-file listing names no path twice. */
  lemma TrackedFilesDistinct(repo: Repo)
    requires GetGitTrackedFiles(repo).Ok?
    requires repo.worktree.value.root.Some? ==> Walk.WellFormedList(repo.worktree.value.root.value)
    ensures Seqs.NoDuplicates(GetGitTrackedFiles(repo).value)
  {
    var wt := repo.worktree.value;
    if wt.root.Some? {
      var walked := Walk.AllFiles(wt.root).value;
      Walk.WalkDirDistinct(Walk.Root, wt.root.value);
      Seqs.SubsequenceNoDuplicates(FilterTracked(walked, wt.excluded), walked);
    }
  }
}
