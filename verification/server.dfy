/** The request logic of server/grpc.go: the tracked-file listing, the details
    of one file, and the modification of a line range through the
    text-generation collaborators. */
module Server {
  import opened Wrappers
  import opened Errors
  import opened Text
  import opened Protocol
  import FilePath
  import OpenAI
  import Service
  import Walk

  /** The messages the handlers wrap the resolver's errors in. */
  const TrackedFilesContext: string := "failed to get tracked files"
  const ContentContext: string := "failed to get file content"
  const StateContext: string := "failed to get file state"
  const HistoryContext: string := "failed to get git changes"

  /** The two calls on the text-generation service, given as parameters:
      `rewrite(code, prompt, language)` returns the service's choices for the
      rewritten code, and `explain(prompt, rewritten)` the rationale for it. */
  datatype Collaborator = Collaborator(
    rewrite: (string, string, string) -> Result<seq<string>>,
    explain: (string, string) -> Result<string>)

  // ---------------------------------------------------------------------------
  // GetTrackedFiles

  /** GetTrackedFiles: the tracked-file listing, its error wrapped; a panic in
      the walk is not an error return and passes the wrapping by. Every listed
      path is a file of the worktree, outside the metadata directory and not ignored. */
  function GetTrackedFiles(repo: Service.Repo): (r: Result<FileList>)
    ensures r.Ok? <==> Service.GetGitTrackedFiles(repo).Ok?
    ensures r.Err? && Service.GetGitTrackedFiles(repo).error.ReadDirPanic? ==>
      r.error == Service.GetGitTrackedFiles(repo).error
    ensures r.Err? && !Service.GetGitTrackedFiles(repo).error.ReadDirPanic? ==>
      r.error == Wrapped(TrackedFilesContext, Service.GetGitTrackedFiles(repo).error)
    ensures r.Ok? ==> r.value.files == Service.GetGitTrackedFiles(repo).value
    ensures r.Ok? ==> forall p :: p in r.value.files ==>
      && repo.worktree.Some?
      && repo.worktree.value.root.Some?
      && Walk.FileInList(Walk.Root, repo.worktree.value.root.value, p)
      && !HasPrefix(p, Service.GitDirPrefix)
      && !repo.worktree.value.excluded(p)
  {
    match Service.GetGitTrackedFiles(repo)
    case Err(e) => if e.ReadDirPanic? then Err(e) else Err(Wrapped(TrackedFilesContext, e))
    case Ok(files) => Ok(FileList(files))
  }

  // ---------------------------------------------------------------------------
  // GetFileDetails

  /** GetFileDetails: the worktree content, then the state; the original content
      is the worktree content itself for an unmodified file and the HEAD content
      otherwise. Any failing step fails the whole request. */
  function GetFileDetails(repo: Service.Repo, path: string): (r: Result<FileDetails>)
    ensures r.Ok? <==>
      && Service.GetFileContent(repo, path).Ok?
      && Service.GetFileState(repo, path).err.None?
      && (Service.GetFileState(repo, path).state != Unmodified ==> Service.GetFileContentsHEAD(repo, path).Ok?)
    ensures r.Ok? ==>
      && r.value.content == Service.GetFileContent(repo, path).value
      && r.value.state == Service.GetFileState(repo, path).state
    ensures r.Ok? && r.value.state == Unmodified ==> r.value.original == r.value.content
    ensures r.Ok? && r.value.state != Unmodified ==>
      r.value.original == Service.GetFileContentsHEAD(repo, path).value
      && Service.CommittedAt(repo.history, path, r.value.original)
    ensures Service.GetFileContent(repo, path).Err? ==>
      r == Err(Wrapped(ContentContext, Service.GetFileContent(repo, path).error))
    ensures Service.GetFileContent(repo, path).Ok? && Service.GetFileState(repo, path).err.Some? ==>
      r == Err(Wrapped(StateContext, Service.GetFileState(repo, path).err.value))
    ensures
      (&& Service.GetFileContent(repo, path).Ok?
       && Service.GetFileState(repo, path).err.None?
       && Service.GetFileState(repo, path).state != Unmodified
       && Service.GetFileContentsHEAD(repo, path).Err?) ==>
      r == Err(Wrapped(HistoryContext, Service.GetFileContentsHEAD(repo, path).error))
  {
    match Service.GetFileContent(repo, path)
    case Err(e) => Err(Wrapped(ContentContext, e))
    case Ok(content) =>
      var reply := Service.GetFileState(repo, path);
      if reply.err.Some? then Err(Wrapped(StateContext, reply.err.value))
      else if reply.state != Unmodified then
        match Service.GetFileContentsHEAD(repo, path)
        case Err(e) => Err(Wrapped(HistoryContext, e))
        case Ok(original) => Ok(FileDetails(content, original, reply.state))
      else Ok(FileDetails(content, content, reply.state))
  }

  /** Two snapshots that agree on everything but their history. */
  ghost predicate SameWorkingState(a: Service.Repo, b: Service.Repo) {
    && a.opens == b.opens
    && a.worktree.Some? == b.worktree.Some?
    && (a.worktree.Some? ==>
          && a.worktree.value.files == b.worktree.value.files
          && a.worktree.value.status == b.worktree.value.status)
  }

  /** For an unmodified file the history is never consulted: snapshots that
      differ only in their history give the same details. */
  lemma DetailsIgnoreHistoryWhenUnmodified(a: Service.Repo, b: Service.Repo, path: string)
    requires SameWorkingState(a, b)
    requires Service.GetFileState(a, path).state == Unmodified
    ensures GetFileDetails(a, path) == GetFileDetails(b, path)
  {
  }

  // ---------------------------------------------------------------------------
  // ModifyCode

  /** The start line after clamping: the least non-negative line at or after the requested one. */
  function ClampStart(lineStart: int): (start: int)
    ensures start >= 0 && start >= lineStart
    ensures start == 0 || start == lineStart
  {
    if lineStart < 0 then 0 else lineStart
  }

  /** The end line as the handler passes it on: any negative value becomes -1. */
  function NormalizeEnd(lineEnd: int): (end: int)
    ensures end == -1 || end == lineEnd
    ensures end >= 0 <==> lineEnd >= 0
    ensures lineEnd < 0 ==> end == -1
  {
    if lineEnd < 0 then -1 else lineEnd
  }

  /** The code lines `[start, end)` of `content` split on line breaks, joined back
      with line breaks. A range outside the split content makes the slice panic. */
  function SelectLines(content: string, start: int, end: int): (r: Result<string>)
    ensures r.Ok? <==> 0 <= start <= end <= |Split(content)|
    ensures r.Err? ==> r.error == SlicePanic(start, end, |Split(content)|)
    ensures r.Ok? && start == end ==> r.value == ""
    ensures r.Ok? && start < end ==> Split(r.value) == Split(content)[start..end]
    ensures r.Ok? && start == 0 && end == |Split(content)| ==> r.value == content
  {
    var lines := Split(content);
    if 0 <= start <= end <= |lines| then
      var selected := lines[start..end];
      if start < end then
        SplitJoin(selected);
        JoinSplit(content);
        assert start == 0 && end == |lines| ==> selected == lines;
        Ok(Join(selected))
      else Ok(Join(selected))
    else Err(SlicePanic(start, end, |lines|))
  }

  /** The two collaborator calls and the response: rewrite the code, take the
      first choice, explain the rewrite, answer with the explanation and the one
      modified path. A failing call is returned as it is. */
  function Orchestrate(collab: Collaborator, path: string, prompt: string, language: string, code: string)
    : (r: Result<CodeModificationResponse>)
    ensures r.Ok? <==>
      && OpenAI.EditText(collab.rewrite(code, prompt, language)).Ok?
      && collab.explain(prompt, OpenAI.EditText(collab.rewrite(code, prompt, language)).value).Ok?
    ensures r.Ok? ==>
      && r.value.modifiedFiles == [path]
      && r.value.explenation == collab.explain(prompt, collab.rewrite(code, prompt, language).value[0]).value
    ensures collab.rewrite(code, prompt, language).Err? ==> r == Err(collab.rewrite(code, prompt, language).error)
    ensures collab.rewrite(code, prompt, language) == Ok([]) ==> r == Err(NoCompletion)
    ensures
      (&& OpenAI.EditText(collab.rewrite(code, prompt, language)).Ok?
       && collab.explain(prompt, OpenAI.EditText(collab.rewrite(code, prompt, language)).value).Err?) ==>
      r == Err(collab.explain(prompt, OpenAI.EditText(collab.rewrite(code, prompt, language)).value).error)
  {
    match OpenAI.EditText(collab.rewrite(code, prompt, language))
    case Err(e) => Err(e)
    case Ok(modified) =>
      match collab.explain(prompt, modified)
      case Err(e) => Err(e)
      case Ok(explanation) => Ok(CodeModificationResponse(explanation, [path]))
  }

  /** The explain call is made only on a rewrite: when the rewrite fails, two
      collaborators that answer the rewrite alike give the same result, whatever
      their explain calls would say. */
  lemma ExplainOnlyAfterRewrite(a: Collaborator, b: Collaborator, path: string, prompt: string, language: string, code: string)
    requires a.rewrite(code, prompt, language) == b.rewrite(code, prompt, language)
    requires OpenAI.EditText(a.rewrite(code, prompt, language)).Err?
    ensures Orchestrate(a, path, prompt, language, code) == Orchestrate(b, path, prompt, language, code)
    ensures Orchestrate(a, path, prompt, language, code).Err?
  {
  }

  /** ModifyCode: read the file, select the requested lines, send them with the
      path's extension as language hint to the collaborators. A range outside
      the file is not clamped to it: the slice panics. */
  function ModifyCode(repo: Service.Repo, collab: Collaborator, req: CodeModificationRequest)
    : (r: Result<CodeModificationResponse>)
    ensures r.Ok? ==> r.value.modifiedFiles == [req.path]
    ensures Service.GetFileContent(repo, req.path).Err? ==>
      r == Err(Wrapped(ContentContext, Service.GetFileContent(repo, req.path).error))
    ensures r.Ok? ==>
      Service.GetFileContent(repo, req.path).Ok?
      && ClampStart(req.lineStart) <= req.lineEnd <= |Split(Service.GetFileContent(repo, req.path).value)|
    ensures
      (&& Service.GetFileContent(repo, req.path).Ok?
       && !(ClampStart(req.lineStart) <= NormalizeEnd(req.lineEnd) <= |Split(Service.GetFileContent(repo, req.path).value)|)) ==>
      r == Err(SlicePanic(ClampStart(req.lineStart), NormalizeEnd(req.lineEnd),
                          |Split(Service.GetFileContent(repo, req.path).value)|))
  {
    var language := FilePath.Ext(req.path);
    match Service.GetFileContent(repo, req.path)
    case Err(e) => Err(Wrapped(ContentContext, e))
    case Ok(content) =>
      match SelectLines(content, ClampStart(req.lineStart), NormalizeEnd(req.lineEnd))
      case Err(e) => Err(e)
      case Ok(code) => Orchestrate(collab, req.path, req.prompt, language, code)
  }

  /** A negative end line is not an end-of-file marker: once the content is read,
      the slice with end -1 panics. */
  lemma NegativeEndPanics(repo: Service.Repo, collab: Collaborator, req: CodeModificationRequest)
    requires Service.GetFileContent(repo, req.path).Ok?
    requires req.lineEnd < 0
    ensures ModifyCode(repo, collab, req) ==
      Err(SlicePanic(ClampStart(req.lineStart), -1, |Split(Service.GetFileContent(repo, req.path).value)|))
  {
  }

  /** A start line past the end of the file is not clamped to an empty selection:
      the slice panics. */
  lemma StartPastEndPanics(repo: Service.Repo, collab: Collaborator, req: CodeModificationRequest)
    requires Service.GetFileContent(repo, req.path).Ok?
    requires req.lineStart > |Split(Service.GetFileContent(repo, req.path).value)|
    ensures ModifyCode(repo, collab, req).Err?
    ensures ModifyCode(repo, collab, req).error.SlicePanic?
  {
  }

  /** A request for lines 0 to the line count hands the whole file to the
      collaborators, with the path's extension as language hint. */
  lemma WholeFileRequest(repo: Service.Repo, collab: Collaborator, req: CodeModificationRequest)
    requires Service.GetFileContent(repo, req.path).Ok?
    requires req.lineStart <= 0
    requires req.lineEnd == |Split(Service.GetFileContent(repo, req.path).value)|
    ensures ModifyCode(repo, collab, req) ==
      Orchestrate(collab, req.path, req.prompt, FilePath.Ext(req.path), Service.GetFileContent(repo, req.path).value)
  {
  }

  /** In range, the collaborators receive a code block whose lines are exactly the
      requested lines of the file (the empty block for an empty range), and the
      language hint is the path's extension. A negative start counts from line 0. */
  lemma RangeRequest(repo: Service.Repo, collab: Collaborator, req: CodeModificationRequest)
    requires Service.GetFileContent(repo, req.path).Ok?
    requires ClampStart(req.lineStart) <= req.lineEnd <= |Split(Service.GetFileContent(repo, req.path).value)|
    ensures exists code ::
      && (ClampStart(req.lineStart) == req.lineEnd ==> code == "")
      && (ClampStart(req.lineStart) < req.lineEnd ==>
            Split(code) == Split(Service.GetFileContent(repo, req.path).value)[ClampStart(req.lineStart)..req.lineEnd])
      && ModifyCode(repo, collab, req) == Orchestrate(collab, req.path, req.prompt, FilePath.Ext(req.path), code)
  {
    var content := Service.GetFileContent(repo, req.path).value;
    assert NormalizeEnd(req.lineEnd) == req.lineEnd;
    var code := SelectLines(content, ClampStart(req.lineStart), req.lineEnd).value;
    assert ModifyCode(repo, collab, req) == Orchestrate(collab, req.path, req.prompt, FilePath.Ext(req.path), code);
    assert ClampStart(req.lineStart) < req.lineEnd ==>
      Split(code) == Split(content)[ClampStart(req.lineStart)..req.lineEnd];
  }
}
