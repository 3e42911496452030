/** go-git's worktree status codes: one byte per file, written as the
    character git itself prints. */
module GitStatus {

  type StatusCode = c: char | c as int < 256 witness ' '

  const Unmodified: StatusCode := ' '
  const Untracked: StatusCode := '?'
  const Modified: StatusCode := 'M'
  const Added: StatusCode := 'A'
  const Deleted: StatusCode := 'D'
  const Renamed: StatusCode := 'R'
  const Copied: StatusCode := 'C'
  const UpdatedButUnmerged: StatusCode := 'U'

  /** The status code of one path: its own entry when git reports on it;
      go-git's `Status.File` answers Untracked for a path it has no entry for. */
  function FileCode(status: map<string, StatusCode>, path: string): (code: StatusCode)
    ensures path in status ==> code == status[path]
    ensures path !in status ==> code == Untracked
  {
    if path in status then status[path] else Untracked
  }
}
