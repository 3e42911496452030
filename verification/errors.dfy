/** The errors the repository resolver and the request logic can report. */
module Errors {

  datatype Error =
    | OpenRepository                  // git.PlainOpen fails on the root directory
    | OpenWorktree                    // repo.Worktree fails
    | WorktreeStatus                  // worktree.Status fails
    | OpenFile(path: string)          // the worktree file cannot be opened
    | ReadFile(path: string)          // copying the opened worktree file fails
    | HeadReference                   // repo.Head fails
    | CommitObject                    // the HEAD commit object is missing
    | CommitTree                      // the commit's tree object is missing
    | FindEntry(path: string)         // the HEAD tree has no entry for the path
    | BlobObject                      // the entry's blob object is missing
    | BlobReader                      // the blob cannot be opened for reading
    | ReadDirPanic(path: string)      // a sub-directory read fails: the walk panics
    | SlicePanic(low: int, high: int, length: int) // a line range outside the split content: the slice panics
    | NoCompletion                    // the text-generation service answered with zero choices
    | Collaborator(message: string)   // any other failure reported by the text-generation service
    | Wrapped(context: string, cause: Error) // errors.Wrap(cause, context)

  /** Either a value or an error, the model's form of Go's `(value, error)` pair. */
  datatype Result<+T> = Ok(value: T) | Err(error: Error)
}
