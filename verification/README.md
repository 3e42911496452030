# Editor server core: repository state and modification requests

A Dafny model of the logic behind a code-editing server that works on a git
repository. It has two parts.

- The **repository resolver** (`app/service.go`):
  - it lists the worktree's files, minus the `.git/` metadata directory and ignored paths;
  - it maps a file's worktree status code to the editor's `FileState`;
  - it reads a file's worktree content and its content at HEAD.
- The **request logic** (`server/grpc.go`):
  - `GetFileDetails` pairs a file's content with its original content. The original is fetched from HEAD only when the file is not unmodified.
  - `ModifyCode` cuts a line range out of a file and sends it, with the file's extension as a language hint, to a rewrite call and then an explain call. It answers with the explanation and the modified path.

The repository is an immutable snapshot (`Service.Repo`):
- the worktree is a directory tree of `Walk.Entry` values, a map of file contents, a map of status codes and an opaque ignore predicate;
- the history is the chain HEAD → commit → tree → blob, written as maps.

The text-generation service is a `Server.Collaborator`: two function
parameters. The rewrite call answers with the service's list of choices or an
error, and `OpenAI.EditText` takes its first choice. The explain call answers
with a text or an error. Go's panics become explicit error
values (`ReadDirPanic`, `SlicePanic`). Go's `(value, error)` pairs become
`Errors.Result`.

Modules, one per concern:
- `Wrappers`: `Option`.
- `Errors`: the error kinds and `Result`.
- `Seqs`: no-duplicates and subsequence predicates.
- `Text`: `strings.Split` and `strings.Join` on `"\n"`, and `strings.HasPrefix`.
- `FilePath`: `filepath.Ext`.
- `GitStatus`: go-git's status codes.
- `Protocol`: the editor messages.
- `Walk`: `getAllFiles`.
- `Service`: `app/service.go`.
- `OpenAI`: choice selection.
- `Server`: `server/grpc.go`.

The model follows the code in these places, each of which a caller might not expect:
- A negative `lineEnd` is not an end-of-file marker. It becomes -1 and the slice panics (`Server.NegativeEndPanics`).
- A `lineStart` past the line count is not clamped to an empty selection. The slice panics (`Server.StartPastEndPanics`).
- A `lineEnd` past the line count is not clamped to it, and a non-negative `lineEnd` below the clamped start is not raised to it. The slice panics (`Server.ModifyCode`).
- A failure to read the root directory is not an error. The listing is empty.
- A failure to read a sub-directory is a panic, not an ordinary error return.
- The listing keeps the directory-read order.

## Model

| member | source | states |
|---|---|---|
| Text.Split | server/grpc.go:90 | `strings.Split` on `"\n"` gives one more piece than there are line breaks, and no piece holds a line break |
| Text.JoinSplit | server/grpc.go:90-91 | joining the split pieces with `"\n"` gives back the original text, for every text |
| Text.Join | server/grpc.go:91 | joining no pieces gives `""`; joining line-break-free pieces puts exactly one line break between each two consecutive pieces; `Text.JoinSplit` and `Text.SplitJoin` state that it inverts `strings.Split` |
| Text.HasPrefix | app/service.go:78 | a path has a prefix exactly when it is at least as long and agrees with the prefix at every position of the prefix; the path is then the prefix followed by the rest |
| Text.SplitJoin | server/grpc.go:90-91 | splitting the join of one or more line-break-free pieces gives back exactly those pieces |
| FilePath.Ext | server/grpc.go:74 | the language hint is `""` exactly when the path's final element has no dot; otherwise it is the tail of the path that starts with a dot and holds no other dot and no `/` |
| Walk.WalkItem | app/service.go:101-121 | a file yields exactly its own path; an unreadable directory yields the read panic with the directory's path; the only failure is a directory-read panic |
| Walk.WalkDir | app/service.go:94-118 | an empty listing yields no paths; the only failure of a directory's walk is a directory-read panic |
| Walk.AllFiles | app/service.go:91-99 | an unreadable root gives an empty listing and no error; otherwise the walk succeeds exactly when no directory below is unreadable, lists one path per file leaf, and lists exactly the file-leaf paths |
| Walk.WalkDirOk | app/service.go:108-112 | the walk of a directory fails exactly when some directory below it cannot be read |
| Walk.WalkDirExact | app/service.go:101-121 | a path is listed exactly when it is a file leaf's path: a root entry's path is its bare name, a deeper entry's path is its parent's path, `/`, and its name |
| Walk.WalkDirCount | app/service.go:114-121 | a successful walk lists exactly as many paths as there are file leaves |
| Walk.WalkDirDistinct | app/service.go:101-106 | when names are valid and distinct within each directory, no path is listed twice |
| Walk.FileNotDirList | app/service.go:108-121 | when names are valid and distinct within each directory, no listed path is a directory's path |
| GitStatus.FileCode | app/service.go:43 | a path the status has an entry for reads as that entry's code; a path it has no entry for reads as Untracked |
| Service.StateOf | app/service.go:43-57 | each of Added, Copied, Deleted, Modified, Renamed and UpdatedButUnmerged maps to the same-named state, in both directions; every other code maps to Unmodified |
| Service.StateOfCodeOf | app/service.go:43-57 | every file state is reached, from the same-named status code |
| Service.StateOfInjectiveOnChanges | app/service.go:43-55 | two codes that map to the same changed state are the same code |
| Service.GetFileState | app/service.go:27-59 | an error comes exactly when opening the repository, its worktree or its status fails, and then the state is Unmodified; otherwise the state is the table's image of the path's code, and an unlisted (untracked) path is Unmodified |
| Service.FilterTracked | app/service.go:75-82 | no kept path starts with `.git/` or is ignored; each path is kept as often as it was walked if it passes both tests and never otherwise; the kept paths are in walk order |
| Service.GetGitTrackedFiles | app/service.go:61-85 | the listing fails when the repository or worktree cannot be opened or a sub-directory cannot be read; on success a path is listed exactly when it is a worktree file leaf that passes both filters; an unreadable root lists nothing |
| Service.TrackedFilesDistinct | app/service.go:73-82 | when directory names are valid and distinct within each directory, the tracked-file listing names no path twice |
| Service.GetFileContent | app/service.go:126-150 | the content is returned exactly when the repository and worktree open and the file opens and reads; it is the file's worktree content; a repository that does not open gives the open-repository error, a worktree that does not open the worktree error, a path the worktree cannot open the file-open error, and a failing copy the read error for that path |
| Service.GetFileContentsHEAD | app/service.go:152-195 | content is returned exactly when all six steps succeed (HEAD, commit, tree, entry, blob, reader), and it is what HEAD's commit holds at the path; a repository that does not open gives the open-repository error; a path with no tree entry gives an entry error |
| Server.GetTrackedFiles | server/grpc.go:33-40 | the listing succeeds exactly when the resolver's does; an ordinary listing error is wrapped, while a directory-read panic passes through unwrapped; on success the listing is exactly the resolver's list, in its order; every listed path is a worktree file leaf, outside `.git/` and not ignored |
| Server.GetFileDetails | server/grpc.go:43-69 | content is read before state: a content failure gives the wrapped content error, and a state failure after it gives the wrapped state error; on success content and state are returned as obtained; the original equals the content when the state is Unmodified, and is otherwise the committed HEAD content; a failed HEAD lookup fails the request |
| Server.DetailsIgnoreHistoryWhenUnmodified | server/grpc.go:54-62 | for an unmodified file, two snapshots that differ only in their history give the same details: the HEAD lookup plays no part |
| Server.ClampStart | server/grpc.go:81-84 | the start line is the least non-negative line at or after the requested one |
| Server.NormalizeEnd | server/grpc.go:85-88 | the end line is kept when it is non-negative and becomes -1 otherwise |
| Server.SelectLines | server/grpc.go:90-91 | the selection succeeds exactly when `0 <= start <= end <= line count`, and otherwise panics; an empty range gives `""`; a non-empty range gives a block whose lines are exactly lines `[start, end)`; the range `[0, line count)` gives the whole content |
| Server.Orchestrate | server/grpc.go:94-112 | the response exists exactly when the rewrite yields a first choice and the explain call on it succeeds; it carries the explain call's output on the first choice and exactly `[path]`; a failing call's error is returned unchanged; a rewrite with no choices fails with the no-completion error |
| Server.ExplainOnlyAfterRewrite | server/grpc.go:94-102 | when the rewrite fails, the request fails and the explain call plays no part in the result |
| Server.ModifyCode | server/grpc.go:71-113 | a successful response lists exactly `[path]`; a content failure gives the wrapped content error; success needs the readable content and `clamped start <= end <= line count`; with readable content, any other range (an end past the line count, an end below the clamped start, a negative end, a start past the line count) ends in the slice panic with the clamped start, the normalised end and the line count |
| Server.NegativeEndPanics | server/grpc.go:85-91 | with readable content, a negative end line always ends in the slice panic with end -1 |
| Server.StartPastEndPanics | server/grpc.go:81-91 | with readable content, a start line past the line count ends in the slice panic |
| Server.WholeFileRequest | server/grpc.go:74-94 | a request for lines 0 to the line count sends the whole content to the collaborators, with the path's extension as hint |
| Server.RangeRequest | server/grpc.go:74-94 | for a request with `clamped start <= end <= line count` (a negative start counts from line 0), the collaborators receive `""` for an empty range and otherwise a block whose lines are exactly lines `[clamped start, end)`, with the path's extension as hint |
| OpenAI.FirstChoice | app/openai.go:40-45 | an answer with choices gives its first choice; an answer with none is the no-completion error, never an empty success |
| OpenAI.EditText | app/openai.go:25-46 | a reported failure is returned as it is; otherwise the result is the first choice, and an empty choice list gives the no-completion error |

## Left out

- Opening the repository, `Status`, the object store and gitignore glob matching are go-git internals. They appear as the snapshot's maps and an opaque ignore predicate on the whole path. The source hands the matcher the whole path as one segment; the predicate takes that path as given.
- The ignore matcher is built from the worktree's `Excludes` patterns (app/service.go:75). Whether those include the repository's `.gitignore` files depends on what go-git loads there, which the model does not decide. The model makes no claim that `.gitignore` rules are applied. A matcher that ignores nothing is one value of the predicate.
- Each handler reopens the repository for every read. The model reads one snapshot, so a change to the repository between two reads of one request is not modelled.
- `filepath.Join(dir, name)` is modelled as `dir + "/" + name`. The two agree when `dir` is already clean and the name is a valid directory-read name (non-empty, no `/`, not `.` or `..`). The shape lemmas assume such names.
- `tree.FindEntry` walks nested sub-trees. The model flattens each commit tree to a map from full path to blob.
- Service.GetFileContentsHEAD: a failing `io.Copy` from the blob reader (app/service.go:192) is ignored by the source and would return partial content. The model returns the full blob once the reader opens.
- A Go panic is modelled as an error value (`ReadDirPanic`, `SlicePanic`). What happens next depends on the entry point. Under `StartGRPCServer`, `grpc.NewServer()` (server/grpc.go:116) installs no recovery, so the panic ends the serving process. Under `StartConnectServer` (server/connect.go:47-61), the handlers run inside Go's HTTP server, which recovers a handler panic: that request fails with no response and the process keeps running. Neither outcome is expressible in the model.
- The rewrite call's transport failure ends the process with `log.Fatalf` (app/openai.go:36-38), which is not modellable. The model's collaborator reports an error instead, and `OpenAI.EditText` returns it.
- `ExplainModification` is commented out in app/openai.go:48-70. It is an abstract collaborator here.
- Cancellation contexts, logging and `fmt.Println` are plumbing and are left out. So are the gRPC/Connect servers (server/connect.go, `StartGRPCServer`), the superseded `cmd/main.go`, and concurrent request handling.
- The request's line numbers are protobuf 32-bit integers. They are unbounded `int` here because no arithmetic is done on them, so there is no wrap-around to model.
- Go strings are byte strings. The model uses `seq<char>`; splitting on the single byte `'\n'` is the same on both.
