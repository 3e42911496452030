/** The editor service's messages, as the request logic fills them in. */
module Protocol {

  /** editor.FileState */
  datatype FileState =
    | Unmodified
    | Added
    | Copied
    | Deleted
    | Modified
    | Renamed
    | UpdatedButUnmerged

  /** editor.FileList */
  datatype FileList = FileList(files: seq<string>)

  /** editor.FileDetails */
  datatype FileDetails = FileDetails(content: string, original: string, state: FileState)

  /** editor.CodeModificationRequest; the line numbers are signed. */
  datatype CodeModificationRequest = CodeModificationRequest(
    path: string,
    prompt: string,
    lineStart: int,
    lineEnd: int)

  /** editor.CodeModificationResponse; the field name keeps the protocol's spelling. */
  datatype CodeModificationResponse = CodeModificationResponse(
    explenation: string,
    modifiedFiles: seq<string>)
}
