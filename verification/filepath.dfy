/** Go's `filepath.Ext` on slash-separated paths. */
module FilePath {

  const Separator: char := '/'
  const Dot: char := '.'

  /** `ext` is a non-empty tail of `path` that starts with a dot and holds no
      other dot and no separator. */
  ghost predicate IsExtensionOf(ext: string, path: string) {
    && 0 < |ext| <= |path|
    && ext == path[|path| - |ext|..]
    && ext[0] == Dot
    && forall j :: 1 <= j < |ext| ==> ext[j] != Dot && ext[j] != Separator
  }

  /** Some dot among the first `i` characters of `path` has no separator after it. */
  ghost predicate DotInFinalElementBefore(path: string, i: nat)
    requires i <= |path|
  {
    exists k :: 0 <= k < i && path[k] == Dot && forall j :: k < j < |path| ==> path[j] != Separator
  }

  /** The final element of `path` (after its last separator) contains a dot. */
  ghost predicate DotInFinalElement(path: string) {
    DotInFinalElementBefore(path, |path|)
  }

  /** filepath.Ext: the suffix starting at the last dot of the final element,
      or "" when the final element has no dot. */
  function Ext(path: string): (ext: string)
    ensures ext == "" <==> !DotInFinalElement(path)
    ensures ext != "" ==> IsExtensionOf(ext, path)
  {
    ExtScan(path, |path|)
  }

  /** The backwards scan of filepath.Ext, standing at index `i`: everything from
      `i` on has already been passed over as neither a dot nor a separator. */
  function ExtScan(path: string, i: nat): (ext: string)
    requires i <= |path|
    requires forall k :: i <= k < |path| ==> path[k] != Dot && path[k] != Separator
    ensures ext == "" <==> !DotInFinalElementBefore(path, i)
    ensures ext != "" ==> IsExtensionOf(ext, path)
    decreases i
  {
    if i == 0 then ""
    else if path[i - 1] == Separator then ""
    else if path[i - 1] == Dot then path[i - 1..]
    else ExtScan(path, i - 1)
  }
}
