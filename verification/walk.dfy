/** The recursive walk over the worktree filesystem that lists every file
    below the repository root (getAllFiles in app/service.go). */
module Walk {
  import opened Wrappers
  import opened Errors
  import opened Seqs
  import FilePath

  /** What a directory read lists: a file, a directory with the entries its own
      read lists, or a directory whose read fails. */
  datatype Entry =
    | File(name: string)
    | Dir(name: string, children: seq<Entry>)
    | UnreadableDir(name: string)

  /** The walk starts with this as its current directory. */
  const Root: string := "/"

  /** The path of an entry listed in `current`: the bare name at the root, the
      parent's path joined with the name below it. */
  function EntryPath(current: string, name: string): string {
    if current == Root then name else current + [FilePath.Separator] + name
  }

  // ---------------------------------------------------------------------------
  // The walk. A directory whose read fails makes the walk panic.

  /** One listed entry: a file yields its path, a directory the walk of its
      entries, an unreadable directory stops the walk. */
  function WalkItem(current: string, e: Entry): (r: Result<seq<string>>)
    ensures r.Err? ==> r.error.ReadDirPanic?
    ensures e.File? ==> r == Ok([EntryPath(current, e.name)])
    ensures e.UnreadableDir? ==> r == Err(ReadDirPanic(EntryPath(current, e.name)))
    decreases e
  {
    var path := EntryPath(current, e.name);
    match e
    case File(_) => Ok([path])
    case Dir(_, children) => WalkDir(path, children)
    case UnreadableDir(_) => Err(ReadDirPanic(path))
  }

  /** The entries of one directory, walked in listing order and flattened. */
  function WalkDir(current: string, es: seq<Entry>): (r: Result<seq<string>>)
    ensures r.Err? ==> r.error.ReadDirPanic?
    ensures |es| == 0 ==> r == Ok([])
    decreases es
  {
    if |es| == 0 then Ok([])
    else
      match WalkItem(current, es[0])
      case Err(e) => Err(e)
      case Ok(first) =>
        match WalkDir(current, es[1..])
        case Err(e) => Err(e)
        case Ok(rest) => Ok(first + rest)
  }

  /** The walk from the root. `root` is the root directory's listing, None when
      reading the root fails: that error is dropped and nothing is listed. */
  function AllFiles(root: Option<seq<Entry>>): (r: Result<seq<string>>)
    ensures root.None? ==> r == Ok([])
    ensures root.Some? ==> (r.Ok? <==> !BlockedList(root.value))
    ensures root.Some? && r.Ok? ==>
      && |r.value| == FileCountList(root.value)
      && forall p :: p in r.value <==> FileInList(Root, root.value, p)
  {
    match root
    case None => Ok([])
    case Some(es) =>
      WalkDirOk(Root, es);
      var r := WalkDir(Root, es);
      if r.Ok? then
        WalkDirExact(Root, es);
        WalkDirCount(Root, es);
        r
      else r
  }

  // ---------------------------------------------------------------------------
  // Reference definitions: what is below an entry, independent of the walk.

  /** `p` is the path of a file leaf at or below `e`. */
  ghost predicate FileIn(current: string, e: Entry, p: string)
    decreases e
  {
    match e
    case File(n) => p == EntryPath(current, n)
    case Dir(n, children) => FileInList(EntryPath(current, n), children, p)
    case UnreadableDir(_) => false
  }

  ghost predicate FileInList(current: string, es: seq<Entry>, p: string)
    decreases es
  {
    exists i :: 0 <= i < |es| && FileIn(current, es[i], p)
  }

  /** `p` is the path of a directory at or below `e`. */
  ghost predicate DirIn(current: string, e: Entry, p: string)
    decreases e
  {
    match e
    case File(_) => false
    case Dir(n, children) => p == EntryPath(current, n) || DirInList(EntryPath(current, n), children, p)
    case UnreadableDir(n) => p == EntryPath(current, n)
  }

  ghost predicate DirInList(current: string, es: seq<Entry>, p: string)
    decreases es
  {
    exists i :: 0 <= i < |es| && DirIn(current, es[i], p)
  }

  /** Some directory at or below `e` cannot be read. */
  ghost predicate Blocked(e: Entry)
    decreases e
  {
    match e
    case File(_) => false
    case Dir(_, children) => BlockedList(children)
    case UnreadableDir(_) => true
  }

  ghost predicate BlockedList(es: seq<Entry>)
    decreases es
  {
    exists i :: 0 <= i < |es| && Blocked(es[i])
  }

  /** The number of file leaves at or below `e`. */
  function FileCount(e: Entry): nat
    decreases e
  {
    match e
    case File(_) => 1
    case Dir(_, children) => FileCountList(children)
    case UnreadableDir(_) => 0
  }

  function FileCountList(es: seq<Entry>): nat
    decreases es
  {
    if |es| == 0 then 0 else FileCount(es[0]) + FileCountList(es[1..])
  }

  /** A name a directory read can list: non-empty, no separator, not "." or "..". */
  predicate ValidName(n: string) {
    |n| > 0 && FilePath.Separator !in n && n != "." && n != ".."
  }

  /** Every name is valid and names within one directory are distinct. */
  ghost predicate WellFormed(e: Entry)
    decreases e
  {
    ValidName(e.name) && (e.Dir? ==> WellFormedList(e.children))
  }

  ghost predicate WellFormedList(es: seq<Entry>)
    decreases es
  {
    && (forall i :: 0 <= i < |es| ==> WellFormed(es[i]))
    && (forall i, j :: 0 <= i < j < |es| ==> es[i].name != es[j].name)
  }

  /** `p` is `base` itself or lies below it. */
  ghost predicate Under(p: string, base: string) {
    && |base| <= |p|
    && p[..|base|] == base
    && (|p| == |base| || p[|base|] == FilePath.Separator)
  }

  // ---------------------------------------------------------------------------
  // The walk against the reference definitions.

  lemma {:induction false} WalkItemOk(current: string, e: Entry)
    ensures WalkItem(current, e).Ok? <==> !Blocked(e)
    decreases e
  {
    if e.Dir? {
      WalkDirOk(EntryPath(current, e.name), e.children);
    }
  }

  /** The walk of a directory succeeds exactly when no directory below it is unreadable. */
  lemma {:induction false} WalkDirOk(current: string, es: seq<Entry>)
    ensures WalkDir(current, es).Ok? <==> !BlockedList(es)
    decreases es
  {
    if |es| > 0 {
      WalkItemOk(current, es[0]);
      WalkDirOk(current, es[1..]);
      if BlockedList(es[1..]) {
        var i :| 0 <= i < |es[1..]| && Blocked(es[1..][i]);
        assert Blocked(es[i + 1]);
      }
      if BlockedList(es) && !Blocked(es[0]) {
        var i :| 0 <= i < |es| && Blocked(es[i]);
        assert Blocked(es[1..][i - 1]);
      }
    }
  }

  lemma {:induction false} WalkItemExact(current: string, e: Entry, p: string)
    requires WalkItem(current, e).Ok?
    ensures p in WalkItem(current, e).value <==> FileIn(current, e, p)
    decreases e
  {
    if e.Dir? {
      WalkDirExact(EntryPath(current, e.name), e.children);
    }
  }

  /** A successful walk lists exactly the paths of the file leaves. */
  lemma {:induction false} WalkDirExact(current: string, es: seq<Entry>)
    requires WalkDir(current, es).Ok?
    ensures forall p :: p in WalkDir(current, es).value <==> FileInList(current, es, p)
    decreases es
  {
    if |es| > 0 {
      WalkDirExact(current, es[1..]);
      forall p
        ensures p in WalkDir(current, es).value <==> FileInList(current, es, p)
      {
        WalkItemExact(current, es[0], p);
        if FileInList(current, es[1..], p) {
          var i :| 0 <= i < |es[1..]| && FileIn(current, es[1..][i], p);
          assert FileIn(current, es[i + 1], p);
        }
        if FileInList(current, es, p) && !FileIn(current, es[0], p) {
          var i :| 0 <= i < |es| && FileIn(current, es[i], p);
          assert FileIn(current, es[1..][i - 1], p);
        }
      }
    }
  }

  lemma {:induction false} WalkItemCount(current: string, e: Entry)
    requires WalkItem(current, e).Ok?
    ensures |WalkItem(current, e).value| == FileCount(e)
    decreases e
  {
    if e.Dir? {
      WalkDirCount(EntryPath(current, e.name), e.children);
    }
  }

  /** A successful walk lists one path per file leaf. */
  lemma {:induction false} WalkDirCount(current: string, es: seq<Entry>)
    requires WalkDir(current, es).Ok?
    ensures |WalkDir(current, es).value| == FileCountList(es)
    decreases es
  {
    if |es| > 0 {
      WalkItemCount(current, es[0]);
      WalkDirCount(current, es[1..]);
    }
  }

  // ---------------------------------------------------------------------------
  // Shape of the listed paths when the directory reads are well formed.

  /** The path of a validly named entry is never the walk's starting point. */
  lemma EntryPathNotRoot(current: string, n: string)
    requires ValidName(n)
    ensures EntryPath(current, n) != Root
  {
  }

  /** A path below a child of `path` lies strictly below `path`. */
  lemma UnderChild(p: string, path: string, m: string)
    requires path != Root
    requires Under(p, EntryPath(path, m))
    ensures Under(p, path) && |p| > |path|
  {
    var child := EntryPath(path, m);
    assert child[..|path|] == path;
    assert p[..|path|] == p[..|child|][..|path|];
    assert p[|path|] == child[|path|];
  }

  /** Paths at or below two differently named siblings differ. */
  lemma SiblingPathsDiffer(current: string, n1: string, n2: string, p: string)
    requires ValidName(n1) && ValidName(n2) && n1 != n2
    requires Under(p, EntryPath(current, n1))
    ensures !Under(p, EntryPath(current, n2))
  {
    if Under(p, EntryPath(current, n2)) {
      var pre := if current == Root then "" else current + [FilePath.Separator];
      assert EntryPath(current, n1) == pre + n1;
      assert EntryPath(current, n2) == pre + n2;
      if |n1| <= |n2| {
        ShorterNameIsSame(pre, n1, n2, p);
      } else {
        ShorterNameIsSame(pre, n2, n1, p);
      }
    }
  }

  lemma ShorterNameIsSame(pre: string, short: string, long: string, p: string)
    requires ValidName(long) && |short| <= |long|
    requires Under(p, pre + short) && Under(p, pre + long)
    ensures short == long
  {
    var x := pre + short;
    var y := pre + long;
    assert y[..|x|] == p[..|y|][..|x|] == x;
    assert long[..|short|] == y[..|x|][|pre|..] == short;
  }

  lemma {:induction false} FileUnderEntry(current: string, e: Entry, p: string)
    requires WellFormed(e) && FileIn(current, e, p)
    ensures Under(p, EntryPath(current, e.name))
    decreases e
  {
    if e.Dir? {
      var path := EntryPath(current, e.name);
      var i :| 0 <= i < |e.children| && FileIn(path, e.children[i], p);
      FileUnderEntry(path, e.children[i], p);
      EntryPathNotRoot(current, e.name);
      UnderChild(p, path, e.children[i].name);
    }
  }

  lemma {:induction false} DirUnderEntry(current: string, e: Entry, p: string)
    requires WellFormed(e) && DirIn(current, e, p)
    ensures Under(p, EntryPath(current, e.name))
    decreases e
  {
    var path := EntryPath(current, e.name);
    if e.Dir? && p != path {
      var i :| 0 <= i < |e.children| && DirIn(path, e.children[i], p);
      DirUnderEntry(path, e.children[i], p);
      EntryPathNotRoot(current, e.name);
      UnderChild(p, path, e.children[i].name);
    }
  }

  lemma {:induction false} WalkItemDistinct(current: string, e: Entry)
    requires WellFormed(e) && WalkItem(current, e).Ok?
    ensures NoDuplicates(WalkItem(current, e).value)
    decreases e
  {
    if e.Dir? {
      WalkDirDistinct(EntryPath(current, e.name), e.children);
    }
  }

  /** Over well-formed directory reads, a successful walk lists no path twice. */
  lemma {:induction false} WalkDirDistinct(current: string, es: seq<Entry>)
    requires WellFormedList(es) && WalkDir(current, es).Ok?
    ensures NoDuplicates(WalkDir(current, es).value)
    decreases es
  {
    if |es| > 0 {
      var first := WalkItem(current, es[0]).value;
      var rest := WalkDir(current, es[1..]).value;
      assert WellFormedList(es[1..]) by {
        forall i, j | 0 <= i < j < |es[1..]|
          ensures es[1..][i].name != es[1..][j].name
        {
          assert es[1..][i] == es[i + 1] && es[1..][j] == es[j + 1];
        }
      }
      WalkItemDistinct(current, es[0]);
      WalkDirDistinct(current, es[1..]);
      WalkDirExact(current, es[1..]);
      forall x | x in first
        ensures x !in rest
      {
        WalkItemExact(current, es[0], x);
        FileUnderEntry(current, es[0], x);
        if x in rest {
          var j :| 0 <= j < |es[1..]| && FileIn(current, es[1..][j], x);
          FileUnderEntry(current, es[j + 1], x);
          SiblingPathsDiffer(current, es[0].name, es[j + 1].name, x);
        }
      }
      NoDuplicatesAppend(first, rest);
    }
  }

  lemma {:induction false} FileNotDirItem(current: string, e: Entry, p: string)
    requires WellFormed(e) && FileIn(current, e, p)
    ensures !DirIn(current, e, p)
    decreases e
  {
    if e.Dir? {
      var path := EntryPath(current, e.name);
      EntryPathNotRoot(current, e.name);
      var i :| 0 <= i < |e.children| && FileIn(path, e.children[i], p);
      FileUnderEntry(path, e.children[i], p);
      UnderChild(p, path, e.children[i].name);
      FileNotDirList(path, e.children, p);
    }
  }

  /** Over well-formed directory reads, no file leaf's path is also a directory's path. */
  lemma {:induction false} FileNotDirList(current: string, es: seq<Entry>, p: string)
    requires WellFormedList(es) && FileInList(current, es, p)
    ensures !DirInList(current, es, p)
    decreases es
  {
    var i :| 0 <= i < |es| && FileIn(current, es[i], p);
    if DirInList(current, es, p) {
      var j :| 0 <= j < |es| && DirIn(current, es[j], p);
      if i == j {
        FileNotDirItem(current, es[i], p);
      } else {
        FileUnderEntry(current, es[i], p);
        DirUnderEntry(current, es[j], p);
        SiblingPathsDiffer(current, es[i].name, es[j].name, p);
      }
    }
  }
}
