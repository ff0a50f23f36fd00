/** The `DirWatcher` class of dirWatcher.ts: how a raw notification path becomes a mutation of
    the folder tree, the ignore list of self-initiated changes, and the `ready` cleanup.
    Every handler is one atomic step from the watcher's state to a new tree or an error. */
module Watcher {
  import opened Wrappers
  import opened Types
  import opened Tree
  import Seqs
  import Paths

  /** The state the handlers read: the tree, the paths the watcher is itself changing, and
      the watched path. */
  datatype Watcher = Watcher(root: Folder, ignoreList: seq<string>, watcherPath: string)

  /** What a raw notification path designates once its first two backslash segments are
      dropped: the key looked up in the ignore list (the remaining segments re-joined), the
      folder segments to walk from the root, and the final name (`undefined` when nothing
      was left to pop). */
  datatype Target = Target(key: string, dirs: seq<string>, name: Name)

  /** The self-initiated disk operations; all four treat the ignore list alike. */
  datatype SelfOp = WriteFile | DeleteFile | CreateFolder | DeleteFolder

  /** A new watcher on `path`: an empty tree named after the last `/`-segment of the path
      and an empty ignore list. */
  function Init(path: string): (w: Watcher)
    ensures w.root.files == [] && w.root.folders == [] && w.ignoreList == [] && w.watcherPath == path
    ensures w.root.name.Some?
    ensures var n := w.root.name.value;
      && '/' !in n
      && |n| <= |path| && path[|path| - |n|..] == n
      && (|n| < |path| ==> path[|path| - |n| - 1] == '/')
  {
    Watcher(Folder(Some(Paths.LastSegment(path, '/')), [], []), [], path)
  }

  /** Splits a raw path at backslashes, drops the first two segments, keys the rest for the
      ignore list, and pops the last segment as the name. The key splits back into exactly
      the folder segments followed by the name. */
  function TargetOf(path: string): (t: Target)
    ensures t.name.None? <==> |Paths.Split(path, '\\')| <= 2
    ensures t.name.None? ==> t.key == "" && t.dirs == []
    ensures t.name.Some? ==> Paths.Split(t.key, '\\') == t.dirs + [t.name.value]
  {
    var segs := Paths.Split(path, '\\');
    var rest := segs[if |segs| < 2 then |segs| else 2..];
    var key := Paths.Join(rest, '\\');
    if |rest| == 0 then Target(key, [], None)
    else
      Paths.SplitJoinSuffix(path, '\\', 2);
      Target(key, rest[..|rest| - 1], Some(rest[|rest| - 1]))
  }

  /** The ignore-list key is the raw path after its second backslash. */
  lemma TargetKeyIsSuffix(path: string)
    requires |Paths.Split(path, '\\')| >= 3
    ensures var segs := Paths.Split(path, '\\');
      && '\\' !in segs[0] && '\\' !in segs[1]
      && path == segs[0] + ['\\'] + segs[1] + ['\\'] + TargetOf(path).key
  {
    var segs := Paths.Split(path, '\\');
    Paths.JoinSplit(path, '\\');
    assert segs == [segs[0], segs[1]] + segs[2..];
    Paths.JoinTwoFront(segs[0], segs[1], segs[2..], '\\');
  }

  /** The mutation a file notification asks for. */
  function FileMutation(kind: FileChangeType, name: Name, size: nat, hash: string): (m: Mutation)
    ensures m.name == name
    ensures m.AddFile? <==> kind == FileChangeType.Create
    ensures m.SetHash? <==> kind == FileChangeType.Modify
    ensures m.RemoveFile? <==> kind == FileChangeType.Delete
    ensures m.AddFile? ==> m.size == size && m.hash == hash
    ensures m.SetHash? ==> m.hash == hash
  {
    match kind
    case Create => AddFile(name, size, hash)
    case Modify => SetHash(name, hash)
    case Delete => RemoveFile(name)
  }

  /** The mutation a folder notification asks for. */
  function FolderMutation(kind: FolderChangeType, name: Name): (m: Mutation)
    ensures m.name == name
    ensures m.AddFolder? <==> kind == FolderChangeType.Create
    ensures m.RemoveFolder? <==> kind == FolderChangeType.Delete
  {
    match kind
    case Create => AddFolder(name)
    case Delete => RemoveFolder(name)
  }

  /** `fileChanged`: an ignored path leaves the tree as it is; otherwise a missing folder
      segment throws before anything changes, and the resolved folder gets the mutation
      the notification kind asks for. Size and hash are the values the disk would report. */
  function FileChanged(w: Watcher, kind: FileChangeType, path: string, size: nat, hash: string): (r: Result<Folder, WatchError>)
    ensures TargetOf(path).key in w.ignoreList ==> r == Ok(w.root)
    ensures var t := TargetOf(path);
      t.key !in w.ignoreList && Resolve(w.root, t.dirs).Err? ==> r == Err(Resolve(w.root, t.dirs).error)
    ensures var t := TargetOf(path);
      t.key !in w.ignoreList && Resolve(w.root, t.dirs).Ok? ==>
        var target := Resolve(w.root, t.dirs).value;
        match kind
        case Create => r.Ok? && Resolve(r.value, t.dirs) == Ok(AppendFile(target, t.name, size, hash))
        case Modify =>
          && (r.Err? <==> t.name !in FileNames(target.files))
          && (r.Err? ==> r.error == FileNotFound(t.name))
          && (r.Ok? ==> Resolve(r.value, t.dirs) == UpdateHash(target, t.name, hash))
        case Delete =>
          && (r.Err? <==> t.name !in FileNames(target.files))
          && (r.Err? ==> r.error == FileNotFound(t.name))
          && (r.Ok? ==> Resolve(r.value, t.dirs) == RemoveFileNamed(target, t.name))
    ensures r.Ok? ==> r.value.name == w.root.name
  {
    var t := TargetOf(path);
    if t.key in w.ignoreList then Ok(w.root)
    else ApplyAt(w.root, t.dirs, FileMutation(kind, t.name, size, hash))
  }

  /** `folderChanged`: as for files, with folder CREATE refusing a duplicate sibling and
      ignoring a blank name, and folder DELETE removing the first child of that name. */
  function FolderChanged(w: Watcher, kind: FolderChangeType, path: string): (r: Result<Folder, WatchError>)
    ensures TargetOf(path).key in w.ignoreList ==> r == Ok(w.root)
    ensures var t := TargetOf(path);
      t.key !in w.ignoreList && Resolve(w.root, t.dirs).Err? ==> r == Err(Resolve(w.root, t.dirs).error)
    ensures var t := TargetOf(path);
      t.key !in w.ignoreList && Resolve(w.root, t.dirs).Ok? ==>
        var target := Resolve(w.root, t.dirs).value;
        match kind
        case Create =>
          && (r.Err? <==> t.name in FolderNames(target.folders))
          && (r.Err? ==> r.error == FolderExists(t.name))
          && (r.Ok? ==> Resolve(r.value, t.dirs) == AppendFolder(target, t.name))
        case Delete =>
          && (r.Err? <==> t.name !in FolderNames(target.folders))
          && (r.Err? ==> r.error == FolderNotFound(t.name))
          && (r.Ok? ==> Resolve(r.value, t.dirs) == RemoveFolderNamed(target, t.name))
    ensures r.Ok? ==> r.value.name == w.root.name
  {
    var t := TargetOf(path);
    if t.key in w.ignoreList then Ok(w.root)
    else ApplyAt(w.root, t.dirs, FolderMutation(kind, t.name))
  }

  /** A file notification changes nothing outside the folder it resolves to: every path
      that branches off that folder's path resolves as before. */
  lemma FileChangedFrame(w: Watcher, kind: FileChangeType, path: string, size: nat, hash: string, q: seq<string>)
    requires FileChanged(w, kind, path, size, hash).Ok?
    requires Diverges(q, TargetOf(path).dirs)
    ensures Resolve(FileChanged(w, kind, path, size, hash).value, q) == Resolve(w.root, q)
  {
    var t := TargetOf(path);
    if t.key !in w.ignoreList {
      ApplyAtFrame(w.root, t.dirs, FileMutation(kind, t.name, size, hash), q);
    }
  }

  /** A folder notification changes nothing outside the folder it resolves to. */
  lemma FolderChangedFrame(w: Watcher, kind: FolderChangeType, path: string, q: seq<string>)
    requires FolderChanged(w, kind, path).Ok?
    requires Diverges(q, TargetOf(path).dirs)
    ensures Resolve(FolderChanged(w, kind, path).value, q) == Resolve(w.root, q)
  {
    var t := TargetOf(path);
    if t.key !in w.ignoreList {
      ApplyAtFrame(w.root, t.dirs, FolderMutation(kind, t.name), q);
    }
  }

  /** No notification, file or folder, can make two sibling folders share a name. */
  lemma EventsKeepUniqueFolderNames(w: Watcher, fileKind: FileChangeType, folderKind: FolderChangeType, path: string, size: nat, hash: string)
    requires UniqueFolderNames(w.root)
    ensures FileChanged(w, fileKind, path, size, hash).Ok? ==> UniqueFolderNames(FileChanged(w, fileKind, path, size, hash).value)
    ensures FolderChanged(w, folderKind, path).Ok? ==> UniqueFolderNames(FolderChanged(w, folderKind, path).value)
  {
    var t := TargetOf(path);
    if t.key !in w.ignoreList {
      if ApplyAt(w.root, t.dirs, FileMutation(fileKind, t.name, size, hash)).Ok? {
        ApplyAtKeepsUnique(w.root, t.dirs, FileMutation(fileKind, t.name, size, hash));
      }
      if ApplyAt(w.root, t.dirs, FolderMutation(folderKind, t.name)).Ok? {
        ApplyAtKeepsUnique(w.root, t.dirs, FolderMutation(folderKind, t.name));
      }
    }
  }

  /** The `ready` cleanup: drops the first root child whose name is `undefined`, if any. */
  function PruneNameless(f: Folder): (r: Folder)
    ensures None !in FolderNames(f.folders) ==> r == f
    ensures None in FolderNames(f.folders) ==>
      && r.name == f.name && r.files == f.files
      && exists i :: Seqs.IsFirst(FolderNames(f.folders), None, i) && r.folders == f.folders[..i] + f.folders[i + 1..]
  {
    match RemoveFolderNamed(f, None)
    case Ok(g) => g
    case Err(_) => f
  }

  /** The `ready` handler: prunes the root and touches nothing else. Pruning keeps sibling
      folder names distinct. */
  function Ready(w: Watcher): (r: Watcher)
    ensures r.root == PruneNameless(w.root)
    ensures r.ignoreList == w.ignoreList && r.watcherPath == w.watcherPath
    ensures UniqueFolderNames(w.root) ==> UniqueFolderNames(r.root)
  {
    PruneKeepsUnique(w.root);
    w.(root := PruneNameless(w.root))
  }

  /** Dropping one root child cannot make two sibling names equal. */
  lemma PruneKeepsUnique(f: Folder)
    ensures UniqueFolderNames(f) ==> UniqueFolderNames(PruneNameless(f))
  {
    if UniqueFolderNames(f) && None in FolderNames(f.folders) {
      var i := Seqs.IndexOf(FolderNames(f.folders), None).value;
      assert RemoveFolderNamed(f, None) == Ok(f.(folders := Seqs.RemoveAt(f.folders, i)));
      RemoveAtKeepsUnique(f, i);
    }
  }

  /** A new watcher's root trivially has distinct sibling folder names. */
  lemma InitRootUnique(path: string)
    ensures UniqueFolderNames(Init(path).root)
  {
  }

  /** Pruning undoes appending a folder named `undefined` to a folder that had none. */
  lemma PruneAfterNamelessAppend(f: Folder)
    requires None !in FolderNames(f.folders)
    ensures PruneNameless(f.(folders := f.folders + [Folder(None, [], [])])) == f
  {
    var g := f.(folders := f.folders + [Folder(None, [], [])]);
    assert FolderNames(g.folders)[|f.folders|] == None;
    assert None in FolderNames(g.folders);
    assert forall j :: 0 <= j < |f.folders| ==> FolderNames(g.folders)[j] == FolderNames(f.folders)[j];
    var i := Seqs.IndexOf(FolderNames(g.folders), None).value;
    assert i == |f.folders|;
    assert RemoveFolderNamed(g, None) == Ok(g.(folders := Seqs.RemoveAt(g.folders, i)));
    assert Seqs.RemoveAt(g.folders, i) == f.folders;
  }

  /** The notification for the watched directory itself has no segment left after the two
      shifts, so folder CREATE appends a folder named `undefined` to the root; `ready`
      removes exactly that folder again. */
  lemma RootAddDirUndoneByReady(w: Watcher, path: string)
    requires |Paths.Split(path, '\\')| <= 2
    requires "" !in w.ignoreList
    requires None !in FolderNames(w.root.folders)
    ensures FolderChanged(w, FolderChangeType.Create, path) == Ok(w.root.(folders := w.root.folders + [Folder(None, [], [])]))
    ensures Ready(w.(root := FolderChanged(w, FolderChangeType.Create, path).value)) == w
  {
    var t := TargetOf(path);
    assert t.name == None && t.key == "" && t.dirs == [];
    assert FolderChanged(w, FolderChangeType.Create, path) == ApplyAt(w.root, [], AddFolder(None));
    assert ApplyAt(w.root, [], AddFolder(None)) == AppendFolder(w.root, None);
    PruneAfterNamelessAppend(w.root);
  }

  /** A fresh watcher's initial scan: the root notification followed by `ready` gives back
      the empty root tree. */
  lemma InitialRootEventPruned(watched: string, path: string)
    requires |Paths.Split(path, '\\')| <= 2
    ensures Ready(Init(watched).(root := FolderChanged(Init(watched), FolderChangeType.Create, path).value)) == Init(watched)
  {
    RootAddDirUndoneByReady(Init(watched), path);
  }

  /** `writeFile`, `deleteFile`, `createFolder`, `deleteFolder`: the path goes on the end of
      the ignore list before the disk is touched, and stays there whatever the disk does. */
  function BeginSelfOp(w: Watcher, op: SelfOp, path: string): (r: Watcher)
    ensures r.root == w.root && r.watcherPath == w.watcherPath
    ensures |r.ignoreList| == |w.ignoreList| + 1 && r.ignoreList[..|w.ignoreList|] == w.ignoreList
    ensures r.ignoreList[|w.ignoreList|] == path
  {
    w.(ignoreList := w.ignoreList + [path])
  }

  /** One firing of the 150 ms interval as written: `splice(indexOf(path), 1)`. It removes the
      first entry for `path`; when there is none it removes the last entry of the list. */
  function IntervalTick(w: Watcher, path: string): (r: Watcher)
    ensures r.root == w.root && r.watcherPath == w.watcherPath
    ensures path in w.ignoreList ==> exists i :: Seqs.IsFirst(w.ignoreList, path, i) && r.ignoreList == Seqs.RemoveAt(w.ignoreList, i)
    ensures path !in w.ignoreList && |w.ignoreList| > 0 ==> r.ignoreList == w.ignoreList[..|w.ignoreList| - 1]
    ensures w.ignoreList == [] ==> r == w
  {
    w.(ignoreList := Seqs.SpliceIndexOf(w.ignoreList, path))
  }

  /** The settle step as evidently intended: remove one entry for `path`, once, and leave
      every other path's entries alone. */
  function Settle(w: Watcher, path: string): (r: Watcher)
    ensures r.root == w.root && r.watcherPath == w.watcherPath
    ensures forall q :: q != path ==> multiset(r.ignoreList)[q] == multiset(w.ignoreList)[q]
    ensures path in w.ignoreList ==> multiset(r.ignoreList)[path] == multiset(w.ignoreList)[path] - 1
    ensures path !in w.ignoreList ==> r == w
  {
    match Seqs.IndexOf(w.ignoreList, path)
    case None => w
    case Some(i) => w.(ignoreList := Seqs.RemoveAt(w.ignoreList, i))
  }

  /** While `path` is still listed, the settle step and the first interval firing agree. */
  lemma SettleIsFirstTick(w: Watcher, path: string)
    requires path in w.ignoreList
    ensures Settle(w, path) == IntervalTick(w, path)
  {
    var i := Seqs.IndexOf(w.ignoreList, path).value;
    var k :| Seqs.IsFirst(w.ignoreList, path, k) && IntervalTick(w, path).ignoreList == Seqs.RemoveAt(w.ignoreList, k);
    Seqs.FirstIsUnique(w.ignoreList, path, i, k);
  }

  /** The watcher's own echo of a self-initiated change is dropped, file or folder alike. */
  lemma EchoSuppressed(w: Watcher, op: SelfOp, p: string, echo: string, fileKind: FileChangeType, folderKind: FolderChangeType, size: nat, hash: string)
    requires TargetOf(echo).key == p
    ensures FileChanged(BeginSelfOp(w, op, p), fileKind, echo, size, hash) == Ok(w.root)
    ensures FolderChanged(BeginSelfOp(w, op, p), folderKind, echo) == Ok(w.root)
  {
    assert p in BeginSelfOp(w, op, p).ignoreList;
  }

  /** A self-initiated change followed by its settle step restores the watcher exactly, so a
      later notification for the same path is handled as if the change had never been
      ignored. */
  lemma SelfOpThenSettle(w: Watcher, op: SelfOp, p: string)
    requires p !in w.ignoreList
    ensures Settle(BeginSelfOp(w, op, p), p) == w
  {
    var l := w.ignoreList + [p];
    var i := Seqs.IndexOf(l, p).value;
    assert forall j :: 0 <= j < |w.ignoreList| ==> l[j] == w.ignoreList[j];
    assert l[..i] == w.ignoreList;
  }

  /** The repeating interval removes entries belonging to other paths. `a` is written, its
      timer fires once and removes it, `b` is written before that timer fires again, and the
      second firing finds no `a` and removes `b` while `b`'s window is still open. The
      one-shot settle step leaves `b` listed. */
  lemma IntervalTickDropsOtherEntry(w: Watcher, a: string, b: string)
    requires w.ignoreList == []
    requires a != b
    ensures var w1 := IntervalTick(BeginSelfOp(w, WriteFile, a), a);
      var w2 := BeginSelfOp(w1, WriteFile, b);
      && w1.ignoreList == []
      && w2.ignoreList == [b]
      && IntervalTick(w2, a).ignoreList == []
      && Settle(w2, a).ignoreList == [b]
  {
    var w0 := BeginSelfOp(w, WriteFile, a);
    assert w0.ignoreList == [a];
    assert Seqs.JsIndexOf([a], a) == 0;
    assert Seqs.RemoveAt([a], 0) == [];
    var w1 := IntervalTick(w0, a);
    assert w1.ignoreList == [];
    var w2 := BeginSelfOp(w1, WriteFile, b);
    assert w2.ignoreList == [b];
    assert Seqs.JsIndexOf([b], a) == -1;
    assert Seqs.RemoveAt([b], 0) == [];
    assert IntervalTick(w2, a).ignoreList == [];
  }
}
