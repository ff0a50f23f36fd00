/** The in-memory folder tree of dirWatcher.ts and the five mutations the watcher applies
    to it. dirWatcher.ts mutates objects in place through a reference to the resolved folder;
    here each mutation returns a new tree, or the error the handler throws, in which case
    the caller keeps the old tree (the handlers throw before touching anything). */
module Tree {
  import opened Wrappers
  import opened Types
  import Seqs

  /** The errors the handlers throw: "Folder … not found!", "File … not found!" and
      "Folder … already exists!". */
  datatype WatchError = FolderNotFound(name: Name) | FileNotFound(name: Name) | FolderExists(name: Name)

  /** One mutation of the resolved folder. */
  datatype Mutation =
    | AddFile(name: Name, size: nat, hash: string)
    | SetHash(name: Name, hash: string)
    | RemoveFile(name: Name)
    | AddFolder(name: Name)
    | RemoveFolder(name: Name)

  function FileNames(fs: seq<File>): (r: seq<Name>)
    ensures |r| == |fs| && forall i :: 0 <= i < |fs| ==> r[i] == fs[i].name
  {
    seq(|fs|, i requires 0 <= i < |fs| => fs[i].name)
  }

  function FolderNames(fs: seq<Folder>): (r: seq<Name>)
    ensures |r| == |fs| && forall i :: 0 <= i < |fs| ==> r[i] == fs[i].name
  {
    seq(|fs|, i requires 0 <= i < |fs| => fs[i].name)
  }

  /** Walks `segs` down from `f`, at each step entering the FIRST child folder of that
      name (`folders.find`), and fails on the first segment with no such child. */
  function Resolve(f: Folder, segs: seq<string>): (r: Result<Folder, WatchError>)
    ensures r.Err? ==> exists k :: 0 <= k < |segs| && r.error == FolderNotFound(Some(segs[k]))
    decreases segs
  {
    if |segs| == 0 then Ok(f)
    else match Seqs.IndexOf(FolderNames(f.folders), Some(segs[0]))
      case None => Err(FolderNotFound(Some(segs[0])))
      case Some(i) =>
        var r := Resolve(f.folders[i], segs[1..]);
        assert r.Err? ==> exists k :: 0 <= k < |segs| && r.error == FolderNotFound(Some(segs[k])) by {
          if r.Err? {
            var k :| 0 <= k < |segs[1..]| && r.error == FolderNotFound(Some(segs[1..][k]));
            assert segs[1..][k] == segs[k + 1];
          }
        }
        r
  }

  /** File CREATE: appends one record at the end of `files`, with no check for an existing
      file of the same name; nothing else changes. */
  function AppendFile(t: Folder, name: Name, size: nat, hash: string): (r: Folder)
    ensures r.name == t.name && r.folders == t.folders
    ensures |r.files| == |t.files| + 1 && r.files[..|t.files|] == t.files
    ensures r.files[|t.files|] == File(name, size, hash)
  {
    t.(files := t.files + [File(name, size, hash)])
  }

  /** File MODIFY: gives the first file called `name` the new hash, keeping every name and
      size; throws "File … not found!" when no file has that name. */
  function UpdateHash(t: Folder, name: Name, hash: string): (r: Result<Folder, WatchError>)
    ensures r.Err? <==> name !in FileNames(t.files)
    ensures r.Err? ==> r.error == FileNotFound(name)
    ensures r.Ok? ==> r.value.name == t.name && r.value.folders == t.folders
    ensures r.Ok? ==> |r.value.files| == |t.files| && forall j :: 0 <= j < |t.files| ==>
      && r.value.files[j].name == t.files[j].name
      && r.value.files[j].size == t.files[j].size
      && r.value.files[j].hash == (if Seqs.IsFirst(FileNames(t.files), name, j) then hash else t.files[j].hash)
  {
    match Seqs.IndexOf(FileNames(t.files), name)
    case None => Err(FileNotFound(name))
    case Some(i) =>
      var r := t.(files := t.files[i := t.files[i].(hash := hash)]);
      assert forall j :: 0 <= j < |t.files| ==> (Seqs.IsFirst(FileNames(t.files), name, j) <==> j == i) by {
        forall j | 0 <= j < |t.files| && Seqs.IsFirst(FileNames(t.files), name, j) {
          Seqs.FirstIsUnique(FileNames(t.files), name, i, j);
        }
      }
      Ok(r)
  }

  /** File DELETE: removes exactly the first file called `name`, keeping the others in
      order; throws "File … not found!" when there is none. */
  function RemoveFileNamed(t: Folder, name: Name): (r: Result<Folder, WatchError>)
    ensures r.Err? <==> name !in FileNames(t.files)
    ensures r.Err? ==> r.error == FileNotFound(name)
    ensures r.Ok? ==> r.value.name == t.name && r.value.folders == t.folders
    ensures r.Ok? ==> exists i :: Seqs.IsFirst(FileNames(t.files), name, i) && r.value.files == t.files[..i] + t.files[i + 1..]
  {
    match Seqs.IndexOf(FileNames(t.files), name)
    case None => Err(FileNotFound(name))
    case Some(i) => Ok(t.(files := Seqs.RemoveAt(t.files, i)))
  }

  /** Folder CREATE: throws "Folder … already exists!" when a child folder has that name
      (checked first, so even for a blank name); otherwise a blank name changes nothing and
      any other name, `undefined` included, appends an empty folder. */
  function AppendFolder(t: Folder, name: Name): (r: Result<Folder, WatchError>)
    ensures r.Err? <==> name in FolderNames(t.folders)
    ensures r.Err? ==> r.error == FolderExists(name)
    ensures r.Ok? ==> r.value.name == t.name && r.value.files == t.files
    ensures r.Ok? && name == Some("") ==> r.value == t
    ensures r.Ok? && name != Some("") ==> r.value.folders == t.folders + [Folder(name, [], [])]
  {
    if name in FolderNames(t.folders) then Err(FolderExists(name))
    else if name == Some("") then Ok(t)
    else Ok(t.(folders := t.folders + [Folder(name, [], [])]))
  }

  /** Folder DELETE: removes the first child folder called `name`, with its whole subtree,
      keeping the other children in order; throws "Folder … not found!" when there is none. */
  function RemoveFolderNamed(t: Folder, name: Name): (r: Result<Folder, WatchError>)
    ensures r.Err? <==> name !in FolderNames(t.folders)
    ensures r.Err? ==> r.error == FolderNotFound(name)
    ensures r.Ok? ==> r.value.name == t.name && r.value.files == t.files
    ensures r.Ok? ==> exists i :: Seqs.IsFirst(FolderNames(t.folders), name, i) && r.value.folders == t.folders[..i] + t.folders[i + 1..]
  {
    match Seqs.IndexOf(FolderNames(t.folders), name)
    case None => Err(FolderNotFound(name))
    case Some(i) => Ok(t.(folders := Seqs.RemoveAt(t.folders, i)))
  }

  /** Applies one mutation to a folder. None of them renames the folder itself. */
  function Apply(t: Folder, m: Mutation): (r: Result<Folder, WatchError>)
    ensures r.Ok? ==> r.value.name == t.name
  {
    match m
    case AddFile(n, size, h) => Ok(AppendFile(t, n, size, h))
    case SetHash(n, h) => UpdateHash(t, n, h)
    case RemoveFile(n) => RemoveFileNamed(t, n)
    case AddFolder(n) => AppendFolder(t, n)
    case RemoveFolder(n) => RemoveFolderNamed(t, n)
  }

  /** `b` is `a` with at most its first child folder named `s` replaced: the name, the files
      and every other child folder are the same, in the same places. */
  ghost predicate OnlyPathChildChanged(a: Folder, b: Folder, s: string)
  {
    && a.name == b.name && a.files == b.files && |b.folders| == |a.folders|
    && (exists i ::
          && Seqs.IsFirst(FolderNames(a.folders), Some(s), i)
          && forall j :: 0 <= j < |a.folders| && j != i ==> b.folders[j] == a.folders[j])
  }

  /** Resolves `segs` from `f` and applies `m` to the folder found. A missing segment fails
      with that segment's error before `m` is tried; otherwise the result fails exactly when
      `m` fails on the resolved folder, and on success the same path now leads to the
      mutated folder and the root keeps its name. Along a non-empty path, only the child the
      walk enters is replaced. */
  function ApplyAt(f: Folder, segs: seq<string>, m: Mutation): (r: Result<Folder, WatchError>)
    ensures Resolve(f, segs).Err? ==> r == Err(Resolve(f, segs).error)
    ensures Resolve(f, segs).Ok? ==> (r.Err? <==> Apply(Resolve(f, segs).value, m).Err?)
    ensures Resolve(f, segs).Ok? && r.Err? ==> r == Apply(Resolve(f, segs).value, m)
    ensures r.Ok? ==> Resolve(r.value, segs) == Apply(Resolve(f, segs).value, m)
    ensures r.Ok? ==> r.value.name == f.name
    ensures r.Ok? && |segs| > 0 ==> OnlyPathChildChanged(f, r.value, segs[0])
    decreases segs
  {
    if |segs| == 0 then Apply(f, m)
    else match Seqs.IndexOf(FolderNames(f.folders), Some(segs[0]))
      case None => Err(FolderNotFound(Some(segs[0])))
      case Some(i) =>
        match ApplyAt(f.folders[i], segs[1..], m)
        case Err(e) => Err(e)
        case Ok(c) =>
          var g := f.(folders := f.folders[i := c]);
          assert FolderNames(g.folders) == FolderNames(f.folders);
          assert Seqs.IsFirst(FolderNames(f.folders), Some(segs[0]), i);
          Ok(g)
  }

  /** `q` leaves `segs` at some position: neither path is a prefix of the other. */
  ghost predicate Diverges(q: seq<string>, segs: seq<string>)
    decreases |q|
  {
    |q| > 0 && |segs| > 0 && (q[0] != segs[0] || Diverges(q[1..], segs[1..]))
  }

  /** One step of the walk: the empty path stays put, and a one-segment path succeeds exactly
      when a child folder has that name, entering the FIRST such child; otherwise it fails
      naming the segment. With `ResolveAppend` this fixes the whole walk. */
  lemma ResolveOneStep(f: Folder, s: string)
    ensures Resolve(f, []) == Ok(f)
    ensures Resolve(f, [s]).Ok? <==> Some(s) in FolderNames(f.folders)
    ensures Resolve(f, [s]).Err? ==> Resolve(f, [s]).error == FolderNotFound(Some(s))
    ensures Resolve(f, [s]).Ok? ==>
      exists i :: Seqs.IsFirst(FolderNames(f.folders), Some(s), i) && Resolve(f, [s]).value == f.folders[i]
  {
    assert [s][1..] == [];
  }

  /** Resolving a concatenated path is resolving its two parts one after the other. */
  lemma {:induction false} ResolveAppend(f: Folder, a: seq<string>, b: seq<string>)
    ensures Resolve(f, a + b) == (match Resolve(f, a) case Err(e) => Err(e) case Ok(g) => Resolve(g, b))
    decreases a
  {
    if |a| > 0 {
      assert (a + b)[0] == a[0];
      assert (a + b)[1..] == a[1..] + b;
      match Seqs.IndexOf(FolderNames(f.folders), Some(a[0]))
      case None =>
      case Some(i) => ResolveAppend(f.folders[i], a[1..], b);
    } else {
      assert a + b == b;
    }
  }

  /** A failed walk fails at its first missing segment: every segment before it resolved,
      and the folder reached there has no child folder of that name. */
  lemma {:induction false} ResolveFailsAtFirstMissing(f: Folder, segs: seq<string>)
    requires Resolve(f, segs).Err?
    ensures exists k :: (
      && 0 <= k < |segs|
      && Resolve(f, segs[..k]).Ok?
      && Some(segs[k]) !in FolderNames(Resolve(f, segs[..k]).value.folders)
      && Resolve(f, segs).error == FolderNotFound(Some(segs[k])))
    decreases segs
  {
    match Seqs.IndexOf(FolderNames(f.folders), Some(segs[0]))
    case None =>
      assert segs[..0] == [];
      assert Resolve(f, segs[..0]) == Ok(f);
    case Some(i) =>
      var c := f.folders[i];
      ResolveFailsAtFirstMissing(c, segs[1..]);
      var k :| 0 <= k < |segs[1..]| && Resolve(c, segs[1..][..k]).Ok?
        && Some(segs[1..][k]) !in FolderNames(Resolve(c, segs[1..][..k]).value.folders)
        && Resolve(c, segs[1..]).error == FolderNotFound(Some(segs[1..][k]));
      assert segs[..k + 1][0] == segs[0];
      assert segs[..k + 1][1..] == segs[1..][..k];
      assert Resolve(f, segs[..k + 1]) == Resolve(c, segs[1..][..k]);
      assert segs[1..][k] == segs[k + 1];
  }

  /** A mutation leaves every path that leaves its target path resolving to exactly the
      folder (or the error) it resolved to before. */
  lemma {:induction false} ApplyAtFrame(f: Folder, segs: seq<string>, m: Mutation, q: seq<string>)
    requires ApplyAt(f, segs, m).Ok?
    requires Diverges(q, segs)
    ensures Resolve(ApplyAt(f, segs, m).value, q) == Resolve(f, q)
    decreases segs
  {
    var i := Seqs.IndexOf(FolderNames(f.folders), Some(segs[0])).value;
    var c := ApplyAt(f.folders[i], segs[1..], m).value;
    var g := ApplyAt(f, segs, m).value;
    assert g.folders == f.folders[i := c];
    assert FolderNames(g.folders) == FolderNames(f.folders);
    match Seqs.IndexOf(FolderNames(f.folders), Some(q[0]))
    case None =>
    case Some(j) =>
      if j == i {
        ApplyAtFrame(f.folders[i], segs[1..], m, q[1..]);
      } else {
        assert g.folders[j] == f.folders[j];
      }
  }

  /** Two folders agree on everything but the contents of their child folders. */
  ghost predicate SameShell(a: Folder, b: Folder)
  {
    a.name == b.name && a.files == b.files && FolderNames(a.folders) == FolderNames(b.folders)
  }

  /** One level of `ApplyAt`: a successful mutation along a non-empty path replaces the first
      child named `segs[0]` by the result of the mutation along the rest of the path. */
  lemma ApplyAtStep(f: Folder, segs: seq<string>, m: Mutation)
    requires |segs| > 0
    requires ApplyAt(f, segs, m).Ok?
    ensures Some(segs[0]) in FolderNames(f.folders)
    ensures var i := Seqs.IndexOf(FolderNames(f.folders), Some(segs[0])).value;
      && ApplyAt(f.folders[i], segs[1..], m).Ok?
      && ApplyAt(f, segs, m).value == f.(folders := f.folders[i := ApplyAt(f.folders[i], segs[1..], m).value])
  {
  }

  /** Every folder strictly above the target keeps its name, its files and the names of its
      child folders, and of its child folders only the one on the path is replaced. */
  lemma {:induction false} ApplyAtKeepsAncestors(f: Folder, segs: seq<string>, m: Mutation, k: nat)
    requires ApplyAt(f, segs, m).Ok?
    requires k < |segs|
    ensures Resolve(f, segs[..k]).Ok? && Resolve(ApplyAt(f, segs, m).value, segs[..k]).Ok?
    ensures SameShell(Resolve(f, segs[..k]).value, Resolve(ApplyAt(f, segs, m).value, segs[..k]).value)
    ensures OnlyPathChildChanged(Resolve(f, segs[..k]).value, Resolve(ApplyAt(f, segs, m).value, segs[..k]).value, segs[k])
    decreases segs
  {
    var g := ApplyAt(f, segs, m).value;
    ApplyAtStep(f, segs, m);
    var i := Seqs.IndexOf(FolderNames(f.folders), Some(segs[0])).value;
    var c := ApplyAt(f.folders[i], segs[1..], m).value;
    assert FolderNames(g.folders) == FolderNames(f.folders);
    if k == 0 {
      assert segs[..k] == [];
    } else {
      ApplyAtKeepsAncestors(f.folders[i], segs[1..], m, k - 1);
      AncestorLift(f, g, segs, k);
    }
  }

  /** The ancestor facts one level down, for two trees that share child folder names and
      differ below the first child named `segs[0]`, hold one level up. */
  lemma AncestorLift(f: Folder, g: Folder, segs: seq<string>, k: nat)
    requires 0 < k < |segs|
    requires Some(segs[0]) in FolderNames(f.folders)
    requires FolderNames(g.folders) == FolderNames(f.folders)
    requires var i := Seqs.IndexOf(FolderNames(f.folders), Some(segs[0])).value;
      && Resolve(f.folders[i], segs[1..][..k - 1]).Ok? && Resolve(g.folders[i], segs[1..][..k - 1]).Ok?
      && SameShell(Resolve(f.folders[i], segs[1..][..k - 1]).value, Resolve(g.folders[i], segs[1..][..k - 1]).value)
      && OnlyPathChildChanged(Resolve(f.folders[i], segs[1..][..k - 1]).value, Resolve(g.folders[i], segs[1..][..k - 1]).value, segs[k])
    ensures Resolve(f, segs[..k]).Ok? && Resolve(g, segs[..k]).Ok?
    ensures SameShell(Resolve(f, segs[..k]).value, Resolve(g, segs[..k]).value)
    ensures OnlyPathChildChanged(Resolve(f, segs[..k]).value, Resolve(g, segs[..k]).value, segs[k])
  {
    ResolvePrefixStep(f, segs, k);
    ResolvePrefixStep(g, segs, k);
  }

  /** A non-empty prefix of `segs` resolves through the first child named `segs[0]`. */
  lemma ResolvePrefixStep(f: Folder, segs: seq<string>, k: nat)
    requires 0 < k <= |segs|
    requires Some(segs[0]) in FolderNames(f.folders)
    ensures Resolve(f, segs[..k])
      == Resolve(f.folders[Seqs.IndexOf(FolderNames(f.folders), Some(segs[0])).value], segs[1..][..k - 1])
  {
    assert segs[..k][0] == segs[0];
    assert segs[..k][1..] == segs[1..][..k - 1];
  }

  /** Sibling folders have distinct names, at every level of the tree. */
  ghost predicate UniqueFolderNames(f: Folder)
  {
    && (forall a, b :: 0 <= a < b < |f.folders| ==> f.folders[a].name != f.folders[b].name)
    && (forall i :: 0 <= i < |f.folders| ==> UniqueFolderNames(f.folders[i]))
  }

  /** Appending an empty folder under a fresh name keeps sibling names distinct. */
  lemma AppendFolderKeepsUnique(t: Folder, n: Name)
    requires UniqueFolderNames(t)
    requires n !in FolderNames(t.folders)
    ensures UniqueFolderNames(t.(folders := t.folders + [Folder(n, [], [])]))
  {
    var fs := t.folders + [Folder(n, [], [])];
    forall a | 0 <= a < |t.folders| ensures fs[a].name != n {
      assert FolderNames(t.folders)[a] == t.folders[a].name;
    }
    assert forall i :: 0 <= i < |t.folders| ==> fs[i] == t.folders[i];
    assert UniqueFolderNames(Folder(n, [], []));
  }

  /** Removing one child folder keeps sibling names distinct. */
  lemma RemoveAtKeepsUnique(t: Folder, i: nat)
    requires UniqueFolderNames(t)
    requires i < |t.folders|
    ensures UniqueFolderNames(t.(folders := Seqs.RemoveAt(t.folders, i)))
  {
    var r := Seqs.RemoveAt(t.folders, i);
    assert forall a :: 0 <= a < |r| ==> r[a] == t.folders[if a < i then a else a + 1];
  }

  /** Every mutation keeps sibling folder names distinct: folder CREATE refuses a duplicate. */
  lemma ApplyKeepsUnique(t: Folder, m: Mutation)
    requires UniqueFolderNames(t)
    requires Apply(t, m).Ok?
    ensures UniqueFolderNames(Apply(t, m).value)
  {
    match m
    case AddFolder(n) =>
      if n != Some("") {
        AppendFolderKeepsUnique(t, n);
      }
    case RemoveFolder(n) =>
      RemoveAtKeepsUnique(t, Seqs.IndexOf(FolderNames(t.folders), n).value);
    case _ =>
      assert Apply(t, m).value.folders == t.folders;
  }

  /** Mutating at a path keeps sibling folder names distinct throughout the tree. */
  lemma {:induction false} ApplyAtKeepsUnique(f: Folder, segs: seq<string>, m: Mutation)
    requires UniqueFolderNames(f)
    requires ApplyAt(f, segs, m).Ok?
    ensures UniqueFolderNames(ApplyAt(f, segs, m).value)
    decreases segs
  {
    if |segs| == 0 {
      ApplyKeepsUnique(f, m);
    } else {
      var i := Seqs.IndexOf(FolderNames(f.folders), Some(segs[0])).value;
      var c := ApplyAt(f.folders[i], segs[1..], m).value;
      var g := ApplyAt(f, segs, m).value;
      assert g.folders == f.folders[i := c];
      ApplyAtKeepsUnique(f.folders[i], segs[1..], m);
      assert FolderNames(g.folders) == FolderNames(f.folders);
      assert forall a :: 0 <= a < |g.folders| ==> g.folders[a].name == f.folders[a].name by {
        forall a | 0 <= a < |g.folders| ensures g.folders[a].name == f.folders[a].name {
          assert FolderNames(g.folders)[a] == FolderNames(f.folders)[a];
        }
      }
    }
  }

  /** Every folder a path leads to inherits distinct sibling names. */
  lemma {:induction false} ResolveKeepsUnique(f: Folder, segs: seq<string>)
    requires UniqueFolderNames(f)
    requires Resolve(f, segs).Ok?
    ensures UniqueFolderNames(Resolve(f, segs).value)
    decreases segs
  {
    if |segs| > 0 {
      var i := Seqs.IndexOf(FolderNames(f.folders), Some(segs[0])).value;
      ResolveKeepsUnique(f.folders[i], segs[1..]);
    }
  }

  /** With distinct sibling names, folder DELETE leaves no child of that name behind. */
  lemma RemovedNameGone(t: Folder, n: Name)
    requires forall a, b :: 0 <= a < b < |t.folders| ==> t.folders[a].name != t.folders[b].name
    requires RemoveFolderNamed(t, n).Ok?
    ensures n !in FolderNames(RemoveFolderNamed(t, n).value.folders)
  {
    var i := Seqs.IndexOf(FolderNames(t.folders), n).value;
    var r := Seqs.RemoveAt(t.folders, i);
    assert RemoveFolderNamed(t, n).value.folders == r;
    forall a | 0 <= a < |r| ensures r[a].name != n {
      assert r[a] == t.folders[if a < i then a else a + 1];
      assert t.folders[i].name == n;
    }
  }

  /** In a tree with distinct sibling folder names, folder DELETE takes the whole subtree
      with it: no path through the removed folder resolves any more. */
  lemma RemovedSubtreeUnreachable(f: Folder, segs: seq<string>, n: string, rest: seq<string>)
    requires UniqueFolderNames(f)
    requires ApplyAt(f, segs, RemoveFolder(Some(n))).Ok?
    ensures Resolve(ApplyAt(f, segs, RemoveFolder(Some(n))).value, segs + [n] + rest).Err?
  {
    var g := ApplyAt(f, segs, RemoveFolder(Some(n))).value;
    var t := Resolve(f, segs).value;
    assert Resolve(g, segs) == RemoveFolderNamed(t, Some(n));
    ResolveKeepsUnique(f, segs);
    RemovedNameGone(t, Some(n));
    ResolveThroughMissing(g, segs, n, rest);
  }

  /** A path that reaches a folder without a child `n` and then continues into `n` fails. */
  lemma ResolveThroughMissing(g: Folder, segs: seq<string>, n: string, rest: seq<string>)
    requires Resolve(g, segs).Ok?
    requires Some(n) !in FolderNames(Resolve(g, segs).value.folders)
    ensures Resolve(g, segs + [n] + rest).Err?
  {
    assert segs + [n] + rest == segs + ([n] + rest);
    ResolveAppend(g, segs, [n] + rest);
    assert ([n] + rest)[0] == n;
  }
}
