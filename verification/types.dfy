/** The records and enumerations of types.ts. */
module Types {
  import opened Wrappers

  /** A file or folder name as the watcher stores it. The declared type is `string`, but the
      handlers store whatever `pathArray.pop()` returned, which is `undefined` (`None`)
      when no segment was left. */
  type Name = Option<string>

  /** A file: exactly its name, size in bytes and content hash. The hash is the hex digest
      computed outside the model; here it is an opaque string. */
  datatype File = File(name: Name, size: nat, hash: string)

  /** A folder owns two separate ordered collections, one of files and one of folders.
      There is no parent field: a folder is a finite value tree. */
  datatype Folder = Folder(name: Name, files: seq<File>, folders: seq<Folder>)

  /** The three kinds of file notification. */
  datatype FileChangeType = Create | Delete | Modify

  /** The two kinds of folder notification; there is no modify. */
  datatype FolderChangeType = Create | Delete

  /** The client's configuration as the client reads it. `clientConfig` declares server
      address and port, a server password, a user name and the parity folder; the login
      reply also reads a `password` property the declaration does not have, so it holds
      whatever the loaded configuration supplies, or `undefined`. */
  datatype ClientConfig = ClientConfig(
    serverIP: string,
    serverPort: int,
    serverPassword: string,
    username: string,
    parityFolder: string,
    password: Option<string>)

  /** The string value of each `FileChangeType` member: one of three upper-case words. */
  function FileChangeTypeValue(k: FileChangeType): (r: string)
    ensures r in {"CREATE", "DELETE", "MODIFY"}
  {
    match k
    case Create => "CREATE"
    case Delete => "DELETE"
    case Modify => "MODIFY"
  }

  /** The member of `FileChangeType` whose value is `s`, if any. */
  function ParseFileChangeType(s: string): (r: Option<FileChangeType>)
    ensures r.Some? ==> FileChangeTypeValue(r.value) == s
    ensures s in {"CREATE", "DELETE", "MODIFY"} <==> r.Some?
  {
    if s == "CREATE" then Some(FileChangeType.Create)
    else if s == "DELETE" then Some(FileChangeType.Delete)
    else if s == "MODIFY" then Some(FileChangeType.Modify)
    else None
  }

  /** The string value of each `FolderChangeType` member: the same words as the file kinds
      for creation and deletion, and never "MODIFY". */
  function FolderChangeTypeValue(k: FolderChangeType): (r: string)
    ensures r in {"CREATE", "DELETE"}
    ensures k == FolderChangeType.Create ==> r == FileChangeTypeValue(FileChangeType.Create)
    ensures k == FolderChangeType.Delete ==> r == FileChangeTypeValue(FileChangeType.Delete)
  {
    match k
    case Create => "CREATE"
    case Delete => "DELETE"
  }

  /** Distinct members have distinct values, in both enums. */
  lemma ChangeTypeValuesInjective(a: FileChangeType, b: FileChangeType, c: FolderChangeType, d: FolderChangeType)
    ensures FileChangeTypeValue(a) == FileChangeTypeValue(b) <==> a == b
    ensures FolderChangeTypeValue(c) == FolderChangeTypeValue(d) <==> c == d
  {
  }

  /** The member of `FolderChangeType` whose value is `s`, if any; "MODIFY" names none. */
  function ParseFolderChangeType(s: string): (r: Option<FolderChangeType>)
    ensures r.Some? ==> FolderChangeTypeValue(r.value) == s
    ensures s in {"CREATE", "DELETE"} <==> r.Some?
  {
    if s == "CREATE" then Some(FolderChangeType.Create)
    else if s == "DELETE" then Some(FolderChangeType.Delete)
    else None
  }

  /** Every file change kind has a distinct value that parses back to it. */
  lemma FileChangeTypeRoundTrip(k: FileChangeType)
    ensures ParseFileChangeType(FileChangeTypeValue(k)) == Some(k)
  {
  }

  /** Every folder change kind parses back from its value, and the folder kinds are the
      file kinds without MODIFY. */
  lemma FolderChangeTypeRoundTrip(k: FolderChangeType)
    ensures ParseFolderChangeType(FolderChangeTypeValue(k)) == Some(k)
    ensures ParseFileChangeType(FolderChangeTypeValue(k)).Some?
    ensures ParseFolderChangeType(FileChangeTypeValue(FileChangeType.Modify)) == None
  {
  }

  /** The number of records in a tree: the folder, its files, and every descendant. */
  function Size(f: Folder): nat
  {
    1 + |f.files| + SizeAll(f.folders)
  }

  function SizeAll(fs: seq<Folder>): nat
  {
    if |fs| == 0 then 0 else Size(fs[0]) + SizeAll(fs[1..])
  }

  /** `g` lies strictly below `f`: reachable through one or more `folders` steps. */
  ghost predicate Below(g: Folder, f: Folder)
  {
    exists i :: 0 <= i < |f.folders| && (f.folders[i] == g || Below(g, f.folders[i]))
  }

  lemma {:induction false} ChildSmaller(fs: seq<Folder>, i: int)
    requires 0 <= i < |fs|
    ensures Size(fs[i]) <= SizeAll(fs)
    decreases |fs|
  {
    if i > 0 {
      ChildSmaller(fs[1..], i - 1);
    }
  }

  /** Everything below a folder is strictly smaller, so no folder lies below itself:
      the tree is acyclic. */
  lemma {:induction false} BelowIsSmaller(g: Folder, f: Folder)
    requires Below(g, f)
    ensures Size(g) < Size(f)
    ensures g != f
    decreases f
  {
    var i :| 0 <= i < |f.folders| && (f.folders[i] == g || Below(g, f.folders[i]));
    ChildSmaller(f.folders, i);
    if f.folders[i] != g {
      BelowIsSmaller(g, f.folders[i]);
    }
  }
}
