# FileParity watcher core in Dafny

This project models the core of FileParity, a tool that mirrors one "parity folder" between
a server and its clients. It covers two parts.

The first part is the `DirWatcher` in-memory directory tree. It also covers the bridge that
turns each file-system notification into one mutation of that tree. A notification carries a
raw backslash-separated path, which the watcher handles in four steps:

1. It drops the first two segments.
2. It drops the event if the rest, re-joined with backslashes, is on the ignore list of
   paths the watcher is itself changing.
3. It walks the remaining folder segments down from the root, entering the first child
   folder of each name.
4. It applies one mutation to the folder it reached: append a file, update a file's hash,
   remove a file, append a folder or remove a folder. Each mutation has error cases, in
   which the handler throws.

The model also covers the `ready` cleanup of the nameless folder left by the root
notification, the root folder's name, and the ignore-list bookkeeping of the four
self-initiated disk operations.

The second part is the client's message dispatcher `HandelMessage`. It is a stateless map
from an incoming message to an optional reply.

Files, one module each:

- `wrappers.dfy` (`Wrappers`) holds `Option`, whose `None` stands for JavaScript's
  `undefined`, and `Result`, for a handler that throws.
- `seqs.dfy` (`Seqs`) holds `find`/`indexOf`, and `splice` with JavaScript's rules for a
  negative start.
- `paths.dfy` (`Paths`) holds `split`/`join` on a one-character separator and their round
  trips.
- `types.dfy` (`Types`) holds the `File`/`Folder` records, the two change-kind
  enumerations, the client configuration, and the tree's acyclicity.
- `tree.dfy` (`Tree`) holds path resolution, the five mutations, mutation at a path, and
  the frame and invariant lemmas.
- `watcher.dfy` (`Watcher`) holds the watcher state, notification handling, `ready`, and
  the ignore list.
- `client.dfy` (`Client`) holds the reply dispatcher.

Names are `Option<string>` because the handlers store whatever `pathArray.pop()` returns. That
value is `undefined` when no segment is left, which happens for the watched directory
itself. The tree is a value, and a handler that throws leaves the caller with the old
tree. This matches the code, because the handlers throw before they touch anything.

Behaviour of the code worth noting, which the model follows:

- There is no parent back-reference in a `Folder`.
- File CREATE does not check for an existing file of the same name, so sibling file names
  are not kept distinct. Sibling folder names are kept distinct, because folder CREATE
  refuses a duplicate (`Tree.ApplyAtKeepsUnique`).
- A delete whose ancestor folder is already gone throws "Folder … not found!". It is not
  treated as a no-op.
- A folder name of `undefined` is not treated as blank. The `=== null` test never matches
  it, so the root notification appends a nameless folder, which `ready` then removes.
- The ignore-list removal repeats every 150 ms instead of running once (see Findings).
- The client keeps no connection state and never closes the connection, not even on a
  fatal error. Its login reply reads `config.password`, a property that the declared
  `clientConfig` type does not have.

## Model

| member | source | states |
|---|---|---|
| Seqs.IndexOf | dirWatcher.ts:127 | `findIndex`/`indexOf`: absent exactly when no element matches; otherwise the index of the first match |
| Seqs.RemoveAt | dirWatcher.ts:129 | `splice(i, 1)` at a valid index: one element fewer, the elements before `i` kept in place, the later ones shifted down by one, the multiset losing exactly `s[i]` |
| Seqs.SpliceOne | dirWatcher.ts:211 | JavaScript `splice(start, 1)`: a start inside the list removes that element; a negative start counts from the end, clamped at 0; a start past the end, or an empty list, changes nothing |
| Seqs.JsIndexOf | dirWatcher.ts:211 | `indexOf` is -1 exactly when the element is absent; otherwise it is the first occurrence |
| Seqs.SpliceIndexOf | dirWatcher.ts:211 | `splice(indexOf(x), 1)` removes the first `x`; when `x` is absent it removes the last element; on an empty list it changes nothing |
| Paths.Split | dirWatcher.ts:77 | `split` gives at least one piece, and no piece contains the separator |
| Paths.JoinSplit | dirWatcher.ts:77-81 | joining the pieces of a split restores the string |
| Paths.SplitJoin | dirWatcher.ts:77-81 | splitting the join of one or more separator-free pieces restores the pieces |
| Paths.SplitNoSep | dirWatcher.ts:77 | a string without a separator splits into itself |
| Paths.SplitAtSep | dirWatcher.ts:77 | a string splits first at its first separator |
| Paths.SplitJoinSuffix | dirWatcher.ts:77-88 | after dropping leading pieces of a split, splitting their join gives back the remaining pieces, the last one taken apart as the popped name |
| Paths.JoinSnoc | dirWatcher.ts:81 | the join of two or more pieces ends with a separator and then the last piece |
| Paths.JoinTwoFront | dirWatcher.ts:77-81 | the join of two leading pieces and a non-empty rest is `a`, separator, `b`, separator, then the join of the rest |
| Paths.Join | dirWatcher.ts:81 | `join` of no pieces is empty; the result starts with the first piece; with separator-free pieces it contains the separator exactly when there are two pieces or more |
| Paths.LastSegment | dirWatcher.ts:33 | `split("/").at(-1)` is a slash-free suffix of the path, preceded by a slash unless it is the whole path |
| Types.FileChangeTypeValue | types.ts:40-46 | every file change kind's value is one of "CREATE", "DELETE" and "MODIFY" |
| Types.FolderChangeTypeValue | types.ts:48-53 | every folder change kind's value is "CREATE" or "DELETE", the same string as the file kind of that name |
| Types.ChangeTypeValuesInjective | types.ts:40-53 | within each enum, two members have the same value exactly when they are the same member |
| Types.ParseFileChangeType | types.ts:40-46 | exactly the values "CREATE", "DELETE" and "MODIFY" name a file change kind, and each names the kind with that value |
| Types.ParseFolderChangeType | types.ts:48-53 | exactly "CREATE" and "DELETE" name a folder change kind |
| Types.FileChangeTypeRoundTrip | types.ts:40-46 | every file change kind parses back from its string value |
| Types.FolderChangeTypeRoundTrip | types.ts:48-53 | every folder change kind parses back from its value, and its value is also a file change value; "MODIFY" names no folder kind |
| Types.ChildSmaller | types.ts:28-32 | a child folder holds no more records than all the children together |
| Types.BelowIsSmaller | types.ts:28-32 | every folder below another is strictly smaller, so no folder lies below itself: the tree is acyclic |
| Tree.Resolve | dirWatcher.ts:90-98 | walking folder segments from the root fails only with "Folder … not found!" naming one of the segments; `Tree.ResolveOneStep` and `Tree.ResolveAppend` state what it reaches |
| Tree.ResolveOneStep | dirWatcher.ts:90-98 | the empty walk stays at the root; one segment succeeds exactly when a child folder has that name, entering the first such child, and otherwise fails naming the segment |
| Tree.AppendFile | dirWatcher.ts:102-112 | file CREATE: exactly one `File{name, size, hash}` is appended after the existing files, with no duplicate check; the name and the child folders are unchanged |
| Tree.UpdateHash | dirWatcher.ts:114-123 | file MODIFY fails with "File … not found!" exactly when no file has that name; otherwise only the first same-named file gets the new hash, and every name, size and child folder stays as it was |
| Tree.RemoveFileNamed | dirWatcher.ts:125-134 | file DELETE fails exactly when the name is absent; otherwise the result is the old file list without its first same-named file, with the others in order |
| Tree.AppendFolder | dirWatcher.ts:167-183 | folder CREATE fails with "already exists" exactly when a sibling folder has the name, checked before the blank test; a blank name changes nothing; any other name, `undefined` included, appends one empty folder |
| Tree.RemoveFolderNamed | dirWatcher.ts:185-194 | folder DELETE fails exactly when no child folder has the name; otherwise the first such child is removed with its subtree and the others keep their order |
| Tree.Apply | dirWatcher.ts:100-136 | no mutation renames the folder it is applied to |
| Tree.ApplyAt | dirWatcher.ts:90-136 | a missing folder segment fails before the mutation is tried; otherwise the result fails exactly when the mutation fails on the resolved folder; on success the same path leads to the mutated folder, the root keeps its name, and of the root's child folders only the one the path enters is replaced |
| Tree.ApplyAtStep | dirWatcher.ts:90-98 | one level of the walk: a successful mutation along a path replaces only the first child named by its first segment, with the mutation of the rest of the path inside it |
| Tree.ResolveFailsAtFirstMissing | dirWatcher.ts:90-98 | a failed walk throws for its first missing segment: every segment before it resolved, and the folder reached there has no child folder of that name |
| Tree.ResolveAppend | dirWatcher.ts:90-98 | resolving `a + b` is resolving `a`, then `b` from the folder it reaches |
| Tree.ApplyAtFrame | dirWatcher.ts:155-194 | every path that branches off the target path resolves, after the mutation, to exactly what it resolved to before |
| Tree.ApplyAtKeepsAncestors | dirWatcher.ts:155-194 | every folder above the target keeps its name, its files and its child folder names, and every child folder except the one on the path is left exactly as it was |
| Tree.AppendFolderKeepsUnique | dirWatcher.ts:169-181 | appending an empty folder under a name no sibling has keeps sibling folder names distinct |
| Tree.RemoveAtKeepsUnique | dirWatcher.ts:187-189 | removing one child folder keeps sibling folder names distinct |
| Tree.ApplyKeepsUnique | dirWatcher.ts:167-194 | no mutation makes two sibling folders share a name |
| Tree.ApplyAtKeepsUnique | dirWatcher.ts:155-194 | a mutation at any path keeps sibling folder names distinct throughout the tree |
| Tree.ResolveKeepsUnique | dirWatcher.ts:155-163 | the folder that a path reaches has distinct sibling folder names when the tree does |
| Tree.RemovedNameGone | dirWatcher.ts:185-194 | when sibling folder names are distinct, no child of the deleted name is left after folder DELETE |
| Tree.ResolveThroughMissing | dirWatcher.ts:90-98 | a walk that reaches a folder without a child `n` fails on any continuation through `n` |
| Tree.RemovedSubtreeUnreachable | dirWatcher.ts:185-194 | in a tree with distinct sibling folder names, no path through a deleted folder resolves after folder DELETE |
| Watcher.Init | dirWatcher.ts:9-33 | a new watcher has an empty ignore list and an empty root; the root is named by the last `/`-segment of the watched path |
| Watcher.InitRootUnique | dirWatcher.ts:22-33 | a new watcher's root has distinct sibling folder names |
| Watcher.TargetOf | dirWatcher.ts:77-88 | with two or fewer segments the name is `undefined` and the key is ""; otherwise the ignore key splits back into exactly the folder segments followed by the name |
| Watcher.TargetKeyIsSuffix | dirWatcher.ts:77-81 | the ignore key is the raw path after its second backslash |
| Watcher.FileMutation | dirWatcher.ts:100-136 | CREATE becomes an append carrying the size and hash, MODIFY a hash update carrying the hash, DELETE a removal, each for the notified name and for no other kind |
| Watcher.FolderMutation | dirWatcher.ts:165-196 | CREATE becomes a folder append and DELETE a folder removal, for the notified name and for no other kind |
| Watcher.FileChanged | dirWatcher.ts:75-138 | an ignored path leaves the tree unchanged and raises nothing; a missing folder segment throws that error; CREATE, MODIFY and DELETE reach the resolved folder as `AppendFile`, `UpdateHash` and `RemoveFileNamed` state, with their error cases |
| Watcher.FolderChanged | dirWatcher.ts:140-198 | the same handling for folders: ignored paths do nothing; CREATE refuses a duplicate sibling name; DELETE fails when the name is absent; on success the resolved folder is changed as `AppendFolder` or `RemoveFolderNamed` state |
| Watcher.FileChangedFrame | dirWatcher.ts:75-138 | a successful file notification leaves every path that branches off the resolved folder's path resolving as before |
| Watcher.FolderChangedFrame | dirWatcher.ts:140-198 | a successful folder notification leaves every path that branches off the resolved folder's path resolving as before |
| Watcher.EventsKeepUniqueFolderNames | dirWatcher.ts:75-198 | no file or folder notification makes two sibling folders share a name |
| Watcher.PruneNameless | dirWatcher.ts:65-71 | `ready` removes the first root child named `undefined`; with no such child the tree is unchanged |
| Watcher.Ready | dirWatcher.ts:65-71 | `ready` only prunes the root: the ignore list and watched path are unchanged, and distinct sibling folder names stay distinct |
| Watcher.PruneKeepsUnique | dirWatcher.ts:65-71 | dropping the nameless root child keeps sibling folder names distinct |
| Watcher.PruneAfterNamelessAppend | dirWatcher.ts:65-71 | pruning undoes the append of a nameless folder to a folder that had none |
| Watcher.RootAddDirUndoneByReady | dirWatcher.ts:142-181 | the notification for the watched directory appends a folder named `undefined` to the root, and `ready` restores the watcher exactly |
| Watcher.InitialRootEventPruned | dirWatcher.ts:22-71 | for a new watcher, the root notification followed by `ready` gives back the initial empty tree |
| Watcher.BeginSelfOp | dirWatcher.ts:200-202 | each self-initiated operation appends its path to the end of the ignore list and leaves the tree alone, whatever the disk call does |
| Watcher.IntervalTick | dirWatcher.ts:210-212 | one firing of the removal timer removes the first entry for the path; when there is none it removes the last entry; it does nothing on an empty list |
| Watcher.Settle | dirWatcher.ts:210-212 | the intended one-shot removal: one entry for the path goes if there is one, and no other path's entries change |
| Watcher.SettleIsFirstTick | dirWatcher.ts:210-212 | while the path is still listed, the first timer firing and the intended removal agree |
| Watcher.EchoSuppressed | dirWatcher.ts:81-84 | once a self-initiated operation has listed its path, any file or folder notification whose key is that path leaves the tree unchanged |
| Watcher.SelfOpThenSettle | dirWatcher.ts:200-212 | for a path not already listed, listing it and then removing it restores the watcher exactly, so later notifications for the path are handled normally |
| Watcher.IntervalTickDropsOtherEntry | dirWatcher.ts:200-214 | `a` is written and its timer fires once, removing it; `b` is written; `a`'s timer fires again and removes `b` while `b`'s window is open; the one-shot removal keeps `b` |
| Client.HandleMessage | client.ts:43-79 | "login" is answered with a login message carrying the configured username and password; "loginSuccess" is answered with "getFiles"; "error", "fileStructure" and any other type get no reply; nothing closes the connection |
| Client.ReactionDependsOnlyOnType | client.ts:43-75 | the reaction depends on the message only through its type tag, not on the error text, the fatal flag or a received folder |
| Client.ReplyTypeTag | client.ts:55-67 | a reply to "login" goes out tagged "login", and any other reply goes out tagged "getFiles" |

## Left out

- server.ts is not part of this model. It starts the websocket server and only logs what
  it receives.
- utils.ts (SHA-256 of the file's bytes) is not part of this model. The hash is an opaque
  string passed in with the notification.
- index.ts (argument parsing, JSON config loading) is not part of this model, because it
  is I/O.
- The chokidar subscription and its dot-file filter are left out. So is the mapping from
  chokidar's event names to handlers (dirWatcher.ts:35-63). The model takes the
  notification kind directly.
- `fs.existsSync` and `process.exit` in the constructor are left out, because they are I/O.
  `fs.statSync` is left out too: the file size is an input.
- The disk calls of `writeFile`, `deleteFile`, `createFolder` and `deleteFolder` are left
  out, with their try/catch logging. A failure is caught and never reaches the ignore
  list, so the model has no disk outcome.
- Watcher.FileChanged: does not model the disk reads failing after the folders resolve.
  On CREATE, `fs.statSync` (dirWatcher.ts:104) and the hash read (utils.ts:13) throw when
  the file is already gone, and so does the hash read on MODIFY (dirWatcher.ts:118). Size
  and hash are inputs, so the model's CREATE always succeeds once the folders resolve, and
  its MODIFY fails only on a missing name.
- The 150 ms timer is left out. Its firing is the explicit step `Watcher.IntervalTick`.
- The `async`/`await` suspension while hashing is left out. Each handler is one atomic
  step.
- What happens to a thrown error after the handler is left out. Node reports it as an
  unhandled promise rejection. The model returns it as `Err` and the caller keeps the old
  tree.
- Error message text is left out. Errors are the constructors `FolderNotFound`,
  `FileNotFound` and `FolderExists` with the name they mention.
- JavaScript `null` names are left out, because split and pop never produce one. For the
  same reason the loose `== undefined` test in `ready` is modelled as matching `undefined`
  only.
- Websocket send and receive, `JSON.parse`/`JSON.stringify` (including a message that
  fails to parse) and console logging are left out.
- The message type declarations that client.ts imports are not part of this model.
  types.ts does not declare them. `Client.Incoming` carries the fields client.ts
  reads.
- The `serverConfig` record is left out, because the modelled code does not read it.
- Tree diffing, serialisation, parent reconstruction, path rendering, encryption and
  credential checking are left out, because the modelled code has none of them.

## Findings

| source | as written | input that shows it | evidently intended | confidence | as-written member | corrected member |
|---|---|---|---|---|---|---|
| dirWatcher.ts:210-212 (also 226-228, 242-244, 258-260) | The removal uses `setInterval`, so it fires every 150 ms for ever. Each firing runs `splice(indexOf(path), 1)`. Once the path is gone, `indexOf` is -1 and the last entry of the list is removed, even though it belongs to another path. | Ignore list empty; `writeFile("a")` gives `["a"]`, and `a`'s timer fires once, leaving `[]`. `writeFile("b")` then gives `["b"]`. `a`'s timer fires again 150 ms later, finds no `a`, and leaves `[]` while `b`'s settle window is still open. | Remove the path's entry once, after the settle window, and only if it is still there. | not executed; high | Watcher.IntervalTick (exhibited by Watcher.IntervalTickDropsOtherEntry) | Watcher.Settle (proved by Watcher.SelfOpThenSettle and Watcher.SettleIsFirstTick) |
