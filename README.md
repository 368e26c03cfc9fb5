# scopy: a model of a simplified scp in Dafny

scopy copies a file or a directory tree between the local machine and a
remote host reached over SSH and SFTP. This project models its core:

- **Endpoint parser** (`Parser`). `ParseScpCli` splits `[user@]host:path`,
  or returns the whole input as a local path. The model follows the regex at
  `pkg/transport/parser.go:22` character by character: the first `:`, a user
  over `[A-Za-z0-9_-]`, an address over `[A-Za-z0-9._-]`, and a path with no
  newline. It also has the one-letter drive rule.
- **Helpers** (`Helpers`, `Glob`):
  - `ReplaceSepWith`;
  - `isExcluded`;
  - Go's `filepath.Match` on one path segment. It is a well-formedness
    predicate plus a recursive matcher over `*`, `?`, `[...]` classes and
    `\` escapes.
- **Local and remote queries and scanners** (`LocalFiles`, `RemoteFiles`):
  - `PathExists`, `IsDirectory`, `RemotePathExists` and `RemoteIsDirectory`
    over an abstract file system;
  - `RemoteMkdirAll` as an imperative loop over the remote host;
  - `Scan` and `RemoteScan` as loops over a directory listing tree.
    `RemoteScan` has its pattern-to-regex translation and an unanchored regex
    search.
- **Transfers** (`FileSystem`, `Download`, `Upload`). A `Hosts` object holds
  the local and the remote file system. The methods that change them are
  `Download`, `downloadRemoteDir`, `createLocalDir`, `downloadRemoteFile`,
  `Upload`, `uploadLocalDir` and `uploadLocalFile`. Each is proved equal to a
  function of the old state. Lemmas then state what a successful run leaves
  behind.
- **Connection set-up** (`Conn`):
  - the dial address;
  - `expandPath`;
  - `findDefaultKey`;
  - `signerFromKeyFile`;
  - the `Connect` decision flow: key choice, key or passphrase fallback, and
    one password retry after "unable to authenticate".

A file system (`FileSystem.Fs`) is a map from cleaned paths to nodes. A node
is `Dir(mode, mtime)` or `File(bytes, mode, mtime)`. Each host also carries:

- a set of faults, meaning operations that fail on given paths;
- its clock, used to stamp what it writes;
- the default modes it gives new files and directories.

Every call looks a path up by its cleaned key, except the empty path. The
operating system resolves "" to no file, although it cleans to ".", so on
both hosts its stat reports "does not exist" and every call that would open,
create or make it fails.

Paths use `/` as separator. `Join`, `Clean`, `Base`, `Dir` and `Rel` follow
Go's `path/filepath` on that platform (`Paths`).

Collaborators are inputs, not modelled code:

- The directory walker (`client.Walk`, `filepath.Walk`) is a `Walk` value. It
  lists entries parent-first, as a parent index and a name.
- The SSH library (`ssh.ParsePrivateKey`, `ssh.ParsePrivateKeyWithPassphrase`
  and `ssh.Dial`) is the `Ssh` value of functions.
- The terminal answers, the home directory, `runtime.GOOS` and the working
  directory are inputs.

`Connect` returns the prompts it shows and the dials it makes. Its contract
can therefore say exactly when the user is asked for a password, and what
each dial offers.

## Model

| member | source | states |
|---|---|---|
| Parser.IndexOf | pkg/transport/parser.go:22 | finds the first occurrence of a character: none iff the character is absent, otherwise the index holds it and nothing before does |
| Parser.SplitEndpoint | pkg/transport/parser.go:22 | a prefix accepted as an endpoint is an optional user over `[A-Za-z0-9_-]` plus `@`, then an address over `[A-Za-z0-9._-]`, and rebuilds to the prefix |
| Parser.ParseScpCli | pkg/transport/parser.go:15-57 | an empty address means the whole input is the local path; a user implies an address; a remote result satisfies the regex with exactly those groups (so the input rebuilds as user@address:path); a remote result without user has an address of two or more characters |
| Parser.ParseComplete | pkg/transport/parser.go:22-53 | whenever the input matches the regex with given groups, the parse returns those groups, except that a one-character address with no user makes the result local |
| Parser.SplitEndpointOf | pkg/transport/parser.go:22 | every valid `[user@]addr` prefix splits back into exactly that user and address |
| Parser.NoColonInEndpoint | pkg/transport/parser.go:22 | a valid endpoint prefix contains no colon, so the first colon of the input ends the address and later colons belong to the path |
| Parser.DriveLetter | pkg/transport/parser.go:47-53 | `X:rest` with a one-character address is local and kept verbatim; `user@X:rest` stays remote |
| Parser.NewlineIsLocal | pkg/transport/parser.go:22 | a newline anywhere after the first colon makes the input local |
| Parser.TableCase01 | pkg/transport/parser_test.go:16-22 | `user@server.example.com:/home/user/file.txt` parses to its three parts |
| Parser.TableCase02 | pkg/transport/parser_test.go:25-31 | a remote path without user parses with an empty user |
| Parser.TableCase03 | pkg/transport/parser_test.go:34-40 | an IP address with user and a `~` path parses to its parts |
| Parser.TableCase04 | pkg/transport/parser_test.go:43-49 | an IP address without user parses to its parts |
| Parser.TableCasesLocal | pkg/transport/parser_test.go:52-131 | an absolute path, a relative path and a UNC path with backslashes are local and kept verbatim |
| Parser.TableCase07 | pkg/transport/parser_test.go:70-76 | hyphens and underscores are accepted in user and address |
| Parser.TableCase08 | pkg/transport/parser_test.go:79-85 | `host:` gives an empty path with the address set |
| Parser.TableCase09 | pkg/transport/parser_test.go:88-94 | `user@host:` gives an empty path with user and address set |
| Parser.TableCase10 | pkg/transport/parser_test.go:97-103 | a remote Windows path keeps its drive colon in the path |
| Parser.TableCase11 | pkg/transport/parser_test.go:106-112 | a remote `/D:/...` path keeps its later colon in the path |
| Parser.TableCase12 | pkg/transport/parser_test.go:115-121 | a local drive-letter path is local and kept verbatim |
| Parser.TableCase14 | pkg/transport/parser_test.go:133-139 | a remote `//share` path keeps its double slash |
| Helpers.ReplaceSepWith | pkg/util/helpers.go:10-17 | with `/`, every backslash becomes `/` and every other character is unchanged; with any other one-character separator, every `/` becomes it; the output holds no character that was not in the input or the separator |
| Helpers.OtherSep | pkg/util/helpers.go:11-14 | the separator replaced is one character and differs from the target separator |
| Helpers.ReplaceSepRemovesOther | pkg/util/helpers.go:10-17 | for `/` or `\`, the result contains no occurrence of the other separator |
| Helpers.ReplaceSepIdempotent | pkg/util/helpers.go:10-17 | for `/` or `\`, rewriting twice equals rewriting once |
| Helpers.IsExcluded | pkg/util/helpers.go:19-35 | true iff some pattern in the list is well-formed and matches the base name (so an empty list gives false) |
| Helpers.MalformedSkipped | pkg/util/helpers.go:21-27 | a malformed pattern is skipped: adding it in front changes nothing |
| Helpers.ExcludedMonotone | pkg/util/helpers.go:19-35 | a name excluded by some patterns stays excluded when more patterns come before or after them |
| Glob.LiteralPattern | pkg/util/helpers.go:21 | a pattern without meta characters matches exactly the name equal to it |
| Glob.LiteralPrefix | pkg/util/helpers.go:21 | a literal prefix does not change whether a pattern is well-formed |
| Glob.StarPattern | pkg/util/helpers.go:21 | `*` matches exactly the names without a separator |
| Glob.QuestionPattern | pkg/util/helpers.go:21 | `?` matches exactly the one-character names other than the separator |
| Glob.StarMatchesSegment | pkg/util/helpers.go:21 | a lone star token matches a name iff it holds no separator |
| Glob.StarFreeLength | pkg/util/helpers.go:21 | a pattern without `*` matches only names with one character per token |
| LocalFiles.PathExists | pkg/util/file.go:25-37 | true iff the stat succeeds; both "does not exist" and any other stat error give false; the empty path never exists |
| LocalFiles.IsDirectory | pkg/util/file.go:11-23 | true iff the stat succeeds and the node is a directory; false for the empty path |
| LocalFiles.Scanned | pkg/util/file.go:39-68 | the definition the scan is proved equal to: a pattern Glob rejects is an error; otherwise the selected entries of the directory, in Glob's order, less the excluded ones, each file as itself and each directory as its own scan, or itself when that scan is empty |
| LocalFiles.ScannedEntries | pkg/util/file.go:46-67 | the loop's part of that definition over a run of entries, failing at the first failing scan below |
| LocalFiles.Scan | pkg/util/file.go:39-68 | for a path and a directory tree whose names hold no glob meta characters, listed in the sorted order Glob returns, the loop over the glob's matches returns the recursive scan definition |
| LocalFiles.GlobLiteral | pkg/util/file.go:41 | `filepath.Glob` of a pattern without meta characters: the pattern itself when Lstat finds it |
| LocalFiles.ScanDescentAsWritten | pkg/util/file.go:40-53 | the directory Scan calls itself on next for a pattern without meta characters, as written |
| LocalFiles.ScanDotDescends | pkg/util/file.go:40-53 | as written, the pattern `.` on a directory makes Scan call itself on `path/.`, the same directory under a path one `/.` longer, which meets the same conditions again, so the scan never reaches the directory's entries |
| LocalFiles.ScannedSingle | pkg/util/file.go:47-65 | one match: dropped when its base is excluded; a file gives its own path; a directory gives its own scan, or itself when that scan is empty |
| LocalFiles.ScanStep | pkg/util/file.go:47-65 | appending one match's result and then the rest's equals appending the whole rest (the loop's step) |
| LocalFiles.ScanFailsIffMalformed | pkg/util/file.go:40-44 | the scan fails iff the pattern is malformed |
| LocalFiles.ScanEntriesSucceed | pkg/util/file.go:46-67 | with a well-formed pattern every level of the scan succeeds |
| LocalFiles.ScanResultsSelected | pkg/util/file.go:41-64 | every returned path has a base name that matches the pattern and is not excluded |
| LocalFiles.ScanSkipsUnselected | pkg/util/file.go:41-52 | entries that do not match the pattern contribute nothing, and a directory that does not match is not entered |
| LocalFiles.EmptyDirListsItself | pkg/util/file.go:52-61 | a matched directory whose own scan is empty is listed itself |
| LocalFiles.BaseOfGlobPath | pkg/util/file.go:48 | the base of a globbed path is the entry's own name |
| RemoteFiles.RemotePathExists | pkg/util/remote.go:26-37 | an error iff the stat fails for a reason other than "does not exist"; otherwise true iff the path exists; the empty path gives false |
| RemoteFiles.RemoteIsDirectory | pkg/util/remote.go:13-24 | the same errors as RemotePathExists; otherwise true iff the path is a directory |
| RemoteFiles.MkdirAllParts | pkg/util/remote.go:41-47 | there is always at least one part to visit |
| RemoteFiles.MkdirAllFrom | pkg/util/remote.go:50-64 | the loop never changes an existing node, and every node it adds is a directory with the host's default mode and clock |
| RemoteFiles.RemoteMkdirAll | pkg/util/remote.go:39-67 | the method leaves the local host alone and changes the remote host as the prefix walk describes |
| RemoteFiles.MkdirAllMakesPrefixes | pkg/util/remote.go:51-64 | on success, every visited prefix other than the root and "." exists |
| RemoteFiles.MkdirAllIdempotent | pkg/util/remote.go:51-64 | a second run over the same path succeeds and changes nothing, so it makes no directory |
| RemoteFiles.MkdirAllAbsolute | pkg/util/remote.go:39-67 | for `/a/b/c`, success means `/a`, `/a/b` and `/a/b/c` all exist |
| RemoteFiles.AbsoluteParts | pkg/util/remote.go:44-47 | an absolute path splits into the root marker followed by its names |
| RemoteFiles.ReplaceSepKeeps | pkg/util/remote.go:41 | a path without backslashes is not changed by the separator rewrite |
| RemoteFiles.Compiled | pkg/util/remote.go:70-79 | the translated pattern (`.` to `\.`, `*` to `.*`, `?` to `.`) always compiles, to the token list read off the pattern |
| RemoteFiles.RegexOfPieces | pkg/util/remote.go:70-72 | the three replacements together rewrite each pattern character on its own |
| RemoteFiles.RegexTokensOfPieces | pkg/util/remote.go:70-76 | the rewritten pattern reads back as one regex token per pattern character |
| RemoteFiles.SelectsWithin | pkg/util/remote.go:99 | the search is unanchored: a selected name stays selected with any text around it |
| RemoteFiles.LiteralSelects | pkg/util/remote.go:99 | a pattern without `*` and `?` selects a name iff it occurs inside the name |
| RemoteFiles.WholeMatchAgrees | pkg/util/remote.go:99 | on a name without `/` or newline, a whole-name regex match agrees with glob matching of the same pattern |
| RemoteFiles.GlobMatchSelects | pkg/util/remote.go:93-99 | every name the glob pattern matches is also selected by the regex |
| RemoteFiles.RemoteScanned | pkg/util/remote.go:69-117 | the definition the remote scan is proved equal to: an unreadable directory is an error; excluded names are dropped; every directory is scanned, and reported itself when its scan is empty; a file is kept when the expression finds a match in its name |
| RemoteFiles.RemoteScannedEntries | pkg/util/remote.go:88-113 | the loop's part of that definition over a run of entries, failing at the first failing scan below |
| RemoteFiles.RemoteScan | pkg/util/remote.go:69-117 | the loop over the directory entries returns the recursive scan definition |
| RemoteFiles.RemoteScannedSingle | pkg/util/remote.go:88-113 | one entry: dropped when excluded; a directory gives its own scan, or itself when that is empty; a file is kept iff the regex selects it |
| RemoteFiles.RemoteScanStep | pkg/util/remote.go:88-113 | appending one entry's result and then the rest's equals appending the whole rest (the loop's step) |
| RemoteFiles.RemoteScanFailsIff | pkg/util/remote.go:82-109 | the scan fails iff it reaches an unreadable directory through entries that are not excluded |
| RemoteFiles.RemoteResultsNotExcluded | pkg/util/remote.go:93-95 | no returned path has an excluded base name |
| RemoteFiles.EntryIncluded | pkg/util/remote.go:101-108 | everything one entry contributes appears in the scan of the whole directory |
| RemoteFiles.SelectedFileReturned | pkg/util/remote.go:110-112 | a selected, not excluded file is returned |
| RemoteFiles.DescendsIntoEveryDir | pkg/util/remote.go:99-109 | every directory is descended into, whether its name matches or not, so a selected file inside it is returned |
| FileSystem.MkdirAll | pkg/transport/download.go:129 | `os.MkdirAll` of a path: on success the path is not empty and a directory is at its key; the empty path fails and changes nothing; nothing existing changes; what it adds is a directory on the way to the path with the given mode |
| FileSystem.MkdirAllKey | pkg/transport/download.go:50 | `os.MkdirAll`: on success a directory is at the key; nothing existing changes; what it adds is a directory on the way to the key with the given mode |
| FileSystem.CopyAttributes | pkg/transport/download.go:149-159 | only the target changes; if the stat succeeded and Chtimes and Chmod work, the target gets the stated mode and mtime; otherwise nothing changes; file contents are kept |
| FileSystem.CopyInto | pkg/transport/download.go:133-159 | on success the target is a file holding exactly the copied bytes, and only the target changed; the source's mode and mtime are applied when its stat succeeded, else the mtime is the host's clock |
| FileSystem.AttributesOwnValues | pkg/transport/upload.go:134-144 | setting a node's own mtime and mode back on it changes nothing |
| FileSystem.Chain | pkg/transport/download.go:71-77 | the names from the walk root to an entry are simple names, and empty exactly for the root |
| FileSystem.WalkPathOfChain | pkg/transport/download.go:77 | the path the walker reports is the root joined with the entry's chain of names |
| FileSystem.ChainInjective | pkg/transport/download.go:71-77 | two walk entries with the same chain are the same entry |
| FileSystem.RunStep | pkg/transport/download.go:72-117 | the walk loop stops at the first failing step and otherwise goes on from the new state |
| FileSystem.RunKeeps | pkg/transport/download.go:72-117 | a node that no step changes is still there, unchanged, after the loop |
| FileSystem.RunLasts | pkg/transport/download.go:72-117 | in a successful loop, each step succeeded, and what it left at a key that no later step changes is in the final state |
| Download.IsMatched | pkg/transport/download.go:164-184 | true iff some non-empty `/`-segment of the path is matched by some well-formed pattern |
| Download.AnySegmentExcluded | pkg/transport/download.go:169-181 | the nested loops over segments and patterns compute the same test |
| Download.CreateLocalDirEffect | pkg/transport/download.go:43-58 | a failed remote stat changes nothing; success means a local directory is there, with the remote mtime unless Chtimes fails and the remote mode if it was created; only that path changes |
| Download.DownloadFileEffect | pkg/transport/download.go:122-162 | an unopenable remote file changes nothing; success means the local file holds the remote bytes, with the remote mode and mtime unless they cannot be set; only the target changes |
| Download.DownloadVisitEffect | pkg/transport/download.go:77-116 | the definition of one loop step: an excluded entry changes nothing; the walked directory must be or becomes a local directory; a directory below it is created and a file downloaded at its relative place below the local root; a failed remote stat is an error |
| Download.DownloadRemoteDirEffect | pkg/transport/download.go:60-120 | the loop's steps in order from the old local host, stopping at the first error, then the walker's own error |
| Download.DownloadEffect | pkg/transport/download.go:16-41 | the definition of Download: a failed remote stat is an error; a directory is walked; a file goes to the local path, or into it when that is a directory; a failed local stat is an error |
| Download.CreateLocalDir | pkg/transport/download.go:43-58 | the method leaves the remote host alone and changes the local host as CreateLocalDirEffect says |
| Download.DownloadRemoteFile | pkg/transport/download.go:122-162 | the method changes the local host as DownloadFileEffect says |
| Download.DownloadVisit | pkg/transport/download.go:77-116 | one walker entry: skipped if excluded; the root is checked or created; anything else goes to its relative place below the local root |
| Download.DownloadEntry | pkg/transport/download.go:72-117 | one loop step through the method agrees with the loop's definition |
| Download.DownloadRemoteDir | pkg/transport/download.go:60-120 | the walk loop changes the local host as the step-by-step definition says, stopping at the first error |
| Download.Download | pkg/transport/download.go:16-41 | a directory is walked; a file goes to the local path, or into it when that is a directory; a stat error aborts |
| Download.RootNotADirectory | pkg/transport/download.go:87-91 | a local root that exists but is not a directory fails the walk before any write |
| Download.DownloadDirToEmptyPath | pkg/transport/download.go:60-97 | a remote directory downloaded to "": the local root does not exist, making it fails, and the download fails with the local host unchanged |
| Download.DownloadFileToEmptyPath | pkg/transport/download.go:29-39 | a remote file downloaded to "": the local stat reports "does not exist", the file's create fails, and the local host is unchanged |
| Download.DownloadIntoDirectory | pkg/transport/download.go:30-39 | a remote file downloaded onto a local directory lands at that directory joined with the file's base name, with the remote bytes |
| Download.WalkSegments | pkg/transport/download.go:169 | the segments of a walked path are those of the root followed by the entry's chain |
| Download.ExcludedBelow | pkg/transport/download.go:78-80 | an excluded entry's descendants are all excluded too, so the whole subtree is skipped |
| Download.TargetKeyInjective | pkg/transport/download.go:104 | different walk entries go to different local paths |
| Download.EntryTarget | pkg/transport/download.go:82-104 | the relative path of a non-root entry is its chain of names, never ".", and the local target is the root joined with it |
| Download.VisitChangesTarget | pkg/transport/download.go:77-116 | a loop step changes at most its own local target |
| Download.VisitMaterialisesTarget | pkg/transport/download.go:98-115 | a successful step for a not-excluded entry leaves a directory for a directory and a file with the remote bytes for a file |
| Download.VisitTargetKey | pkg/transport/download.go:82-104 | the target of the walk's i-th entry is the local root joined with its chain |
| Download.VisitChangesOnly | pkg/transport/download.go:77-116 | the walk's i-th step changes at most its own target |
| Download.VisitMaterialises | pkg/transport/download.go:98-115 | the walk's i-th step, if successful and not excluded, materialises its entry |
| Download.LaterStepsKeep | pkg/transport/download.go:72-117 | no later step changes an earlier entry's target |
| Download.DownloadMaterialises | pkg/transport/download.go:60-120 | after a successful directory download, every entry not excluded is at its place below the local root, as a directory or with the remote bytes |
| Upload.AttributesAsWritten | pkg/transport/upload.go:134-144 | as written, the attribute step stats, Chtimes and Chmods the local path on the remote host, and so never changes the remote host |
| Upload.AsWrittenLeavesWriteTime | pkg/transport/upload.go:134-144 | as written, the uploaded file keeps the remote clock as its mtime, not the local file's |
| Upload.UploadCopyEffect | pkg/transport/upload.go:107-132 | opening the local file, making the remote parents and copying: an unopenable local file changes nothing; success leaves the local bytes in a remote file at the path; only that path changes |
| Upload.UploadFileAsWritten | pkg/transport/upload.go:107-147 | `uploadLocalFile` as written: an unopenable local file changes nothing; success leaves the local bytes in a remote file at the path rewritten with the remote separator; only that path changes |
| Upload.UploadFileEffect | pkg/transport/upload.go:107-147 | the corrected upload of one file: as UploadFileAsWritten, and in addition the remote file gets the local mode and mtime when the local stat succeeds and the attributes can be set |
| Upload.UploadLocalFile | pkg/transport/upload.go:107-147 | the method leaves the local host alone and changes the remote host as UploadFileAsWritten says, the attribute calls going to the local path on the remote host |
| Upload.UploadVisitEffect | pkg/transport/upload.go:57-100 | the definition of one walk callback: a failed local stat ends the walk; an excluded entry changes nothing; the walked directory must be or becomes a remote directory; a directory below it is made remotely; a file is uploaded as written |
| Upload.UploadLocalDirEffect | pkg/transport/upload.go:45-105 | the walk's callbacks in order from the old remote host, stopping at the first error, then the walker's own error |
| Upload.UploadEffect | pkg/transport/upload.go:15-43 | the definition of Upload: a failed local stat is an error; a directory is walked; a file is uploaded as written to the remote path, or into it when that is a directory |
| Upload.UploadVisit | pkg/transport/upload.go:57-100 | one walk callback changes the remote host as UploadVisitEffect says: skipped if excluded; the remote root is checked or created; anything else goes to its relative place below the remote root, a file through the as-written upload |
| Upload.UploadEntry | pkg/transport/upload.go:57-102 | one walk step through the method agrees with the walk's definition, built on the as-written file upload |
| Upload.UploadLocalDir | pkg/transport/upload.go:45-105 | the walk changes the remote host as UploadLocalDirEffect says, stopping at the first error |
| Upload.Upload | pkg/transport/upload.go:15-43 | the method changes the remote host as UploadEffect says: a directory is walked (`.` replaced by the working directory); a file is uploaded as written to the remote path, or into it when that is a directory; a stat error aborts |
| Upload.UploadVisitChangesTarget | pkg/transport/upload.go:57-100 | a walk step changes at most its own remote target |
| Upload.UploadVisitUploads | pkg/transport/upload.go:85-97 | a successful step for a not-excluded local file leaves a remote file with its bytes at the target |
| Upload.UploadRootNotADirectory | pkg/transport/upload.go:72-84 | a remote root that exists but is not a directory fails the walk before any write |
| Upload.UploadFromEmptyPath | pkg/transport/upload.go:22-25 | uploading "" fails with a stat error and leaves the remote host unchanged |
| Upload.UploadDirFromEmptyPath | pkg/transport/upload.go:57-60 | walking "" fails at the walk function's first call, with the remote host unchanged |
| Upload.UploadCwdUnknown | pkg/transport/upload.go:27-31 | uploading "." when `os.Getwd` gives "" walks "", which fails at once with the remote host unchanged |
| Upload.UploadIntoDirectory | pkg/transport/upload.go:33-41 | a local file uploaded onto a remote directory lands at that directory joined with the file's base name, with the local bytes |
| Upload.UploadTargetKey | pkg/transport/upload.go:86 | the target of the walk's i-th entry is the remote root joined with its chain |
| Upload.UploadLaterStepsKeep | pkg/transport/upload.go:57-102 | no later step changes an earlier entry's remote target |
| Upload.UploadMaterialises | pkg/transport/upload.go:45-105 | after a successful directory upload, every local file not excluded is at its place below the remote root with its bytes |
| Conn.PortString | pkg/transport/conn.go:27-30 | the port text is all digits and reads back as 22 for port 0 and as the port otherwise |
| Conn.JoinHostPort | pkg/transport/conn.go:27-31 | `net.JoinHostPort`: a host with a colon goes in brackets, then a colon and the port |
| Conn.AddressRoundTrip | pkg/transport/conn.go:27-31 | `net.SplitHostPort` of the dial address gives back the host and the port text |
| Conn.ExpandPath | pkg/transport/conn.go:97-106 | `expandPath`: a leading `~` is replaced by joining the rest under the home directory, which fails without a home; other paths are returned as they are |
| Conn.ExpandUnderHome | pkg/transport/conn.go:97-106 | `~/a/b` expands to the home directory joined with `a/b` |
| Conn.ExpandOthers | pkg/transport/conn.go:97-106 | expansion fails iff the path starts with `~` and there is no home; a path without `~` is unchanged |
| Conn.ExpandPathExamples | pkg/transport/conn_test.go:24-38 | the three expansion cases of the tests |
| Conn.FindDefaultKey | pkg/transport/conn.go:109-124 | the early-return loop returns the default-key definition |
| Conn.FirstPresentIsFirst | pkg/transport/conn.go:112-119 | the search gives "" iff no entry is present, otherwise an entry that is present with none present before it |
| Conn.DefaultKeyIsFirst | pkg/transport/conn.go:109-124 | the default key is "" iff the OS is not linux, darwin or windows or no key file exists; otherwise it is the first existing key in the order ed25519, rsa, dsa, ecdsa, in its `~/` form |
| Conn.DefaultKeyLocation | pkg/transport/conn_test.go:78-82 | a default key `~/.ssh/name` expands to the file `name` in the home's `.ssh` directory |
| Conn.PresentAsTestFile | pkg/transport/conn_test.go:76-85 | a default key counts as present iff the file under the home's `.ssh` exists |
| Conn.DefaultKeyExamples | pkg/transport/conn_test.go:70-96 | with only `id_rsa` the key is `~/.ssh/id_rsa`; adding `id_ed25519` makes it `~/.ssh/id_ed25519` |
| Conn.SignerFromKeyFile | pkg/transport/conn.go:127-161 | `signerFromKeyFile`: a read error, a signer from the plain parse, or, when that parse reports an encrypted key, the passphrase read and the parse with it, each failure with its own error |
| Conn.SignerUsesPassphraseOnlyWhenAsked | pkg/transport/conn.go:127-161 | the passphrase matters only when the parser reports an encrypted key; a signer comes from the plain parse or the passphrase parse; a read error is returned |
| Conn.Connect | pkg/transport/conn.go:26-94 | the first dial offers the chosen key's method; success returns the client; another error returns without prompting; "unable to authenticate" prompts once and dials once more with the password only, whose failure is an error |
| Conn.OfferedKeys | pkg/transport/conn.go:33-50 | forcing a password offers no key; an empty key becomes the default key; a key method is offered iff expansion and signer both succeed |
| Text.Contains | pkg/transport/conn.go:62 | `strings.Contains` is true iff the text occurs at some position |
| Text.DecimalRoundTrip | pkg/transport/conn.go:29 | a number's decimal text reads back as the number |
| Text.Split | pkg/transport/download.go:169 | the parts contain no separator and join back to the input |
| Paths.CleanIdempotent | pkg/transport/download.go:104 | cleaning a cleaned path changes nothing |
| Paths.ParseJoinChain | pkg/transport/download.go:104 | joining a base with a relative chain of names appends the names to the base's cleaned elements |
| Paths.RelOfJoinChain | pkg/transport/download.go:82-86 | the relative path from a base to the base joined with names is those names |
| Paths.RelSelf | pkg/transport/download.go:82-87 | the relative path from a path to itself is "." |
| Paths.BaseOfJoinName | pkg/transport/upload.go:38 | the base of a directory joined with a name is the name |

## Left out

- The SSH protocol and the SSH library are not modelled. Key parsing and dialing are oracle functions, and their error texts are the only thing inspected.
- The terminal prompts are not modelled. Their answers (passphrase, password, or a read error) are inputs.
- `os.UserHomeDir`, `runtime.GOOS` and `os.Getwd` are inputs. A home lookup error, including an empty `$HOME`, is an absent home.
- Signers and clients are opaque identities.
- Host key checking is disabled in the source and absent here.
- RemoteScan (RemoteFiles.RemoteScan): requires a pattern whose translated regex is read by the model's token reader. That covers literal characters, `*`, `?` and `.`. Other regex syntax in a pattern is not modelled, because the general regex engine is not.
- Scan (LocalFiles.Scan): requires a pattern that is a single name other than "", "." and "..". A pattern with `/` makes `filepath.Glob` match several levels, and is not modelled. With the patterns "", "." and ".." the source recurses once per added `/.` (or `/`, or `/..`) until the path exceeds the operating system's path limit (see Findings).
- Scan (LocalFiles.Scan): requires a path and a directory tree whose names hold no glob meta character (`*`, `?`, `[`, `\`). `filepath.Glob` treats such a character in the directory part of `path/pattern` as a pattern too, so a directory named `a[1]` would be globbed as `a1` and one named `a*` would take in its siblings. The tree-shaped model has no siblings to match and does not capture this.
- Scan (LocalFiles.Scan): requires every directory's names to be listed in ascending order, the order `filepath.Glob` sorts them into. The sort itself is not modelled.
- Scan (LocalFiles.Scan): an `Unreadable` listing stands for a directory that can be neither listed nor searched. A directory that can be searched but not read, where `filepath.Glob` of a literal pattern still finds the entry by Lstat, is not modelled.
- Lookup (FileSystem.Lookup): a non-empty path is looked up by its lexically cleaned key, while the operating system resolves it one element at a time. So `f/.` and `f/` with `f` a file are found, where the OS reports ENOTDIR. `f/x` is "does not exist", where the OS reports ENOTDIR, which the source treats as another stat error. `x/../y` is `y` even when `x` is missing or a file.
- PathExists (LocalFiles.PathExists): true for `f/.` and `f/` with `f` a file, and for `x/../y` with `x` missing, where `os.Stat` fails (see Lookup).
- IsDirectory (LocalFiles.IsDirectory): true for `x/../d` with `d` a directory and `x` missing or a file, where `os.Stat` fails (see Lookup).
- MkdirAllKey (FileSystem.MkdirAllKey): works on the cleaned key. `os.MkdirAll("x/../y")` makes `x` as well as `y`, because its parent recursion runs over the string; the model makes only `y`.
- DownloadEffect (Download.DownloadEffect): a local path with `.` or `..` elements is resolved lexically (see Lookup). The paths the walker reports are joined and cleaned, so below the given roots the two resolutions agree.
- DownloadRemoteDirEffect (Download.DownloadRemoteDirEffect): a local directory with `.` or `..` elements is resolved lexically (see Lookup and MkdirAllKey).
- DownloadRemoteDir (Download.DownloadRemoteDir): as DownloadRemoteDirEffect, whose change it makes.
- Download (Download.Download): as DownloadEffect, whose change it makes.
- UploadLocalDirEffect (Upload.UploadLocalDirEffect): a local or remote directory with `.` or `..` elements is resolved lexically (see Lookup).
- UploadEffect (Upload.UploadEffect): a local or remote path with `.` or `..` elements is resolved lexically (see Lookup).
- UploadLocalDir (Upload.UploadLocalDir): as UploadLocalDirEffect, whose change it makes.
- Upload (Upload.Upload): as UploadEffect, whose change it makes.
- The file systems have no limit on path length. Paths are keys after cleaning, so `p/./.` and `p` are the same key, and the Lstat failure past the operating system's path limit cannot be expressed. This limit is what ends the source's recursion in the Scan finding.
- RemoteMkdirAll (RemoteFiles.RemoteMkdirAll): requires a one-character separator, as the tool always passes.
- UploadMaterialises (Upload.UploadMaterialises): is proved only for the `/` remote separator and names without backslashes. With other separators the rewrite changes the target path.
- Upload.UploadMaterialises: covers only files. That a walked local directory becomes a remote directory is not stated.
- The walker is an oracle list of entries, parent first. Whether it lists every node, and in which order, is not modelled.
- A walker error is reported after the listed entries instead of at the step where it occurs.
- `isMatched` rewrites the caller's pattern slice in place to slash form. On the `/` platform this rewrite is the identity, so it is not modelled.
- `filepath.ToSlash`, Windows volume names and a `Rel` result that climbs with `..` are not modelled.
- `io.Copy` is a whole-content assignment. Partial copies, `Sync`, closing handles, the umask and symbolic links are not modelled.
- Parent directories' modification times changing when a child is created are not modelled.
- A concurrent creation between the stat and the mkdir in `MkdirAll` is not modelled.
- Logging and progress output are left out.
- `cmd/scopy/main.go` is not part of this model. It covers command-line parsing, the choice of direction and building the SFTP client.
- `pkg/transport/helpers.go` (`ToSFTP`) is not part of this model.

## Findings

| source | as written | input that shows it | evidently intended | confidence | as-written member | corrected member |
|---|---|---|---|---|---|---|
| pkg/util/file.go:40-53 | the pattern is globbed under the path and every directory found is scanned again with the same pattern, with no guard against a pattern that names the directory itself | `Scan(p, ".", excludes)` on a directory `p`: `filepath.Glob("p/.")` returns `p/.`, which is the same directory, so Scan calls itself on `p/.`, then on `p/./.`, and so on. It recurses once per `/.` until the path exceeds the operating system's path limit (4096 bytes on Linux), where Lstat fails and Glob finds nothing. It then returns that one overlong path instead of p's entries, after about 2,000 nested calls | the pattern names entries inside the directory, so each scan goes one level deeper and the recursion ends at the leaves | high, not executed | LocalFiles.ScanDotDescends | LocalFiles.Scan |
| pkg/transport/upload.go:134-144 | after the copy, `client.Stat`, `client.Chtimes` and `client.Chmod` are called with `localPath` on the remote host, not with the uploaded remote path | uploading any local file whose modification time differs from the remote clock: the remote file keeps the remote clock as its mtime, and a remote file that already existed keeps its old mode | the local file's mtime and mode are copied onto the uploaded remote file, as the download does at pkg/transport/download.go:149-159 | high, not executed | Upload.AsWrittenLeavesWriteTime | Upload.UploadFileEffect |
