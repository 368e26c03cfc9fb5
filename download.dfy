/**
 * Downloading (pkg/transport/download.go): one remote file, or a remote
 * directory walked entry by entry into a local directory.  The walker is a
 * parameter: the sequence of entries the SFTP walker reports.
 */
module Download {
  import opened Wrappers
  import opened Text
  import opened Paths
  import opened Helpers
  import opened FileSystem
  import opened LocalFiles

  /** isMatched: some non-empty segment of the path is a name an exclude pattern matches. */
  function IsMatched(path: string, patterns: seq<string>): (b: bool)
    ensures b <==> SegmentExcluded(Split(path, Sep), patterns)
  {
    AnySegmentExcluded(Split(path, Sep), patterns)
  }

  predicate SegmentExcluded(segments: seq<string>, patterns: seq<string>)
  {
    exists i :: 0 <= i < |segments| && segments[i] != "" && IsExcluded(segments[i], patterns)
  }

  /** isMatched's loop over the segments, stopping at the first that is excluded. */
  function AnySegmentExcluded(segments: seq<string>, patterns: seq<string>): (b: bool)
    ensures b <==> SegmentExcluded(segments, patterns)
    decreases |segments|
  {
    if segments == [] then false
    else if segments[0] != "" && IsExcluded(segments[0], patterns) then true
    else
      var rest := AnySegmentExcluded(segments[1..], patterns);
      assert SegmentExcluded(segments[1..], patterns) ==> SegmentExcluded(segments, patterns) by {
        if SegmentExcluded(segments[1..], patterns) {
          var i :| 0 <= i < |segments[1..]| && segments[1..][i] != "" && IsExcluded(segments[1..][i], patterns);
          assert segments[i + 1] == segments[1..][i];
        }
      }
      assert SegmentExcluded(segments, patterns) ==> SegmentExcluded(segments[1..], patterns) by {
        if SegmentExcluded(segments, patterns) {
          var i :| 0 <= i < |segments| && segments[i] != "" && IsExcluded(segments[i], patterns);
          assert i > 0;
          assert segments[1..][i - 1] == segments[i];
        }
      }
      rest
  }

  /**
   * createLocalDir: stat the remote directory, make the local one (and its
   * parents) with the remote mode, then copy the remote modification time.
   */
  function CreateLocalDirEffect(local: Fs, remote: Fs, remoteDir: string, localDir: string): (r: (Fs, Outcome))
    ensures ChangesOnly(local, r.0, Key(localDir))
    ensures !Lookup(remote, remoteDir).Found? ==> r == (local, Fail(StatError(remoteDir)))
    ensures r.1 == Done ==> Lookup(remote, remoteDir).Found? && IsDirAt(r.0, Key(localDir))
    ensures r.1 == Done && (AttrOp, Key(localDir)) !in local.faults ==> r.0.nodes[Key(localDir)].mtime == Lookup(remote, remoteDir).node.mtime
    ensures r.1 == Done && Key(localDir) !in local.nodes ==> r.0.nodes[Key(localDir)].mode == Lookup(remote, remoteDir).node.mode
  {
    match Lookup(remote, remoteDir)
    case Found(n) =>
      var made := MkdirAll(local, localDir, n.mode);
      if !made.ok then (made.fs, Fail(MkdirError(localDir)))
      else (Chtimes(made.fs, localDir, n.mtime), Done)
    case _ => (local, Fail(StatError(remoteDir)))
  }

  /** The mode downloadRemoteFile gives the directories it makes for a file: 0o755. */
  const FileParentMode: int := 0x1ED

  /**
   * downloadRemoteFile: open the remote file, make the local parent
   * directories, then copy the file and its attributes.
   */
  function DownloadFileEffect(local: Fs, remote: Fs, remotePath: string, localPath: string): (r: (Fs, Outcome))
    ensures ChangesOnly(local, r.0, Key(localPath))
    ensures !CanOpen(remote, remotePath) ==> r == (local, Fail(OpenError(remotePath)))
    ensures r.1 == Done ==>
      && Read(remote, remotePath).Some?
      && Key(localPath) in r.0.nodes && r.0.nodes[Key(localPath)].File?
      && r.0.nodes[Key(localPath)].data == Read(remote, remotePath).value
    ensures r.1 == Done && Lookup(remote, remotePath).Found? && (AttrOp, Key(localPath)) !in local.faults ==>
      r.0.nodes[Key(localPath)].mode == Lookup(remote, remotePath).node.mode &&
      r.0.nodes[Key(localPath)].mtime == Lookup(remote, remotePath).node.mtime
  {
    if !CanOpen(remote, remotePath) then (local, Fail(OpenError(remotePath)))
    else
      var dirs := MkdirAll(local, Paths.Dir(localPath), FileParentMode);
      if !dirs.ok then (dirs.fs, Fail(MkdirError(Paths.Dir(localPath))))
      else CopyInto(dirs.fs, localPath, Read(remote, remotePath), Lookup(remote, remotePath))
  }

  /** The local directory a remote directory goes to: "." stands for the remote directory's own name. */
  function LocalRoot(localDir: string, remoteDir: string): string
  {
    if localDir == "." then Base(remoteDir) else localDir
  }

  /** What a successful download of an entry leaves at its local key. */
  predicate Materialised(local: Fs, remote: Fs, remotePath: string, k: PathValue)
  {
    && Lookup(remote, remotePath).Found?
    && k in local.nodes
    && (Lookup(remote, remotePath).node.Dir? ==> local.nodes[k].Dir?)
    && (Lookup(remote, remotePath).node.File? ==> local.nodes[k].File? && local.nodes[k].data == Lookup(remote, remotePath).node.data)
  }

  /** The local key the step for the entry at `path` writes: the local root for the walked directory itself, the root joined with the relative path below it. */
  function VisitTarget(remoteDir: string, localRoot: string, path: string): PathValue
  {
    match Rel(remoteDir, path)
    case Some(rel) => if rel == "." then Key(localRoot) else Key(Join(localRoot, rel))
    case None => Key(localRoot)
  }

  /** One step of downloadRemoteDir's loop, for the entry the walker reports at `path`. */
  function DownloadVisitEffect(local: Fs, remote: Fs, remoteDir: string, localRoot: string, excludes: seq<string>, path: string): (r: (Fs, Outcome))
  {
    if IsMatched(path, excludes) then (local, Done)
    else
      match Rel(remoteDir, path)
      case None => (local, Fail(RelError(path)))
      case Some(rel) =>
        if rel == "." then
          if PathExists(local, localRoot) then
            (local, if IsDirectory(local, localRoot) then Done else Fail(NotADirectory(localRoot)))
          else CreateLocalDirEffect(local, remote, path, localRoot)
        else
          match Lookup(remote, path)
          case Found(n) =>
            var localPath := Join(localRoot, rel);
            if n.Dir? then CreateLocalDirEffect(local, remote, path, localPath)
            else DownloadFileEffect(local, remote, path, localPath)
          case _ => (local, Fail(StatError(path)))
  }

  /** downloadRemoteDir's loop body as a step on the local host, for the walk's i-th entry. */
  function VisitStep(remote: Fs, remoteDir: string, localRoot: string, excludes: seq<string>, w: Walk): (Fs, nat) -> (Fs, Outcome)
  {
    (fs: Fs, i: nat) =>
      if ValidWalk(w) && i < |w.visits| then DownloadVisitEffect(fs, remote, remoteDir, localRoot, excludes, WalkPath(remoteDir, w, i))
      else (fs, Done)
  }

  /** The outcome of a walk whose every entry was handled: the walker's own error, if it reported one. */
  function WalkEnd(w: Walk, root: string): Outcome
  {
    if w.failed then Fail(WalkError(root)) else Done
  }

  /** downloadRemoteDir: the walker's entries in order, stopping at the first error. */
  function DownloadRemoteDirEffect(local: Fs, remote: Fs, remoteDir: string, localDir: string, excludes: seq<string>, w: Walk): (Fs, Outcome)
  {
    RunSteps(local, VisitStep(remote, remoteDir, LocalRoot(localDir, remoteDir), excludes, w), |w.visits|, 0, WalkEnd(w, remoteDir))
  }

  /**
   * Download: a remote directory is downloaded by walking it; a remote file
   * goes to the local path, or into it when that is a directory.
   */
  function DownloadEffect(local: Fs, remote: Fs, remotePath: string, localPath: string, excludes: seq<string>, w: Walk): (Fs, Outcome)
    requires ValidWalk(w)
  {
    match Lookup(remote, remotePath)
    case Found(n) =>
      if n.Dir? then DownloadRemoteDirEffect(local, remote, remotePath, localPath, excludes, w)
      else
        (match Lookup(local, localPath)
         case Failed => (local, Fail(StatError(localPath)))
         case Missing => DownloadFileEffect(local, remote, remotePath, localPath)
         case Found(m) =>
           DownloadFileEffect(local, remote, remotePath, if m.Dir? then Join(localPath, Base(remotePath)) else localPath))
    case _ => (local, Fail(StatError(remotePath)))
  }

  // ---------------------------------------------------------------------------
  // The operations on the session's hosts; the remote host is only read.

  method CreateLocalDir(hosts: Hosts, remoteDir: string, localDir: string) returns (out: Outcome)
    modifies hosts
    ensures hosts.remote == old(hosts.remote)
    ensures (hosts.local, out) == CreateLocalDirEffect(old(hosts.local), hosts.remote, remoteDir, localDir)
  {
    var remoteStat := Lookup(hosts.remote, remoteDir);
    if !remoteStat.Found? {
      return Fail(StatError(remoteDir));
    }
    var made := MkdirAll(hosts.local, localDir, remoteStat.node.mode);
    hosts.local := made.fs;
    if !made.ok {
      return Fail(MkdirError(localDir));
    }
    hosts.local := Chtimes(hosts.local, localDir, remoteStat.node.mtime);
    return Done;
  }

  method DownloadRemoteFile(hosts: Hosts, remotePath: string, localPath: string) returns (out: Outcome)
    modifies hosts
    ensures hosts.remote == old(hosts.remote)
    ensures (hosts.local, out) == DownloadFileEffect(old(hosts.local), hosts.remote, remotePath, localPath)
  {
    if !CanOpen(hosts.remote, remotePath) {
      return Fail(OpenError(remotePath));
    }
    var dirs := MkdirAll(hosts.local, Paths.Dir(localPath), FileParentMode);
    hosts.local := dirs.fs;
    if !dirs.ok {
      return Fail(MkdirError(Paths.Dir(localPath)));
    }
    var created := Create(hosts.local, localPath);
    if !created.ok {
      return Fail(CreateError(localPath));
    }
    hosts.local := created.fs;
    var data := Read(hosts.remote, remotePath);
    if data.None? {
      return Fail(CopyError(localPath));
    }
    var written := Write(hosts.local, localPath, data.value);
    if !written.ok {
      return Fail(CopyError(localPath));
    }
    hosts.local := written.fs;
    var remoteStat := Lookup(hosts.remote, remotePath);
    if remoteStat.Found? {
      hosts.local := Chtimes(hosts.local, localPath, remoteStat.node.mtime);
      hosts.local := Chmod(hosts.local, localPath, remoteStat.node.mode);
    }
    return Done;
  }

  /** The body of downloadRemoteDir's loop for one entry. */
  method DownloadVisit(hosts: Hosts, remoteDir: string, localRoot: string, excludes: seq<string>, remotePath: string) returns (out: Outcome)
    modifies hosts
    ensures hosts.remote == old(hosts.remote)
    ensures (hosts.local, out) == DownloadVisitEffect(old(hosts.local), hosts.remote, remoteDir, localRoot, excludes, remotePath)
  {
    if IsMatched(remotePath, excludes) {
      return Done;
    }
    var relPath := Rel(remoteDir, remotePath);
    if relPath.None? {
      return Fail(RelError(remotePath));
    }
    if relPath.value == "." {
      if PathExists(hosts.local, localRoot) {
        if !IsDirectory(hosts.local, localRoot) {
          return Fail(NotADirectory(localRoot));
        }
        return Done;
      }
      out := CreateLocalDir(hosts, remotePath, localRoot);
      return;
    }
    var remoteStat := Lookup(hosts.remote, remotePath);
    if !remoteStat.Found? {
      return Fail(StatError(remotePath));
    }
    var localPath := Join(localRoot, relPath.value);
    if remoteStat.node.Dir? {
      out := CreateLocalDir(hosts, remotePath, localPath);
    } else {
      out := DownloadRemoteFile(hosts, remotePath, localPath);
    }
  }

  /**
   * The body of downloadRemoteDir's loop for the walk's k-th entry: the
   * loop's outcome from the k-th entry on is this step's failure, or the
   * outcome from the next entry on.
   */
  method DownloadEntry(hosts: Hosts, remoteDir: string, localRoot: string, excludes: seq<string>, w: Walk, k: nat,
                       ghost step: (Fs, nat) -> (Fs, Outcome)) returns (out: Outcome)
    requires ValidWalk(w) && k < |w.visits|
    requires step == VisitStep(hosts.remote, remoteDir, localRoot, excludes, w)
    modifies hosts
    ensures hosts.remote == old(hosts.remote)
    ensures RunSteps(old(hosts.local), step, |w.visits|, k, WalkEnd(w, remoteDir))
      == if out.Fail? then (hosts.local, out) else RunSteps(hosts.local, step, |w.visits|, k + 1, WalkEnd(w, remoteDir))
  {
    out := DownloadVisit(hosts, remoteDir, localRoot, excludes, WalkPath(remoteDir, w, k));
    RunStep(old(hosts.local), step, |w.visits|, k, WalkEnd(w, remoteDir));
  }

  /** downloadRemoteDir: the walker's entries in order, stopping at the first error. */
  method DownloadRemoteDir(hosts: Hosts, remoteDir: string, localDir: string, excludes: seq<string>, w: Walk) returns (out: Outcome)
    requires ValidWalk(w)
    modifies hosts
    ensures hosts.remote == old(hosts.remote)
    ensures (hosts.local, out) == DownloadRemoteDirEffect(old(hosts.local), hosts.remote, remoteDir, localDir, excludes, w)
  {
    var localRoot := LocalRoot(localDir, remoteDir);
    ghost var remote := hosts.remote;
    ghost var step := VisitStep(remote, remoteDir, localRoot, excludes, w);
    ghost var result := RunSteps(hosts.local, step, |w.visits|, 0, WalkEnd(w, remoteDir));
    var k := 0;
    while k < |w.visits|
      invariant 0 <= k <= |w.visits|
      invariant hosts.remote == remote
      invariant result == RunSteps(hosts.local, step, |w.visits|, k, WalkEnd(w, remoteDir))
    {
      out := DownloadEntry(hosts, remoteDir, localRoot, excludes, w, k, step);
      if out.Fail? {
        return;
      }
      k := k + 1;
    }
    if w.failed {
      return Fail(WalkError(remoteDir));
    }
    return Done;
  }

  method Download(hosts: Hosts, remotePath: string, localPath: string, excludes: seq<string>, w: Walk) returns (out: Outcome)
    requires ValidWalk(w)
    modifies hosts
    ensures hosts.remote == old(hosts.remote)
    ensures (hosts.local, out) == DownloadEffect(old(hosts.local), hosts.remote, remotePath, localPath, excludes, w)
  {
    var remoteInfo := Lookup(hosts.remote, remotePath);
    if !remoteInfo.Found? {
      return Fail(StatError(remotePath));
    }
    if remoteInfo.node.Dir? {
      out := DownloadRemoteDir(hosts, remotePath, localPath, excludes, w);
      return;
    }
    var target := localPath;
    var localInfo := Lookup(hosts.local, localPath);
    if localInfo.Failed? {
      return Fail(StatError(localPath));
    }
    if localInfo.Found? && localInfo.node.Dir? {
      target := Join(localPath, Base(remotePath));
    }
    out := DownloadRemoteFile(hosts, remotePath, target);
  }

  // ---------------------------------------------------------------------------
  // Properties of a directory download.

  /** A local root that exists but is not a directory stops the download before anything is written. */
  lemma RootNotADirectory(local: Fs, remote: Fs, remoteDir: string, localDir: string, excludes: seq<string>, w: Walk)
    requires ValidWalk(w) && |w.visits| >= 1
    requires !IsMatched(remoteDir, excludes)
    requires PathExists(local, LocalRoot(localDir, remoteDir)) && !IsDirectory(local, LocalRoot(localDir, remoteDir))
    ensures DownloadRemoteDirEffect(local, remote, remoteDir, localDir, excludes, w) == (local, Fail(NotADirectory(LocalRoot(localDir, remoteDir))))
  {
    RelSelf(remoteDir);
    assert WalkPath(remoteDir, w, 0) == remoteDir;
  }

  /**
   * A remote directory downloaded to the empty local path: the walked
   * directory's local root "" does not exist and cannot be made, so the
   * download stops at its first entry with nothing written.
   */
  lemma DownloadDirToEmptyPath(local: Fs, remote: Fs, remoteDir: string, excludes: seq<string>, w: Walk)
    requires ValidWalk(w) && |w.visits| >= 1
    requires Lookup(remote, remoteDir).Found? && Lookup(remote, remoteDir).node.Dir?
    requires !IsMatched(remoteDir, excludes)
    ensures DownloadEffect(local, remote, remoteDir, "", excludes, w) == (local, Fail(MkdirError("")))
  {
    RelSelf(remoteDir);
    assert WalkPath(remoteDir, w, 0) == remoteDir;
  }

  /**
   * A remote file downloaded to the empty local path: its stat reports that
   * "" does not exist, so the file is copied to "" itself, and creating it
   * fails; nothing is written.
   */
  lemma DownloadFileToEmptyPath(local: Fs, remote: Fs, remotePath: string, excludes: seq<string>, w: Walk)
    requires ValidWalk(w)
    requires Lookup(remote, remotePath).Found? && Lookup(remote, remotePath).node.File?
    ensures DownloadEffect(local, remote, remotePath, "", excludes, w).0 == local
    ensures DownloadEffect(local, remote, remotePath, "", excludes, w).1.Fail?
  {
    assert Lookup(local, "") == Missing;
    assert DownloadEffect(local, remote, remotePath, "", excludes, w) == DownloadFileEffect(local, remote, remotePath, "");
    if CanOpen(remote, remotePath) {
      DirOfEmpty();
      MkdirAllDot(local, FileParentMode);
      var dirs := MkdirAll(local, ".", FileParentMode);
      assert dirs.fs == local;
      assert !Create(local, "").ok;
      assert CopyInto(local, "", Read(remote, remotePath), Lookup(remote, remotePath)) == (local, Fail(CreateError("")));
    }
  }

  /** A remote file downloaded into an existing local directory lands there under its own base name, with the remote bytes. */
  lemma DownloadIntoDirectory(local: Fs, remote: Fs, remotePath: string, localPath: string, excludes: seq<string>, w: Walk)
    requires ValidWalk(w)
    requires Lookup(remote, remotePath).Found? && Lookup(remote, remotePath).node.File?
    requires Lookup(local, localPath).Found? && Lookup(local, localPath).node.Dir?
    requires DownloadEffect(local, remote, remotePath, localPath, excludes, w).1 == Done
    ensures Materialised(DownloadEffect(local, remote, remotePath, localPath, excludes, w).0, remote, remotePath,
                         Key(Join(localPath, Base(remotePath))))
  {
  }

  /** The path a walk entry below the root is rendered from: the root's elements and the entry's chain of names. */
  lemma WalkSegments(root: string, w: Walk, i: nat)
    requires ValidWalk(w) && 0 < i < |w.visits|
    ensures Split(WalkPath(root, w, i), Sep) == (if IsRooted(root) then [""] else []) + Parse(root).elems + Chain(w, i)
  {
    WalkPathOfChain(root, w, i);
    ParseIsClean(root);
    CleanAppendSimple(IsRooted(root), Parse(root).elems, Chain(w, i));
    RenderSegments(IsRooted(root), Parse(root).elems + Chain(w, i));
    var pre: seq<string> := if IsRooted(root) then [""] else [];
    assert pre + (Parse(root).elems + Chain(w, i)) == pre + Parse(root).elems + Chain(w, i);
  }

  /**
   * An excluded directory is still walked, but everything below it is
   * excluded as well: its name is a segment of every path under it.
   */
  lemma ExcludedBelow(root: string, w: Walk, excludes: seq<string>, i: nat, j: nat)
    requires ValidWalk(w) && 0 < i < |w.visits| && j < |w.visits|
    requires |Chain(w, i)| <= |Chain(w, j)| && Chain(w, j)[..|Chain(w, i)|] == Chain(w, i)
    requires IsMatched(WalkPath(root, w, i), excludes)
    ensures IsMatched(WalkPath(root, w, j), excludes)
  {
    assert j > 0;
    WalkSegments(root, w, i);
    WalkSegments(root, w, j);
    var si := Split(WalkPath(root, w, i), Sep);
    var sj := Split(WalkPath(root, w, j), Sep);
    var t :| 0 <= t < |si| && si[t] != "" && IsExcluded(si[t], excludes);
    assert sj[t] == si[t];
  }

  /** The local key a walk entry is downloaded to: the local root's elements and the entry's chain of names. */
  function TargetKey(localRoot: string, w: Walk, i: nat): PathValue
    requires ValidWalk(w) && i < |w.visits|
  {
    PathValue(IsRooted(localRoot), Parse(localRoot).elems + Chain(w, i))
  }

  lemma TargetKeyInjective(localRoot: string, w: Walk, i: nat, j: nat)
    requires ValidWalk(w) && i < |w.visits| && j < |w.visits| && i != j
    ensures TargetKey(localRoot, w, i) != TargetKey(localRoot, w, j)
  {
    var e := Parse(localRoot).elems;
    if TargetKey(localRoot, w, i) == TargetKey(localRoot, w, j) {
      assert (e + Chain(w, i))[|e|..] == Chain(w, i);
      assert (e + Chain(w, j))[|e|..] == Chain(w, j);
      ChainInjective(w, i, j);
    }
  }

  /** For an entry below the root, Rel gives its chain of names, and the local path it goes to has the target key. */
  lemma EntryTarget(remoteDir: string, localRoot: string, w: Walk, i: nat)
    requires ValidWalk(w) && 0 < i < |w.visits|
    ensures Rel(remoteDir, WalkPath(remoteDir, w, i)) == Some(JoinWith(Chain(w, i), Sep))
    ensures JoinWith(Chain(w, i), Sep) != "."
    ensures Key(Join(localRoot, JoinWith(Chain(w, i), Sep))) == TargetKey(localRoot, w, i)
  {
    var c := Chain(w, i);
    var b := Parse(remoteDir);
    WalkPathOfChain(remoteDir, w, i);
    assert (b.elems + c)[..|b.elems|] == b.elems;
    assert (b.elems + c)[|b.elems|..] == c;
    SplitJoin(c, Sep);
    SplitNoSep(".", Sep);
    ParseJoinChain(localRoot, c);
  }

  /** One step touches no existing local node but the one at the key it targets. */
  lemma VisitChangesTarget(local: Fs, remote: Fs, remoteDir: string, localRoot: string, excludes: seq<string>, path: string)
    ensures ChangesOnly(local, DownloadVisitEffect(local, remote, remoteDir, localRoot, excludes, path).0, VisitTarget(remoteDir, localRoot, path))
  {
    if !IsMatched(path, excludes) && Rel(remoteDir, path).Some? {
      var rel := Rel(remoteDir, path).value;
      if rel == "." {
        assert VisitTarget(remoteDir, localRoot, path) == Key(localRoot);
      } else if Lookup(remote, path).Found? {
        assert VisitTarget(remoteDir, localRoot, path) == Key(Join(localRoot, rel));
      }
    }
  }

  /** A successful step for an entry below the walked directory that is not excluded materialises it at the key it targets. */
  lemma VisitMaterialisesTarget(local: Fs, remote: Fs, remoteDir: string, localRoot: string, excludes: seq<string>, path: string)
    requires !IsMatched(path, excludes) && Rel(remoteDir, path).Some? && Rel(remoteDir, path).value != "."
    requires DownloadVisitEffect(local, remote, remoteDir, localRoot, excludes, path).1 == Done
    ensures Materialised(DownloadVisitEffect(local, remote, remoteDir, localRoot, excludes, path).0, remote, path, VisitTarget(remoteDir, localRoot, path))
  {
  }

  /** The key a walk entry's step writes is its target key; below the root, Rel gives a path other than ".". */
  lemma VisitTargetKey(remoteDir: string, localRoot: string, w: Walk, i: nat)
    requires ValidWalk(w) && i < |w.visits|
    ensures VisitTarget(remoteDir, localRoot, WalkPath(remoteDir, w, i)) == TargetKey(localRoot, w, i)
    ensures 0 < i ==> Rel(remoteDir, WalkPath(remoteDir, w, i)).Some? && Rel(remoteDir, WalkPath(remoteDir, w, i)).value != "."
  {
    if i == 0 {
      RelSelf(remoteDir);
      assert Parse(localRoot).elems + [] == Parse(localRoot).elems;
    } else {
      EntryTarget(remoteDir, localRoot, w, i);
    }
  }

  /** One entry's step touches no existing local node but the one at its target key. */
  lemma VisitChangesOnly(local: Fs, remote: Fs, remoteDir: string, localRoot: string, excludes: seq<string>, w: Walk, i: nat)
    requires ValidWalk(w) && i < |w.visits|
    ensures ChangesOnly(local, DownloadVisitEffect(local, remote, remoteDir, localRoot, excludes, WalkPath(remoteDir, w, i)).0, TargetKey(localRoot, w, i))
  {
    VisitTargetKey(remoteDir, localRoot, w, i);
    VisitChangesTarget(local, remote, remoteDir, localRoot, excludes, WalkPath(remoteDir, w, i));
  }

  /** A successful step for an entry below the root that is not excluded materialises it at its target key. */
  lemma VisitMaterialises(local: Fs, remote: Fs, remoteDir: string, localRoot: string, excludes: seq<string>, w: Walk, i: nat)
    requires ValidWalk(w) && 0 < i < |w.visits|
    requires !IsMatched(WalkPath(remoteDir, w, i), excludes)
    requires DownloadVisitEffect(local, remote, remoteDir, localRoot, excludes, WalkPath(remoteDir, w, i)).1 == Done
    ensures Materialised(DownloadVisitEffect(local, remote, remoteDir, localRoot, excludes, WalkPath(remoteDir, w, i)).0,
                         remote, WalkPath(remoteDir, w, i), TargetKey(localRoot, w, i))
  {
    VisitTargetKey(remoteDir, localRoot, w, i);
    VisitMaterialisesTarget(local, remote, remoteDir, localRoot, excludes, WalkPath(remoteDir, w, i));
  }

  /** The step for a later entry keeps the node at an earlier entry's target key. */
  lemma LaterStepsKeep(remote: Fs, remoteDir: string, localRoot: string, excludes: seq<string>, w: Walk, i: nat)
    requires ValidWalk(w) && i < |w.visits|
    ensures var t := TargetKey(localRoot, w, i); var step := VisitStep(remote, remoteDir, localRoot, excludes, w);
      forall g: Fs, j: nat :: i < j < |w.visits| && t in g.nodes ==> t in step(g, j).0.nodes && step(g, j).0.nodes[t] == g.nodes[t]
  {
    var t := TargetKey(localRoot, w, i);
    var step := VisitStep(remote, remoteDir, localRoot, excludes, w);
    forall g: Fs, j: nat | i < j < |w.visits| && t in g.nodes
      ensures t in step(g, j).0.nodes && step(g, j).0.nodes[t] == g.nodes[t]
    {
      TargetKeyInjective(localRoot, w, i, j);
      VisitChangesOnly(g, remote, remoteDir, localRoot, excludes, w, j);
    }
  }

  /**
   * After a successful directory download, every entry the walker reported
   * below the root and not excluded is on the local host at the local root
   * followed by the entry's names: a directory as a directory, a file as a
   * file holding the remote bytes.
   */
  lemma DownloadMaterialises(local: Fs, remote: Fs, remoteDir: string, localDir: string, excludes: seq<string>, w: Walk, i: nat)
    requires ValidWalk(w) && 0 < i < |w.visits|
    requires DownloadRemoteDirEffect(local, remote, remoteDir, localDir, excludes, w).1 == Done
    requires !IsMatched(WalkPath(remoteDir, w, i), excludes)
    ensures Materialised(DownloadRemoteDirEffect(local, remote, remoteDir, localDir, excludes, w).0, remote,
                         WalkPath(remoteDir, w, i), TargetKey(LocalRoot(localDir, remoteDir), w, i))
  {
    var localRoot := LocalRoot(localDir, remoteDir);
    var step := VisitStep(remote, remoteDir, localRoot, excludes, w);
    var t := TargetKey(localRoot, w, i);
    LaterStepsKeep(remote, remoteDir, localRoot, excludes, w, i);
    RunLasts(local, step, |w.visits|, 0, WalkEnd(w, remoteDir), i, t);
    VisitMaterialises(StateBefore(local, step, 0, i), remote, remoteDir, localRoot, excludes, w, i);
  }
}
