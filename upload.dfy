/**
 * Uploading (pkg/transport/upload.go): one local file, or a local directory
 * walked entry by entry into a remote directory.  The walker is a parameter:
 * the sequence of entries filepath.Walk reports.  The local host is only read.
 */
module Upload {
  import opened Wrappers
  import opened Text
  import opened Paths
  import opened Helpers
  import opened FileSystem
  import opened RemoteFiles
  import opened Download

  /**
   * uploadLocalFile on the path already rewritten with the remote separator,
   * up to the attribute step: open the local file, make the remote parent
   * directories, then copy the file with the attributes `attrs`.
   */
  function UploadCopyEffect(local: Fs, remote: Fs, remotePath: string, localPath: string, sep: string, attrs: Stat): (r: (Fs, Outcome))
    requires |sep| == 1
    ensures ChangesOnly(remote, r.0, Key(remotePath)) && r.0.faults == remote.faults
    ensures !CanOpen(local, localPath) ==> r == (remote, Fail(OpenError(localPath)))
    ensures r.1 == Done ==> Uploaded(r.0, local, localPath, Key(remotePath))
  {
    if !CanOpen(local, localPath) then (remote, Fail(OpenError(localPath)))
    else
      var dirs := RemoteMkdirAllEffect(remote, Paths.Dir(remotePath), sep);
      assert Keeps(remote, dirs.0);
      if dirs.1.Fail? then dirs
      else CopyInto(dirs.0, remotePath, Read(local, localPath), attrs)
  }

  /**
   * The attribute step of uploadLocalFile as the source writes it: the stat,
   * Chtimes and Chmod all go to the remote host, at the LOCAL path.  Whatever
   * the stat finds there gets its own time and mode back, so the step never
   * changes the remote host.
   */
  function AttributesAsWritten(remote: Fs, localPath: string): (r: Fs)
    ensures r == remote
  {
    match Lookup(remote, localPath)
    case Found(n) =>
      AttributesOwnValues(remote, localPath);
      Chmod(Chtimes(remote, localPath, n.mtime), localPath, n.mode)
    case _ => remote
  }

  /**
   * uploadLocalFile as the source writes it: the path is rewritten with the
   * remote separator, an unopenable local file changes nothing, and success
   * leaves the local bytes in a remote file at that path; nothing else changes.
   */
  function UploadFileAsWritten(local: Fs, remote: Fs, remotePath: string, localPath: string, sep: string): (r: (Fs, Outcome))
    requires |sep| == 1
    ensures var k := Key(ReplaceSepWith(remotePath, sep));
      && ChangesOnly(remote, r.0, k)
      && r.0.faults == remote.faults
      && (!CanOpen(local, localPath) ==> r == (remote, Fail(OpenError(localPath))))
      && (r.1 == Done ==> Uploaded(r.0, local, localPath, k))
  {
    var target := ReplaceSepWith(remotePath, sep);
    var copied := UploadCopyEffect(local, remote, target, localPath, sep, Missing);
    if copied.1.Fail? then copied else (AttributesAsWritten(copied.0, localPath), copied.1)
  }

  /**
   * As written, an uploaded file keeps the time of the write, never the
   * local file's modification time (nor its mode, when the remote file
   * already existed): the attributes the source means to copy are lost.
   */
  lemma AsWrittenLeavesWriteTime(local: Fs, remote: Fs, remotePath: string, localPath: string, sep: string)
    requires |sep| == 1
    requires UploadFileAsWritten(local, remote, remotePath, localPath, sep).1 == Done
    ensures var k := Key(ReplaceSepWith(remotePath, sep)); var r := UploadFileAsWritten(local, remote, remotePath, localPath, sep);
      k in r.0.nodes && r.0.nodes[k].mtime == remote.now
  {
  }

  /**
   * uploadLocalFile with the attribute step its authors evidently intended:
   * after the bytes are copied, the local file's modification time and mode
   * are set on the remote file; a failed local stat is ignored.
   */
  function UploadFileEffect(local: Fs, remote: Fs, remotePath: string, localPath: string, sep: string): (r: (Fs, Outcome))
    requires |sep| == 1
    ensures var k := Key(ReplaceSepWith(remotePath, sep));
      && ChangesOnly(remote, r.0, k)
      && r.0.faults == remote.faults
      && (!CanOpen(local, localPath) ==> r == (remote, Fail(OpenError(localPath))))
      && (r.1 == Done ==>
            && Read(local, localPath).Some?
            && k in r.0.nodes && r.0.nodes[k].File?
            && r.0.nodes[k].data == Read(local, localPath).value)
      && (r.1 == Done && Lookup(local, localPath).Found? && (AttrOp, k) !in remote.faults ==>
            r.0.nodes[k].mode == Lookup(local, localPath).node.mode && r.0.nodes[k].mtime == Lookup(local, localPath).node.mtime)
  {
    UploadCopyEffect(local, remote, ReplaceSepWith(remotePath, sep), localPath, sep, Lookup(local, localPath))
  }

  /** The remote directory a local directory goes to: "." stands for the local directory's own name. */
  function RemoteRoot(remoteDir: string, localDir: string): string
  {
    if remoteDir == "." then Base(localDir) else remoteDir
  }

  /** The remote key the step for the entry at `path` may overwrite: the target of a file below the walked directory. */
  function UploadTarget(localDir: string, remoteRoot: string, sep: string, path: string): PathValue
  {
    match Rel(localDir, path)
    case Some(rel) => if rel == "." then Key(remoteRoot) else Key(ReplaceSepWith(Join(remoteRoot, rel), sep))
    case None => Key(remoteRoot)
  }

  /** What a successful upload of a local file leaves at its remote key: a file holding the local bytes. */
  predicate Uploaded(remote: Fs, local: Fs, localPath: string, k: PathValue)
  {
    && Read(local, localPath).Some?
    && k in remote.nodes && remote.nodes[k].File?
    && remote.nodes[k].data == Read(local, localPath).value
  }

  /**
   * One call of uploadLocalDir's walk function, for the entry the walker
   * reports at `path`: an entry the walker could not stat ends the walk;
   * an excluded one is passed by; the walked directory itself must be a
   * remote directory or is made; a directory below it is made remotely and
   * a file below it is uploaded.
   */
  function UploadVisitEffect(local: Fs, remote: Fs, localDir: string, remoteRoot: string, excludes: seq<string>, sep: string, path: string): (r: (Fs, Outcome))
    requires |sep| == 1
  {
    match Lookup(local, path)
    case Found(info) =>
      if IsMatched(path, excludes) then (remote, Done)
      else
        (match Rel(localDir, path)
         case None => (remote, Fail(RelError(path)))
         case Some(rel) =>
           if rel == "." then
             (match Lookup(remote, remoteRoot)
              case Missing => RemoteMkdirAllEffect(remote, remoteRoot, sep)
              case Failed => (remote, Fail(StatError(remoteRoot)))
              case Found(n) => (remote, if n.Dir? then Done else Fail(NotADirectory(remoteRoot))))
           else
             var remotePath := Join(remoteRoot, rel);
             if info.Dir? then RemoteMkdirAllEffect(remote, remotePath, sep)
             else UploadFileAsWritten(local, remote, remotePath, path, sep))
    case _ => (remote, Fail(WalkError(path)))
  }

  /** One step touches no existing remote node but the one at the key it targets; directories are only ever added. */
  lemma UploadVisitChangesTarget(local: Fs, remote: Fs, localDir: string, remoteRoot: string, excludes: seq<string>, sep: string, path: string)
    requires |sep| == 1
    ensures ChangesOnly(remote, UploadVisitEffect(local, remote, localDir, remoteRoot, excludes, sep, path).0, UploadTarget(localDir, remoteRoot, sep, path))
  {
    if Lookup(local, path).Found? && !IsMatched(path, excludes) && Rel(localDir, path).Some? {
      var rel := Rel(localDir, path).value;
      if rel != "." && Lookup(local, path).node.File? {
        assert UploadTarget(localDir, remoteRoot, sep, path) == Key(ReplaceSepWith(Join(remoteRoot, rel), sep));
      }
    }
  }

  /** A successful step for a file below the walked directory that is not excluded leaves the local bytes at the key it targets. */
  lemma UploadVisitUploads(local: Fs, remote: Fs, localDir: string, remoteRoot: string, excludes: seq<string>, sep: string, path: string)
    requires |sep| == 1
    requires Lookup(local, path).Found? && Lookup(local, path).node.File? && !IsMatched(path, excludes)
    requires Rel(localDir, path).Some? && Rel(localDir, path).value != "."
    requires UploadVisitEffect(local, remote, localDir, remoteRoot, excludes, sep, path).1 == Done
    ensures Uploaded(UploadVisitEffect(local, remote, localDir, remoteRoot, excludes, sep, path).0, local, path, UploadTarget(localDir, remoteRoot, sep, path))
  {
  }

  /** uploadLocalDir's walk function as a step on the remote host, for the walk's i-th entry. */
  function UploadStep(local: Fs, localDir: string, remoteRoot: string, excludes: seq<string>, sep: string, w: Walk): (Fs, nat) -> (Fs, Outcome)
  {
    (fs: Fs, i: nat) =>
      if ValidWalk(w) && i < |w.visits| && |sep| == 1
      then UploadVisitEffect(local, fs, localDir, remoteRoot, excludes, sep, WalkPath(localDir, w, i))
      else (fs, Done)
  }

  /** uploadLocalDir: the walker's entries in order, stopping at the first error. */
  function UploadLocalDirEffect(local: Fs, remote: Fs, remoteDir: string, localDir: string, excludes: seq<string>, sep: string, w: Walk): (Fs, Outcome)
  {
    RunSteps(remote, UploadStep(local, localDir, RemoteRoot(remoteDir, localDir), excludes, sep, w), |w.visits|, 0, WalkEnd(w, localDir))
  }

  /**
   * Upload: a local directory is uploaded by walking it ("." standing for
   * the working directory `cwd`); a local file goes to the remote path, or
   * into it when that is a directory.
   */
  function UploadEffect(local: Fs, remote: Fs, remotePath: string, localPath: string, excludes: seq<string>, sep: string, cwd: string, w: Walk): (Fs, Outcome)
    requires |sep| == 1
  {
    match Lookup(local, localPath)
    case Found(n) =>
      if n.Dir? then UploadLocalDirEffect(local, remote, remotePath, if localPath == "." then cwd else localPath, excludes, sep, w)
      else
        (match Lookup(remote, remotePath)
         case Failed => (remote, Fail(StatError(remotePath)))
         case Missing => UploadFileAsWritten(local, remote, remotePath, localPath, sep)
         case Found(m) =>
           UploadFileAsWritten(local, remote, if m.Dir? then Join(remotePath, Base(localPath)) else remotePath, localPath, sep))
    case _ => (remote, Fail(StatError(localPath)))
  }

  // ---------------------------------------------------------------------------
  // The operations on the session's hosts; the local host is only read.

  method UploadLocalFile(hosts: Hosts, remotePath: string, localPath: string, sep: string) returns (out: Outcome)
    requires |sep| == 1
    modifies hosts
    ensures hosts.local == old(hosts.local)
    ensures (hosts.remote, out) == UploadFileAsWritten(hosts.local, old(hosts.remote), remotePath, localPath, sep)
  {
    var target := ReplaceSepWith(remotePath, sep);
    if !CanOpen(hosts.local, localPath) {
      return Fail(OpenError(localPath));
    }
    out := RemoteMkdirAll(hosts, Paths.Dir(target), sep);
    if out.Fail? {
      return;
    }
    var created := Create(hosts.remote, target);
    if !created.ok {
      return Fail(CreateError(target));
    }
    hosts.remote := created.fs;
    var data := Read(hosts.local, localPath);
    if data.None? {
      return Fail(CopyError(target));
    }
    var written := Write(hosts.remote, target, data.value);
    if !written.ok {
      return Fail(CopyError(target));
    }
    hosts.remote := written.fs;
    var localStat := Lookup(hosts.remote, localPath);
    if localStat.Found? {
      hosts.remote := Chtimes(hosts.remote, localPath, localStat.node.mtime);
      hosts.remote := Chmod(hosts.remote, localPath, localStat.node.mode);
    }
    return Done;
  }

  /** The walk function of uploadLocalDir for one entry. */
  method UploadVisit(hosts: Hosts, localDir: string, remoteRoot: string, excludes: seq<string>, sep: string, localPath: string) returns (out: Outcome)
    requires |sep| == 1
    modifies hosts
    ensures hosts.local == old(hosts.local)
    ensures (hosts.remote, out) == UploadVisitEffect(hosts.local, old(hosts.remote), localDir, remoteRoot, excludes, sep, localPath)
  {
    var localInfo := Lookup(hosts.local, localPath);
    if !localInfo.Found? {
      return Fail(WalkError(localPath));
    }
    if IsMatched(localPath, excludes) {
      return Done;
    }
    var relPath := Rel(localDir, localPath);
    if relPath.None? {
      return Fail(RelError(localPath));
    }
    if relPath.value == "." {
      var remoteStat := Lookup(hosts.remote, remoteRoot);
      if remoteStat.Missing? {
        out := RemoteMkdirAll(hosts, remoteRoot, sep);
        return;
      }
      if remoteStat.Failed? {
        return Fail(StatError(remoteRoot));
      }
      if !remoteStat.node.Dir? {
        return Fail(NotADirectory(remoteRoot));
      }
      return Done;
    }
    var remotePath := Join(remoteRoot, relPath.value);
    if localInfo.node.Dir? {
      out := RemoteMkdirAll(hosts, remotePath, sep);
    } else {
      out := UploadLocalFile(hosts, remotePath, localPath, sep);
    }
  }

  /**
   * The walk function of uploadLocalDir for the walk's k-th entry: the
   * walk's outcome from the k-th entry on is this call's failure, or the
   * outcome from the next entry on.
   */
  method UploadEntry(hosts: Hosts, localDir: string, remoteRoot: string, excludes: seq<string>, sep: string, w: Walk, k: nat,
                     ghost step: (Fs, nat) -> (Fs, Outcome)) returns (out: Outcome)
    requires ValidWalk(w) && k < |w.visits| && |sep| == 1
    requires step == UploadStep(hosts.local, localDir, remoteRoot, excludes, sep, w)
    modifies hosts
    ensures hosts.local == old(hosts.local)
    ensures RunSteps(old(hosts.remote), step, |w.visits|, k, WalkEnd(w, localDir))
      == if out.Fail? then (hosts.remote, out) else RunSteps(hosts.remote, step, |w.visits|, k + 1, WalkEnd(w, localDir))
  {
    out := UploadVisit(hosts, localDir, remoteRoot, excludes, sep, WalkPath(localDir, w, k));
    RunStep(old(hosts.remote), step, |w.visits|, k, WalkEnd(w, localDir));
  }

  /** uploadLocalDir: the walker's entries in order, stopping at the first error. */
  method UploadLocalDir(hosts: Hosts, remoteDir: string, localDir: string, excludes: seq<string>, sep: string, w: Walk) returns (out: Outcome)
    requires ValidWalk(w) && |sep| == 1
    modifies hosts
    ensures hosts.local == old(hosts.local)
    ensures (hosts.remote, out) == UploadLocalDirEffect(hosts.local, old(hosts.remote), remoteDir, localDir, excludes, sep, w)
  {
    var remoteRoot := RemoteRoot(remoteDir, localDir);
    ghost var local := hosts.local;
    ghost var step := UploadStep(local, localDir, remoteRoot, excludes, sep, w);
    ghost var result := RunSteps(hosts.remote, step, |w.visits|, 0, WalkEnd(w, localDir));
    var k := 0;
    while k < |w.visits|
      invariant 0 <= k <= |w.visits|
      invariant hosts.local == local
      invariant result == RunSteps(hosts.remote, step, |w.visits|, k, WalkEnd(w, localDir))
    {
      out := UploadEntry(hosts, localDir, remoteRoot, excludes, sep, w, k, step);
      if out.Fail? {
        return;
      }
      k := k + 1;
    }
    if w.failed {
      return Fail(WalkError(localDir));
    }
    return Done;
  }

  method Upload(hosts: Hosts, remotePath: string, localPath: string, excludes: seq<string>, sep: string, cwd: string, w: Walk) returns (out: Outcome)
    requires ValidWalk(w) && |sep| == 1
    modifies hosts
    ensures hosts.local == old(hosts.local)
    ensures (hosts.remote, out) == UploadEffect(hosts.local, old(hosts.remote), remotePath, localPath, excludes, sep, cwd, w)
  {
    var localInfo := Lookup(hosts.local, localPath);
    if !localInfo.Found? {
      return Fail(StatError(localPath));
    }
    if localInfo.node.Dir? {
      var localDir := localPath;
      if localDir == "." {
        localDir := cwd;
      }
      out := UploadLocalDir(hosts, remotePath, localDir, excludes, sep, w);
      return;
    }
    var target := remotePath;
    var remoteInfo := Lookup(hosts.remote, remotePath);
    if remoteInfo.Failed? {
      return Fail(StatError(remotePath));
    }
    if remoteInfo.Found? && remoteInfo.node.Dir? {
      target := Join(remotePath, Base(localPath));
    }
    out := UploadLocalFile(hosts, target, localPath, sep);
  }

  // ---------------------------------------------------------------------------
  // Properties of an upload.

  /** A remote root that exists but is not a directory stops a directory upload before anything is written. */
  lemma UploadRootNotADirectory(local: Fs, remote: Fs, remoteDir: string, localDir: string, excludes: seq<string>, sep: string, w: Walk)
    requires ValidWalk(w) && |w.visits| >= 1 && |sep| == 1
    requires Lookup(local, localDir).Found? && !IsMatched(localDir, excludes)
    requires Lookup(remote, RemoteRoot(remoteDir, localDir)).Found? && !Lookup(remote, RemoteRoot(remoteDir, localDir)).node.Dir?
    ensures UploadLocalDirEffect(local, remote, remoteDir, localDir, excludes, sep, w)
      == (remote, Fail(NotADirectory(RemoteRoot(remoteDir, localDir))))
  {
    RelSelf(localDir);
    assert WalkPath(localDir, w, 0) == localDir;
  }

  /** Uploading the empty local path: its stat reports that it does not exist, and nothing is written. */
  lemma UploadFromEmptyPath(local: Fs, remote: Fs, remotePath: string, excludes: seq<string>, sep: string, cwd: string, w: Walk)
    requires |sep| == 1
    ensures UploadEffect(local, remote, remotePath, "", excludes, sep, cwd, w) == (remote, Fail(StatError("")))
  {
  }

  /**
   * Walking the empty local path: the walker cannot stat it, so the walk
   * function's first call ends the upload with nothing written.
   */
  lemma UploadDirFromEmptyPath(local: Fs, remote: Fs, remoteDir: string, excludes: seq<string>, sep: string, w: Walk)
    requires ValidWalk(w) && |w.visits| >= 1 && |sep| == 1
    ensures UploadLocalDirEffect(local, remote, remoteDir, "", excludes, sep, w) == (remote, Fail(WalkError("")))
  {
    assert WalkPath("", w, 0) == "";
  }

  /**
   * Uploading "." when the working directory is unknown (os.Getwd failed and
   * its empty result is used): the walk of "" fails at once.
   */
  lemma UploadCwdUnknown(local: Fs, remote: Fs, remotePath: string, excludes: seq<string>, sep: string, w: Walk)
    requires ValidWalk(w) && |w.visits| >= 1 && |sep| == 1
    requires Lookup(local, ".").Found? && Lookup(local, ".").node.Dir?
    ensures UploadEffect(local, remote, remotePath, ".", excludes, sep, "", w) == (remote, Fail(WalkError("")))
  {
    UploadDirFromEmptyPath(local, remote, remotePath, excludes, sep, w);
  }

  /** A local file uploaded into an existing remote directory lands there under its own base name. */
  lemma UploadIntoDirectory(local: Fs, remote: Fs, remotePath: string, localPath: string, excludes: seq<string>, sep: string, cwd: string, w: Walk)
    requires |sep| == 1
    requires Lookup(local, localPath).Found? && Lookup(local, localPath).node.File?
    requires Lookup(remote, remotePath).Found? && Lookup(remote, remotePath).node.Dir?
    requires UploadEffect(local, remote, remotePath, localPath, excludes, sep, cwd, w).1 == Done
    ensures Uploaded(UploadEffect(local, remote, remotePath, localPath, excludes, sep, cwd, w).0, local, localPath,
                     Key(ReplaceSepWith(Join(remotePath, Base(localPath)), sep)))
  {
  }

  /** No entry of the walk has a backslash in its name, nor has the remote root. */
  predicate NoBackslashes(root: string, w: Walk)
  {
    && '\\' !in root
    && forall j :: 0 <= j < |w.visits| && w.visits[j].Child? ==> '\\' !in w.visits[j].name
  }

  lemma {:induction false} ChainNoBackslash(root: string, w: Walk, i: nat)
    requires ValidWalk(w) && i < |w.visits| && NoBackslashes(root, w)
    ensures forall k :: 0 <= k < |Chain(w, i)| ==> '\\' !in Chain(w, i)[k]
    decreases i
  {
    if w.visits[i].Child? {
      var parent := w.visits[i].parent;
      ChainNoBackslash(root, w, parent);
      assert Chain(w, i) == Chain(w, parent) + [w.visits[i].name];
    }
  }

  /** Joining names without a backslash onto a root without one gives a path without one. */
  lemma JoinNoBackslash(root: string, names: seq<string>)
    requires |names| >= 1 && '\\' !in root
    requires forall k :: 0 <= k < |names| ==> '\\' !in names[k]
    ensures '\\' !in Join(root, JoinWith(names, Sep))
  {
    var rel := JoinWith(names, Sep);
    if '\\' in rel {
      JoinWithChars(names, Sep, '\\');
    }
    if '\\' in Join(root, rel) {
      if root == "" {
        CleanChars(rel, '\\');
      } else {
        CleanChars(root + [Sep] + rel, '\\');
      }
    }
  }

  /**
   * With "/" as the remote separator and no backslash in the names, the key
   * a walk entry's step targets is the remote root followed by the entry's
   * names.
   */
  lemma UploadTargetKey(localDir: string, root: string, w: Walk, i: nat)
    requires ValidWalk(w) && i < |w.visits| && NoBackslashes(root, w)
    ensures UploadTarget(localDir, root, [Sep], WalkPath(localDir, w, i)) == TargetKey(root, w, i)
    ensures 0 < i ==> Rel(localDir, WalkPath(localDir, w, i)).Some? && Rel(localDir, WalkPath(localDir, w, i)).value != "."
  {
    if i == 0 {
      RelSelf(localDir);
      assert Parse(root).elems + [] == Parse(root).elems;
    } else {
      EntryTarget(localDir, root, w, i);
      ChainNoBackslash(root, w, i);
      JoinNoBackslash(root, Chain(w, i));
      ReplaceSepKeeps(Join(root, JoinWith(Chain(w, i), Sep)));
    }
  }

  /** The step for a later entry keeps the remote node at an earlier entry's target key. */
  lemma UploadLaterStepsKeep(local: Fs, localDir: string, root: string, excludes: seq<string>, w: Walk, i: nat)
    requires ValidWalk(w) && i < |w.visits| && NoBackslashes(root, w)
    ensures var t := TargetKey(root, w, i); var step := UploadStep(local, localDir, root, excludes, [Sep], w);
      forall g: Fs, j: nat :: i < j < |w.visits| && t in g.nodes ==> t in step(g, j).0.nodes && step(g, j).0.nodes[t] == g.nodes[t]
  {
    var t := TargetKey(root, w, i);
    var step := UploadStep(local, localDir, root, excludes, [Sep], w);
    forall g: Fs, j: nat | i < j < |w.visits| && t in g.nodes
      ensures t in step(g, j).0.nodes && step(g, j).0.nodes[t] == g.nodes[t]
    {
      TargetKeyInjective(root, w, i, j);
      UploadTargetKey(localDir, root, w, j);
      UploadVisitChangesTarget(local, g, localDir, root, excludes, [Sep], WalkPath(localDir, w, j));
    }
  }

  /**
   * After a successful directory upload with "/" as the remote separator,
   * every local file the walker reported below the walked directory and not
   * excluded is on the remote host at the remote root followed by the
   * entry's names, holding the local bytes.
   */
  lemma UploadMaterialises(local: Fs, remote: Fs, remoteDir: string, localDir: string, excludes: seq<string>, w: Walk, i: nat)
    requires ValidWalk(w) && 0 < i < |w.visits|
    requires NoBackslashes(RemoteRoot(remoteDir, localDir), w)
    requires UploadLocalDirEffect(local, remote, remoteDir, localDir, excludes, [Sep], w).1 == Done
    requires !IsMatched(WalkPath(localDir, w, i), excludes)
    requires Lookup(local, WalkPath(localDir, w, i)).Found? && Lookup(local, WalkPath(localDir, w, i)).node.File?
    ensures Uploaded(UploadLocalDirEffect(local, remote, remoteDir, localDir, excludes, [Sep], w).0, local,
                     WalkPath(localDir, w, i), TargetKey(RemoteRoot(remoteDir, localDir), w, i))
  {
    var root := RemoteRoot(remoteDir, localDir);
    var step := UploadStep(local, localDir, root, excludes, [Sep], w);
    var t := TargetKey(root, w, i);
    UploadLaterStepsKeep(local, localDir, root, excludes, w, i);
    RunLasts(remote, step, |w.visits|, 0, WalkEnd(w, localDir), i, t);
    UploadTargetKey(localDir, root, w, i);
    UploadVisitUploads(local, StateBefore(remote, step, 0, i), localDir, root, excludes, [Sep], WalkPath(localDir, w, i));
  }
}
