/**
 * The two file systems the tool works on, the local one (Go's os package) and
 * the remote one (an SFTP client), as maps from cleaned paths to nodes.  The
 * calls that fail on a host are part of its state: a fault names an operation
 * and a path on which that operation reports an error.
 */
module FileSystem {
  import opened Wrappers
  import opened Text
  import opened Paths

  type Bytes = seq<bv8>

  datatype Node =
    | Dir(mode: int, mtime: int)
    | File(data: Bytes, mode: int, mtime: int)

  datatype Op = StatOp | OpenOp | ReadOp | CreateOp | WriteOp | MkdirOp | AttrOp

  /**
   * A host: its nodes, the calls that fail on it, the time it stamps on what it
   * writes, and the modes it gives a file or directory created without one.
   */
  datatype Fs = Fs(
    nodes: map<PathValue, Node>,
    faults: set<(Op, PathValue)>,
    now: int,
    newFileMode: int,
    newDirMode: int)

  /** What a stat call reports: the node, "does not exist", or another error. */
  datatype Stat = Found(node: Node) | Missing | Failed

  /** The result of a call that changes a host: the new host and whether the call succeeded. */
  datatype Effect = Effect(fs: Fs, ok: bool)

  /** The errors the transfers report, each with the path or pattern it concerns. */
  datatype Error =
    | StatError(path: string)
    | NotADirectory(path: string)
    | MkdirError(path: string)
    | OpenError(path: string)
    | CreateError(path: string)
    | CopyError(path: string)
    | WalkError(path: string)
    | RelError(path: string)
    | PatternError(pattern: string)
    | ReadDirError(path: string)

  datatype Outcome = Done | Fail(error: Error)

  function Key(p: string): PathValue
  {
    Parse(p)
  }

  function ParentKey(k: PathValue): PathValue
    requires |k.elems| > 0
  {
    PathValue(k.rooted, k.elems[..|k.elems| - 1])
  }

  predicate IsDirAt(fs: Fs, k: PathValue)
  {
    k in fs.nodes && fs.nodes[k].Dir?
  }

  function StatKey(fs: Fs, k: PathValue): Stat
  {
    if (StatOp, k) in fs.faults then Failed
    else if k in fs.nodes then Found(fs.nodes[k])
    else Missing
  }

  /**
   * Stat (and Lstat: links are not modelled) of a path.  The empty path names
   * no file: the operating system reports "does not exist" for it, although
   * it cleans to ".".
   */
  function Lookup(fs: Fs, p: string): Stat
  {
    if p == "" then Missing else StatKey(fs, Key(p))
  }

  /** The host with the same faults, clock and default modes, and every node it had unchanged. */
  predicate Keeps(fs: Fs, fs': Fs)
  {
    && fs'.faults == fs.faults && fs'.now == fs.now
    && fs'.newFileMode == fs.newFileMode && fs'.newDirMode == fs.newDirMode
    && (forall k :: k in fs.nodes ==> k in fs'.nodes && fs'.nodes[k] == fs.nodes[k])
  }

  lemma KeepsTransitive(a: Fs, b: Fs, c: Fs)
    requires Keeps(a, b) && Keeps(b, c)
    ensures Keeps(a, c)
  {
  }

  /** Every node other than the one at `k` is kept unchanged (nodes may be added anywhere). */
  predicate ChangesOnly(fs: Fs, fs': Fs, k: PathValue)
  {
    forall a :: a in fs.nodes && a != k ==> a in fs'.nodes && fs'.nodes[a] == fs.nodes[a]
  }

  /** Mkdir: one directory, whose parent must already be a directory. */
  function MkdirKey(fs: Fs, k: PathValue, mode: int): Effect
  {
    if (MkdirOp, k) in fs.faults || k in fs.nodes || |k.elems| == 0 || !IsDirAt(fs, ParentKey(k)) then Effect(fs, false)
    else Effect(fs.(nodes := fs.nodes[k := Dir(mode, fs.now)]), true)
  }

  function Mkdir(fs: Fs, p: string, mode: int): Effect
  {
    if p == "" then Effect(fs, false) else MkdirKey(fs, Key(p), mode)
  }

  /** `a` is `k` or one of its ancestors on the same side of the root. */
  predicate OnPathTo(a: PathValue, k: PathValue)
  {
    a.rooted == k.rooted && |a.elems| <= |k.elems| && a.elems == k.elems[..|a.elems|]
  }

  /**
   * os.MkdirAll: nothing to do when the path is a directory, an error when it
   * is anything else; otherwise the parent first, then the path itself.  (The
   * source re-stats the path after a failed Mkdir in case another process
   * made it meanwhile; with one process at work that stat never finds it.)
   */
  function MkdirAllKey(fs: Fs, k: PathValue, mode: int): (e: Effect)
    ensures e.ok ==> IsDirAt(e.fs, k)
    ensures Keeps(fs, e.fs)
    ensures forall a :: a in e.fs.nodes && a !in fs.nodes ==> e.fs.nodes[a] == Dir(mode, fs.now) && OnPathTo(a, k)
    decreases |k.elems|
  {
    match StatKey(fs, k)
    case Found(n) => Effect(fs, n.Dir?)
    case _ =>
      var pre := if |k.elems| >= 2 then MkdirAllKey(fs, ParentKey(k), mode) else Effect(fs, true);
      if !pre.ok then pre
      else
        var made := MkdirKey(pre.fs, k, mode);
        if made.ok then made else Effect(made.fs, false)
  }

  /** os.MkdirAll of a path; the empty path fails, as its stat and its Mkdir both do. */
  function MkdirAll(fs: Fs, p: string, mode: int): (e: Effect)
    ensures e.ok ==> p != "" && IsDirAt(e.fs, Key(p))
    ensures p == "" ==> e.fs == fs
    ensures Keeps(fs, e.fs)
    ensures forall a :: a in e.fs.nodes && a !in fs.nodes ==> e.fs.nodes[a] == Dir(mode, fs.now) && OnPathTo(a, Key(p))
  {
    if p == "" then Effect(fs, false) else MkdirAllKey(fs, Key(p), mode)
  }

  /** MkdirAll of "." finds the working directory or fails, and changes nothing either way. */
  lemma MkdirAllDot(fs: Fs, mode: int)
    ensures MkdirAll(fs, ".", mode).fs == fs
  {
    ParseRenderEmpty(false);
    assert Key(".") == PathValue(false, []);
  }

  /** Create: a new empty file, or an existing file truncated (it keeps its mode). */
  function Create(fs: Fs, p: string): Effect
  {
    var k := Key(p);
    if p == "" || (CreateOp, k) in fs.faults || |k.elems| == 0 || !IsDirAt(fs, ParentKey(k)) then Effect(fs, false)
    else if k in fs.nodes then
      match fs.nodes[k]
      case Dir(_, _) => Effect(fs, false)
      case File(_, mode, _) => Effect(fs.(nodes := fs.nodes[k := File([], mode, fs.now)]), true)
    else Effect(fs.(nodes := fs.nodes[k := File([], fs.newFileMode, fs.now)]), true)
  }

  /** Writing the whole content of an open file. */
  function Write(fs: Fs, p: string, data: Bytes): Effect
  {
    var k := Key(p);
    if p == "" || (WriteOp, k) in fs.faults || k !in fs.nodes || !fs.nodes[k].File? then Effect(fs, false)
    else Effect(fs.(nodes := fs.nodes[k := fs.nodes[k].(data := data, mtime := fs.now)]), true)
  }

  /** Whether Open succeeds; a directory opens too, reading it is what fails. */
  predicate CanOpen(fs: Fs, p: string)
  {
    p != "" && (OpenOp, Key(p)) !in fs.faults && Key(p) in fs.nodes
  }

  /** Reading the whole content of a file. */
  function Read(fs: Fs, p: string): Option<Bytes>
  {
    var k := Key(p);
    if p == "" || (ReadOp, k) in fs.faults || k !in fs.nodes || !fs.nodes[k].File? then None
    else Some(fs.nodes[k].data)
  }

  /** Chtimes; its error is ignored by every caller, so a failure leaves the host as it was. */
  function Chtimes(fs: Fs, p: string, mtime: int): Fs
  {
    var k := Key(p);
    if p == "" || (AttrOp, k) in fs.faults || k !in fs.nodes then fs
    else fs.(nodes := fs.nodes[k := fs.nodes[k].(mtime := mtime)])
  }

  /** Chmod; like Chtimes, its error is ignored. */
  function Chmod(fs: Fs, p: string, mode: int): Fs
  {
    var k := Key(p);
    if p == "" || (AttrOp, k) in fs.faults || k !in fs.nodes then fs
    else fs.(nodes := fs.nodes[k := fs.nodes[k].(mode := mode)])
  }

  /**
   * Setting on the node at `p` the modification time and mode a stat
   * reported, each call's error ignored; nothing when the stat failed.
   */
  function CopyAttributes(fs: Fs, p: string, attrs: Stat): (r: Fs)
    ensures ChangesOnly(fs, r, Key(p))
    ensures r.faults == fs.faults && r.now == fs.now
    ensures !attrs.Found? || p == "" || (AttrOp, Key(p)) in fs.faults || Key(p) !in fs.nodes ==> r == fs
    ensures Key(p) in fs.nodes ==> Key(p) in r.nodes && r.nodes[Key(p)].File? == fs.nodes[Key(p)].File?
    ensures Key(p) in fs.nodes && fs.nodes[Key(p)].File? ==> r.nodes[Key(p)].data == fs.nodes[Key(p)].data
    ensures attrs.Found? && p != "" && (AttrOp, Key(p)) !in fs.faults && Key(p) in fs.nodes ==>
      r.nodes[Key(p)].mode == attrs.node.mode && r.nodes[Key(p)].mtime == attrs.node.mtime
  {
    match attrs
    case Found(n) => Chmod(Chtimes(fs, p, n.mtime), p, n.mode)
    case _ => fs
  }

  /**
   * The second half of both file transfers, on the destination host: create
   * (or truncate) the file, write the bytes read from the source (None when
   * reading failed), then set the attributes the source's stat reported.
   */
  function CopyInto(fs: Fs, p: string, data: Option<Bytes>, attrs: Stat): (r: (Fs, Outcome))
    ensures ChangesOnly(fs, r.0, Key(p))
    ensures r.0.faults == fs.faults && r.0.now == fs.now
    ensures r.1 == Done ==> data.Some? && Key(p) in r.0.nodes && r.0.nodes[Key(p)].File? && r.0.nodes[Key(p)].data == data.value
    ensures r.1 == Done && attrs.Found? && (AttrOp, Key(p)) !in fs.faults ==>
      r.0.nodes[Key(p)].mode == attrs.node.mode && r.0.nodes[Key(p)].mtime == attrs.node.mtime
    ensures r.1 == Done && !attrs.Found? ==> r.0.nodes[Key(p)].mtime == fs.now
  {
    var created := Create(fs, p);
    if !created.ok then (fs, Fail(CreateError(p)))
    else
      match data
      case None => (created.fs, Fail(CopyError(p)))
      case Some(bytes) =>
        var written := Write(created.fs, p, bytes);
        if !written.ok then (created.fs, Fail(CopyError(p)))
        else (CopyAttributes(written.fs, p, attrs), Done)
  }

  /** Setting a node's own times and mode back on it changes nothing. */
  lemma AttributesOwnValues(fs: Fs, p: string)
    requires Lookup(fs, p).Found?
    ensures var n := Lookup(fs, p).node; Chmod(Chtimes(fs, p, n.mtime), p, n.mode) == fs
  {
    var k := Key(p);
    var n := fs.nodes[k];
    if (AttrOp, k) !in fs.faults {
      assert fs.nodes[k := n.(mtime := n.mtime)] == fs.nodes;
      assert fs.nodes[k := n.(mode := n.mode)] == fs.nodes;
    }
  }

  /** The two hosts of a session: the SFTP client stands for the remote one. */
  class Hosts {
    var local: Fs
    var remote: Fs

    constructor (local: Fs, remote: Fs)
      ensures this.local == local && this.remote == remote
    {
      this.local := local;
      this.remote := remote;
    }
  }

  // ---------------------------------------------------------------------------
  // Directory listings, as the scanners read them.

  /** An entry of a listing: a file, or a directory with its own listing. */
  datatype Entry = FileEntry(name: string) | DirEntry(name: string, listing: Listing)

  /** A directory's entries in the order they are reported, or a directory that cannot be read. */
  datatype Listing = Listing(entries: seq<Entry>) | Unreadable

  /** A result that follows the paths already collected. */
  function Append(paths: seq<string>, r: Result<seq<string>, Error>): Result<seq<string>, Error>
  {
    match r
    case Err(err) => Err(err)
    case Ok(more) => Ok(paths + more)
  }

  // ---------------------------------------------------------------------------
  // Directory walks.  A walker reports the root and then the entries below it,
  // each as a name under an earlier directory, and may stop with an error.

  datatype Visit = Root | Child(parent: nat, name: string)

  datatype Walk = Walk(visits: seq<Visit>, failed: bool)

  predicate ValidWalk(w: Walk)
  {
    && (forall i :: 0 <= i < |w.visits| ==> (i == 0 <==> w.visits[i].Root?))
    && (forall i :: 0 <= i < |w.visits| && w.visits[i].Child? ==> w.visits[i].parent < i && Simple(w.visits[i].name))
    && (forall i, j :: 0 <= i < j < |w.visits| && w.visits[i].Child? && w.visits[j].Child? && w.visits[i].parent == w.visits[j].parent
          ==> w.visits[i].name != w.visits[j].name)
  }

  /** The names leading from the root to a visit. */
  function Chain(w: Walk, i: nat): (c: seq<string>)
    requires ValidWalk(w) && i < |w.visits|
    ensures forall j :: 0 <= j < |c| ==> Simple(c[j])
    ensures i == 0 <==> c == []
    decreases i
  {
    match w.visits[i]
    case Root => []
    case Child(parent, name) => Chain(w, parent) + [name]
  }

  /** The path a walker reports for a visit: each entry joined onto its directory. */
  function WalkPath(root: string, w: Walk, i: nat): string
    requires ValidWalk(w) && i < |w.visits|
    decreases i
  {
    match w.visits[i]
    case Root => root
    case Child(parent, name) => Join(WalkPath(root, w, parent), name)
  }

  /** Below the root, a walk path is the cleaned root followed by the chain of names. */
  lemma {:induction false} WalkPathOfChain(root: string, w: Walk, i: nat)
    requires ValidWalk(w) && 0 < i < |w.visits|
    ensures Parse(WalkPath(root, w, i)) == PathValue(IsRooted(root), Parse(root).elems + Chain(w, i))
    ensures WalkPath(root, w, i) == Render(PathValue(IsRooted(root), Parse(root).elems + Chain(w, i)))
    decreases i, 0
  {
    var parent := w.visits[i].parent;
    var name := w.visits[i].name;
    var up := WalkPath(root, w, parent);
    assert WalkPath(root, w, i) == Join(up, name);
    assert Chain(w, i) == Chain(w, parent) + [name];
    WalkPathAbove(root, w, parent);
    ParseJoinName(up, name);
    RenderOfJoinName(up, name);
    var r := IsRooted(root);
    var e := Parse(root).elems;
    assert e + Chain(w, parent) + [name] == e + Chain(w, i);
  }

  /** The directory a visit hangs under has the root's side and the chain's elements. */
  lemma {:induction false} WalkPathAbove(root: string, w: Walk, i: nat)
    requires ValidWalk(w) && i < |w.visits|
    ensures IsRooted(WalkPath(root, w, i)) == IsRooted(root)
    ensures Parse(WalkPath(root, w, i)).elems == Parse(root).elems + Chain(w, i)
    decreases i, 1
  {
    if i == 0 {
      assert Parse(root).elems + [] == Parse(root).elems;
    } else {
      WalkPathOfChain(root, w, i);
      ParseIsClean(root);
      CleanAppendSimple(IsRooted(root), Parse(root).elems, Chain(w, i));
      RootedRender(IsRooted(root), Parse(root).elems + Chain(w, i));
    }
  }

  /** Different visits of a valid walk have different chains. */
  lemma {:induction false} ChainInjective(w: Walk, i: nat, j: nat)
    requires ValidWalk(w) && i < |w.visits| && j < |w.visits|
    requires Chain(w, i) == Chain(w, j)
    ensures i == j
    decreases i + j
  {
    if i != 0 && j != 0 {
      var ci := Chain(w, i);
      assert Chain(w, w.visits[i].parent) == ci[..|ci| - 1];
      assert Chain(w, w.visits[j].parent) == ci[..|ci| - 1];
      ChainInjective(w, w.visits[i].parent, w.visits[j].parent);
      assert w.visits[i].name == ci[|ci| - 1] == w.visits[j].name;
    }
  }

  // ---------------------------------------------------------------------------
  // The loop over a walk's entries.  The step is a parameter, so the lemmas
  // below hold for the download and the upload loop alike.

  /**
   * The steps for the entries from the k-th on, each on the state the one
   * before left, stopping at the first that fails; `last` is the outcome
   * when none fails.
   */
  function RunSteps(fs: Fs, step: (Fs, nat) -> (Fs, Outcome), n: nat, k: nat, last: Outcome): (Fs, Outcome)
    requires k <= n
    decreases n - k
  {
    if k == n then (fs, last)
    else
      var s := step(fs, k);
      if s.1.Fail? then s else RunSteps(s.0, step, n, k + 1, last)
  }

  /** One turn of the loop: the k-th step, then the rest unless it failed. */
  lemma RunStep(fs: Fs, step: (Fs, nat) -> (Fs, Outcome), n: nat, k: nat, last: Outcome)
    requires k < n
    ensures RunSteps(fs, step, n, k, last) == if step(fs, k).1.Fail? then step(fs, k) else RunSteps(step(fs, k).0, step, n, k + 1, last)
  {
  }

  /** The state the i-th step starts from, when the steps from the k-th up to it have run. */
  function StateBefore(fs: Fs, step: (Fs, nat) -> (Fs, Outcome), k: nat, i: nat): Fs
    requires k <= i
    decreases i - k
  {
    if k == i then fs else StateBefore(step(fs, k).0, step, k + 1, i)
  }

  /** When every step from the k-th on keeps the node at `a`, so does the loop. */
  lemma {:induction false} RunKeeps(fs: Fs, step: (Fs, nat) -> (Fs, Outcome), n: nat, k: nat, last: Outcome, a: PathValue)
    requires k <= n && a in fs.nodes
    requires forall g: Fs, j: nat :: k <= j < n && a in g.nodes ==> a in step(g, j).0.nodes && step(g, j).0.nodes[a] == g.nodes[a]
    ensures var r := RunSteps(fs, step, n, k, last); a in r.0.nodes && r.0.nodes[a] == fs.nodes[a]
    decreases n - k
  {
    if k < n {
      var s := step(fs, k);
      if !s.1.Fail? {
        RunKeeps(s.0, step, n, k + 1, last, a);
      }
    }
  }

  /**
   * When the loop succeeds, every step in it succeeded, and what the i-th
   * step left at `a` lasts to the end if the later steps keep it.
   */
  lemma {:induction false} RunLasts(fs: Fs, step: (Fs, nat) -> (Fs, Outcome), n: nat, k: nat, last: Outcome, i: nat, a: PathValue)
    requires k <= i < n
    requires RunSteps(fs, step, n, k, last).1 == Done
    requires forall g: Fs, j: nat :: i < j < n && a in g.nodes ==> a in step(g, j).0.nodes && step(g, j).0.nodes[a] == g.nodes[a]
    ensures var s := step(StateBefore(fs, step, k, i), i);
      && s.1 == Done
      && (a in s.0.nodes ==> var r := RunSteps(fs, step, n, k, last); a in r.0.nodes && r.0.nodes[a] == s.0.nodes[a])
    decreases i - k
  {
    var s := step(fs, k);
    assert !s.1.Fail?;
    if k == i {
      if a in s.0.nodes {
        RunKeeps(s.0, step, n, k + 1, last, a);
      }
    } else {
      RunLasts(s.0, step, n, k + 1, last, i, a);
    }
  }
}
