/**
 * Local file queries and the local scanner (pkg/util/file.go).  Every stat
 * error, "does not exist" or otherwise, reads as false.
 */
module LocalFiles {
  import opened Wrappers
  import opened Text
  import opened Paths
  import opened Glob
  import opened Helpers
  import opened FileSystem

  /** PathExists: stat succeeds. */
  function PathExists(fs: Fs, p: string): (b: bool)
    ensures b <==> p != "" && Key(p) in fs.nodes && (StatOp, Key(p)) !in fs.faults
  {
    Lookup(fs, p).Found?
  }

  /** IsDirectory: stat succeeds and finds a directory. */
  function IsDirectory(fs: Fs, p: string): (b: bool)
    ensures b <==> PathExists(fs, p) && fs.nodes[Key(p)].Dir?
  {
    match Lookup(fs, p)
    case Found(n) => n.Dir?
    case _ => false
  }

  /** Whether Glob keeps an entry: a pattern with meta characters must match it, a literal must equal it. */
  predicate GlobSelects(pattern: string, name: string)
  {
    if HasMeta(pattern) then Matches(pattern, name) else name == pattern
  }

  /** The directory Glob lists for `path + "/" + pattern`: the path, or the root for an empty path. */
  function GlobDir(path: string): string
  {
    if path == "" then "/" else path
  }

  /**
   * The path Glob reports for a selected entry: the entry joined onto the
   * directory when the pattern has meta characters, the text as written otherwise.
   */
  function GlobPath(path: string, pattern: string, name: string): string
  {
    if HasMeta(pattern) then Join(GlobDir(path), name) else path + "/" + pattern
  }

  /**
   * What Scan returns: the entries of `path` that Glob selects, less the
   * excluded ones; a selected directory contributes the results of scanning
   * it, or itself when that scan finds nothing.  A pattern Glob rejects is an
   * error; a directory Glob cannot read yields nothing.
   */
  function Scanned(path: string, listing: Listing, pattern: string, excludes: seq<string>): Result<seq<string>, Error>
    requires Simple(pattern)
  {
    if !WellFormed(path + "/" + pattern) then Err(PatternError(path + "/" + pattern))
    else
      match listing
      case Unreadable => Ok([])
      case Listing(entries) => ScannedEntries(path, entries, pattern, excludes)
  }

  /** What Scan's loop collects over the given entries of one directory, with the scans it makes below them. */
  function ScannedEntries(path: string, entries: seq<Entry>, pattern: string, excludes: seq<string>): Result<seq<string>, Error>
    requires Simple(pattern)
    decreases entries
  {
    if entries == [] then Ok([])
    else
      var e := entries[0];
      var here: Result<seq<string>, Error> :=
        if !GlobSelects(pattern, e.name) then Ok([])
        else
          var p := GlobPath(path, pattern, e.name);
          if IsExcluded(Base(p), excludes) then Ok([])
          else if e.FileEntry? then Ok([p])
          else if !WellFormed(p + "/" + pattern) then Err(PatternError(p + "/" + pattern))
          else
            match e.listing
            case Unreadable => Ok([p])
            case Listing(sub) =>
              match ScannedEntries(p, sub, pattern, excludes)
              case Err(err) => Err(err)
              case Ok(below) => Ok(if below == [] then [p] else below);
      match here
      case Err(err) => Err(err)
      case Ok(found) =>
        match ScannedEntries(path, entries[1..], pattern, excludes)
        case Err(err) => Err(err)
        case Ok(rest) => Ok(found + rest)
  }

  /** One entry's contribution, in terms of the scan of that entry's own listing. */
  lemma ScannedSingle(path: string, e: Entry, pattern: string, excludes: seq<string>)
    requires Simple(pattern)
    ensures ScannedEntries(path, [e], pattern, excludes) ==
      if !GlobSelects(pattern, e.name) || IsExcluded(Base(GlobPath(path, pattern, e.name)), excludes) then Ok([])
      else if e.FileEntry? then Ok([GlobPath(path, pattern, e.name)])
      else
        match Scanned(GlobPath(path, pattern, e.name), e.listing, pattern, excludes)
        case Err(err) => Err(err)
        case Ok(below) => Ok(if below == [] then [GlobPath(path, pattern, e.name)] else below)
  {
    assert [e][0] == e && [e][1..] == [];
    var none: seq<string> := [];
    assert forall found: seq<string> :: found + none == found;
  }

  /** One turn of Scan's loop: the entry's contribution joins the paths collected so far. */
  lemma ScanStep(path: string, entries: seq<Entry>, i: nat, paths: seq<string>, found: seq<string>, pattern: string, excludes: seq<string>)
    requires Simple(pattern) && i < |entries|
    requires ScannedEntries(path, [entries[i]], pattern, excludes) == Ok(found)
    ensures Append(paths, ScannedEntries(path, entries[i..], pattern, excludes))
      == Append(paths + found, ScannedEntries(path, entries[i + 1..], pattern, excludes))
  {
    var es := entries[i..];
    assert es[0] == entries[i] && es[1..] == entries[i + 1..];
    var one := [es[0]];
    assert one[0] == es[0] && one[1..] == [];
    assert ScannedEntries(path, one[1..], pattern, excludes) == Ok([]);
    ScannedSingle(path, es[0], pattern, excludes);
    match ScannedEntries(path, entries[i + 1..], pattern, excludes) {
      case Err(_) =>
      case Ok(more) =>
        assert ScannedEntries(path, es, pattern, excludes) == Ok(found + more);
        assert paths + (found + more) == (paths + found) + more;
    }
  }

  /**
   * Scan (pkg/util/file.go): Glob on `path + "/" + pattern`, then a loop over
   * what it finds that drops excluded names and scans directories in turn.
   */
  method Scan(path: string, listing: Listing, pattern: string, excludes: seq<string>) returns (r: Result<seq<string>, Error>)
    requires Simple(pattern)
    requires !HasMeta(path) && PlainListing(listing) && SortedListing(listing)
    ensures r == Scanned(path, listing, pattern, excludes)
    decreases listing
  {
    var pathPattern := path + "/" + pattern;
    if !WellFormed(pathPattern) {
      return Err(PatternError(pathPattern));
    }
    if listing.Unreadable? {
      return Ok([]);
    }
    var entries := listing.entries;
    var paths: seq<string> := [];
    var i := 0;
    assert entries[0..] == entries;
    match ScannedEntries(path, entries, pattern, excludes) {
      case Ok(all) => assert paths + all == all;
      case Err(_) =>
    }
    while i < |entries|
      invariant 0 <= i <= |entries|
      invariant PlainEntries(entries[i..]) && SortedEntries(entries[i..])
      invariant Scanned(path, listing, pattern, excludes) == Append(paths, ScannedEntries(path, entries[i..], pattern, excludes))
    {
      var e := entries[i];
      assert entries[i..][0] == e && entries[i..][1..] == entries[i + 1..];
      ScannedSingle(path, e, pattern, excludes);
      var found: seq<string> := [];
      if GlobSelects(pattern, e.name) {
        var p := GlobPath(path, pattern, e.name);
        if !IsExcluded(Base(p), excludes) {
          if e.FileEntry? {
            found := [p];
          } else {
            GlobPathMetaFree(path, pattern, e.name);
            var below := Scan(p, e.listing, pattern, excludes);
            if below.Err? {
              return Err(below.error);
            }
            found := if below.value == [] then [p] else below.value;
          }
        }
      }
      ScanStep(path, entries, i, paths, found, pattern, excludes);
      paths := paths + found;
      i := i + 1;
    }
    assert entries[i..] == [];
    assert paths + [] == paths;
    return Ok(paths);
  }

  // ---------------------------------------------------------------------------
  // Scan as written on the patterns "." and the like, on the file system itself.

  /**
   * filepath.Glob on a pattern without meta characters: the pattern itself
   * when Lstat finds something there, nothing otherwise.
   */
  function GlobLiteral(fs: Fs, pathPattern: string): seq<string>
    requires !HasMeta(pathPattern)
  {
    if Lookup(fs, pathPattern).Found? then [pathPattern] else []
  }

  /**
   * The directory Scan calls itself on next, as written, for a pattern
   * without meta characters: the one path Glob returns, when its base is not
   * excluded and it is a directory.
   */
  function ScanDescentAsWritten(fs: Fs, path: string, pattern: string, excludes: seq<string>): Option<string>
    requires !HasMeta(path + "/" + pattern)
  {
    var m := GlobLiteral(fs, path + "/" + pattern);
    if m != [] && !IsExcluded(Base(m[0]), excludes) && IsDirectory(fs, m[0]) then Some(m[0]) else None
  }

  /**
   * As written, Scan with the pattern "." does not go deeper: on a directory
   * it globs `path/.`, which exists and is the same directory, so it calls
   * itself on that path, one "/." longer, which meets the same conditions.
   * The source repeats this until the path is too long for the operating
   * system's Lstat; the file systems here have no such limit.
   */
  lemma ScanDotDescends(fs: Fs, path: string, excludes: seq<string>)
    requires path != "" && !HasMeta(path) && IsDirectory(fs, path)
    requires !IsExcluded(".", excludes)
    ensures ScanDescentAsWritten(fs, path, ".", excludes) == Some(path + "/.")
    ensures path + "/." != "" && !HasMeta(path + "/.") && IsDirectory(fs, path + "/.") && |path + "/."| > |path|
  {
    assert path + "/." == path + [Sep] + ".";
    ParseDotSuffix(path);
    BaseOfSlash(path, ".");
  }

  // ---------------------------------------------------------------------------

  /** Names a scan can meet: simple, distinct within a directory, and free of meta characters. */
  predicate PlainEntries(entries: seq<Entry>)
    decreases entries
  {
    entries != [] ==>
      && Simple(entries[0].name) && !HasMeta(entries[0].name)
      && (entries[0].DirEntry? && entries[0].listing.Listing? ==> PlainEntries(entries[0].listing.entries))
      && PlainEntries(entries[1..])
  }

  predicate PlainListing(listing: Listing)
  {
    listing.Listing? ==> PlainEntries(listing.entries)
  }

  /** Every directory's names in the ascending order Glob sorts them into. */
  predicate SortedEntries(entries: seq<Entry>)
    decreases entries
  {
    entries != [] ==>
      && (forall j :: 1 <= j < |entries| ==> Less(entries[0].name, entries[j].name))
      && (entries[0].DirEntry? && entries[0].listing.Listing? ==> SortedEntries(entries[0].listing.entries))
      && SortedEntries(entries[1..])
  }

  predicate SortedListing(listing: Listing)
  {
    listing.Listing? ==> SortedEntries(listing.entries)
  }

  lemma CleanKeepsMetaFree(s: string)
    requires !HasMeta(s)
    ensures !HasMeta(Clean(s))
  {
    forall c | c in Clean(s) ensures c != '*' && c != '?' && c != '[' && c != '\\' {
      CleanChars(s, c);
    }
  }

  lemma GlobPathMetaFree(path: string, pattern: string, name: string)
    requires !HasMeta(path) && !HasMeta(name)
    requires GlobSelects(pattern, name)
    ensures !HasMeta(GlobPath(path, pattern, name))
  {
    if HasMeta(pattern) {
      var d := GlobDir(path);
      assert !HasMeta(d + "/" + name);
      CleanKeepsMetaFree(d + "/" + name);
    } else {
      assert pattern == name;
      assert !HasMeta(path + "/" + pattern);
    }
  }

  lemma BaseOfGlobPath(path: string, pattern: string, name: string)
    requires Simple(pattern) && Simple(name) && GlobSelects(pattern, name)
    ensures Base(GlobPath(path, pattern, name)) == name
  {
    if HasMeta(pattern) {
      BaseOfJoinName(GlobDir(path), name);
    } else {
      BaseOfSlash(path, pattern);
    }
  }

  /** Under a plain tree and path, the scan fails exactly when the pattern is malformed. */
  lemma ScanFailsIffMalformed(path: string, listing: Listing, pattern: string, excludes: seq<string>)
    requires Simple(pattern) && !HasMeta(path) && PlainListing(listing)
    ensures Scanned(path, listing, pattern, excludes).Err? <==> !WellFormed(pattern)
  {
    LiteralPrefix(path + "/", pattern);
    if WellFormed(pattern) && listing.Listing? {
      ScanEntriesSucceed(path, listing.entries, pattern, excludes);
    }
  }

  lemma {:induction false} ScanEntriesSucceed(path: string, entries: seq<Entry>, pattern: string, excludes: seq<string>)
    requires Simple(pattern) && WellFormed(pattern) && !HasMeta(path) && PlainEntries(entries)
    ensures ScannedEntries(path, entries, pattern, excludes).Ok?
    decreases entries
  {
    if entries != [] {
      var e := entries[0];
      if GlobSelects(pattern, e.name) {
        var p := GlobPath(path, pattern, e.name);
        GlobPathMetaFree(path, pattern, e.name);
        LiteralPrefix(p + "/", pattern);
        if e.DirEntry? && e.listing.Listing? {
          ScanEntriesSucceed(p, e.listing.entries, pattern, excludes);
        }
      }
      ScanEntriesSucceed(path, entries[1..], pattern, excludes);
    }
  }

  /** Every path a scan returns names an entry Glob selected and no exclude pattern matches. */
  lemma {:induction false} ScanResultsSelected(path: string, entries: seq<Entry>, pattern: string, excludes: seq<string>)
    requires Simple(pattern) && PlainEntries(entries)
    requires ScannedEntries(path, entries, pattern, excludes).Ok?
    ensures forall r :: r in ScannedEntries(path, entries, pattern, excludes).value ==>
      GlobSelects(pattern, Base(r)) && !IsExcluded(Base(r), excludes)
    decreases entries
  {
    if entries != [] {
      var e := entries[0];
      ScanResultsSelected(path, entries[1..], pattern, excludes);
      if GlobSelects(pattern, e.name) {
        var p := GlobPath(path, pattern, e.name);
        BaseOfGlobPath(path, pattern, e.name);
        if e.DirEntry? && e.listing.Listing? && !IsExcluded(Base(p), excludes) && WellFormed(p + "/" + pattern) {
          ScanResultsSelected(p, e.listing.entries, pattern, excludes);
        }
      }
    }
  }

  /** A directory whose own name Glob does not select is never looked into. */
  lemma {:induction false} ScanSkipsUnselected(path: string, entries: seq<Entry>, pattern: string, excludes: seq<string>)
    requires Simple(pattern)
    requires forall i :: 0 <= i < |entries| ==> !GlobSelects(pattern, entries[i].name)
    ensures ScannedEntries(path, entries, pattern, excludes) == Ok([])
    decreases entries
  {
    if entries != [] {
      assert !GlobSelects(pattern, entries[0].name);
      assert forall i :: 0 <= i < |entries[1..]| ==> entries[1..][i] == entries[i + 1];
      ScanSkipsUnselected(path, entries[1..], pattern, excludes);
      var none: seq<string> := [];
      assert none + none == none;
    }
  }

  /** A selected directory in which nothing is selected is reported itself. */
  lemma EmptyDirListsItself(path: string, e: Entry, pattern: string, excludes: seq<string>)
    requires Simple(pattern) && e.DirEntry? && e.listing.Listing?
    requires GlobSelects(pattern, e.name)
    requires !IsExcluded(Base(GlobPath(path, pattern, e.name)), excludes)
    requires WellFormed(GlobPath(path, pattern, e.name) + "/" + pattern)
    requires forall i :: 0 <= i < |e.listing.entries| ==> !GlobSelects(pattern, e.listing.entries[i].name)
    ensures ScannedEntries(path, [e], pattern, excludes) == Ok([GlobPath(path, pattern, e.name)])
  {
    var p := GlobPath(path, pattern, e.name);
    ScanSkipsUnselected(p, e.listing.entries, pattern, excludes);
    assert [e][1..] == [];
    assert [p] + [] == [p];
  }
}
