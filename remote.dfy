/**
 * The remote-side helpers (pkg/util/remote.go): stat queries, the
 * part-by-part directory maker, and the regular-expression scanner.
 */
module RemoteFiles {
  import opened Wrappers
  import opened Text
  import opened Paths
  import opened Glob
  import opened Helpers
  import opened FileSystem

  /** RemotePathExists: "does not exist" is false, any other stat error is reported. */
  function RemotePathExists(fs: Fs, p: string): (r: Result<bool, Error>)
    ensures r.Err? <==> p != "" && (StatOp, Key(p)) in fs.faults
    ensures r.Err? ==> r.error == StatError(p)
    ensures r.Ok? ==> (r.value <==> p != "" && Key(p) in fs.nodes)
  {
    match Lookup(fs, p)
    case Failed => Err(StatError(p))
    case Missing => Ok(false)
    case Found(_) => Ok(true)
  }

  /** RemoteIsDirectory: as RemotePathExists, and the node must be a directory. */
  function RemoteIsDirectory(fs: Fs, p: string): (r: Result<bool, Error>)
    ensures r.Err? <==> RemotePathExists(fs, p).Err?
    ensures r.Err? ==> r.error == StatError(p)
    ensures r.Ok? ==> (r.value <==> p != "" && IsDirAt(fs, Key(p)))
  {
    match Lookup(fs, p)
    case Failed => Err(StatError(p))
    case Missing => Ok(false)
    case Found(n) => Ok(n.Dir?)
  }

  // ---------------------------------------------------------------------------
  // RemoteMkdirAll

  /** The parts RemoteMkdirAll walks: the rewritten path split at `sep`, a leading empty part standing for the root. */
  function MkdirAllParts(path: string, sep: string): (parts: seq<string>)
    requires |sep| == 1
    ensures |parts| >= 1
  {
    var parts := Split(ReplaceSepWith(path, sep), sep[0]);
    if parts[0] == "" then [sep] + parts[1..] else parts
  }

  /** The directory RemoteMkdirAll looks at for each part: the parts so far, joined. */
  function Prefixes(acc: string, parts: seq<string>): (ds: seq<string>)
    ensures |ds| == |parts|
    decreases |parts|
  {
    if parts == [] then [] else var d := Join(acc, parts[0]); [d] + Prefixes(d, parts[1..])
  }

  /** Whether RemoteMkdirAll passes a directory by without looking at it. */
  predicate Skipped(d: string, sep: string)
  {
    d == sep || d == "."
  }

  /**
   * The loop of RemoteMkdirAll from the directory `acc` on: each prefix that
   * is not skipped is stat'ed and made when missing.  The host only gains
   * directories, with the host's default mode and time.
   */
  function MkdirAllFrom(fs: Fs, acc: string, parts: seq<string>, sep: string): (r: (Fs, Outcome))
    ensures Keeps(fs, r.0)
    ensures forall k :: k in r.0.nodes && k !in fs.nodes ==> r.0.nodes[k] == Dir(fs.newDirMode, fs.now)
    decreases |parts|
  {
    if parts == [] then (fs, Done)
    else
      var d := Join(acc, parts[0]);
      if Skipped(d, sep) then MkdirAllFrom(fs, d, parts[1..], sep)
      else
        match RemotePathExists(fs, d)
        case Err(e) => (fs, Fail(e))
        case Ok(true) => MkdirAllFrom(fs, d, parts[1..], sep)
        case Ok(false) =>
          var made := Mkdir(fs, d, fs.newDirMode);
          if !made.ok then (fs, Fail(MkdirError(d)))
          else MkdirAllFrom(made.fs, d, parts[1..], sep)
  }

  /** RemoteMkdirAll as a change of the remote host. */
  function RemoteMkdirAllEffect(fs: Fs, path: string, sep: string): (Fs, Outcome)
    requires |sep| == 1
  {
    MkdirAllFrom(fs, "", MkdirAllParts(path, sep), sep)
  }

  /** RemoteMkdirAll on the session's remote host. */
  method RemoteMkdirAll(hosts: Hosts, path: string, sep: string) returns (out: Outcome)
    requires |sep| == 1
    modifies hosts
    ensures hosts.local == old(hosts.local)
    ensures (hosts.remote, out) == RemoteMkdirAllEffect(old(hosts.remote), path, sep)
  {
    var parts := MkdirAllParts(path, sep);
    var remoteDir := "";
    var i := 0;
    while i < |parts|
      invariant 0 <= i <= |parts|
      invariant hosts.local == old(hosts.local)
      invariant RemoteMkdirAllEffect(old(hosts.remote), path, sep) == MkdirAllFrom(hosts.remote, remoteDir, parts[i..], sep)
    {
      assert parts[i..][0] == parts[i] && parts[i..][1..] == parts[i + 1..];
      remoteDir := Join(remoteDir, parts[i]);
      if !Skipped(remoteDir, sep) {
        var found := RemotePathExists(hosts.remote, remoteDir);
        if found.Err? {
          return Fail(found.error);
        }
        if !found.value {
          var made := Mkdir(hosts.remote, remoteDir, hosts.remote.newDirMode);
          if !made.ok {
            return Fail(MkdirError(remoteDir));
          }
          hosts.remote := made.fs;
        }
      }
      i := i + 1;
    }
    return Done;
  }

  /** On success, every prefix that is not skipped exists and stats cleanly. */
  lemma {:induction false} MkdirAllMakesPrefixes(fs: Fs, acc: string, parts: seq<string>, sep: string)
    requires MkdirAllFrom(fs, acc, parts, sep).1 == Done
    ensures var r := MkdirAllFrom(fs, acc, parts, sep);
      forall i :: 0 <= i < |parts| && !Skipped(Prefixes(acc, parts)[i], sep) ==> Lookup(r.0, Prefixes(acc, parts)[i]).Found?
    decreases |parts|
  {
    if parts != [] {
      var d := Join(acc, parts[0]);
      var r := MkdirAllFrom(fs, acc, parts, sep);
      var ds := Prefixes(acc, parts);
      assert ds == [d] + Prefixes(d, parts[1..]);
      var next := if Skipped(d, sep) || RemotePathExists(fs, d) == Ok(true) then fs else Mkdir(fs, d, fs.newDirMode).fs;
      assert r == MkdirAllFrom(next, d, parts[1..], sep);
      if !Skipped(d, sep) {
        MkdirAllTurn(fs, d, sep);
      }
      MkdirAllMakesPrefixes(next, d, parts[1..], sep);
      forall i | 0 <= i < |parts| && !Skipped(ds[i], sep)
        ensures Lookup(r.0, ds[i]).Found?
      {
        if i > 0 {
          assert ds[i] == Prefixes(d, parts[1..])[i - 1];
        }
      }
    }
  }

  /** A turn that finds its prefix, or makes it, leaves it on the host. */
  lemma MkdirAllTurn(fs: Fs, d: string, sep: string)
    requires RemotePathExists(fs, d) == Ok(true) || (RemotePathExists(fs, d) == Ok(false) && Mkdir(fs, d, fs.newDirMode).ok)
    ensures var next := if RemotePathExists(fs, d) == Ok(true) then fs else Mkdir(fs, d, fs.newDirMode).fs;
      d != "" && (StatOp, Key(d)) !in next.faults && Key(d) in next.nodes
  {
  }

  /** Running RemoteMkdirAll again after it succeeded finds everything in place and changes nothing. */
  lemma {:induction false} MkdirAllIdempotent(fs: Fs, acc: string, parts: seq<string>, sep: string)
    requires MkdirAllFrom(fs, acc, parts, sep).1 == Done
    ensures var r := MkdirAllFrom(fs, acc, parts, sep); MkdirAllFrom(r.0, acc, parts, sep) == (r.0, Done)
    decreases |parts|
  {
    if parts != [] {
      var d := Join(acc, parts[0]);
      var r := MkdirAllFrom(fs, acc, parts, sep);
      var next := if Skipped(d, sep) || RemotePathExists(fs, d) == Ok(true) then fs else Mkdir(fs, d, fs.newDirMode).fs;
      assert r == MkdirAllFrom(next, d, parts[1..], sep);
      MkdirAllIdempotent(next, d, parts[1..], sep);
      if !Skipped(d, sep) {
        assert Key(d) in next.nodes;
        assert RemotePathExists(r.0, d) == Ok(true);
      }
    }
  }

  /** Joining a run of simple names onto `acc` gives, at each step, `acc`'s elements followed by the names so far. */
  lemma {:induction false} PrefixesOfNames(acc: string, names: seq<string>)
    requires forall i :: 0 <= i < |names| ==> Simple(names[i])
    ensures forall i :: 0 <= i < |names| ==>
      Parse(Prefixes(acc, names)[i]) == PathValue(IsRooted(acc), Parse(acc).elems + names[..i + 1])
    decreases |names|
  {
    if names != [] {
      var d := Join(acc, names[0]);
      var e := Parse(acc).elems;
      assert Parse(d) == PathValue(IsRooted(acc), e + [names[0]]) && IsRooted(d) == IsRooted(acc) by {
        ParseJoinName(acc, names[0]);
        RenderOfJoinName(acc, names[0]);
        ParseIsClean(acc);
        CleanAppendSimple(IsRooted(acc), e, [names[0]]);
        RootedRender(IsRooted(acc), e + [names[0]]);
      }
      PrefixesOfNames(d, names[1..]);
      var ds := Prefixes(acc, names);
      assert ds == [d] + Prefixes(d, names[1..]);
      forall i | 0 <= i < |names|
        ensures Parse(ds[i]) == PathValue(IsRooted(acc), e + names[..i + 1])
      {
        if i > 0 {
          assert ds[i] == Prefixes(d, names[1..])[i - 1];
          SliceShift(e, names, i);
        } else {
          assert names[..1] == [names[0]];
        }
      }
    }
  }

  lemma SliceShift(e: seq<string>, names: seq<string>, i: nat)
    requires 0 < i < |names|
    ensures e + [names[0]] + names[1..][..i] == e + names[..i + 1]
  {
    assert names[..i + 1] == [names[0]] + names[1..][..i];
  }

  /**
   * For an absolute path of simple names, a successful RemoteMkdirAll leaves
   * every directory on the way, and the path itself, on the host.
   */
  lemma MkdirAllAbsolute(fs: Fs, names: seq<string>)
    requires |names| >= 1
    requires forall i :: 0 <= i < |names| ==> Simple(names[i]) && '\\' !in names[i]
    requires RemoteMkdirAllEffect(fs, [Sep] + JoinWith(names, Sep), [Sep]).1 == Done
    ensures forall i :: 1 <= i <= |names| ==>
      PathValue(true, names[..i]) in RemoteMkdirAllEffect(fs, [Sep] + JoinWith(names, Sep), [Sep]).0.nodes
  {
    var path := [Sep] + JoinWith(names, Sep);
    AbsoluteParts(names);
    RootIsClean();
    var root := [Sep];
    var parts := [root] + names;
    var r := RemoteMkdirAllEffect(fs, path, root);
    assert r == MkdirAllFrom(fs, [], parts, root);
    var ds := Prefixes([], parts);
    assert parts[0] == root && parts[1..] == names;
    assert ds == [root] + Prefixes(root, names);
    PrefixesOfNames(root, names);
    MkdirAllMakesPrefixes(fs, [], parts, root);
    FoundAlongNames(r.0, ds, names);
  }

  lemma FoundAlongNames(fs: Fs, ds: seq<string>, names: seq<string>)
    requires |ds| == |names| + 1
    requires forall i :: 0 <= i < |ds| && !Skipped(ds[i], [Sep]) ==> Lookup(fs, ds[i]).Found?
    requires forall i :: 0 <= i < |names| ==> Parse(ds[1..][i]) == PathValue(true, Parse([Sep]).elems + names[..i + 1])
    ensures forall i :: 1 <= i <= |names| ==> PathValue(true, names[..i]) in fs.nodes
  {
    RootIsClean();
    forall i | 1 <= i <= |names|
      ensures PathValue(true, names[..i]) in fs.nodes
    {
      assert ds[1..][i - 1] == ds[i];
      assert Parse(ds[i]) == PathValue(true, [] + names[..i]);
      assert [] + names[..i] == names[..i];
      assert !Skipped(ds[i], [Sep]);
    }
  }

  lemma AbsoluteParts(names: seq<string>)
    requires |names| >= 1
    requires forall i :: 0 <= i < |names| ==> Simple(names[i]) && '\\' !in names[i]
    ensures MkdirAllParts([Sep] + JoinWith(names, Sep), [Sep]) == [[Sep]] + names
  {
    var j := JoinWith(names, Sep);
    var path := [Sep] + j;
    NoBackslash(names);
    ReplaceSepKeeps(path);
    var parts := Split(path, Sep);
    assert parts == [[]] + names by {
      assert path == [] + [Sep] + j;
      SplitConcat([], j, Sep);
      SplitJoin(names, Sep);
      assert Split([], Sep) == [[]];
    }
    assert parts[1..] == names;
  }

  lemma NoBackslash(names: seq<string>)
    requires |names| >= 1
    requires forall i :: 0 <= i < |names| ==> '\\' !in names[i]
    ensures '\\' !in [Sep] + JoinWith(names, Sep)
  {
    if '\\' in JoinWith(names, Sep) {
      JoinWithChars(names, Sep, '\\');
    }
  }

  lemma ReplaceSepKeeps(path: string)
    requires '\\' !in path
    ensures ReplaceSepWith(path, [Sep]) == path
  {
    var r := ReplaceSepWith(path, [Sep]);
    assert |r| == |path|;
    forall i | 0 <= i < |path| ensures r[i] == path[i] {
      assert path[i] in path;
    }
  }

  /** "/" is clean, "." has no elements, and joining "/" onto nothing gives "/". */
  lemma RootIsClean()
    ensures Parse([Sep]) == PathValue(true, [])
    ensures Parse(".") == PathValue(false, [])
    ensures Join([], [Sep]) == [Sep]
  {
    var empty: string := [];
    assert [Sep] == empty + [Sep] + empty;
    SplitConcat(empty, empty, Sep);
    assert Split(empty, Sep) == [empty];
    assert Split([Sep], Sep) == [empty, empty];
    assert [empty, empty][..1] == [empty];
    assert [empty][..0] == [];
    assert Reduce([empty], true) == [];
    assert Reduce([empty, empty], true) == [];
    SplitNoSep(".", Sep);
    assert ["."][..0] == [];
    assert Reduce(["."], false) == [];
    assert !IsRooted(".");
  }

  // ---------------------------------------------------------------------------
  // RemoteScan's pattern: the glob rewritten into a regular expression.

  /** The regular expressions the rewrite produces: `.*`, `.`, and single characters. */
  datatype RegexToken = AnyRun | AnyOne | Ch(c: char)

  /** Characters with a meaning in Go's regular-expression syntax that the rewrite leaves as they are. */
  predicate OtherRegexMeta(c: char)
  {
    c in "\\+()|[]{}^$"
  }

  /** A pattern whose rewrite holds no regular-expression syntax besides the rewrite's own. */
  predicate RegexSafe(pattern: string)
  {
    forall i :: 0 <= i < |pattern| ==> !OtherRegexMeta(pattern[i])
  }

  /** The three rewrites, in the source's order: `.` escaped first, then `*` and `?`. */
  function RegexOf(pattern: string): string
  {
    ReplaceChar(ReplaceChar(ReplaceChar(pattern, '.', "\\."), '*', ".*"), '?', ".")
  }

  /** What each pattern character becomes. */
  function Piece(c: char): string
  {
    if c == '.' then "\\." else if c == '*' then ".*" else if c == '?' then "." else [c]
  }

  function Pieces(p: string): string
    decreases |p|
  {
    if p == [] then [] else Piece(p[0]) + Pieces(p[1..])
  }

  /** The token each pattern character stands for. */
  function Translate(p: string): (ts: seq<RegexToken>)
    ensures |ts| == |p|
    decreases |p|
  {
    if p == [] then []
    else [if p[0] == '*' then AnyRun else if p[0] == '?' then AnyOne else Ch(p[0])] + Translate(p[1..])
  }

  /** The first token of a regular expression in the subset the rewrite produces. */
  function NextRegexToken(r: string): (t: Option<(RegexToken, string)>)
    requires r != []
    ensures t.Some? ==> |t.value.1| < |r|
  {
    if r[0] == '\\' then (if |r| >= 2 && r[1] == '.' then Some((Ch('.'), r[2..])) else None)
    else if r[0] == '.' then (if |r| >= 2 && r[1] == '*' then Some((AnyRun, r[2..])) else Some((AnyOne, r[1..])))
    else if r[0] == '*' || r[0] == '?' || OtherRegexMeta(r[0]) then None
    else Some((Ch(r[0]), r[1..]))
  }

  /** How the regular-expression compiler reads an expression of that subset; None outside it. */
  function RegexTokens(r: string): Option<seq<RegexToken>>
    decreases |r|
  {
    if r == [] then Some([])
    else
      match NextRegexToken(r)
      case None => None
      case Some((t, rest)) =>
        match RegexTokens(rest)
        case None => None
        case Some(ts) => Some([t] + ts)
  }

  lemma {:induction false} ReplaceCharConcat(a: string, b: string, c: char, rep: string)
    ensures ReplaceChar(a + b, c, rep) == ReplaceChar(a, c, rep) + ReplaceChar(b, c, rep)
    decreases |a|
  {
    if a != [] {
      assert (a + b)[1..] == a[1..] + b;
      ReplaceCharConcat(a[1..], b, c, rep);
    } else {
      assert a + b == b;
    }
  }

  lemma RegexOfConcat(a: string, b: string)
    ensures RegexOf(a + b) == RegexOf(a) + RegexOf(b)
  {
    ReplaceCharConcat(a, b, '.', "\\.");
    var a1 := ReplaceChar(a, '.', "\\.");
    var b1 := ReplaceChar(b, '.', "\\.");
    ReplaceCharConcat(a1, b1, '*', ".*");
    ReplaceCharConcat(ReplaceChar(a1, '*', ".*"), ReplaceChar(b1, '*', ".*"), '?', ".");
  }

  lemma RegexOfChar(c: char)
    ensures RegexOf([c]) == Piece(c)
  {
    var empty: string := [];
    assert [c][1..] == empty;
    assert ReplaceChar(empty, '.', "\\.") == empty;
    if c == '.' {
      assert ReplaceChar([c], '.', "\\.") == "\\.";
      assert ReplaceChar("\\.", '*', ".*") == "\\.";
      assert ReplaceChar("\\.", '?', ".") == "\\.";
    } else if c == '*' {
      assert ReplaceChar([c], '.', "\\.") == [c];
      assert ReplaceChar([c], '*', ".*") == ".*";
      assert ReplaceChar(".*", '?', ".") == ".*";
    } else if c == '?' {
      assert ReplaceChar([c], '.', "\\.") == [c];
      assert ReplaceChar([c], '*', ".*") == [c];
      assert ReplaceChar([c], '?', ".") == ".";
    } else {
      assert ReplaceChar([c], '.', "\\.") == [c];
      assert ReplaceChar([c], '*', ".*") == [c];
      assert ReplaceChar([c], '?', ".") == [c];
    }
  }

  /** The three whole-text rewrites act character by character. */
  lemma {:induction false} RegexOfPieces(p: string)
    ensures RegexOf(p) == Pieces(p)
    decreases |p|
  {
    if p != [] {
      assert p == [p[0]] + p[1..];
      RegexOfConcat([p[0]], p[1..]);
      RegexOfChar(p[0]);
      RegexOfPieces(p[1..]);
    } else {
      assert ReplaceChar(p, '.', "\\.") == [];
    }
  }

  lemma PiecesHead(p: string)
    requires p != []
    ensures Pieces(p) != [] && Pieces(p)[0] != '*'
  {
  }

  /** Read back by the compiler, the rewritten pattern is the intended token sequence. */
  lemma {:induction false} RegexTokensOfPieces(p: string)
    requires RegexSafe(p)
    ensures RegexTokens(Pieces(p)) == Some(Translate(p))
    decreases |p|
  {
    if p != [] {
      var c := p[0];
      var rest := Pieces(p[1..]);
      assert RegexSafe(p[1..]) by {
        forall i | 0 <= i < |p[1..]| ensures !OtherRegexMeta(p[1..][i]) {
          assert p[1..][i] == p[i + 1];
        }
      }
      RegexTokensOfPieces(p[1..]);
      if p[1..] != [] {
        PiecesHead(p[1..]);
      }
      assert !OtherRegexMeta(p[0]);
      var r := Piece(c) + rest;
      assert Pieces(p) == r;
      var t := if c == '*' then AnyRun else if c == '?' then AnyOne else Ch(c);
      if c == '.' {
        assert r[2..] == rest;
      } else if c == '*' {
        assert r[2..] == rest;
      } else {
        assert r[1..] == rest;
      }
      assert NextRegexToken(r) == Some((t, rest));
    } else {
      assert Pieces(p) == [];
    }
  }

  /**
   * The expression RemoteScan compiles, as the compiler reads it: for a
   * pattern without other regular-expression syntax it is exactly the
   * pattern's own tokens, `*` as `.*`, `?` as `.`, and `.` a literal dot.
   */
  function Compiled(pattern: string): (ts: seq<RegexToken>)
    requires RegexSafe(pattern)
    ensures RegexTokens(RegexOf(pattern)) == Some(ts)
    ensures ts == Translate(pattern)
  {
    RegexOfPieces(pattern);
    RegexTokensOfPieces(pattern);
    RegexTokens(RegexOf(pattern)).value
  }

  /** Whether the tokens match the whole text; `.` does not match a newline. */
  function MatchRegex(ts: seq<RegexToken>, s: string): bool
    decreases |ts| + |s|
  {
    if ts == [] then s == []
    else match ts[0]
      case AnyRun => MatchRegex(ts[1..], s) || (s != [] && s[0] != '\n' && MatchRegex(ts, s[1..]))
      case AnyOne => s != [] && s[0] != '\n' && MatchRegex(ts[1..], s[1..])
      case Ch(c) => s != [] && s[0] == c && MatchRegex(ts[1..], s[1..])
  }

  /** MatchString: the expression matches some part of the name, since nothing anchors it. */
  predicate RegexSelects(pattern: string, name: string)
    requires RegexSafe(pattern)
  {
    exists i, j :: 0 <= i <= j <= |name| && MatchRegex(Compiled(pattern), name[i..j])
  }

  /** Unanchored: a name that contains a selected name is selected as well. */
  lemma SelectsWithin(pattern: string, name: string, pre: string, post: string)
    requires RegexSafe(pattern) && RegexSelects(pattern, name)
    ensures RegexSelects(pattern, pre + name + post)
  {
    var i, j :| 0 <= i <= j <= |name| && MatchRegex(Compiled(pattern), name[i..j]);
    var whole := pre + name + post;
    assert whole[|pre| + i..|pre| + j] == name[i..j];
  }

  /** A pattern without `*` and `?` selects exactly the names that contain it. */
  lemma LiteralSelects(pattern: string, name: string)
    requires RegexSafe(pattern) && '*' !in pattern && '?' !in pattern
    ensures RegexSelects(pattern, name) <==> exists i :: OccursAt(pattern, name, i)
  {
    var ts := Compiled(pattern);
    if RegexSelects(pattern, name) {
      var i, j :| 0 <= i <= j <= |name| && MatchRegex(ts, name[i..j]);
      MatchChars(pattern, name[i..j]);
      assert OccursAt(pattern, name, i);
    }
    if exists i :: OccursAt(pattern, name, i) {
      var i :| OccursAt(pattern, name, i);
      MatchChars(pattern, pattern);
      assert MatchRegex(ts, name[i..i + |pattern|]);
    }
  }

  lemma {:induction false} MatchChars(p: string, s: string)
    requires '*' !in p && '?' !in p
    ensures MatchRegex(Translate(p), s) <==> s == p
    decreases |p|
  {
    if p != [] {
      var t := Translate(p);
      assert p[0] in p;
      assert t[0] == Ch(p[0]) && t[1..] == Translate(p[1..]);
      assert '*' !in p[1..] && '?' !in p[1..] by {
        assert forall c :: c in p[1..] ==> c in p;
      }
      if s != [] {
        MatchChars(p[1..], s[1..]);
        assert MatchRegex(t, s) == (s[0] == p[0] && MatchRegex(Translate(p[1..]), s[1..]));
        assert s == p <==> s[0] == p[0] && s[1..] == p[1..] by {
          assert s == [s[0]] + s[1..];
          assert p == [p[0]] + p[1..];
        }
      }
    }
  }

  /** The glob tokens of a pattern without classes or escapes. */
  function GlobTokensOf(p: string): (ts: seq<Token>)
    decreases |p|
  {
    if p == [] then []
    else [if p[0] == '*' then Star else if p[0] == '?' then AnyChar else Lit(p[0])] + GlobTokensOf(p[1..])
  }

  lemma {:induction false} GlobTokensOfSafe(p: string)
    requires RegexSafe(p)
    ensures Tokens(p) == Some(GlobTokensOf(p))
    decreases |p|
  {
    if p != [] {
      assert !OtherRegexMeta(p[0]);
      assert RegexSafe(p[1..]) by {
        forall i | 0 <= i < |p[1..]| ensures !OtherRegexMeta(p[1..][i]) {
          assert p[1..][i] == p[i + 1];
        }
      }
      GlobTokensOfSafe(p[1..]);
    }
  }

  /**
   * For a name with neither a separator nor a newline, the rewritten
   * expression matches the whole name exactly when the glob does.
   */
  lemma {:induction false} WholeMatchAgrees(p: string, name: string)
    requires '/' !in name && '\n' !in name
    ensures MatchRegex(Translate(p), name) == MatchTokens(GlobTokensOf(p), name)
    decreases |p| + |name|
  {
    if p != [] {
      var ts := Translate(p);
      var gs := GlobTokensOf(p);
      assert ts[1..] == Translate(p[1..]);
      assert gs[1..] == GlobTokensOf(p[1..]);
      var tail := if name == [] then [] else name[1..];
      assert '/' !in tail && '\n' !in tail by {
        assert forall c :: c in tail ==> c in name;
      }
      if name != [] {
        assert name[0] in name;
      }
      WholeMatchAgrees(p[1..], name);
      WholeMatchAgrees(p[1..], tail);
      if p[0] == '*' && name != [] {
        WholeMatchAgrees(p, tail);
      }
    }
  }

  /** Every name the local scanner's glob selects, the remote scanner's expression selects too. */
  lemma GlobMatchSelects(pattern: string, name: string)
    requires RegexSafe(pattern) && '/' !in name && '\n' !in name
    requires Matches(pattern, name)
    ensures RegexSelects(pattern, name)
  {
    GlobTokensOfSafe(pattern);
    WholeMatchAgrees(pattern, name);
    assert name[0..|name|] == name;
  }

  // ---------------------------------------------------------------------------
  // RemoteScan

  /**
   * What RemoteScan returns for the listing of `path`: entries are joined with
   * "/", excluded names are dropped, every directory is scanned whatever its
   * name (an empty result reports the directory itself), and a file is kept
   * when the expression finds a match in its name.
   */
  function RemoteScanned(path: string, listing: Listing, pattern: string, excludes: seq<string>): Result<seq<string>, Error>
    requires RegexSafe(pattern)
  {
    match listing
    case Unreadable => Err(ReadDirError(path))
    case Listing(entries) => RemoteScannedEntries(path, entries, pattern, excludes)
  }

  /** What RemoteScan's loop collects over the given entries of one directory, with the scans it starts below them. */
  function RemoteScannedEntries(path: string, entries: seq<Entry>, pattern: string, excludes: seq<string>): Result<seq<string>, Error>
    requires RegexSafe(pattern)
    decreases entries
  {
    if entries == [] then Ok([])
    else
      var e := entries[0];
      var full := path + "/" + e.name;
      var here: Result<seq<string>, Error> :=
        if IsExcluded(e.name, excludes) then Ok([])
        else if e.DirEntry? then
          match e.listing
          case Unreadable => Err(ReadDirError(full))
          case Listing(sub) =>
            match RemoteScannedEntries(full, sub, pattern, excludes)
            case Err(err) => Err(err)
            case Ok(below) => Ok(if below == [] then [full] else below)
        else if RegexSelects(pattern, e.name) then Ok([full])
        else Ok([]);
      match here
      case Err(err) => Err(err)
      case Ok(found) =>
        match RemoteScannedEntries(path, entries[1..], pattern, excludes)
        case Err(err) => Err(err)
        case Ok(rest) => Ok(found + rest)
  }

  /** One entry's contribution, in terms of the scan of that entry's own listing. */
  lemma RemoteScannedSingle(path: string, e: Entry, pattern: string, excludes: seq<string>)
    requires RegexSafe(pattern)
    ensures RemoteScannedEntries(path, [e], pattern, excludes) ==
      if IsExcluded(e.name, excludes) then Ok([])
      else if e.DirEntry? then
        match RemoteScanned(path + "/" + e.name, e.listing, pattern, excludes)
        case Err(err) => Err(err)
        case Ok(below) => Ok(if below == [] then [path + "/" + e.name] else below)
      else if RegexSelects(pattern, e.name) then Ok([path + "/" + e.name])
      else Ok([])
  {
    assert [e][0] == e && [e][1..] == [];
    var none: seq<string> := [];
    assert forall found: seq<string> :: found + none == found;
  }

  /** One turn of RemoteScan's loop: the entry's contribution joins the paths collected so far. */
  lemma RemoteScanStep(path: string, entries: seq<Entry>, i: nat, paths: seq<string>, found: seq<string>, pattern: string, excludes: seq<string>)
    requires RegexSafe(pattern) && i < |entries|
    requires RemoteScannedEntries(path, [entries[i]], pattern, excludes) == Ok(found)
    ensures Append(paths, RemoteScannedEntries(path, entries[i..], pattern, excludes))
      == Append(paths + found, RemoteScannedEntries(path, entries[i + 1..], pattern, excludes))
  {
    var es := entries[i..];
    assert es[0] == entries[i] && es[1..] == entries[i + 1..];
    var one := [es[0]];
    assert one[0] == es[0] && one[1..] == [];
    assert RemoteScannedEntries(path, one[1..], pattern, excludes) == Ok([]);
    RemoteScannedSingle(path, es[0], pattern, excludes);
    match RemoteScannedEntries(path, entries[i + 1..], pattern, excludes) {
      case Err(_) =>
      case Ok(more) =>
        assert RemoteScannedEntries(path, es, pattern, excludes) == Ok(found + more);
        assert paths + (found + more) == (paths + found) + more;
    }
  }

  /**
   * RemoteScan (pkg/util/remote.go): compile the rewritten pattern, read the
   * directory, and loop over its entries, scanning each directory in turn.
   */
  method RemoteScan(path: string, listing: Listing, pattern: string, excludes: seq<string>) returns (r: Result<seq<string>, Error>)
    requires RegexSafe(pattern)
    ensures r == RemoteScanned(path, listing, pattern, excludes)
    decreases listing
  {
    var re := Compiled(pattern);
    if listing.Unreadable? {
      return Err(ReadDirError(path));
    }
    var entries := listing.entries;
    var paths: seq<string> := [];
    var i := 0;
    assert entries[0..] == entries;
    match RemoteScannedEntries(path, entries, pattern, excludes) {
      case Ok(all) => assert paths + all == all;
      case Err(_) =>
    }
    while i < |entries|
      invariant 0 <= i <= |entries|
      invariant RemoteScanned(path, listing, pattern, excludes) == Append(paths, RemoteScannedEntries(path, entries[i..], pattern, excludes))
    {
      var e := entries[i];
      RemoteScannedSingle(path, e, pattern, excludes);
      var fullPath := path + "/" + e.name;
      var found: seq<string> := [];
      if !IsExcluded(e.name, excludes) {
        if e.DirEntry? {
          var below := RemoteScan(fullPath, e.listing, pattern, excludes);
          if below.Err? {
            return Err(below.error);
          }
          found := if below.value == [] then [fullPath] else below.value;
        } else if exists i, j :: 0 <= i <= j <= |e.name| && MatchRegex(re, e.name[i..j]) {
          found := [fullPath];
        }
      }
      RemoteScanStep(path, entries, i, paths, found, pattern, excludes);
      paths := paths + found;
      i := i + 1;
    }
    assert entries[i..] == [];
    assert paths + [] == paths;
    return Ok(paths);
  }

  /** Some directory the scan enters (not excluded, reached through directories that are not) cannot be read. */
  predicate ReachesUnreadable(entries: seq<Entry>, excludes: seq<string>)
    decreases entries
  {
    entries != [] &&
      ((!IsExcluded(entries[0].name, excludes) && entries[0].DirEntry? &&
         (entries[0].listing.Unreadable? || ReachesUnreadable(entries[0].listing.entries, excludes)))
       || ReachesUnreadable(entries[1..], excludes))
  }

  /** RemoteScan fails exactly when it meets a directory it cannot read; the pattern plays no part. */
  lemma {:induction false} RemoteScanFailsIff(path: string, entries: seq<Entry>, pattern: string, excludes: seq<string>)
    requires RegexSafe(pattern)
    ensures RemoteScannedEntries(path, entries, pattern, excludes).Err? <==> ReachesUnreadable(entries, excludes)
    decreases entries
  {
    if entries != [] {
      var e := entries[0];
      if e.DirEntry? && e.listing.Listing? {
        RemoteScanFailsIff(path + "/" + e.name, e.listing.entries, pattern, excludes);
      }
      RemoteScanFailsIff(path, entries[1..], pattern, excludes);
    }
  }

  /** Entry names are simple all the way down. */
  predicate SimpleTree(entries: seq<Entry>)
    decreases entries
  {
    entries != [] ==>
      && Simple(entries[0].name)
      && (entries[0].DirEntry? && entries[0].listing.Listing? ==> SimpleTree(entries[0].listing.entries))
      && SimpleTree(entries[1..])
  }

  /** No path RemoteScan returns ends in an excluded name. */
  lemma {:induction false} RemoteResultsNotExcluded(path: string, entries: seq<Entry>, pattern: string, excludes: seq<string>)
    requires RegexSafe(pattern) && SimpleTree(entries)
    requires RemoteScannedEntries(path, entries, pattern, excludes).Ok?
    ensures forall r :: r in RemoteScannedEntries(path, entries, pattern, excludes).value ==> !IsExcluded(Base(r), excludes)
    decreases entries
  {
    if entries != [] {
      var e := entries[0];
      var full := path + "/" + e.name;
      BaseOfSlash(path, e.name);
      if e.DirEntry? && e.listing.Listing? && !IsExcluded(e.name, excludes) {
        RemoteResultsNotExcluded(full, e.listing.entries, pattern, excludes);
      }
      RemoteResultsNotExcluded(path, entries[1..], pattern, excludes);
    }
  }

  /** What one entry contributes is part of what the whole directory returns. */
  lemma {:induction false} EntryIncluded(path: string, entries: seq<Entry>, pattern: string, excludes: seq<string>, k: nat)
    requires RegexSafe(pattern) && k < |entries|
    requires RemoteScannedEntries(path, entries, pattern, excludes).Ok?
    ensures RemoteScannedEntries(path, [entries[k]], pattern, excludes).Ok?
    ensures forall r :: r in RemoteScannedEntries(path, [entries[k]], pattern, excludes).value ==>
      r in RemoteScannedEntries(path, entries, pattern, excludes).value
    decreases k
  {
    var one := [entries[k]];
    assert one[1..] == [];
    if k == 0 {
      assert one[0] == entries[0];
    } else {
      assert entries[1..][k - 1] == entries[k];
      EntryIncluded(path, entries[1..], pattern, excludes, k - 1);
    }
  }

  /** A file that is not excluded and whose name the expression matches is returned. */
  lemma SelectedFileReturned(path: string, entries: seq<Entry>, pattern: string, excludes: seq<string>, k: nat)
    requires RegexSafe(pattern) && k < |entries|
    requires RemoteScannedEntries(path, entries, pattern, excludes).Ok?
    requires entries[k].FileEntry? && !IsExcluded(entries[k].name, excludes) && RegexSelects(pattern, entries[k].name)
    ensures path + "/" + entries[k].name in RemoteScannedEntries(path, entries, pattern, excludes).value
  {
    EntryIncluded(path, entries, pattern, excludes, k);
    assert [entries[k]][1..] == [];
  }

  /**
   * RemoteScan looks into every directory that is not excluded, whether or
   * not its name matches: a selected file one level down is returned.
   */
  lemma DescendsIntoEveryDir(path: string, entries: seq<Entry>, pattern: string, excludes: seq<string>, k: nat, m: nat)
    requires RegexSafe(pattern) && k < |entries|
    requires RemoteScannedEntries(path, entries, pattern, excludes).Ok?
    requires entries[k].DirEntry? && !IsExcluded(entries[k].name, excludes) && entries[k].listing.Listing?
    requires m < |entries[k].listing.entries|
    requires var f := entries[k].listing.entries[m]; f.FileEntry? && !IsExcluded(f.name, excludes) && RegexSelects(pattern, f.name)
    ensures path + "/" + entries[k].name + "/" + entries[k].listing.entries[m].name in RemoteScannedEntries(path, entries, pattern, excludes).value
  {
    var e := entries[k];
    var full := path + "/" + e.name;
    var sub := e.listing.entries;
    EntryIncluded(path, entries, pattern, excludes, k);
    assert [e][1..] == [];
    var below := RemoteScannedEntries(full, sub, pattern, excludes);
    assert below.Ok?;
    SelectedFileReturned(full, sub, pattern, excludes, m);
    assert below.value != [];
    assert RemoteScannedEntries(path, [e], pattern, excludes).value == below.value + [];
  }
}
