/**
 * Go's path/filepath on a platform whose only separator is '/': Clean, Join,
 * Base, Dir and Rel, built on a structured form of a cleaned path.
 */
module Paths {
  import opened Wrappers
  import opened Text

  const Sep: char := '/'

  /** A cleaned path: rooted at "/" or relative, and its elements in order. */
  datatype PathValue = PathValue(rooted: bool, elems: seq<string>)

  predicate IsRooted(s: string)
  {
    |s| > 0 && s[0] == Sep
  }

  /** A name a directory listing can hold: one non-empty element that is neither "." nor "..". */
  predicate Simple(name: string)
  {
    name != "" && name != "." && name != ".." && Sep !in name
  }

  /** The elements Clean keeps: no empty or "." element, and ".." only as a leading run of a relative path. */
  predicate CleanElems(rooted: bool, elems: seq<string>)
  {
    && (forall i :: 0 <= i < |elems| ==> elems[i] != "" && elems[i] != "." && Sep !in elems[i])
    && (forall i :: 0 <= i < |elems| && elems[i] == ".." ==> !rooted)
    && (forall i, j :: 0 <= i < j < |elems| && elems[j] == ".." ==> elems[i] == "..")
  }

  /** One element of Clean's left-to-right scan, given the elements kept so far. */
  function Push(kept: seq<string>, e: string, rooted: bool): seq<string>
  {
    if e == "" || e == "." then kept
    else if e == ".." then
      if |kept| > 0 && kept[|kept| - 1] != ".." then kept[..|kept| - 1]
      else if rooted then kept
      else kept + [".."]
    else kept + [e]
  }

  /** Clean's scan over all elements. */
  function Reduce(parts: seq<string>, rooted: bool): seq<string>
    decreases |parts|
  {
    if parts == [] then [] else Push(Reduce(parts[..|parts| - 1], rooted), parts[|parts| - 1], rooted)
  }

  /** The cleaned form of a path string. */
  function Parse(s: string): PathValue
  {
    PathValue(IsRooted(s), Reduce(Split(s, Sep), IsRooted(s)))
  }

  function Render(p: PathValue): string
  {
    if p.elems == [] then (if p.rooted then "/" else ".")
    else (if p.rooted then "/" else "") + JoinWith(p.elems, Sep)
  }

  /** filepath.Clean. */
  function Clean(s: string): string
  {
    Render(Parse(s))
  }

  /** filepath.Join of two elements: empty elements are ignored and the result is cleaned. */
  function Join(a: string, b: string): string
  {
    if a == "" then (if b == "" then "" else Clean(b)) else Clean(a + [Sep] + b)
  }

  function TrimTrailingSeps(s: string): (t: string)
    ensures |t| <= |s| && t == s[..|t|]
    ensures t != [] ==> t[|t| - 1] != Sep
    decreases |s|
  {
    if s != [] && s[|s| - 1] == Sep then TrimTrailingSeps(s[..|s| - 1]) else s
  }

  /** filepath.Base: the last element after trailing separators are dropped. */
  function Base(s: string): string
  {
    if s == "" then "."
    else
      var t := TrimTrailingSeps(s);
      if t == "" then "/" else var parts := Split(t, Sep); parts[|parts| - 1]
  }

  /** Index of the last separator, or -1. */
  function LastSep(s: string): (i: int)
    ensures -1 <= i < |s|
    ensures i >= 0 ==> s[i] == Sep
    ensures forall j :: i < j < |s| ==> s[j] != Sep
    decreases |s|
  {
    if s == [] then -1 else if s[|s| - 1] == Sep then |s| - 1 else LastSep(s[..|s| - 1])
  }

  /** filepath.Dir: everything up to the last separator, cleaned. */
  function Dir(s: string): string
  {
    Clean(s[..LastSep(s) + 1])
  }

  /**
   * filepath.Rel for a target inside the base: "." for the base itself and the
   * remaining elements for a descendant.  Targets outside the base yield None.
   */
  function Rel(base: string, targ: string): Option<string>
  {
    var b := Parse(base);
    var t := Parse(targ);
    if b == t then Some(".")
    else if b.rooted == t.rooted && |b.elems| < |t.elems| && t.elems[..|b.elems|] == b.elems
    then Some(JoinWith(t.elems[|b.elems|..], Sep))
    else None
  }

  // ---------------------------------------------------------------------------
  // Clean's scan keeps cleaned elements and leaves cleaned elements alone.

  lemma {:induction false} PushKeepsClean(kept: seq<string>, e: string, rooted: bool)
    requires CleanElems(rooted, kept)
    requires Sep !in e
    ensures CleanElems(rooted, Push(kept, e, rooted))
  {
    var r := Push(kept, e, rooted);
    if e == ".." && !(|kept| > 0 && kept[|kept| - 1] != "..") && !rooted {
      // every kept element is "..": the last one is, so all before it are
      forall i | 0 <= i < |kept| ensures kept[i] == ".." {
        if i < |kept| - 1 { assert kept[|kept| - 1] == ".."; }
      }
    } else if e != "" && e != "." && e != ".." {
      assert r == kept + [e];
    }
  }

  /** The elements of a parsed path are clean. */
  lemma {:induction false} ReduceKeepsClean(parts: seq<string>, rooted: bool)
    requires forall i :: 0 <= i < |parts| ==> Sep !in parts[i]
    ensures CleanElems(rooted, Reduce(parts, rooted))
    decreases |parts|
  {
    if parts != [] {
      ReduceKeepsClean(parts[..|parts| - 1], rooted);
      PushKeepsClean(Reduce(parts[..|parts| - 1], rooted), parts[|parts| - 1], rooted);
    }
  }

  lemma ParseIsClean(s: string)
    ensures CleanElems(Parse(s).rooted, Parse(s).elems)
  {
    ReduceKeepsClean(Split(s, Sep), IsRooted(s));
  }

  /** Scanning cleaned elements after a prefix that reduces to nothing gives them back. */
  lemma {:induction false} ReduceAfterEmpty(pre: seq<string>, elems: seq<string>, rooted: bool)
    requires Reduce(pre, rooted) == []
    requires CleanElems(rooted, elems)
    ensures Reduce(pre + elems, rooted) == elems
    decreases |elems|
  {
    if elems == [] {
      assert pre + elems == pre;
    } else {
      var init := elems[..|elems| - 1];
      var last := elems[|elems| - 1];
      assert CleanElems(rooted, init);
      ReduceAfterEmpty(pre, init, rooted);
      assert (pre + elems)[..|pre + elems| - 1] == pre + init;
      if last == ".." {
        assert init == [] || init[|init| - 1] == "..";
      }
      assert init + [last] == elems;
    }
  }

  /** Simple names are always kept. */
  lemma {:induction false} ReduceAppendSimple(parts: seq<string>, names: seq<string>, rooted: bool)
    requires forall i :: 0 <= i < |names| ==> Simple(names[i])
    ensures Reduce(parts + names, rooted) == Reduce(parts, rooted) + names
    decreases |names|
  {
    if names == [] {
      assert parts + names == parts;
    } else {
      var init := names[..|names| - 1];
      ReduceAppendSimple(parts, init, rooted);
      assert (parts + names)[..|parts + names| - 1] == parts + init;
      assert (parts + names)[|parts + names| - 1] == names[|names| - 1];
      assert Reduce(parts, rooted) + init + [names[|names| - 1]] == Reduce(parts, rooted) + names;
    }
  }

  /** Parse undoes Render on a cleaned path, so a cleaned path string is its own key. */
  lemma ParseRender(p: PathValue)
    requires CleanElems(p.rooted, p.elems)
    ensures Parse(Render(p)) == p
  {
    if p.elems == [] {
      ParseRenderEmpty(p.rooted);
    } else {
      RenderSegments(p.rooted, p.elems);
      RootedRender(p.rooted, p.elems);
      var pre: seq<string> := if p.rooted then [""] else [];
      assert Reduce(pre, p.rooted) == [] by {
        if p.rooted { assert [""][..0] == []; }
      }
      ReduceAfterEmpty(pre, p.elems, p.rooted);
    }
  }

  /** "/" and "." are the cleaned forms of the root and of the current directory. */
  /** The empty path cleans to ".", no elements. */
  lemma ParseEmpty()
    ensures Parse("") == PathValue(false, [])
  {
    assert Split("", Sep) == [""];
    assert Reduce([""], false) == Push(Reduce([], false), "", false);
  }

  /** filepath.Dir of the empty path is ".". */
  lemma DirOfEmpty()
    ensures Dir("") == "."
  {
    ParseEmpty();
  }

  lemma ParseRenderEmpty(rooted: bool)
    ensures Parse(Render(PathValue(rooted, []))) == PathValue(rooted, [])
  {
    if rooted {
      SplitLeadingSep("", Sep);
      assert Split("/", Sep) == ["", ""];
      assert ["", ""][..1] == [""];
      assert [""][..0] == [];
    } else {
      SplitNoSep(".", Sep);
      assert ["."][..0] == [];
    }
  }

  lemma {:induction false} JoinWithHead(parts: seq<string>, sep: char)
    requires |parts| >= 1 && parts[0] != ""
    ensures |JoinWith(parts, sep)| > 0 && JoinWith(parts, sep)[0] == parts[0][0]
  {
  }

  /** A rendered path starts at the root exactly when it is rooted. */
  lemma RootedRender(rooted: bool, elems: seq<string>)
    requires CleanElems(rooted, elems)
    ensures IsRooted(Render(PathValue(rooted, elems))) == rooted
  {
    if elems != [] && !rooted {
      JoinWithHead(elems, Sep);
    }
  }

  /** Adding simple names keeps a path's elements clean. */
  lemma CleanAppendSimple(rooted: bool, elems: seq<string>, names: seq<string>)
    requires CleanElems(rooted, elems)
    requires forall i :: 0 <= i < |names| ==> Simple(names[i])
    ensures CleanElems(rooted, elems + names)
  {
  }

  /** Cleaning twice is cleaning once. */
  lemma CleanIdempotent(s: string)
    ensures Parse(Clean(s)) == Parse(s)
    ensures Clean(Clean(s)) == Clean(s)
  {
    ParseIsClean(s);
    ParseRender(Parse(s));
  }

  // ---------------------------------------------------------------------------
  // Joining simple names.

  /** Joining a simple name adds exactly that element to the cleaned path. */
  lemma ParseJoinName(a: string, n: string)
    requires Simple(n)
    ensures Parse(Join(a, n)) == PathValue(IsRooted(a), Parse(a).elems + [n])
  {
    var r := IsRooted(a);
    SplitNoSep(n, Sep);
    if a == "" {
      assert Split(a, Sep) == [""];
      assert Parse(n) == PathValue(false, Reduce([n], false));
      assert [n][..0] == [];
      CleanIdempotent(n);
    } else {
      var s := a + [Sep] + n;
      SplitConcat(a, n, Sep);
      assert IsRooted(s) == r;
      ReduceAppendSimple(Split(a, Sep), [n], r);
      CleanIdempotent(s);
    }
  }

  /** Joining a chain of simple names adds exactly those elements. */
  lemma ParseJoinChain(a: string, chain: seq<string>)
    requires |chain| >= 1
    requires forall i :: 0 <= i < |chain| ==> Simple(chain[i])
    ensures Parse(Join(a, JoinWith(chain, Sep))) == PathValue(IsRooted(a), Parse(a).elems + chain)
  {
    var r := IsRooted(a);
    var rel := JoinWith(chain, Sep);
    SplitJoin(chain, Sep);
    assert rel != "" by { JoinWithHead(chain, Sep); }
    assert !IsRooted(rel) by { JoinWithHead(chain, Sep); }
    if a == "" {
      assert Split(a, Sep) == [""];
      ReduceAppendSimple([], chain, false);
      assert [] + chain == chain;
      CleanIdempotent(rel);
    } else {
      var s := a + [Sep] + rel;
      SplitConcat(a, rel, Sep);
      assert IsRooted(s) == r;
      ReduceAppendSimple(Split(a, Sep), chain, r);
      CleanIdempotent(s);
    }
  }

  /** A path that joins a simple name to anything is rendered from its elements. */
  lemma RenderOfJoinName(a: string, n: string)
    requires Simple(n)
    ensures Join(a, n) == Render(PathValue(IsRooted(a), Parse(a).elems + [n]))
  {
    if a == "" {
      SplitNoSep(n, Sep);
      assert Split(a, Sep) == [""];
      assert [n][..0] == [];
    } else {
      SplitNoSep(n, Sep);
      SplitConcat(a, n, Sep);
      ReduceAppendSimple(Split(a, Sep), [n], IsRooted(a));
      assert IsRooted(a + [Sep] + n) == IsRooted(a);
    }
  }

  /** The base name of a path ending in a simple name is that name. */
  lemma BaseOfJoinName(a: string, n: string)
    requires Simple(n)
    ensures Base(Join(a, n)) == n
  {
    RenderOfJoinName(a, n);
    var elems := Parse(a).elems + [n];
    ParseIsClean(a);
    assert CleanElems(IsRooted(a), elems);
    var j := JoinWith(elems, Sep);
    SplitJoin(elems, Sep);
    BaseOfRender(IsRooted(a), elems);
  }

  lemma BaseOfRender(rooted: bool, elems: seq<string>)
    requires |elems| >= 1 && CleanElems(rooted, elems)
    ensures Base(Render(PathValue(rooted, elems))) == elems[|elems| - 1]
  {
    var s := Render(PathValue(rooted, elems));
    assert TrimTrailingSeps(s) == s by {
      LastOfJoinWith(elems, Sep);
      assert s != "" && s[|s| - 1] != Sep;
    }
    var parts := Split(s, Sep);
    assert parts == (if rooted then [""] else []) + elems by {
      RenderSegments(rooted, elems);
    }
    assert parts[|parts| - 1] == elems[|elems| - 1];
  }

  lemma {:induction false} LastOfJoinWith(parts: seq<string>, sep: char)
    requires |parts| >= 1 && parts[|parts| - 1] != "" && sep !in parts[|parts| - 1]
    ensures var j := JoinWith(parts, sep); |j| > 0 && j[|j| - 1] != sep
    decreases |parts|
  {
    if |parts| > 1 {
      LastOfJoinWith(parts[1..], sep);
    }
  }

  /** The base name of a path that ends in a simple name after a separator is that name. */
  lemma BaseOfSlash(a: string, n: string)
    requires n != "" && Sep !in n
    ensures Base(a + [Sep] + n) == n
  {
    var s := a + [Sep] + n;
    assert s[|s| - 1] == n[|n| - 1];
    assert n[|n| - 1] in n;
    assert TrimTrailingSeps(s) == s;
    SplitConcat(a, n, Sep);
    SplitNoSep(n, Sep);
  }

  /** A trailing "/." names the same place: Clean drops the "." element. */
  lemma ParseDotSuffix(a: string)
    requires a != ""
    ensures Parse(a + [Sep] + ".") == Parse(a)
  {
    var s := a + [Sep] + ".";
    assert s[0] == a[0];
    SplitConcat(a, ".", Sep);
    SplitNoSep(".", Sep);
    var parts := Split(a, Sep);
    assert Split(s, Sep) == parts + ["."];
    assert (parts + ["."])[..|parts|] == parts;
  }

  /** A character of a joined list is a character of some piece or the separator. */
  lemma {:induction false} JoinWithChars(parts: seq<string>, sep: char, c: char)
    requires |parts| >= 1 && c in JoinWith(parts, sep)
    ensures c == sep || exists i :: 0 <= i < |parts| && c in parts[i]
    decreases |parts|
  {
    if |parts| > 1 && c !in parts[0] && c != sep {
      JoinWithChars(parts[1..], sep, c);
      var i :| 0 <= i < |parts[1..]| && c in parts[1..][i];
      assert c in parts[i + 1];
    }
  }

  /** Clean only rearranges the text's own elements, separators and dots. */
  lemma CleanChars(s: string, c: char)
    requires c in Clean(s)
    ensures c in s || c == Sep || c == '.'
  {
    var p := Parse(s);
    var parts := Split(s, Sep);
    if p.elems != [] {
      var j := JoinWith(p.elems, Sep);
      if c in j {
        JoinWithChars(p.elems, Sep, c);
        if c != Sep {
          var i :| 0 <= i < |p.elems| && c in p.elems[i];
          ReduceFromParts(parts, IsRooted(s), i);
          if p.elems[i] != ".." {
            var k :| 0 <= k < |parts| && parts[k] == p.elems[i];
            PartCharsInText(parts, Sep, k, c);
          }
        }
      }
    }
  }

  /** Every element Clean keeps is one of the pieces or "..". */
  lemma {:induction false} ReduceFromParts(parts: seq<string>, rooted: bool, i: nat)
    requires i < |Reduce(parts, rooted)|
    ensures Reduce(parts, rooted)[i] == ".." || exists k :: 0 <= k < |parts| && parts[k] == Reduce(parts, rooted)[i]
    decreases |parts|
  {
    var init := parts[..|parts| - 1];
    var kept := Reduce(init, rooted);
    var r := Reduce(parts, rooted);
    if i < |kept| && r[i] == kept[i] {
      ReduceFromParts(init, rooted, i);
      if r[i] != ".." {
        var k :| 0 <= k < |init| && init[k] == r[i];
        assert parts[k] == init[k];
      }
    } else {
      assert r[i] == ".." || r[i] == parts[|parts| - 1];
    }
  }

  lemma PartCharsInText(parts: seq<string>, sep: char, k: nat, c: char)
    requires k < |parts| && |parts| >= 1 && c in parts[k]
    ensures c in JoinWith(parts, sep)
    decreases |parts|
  {
    if k > 0 {
      PartCharsInText(parts[1..], sep, k - 1, c);
    }
  }

  /** The segments of a rendered path: its elements, after an empty one when it is rooted. */
  lemma RenderSegments(rooted: bool, elems: seq<string>)
    requires |elems| >= 1 && CleanElems(rooted, elems)
    ensures Split(Render(PathValue(rooted, elems)), Sep) == (if rooted then [""] else []) + elems
  {
    var j := JoinWith(elems, Sep);
    SplitJoin(elems, Sep);
    if rooted {
      assert Render(PathValue(rooted, elems)) == [Sep] + j;
      SplitLeadingSep(j, Sep);
    } else {
      assert Render(PathValue(rooted, elems)) == j;
      assert [] + elems == elems;
    }
  }

  /** Rel recovers the chain of names joined to a base. */
  lemma RelOfJoinChain(base: string, chain: seq<string>)
    requires |chain| >= 1
    requires forall i :: 0 <= i < |chain| ==> Simple(chain[i])
    ensures Rel(base, Join(base, JoinWith(chain, Sep))) == Some(JoinWith(chain, Sep))
  {
    ParseJoinChain(base, chain);
    var b := Parse(base);
    assert (b.elems + chain)[..|b.elems|] == b.elems;
    assert (b.elems + chain)[|b.elems|..] == chain;
  }

  /** A path is its own base for Rel. */
  lemma RelSelf(p: string)
    ensures Rel(p, p) == Some(".")
  {
  }
}
