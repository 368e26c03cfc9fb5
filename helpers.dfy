/** The separator rewrite and the exclude check shared by the scanners (pkg/util/helpers.go). */
module Helpers {
  import opened Text
  import opened Glob

  /**
   * ReplaceSepWith: every occurrence of the other separator becomes `sep`.
   * The other separator is `\` when `sep` is "/" and "/" otherwise.
   */
  function ReplaceSepWith(src: string, sep: string): (r: string)
    ensures sep == "/" ==> |r| == |src| && forall i :: 0 <= i < |src| ==> r[i] == (if src[i] == '\\' then '/' else src[i])
    ensures sep != "/" && |sep| == 1 ==> |r| == |src| && forall i :: 0 <= i < |src| ==> r[i] == (if src[i] == '/' then sep[0] else src[i])
    ensures sep != "/" && '/' !in sep ==> '/' !in r
    ensures forall c :: c in r ==> c in sep || (c in src && c != OtherSep(sep)[0])
  {
    ReplaceChar(src, OtherSep(sep)[0], sep)
  }

  /** The separator ReplaceSepWith rewrites away. */
  function OtherSep(sep: string): (o: string)
    ensures |o| == 1 && o != sep
  {
    if sep == "/" then "\\" else "/"
  }

  /** For either separator, a rewritten path holds none of the other one. */
  lemma ReplaceSepRemovesOther(src: string, sep: string)
    requires sep == "/" || sep == "\\"
    ensures OtherSep(sep)[0] !in ReplaceSepWith(src, sep)
  {
  }

  /** For either separator, rewriting twice is rewriting once. */
  lemma ReplaceSepIdempotent(src: string, sep: string)
    requires sep == "/" || sep == "\\"
    ensures ReplaceSepWith(ReplaceSepWith(src, sep), sep) == ReplaceSepWith(src, sep)
  {
    var once := ReplaceSepWith(src, sep);
    var twice := ReplaceSepWith(once, sep);
    assert |twice| == |once|;
    forall i | 0 <= i < |once| ensures twice[i] == once[i] {
      assert once[i] != OtherSep(sep)[0] by {
        assert once[i] in once;
      }
    }
  }

  /**
   * isExcluded: some pattern of the list is well-formed and matches the base
   * name.  A malformed pattern is skipped rather than reported.
   */
  function IsExcluded(base: string, excludes: seq<string>): (b: bool)
    ensures b <==> exists i :: 0 <= i < |excludes| && Matches(excludes[i], base)
    decreases |excludes|
  {
    if excludes == [] then false
    else
      match Match(excludes[0], base)
      case Err(_) => IsExcluded(base, excludes[1..])
      case Ok(matched) => matched || IsExcluded(base, excludes[1..])
  }

  /** A malformed pattern is passed over: the rest of the list decides. */
  lemma {:induction false} MalformedSkipped(base: string, bad: string, excludes: seq<string>)
    requires !WellFormed(bad)
    ensures IsExcluded(base, [bad] + excludes) == IsExcluded(base, excludes)
  {
    assert ([bad] + excludes)[1..] == excludes;
  }

  /** Adding patterns to the list can only exclude more. */
  lemma ExcludedMonotone(base: string, excludes: seq<string>, more: seq<string>)
    requires IsExcluded(base, excludes)
    ensures IsExcluded(base, excludes + more) && IsExcluded(base, more + excludes)
  {
    var i :| 0 <= i < |excludes| && Matches(excludes[i], base);
    assert (excludes + more)[i] == excludes[i];
    assert (more + excludes)[|more| + i] == excludes[i];
  }
}
