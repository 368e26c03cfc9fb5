/**
 * Go's filepath.Match on a '/'-separated platform: `*` matches any run of
 * non-separator characters, `?` one non-separator character, `[...]` a
 * character class (`^` negates, `lo-hi` is a range, `\` escapes) and `\c`
 * the character c.  A pattern whose syntax is broken is an error whatever
 * the name, which Match reports as Err.
 */
module Glob {
  import opened Wrappers

  const Separator: char := '/'

  datatype Token =
    | Star
    | AnyChar
    | Lit(c: char)
    | Class(negated: bool, ranges: seq<(char, char)>)

  datatype PatternError = ErrBadPattern

  /** The characters that make a pattern more than a literal name. */
  predicate HasMeta(p: string)
  {
    '*' in p || '?' in p || '[' in p || '\\' in p
  }

  /** One class character, possibly escaped; a class must continue after it. */
  function GetEsc(s: string): (r: Option<(char, string)>)
    ensures r.Some? ==> 0 < |r.value.1| < |s|
  {
    if s == [] || s[0] == '-' || s[0] == ']' then None
    else if s[0] == '\\' then
      if |s| < 2 || |s| == 2 then None else Some((s[1], s[2..]))
    else if |s| == 1 then None
    else Some((s[0], s[1..]))
  }

  /** The ranges of a class up to and including its closing `]`; `seen` says a range was read. */
  function ParseRanges(s: string, seen: bool): (r: Option<(seq<(char, char)>, string)>)
    ensures r.Some? ==> |r.value.1| < |s|
    ensures r.Some? && !seen ==> |r.value.0| >= 1
    decreases |s|
  {
    if |s| > 0 && s[0] == ']' && seen then Some(([], s[1..]))
    else
      match GetEsc(s)
      case None => None
      case Some((lo, s1)) =>
        var hiEsc := if s1[0] == '-' then GetEsc(s1[1..]) else Some((lo, s1));
        match hiEsc
        case None => None
        case Some((hi, s2)) =>
          match ParseRanges(s2, true)
          case None => None
          case Some((rs, rest)) => Some(([(lo, hi)] + rs, rest))
  }

  /** A class body (after its `[`): an optional `^` and at least one range. */
  function ParseClass(s: string): (r: Option<(Token, string)>)
    ensures r.Some? ==> |r.value.1| < |s| && r.value.0.Class?
  {
    var negated := |s| > 0 && s[0] == '^';
    var body := if negated then s[1..] else s;
    match ParseRanges(body, false)
    case None => None
    case Some((rs, rest)) => Some((Class(negated, rs), rest))
  }

  /** The first token of a non-empty pattern and what follows it. */
  function NextToken(p: string): (r: Option<(Token, string)>)
    requires p != []
    ensures r.Some? ==> |r.value.1| < |p|
  {
    if p[0] == '*' then Some((Star, p[1..]))
    else if p[0] == '?' then Some((AnyChar, p[1..]))
    else if p[0] == '\\' then (if |p| == 1 then None else Some((Lit(p[1]), p[2..])))
    else if p[0] == '[' then ParseClass(p[1..])
    else Some((Lit(p[0]), p[1..]))
  }

  /** The tokens of a pattern, or None when its syntax is broken. */
  function Tokens(p: string): Option<seq<Token>>
    decreases |p|
  {
    if p == [] then Some([])
    else
      match NextToken(p)
      case None => None
      case Some((t, rest)) =>
        match Tokens(rest)
        case None => None
        case Some(ts) => Some([t] + ts)
  }

  predicate WellFormed(p: string)
  {
    Tokens(p).Some?
  }

  predicate InRanges(ranges: seq<(char, char)>, c: char)
  {
    exists i :: 0 <= i < |ranges| && ranges[i].0 <= c <= ranges[i].1
  }

  /** Whether a token sequence matches the whole name. */
  function MatchTokens(ts: seq<Token>, name: string): bool
    decreases |ts| + |name|
  {
    if ts == [] then name == []
    else match ts[0]
      case Star =>
        MatchTokens(ts[1..], name) || (name != [] && name[0] != Separator && MatchTokens(ts, name[1..]))
      case AnyChar =>
        name != [] && name[0] != Separator && MatchTokens(ts[1..], name[1..])
      case Lit(c) =>
        name != [] && name[0] == c && MatchTokens(ts[1..], name[1..])
      case Class(negated, ranges) =>
        name != [] && InRanges(ranges, name[0]) != negated && MatchTokens(ts[1..], name[1..])
  }

  /** filepath.Match(pattern, name). */
  function Match(pattern: string, name: string): (r: Result<bool, PatternError>)
    ensures r.Err? <==> !WellFormed(pattern)
  {
    match Tokens(pattern)
    case None => Err(ErrBadPattern)
    case Some(ts) => Ok(MatchTokens(ts, name))
  }

  /** A match as the exclude helpers count it: a broken pattern matches nothing. */
  predicate Matches(pattern: string, name: string)
  {
    Match(pattern, name) == Ok(true)
  }

  // ---------------------------------------------------------------------------

  function Literals(s: string): (ts: seq<Token>)
    ensures |ts| == |s|
    ensures forall i :: 0 <= i < |s| ==> ts[i] == Lit(s[i])
    decreases |s|
  {
    if s == [] then [] else [Lit(s[0])] + Literals(s[1..])
  }

  /** A pattern without meta characters reads as its own characters. */
  lemma {:induction false} TokensOfLiteral(a: string, b: string)
    requires !HasMeta(a)
    ensures Tokens(a + b) == (match Tokens(b) case None => None case Some(ts) => Some(Literals(a) + ts))
    decreases |a|
  {
    if a != [] {
      assert (a + b)[0] == a[0] && a[0] in a;
      assert (a + b)[1..] == a[1..] + b;
      assert !HasMeta(a[1..]) by {
        assert forall c :: c in a[1..] ==> c in a;
      }
      assert NextToken(a + b) == Some((Lit(a[0]), a[1..] + b));
      TokensOfLiteral(a[1..], b);
      match Tokens(b) {
        case None =>
          assert Tokens(a[1..] + b) == None;
        case Some(ts) =>
          assert Tokens(a[1..] + b) == Some(Literals(a[1..]) + ts);
          assert Literals(a) == [Lit(a[0])] + Literals(a[1..]);
          assert [Lit(a[0])] + (Literals(a[1..]) + ts) == Literals(a) + ts;
      }
    } else {
      assert a + b == b;
      if Tokens(b).Some? {
        assert Literals(a) + Tokens(b).value == Tokens(b).value;
      }
    }
  }

  /** Literal tokens match exactly their own characters. */
  lemma {:induction false} MatchLiterals(s: string, name: string)
    ensures MatchTokens(Literals(s), name) <==> name == s
    decreases |s|
  {
    if s != [] {
      MatchLiterals(s[1..], if name == [] then [] else name[1..]);
      assert Literals(s)[1..] == Literals(s[1..]);
      if name != [] && name[0] == s[0] && name[1..] == s[1..] {
        assert name == [name[0]] + name[1..];
        assert s == [s[0]] + s[1..];
      }
    }
  }

  /** A name without meta characters is a well-formed pattern that matches only itself. */
  lemma LiteralPattern(p: string, name: string)
    requires !HasMeta(p)
    ensures Match(p, name) == Ok(p == name)
  {
    TokensOfLiteral(p, []);
    assert p + [] == p;
    assert Literals(p) + [] == Literals(p);
    MatchLiterals(p, name);
  }

  /** A literal prefix leaves the well-formedness of the rest unchanged. */
  lemma LiteralPrefix(a: string, b: string)
    requires !HasMeta(a)
    ensures WellFormed(a + b) <==> WellFormed(b)
  {
    TokensOfLiteral(a, b);
  }

  /** `*` matches exactly the names without a separator. */
  lemma {:induction false} StarMatchesSegment(name: string)
    ensures MatchTokens([Star], name) <==> Separator !in name
    decreases |name|
  {
    assert [Star][1..] == [];
    if name != [] {
      StarMatchesSegment(name[1..]);
      assert name == [name[0]] + name[1..];
    }
  }

  lemma StarPattern(name: string)
    ensures Match("*", name) == Ok(Separator !in name)
  {
    assert "*"[1..] == [];
    assert [Star] + [] == [Star];
    assert Tokens("*") == Some([Star]);
    StarMatchesSegment(name);
  }

  /** `?` matches exactly the one-character names that are not a separator. */
  lemma QuestionPattern(name: string)
    ensures Match("?", name) == Ok(|name| == 1 && name[0] != Separator)
  {
    assert "?"[1..] == [];
    assert [AnyChar] + [] == [AnyChar];
    assert Tokens("?") == Some([AnyChar]);
    assert [AnyChar][1..] == [];
    if name != [] && name[0] != Separator {
      assert MatchTokens([AnyChar], name) == MatchTokens([], name[1..]);
    }
  }

  /** Every token except `*` consumes one character, so a star-free pattern fixes the name's length. */
  lemma {:induction false} StarFreeLength(ts: seq<Token>, name: string)
    requires Star !in ts
    requires MatchTokens(ts, name)
    ensures |name| == |ts|
    decreases |ts|
  {
    if ts != [] {
      assert ts[0] in ts;
      assert forall t :: t in ts[1..] ==> t in ts;
      StarFreeLength(ts[1..], name[1..]);
    }
  }
}
