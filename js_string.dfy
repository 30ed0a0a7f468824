/**
 * The two ECMAScript string builtins the store relies on:
 * String.prototype.trim and String.prototype.replace called with a
 * string pattern (only the first occurrence is replaced, and the
 * replacement text is expanded as GetSubstitution does).
 * Strings are sequences of Unicode scalar values here; ECMAScript works on
 * UTF-16 code units, which gives the same results for these operations.
 */
module JsString {
  import opened Wrappers

  /** WhiteSpace and LineTerminator code points (ECMAScript sections 12.2 and 12.3): what trim strips. */
  predicate IsWhitespace(c: char) {
    || c == '\t' || c == '\U{000B}' || c == '\U{000C}' || c == ' ' || c == '\U{00A0}' || c == '\U{FEFF}'
    || c == '\n' || c == '\r' || c == '\U{2028}' || c == '\U{2029}'
    // the remaining Space_Separator (Zs) code points
    || c == '\U{1680}' || ('\U{2000}' <= c <= '\U{200A}') || c == '\U{202F}' || c == '\U{205F}' || c == '\U{3000}'
  }

  predicate IsBlank(s: string) {
    forall i :: 0 <= i < |s| ==> IsWhitespace(s[i])
  }

  /** Drops leading whitespace. */
  function TrimStart(s: string): (r: string)
    ensures |r| <= |s|
  {
    if |s| > 0 && IsWhitespace(s[0]) then TrimStart(s[1..]) else s
  }

  /** The result of TrimStart is a suffix of s, every dropped character is whitespace and none is left in front. */
  lemma {:induction false} TrimStartSpec(s: string)
    ensures |TrimStart(s)| <= |s| && TrimStart(s) == s[|s| - |TrimStart(s)|..]
    ensures forall i :: 0 <= i < |s| - |TrimStart(s)| ==> IsWhitespace(s[i])
    ensures TrimStart(s) == [] || !IsWhitespace(TrimStart(s)[0])
  {
    if |s| > 0 && IsWhitespace(s[0]) {
      TrimStartSpec(s[1..]);
      forall i | 1 <= i < |s| - |TrimStart(s)| ensures IsWhitespace(s[i]) {
        assert s[i] == s[1..][i - 1];
      }
    }
  }

  /** Drops trailing whitespace. */
  function TrimEnd(s: string): (r: string)
    ensures |r| <= |s|
  {
    if |s| > 0 && IsWhitespace(s[|s| - 1]) then TrimEnd(s[..|s| - 1]) else s
  }

  /** The result of TrimEnd is a prefix of s, every dropped character is whitespace and none is left at the end. */
  lemma {:induction false} TrimEndSpec(s: string)
    ensures |TrimEnd(s)| <= |s| && TrimEnd(s) == s[..|TrimEnd(s)|]
    ensures forall i :: |TrimEnd(s)| <= i < |s| ==> IsWhitespace(s[i])
    ensures TrimEnd(s) == [] || !IsWhitespace(TrimEnd(s)[|TrimEnd(s)| - 1])
  {
    if |s| > 0 && IsWhitespace(s[|s| - 1]) {
      TrimEndSpec(s[..|s| - 1]);
      forall i | |TrimEnd(s)| <= i < |s| - 1 ensures IsWhitespace(s[i]) {
        assert s[i] == s[..|s| - 1][i];
      }
    }
  }

  /** String.prototype.trim. */
  function Trim(s: string): string
  {
    TrimEnd(TrimStart(s))
  }

  /** How many whitespace characters trim drops from the front. */
  function Leading(s: string): nat {
    |s| - |TrimStart(s)|
  }

  /**
   * What trim promises: the result is the stretch of s left after removing
   * whitespace from both ends, it neither starts nor ends with whitespace,
   * and it is empty exactly when s is blank.
   */
  lemma TrimSpec(s: string)
    ensures var lead := Leading(s); lead + |Trim(s)| <= |s| && Trim(s) == s[lead..lead + |Trim(s)|]
    ensures forall i :: 0 <= i < Leading(s) ==> IsWhitespace(s[i])
    ensures forall i :: Leading(s) + |Trim(s)| <= i < |s| ==> IsWhitespace(s[i])
    ensures Trim(s) != [] ==> !IsWhitespace(Trim(s)[0]) && !IsWhitespace(Trim(s)[|Trim(s)| - 1])
    ensures Trim(s) == [] <==> IsBlank(s)
  {
    var t := TrimStart(s);
    var lead := Leading(s);
    var r := TrimEnd(t);
    TrimStartSpec(s);
    TrimEndSpec(t);
    assert r == t[..|r|];
    assert s[lead..lead + |r|] == t[..|r|];
    forall i | lead + |r| <= i < |s| ensures IsWhitespace(s[i]) {
      assert s[i] == t[i - lead];
    }
    if r != [] {
      assert r[0] == t[0];
    }
  }

  /** The pattern occurs in s at index i. */
  predicate MatchesAt(s: string, pat: string, i: nat) {
    i + |pat| <= |s| && s[i..i + |pat|] == pat
  }

  /** The first index at or after `from` where pat occurs (StringIndexOf). */
  function IndexOfFrom(s: string, pat: string, from: nat): (r: Option<nat>)
    ensures r.Some? ==> from <= r.value && r.value + |pat| <= |s|
    decreases |s| - from
  {
    if from + |pat| > |s| then None
    else if s[from..from + |pat|] == pat then Some(from)
    else IndexOfFrom(s, pat, from + 1)
  }

  function IndexOf(s: string, pat: string): (r: Option<nat>)
    ensures r.Some? ==> r.value + |pat| <= |s|
  {
    IndexOfFrom(s, pat, 0)
  }

  /** IndexOfFrom finds the first occurrence at or after `from`, and None means there is none. */
  lemma {:induction false} IndexOfFromSpec(s: string, pat: string, from: nat)
    ensures IndexOfFrom(s, pat, from).Some? ==>
      var i := IndexOfFrom(s, pat, from).value;
      from <= i && MatchesAt(s, pat, i) && forall j :: from <= j < i ==> !MatchesAt(s, pat, j)
    ensures IndexOfFrom(s, pat, from).None? ==> forall j :: from <= j ==> !MatchesAt(s, pat, j)
    decreases |s| - from
  {
    if from + |pat| <= |s| && s[from..from + |pat|] != pat {
      IndexOfFromSpec(s, pat, from + 1);
    }
  }

  /**
   * GetSubstitution for a string pattern, which has no capture groups:
   * `$$` gives `$`, `$&` the matched text, `$`` the text before the match,
   * `$'` the text after it; any other `$` is kept literally.
   */
  function Expand(replacement: string, matched: string, before: string, after: string): (r: string)
    ensures NoPattern(replacement) ==> r == replacement
    decreases |replacement|
  {
    if |replacement| >= 2 && replacement[0] == '$' && replacement[1] in "$&`'" then
      var piece := match replacement[1]
        case '$' => "$"
        case '&' => matched
        case '`' => before
        case _ => after;
      piece + Expand(replacement[2..], matched, before, after)
    else if replacement == [] then []
    else
      assert NoPattern(replacement) ==> NoPattern(replacement[1..]) by {
        if NoPattern(replacement) {
          forall i | 0 <= i < |replacement[1..]| - 1 && replacement[1..][i] == '$'
            ensures replacement[1..][i + 1] !in "$&`'"
          {
            assert replacement[1..][i] == replacement[i + 1];
            assert replacement[1..][i + 1] == replacement[i + 2];
          }
        }
      }
      assert [replacement[0]] + replacement[1..] == replacement;
      [replacement[0]] + Expand(replacement[1..], matched, before, after)
  }

  /**
   * No `$` in the replacement starts one of the patterns `$$`, `$&`, `$``
   * or `$'`, so expansion leaves it as it is (a lone `$`, `$1` or `$<x>`
   * stays literal, there being no capture groups).
   */
  predicate NoPattern(replacement: string) {
    forall i :: 0 <= i < |replacement| - 1 && replacement[i] == '$' ==> replacement[i + 1] !in "$&`'"
  }

  /** String.prototype.replace with a string pattern: only the first occurrence is replaced. */
  function ReplaceFirst(s: string, pat: string, replacement: string): string
  {
    match IndexOf(s, pat)
    case None => s
    case Some(i) => s[..i] + Expand(replacement, pat, s[..i], s[i + |pat|..]) + s[i + |pat|..]
  }

  /** Without an occurrence of pat, replace returns s unchanged. */
  lemma ReplaceFirstAbsent(s: string, pat: string, replacement: string)
    requires forall j :: !MatchesAt(s, pat, j)
    ensures ReplaceFirst(s, pat, replacement) == s
  {
    IndexOfFromSpec(s, pat, 0);
  }

  /**
   * When pat first occurs at i, replace splices in the expanded replacement
   * at i ($` being the text before the match and $' the text after it) and
   * keeps everything after the match, later occurrences of pat included.
   */
  lemma ReplaceFirstAt(s: string, pat: string, replacement: string, i: nat)
    requires MatchesAt(s, pat, i)
    requires forall j :: 0 <= j < i ==> !MatchesAt(s, pat, j)
    ensures i + |pat| <= |s|
    ensures ReplaceFirst(s, pat, replacement) ==
      s[..i] + Expand(replacement, pat, s[..i], s[i + |pat|..]) + s[i + |pat|..]
  {
    IndexOfFromSpec(s, pat, 0);
    var k := IndexOf(s, pat);
    assert k == Some(i);
  }

  /** With a replacement free of `$` patterns, replace splices it in verbatim at the first occurrence. */
  lemma ReplaceFirstLiteral(s: string, pat: string, replacement: string, i: nat)
    requires NoPattern(replacement)
    requires MatchesAt(s, pat, i)
    requires forall j :: 0 <= j < i ==> !MatchesAt(s, pat, j)
    ensures ReplaceFirst(s, pat, replacement) == s[..i] + replacement + s[i + |pat|..]
  {
    ReplaceFirstAt(s, pat, replacement, i);
  }
}
