/** The list filter's substring search, which skips lower-casing when both texts are ASCII. */
module IgnoreCase {
  import opened Basics
  import opened RowModel

  predicate IsAscii(s: string) {
    forall i :: 0 <= i < |s| ==> s[i] < 128 as char
  }

  function LowerAscii(s: string): string {
    seq(|s|, i requires 0 <= i < |s| => AsciiLower(s[i]))
  }

  function AsciiUpper(c: char): char {
    if 'a' <= c <= 'z' then c - 32 as char else c
  }

  /** Unicode lower-casing maps ASCII text as ASCII does, and yields no ASCII capital from any text. */
  ghost predicate LowersAscii(env: Env) {
    && (forall s :: IsAscii(s) ==> env.lower(s) == LowerAscii(s))
    && forall s, i :: 0 <= i < |env.lower(s)| ==> !('A' <= env.lower(s)[i] <= 'Z')
  }

  lemma LoweredIsLower(env: Env, text: string)
    requires LowersAscii(env)
    ensures LowerAscii(env.lower(text)) == env.lower(text)
  {
  }

  /** A session is put on hold by its title, in any case. */
  lemma HoldIgnoresCase(title: string)
    ensures IsHoldTitle(title) <==> LowerAscii(title) == "hold"
  {
    if LowerAscii(title) == "hold" {
      assert LowerAscii(title)[0] == 'h' && LowerAscii(title)[1] == 'o';
      assert LowerAscii(title)[2] == 'l' && LowerAscii(title)[3] == 'd';
    }
  }

  predicate MatchesAt(haystack: string, needle: string, i: nat) {
    i + |needle| <= |haystack| && LowerAscii(haystack[i..i + |needle|]) == LowerAscii(needle)
  }

  lemma OccursIsMatch(haystack: string, needle: string)
    ensures Occurs(LowerAscii(needle), LowerAscii(haystack)) <==> exists i: nat :: MatchesAt(haystack, needle, i)
  {
    var h, n := LowerAscii(haystack), LowerAscii(needle);
    forall i: nat | i <= |h| ensures n <= h[i..] <==> MatchesAt(haystack, needle, i) {
      if i + |n| <= |h| {
        assert h[i..][..|n|] == LowerAscii(haystack[i..i + |needle|]);
      }
    }
  }

  lemma MatchStarts(haystack: string, needle: string, i: nat)
    requires needle != "" && MatchesAt(haystack, needle, i)
    ensures haystack[i] == AsciiLower(needle[0]) || haystack[i] == AsciiUpper(needle[0])
  {
    assert LowerAscii(haystack[i..i + |needle|])[0] == LowerAscii(needle)[0];
  }

  lemma OneByteMatch(haystack: string, needle: string, i: nat)
    requires |needle| == 1 && i < |haystack|
    ensures MatchesAt(haystack, needle, i)
            <==> haystack[i] == AsciiLower(needle[0]) || haystack[i] == AsciiUpper(needle[0])
  {
    var window := haystack[i..i + 1];
    assert LowerAscii(window) == [AsciiLower(haystack[i])] && LowerAscii(needle) == [AsciiLower(needle[0])];
  }

  method AsciiContainsIgnoreCase(haystack: string, needle: string) returns (found: bool)
    requires needle != ""
    ensures found <==> Occurs(LowerAscii(needle), LowerAscii(haystack))
  {
    hide Occurs, AsciiLower, AsciiUpper, LowerAscii;
    OccursIsMatch(haystack, needle);
    if |needle| > |haystack| {
      return false;
    }
    var lo, up := AsciiLower(needle[0]), AsciiUpper(needle[0]);
    if |needle| == 1 {
      forall i | 0 <= i < |haystack|
        ensures MatchesAt(haystack, needle, i) <==> haystack[i] == lo || haystack[i] == up
      {
        OneByteMatch(haystack, needle, i);
      }
      return lo in haystack || (up != lo && up in haystack);
    }
    var pos, last := 0, |haystack| - |needle|;
    while pos <= last
      invariant forall i: nat :: i < pos ==> !MatchesAt(haystack, needle, i)
    {
      while pos <= last && haystack[pos] != lo && haystack[pos] != up
        invariant forall i: nat :: i < pos ==> !MatchesAt(haystack, needle, i)
      {
        if MatchesAt(haystack, needle, pos) { MatchStarts(haystack, needle, pos); }
        pos := pos + 1;
      }
      if pos > last {
        return false;
      }
      if LowerAscii(haystack[pos..pos + |needle|]) == LowerAscii(needle) {
        assert MatchesAt(haystack, needle, pos);
        return true;
      }
      pos := pos + 1;
    }
    return false;
  }

  /** With a needle already lower-cased the search answers what lower-casing the haystack and
      looking for the needle would. */
  method ContainsIgnoreCase(env: Env, haystack: string, needle: string) returns (found: bool)
    requires LowersAscii(env)
    requires LowerAscii(needle) == needle
    ensures found <==> Occurs(needle, env.lower(haystack))
  {
    if needle == "" {
      assert needle <= env.lower(haystack)[0..];
      return true;
    }
    if IsAscii(haystack) && IsAscii(needle) {
      found := AsciiContainsIgnoreCase(haystack, needle);
    } else {
      found := Occurs(needle, env.lower(haystack));
    }
  }

  /** The filter's test of one session, title first. */
  method MatchesNeedle(env: Env, needle: string, s: Session) returns (matches: bool)
    requires LowersAscii(env) && LowerAscii(needle) == needle
    ensures matches == Matches(env, needle, s)
  {
    hide LowersAscii, LowerAscii, Occurs;
    if needle == "" {
      return true;
    }
    matches := ContainsIgnoreCase(env, s.title, needle);
    if !matches {
      matches := ContainsIgnoreCase(env, s.cwd, needle);
    }
  }

  /** The requirement on the needle matters: the two paths disagree on one with a capital. */
  lemma CapitalNeedlesDisagree(env: Env)
    requires LowersAscii(env)
    ensures Occurs(LowerAscii("A"), LowerAscii("a")) && !Occurs("A", env.lower("a"))
  {
    assert LowerAscii("A") == "a" == LowerAscii("a");
    assert "a" <= "a"[0..];
    assert IsAscii("a");
    assert forall i :: 0 <= i <= 1 ==> "A" <= "a"[i..] ==> "a"[i..][0] == 'A';
  }
}
