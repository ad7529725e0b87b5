/**
 The '*' matcher of event patterns (internal/eventmatch/eventmatch.go:381-403): greedy placement of the
 texts between the stars decides the language of the pattern.
 */
module Wildcards {
  import opened Texts

  // ---- The language of a pattern

  /** Character by character: a star stands for any text, anything else for itself. */
  predicate Matches(pattern: string, s: string)
    decreases |pattern|, |s|
  {
    if pattern == "" then s == ""
    else if pattern[0] == '*' then Matches(pattern[1..], s) || (s != "" && Matches(pattern, s[1..]))
    else s != "" && s[0] == pattern[0] && Matches(pattern[1..], s[1..])
  }

  // ---- The texts between the stars

  function Split(pattern: string): (parts: seq<string>)
    ensures parts != []
  {
    if pattern == "" then [""]
    else
      var rest := Split(pattern[1..]);
      if pattern[0] == '*' then [""] + rest else [[pattern[0]] + rest[0]] + rest[1..]
  }

  /** s begins with the first part and ends with the last, with the others in order between them. */
  ghost predicate Cuts(parts: seq<string>, s: string)
    requires parts != []
    decreases |parts|, 0
  {
    if |parts| == 1 then s == parts[0]
    else parts[0] <= s && Floats(parts[1..], s[|parts[0]|..])
  }

  /** The same after any text. */
  ghost predicate Floats(parts: seq<string>, s: string)
    requires parts != []
    decreases |parts|, 1
  {
    exists k :: 0 <= k <= |s| && Cuts(parts, s[k..])
  }

  lemma FloatsFrom(parts: seq<string>, s: string, k: nat)
    requires parts != [] && k <= |s| && Cuts(parts, s[k..])
    ensures Floats(parts, s)
  {
  }

  /** What can be placed in a suffix can be placed in the whole text. */
  lemma FloatsFurther(parts: seq<string>, s: string, i: nat)
    requires parts != [] && i <= |s| && Floats(parts, s[i..])
    ensures Floats(parts, s)
  {
    var k :| 0 <= k <= |s[i..]| && Cuts(parts, s[i..][k..]);
    assert s[i..][k..] == s[i + k..];
    FloatsFrom(parts, s, i + k);
  }

  // ---- Cutting is matching

  /** A star before a text may take nothing, or one more character. */
  lemma FloatsStep(parts: seq<string>, s: string)
    requires parts != []
    ensures Floats(parts, s) <==> Cuts(parts, s) || (s != "" && Floats(parts, s[1..]))
  {
    assert s[0..] == s;
    if Cuts(parts, s) { FloatsFrom(parts, s, 0); }
    if s != "" && Floats(parts, s[1..]) { FloatsFurther(parts, s, 1); }
    if Floats(parts, s) && !Cuts(parts, s) {
      var k :| 0 <= k <= |s| && Cuts(parts, s[k..]);
      assert s[1..][k - 1..] == s[k..];
      FloatsFrom(parts, s[1..], k - 1);
    }
  }

  /** A character before the first part has to stand at the front. */
  lemma CutsStep(c: char, parts: seq<string>, s: string)
    requires parts != []
    ensures Cuts([[c] + parts[0]] + parts[1..], s) <==> s != "" && s[0] == c && Cuts(parts, s[1..])
  {
    var longer := [[c] + parts[0]] + parts[1..];
    if s != "" {
      assert s == [s[0]] + s[1..];
      assert ([c] + parts[0] <= s) <==> s[0] == c && parts[0] <= s[1..];
      if |parts| > 1 && s[0] == c && parts[0] <= s[1..] {
        assert s[|parts[0]| + 1..] == s[1..][|parts[0]|..];
        assert longer[1..] == parts[1..];
      }
    }
  }

  lemma {:induction false} CutsAreMatches(pattern: string, s: string)
    ensures Cuts(Split(pattern), s) <==> Matches(pattern, s)
    decreases |pattern|, |s|
  {
    if pattern != "" {
      var rest := Split(pattern[1..]);
      if pattern[0] == '*' {
        assert ([""] + rest)[1..] == rest;
        assert s[0..] == s;
        assert Cuts(Split(pattern), s) <==> Floats(rest, s);
        FloatsStep(rest, s);
        CutsAreMatches(pattern[1..], s);
        if s != "" {
          CutsAreMatches(pattern, s[1..]);
          assert s[1..][0..] == s[1..];
        }
      } else {
        CutsStep(pattern[0], rest, s);
        if s != "" { CutsAreMatches(pattern[1..], s[1..]); }
      }
    }
  }

  // ---- Greedy placement

  lemma DropTwice(s: string, a: nat, b: nat)
    requires a + b <= |s|
    ensures s[a..][b..] == s[a + b..]
  {
  }

  lemma FirstPart(parts: seq<string>, s: string, k: nat)
    requires |parts| > 1 && k <= |s|
    ensures Cuts(parts, s[k..]) <==> At(s, parts[0], k) && Floats(parts[1..], s[k + |parts[0]|..])
  {
    hide Floats;
    var first, t := parts[0], s[k..];
    if k + |first| <= |s| {
      DropTwice(s, k, |first|);
      assert s[k..k + |first|] == t[..|first|];
      assert first <= t <==> t[..|first|] == first;
    }
  }

  /** Placing a middle part as far left as possible leaves every later placement possible. */
  lemma LeftmostLosesNothing(parts: seq<string>, rest: string)
    requires |parts| > 1
    ensures var i := IndexFrom(rest, parts[0], 0);
      Floats(parts, rest) <==> i <= |rest| && Floats(parts[1..], rest[i + |parts[0]|..])
  {
    hide IndexFrom, At, Cuts;
    var i, mid := IndexFrom(rest, parts[0], 0), parts[0];
    if Floats(parts, rest) {
      var k :| 0 <= k <= |rest| && Cuts(parts, rest[k..]);
      hide Floats;
      FirstPart(parts, rest, k);
      AtFits(rest, mid, k);
      DropTwice(rest, i + |mid|, k - i);
      FloatsFurther(parts[1..], rest[i + |mid|..], k - i);
    }
    hide Floats;
    if i <= |rest| && Floats(parts[1..], rest[i + |mid|..]) {
      FirstPart(parts, rest, i);
      FloatsFrom(parts, rest, i);
    }
  }

  lemma AtFits(s: string, sub: string, k: nat)
    requires At(s, sub, k)
    ensures k + |sub| <= |s|
  {
  }

  predicate HasSuffix(s: string, suffix: string) { |suffix| <= |s| && s[|s| - |suffix|..] == suffix }

  lemma LastIsSuffix(last: string, rest: string)
    ensures Floats([last], rest) <==> HasSuffix(rest, last)
  {
    if HasSuffix(rest, last) { FloatsFrom([last], rest, |rest| - |last|); }
  }

  lemma {:induction false} OnePartHasNoStar(pattern: string)
    ensures |Split(pattern)| == 1 ==> Split(pattern) == [pattern]
  {
    if pattern != "" {
      OnePartHasNoStar(pattern[1..]);
      assert pattern == [pattern[0]] + pattern[1..];
    }
  }

  /** wildcardMatch decides the language of the pattern. */
  method WildcardMatch(pattern: string, s: string) returns (matches: bool)
    ensures matches <==> Matches(pattern, s)
  {
    hide Cuts, Floats, Matches, IndexFrom, At;
    CutsAreMatches(pattern, s);
    var parts := Split(pattern);
    CutsFirst(parts, s);
    if |parts| == 1 {
      OnePartHasNoStar(pattern);
      return pattern == s;
    }
    if !(parts[0] <= s) { return false; }
    var rest, i := s[|parts[0]|..], 1;
    while i < |parts| - 1
      invariant 1 <= i < |parts|
      invariant Cuts(parts, s) <==> Floats(parts[i..], rest)
    {
      LeftmostLosesNothing(parts[i..], rest);
      var mid := parts[i];
      assert parts[i..][0] == mid && parts[i..][1..] == parts[i + 1..];
      var idx := IndexFrom(rest, mid, 0);
      if idx > |rest| { return false; }
      rest, i := rest[idx + |mid|..], i + 1;
    }
    assert parts[i..] == [parts[|parts| - 1]];
    LastIsSuffix(parts[|parts| - 1], rest);
    return HasSuffix(rest, parts[|parts| - 1]);
  }

  lemma CutsFirst(parts: seq<string>, s: string)
    requires parts != []
    ensures Cuts(parts, s) <==>
      if |parts| == 1 then s == parts[0] else parts[0] <= s && Floats(parts[1..], s[|parts[0]|..])
  {
  }
}
