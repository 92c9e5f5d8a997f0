/**
 * The name extractor: `message.match(/my name is (\w+)/i)` and its first
 * capture group.
 */
module NameCapture {
  import opened Optional
  import opened Text

  /** The literal part of the pattern, in lower case. */
  const Pattern: string := "my name is "

  /** The literal stands at position `i`, in any letter case. */
  predicate PatternAt(s: string, i: nat)
  {
    i + |Pattern| <= |s| && ToLower(s[i..i + |Pattern|]) == Pattern
  }

  /** The whole expression matches at `i`: the literal, then at least one
      word character. */
  function MatchAt(s: string, i: nat): (r: bool)
    ensures r <==> PatternAt(s, i) && WordRun(s[i + |Pattern|..]) != []
  {
    PatternAt(s, i) && i + |Pattern| < |s| && IsWordChar(s[i + |Pattern|])
  }

  /** `j` is the leftmost match position at or after `from`. */
  ghost predicate LeftmostFrom(s: string, from: nat, j: nat)
  {
    from <= j && MatchAt(s, j) && forall p: nat :: from <= p < j ==> !MatchAt(s, p)
  }

  /** `name` is what the greedy group captures after a match at `j`: the
      maximal run of word characters, in its original case. */
  ghost predicate CapturedAt(s: string, j: nat, name: string)
  {
    var start := j + |Pattern|;
    start + |name| <= |s| && s[start..start + |name|] == name && IsWord(name) &&
    (start + |name| == |s| || !IsWordChar(s[start + |name|]))
  }

  /** Greedy `\w+` at the front of `s` (possibly empty). */
  function WordRun(s: string): (r: string)
    ensures r <= s
    ensures forall i :: 0 <= i < |r| ==> IsWordChar(r[i])
    ensures |r| < |s| ==> !IsWordChar(s[|r|])
  {
    if s != [] && IsWordChar(s[0]) then [s[0]] + WordRun(s[1..]) else []
  }

  /** The regular-expression engine's scan: try each start position from
      `i` on and stop at the first that matches. */
  function FindNameFrom(s: string, i: nat): (r: Option<string>)
    requires i <= |s|
    ensures r.None? <==> forall p: nat :: i <= p ==> !MatchAt(s, p)
    ensures r.Some? ==> exists j: nat :: LeftmostFrom(s, i, j) && CapturedAt(s, j, r.value)
    decreases |s| - i
  {
    if i + |Pattern| >= |s| then
      None
    else if MatchAt(s, i) then
      var name := WordRun(s[i + |Pattern|..]);
      assert LeftmostFrom(s, i, i) && CapturedAt(s, i, name);
      Some(name)
    else
      var r := FindNameFrom(s, i + 1);
      assert r.Some? ==> exists j: nat :: LeftmostFrom(s, i, j) && CapturedAt(s, j, r.value) by {
        if r.Some? {
          var j: nat :| LeftmostFrom(s, i + 1, j) && CapturedAt(s, j, r.value);
          assert LeftmostFrom(s, i, j);
        }
      }
      r
  }

  /** The name the message introduces, if any. */
  function FindName(s: string): (r: Option<string>)
    ensures r.None? <==> forall p: nat :: !MatchAt(s, p)
    ensures r.Some? ==> IsWord(r.value)
    ensures r.Some? ==> exists j: nat :: LeftmostFrom(s, 0, j) && CapturedAt(s, j, r.value)
  {
    FindNameFrom(s, 0)
  }

  /** The captured name is unique: a leftmost match and its maximal run
      fix it completely. */
  lemma CapturedAtUnique(s: string, j: nat, a: string, b: string)
    requires CapturedAt(s, j, a) && CapturedAt(s, j, b)
    ensures a == b
  {
    var start := j + |Pattern|;
    assert forall k :: 0 <= k < |a| ==> s[start + k] == a[k];
    assert forall k :: 0 <= k < |b| ==> s[start + k] == b[k];
    assert |a| == |b|;
  }

  /** Introducing oneself at the start of a message, in any case. */
  lemma CapitalisedIntroduction()
    ensures FindName("My name is Alice") == Some("Alice")
  {
    var s := "My name is Alice";
    assert s[..11] == "My name is ";
    assert ToLower("My name is ") == Pattern;
    assert MatchAt(s, 0);
    assert s[11..] == "Alice";
    assert WordRun("Alice") == "Alice";
  }

  /** `\w` has no accented letters, so the capture stops before one. */
  lemma AccentCutsName()
    ensures FindName("my name is Jos\U{00E9}") == Some("Jos")
  {
    var s := "my name is Jos\U{00E9}";
    assert s[..11] == Pattern;
    assert ToLower(Pattern) == Pattern;
    assert MatchAt(s, 0);
    assert s[11..] == "Jos\U{00E9}";
    assert WordRun("Jos\U{00E9}") == "Jos";
  }

  /** A space where the name should begin defeats the match. */
  lemma NoWordNoName()
    ensures FindName("my name is ") == None
  {
  }
}
