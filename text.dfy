/** Stock Option datatype: `None` stands for JavaScript's `null`/`undefined`. */
module Optional {
  datatype Option<+T> = None | Some(value: T)
}

/**
 * Character-level text operations the widget relies on: `toLowerCase`,
 * `String.prototype.includes` and the regular-expression class `\w`.
 */
module Text {

  /** The capitals that `toLowerCase` lowers in this model: ASCII A-Z and
      the Latin-1 capitals U+00C0..U+00DE except the multiplication sign. */
  predicate IsUpper(c: char)
  {
    'A' <= c <= 'Z' || ('\U{00C0}' <= c <= '\U{00DE}' && c != '\U{00D7}')
  }

  /** The small letters that are the images of `IsUpper` characters. */
  predicate IsLowerLetter(c: char)
  {
    'a' <= c <= 'z' || ('\U{00E0}' <= c <= '\U{00FE}' && c != '\U{00F7}')
  }

  /** Lower case of one character: capitals move down by 32 code points,
      every other character is its own lower case. */
  function Lower(c: char): (r: char)
    ensures IsUpper(c) ==> IsLowerLetter(r) && r as int == c as int + 32
    ensures !IsUpper(c) ==> r == c
    ensures !IsUpper(r)
  {
    if IsUpper(c) then (c as int + 32) as char else c
  }

  /** Upper case of one character, the inverse of `Lower` on letters. */
  function Upper(c: char): (r: char)
    ensures Lower(r) == Lower(c)
  {
    if IsLowerLetter(c) then (c as int - 32) as char else c
  }

  /** `s.toLowerCase()`, character by character. */
  function ToLower(s: string): (r: string)
    ensures |r| == |s|
  {
    seq(|s|, i requires 0 <= i < |s| => Lower(s[i]))
  }

  /** `s.toUpperCase()` restricted to the letters `ToLower` knows. */
  function ToUpper(s: string): string
  {
    seq(|s|, i requires 0 <= i < |s| => Upper(s[i]))
  }

  /** A string with no capital is its own lower case. */
  lemma LowerFixed(s: string)
    requires forall i :: 0 <= i < |s| ==> !IsUpper(s[i])
    ensures ToLower(s) == s
  {
  }

  /** Two strings that differ at most in the case of their letters. */
  ghost predicate SameUpToCase(a: string, b: string)
  {
    |a| == |b| && forall i :: 0 <= i < |a| ==> Lower(a[i]) == Lower(b[i])
  }

  /** Strings that differ only in letter case have the same lower case. */
  lemma SameUpToCaseLower(a: string, b: string)
    requires SameUpToCase(a, b)
    ensures ToLower(a) == ToLower(b)
  {
    assert forall i :: 0 <= i < |a| ==> ToLower(a)[i] == ToLower(b)[i];
  }

  /** Lower-casing works piece by piece. */
  lemma ToLowerConcat(a: string, b: string)
    ensures ToLower(a + b) == ToLower(a) + ToLower(b)
  {
    assert forall i :: 0 <= i < |a + b| ==> ToLower(a + b)[i] == (ToLower(a) + ToLower(b))[i];
  }

  /** Lower-casing commutes with taking a slice. */
  lemma ToLowerSlice(s: string, a: nat, b: nat)
    requires a <= b <= |s|
    ensures ToLower(s)[a..b] == ToLower(s[a..b])
  {
  }

  /** Upper-casing a string keeps it the same up to case. */
  lemma ToUpperSameUpToCase(s: string)
    ensures SameUpToCase(ToUpper(s), s)
  {
  }

  /** `k` stands in `text` starting at position `i`. */
  ghost predicate OccursAt(k: string, text: string, i: int)
  {
    0 <= i <= |text| - |k| && text[i..i + |k|] == k
  }

  /** The reference meaning of "k occurs in text": at some position. */
  ghost predicate Occurs(k: string, text: string)
  {
    exists i :: OccursAt(k, text, i)
  }

  /** An occurrence in the middle piece is an occurrence in the whole,
      shifted by the length of what stands before it. */
  lemma OccursAtShift(k: string, a: string, b: string, c: string, i: int)
    requires OccursAt(k, b, i)
    ensures OccursAt(k, a + b + c, |a| + i)
  {
    assert (a + b + c)[|a| + i..|a| + i + |k|] == b[i..i + |k|];
  }

  /** `text.includes(k)`: try the keyword at the front, then one position on. */
  function Contains(text: string, k: string): (r: bool)
    ensures r <==> Occurs(k, text)
    decreases |text|
  {
    if k <= text then
      assert OccursAt(k, text, 0);
      true
    else if text == [] then
      false
    else
      var rest := Contains(text[1..], k);
      assert rest ==> Occurs(k, text) by {
        if rest {
          var i :| OccursAt(k, text[1..], i);
          assert text[i + 1..i + 1 + |k|] == text[1..][i..i + |k|];
          assert OccursAt(k, text, i + 1);
        }
      }
      assert Occurs(k, text) ==> rest by {
        if Occurs(k, text) {
          var i :| OccursAt(k, text, i);
          assert i != 0;
          assert text[1..][i - 1..i - 1 + |k|] == text[i..i + |k|];
          assert OccursAt(k, text[1..], i - 1);
        }
      }
      rest
  }

  /** A character of the regular-expression class `\w` (no `u` flag): only
      ASCII characters, so no accented letter and no dotless i. */
  predicate IsWordChar(c: char)
  {
    'A' <= c <= 'Z' || 'a' <= c <= 'z' || '0' <= c <= '9' || c == '_'
  }

  /** `\w` is ASCII only: no accented letter is a word character, and
      neither is the dotless i nor the long s. */
  lemma WordCharIsAscii(c: char)
    ensures IsWordChar(c) ==> c < '\U{0080}'
    ensures !IsWordChar('\U{00E9}') && !IsWordChar('\U{0131}') && !IsWordChar('\U{017F}')
  {
  }

  /** A non-empty run of word characters, which is what `(\w+)` captures. */
  predicate IsWord(s: string)
  {
    |s| > 0 && forall i :: 0 <= i < |s| ==> IsWordChar(s[i])
  }
}
