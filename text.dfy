/** Blank-input detection as the translator performs it: `not text or not
    text.strip()`, with Python's `str.strip()` and its notion of whitespace. */
module Text {

  /** Python's `str.isspace` for a single character: the Unicode characters
      of general category Zs or of bidirectional class WS, B or S. */
  predicate IsSpace(c: char)
  {
    || ('\t' <= c <= '\r')                // U+0009 .. U+000D
    || ('\U{1C}' <= c <= '\U{1F}')        // file, group, record, unit separators
    || c == ' '
    || c == '\U{85}'
    || c == '\U{A0}'
    || c == '\U{1680}'
    || ('\U{2000}' <= c <= '\U{200A}')
    || c == '\U{2028}' || c == '\U{2029}'
    || c == '\U{202F}' || c == '\U{205F}' || c == '\U{3000}'
  }

  predicate AllSpace(s: string)
  {
    forall i | 0 <= i < |s| :: IsSpace(s[i])
  }

  /** Drops the longest whitespace prefix. */
  function StripLeft(s: string): (r: string)
    ensures |r| <= |s| && r == s[|s| - |r|..]
    ensures AllSpace(s[..|s| - |r|])
    ensures r == [] || !IsSpace(r[0])
    decreases |s|
  {
    if s != [] && IsSpace(s[0]) then
      var r := StripLeft(s[1..]);
      assert s[..|s| - |r|] == [s[0]] + s[1..][..|s| - 1 - |r|];
      r
    else
      s
  }

  /** Drops the longest whitespace suffix. */
  function StripRight(s: string): (r: string)
    ensures |r| <= |s| && r == s[..|r|]
    ensures AllSpace(s[|r|..])
    ensures r == [] || !IsSpace(r[|r| - 1])
    decreases |s|
  {
    if s != [] && IsSpace(s[|s| - 1]) then
      var r := StripRight(s[..|s| - 1]);
      assert s[|r|..] == s[..|s| - 1][|r|..] + [s[|s| - 1]];
      r
    else
      s
  }

  /** Python's `s.strip()`. The result is empty exactly when every
      character is whitespace, and otherwise starts and ends with a character
      that is not; `StripCutsWhitespaceEnds` shows it is the infix of `s`
      left once the whitespace at both ends is cut off. */
  function Strip(s: string): (r: string)
    ensures r == [] <==> AllSpace(s)
    ensures r != [] ==> !IsSpace(r[0]) && !IsSpace(r[|r| - 1])
  {
    var left := StripLeft(s);
    var r := StripRight(left);
    if left == [] then
      assert s[..|s|] == s;
      r
    else
      assert !IsSpace(s[|s| - |left|]);
      assert r[0] == left[0];
      r
  }

  /** `s.strip()` is `s` with a whitespace prefix and a whitespace suffix
      cut off: nothing else is removed and nothing is reordered. */
  lemma StripCutsWhitespaceEnds(s: string)
    ensures var r := Strip(s);
      exists a | 0 <= a <= |s| - |r| :: r == s[a..a + |r|] && AllSpace(s[..a]) && AllSpace(s[a + |r|..])
  {
    var left := StripLeft(s);
    var r := Strip(s);
    assert r == StripRight(left);
    var a := |s| - |left|;
    assert r == s[a..a + |r|] by { assert left == s[a..]; }
    assert AllSpace(s[a + |r|..]) by { assert s[a + |r|..] == left[|r|..]; }
    assert AllSpace(s[..a]);
  }

  /** `not text or not text.strip()`: the condition under which the
      translator returns at once, without calling the provider. */
  function IsBlank(text: string): (blank: bool)
    ensures blank <==> AllSpace(text)
  {
    |text| == 0 || |Strip(text)| == 0
  }
}
