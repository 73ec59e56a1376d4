/**
 * Title sanitising before a title is passed to the GitHub CLI: every
 * character outside an allow-list is deleted (SAFE_TITLE_PATTERN).
 */
module Sanitize {
  import opened Text

  /** The allow-list: word characters, whitespace and `-:().,#/`. */
  predicate IsSafeTitleChar(ch: char) {
    IsWordChar(ch) || IsSpace(ch)
    || ch == '-' || ch == ':' || ch == '(' || ch == ')' || ch == '.' || ch == ',' || ch == '#' || ch == '/'
  }

  /** `a` can be obtained from `b` by deleting characters. */
  predicate IsSubsequence(a: string, b: string)
    decreases |b|
  {
    a == [] || (b != [] && ((a[0] == b[0] && IsSubsequence(a[1..], b[1..])) || IsSubsequence(a, b[1..])))
  }

  /**
   * sanitize_text: delete every character outside the allow-list. Only
   * allowed characters remain, and a text made of allowed characters is
   * passed through unchanged.
   */
  function SanitizeText(text: string): (r: string)
    ensures |r| <= |text|
    ensures forall k :: 0 <= k < |r| ==> IsSafeTitleChar(r[k])
    ensures (forall k :: 0 <= k < |text| ==> IsSafeTitleChar(text[k])) ==> r == text
    decreases |text|
  {
    if text == [] then []
    else (if IsSafeTitleChar(text[0]) then [text[0]] else []) + SanitizeText(text[1..])
  }

  /**
   * Sanitising only deletes: the result is a subsequence of the input, and
   * every allowed character survives as often as the input has it.
   */
  lemma {:induction false} SanitizeOnlyDeletes(text: string)
    ensures IsSubsequence(SanitizeText(text), text)
    ensures forall ch :: IsSafeTitleChar(ch) ==> multiset(SanitizeText(text))[ch] == multiset(text)[ch]
    decreases |text|
  {
    if text != [] {
      SanitizeOnlyDeletes(text[1..]);
      var rest := SanitizeText(text[1..]);
      var head := if IsSafeTitleChar(text[0]) then [text[0]] else [];
      assert SanitizeText(text) == head + rest;
      if head == [] {
        assert head + rest == rest;
      } else {
        assert (head + rest)[0] == text[0] && (head + rest)[1..] == rest;
      }
      assert text == [text[0]] + text[1..];
      assert multiset(text) == multiset([text[0]]) + multiset(text[1..]);
      assert multiset(head + rest) == multiset(head) + multiset(rest);
    }
  }

  /** Sanitising twice is the same as sanitising once. */
  lemma SanitizeIdempotent(text: string)
    ensures SanitizeText(SanitizeText(text)) == SanitizeText(text)
  {
    var once := SanitizeText(text);
    assert forall k :: 0 <= k < |once| ==> IsSafeTitleChar(once[k]);
  }
}
