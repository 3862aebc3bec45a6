/**
 * The System.ComponentModel.DataAnnotations attributes used on the backend's
 * models and request bodies, as predicates on strings. A `null` value passes
 * every attribute except [Required]; the Option-taking variants say so.
 * Lengths are counted in Dafny characters (Unicode scalar values).
 */
module Annotations {
  import opened Wrappers

  /** char.IsWhiteSpace: the Unicode space separators, line and paragraph separators and the
      control characters U+0009..U+000D, U+0085. */
  predicate IsWhiteSpace(c: char) {
    || ('\t' <= c <= '\r') || c == ' ' || c == '\U{85}' || c == '\U{A0}' || c == '\U{1680}'
    || ('\U{2000}' <= c <= '\U{200A}') || c == '\U{2028}' || c == '\U{2029}'
    || c == '\U{202F}' || c == '\U{205F}' || c == '\U{3000}'
  }

  /** [Required] on a string: rejects null, the empty string and strings of white space only
      (the attribute trims before it measures). */
  predicate Required(s: string) {
    exists i :: 0 <= i < |s| && !IsWhiteSpace(s[i])
  }

  /** [StringLength(max, MinimumLength = min)] on a non-null string. */
  predicate StringLength(s: string, max: nat, min: nat) {
    min <= |s| <= max
  }

  /** [StringLength(max, MinimumLength = min)] on a nullable string. */
  predicate OptStringLength(s: Option<string>, max: nat, min: nat) {
    s.None? || StringLength(s.value, max, min)
  }

  /** string.IndexOf(c): the first position of `c`, or -1. */
  function IndexOf(s: string, c: char): (r: int)
    ensures -1 <= r < |s|
    ensures r == -1 <==> c !in s
    ensures 0 <= r ==> s[r] == c && forall j :: 0 <= j < r ==> s[j] != c
  {
    IndexFrom(s, c, 0)
  }

  /** The first position at or after `from` holding `c`, or -1. */
  function IndexFrom(s: string, c: char, from: nat): (r: int)
    requires from <= |s|
    ensures -1 <= r < |s|
    ensures r == -1 <==> forall j :: from <= j < |s| ==> s[j] != c
    ensures 0 <= r ==> from <= r && s[r] == c && forall j :: from <= j < r ==> s[j] != c
    decreases |s| - from
  {
    if from == |s| then -1
    else if s[from] == c then from
    else IndexFrom(s, c, from + 1)
  }

  /** string.LastIndexOf(c): the last position of `c`, or -1. */
  function LastIndexOf(s: string, c: char): (r: int)
    ensures -1 <= r < |s|
    ensures r == -1 <==> c !in s
    ensures 0 <= r ==> s[r] == c && forall j :: r < j < |s| ==> s[j] != c
  {
    IndexBefore(s, c, |s|)
  }

  /** The last position before `upto` holding `c`, or -1. */
  function IndexBefore(s: string, c: char, upto: nat): (r: int)
    requires upto <= |s|
    ensures -1 <= r < upto
    ensures r == -1 <==> forall j :: 0 <= j < upto ==> s[j] != c
    ensures 0 <= r ==> s[r] == c && forall j :: r < j < upto ==> s[j] != c
  {
    if upto == 0 then -1
    else if s[upto - 1] == c then upto - 1
    else IndexBefore(s, c, upto - 1)
  }

  /** [EmailAddress] on a non-null string: the attribute accepts exactly the strings with one
      '@' that is neither the first nor the last character. */
  predicate EmailAddress(s: string) {
    var at := IndexOf(s, '@');
    at > 0 && at != |s| - 1 && at == LastIndexOf(s, '@')
  }

  /** [EmailAddress] on a nullable string. */
  predicate OptEmailAddress(s: Option<string>) {
    s.None? || EmailAddress(s.value)
  }

  /** The attribute's index arithmetic means: exactly one '@', with characters on both sides. */
  lemma EmailAddressMeaning(s: string)
    ensures EmailAddress(s) <==>
      exists k :: 0 < k < |s| - 1 && s[k] == '@' && forall j :: 0 <= j < |s| && j != k ==> s[j] != '@'
  {
    var first, last := IndexOf(s, '@'), LastIndexOf(s, '@');
    if EmailAddress(s) {
      assert 0 < first < |s| - 1 && s[first] == '@';
      assert forall j :: 0 <= j < |s| && j != first ==> s[j] != '@';
    }
  }
}
