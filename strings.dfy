/** The string operations of JavaScript the core relies on, restricted to ASCII case. */
module Strings {

  predicate IsUpper(c: char) { 'A' <= c <= 'Z' }

  predicate IsLower(c: char) { 'a' <= c <= 'z' }

  predicate IsLetter(c: char) { IsUpper(c) || IsLower(c) }

  /** The lower-case form of one character: ASCII capitals move down by 32, all else is kept. */
  function LowerChar(c: char): (d: char)
    ensures !IsUpper(d)
    ensures IsUpper(c) ==> IsLower(d) && d as int == c as int + 32
    ensures !IsUpper(c) ==> d == c
  {
    if IsUpper(c) then (c as int + 32) as char else c
  }

  /** `s.toLowerCase()`. */
  function ToLower(s: string): (r: string)
    ensures |r| == |s|
    ensures forall i :: 0 <= i < |s| ==> r[i] == LowerChar(s[i])
  {
    seq(|s|, i requires 0 <= i < |s| => LowerChar(s[i]))
  }

  lemma ToLowerAppend(a: string, b: string)
    ensures ToLower(a + b) == ToLower(a) + ToLower(b)
  {
    assert forall i :: 0 <= i < |a + b| ==> ToLower(a + b)[i] == (ToLower(a) + ToLower(b))[i];
  }

  /** A string without capitals is its own lower-case form. */
  lemma ToLowerWithoutCapitals(s: string)
    requires forall i :: 0 <= i < |s| ==> !IsUpper(s[i])
    ensures ToLower(s) == s
  {
  }

  /** `pattern` occurs in `text` starting at index `i`. */
  predicate OccursAt(text: string, pattern: string, i: int)
  {
    0 <= i && i + |pattern| <= |text| && text[i..i + |pattern|] == pattern
  }

  /** `text.includes(pattern)`, tried at each starting index in turn. */
  function Includes(text: string, pattern: string): (r: bool)
    ensures r <==> exists i :: OccursAt(text, pattern, i)
    decreases |text|
  {
    if |text| < |pattern| then false
    else if text[..|pattern|] == pattern then assert OccursAt(text, pattern, 0); true
    else
      assert forall i :: OccursAt(text[1..], pattern, i) <==> OccursAt(text, pattern, i + 1);
      assert forall i :: OccursAt(text, pattern, i) ==> i > 0 && OccursAt(text[1..], pattern, i - 1);
      Includes(text[1..], pattern)
  }
}
