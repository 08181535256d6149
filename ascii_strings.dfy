/**
 * ASCII case-insensitive string comparison, as absl::EqualsIgnoreCase does
 * it: two strings are equal ignoring case when they have the same length and
 * agree position by position after mapping 'A'..'Z' to 'a'..'z'. No other
 * character is folded (no Unicode case mapping).
 */
module AsciiStrings {

  predicate IsAsciiUpper(c: char) {
    'A' <= c <= 'Z'
  }

  /** absl::ascii_tolower: upper-case ASCII letters become lower case, everything else is kept. */
  function AsciiToLower(c: char): (r: char)
    ensures !IsAsciiUpper(r)
    ensures IsAsciiUpper(c) ==> r as int == c as int + ('a' as int - 'A' as int)
    ensures !IsAsciiUpper(c) ==> r == c
  {
    if IsAsciiUpper(c) then (c as int + ('a' as int - 'A' as int)) as char else c
  }

  /** The case-folded form of a string: every character lowered, length kept. */
  function FoldCase(s: string): (r: string)
    ensures |r| == |s|
  {
    if s == [] then [] else [AsciiToLower(s[0])] + FoldCase(s[1..])
  }

  /** absl::EqualsIgnoreCase: equal lengths, then a character-by-character caseless comparison. */
  function EqualsIgnoreCase(a: string, b: string): (equal: bool)
    ensures equal <==> |a| == |b| && forall i :: 0 <= i < |a| ==> AsciiToLower(a[i]) == AsciiToLower(b[i])
    decreases |a|
  {
    if |a| != |b| then false
    else if a == [] then true
    else
      var rest := EqualsIgnoreCase(a[1..], b[1..]);
      assert forall i :: 1 <= i < |a| ==> a[i] == a[1..][i - 1] && b[i] == b[1..][i - 1];
      AsciiToLower(a[0]) == AsciiToLower(b[0]) && rest
  }

  /** The comparison agrees with comparing the case-folded forms. */
  lemma {:induction false} EqualsIgnoreCaseIffFoldedEqual(a: string, b: string)
    ensures EqualsIgnoreCase(a, b) <==> FoldCase(a) == FoldCase(b)
    decreases |a|
  {
    if |a| == |b| && a != [] {
      EqualsIgnoreCaseIffFoldedEqual(a[1..], b[1..]);
      assert FoldCase(a) == [AsciiToLower(a[0])] + FoldCase(a[1..]);
      assert FoldCase(b) == [AsciiToLower(b[0])] + FoldCase(b[1..]);
      if FoldCase(a) == FoldCase(b) {
        assert FoldCase(a[1..]) == FoldCase(a)[1..];
        assert FoldCase(b[1..]) == FoldCase(b)[1..];
      }
    }
  }

  lemma {:induction false} EqualsIgnoreCaseReflexive(a: string)
    ensures EqualsIgnoreCase(a, a)
  {
    EqualsIgnoreCaseIffFoldedEqual(a, a);
  }

  lemma {:induction false} EqualsIgnoreCaseSymmetric(a: string, b: string)
    ensures EqualsIgnoreCase(a, b) ==> EqualsIgnoreCase(b, a)
  {
    EqualsIgnoreCaseIffFoldedEqual(a, b);
    EqualsIgnoreCaseIffFoldedEqual(b, a);
  }

  lemma {:induction false} EqualsIgnoreCaseTransitive(a: string, b: string, c: string)
    ensures EqualsIgnoreCase(a, b) && EqualsIgnoreCase(b, c) ==> EqualsIgnoreCase(a, c)
  {
    EqualsIgnoreCaseIffFoldedEqual(a, b);
    EqualsIgnoreCaseIffFoldedEqual(b, c);
    EqualsIgnoreCaseIffFoldedEqual(a, c);
  }

}
