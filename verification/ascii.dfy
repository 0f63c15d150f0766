/**
  ASCII case folding as `::tolower` does it in the "C" locale: only the
  letters 'A'..'Z' change, everything else is kept.
 */
module Ascii {

  predicate IsUpper(ch: char)
  {
    'A' <= ch <= 'Z'
  }

  function ToLowerChar(ch: char): (r: char)
    ensures !IsUpper(r)
    ensures IsUpper(ch) ==> r as int == ch as int + 32
    ensures !IsUpper(ch) ==> r == ch
  {
    if IsUpper(ch) then (ch as int + 32) as char else ch
  }

  /** `std::transform(s.begin(), s.end(), s.begin(), ::tolower)`. */
  function ToLower(s: string): (r: string)
    ensures |r| == |s|
    ensures forall i :: 0 <= i < |s| ==> r[i] == ToLowerChar(s[i])
  {
    seq(|s|, i requires 0 <= i < |s| => ToLowerChar(s[i]))
  }

  /** Reference definition: equal length and equal letter by letter up to case. */
  predicate EqualIgnoringCase(a: string, b: string)
  {
    |a| == |b| && forall i :: 0 <= i < |a| ==> ToLowerChar(a[i]) == ToLowerChar(b[i])
  }

  /** Lower-casing is the only change, so doing it twice is doing it once. */
  lemma ToLowerIdempotent(s: string)
    ensures ToLower(ToLower(s)) == ToLower(s)
  {
  }

  /** Comparing lower-cased copies is exactly case-insensitive comparison. */
  lemma ToLowerEqualIff(a: string, b: string)
    ensures ToLower(a) == ToLower(b) <==> EqualIgnoringCase(a, b)
  {
    if EqualIgnoringCase(a, b) {
      assert forall i :: 0 <= i < |a| ==> ToLower(a)[i] == ToLower(b)[i];
    }
    if ToLower(a) == ToLower(b) {
      assert forall i :: 0 <= i < |a| ==> ToLower(a)[i] == ToLower(b)[i];
    }
  }

  /** A string already in lower case is its own lower-cased copy. */
  lemma ToLowerOfLower(s: string)
    requires forall i :: 0 <= i < |s| ==> !IsUpper(s[i])
    ensures ToLower(s) == s
  {
  }

  /** Folding works letter by letter, so it commutes with taking a slice. */
  lemma ToLowerSlice(s: string, i: nat, j: nat)
    requires i <= j <= |s|
    ensures ToLower(s[i..j]) == ToLower(s)[i..j]
  {
  }
}
