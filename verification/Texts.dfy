/** Where one text stands in another, as the library's strings package finds it. */
module Texts {
  predicate At(s: string, sub: string, i: nat) { i + |sub| <= |s| && s[i..i + |sub|] == sub }

  /** Where sub first stands in s at or after i; the length of s and more when it does not (strings.Index). */
  function IndexFrom(s: string, sub: string, i: nat): (r: nat)
    requires i <= |s|
    ensures r <= |s| ==> i <= r && r + |sub| <= |s| && At(s, sub, r)
    ensures forall k :: i <= k < r ==> !At(s, sub, k)
    decreases |s| - i
  {
    if At(s, sub, i) then i
    else if i == |s| then |s| + 1
    else IndexFrom(s, sub, i + 1)
  }
}
