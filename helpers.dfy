/** utils/helpers.js: `capitalize`. */
module Helpers {
  import opened Ascii

  /** `str.charAt(0).toUpperCase() + str.slice(1)`: the first character in
      upper case, the rest unchanged. */
  function Capitalize(s: string): (r: string)
    ensures |r| == |s|
    ensures s == [] ==> r == []
    ensures s != [] ==> r[0] == UpperChar(s[0]) && r[1..] == s[1..]
  {
    if s == [] then [] else [UpperChar(s[0])] + s[1..]
  }

  /** Capitalizing twice is capitalizing once. */
  lemma CapitalizeIdempotent(s: string)
    ensures Capitalize(Capitalize(s)) == Capitalize(s)
  {
  }

  /** Capitalizing changes at most the case of the first letter: the result
      equals the input ignoring case. */
  lemma CapitalizeSameIgnoringCase(s: string)
    ensures EqualsIgnoreCase(Capitalize(s), s)
  {
    EqualsIgnoreCaseCharwise(Capitalize(s), s);
  }

  /** A capitalized string never starts with a lower-case letter, and it
      agrees with the input after the first character. */
  lemma CapitalizedStart(s: string)
    requires s != []
    ensures !IsLowerLetter(Capitalize(s)[0])
    ensures forall k :: 1 <= k < |s| ==> Capitalize(s)[k] == s[k]
  {
    var r := Capitalize(s);
    assert r == [r[0]] + r[1..];
  }
}
