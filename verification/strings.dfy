/** The parts of Go's `strings` package the tool relies on, over `seq<char>`. */
module Strings {

  /** `strings.HasSuffix`: `suffix` is the tail of `s`. */
  predicate HasSuffix(s: string, suffix: string) {
    |suffix| <= |s| && s[|s| - |suffix|..] == suffix
  }

  /** `strings.TrimSuffix`: drops one occurrence of `suffix` from the end of
      `s` when it is there, and leaves `s` alone otherwise. */
  function TrimSuffix(s: string, suffix: string): (r: string)
    ensures HasSuffix(s, suffix) ==> r + suffix == s
    ensures !HasSuffix(s, suffix) ==> r == s
  {
    if HasSuffix(s, suffix) then s[..|s| - |suffix|] else s
  }

  /** Position of the first `c` in `s`, or `|s|` when there is none. */
  function IndexOf(s: string, c: char): (k: nat)
    ensures k <= |s|
    ensures k < |s| ==> s[k] == c
    ensures forall j :: 0 <= j < k ==> s[j] != c
  {
    if |s| == 0 then 0
    else if s[0] == c then 0
    else 1 + IndexOf(s[1..], c)
  }

  /** The first `c` of `s + [c] + t` is the one placed after `s`, when `s`
      holds none. */
  lemma IndexOfAfter(s: string, c: char, t: string)
    requires forall j :: 0 <= j < |s| ==> s[j] != c
    ensures IndexOf(s + [c] + t, c) == |s|
  {
    var u := s + [c] + t;
    assert u[|s|] == c;
    assert forall j :: 0 <= j < |s| ==> u[j] == s[j];
  }
}
