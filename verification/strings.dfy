/**
 * The `String.prototype` operations the sources use, on `seq<char>`:
 * `startsWith`, `endsWith`, `indexOf`, `includes` and `replace` with a
 * string (not a regular expression) pattern, which replaces only the FIRST
 * occurrence.
 */
module Strings {
  import opened Base

  predicate StartsWith(s: string, prefix: string) {
    |prefix| <= |s| && s[..|prefix|] == prefix
  }

  predicate EndsWith(s: string, suffix: string) {
    |suffix| <= |s| && s[|s| - |suffix|..] == suffix
  }

  /** `pat` occurs in `s` starting at index `i`. */
  ghost predicate OccursAt(s: string, pat: string, i: int) {
    0 <= i && i + |pat| <= |s| && s[i..i + |pat|] == pat
  }

  /** `s.indexOf(pat, from)`, with `None` for -1: the first occurrence at or after `from`. */
  function IndexOfFrom(s: string, pat: string, from: nat): (r: Option<nat>)
    requires from <= |s|
    ensures r.Some? ==> from <= r.value && OccursAt(s, pat, r.value)
    ensures r.Some? ==> forall j :: from <= j < r.value ==> !OccursAt(s, pat, j)
    ensures r.None? ==> forall j :: from <= j ==> !OccursAt(s, pat, j)
    decreases |s| - from
  {
    if from + |pat| > |s| then None
    else if s[from..from + |pat|] == pat then Some(from)
    else IndexOfFrom(s, pat, from + 1)
  }

  function IndexOf(s: string, pat: string): Option<nat> {
    IndexOfFrom(s, pat, 0)
  }

  /** `pat` occurs somewhere in `s`. */
  predicate Includes(s: string, pat: string) {
    IndexOf(s, pat).Some?
  }

  lemma IncludesIffOccurs(s: string, pat: string)
    ensures Includes(s, pat) <==> exists i :: OccursAt(s, pat, i)
  {
  }

  /** `i` is the first index `pat` occurs at in `s`. */
  ghost predicate FirstOccursAt(s: string, pat: string, i: int) {
    OccursAt(s, pat, i) && forall j :: 0 <= j < i ==> !OccursAt(s, pat, j)
  }

  /** Replacement with a string pattern: only the first occurrence of `pat` is replaced by `rep`. */
  function ReplaceFirst(s: string, pat: string, rep: string): (r: string)
    ensures (forall j :: !OccursAt(s, pat, j)) ==> r == s
    ensures forall i :: FirstOccursAt(s, pat, i) ==> r == s[..i] + rep + s[i + |pat|..]
  {
    match IndexOf(s, pat)
    case Some(i) =>
      assert forall k :: FirstOccursAt(s, pat, k) ==> k == i;
      s[..i] + rep + s[i + |pat|..]
    case None => s
  }

  /** Removing a pattern the string starts with drops exactly that prefix. */
  lemma RemoveLeading(s: string, pat: string)
    requires StartsWith(s, pat)
    ensures ReplaceFirst(s, pat, "") == s[|pat|..]
  {
    assert OccursAt(s, pat, 0);
  }
}
