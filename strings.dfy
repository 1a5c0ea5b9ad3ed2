/**
 * The JavaScript string operations the engine relies on: `indexOf`,
 * `replace` with a string pattern (first occurrence only, literal
 * replacement) and the first two pieces of `split`.
 */
module Strings {
  import opened Types

  /** `pat` occurs in `s` starting at index `i`. */
  predicate OccursAt(s: string, pat: string, i: nat)
  {
    i + |pat| <= |s| && s[i..i + |pat|] == pat
  }

  /** `s.indexOf(pat, from)`, with `None` for -1. */
  function IndexOf(s: string, pat: string, from: nat): (r: Option<nat>)
    ensures r.Some? ==> from <= r.value && OccursAt(s, pat, r.value)
    ensures r.Some? ==> forall k :: from <= k < r.value ==> !OccursAt(s, pat, k)
    ensures r.None? ==> forall k :: from <= k ==> !OccursAt(s, pat, k)
    decreases |s| - from
  {
    if from + |pat| > |s| then None
    else if s[from..from + |pat|] == pat then Some(from)
    else IndexOf(s, pat, from + 1)
  }

  /** The first occurrence at or after `from` is the one at `i`. */
  lemma IndexOfIs(s: string, pat: string, from: nat, i: nat)
    requires from <= i && OccursAt(s, pat, i)
    requires forall k: nat :: from <= k < i ==> !OccursAt(s, pat, k)
    ensures IndexOf(s, pat, from) == Some(i)
  {
    assert IndexOf(s, pat, from).Some?;
  }

  /** `s.replace(pat, v)` for a string pattern: only the first occurrence is replaced. */
  function ReplaceFirst(s: string, pat: string, v: string): (r: string)
    ensures IndexOf(s, pat, 0).None? ==> r == s
    ensures IndexOf(s, pat, 0).Some? ==>
      var i := IndexOf(s, pat, 0).value;
      && i + |pat| <= |s|
      && s[i..i + |pat|] == pat
      && (forall k: nat :: k < i ==> !OccursAt(s, pat, k))
      && r == s[..i] + v + s[i + |pat|..]
  {
    match IndexOf(s, pat, 0)
    case None => s
    case Some(i) => s[..i] + v + s[i + |pat|..]
  }

  /** `parts[0]` and `parts[1]` of `s.split(sep)`, with a missing `parts[1]` read as the empty text. */
  function SplitFirstTwo(s: string, sep: string): (parts: (string, string))
    requires |sep| > 0
    ensures IndexOf(s, sep, 0).None? ==> parts == (s, "")
    ensures IndexOf(s, sep, 0).Some? ==>
      var i := IndexOf(s, sep, 0).value;
      && i + |sep| <= |s|
      && parts.0 == s[..i]
      && (IndexOf(s, sep, i + |sep|).None? ==> parts.1 == s[i + |sep|..])
      && (IndexOf(s, sep, i + |sep|).Some? ==> parts.1 == s[i + |sep|..IndexOf(s, sep, i + |sep|).value])
  {
    match IndexOf(s, sep, 0)
    case None => (s, "")
    case Some(i) =>
      match IndexOf(s, sep, i + |sep|)
      case None => (s[..i], s[i + |sep|..])
      case Some(j) => (s[..i], s[i + |sep|..j])
  }

  /** `c` does not occur anywhere in `s`. */
  predicate Lacks(s: string, c: char)
  {
    forall i :: 0 <= i < |s| ==> s[i] != c
  }
}
