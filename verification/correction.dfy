/**
 * `''.join([table.get(c, c) for c in s])`: per-character, context-free
 * correction with one of the repository's tables.
 */
module Correction {
  import opened Tables

  /** Replaces every character of `s` that is a key of `t` by its entry. */
  function Correct(t: Table, s: string): (r: string)
    ensures |r| == |s|
    ensures forall i | 0 <= i < |s| :: r[i] == Fix(t, s[i])
  {
    if s == [] then [] else [Fix(t, s[0])] + Correct(t, s[1..])
  }

  /** Correcting a concatenation corrects each part, with nothing reordered. */
  lemma CorrectAppend(t: Table, s: string, u: string)
    ensures Correct(t, s + u) == Correct(t, s) + Correct(t, u)
  {
  }

  /** A string with no key of the table in it is left unchanged. */
  lemma CorrectWithoutKeys(t: Table, s: string)
    requires forall i | 0 <= i < |s| :: Get(t, s[i]).Nothing?
    ensures Correct(t, s) == s
  {
  }
}
