/**
 * `re.sub(pattern, '', s)` for a negated single-character class: every
 * character the class matches is deleted on its own, and the others are kept
 * in their original order.
 */
module Cleanup {
  import opened AllowList

  /** Deletes from `s` every character the allow-list `p` does not allow. */
  function Sub(p: Pattern, s: string): (r: string)
    ensures |r| <= |s|
    ensures forall i | 0 <= i < |r| :: Allows(p, r[i])
  {
    if s == [] then []
    else (if Allows(p, s[0]) then [s[0]] else []) + Sub(p, s[1..])
  }

  /** Cleanup works character by character: cleaning a concatenation cleans each part. */
  lemma {:induction false} SubAppend(p: Pattern, s: string, t: string)
    ensures Sub(p, s + t) == Sub(p, s) + Sub(p, t)
  {
    if s != [] {
      var head := if Allows(p, s[0]) then [s[0]] else [];
      assert (s + t)[0] == s[0];
      assert (s + t)[1..] == s[1..] + t;
      calc {
        Sub(p, s + t);
        head + Sub(p, s[1..] + t);
        { SubAppend(p, s[1..], t); }
        head + (Sub(p, s[1..]) + Sub(p, t));
        (head + Sub(p, s[1..])) + Sub(p, t);
        Sub(p, s) + Sub(p, t);
      }
    } else {
      assert s + t == t;
    }
  }

  /** A string is left unchanged by cleanup iff every character of it is allowed. */
  lemma {:induction false} SubFixesExactlyAllowed(p: Pattern, s: string)
    ensures Sub(p, s) == s <==> forall i | 0 <= i < |s| :: Allows(p, s[i])
  {
    if s != [] && forall i | 0 <= i < |s| :: Allows(p, s[i]) {
      assert forall i | 0 <= i < |s[1..]| :: Allows(p, s[1..][i]) by {
        forall i | 0 <= i < |s[1..]| ensures Allows(p, s[1..][i]) {
          assert s[1..][i] == s[i + 1];
        }
      }
      SubFixesExactlyAllowed(p, s[1..]);
    }
  }

  /** A string with no allowed character is deleted entirely. */
  lemma {:induction false} SubOfDisallowed(p: Pattern, s: string)
    requires forall i | 0 <= i < |s| :: !Allows(p, s[i])
    ensures Sub(p, s) == []
  {
    if s != [] {
      assert forall i | 0 <= i < |s[1..]| :: !Allows(p, s[1..][i]) by {
        forall i | 0 <= i < |s[1..]| ensures !Allows(p, s[1..][i]) {
          assert s[1..][i] == s[i + 1];
        }
      }
      SubOfDisallowed(p, s[1..]);
    }
  }

  /** Cleaning twice is the same as cleaning once. */
  lemma SubIdempotent(p: Pattern, s: string)
    ensures Sub(p, Sub(p, s)) == Sub(p, s)
  {
    SubFixesExactlyAllowed(p, Sub(p, s));
  }

  /** Cleanup deletes every occurrence of a disallowed character and keeps every occurrence of an allowed one. */
  lemma {:induction false} SubCounts(p: Pattern, s: string, c: char)
    ensures multiset(Sub(p, s))[c] == if Allows(p, c) then multiset(s)[c] else 0
  {
    if s != [] {
      SubCounts(p, s[1..], c);
      assert s == [s[0]] + s[1..];
      assert multiset(s) == multiset([s[0]]) + multiset(s[1..]);
    }
  }
}
