/** Small vocabulary shared by the other modules: an optional value (for the
    JavaScript `undefined` a field can hold), the `includes` test the job
    makes on the walk's message, and the prefix and suffix tests the model
    uses to read its messages and paths. */
module Text {

  datatype Option<+T> = None | Some(value: T)

  /** `t` is a prefix of `s`. */
  predicate StartsWith(s: string, t: string) {
    |t| <= |s| && s[..|t|] == t
  }

  /** `t` is a suffix of `s`. */
  predicate EndsWith(s: string, t: string) {
    |t| <= |s| && s[|s| - |t|..] == t
  }

  /** `t` occurs in `s` starting at index `i`. */
  predicate OccursAt(s: string, t: string, i: nat) {
    i + |t| <= |s| && s[i..i + |t|] == t
  }

  /** JavaScript's `s.includes(t)`. */
  predicate Contains(s: string, t: string) {
    exists i | 0 <= i <= |s| - |t| :: OccursAt(s, t, i)
  }

  /** If the `k`-th character from the end of `s` differs from that of `t`, `s` does not end with `t`. */
  lemma LastCharsRuleOutSuffix(s: string, t: string, k: nat)
    requires k < |s| && k < |t| && s[|s| - 1 - k] != t[|t| - 1 - k]
    ensures !EndsWith(s, t)
  {
  }

  /** Appending `t` yields a string that ends with `t`, and stripping it gives `s` back. */
  lemma AppendedSuffix(s: string, t: string)
    ensures EndsWith(s + t, t) && (s + t)[..|s|] == s
  {
  }

  /** Prepending keeps a suffix in place. */
  lemma SuffixSurvivesPrepend(s: string, t: string, u: string)
    requires EndsWith(t, u)
    ensures EndsWith(s + t, u)
  {
  }

  /** Appending keeps a prefix in place. */
  lemma PrefixSurvivesAppend(s: string, t: string, u: string)
    ensures StartsWith(s, t) ==> StartsWith(s + u, t)
    ensures |t| <= |s| ==> (StartsWith(s + u, t) <==> StartsWith(s, t))
  {
  }

  /** A string contains whatever was appended to it. */
  lemma ContainsAppended(s: string, t: string)
    ensures Contains(s + t, t)
  {
    assert OccursAt(s + t, t, |s|);
  }

  /** Appending keeps every occurrence in place. */
  lemma ContainsExtended(s: string, u: string, t: string)
    requires Contains(s, t)
    ensures Contains(s + u, t)
  {
    var i :| 0 <= i <= |s| - |t| && OccursAt(s, t, i);
    assert (s + u)[i..i + |t|] == s[i..i + |t|];
    assert OccursAt(s + u, t, i);
  }

  /** Prepending keeps every occurrence, shifted. */
  lemma ContainsPrepended(s: string, u: string, t: string)
    requires Contains(u, t)
    ensures Contains(s + u, t)
  {
    var i :| 0 <= i <= |u| - |t| && OccursAt(u, t, i);
    assert (s + u)[|s| + i..|s| + i + |t|] == u[i..i + |t|];
    assert OccursAt(s + u, t, |s| + i);
  }
}
