/**
 * The two string operations the search relies on: lower-casing
 * (`String.prototype.toLowerCase`, restricted to ASCII) and substring
 * search (`String.prototype.includes`).
 */
module Text {

  predicate IsUpper(c: char)
  {
    'A' <= c <= 'Z'
  }

  /** ASCII lower-casing of one character. */
  function LowerChar(c: char): (r: char)
    ensures !IsUpper(r)
    ensures r == c <==> !IsUpper(c)
    ensures IsUpper(c) ==> r as int - c as int == 'a' as int - 'A' as int
  {
    if IsUpper(c) then (c as int - 'A' as int + 'a' as int) as char else c
  }

  /** ASCII lower-casing of a string, character by character. */
  function Lower(s: string): (r: string)
    ensures |r| == |s|
    ensures forall i :: 0 <= i < |s| ==> r[i] == LowerChar(s[i])
    ensures forall i :: 0 <= i < |r| ==> !IsUpper(r[i])
  {
    seq(|s|, i requires 0 <= i < |s| => LowerChar(s[i]))
  }

  /** Lower-casing twice is lower-casing once. */
  lemma LowerIdempotent(s: string)
    ensures Lower(Lower(s)) == Lower(s)
  {
  }

  /** A string without upper-case letters is its own lower-casing. */
  lemma LowerOfLowercase(s: string)
    requires forall i :: 0 <= i < |s| ==> !IsUpper(s[i])
    ensures Lower(s) == s
  {
  }

  /** Lower-casing commutes with taking a slice. */
  lemma LowerSlice(s: string, i: int, j: int)
    requires 0 <= i <= j <= |s|
    ensures Lower(s)[i..j] == Lower(s[i..j])
  {
  }

  /** `t` occurs in `s` starting at position `i`. */
  ghost predicate OccursAt(s: string, t: string, i: int)
  {
    0 <= i <= |s| - |t| && s[i..i + |t|] == t
  }

  lemma OccursShift(s: string, t: string)
    requires |s| > 0
    ensures forall i :: OccursAt(s[1..], t, i) ==> OccursAt(s, t, i + 1)
    ensures forall i :: OccursAt(s, t, i) && i > 0 ==> OccursAt(s[1..], t, i - 1)
  {
  }

  /** `s.includes(t)`: whether `t` occurs somewhere in `s`. */
  function Contains(s: string, t: string): (r: bool)
    ensures r <==> exists i :: OccursAt(s, t, i)
    decreases |s|
  {
    if |t| > |s| then false
    else if s[..|t|] == t then assert OccursAt(s, t, 0); true
    else OccursShift(s, t); Contains(s[1..], t)
  }

  /** The empty string occurs in every string. */
  lemma ContainsEmpty(s: string)
    ensures Contains(s, "")
  {
    assert OccursAt(s, "", 0);
  }

  /** `s` has, at position `i`, a stretch that equals `q` up to ASCII case. */
  ghost predicate OccursAtIgnoringCase(s: string, q: string, i: int)
  {
    0 <= i <= |s| - |q| && Lower(s[i..i + |q|]) == Lower(q)
  }

  /**
   * Searching the lower-cased text for the lower-cased query finds exactly
   * the stretches of the text that equal the query up to case.
   */
  lemma ContainsLowerIff(s: string, q: string)
    ensures Contains(Lower(s), Lower(q)) <==> exists i :: OccursAtIgnoringCase(s, q, i)
  {
    if Contains(Lower(s), Lower(q)) {
      var i :| OccursAt(Lower(s), Lower(q), i);
      LowerSlice(s, i, i + |q|);
      assert OccursAtIgnoringCase(s, q, i);
    }
    if i :| OccursAtIgnoringCase(s, q, i) {
      LowerSlice(s, i, i + |q|);
      assert OccursAt(Lower(s), Lower(q), i);
    }
  }
}
