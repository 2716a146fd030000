/**
 * The two string operations the name filters use: `toLowerCase` (restricted
 * to ASCII letters) and `includes` (substring search).
 */
module Text {

  predicate IsUpper(c: char)
  {
    'A' <= c <= 'Z'
  }

  /** ASCII case mapping of one character; every other character is kept. */
  function ToLowerChar(c: char): char
  {
    if IsUpper(c) then (c as int + 32) as char else c
  }

  /** `toLowerCase` over ASCII: the same length, no upper-case letter left. */
  function ToLower(s: string): (r: string)
    ensures |r| == |s|
    ensures forall i | 0 <= i < |r| :: !IsUpper(r[i])
    ensures forall i | 0 <= i < |s| :: !IsUpper(s[i]) ==> r[i] == s[i]
    ensures forall i | 0 <= i < |s| :: IsUpper(s[i]) ==> r[i] as int == s[i] as int + 32
  {
    if s == [] then [] else [ToLowerChar(s[0])] + ToLower(s[1..])
  }

  /** Lowering twice is lowering once (a consequence of `ToLower`'s contract). */
  lemma ToLowerIdempotent(s: string)
    ensures ToLower(ToLower(s)) == ToLower(s)
  {
  }

  /** `t` occurs in `s` starting at index `i`. */
  ghost predicate OccursAt(s: string, t: string, i: int)
  {
    0 <= i && i + |t| <= |s| && s[i..i + |t|] == t
  }

  /** `s.includes(t)`: `t` occurs somewhere in `s` (the empty string occurs everywhere). */
  function Includes(s: string, t: string): (b: bool)
    ensures b <==> exists i :: OccursAt(s, t, i)
    decreases |s|
  {
    if |t| <= |s| && s[..|t|] == t then
      assert OccursAt(s, t, 0);
      true
    else if |s| <= |t| then
      assert forall i :: !OccursAt(s, t, i);
      false
    else
      var b := Includes(s[1..], t);
      assert b <==> exists i :: OccursAt(s, t, i) by {
        forall i | OccursAt(s, t, i) ensures OccursAt(s[1..], t, i - 1) {
          assert i != 0;
          assert s[1..][i - 1..i - 1 + |t|] == s[i..i + |t|];
        }
        forall i | OccursAt(s[1..], t, i) ensures OccursAt(s, t, i + 1) {
          assert s[1..][i..i + |t|] == s[i + 1..i + 1 + |t|];
        }
      }
      b
  }

  /** The name filters' test: `field.toLowerCase().includes(query.toLowerCase())`. */
  function MatchesIgnoringCase(field: string, query: string): (b: bool)
    ensures b <==> exists i :: OccursAt(ToLower(field), ToLower(query), i)
  {
    var found := Includes(ToLower(field), ToLower(query));
    assert found ==> exists i :: OccursAt(ToLower(field), ToLower(query), i);
    assert (exists i :: OccursAt(ToLower(field), ToLower(query), i)) ==> found;
    found
  }

  /** Lower-casing the query first changes nothing. */
  lemma QueryCaseIrrelevant(field: string, query: string)
    ensures MatchesIgnoringCase(field, ToLower(query)) == MatchesIgnoringCase(field, query)
  {
    ToLowerIdempotent(query);
  }

  /** A name always matches itself, and matches any of its own pieces. */
  lemma {:induction false} MatchesSlice(field: string, i: nat, j: nat)
    requires i <= j <= |field|
    ensures MatchesIgnoringCase(field, field[i..j])
  {
    ToLowerSlice(field, i, j);
    assert OccursAt(ToLower(field), ToLower(field[i..j]), i);
  }

  /** Lower-casing commutes with taking a slice. */
  lemma {:induction false} ToLowerSlice(s: string, i: nat, j: nat)
    requires i <= j <= |s|
    ensures ToLower(s[i..j]) == ToLower(s)[i..j]
  {
    forall k | 0 <= k < j - i ensures ToLower(s[i..j])[k] == ToLower(s)[i + k] {
      ToLowerAt(s[i..j], k);
      ToLowerAt(s, i + k);
    }
  }

  /** Each character is lowered on its own (a consequence of `ToLower`'s contract). */
  lemma ToLowerAt(s: string, k: nat)
    requires k < |s|
    ensures ToLower(s)[k] == ToLowerChar(s[k])
  {
  }
}
