/**
 * Models of the two JavaScript array methods every resolver is built from,
 * `Array.prototype.find` and `Array.prototype.filter`, over a sequence that
 * stands for the array as it is when the resolver runs.
 */
module Arrays {
  import opened Wrappers

  /** Index `i` holds an element satisfying `p`, and no earlier index does. */
  ghost predicate FirstMatchAt<T>(s: seq<T>, p: T -> bool, i: int)
  {
    0 <= i < |s| && p(s[i]) && forall j | 0 <= j < i :: !p(s[j])
  }

  /** `find`: the first element satisfying `p`, or nothing (`undefined`). */
  function Find<T>(s: seq<T>, p: T -> bool): (r: Option<T>)
    ensures r.None? <==> forall i | 0 <= i < |s| :: !p(s[i])
    ensures r.Some? ==> exists i :: FirstMatchAt(s, p, i) && s[i] == r.value
  {
    if s == [] then None
    else if p(s[0]) then
      assert FirstMatchAt(s, p, 0);
      Some(s[0])
    else
      var r := Find(s[1..], p);
      assert r.Some? ==> exists i :: FirstMatchAt(s, p, i) && s[i] == r.value by {
        if r.Some? {
          var i :| FirstMatchAt(s[1..], p, i) && s[1..][i] == r.value;
          assert FirstMatchAt(s, p, i + 1);
        }
      }
      r
  }

  /** `r` keeps the elements of `s` in order, possibly dropping some. */
  ghost predicate IsSubsequence<T>(r: seq<T>, s: seq<T>)
    decreases |s|
  {
    if r == [] then true
    else if s == [] then false
    else if r[0] == s[0] then IsSubsequence(r[1..], s[1..])
    else IsSubsequence(r, s[1..])
  }

  /**
   * What `filter` promises, stated without computing it: every element of
   * `r` satisfies `p`, `r` is a subsequence of `s`, and every element that
   * satisfies `p` occurs in `r` as often as in `s`.
   */
  ghost predicate IsFilterOf<T>(r: seq<T>, s: seq<T>, p: T -> bool)
  {
    && (forall i | 0 <= i < |r| :: p(r[i]))
    && IsSubsequence(r, s)
    && (forall i | 0 <= i < |s| && p(s[i]) :: multiset(r)[s[i]] == multiset(s)[s[i]])
  }

  /** `filter`: the elements satisfying `p`, in their original order. */
  function Filter<T(==)>(s: seq<T>, p: T -> bool): (r: seq<T>)
    ensures |r| <= |s|
    ensures IsFilterOf(r, s, p)
    ensures forall i | 0 <= i < |s| :: s[i] in r <==> p(s[i])
  {
    if s == [] then []
    else
      var rest := Filter(s[1..], p);
      assert s == [s[0]] + s[1..];
      SubsequenceMultiset(rest, s[1..]);
      if p(s[0]) then
        assert ([s[0]] + rest)[1..] == rest;
        [s[0]] + rest
      else
        rest
  }

  lemma {:induction false} SubsequenceMultiset<T>(r: seq<T>, s: seq<T>)
    requires IsSubsequence(r, s)
    ensures multiset(r) <= multiset(s)
    decreases |s|
  {
    if r != [] {
      assert s == [s[0]] + s[1..];
      if r[0] == s[0] {
        assert r == [r[0]] + r[1..];
        SubsequenceMultiset(r[1..], s[1..]);
      } else {
        SubsequenceMultiset(r, s[1..]);
      }
    }
  }

  /** `filter`'s promise determines its result: `Filter` is the only sequence meeting it. */
  lemma {:induction false} FilterUnique<T>(r: seq<T>, s: seq<T>, p: T -> bool)
    requires IsFilterOf(r, s, p)
    ensures r == Filter(s, p)
    decreases |s|
  {
    if s == [] {
      assert r == [];
    } else {
      var x, t := s[0], s[1..];
      assert s == [x] + t;
      if r != [] && r[0] == x {
        assert r == [x] + r[1..];
        assert IsFilterOf(r[1..], t, p) by {
          forall i | 0 <= i < |t| && p(t[i]) ensures multiset(r[1..])[t[i]] == multiset(t)[t[i]] {
            assert t[i] == s[i + 1];
          }
        }
        FilterUnique(r[1..], t, p);
      } else {
        assert IsSubsequence(r, t);
        if p(x) {
          SubsequenceMultiset(r, t);
          assert false;
        }
        assert IsFilterOf(r, t, p) by {
          forall i | 0 <= i < |t| && p(t[i]) ensures multiset(r)[t[i]] == multiset(t)[t[i]] {
            assert t[i] == s[i + 1];
          }
        }
        FilterUnique(r, t, p);
      }
    }
  }

  /** Filtering an array with one more element at the end. */
  lemma {:induction false} FilterAppend<T>(s: seq<T>, x: T, p: T -> bool)
    ensures Filter(s + [x], p) == Filter(s, p) + (if p(x) then [x] else [])
  {
    if s != [] {
      assert (s + [x])[1..] == s[1..] + [x];
      FilterAppend(s[1..], x, p);
    }
  }

  /** Finding in an array with one more element at the end. */
  lemma {:induction false} FindAppend<T>(s: seq<T>, x: T, p: T -> bool)
    ensures Find(s + [x], p) == if Find(s, p).Some? then Find(s, p) else if p(x) then Some(x) else None
  {
    if s != [] {
      assert (s + [x])[1..] == s[1..] + [x];
      FindAppend(s[1..], x, p);
    }
  }

  /** Two predicates that agree on every element filter alike. */
  lemma {:induction false} FilterCongruent<T>(s: seq<T>, p: T -> bool, q: T -> bool)
    requires forall i | 0 <= i < |s| :: p(s[i]) == q(s[i])
    ensures Filter(s, p) == Filter(s, q)
  {
    if s != [] {
      FilterCongruent(s[1..], p, q);
    }
  }
}
