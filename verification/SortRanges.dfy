/** Ranges of a sequence under a strict weak order: sorted, bounded by an element, rearranged within a range. */
module SortRanges {

  ghost predicate StrictWeak<T(!new)>(comp: (T, T) -> bool) {
    (forall x :: !comp(x, x)) && (forall x, y, z :: comp(x, y) && comp(y, z) ==> comp(x, z)) &&
    (forall x, y, z :: !comp(x, y) && !comp(y, z) ==> !comp(x, z))
  }

  lemma Irreflexive<T(!new)>(comp: (T, T) -> bool, x: T)
    requires StrictWeak(comp)
    ensures !comp(x, x)
  {
  }

  lemma Asymmetric<T(!new)>(comp: (T, T) -> bool, x: T, y: T)
    requires StrictWeak(comp) && comp(x, y)
    ensures !comp(y, x)
  {
  }

  /** x is not larger than y, and y not larger than z. */
  lemma NotLessTrans<T(!new)>(comp: (T, T) -> bool, x: T, y: T, z: T)
    requires StrictWeak(comp) && !comp(y, x) && !comp(z, y)
    ensures !comp(z, x)
  {
  }

  ghost predicate Sorted<T>(comp: (T, T) -> bool, s: seq<T>, lo: nat, hi: nat) {
    lo <= hi <= |s| && forall i, j :: lo <= i < j < hi ==> !comp(s[j], s[i])
  }

  /** All elements of the range are smaller than p. */
  ghost predicate AllLess<T>(comp: (T, T) -> bool, s: seq<T>, lo: nat, hi: nat, p: T) {
    hi <= |s| && forall i :: lo <= i < hi ==> comp(s[i], p)
  }

  /** No element of the range is smaller than p. */
  ghost predicate NoneLess<T>(comp: (T, T) -> bool, s: seq<T>, lo: nat, hi: nat, p: T) {
    hi <= |s| && forall i :: lo <= i < hi ==> !comp(s[i], p)
  }

  /** No element of the range is larger than p. */
  ghost predicate NoneLarger<T>(comp: (T, T) -> bool, s: seq<T>, lo: nat, hi: nat, p: T) {
    hi <= |s| && forall i :: lo <= i < hi ==> !comp(p, s[i])
  }

  // ---- rearranging -----------------------------------------------------------------------------------------

  /** t is s with the elements from lo to hi rearranged and all others in place. */
  ghost predicate Rearranged<T>(s: seq<T>, t: seq<T>, lo: nat, hi: nat) {
    lo <= hi <= |s| == |t| && multiset(s) == multiset(t) &&
    forall i :: 0 <= i < |s| && !(lo <= i < hi) ==> t[i] == s[i]
  }

  lemma RearrangedSame<T>(s: seq<T>, lo: nat, hi: nat)
    requires lo <= hi <= |s|
    ensures Rearranged(s, s, lo, hi)
  {
  }

  lemma RearrangedTrans<T>(s: seq<T>, t: seq<T>, u: seq<T>, lo: nat, hi: nat)
    requires Rearranged(s, t, lo, hi) && Rearranged(t, u, lo, hi)
    ensures Rearranged(s, u, lo, hi)
  {
  }

  lemma RearrangedWider<T>(s: seq<T>, t: seq<T>, lo: nat, hi: nat, lo': nat, hi': nat)
    requires Rearranged(s, t, lo, hi) && lo' <= lo && hi <= hi' <= |s|
    ensures Rearranged(s, t, lo', hi')
  {
  }

  function Swapped<T>(s: seq<T>, i: nat, j: nat): (r: seq<T>)
    requires i < |s| && j < |s|
  {
    s[i := s[j]][j := s[i]]
  }

  lemma SwappedRearranged<T>(s: seq<T>, i: nat, j: nat, lo: nat, hi: nat)
    requires lo <= i < hi <= |s| && lo <= j < hi
    ensures Rearranged(s, Swapped(s, i, j), lo, hi)
  {
  }

  lemma ThreeParts<T>(s: seq<T>, lo: nat, hi: nat)
    requires lo <= hi <= |s|
    ensures multiset(s) == multiset(s[..lo]) + multiset(s[lo..hi]) + multiset(s[hi..])
  {
    assert s == (s[..lo] + s[lo..hi]) + s[hi..];
  }

  lemma RangeElements<T(!new)>(s: seq<T>, t: seq<T>, lo: nat, hi: nat)
    requires Rearranged(s, t, lo, hi)
    ensures multiset(s[lo..hi]) == multiset(t[lo..hi])
  {
    ThreeParts(s, lo, hi);
    ThreeParts(t, lo, hi);
    assert s[..lo] == t[..lo] && s[hi..] == t[hi..];
    var a, b, x, y := multiset(s[..lo]), multiset(s[hi..]), multiset(s[lo..hi]), multiset(t[lo..hi]);
    assert a + x + b == a + y + b;
    forall e ensures x[e] == y[e] {
      assert (a + x + b)[e] == (a + y + b)[e];
    }
  }

  /** Every element of the range was there before. */
  lemma RangeMember<T(!new)>(s: seq<T>, t: seq<T>, lo: nat, hi: nat, i: nat) returns (j: nat)
    requires Rearranged(s, t, lo, hi) && lo <= i < hi
    ensures lo <= j < hi && s[j] == t[i]
  {
    RangeElements(s, t, lo, hi);
    assert t[lo..hi][i - lo] in multiset(t[lo..hi]);
    assert t[i] in s[lo..hi];
    var k :| 0 <= k < hi - lo && s[lo..hi][k] == t[i];
    j := lo + k;
  }

  /** Rearranging inside a range keeps what holds of all its elements. */
  lemma BoundsKept<T(!new)>(comp: (T, T) -> bool, s: seq<T>, t: seq<T>, lo: nat, hi: nat, lo': nat, hi': nat, p: T)
    requires Rearranged(s, t, lo, hi) && lo' <= lo && hi <= hi'
    ensures AllLess(comp, s, lo', hi', p) ==> AllLess(comp, t, lo', hi', p)
    ensures NoneLess(comp, s, lo', hi', p) ==> NoneLess(comp, t, lo', hi', p)
    ensures NoneLarger(comp, s, lo', hi', p) ==> NoneLarger(comp, t, lo', hi', p)
  {
    if hi' <= |s| {
      forall i | lo' <= i < hi' ensures exists j :: lo' <= j < hi' && t[i] == s[j] {
        if lo <= i < hi {
          var j := RangeMember(s, t, lo, hi, i);
        } else {
          assert t[i] == s[i];
        }
      }
    }
  }
}
