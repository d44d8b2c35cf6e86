/** SortedVector: a vector that is appended to in any order and sorted when it is asked for. Only its tail is sorted
    then, and only the window in which the two parts overlap is merged. */
module SortedVector {
  import opened SortRanges
  import Pdqsort

  // ---- merging ---------------------------------------------------------------------------------------------

  /** The stable merge: from the right only what is smaller. */
  function Merged<T>(comp: (T, T) -> bool, x: seq<T>, y: seq<T>): (r: seq<T>)
    ensures |r| == |x| + |y|
  {
    if x == [] then y
    else if y == [] then x
    else if comp(y[0], x[0]) then [y[0]] + Merged(comp, x, y[1..])
    else [x[0]] + Merged(comp, x[1..], y)
  }

  lemma MergeCases<T>(comp: (T, T) -> bool, x: seq<T>, y: seq<T>)
    ensures x == [] ==> Merged(comp, x, y) == y
    ensures y == [] ==> Merged(comp, x, y) == x
    ensures x != [] && y != [] && comp(y[0], x[0]) ==> Merged(comp, x, y) == [y[0]] + Merged(comp, x, y[1..])
    ensures x != [] && y != [] && !comp(y[0], x[0]) ==> Merged(comp, x, y) == [x[0]] + Merged(comp, x[1..], y)
  {
  }

  lemma ConsElements<T>(s: seq<T>)
    requires s != []
    ensures multiset(s) == multiset{s[0]} + multiset(s[1..])
  {
    assert s == [s[0]] + s[1..];
  }

  lemma ConsAppend<T>(s: seq<T>, t: seq<T>)
    requires s != []
    ensures [s[0]] + (s[1..] + t) == s + t && (s + t)[0] == s[0] && (s + t)[1..] == s[1..] + t
  {
  }

  lemma Associate<T>(p: T, s: seq<T>, t: seq<T>)
    ensures [p] + (s + t) == ([p] + s) + t
  {
  }

  lemma Associate3<T>(r: seq<T>, s: seq<T>, t: seq<T>)
    ensures r + (s + t) == (r + s) + t
  {
  }

  lemma {:induction false} MergedElements<T>(comp: (T, T) -> bool, x: seq<T>, y: seq<T>)
    ensures multiset(Merged(comp, x, y)) == multiset(x) + multiset(y)
    decreases |x| + |y|
  {
    hide Merged;
    MergeCases(comp, x, y);
    if x != [] && y != [] {
      ConsElements(x);
      ConsElements(y);
      if comp(y[0], x[0]) {
        MergedElements(comp, x, y[1..]);
      } else {
        MergedElements(comp, x[1..], y);
      }
    }
  }

  /** No element of s is smaller than p. */
  ghost predicate Floor<T>(comp: (T, T) -> bool, s: seq<T>, p: T) {
    forall i :: 0 <= i < |s| ==> !comp(s[i], p)
  }

  ghost predicate InOrder<T>(comp: (T, T) -> bool, s: seq<T>) {
    forall i, j :: 0 <= i < j < |s| ==> !comp(s[j], s[i])
  }

  lemma InOrderCons<T>(comp: (T, T) -> bool, p: T, s: seq<T>)
    requires InOrder(comp, s) && Floor(comp, s, p)
    ensures InOrder(comp, [p] + s)
  {
  }

  lemma InOrderTail<T(!new)>(comp: (T, T) -> bool, s: seq<T>, p: T)
    requires StrictWeak(comp) && InOrder(comp, s) && s != [] && !comp(s[0], p)
    ensures InOrder(comp, s[1..]) && Floor(comp, s, p) && Floor(comp, s[1..], s[0])
  {
    hide StrictWeak;
    forall i | 0 <= i < |s| ensures !comp(s[i], p) {
      if i > 0 {
        NotLessTrans(comp, p, s[0], s[i]);
      }
    }
  }

  lemma MergedFloor<T>(comp: (T, T) -> bool, x: seq<T>, y: seq<T>, p: T)
    requires Floor(comp, x, p) && Floor(comp, y, p)
    ensures Floor(comp, Merged(comp, x, y), p)
  {
    MergedElements(comp, x, y);
    var r := Merged(comp, x, y);
    forall i | 0 <= i < |r| ensures !comp(r[i], p) {
      assert r[i] in multiset(x) + multiset(y);
    }
  }

  /** Merging sorted sequences gives a sorted sequence. */
  lemma {:induction false} MergedInOrder<T(!new)>(comp: (T, T) -> bool, x: seq<T>, y: seq<T>)
    requires StrictWeak(comp) && InOrder(comp, x) && InOrder(comp, y)
    ensures InOrder(comp, Merged(comp, x, y))
    decreases |x| + |y|
  {
    hide StrictWeak, InOrder, Floor;
    if x != [] && y != [] {
      if comp(y[0], x[0]) {
        Asymmetric(comp, y[0], x[0]);
        InOrderTail(comp, x, y[0]);
        Irreflexive(comp, y[0]);
        InOrderTail(comp, y, y[0]);
        MergedInOrder(comp, x, y[1..]);
        MergedFloor(comp, x, y[1..], y[0]);
        InOrderCons(comp, y[0], Merged(comp, x, y[1..]));
      } else {
        InOrderTail(comp, y, x[0]);
        Irreflexive(comp, x[0]);
        InOrderTail(comp, x, x[0]);
        MergedInOrder(comp, x[1..], y);
        MergedFloor(comp, x[1..], y, x[0]);
        InOrderCons(comp, x[0], Merged(comp, x[1..], y));
      }
    }
  }

  /** What is smaller than the first right element comes first. */
  lemma {:induction false} MergedSkipsFront<T(!new)>(comp: (T, T) -> bool, x: seq<T>, y: seq<T>, k: nat)
    requires StrictWeak(comp) && k <= |x| && (y == [] || forall i :: 0 <= i < k ==> !comp(y[0], x[i]))
    ensures Merged(comp, x, y) == x[..k] + Merged(comp, x[k..], y)
    decreases k
  {
    hide StrictWeak;
    if k == 0 {
      assert x[0..] == x;
    } else if y != [] {
      assert !comp(y[0], x[0]);
      MergedSkipsFront(comp, x[1..], y, k - 1);
      assert x[1..][k - 1..] == x[k..] && [x[0]] + x[1..][..k - 1] == x[..k];
    } else {
      assert Merged(comp, x[k..], y) == x[k..];
    }
  }

  /** No element of z is smaller than any of x. */
  ghost predicate AllAfter<T>(comp: (T, T) -> bool, x: seq<T>, z: seq<T>) {
    forall i, j :: 0 <= i < |z| && 0 <= j < |x| ==> !comp(z[i], x[j])
  }

  /** What is not smaller than any left element comes last. */
  lemma {:induction false} MergedSkipsBack<T(!new)>(comp: (T, T) -> bool, x: seq<T>, y: seq<T>, z: seq<T>)
    requires x != [] && AllAfter(comp, x, z)
    ensures Merged(comp, x, y + z) == Merged(comp, x, y) + z
    decreases |x| + |y|
  {
    hide Merged;
    MergeCases(comp, x, y);
    MergeCases(comp, x, y + z);
    if y == [] {
      assert y + z == z;
      MergedAfter(comp, x, z);
    } else {
      ConsAppend(y, z);
      if comp(y[0], x[0]) {
        MergedSkipsBack(comp, x, y[1..], z);
        Associate(y[0], Merged(comp, x, y[1..]), z);
      } else if x[1..] == [] {
        MergeCases(comp, x[1..], y);
        MergeCases(comp, x[1..], y + z);
        Associate(x[0], y, z);
      } else {
        MergedSkipsBack(comp, x[1..], y, z);
        Associate(x[0], Merged(comp, x[1..], y), z);
      }
    }
  }

  lemma {:induction false} MergedAfter<T(!new)>(comp: (T, T) -> bool, x: seq<T>, z: seq<T>)
    requires AllAfter(comp, x, z)
    ensures Merged(comp, x, z) == x + z
    decreases |x|
  {
    hide Merged;
    MergeCases(comp, x, z);
    if z == [] {
      assert x + z == x;
    } else if x == [] {
      assert x + z == z;
    } else {
      MergedAfter(comp, x[1..], z);
      ConsAppend(x, z);
    }
  }

  /** Merging only the window between the two lower bounds is merging the whole. */
  lemma WindowMerge<T(!new)>(comp: (T, T) -> bool, s: seq<T>, ss: nat, se: nat, uu: nat)
    requires StrictWeak(comp) && ss <= se <= uu <= |s| && 0 < se < |s|
    requires InOrder(comp, s[..se]) && InOrder(comp, s[se..])
    requires (forall i :: 0 <= i < ss ==> comp(s[i], s[se])) && (forall i :: ss <= i < se ==> !comp(s[i], s[se]))
    requires (forall i :: se <= i < uu ==> comp(s[i], s[se - 1])) &&
      (forall i :: uu <= i < |s| ==> !comp(s[i], s[se - 1]))
    ensures s[..ss] + Merged(comp, s[ss..se], s[se..uu]) + s[uu..] == Merged(comp, s[..se], s[se..])
  {
    hide StrictWeak;
    var x, y, y', z := s[..se], s[se..], s[se..uu], s[uu..];
    assert y == y' + z && x[ss..] == s[ss..se] && x[..ss] == s[..ss];
    forall i | 0 <= i < ss ensures !comp(y[0], x[i]) {
      Asymmetric(comp, s[i], s[se]);
    }
    MergedSkipsFront(comp, x, y, ss);
    if ss == se {
      WindowEmpty(comp, s, se, uu);
      assert s[ss..se] == [];
      assert s[..ss] + y' + z == s[..ss] + y;
    } else {
      forall i, j | 0 <= i < |z| && 0 <= j < |x[ss..]| ensures !comp(z[i], x[ss..][j]) {
        LastIsMost(comp, s, se, ss + j);
        NotLessTrans(comp, s[ss + j], s[se - 1], s[uu + i]);
      }
      assert AllAfter(comp, x[ss..], z);
      Associate3(x[..ss], Merged(comp, x[ss..], y'), z);
      MergedSkipsBack(comp, x[ss..], y', z);
    }
  }

  lemma WindowEmpty<T(!new)>(comp: (T, T) -> bool, s: seq<T>, se: nat, uu: nat)
    requires 0 < se <= uu <= |s|
    ensures s[se..] == s[se..uu] + s[uu..]
  {
  }

  lemma LastIsMost<T(!new)>(comp: (T, T) -> bool, s: seq<T>, se: nat, i: nat)
    requires StrictWeak(comp) && i < se <= |s| && InOrder(comp, s[..se])
    ensures !comp(s[se - 1], s[i])
  {
    Irreflexive(comp, s[i]);
    assert s[..se][i] == s[i] && s[..se][se - 1] == s[se - 1];
  }

  /** lower_bound, by its contract. */
  method LowerBound<T(!new)>(s: seq<T>, lo: nat, hi: nat, x: T, comp: (T, T) -> bool) returns (r: nat)
    requires StrictWeak(comp) && Sorted(comp, s, lo, hi)
    ensures lo <= r <= hi && (forall i :: lo <= i < r ==> comp(s[i], x)) && (forall i :: r <= i < hi ==> !comp(s[i], x))
  {
    hide StrictWeak;
    r := lo;
    var end := hi;
    while r < end
      invariant lo <= r <= end <= hi
      invariant (forall i :: lo <= i < r ==> comp(s[i], x)) && (forall i :: end <= i < hi ==> !comp(s[i], x))
    {
      var mid := (r + end) / 2;
      if comp(s[mid], x) {
        forall i | lo <= i < mid ensures comp(s[i], x) {
          NotLarger(comp, s[i], s[mid], x);
        }
        r := mid + 1;
      } else {
        forall i | mid < i < hi ensures !comp(s[i], x) {
          NotLessTrans(comp, x, s[mid], s[i]);
        }
        end := mid;
      }
    }
  }

  lemma NotLarger<T(!new)>(comp: (T, T) -> bool, x: T, y: T, z: T)
    requires StrictWeak(comp) && !comp(y, x) && comp(y, z)
    ensures comp(x, z)
  {
  }

  // ---- the vector ------------------------------------------------------------------------------------------

  class Vector<T(!new)> {
    const comp: (T, T) -> bool
    var v: seq<T>
    var sortedEnd: nat

    /** Sorted as a whole if the vector says so, otherwise up to sortedEnd. */
    ghost predicate Valid()
      reads this
    {
      StrictWeak(comp) && (sortedEnd == 0 || sortedEnd < |v|) &&
      InOrder(comp, v[..if sortedEnd == 0 then |v| else sortedEnd])
    }

    predicate IsSorted()
      reads this
    {
      sortedEnd == 0
    }

    constructor (comp: (T, T) -> bool)
      requires StrictWeak(comp)
      ensures Valid() && v == [] && IsSorted() && this.comp == comp
    {
      this.comp, v, sortedEnd := comp, [], 0;
    }

    lemma SortedMeans()
      requires Valid() && IsSorted()
      ensures InOrder(comp, v)
    {
      assert v[..|v|] == v;
    }

    /** push_back: the vector stops being sorted exactly when the new value is smaller than the last one. */
    method PushBack(val: T)
      requires Valid()
      modifies this
      ensures Valid() && v == old(v) + [val]
      ensures IsSorted() <==> old(IsSorted() && (v == [] || !comp(val, v[|v| - 1])))
    {
      hide StrictWeak;
      ghost var before := v;
      if sortedEnd == 0 && v != [] && comp(val, v[|v| - 1]) {
        sortedEnd := |v|;
      }
      v := v + [val];
      if sortedEnd == 0 {
        assert before[..|before|] == before;
        OneMore(comp, before, val);
        assert v[..|v|] == v;
      } else {
        assert v[..sortedEnd] == before[..sortedEnd];
      }
    }

    /** mark_unsorted: the order of all but the first element is no longer relied on. */
    method MarkUnsorted()
      requires Valid()
      modifies this`sortedEnd
      ensures Valid() && (IsSorted() <==> (|v| <= 1 && old(IsSorted())))
    {
      if |v| > 1 {
        sortedEnd := 1;
      }
    }

    method Clear()
      modifies this
      requires Valid()
      ensures Valid() && v == [] && IsSorted()
    {
      v, sortedEnd := [], 0;
    }

    /** sort: sorts the tail and merges the window in which it overlaps the sorted part. The result is the merge of
        the whole sorted part with the tail sorted. */
    method Sort() returns (ghost tail: seq<T>)
      requires Valid() && !IsSorted()
      modifies this
      ensures Valid() && IsSorted() && InOrder(comp, v) && multiset(v) == multiset(old(v))
      ensures InOrder(comp, tail) && multiset(tail) == multiset(old(v[sortedEnd..]))
      ensures v == Merged(comp, old(v[..sortedEnd]), tail)
    {
      hide StrictWeak, InOrder, Merged, Sorted, Rearranged;
      ghost var s0 := v;
      var se := sortedEnd;
      var s := SortTail(v, se, comp);
      HeadSorted();
      TailSorted(comp, s0, s, se);
      var ss := LowerBound(s, 0, se, s[se], comp);
      var uu := LowerBound(s, se, |s|, s[se - 1], comp);
      tail := s[se..];
      WindowMerge(comp, s, ss, se, uu);
      MergedInOrder(comp, s[..se], tail);
      MergedElements(comp, s[..se], tail);
      v := s[..ss] + Merged(comp, s[ss..se], s[se..uu]) + s[uu..];
      sortedEnd := 0;
      assert v[..|v|] == v;
    }

    lemma HeadSorted()
      requires Valid() && !IsSorted()
      ensures InOrder(comp, v[..sortedEnd])
    {
    }

    method EnsureSorted()
      requires Valid()
      modifies this
      ensures Valid() && IsSorted() && InOrder(comp, v) && multiset(v) == multiset(old(v))
      ensures old(IsSorted()) ==> v == old(v)
    {
      if IsSorted() {
        SortedMeans();
      } else {
        var _ := Sort();
      }
    }
  }

  lemma OneMore<T(!new)>(comp: (T, T) -> bool, s: seq<T>, x: T)
    requires StrictWeak(comp) && InOrder(comp, s) && (s == [] || !comp(x, s[|s| - 1]))
    ensures InOrder(comp, s + [x])
  {
    hide StrictWeak;
    forall i, j | 0 <= i < j < |s| + 1 ensures !comp((s + [x])[j], (s + [x])[i]) {
      if j == |s| && i < |s| - 1 {
        NotLessTrans(comp, s[i], s[|s| - 1], x);
      }
    }
  }

  lemma TailSorted<T(!new)>(comp: (T, T) -> bool, s0: seq<T>, s: seq<T>, se: nat)
    requires 0 < se < |s0| && Rearranged(s0, s, se, |s0|) && Sorted(comp, s, se, |s|) && InOrder(comp, s0[..se])
    ensures |s| == |s0| && s[..se] == s0[..se] && Sorted(comp, s, 0, se) && InOrder(comp, s[se..])
    ensures multiset(s[se..]) == multiset(s0[se..]) && multiset(s0) == multiset(s0[..se]) + multiset(s0[se..])
  {
    assert s[..se] == s0[..se];
    forall i, j | 0 <= i < j < se ensures !comp(s[j], s[i]) {
      assert s0[..se][i] == s[i] && s0[..se][j] == s[j];
    }
    RangeElements(s0, s, se, |s0|);
    assert s[se..|s0|] == s[se..] && s0[se..|s0|] == s0[se..];
    assert s0 == s0[..se] + s0[se..];
  }

  /** The sort of the tail, on the vector's storage. */
  method SortTail<T(!new)>(v: seq<T>, se: nat, comp: (T, T) -> bool) returns (s: seq<T>)
    requires StrictWeak(comp) && 0 < se < |v|
    ensures Rearranged(v, s, se, |v|) && Sorted(comp, s, se, |s|)
  {
    var a := new T[|v|](i requires 0 <= i < |v| => v[i]);
    assert a[..] == v;
    Pdqsort.Sort(a, se, |v|, comp, false);
    s := a[..];
  }
}
