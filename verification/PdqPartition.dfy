/** pdqsort's plain partitions around the pivot in the first place. The scans look at no bounds: the median selection
    and the pairs already swapped stop them. */
module PdqPartition {
  import opened SortRanges
  import opened PdqInsertion

  /** Position pos holds the pivot, what is before it is smaller and what is after it is not. */
  ghost predicate SplitRight<T>(comp: (T, T) -> bool, s: seq<T>, begin: nat, pos: nat, end: nat) {
    begin <= pos < end <= |s| && AllLess(comp, s, begin, pos, s[pos]) && NoneLess(comp, s, pos + 1, end, s[pos])
  }

  /** Position pos holds the pivot, what is after it is larger and what is before it is not. */
  ghost predicate SplitLeft<T>(comp: (T, T) -> bool, s: seq<T>, begin: nat, pos: nat, end: nat) {
    begin <= pos < end <= |s| && NoneLarger(comp, s, begin, pos, s[pos]) &&
    forall i :: pos < i < end ==> comp(s[pos], s[i])
  }

  /** Behind the pivot in the first place the elements up to pos are smaller than it and the others are not: only the
      pivot has to move. */
  ghost predicate PartitionedAt<T>(comp: (T, T) -> bool, s: seq<T>, begin: nat, pos: nat, end: nat) {
    begin <= pos < end <= |s| && AllLess(comp, s, begin + 1, pos + 1, s[begin]) &&
      NoneLess(comp, s, pos + 1, end, s[begin])
  }

  /** The scans meet at once exactly when the range was partitioned already. */
  lemma MetAtOnce<T>(comp: (T, T) -> bool, s: seq<T>, begin: nat, first: nat, last: nat, end: nat, p: T, pos: nat)
    requires RightPair(comp, s, begin, first, last, end, p) && begin <= pos < end <= |s|
    requires first >= last ==> pos == first - 1
    ensures first >= last <==> PartitionedAt(comp, s, begin, pos, end)
  {
  }

  /** The pivot, kept in a local since the start, changes places with the element at its final position. */
  method PlacePivot<T>(a: array<T>, begin: nat, pos: nat, pivot: T)
    requires begin < a.Length && pos < a.Length && a[begin] == pivot
    modifies a
    ensures a[..] == Swapped(old(a[..]), begin, pos)
  {
    a[begin] := a[pos];
    a[pos] := pivot;
  }

  method ScanUp<T>(a: array<T>, from: nat, pivot: T, ghost stop: nat, comp: (T, T) -> bool) returns (first: nat)
    requires from < stop < a.Length && !comp(a[stop], pivot)
    ensures from < first <= stop && !comp(a[first], pivot) && AllLess(comp, a[..], from + 1, first, pivot)
  {
    first := from + 1;
    while comp(a[first], pivot)
      invariant from < first <= stop && AllLess(comp, a[..], from + 1, first, pivot)
      decreases stop - first
    {
      first := first + 1;
    }
  }

  method ScanDown<T>(a: array<T>, from: nat, pivot: T, ghost stop: nat, comp: (T, T) -> bool) returns (last: nat)
    requires stop < from <= a.Length && comp(a[stop], pivot)
    ensures stop <= last < from && comp(a[last], pivot) && NoneLess(comp, a[..], last + 1, from, pivot)
  {
    last := from - 1;
    while !comp(a[last], pivot)
      invariant stop <= last < from && NoneLess(comp, a[..], last + 1, from, pivot)
      decreases last
    {
      last := last - 1;
    }
  }

  /** What is before first is smaller than the pivot p in the first place, what is after last is not; the two
      themselves are on the wrong sides, unless the scans have met. */
  ghost predicate RightPair<T>(comp: (T, T) -> bool, s: seq<T>, begin: nat, first: nat, last: nat, end: nat, p: T) {
    begin < first < end <= |s| && begin < last + 1 <= end && s[begin] == p && AllLess(comp, s, begin + 1, first, p) &&
    if first < last then last < end && comp(s[last], p) && !comp(s[first], p) && NoneLess(comp, s, last + 1, end, p)
    else NoneLess(comp, s, first, end, p)
  }

  /** The two scans before the first swap; the second is guarded only if the first found nothing smaller. */
  method FirstPair<T(!new)>(a: array<T>, begin: nat, end: nat, pivot: T, comp: (T, T) -> bool)
    returns (first: nat, last: nat)
    requires begin < end <= a.Length && (exists g :: begin < g < end && !comp(a[g], pivot)) && a[begin] == pivot
    ensures RightPair(comp, a[..], begin, first, last, end, pivot)
  {
    ghost var g :| begin < g < end && !comp(a[g], pivot);
    first := ScanUp(a, begin, pivot, g, comp);
    last := end;
    if first - 1 == begin {
      while first < last
        invariant first <= last <= end && NoneLess(comp, a[..], last, end, pivot)
      {
        last := last - 1;
        if comp(a[last], pivot) {
          break;
        }
      }
    } else {
      last := ScanDown(a, end, pivot, first - 1, comp);
    }
  }

  /** Putting the pivot between the two parts. */
  lemma PivotPlaced<T(!new)>(comp: (T, T) -> bool, s: seq<T>, begin: nat, first: nat, end: nat)
    requires StrictWeak(comp) && begin < first <= end <= |s|
    requires AllLess(comp, s, begin + 1, first, s[begin]) && NoneLess(comp, s, first, end, s[begin])
    ensures SplitRight(comp, Swapped(s, begin, first - 1), begin, first - 1, end)
    ensures Rearranged(s, Swapped(s, begin, first - 1), begin, end)
  {
    SwappedRearranged(s, begin, first - 1, begin, end);
    hide StrictWeak, Rearranged;
  }

  lemma PairSwapped<T(!new)>(comp: (T, T) -> bool, s: seq<T>, begin: nat, first: nat, last: nat, end: nat, p: T)
    requires begin < first < last < end <= |s| && comp(s[last], p) && !comp(s[first], p)
    requires AllLess(comp, s, begin + 1, first, p) && NoneLess(comp, s, last + 1, end, p)
    ensures ghost var t := Swapped(s, first, last);
      AllLess(comp, t, begin + 1, first + 1, p) && NoneLess(comp, t, last, end, p) && Rearranged(s, t, begin, end) &&
      t[begin] == s[begin]
  {
    SwappedRearranged(s, first, last, begin, end);
    hide Rearranged;
  }

  lemma ScansDone<T>(comp: (T, T) -> bool, s: seq<T>, begin: nat, first0: nat, first: nat, last: nat, last0: nat,
                     end: nat, p: T)
    requires begin < first0 < first <= last0 < end <= |s| && first0 <= last < last0 && s[begin] == p
    requires AllLess(comp, s, begin + 1, first0 + 1, p) && AllLess(comp, s, first0 + 1, first, p) && !comp(s[first], p)
    requires NoneLess(comp, s, last0, end, p) && NoneLess(comp, s, last + 1, last0, p) && comp(s[last], p)
    ensures RightPair(comp, s, begin, first, last, end, p)
  {
  }

  /** The loop body of partition_right: swaps the pair and scans on from both. */
  method NextPair<T(!new)>(a: array<T>, begin: nat, end: nat, first0: nat, last0: nat, pivot: T, comp: (T, T) -> bool)
    returns (first: nat, last: nat)
    requires end <= a.Length && first0 < last0 && RightPair(comp, a[..], begin, first0, last0, end, pivot)
    modifies a
    ensures first0 < first && last < last0 && RightPair(comp, a[..], begin, first, last, end, pivot)
    ensures Rearranged(old(a[..]), a[..], begin, end)
  {
    ghost var t := a[..];
    PairSwapped(comp, t, begin, first0, last0, end, pivot);
    hide AllLess, NoneLess, Rearranged, RightPair;
    Swap(a, first0, last0);
    first := ScanUp(a, first0, pivot, last0, comp);
    last := ScanDown(a, last0, pivot, first0, comp);
    ScansDone(comp, a[..], begin, first0, first, last, last0, end, pivot);
  }

  lemma PairsMet<T(!new)>(comp: (T, T) -> bool, s: seq<T>, begin: nat, first: nat, last: nat, end: nat, p: T)
    requires StrictWeak(comp) && RightPair(comp, s, begin, first, last, end, p) && first >= last
    ensures begin < first < end <= |s| && s[begin] == p
    ensures SplitRight(comp, Swapped(s, begin, first - 1), begin, first - 1, end)
    ensures Rearranged(s, Swapped(s, begin, first - 1), begin, end)
  {
    PivotPlaced(comp, s, begin, first, end);
  }

  /** partition_right */
  method PartitionRight<T(!new)>(a: array<T>, begin: nat, end: nat, comp: (T, T) -> bool)
    returns (pos: nat, already: bool)
    requires StrictWeak(comp) && begin < end <= a.Length && exists g :: begin < g < end && !comp(a[g], a[begin])
    modifies a
    ensures SplitRight(comp, a[..], begin, pos, end) && Rearranged(old(a[..]), a[..], begin, end)
    ensures already ==> a[..] == Swapped(old(a[..]), begin, pos)
    ensures already <==> PartitionedAt(comp, old(a[..]), begin, pos, end)
  {
    hide StrictWeak, RightPair, Rearranged, SplitRight, Swapped, PartitionedAt;
    ghost var s := a[..];
    var pivot := a[begin];
    var first, last := FirstPair(a, begin, end, pivot, comp);
    already := first >= last;
    ghost var first0, last0 := first, last;
    RearrangedSame(s, begin, end);
    while first < last
      invariant RightPair(comp, a[..], begin, first, last, end, pivot)
      invariant Rearranged(s, a[..], begin, end) && (already ==> first >= last && a[..] == s && first == first0)
      decreases last
    {
      ghost var t := a[..];
      first, last := NextPair(a, begin, end, first, last, pivot, comp);
      RearrangedTrans(s, t, a[..], begin, end);
    }
    PairsMet(comp, a[..], begin, first, last, end, pivot);
    pos := first - 1;
    MetAtOnce(comp, s, begin, first0, last0, end, pivot, pos);
    ghost var t := a[..];
    PlacePivot(a, begin, pos, pivot);
    RearrangedTrans(s, t, a[..], begin, end);
  }

  // ---- partition_left --------------------------------------------------------------------------------------

  ghost predicate AllLarger<T>(comp: (T, T) -> bool, s: seq<T>, lo: nat, hi: nat, p: T) {
    hi <= |s| && forall i :: lo <= i < hi ==> comp(p, s[i])
  }

  method ScanDownLarger<T>(a: array<T>, from: nat, pivot: T, ghost stop: nat, comp: (T, T) -> bool) returns (last: nat)
    requires stop < from <= a.Length && !comp(pivot, a[stop])
    ensures stop <= last < from && !comp(pivot, a[last]) && AllLarger(comp, a[..], last + 1, from, pivot)
  {
    last := from - 1;
    while comp(pivot, a[last])
      invariant stop <= last < from && AllLarger(comp, a[..], last + 1, from, pivot)
      decreases last
    {
      last := last - 1;
    }
  }

  method ScanUpNotLarger<T>(a: array<T>, from: nat, pivot: T, ghost stop: nat, comp: (T, T) -> bool)
    returns (first: nat)
    requires from < stop < a.Length && comp(pivot, a[stop])
    ensures from < first <= stop && comp(pivot, a[first]) && NoneLarger(comp, a[..], from + 1, first, pivot)
  {
    first := from + 1;
    while !comp(pivot, a[first])
      invariant from < first <= stop && NoneLarger(comp, a[..], from + 1, first, pivot)
      decreases stop - first
    {
      first := first + 1;
    }
  }

  ghost predicate LeftPair<T>(comp: (T, T) -> bool, s: seq<T>, begin: nat, first: nat, last: nat, end: nat, p: T) {
    begin <= first < end <= |s| && begin < last < end && s[begin] == p && !comp(p, s[last]) &&
    AllLarger(comp, s, last + 1, end, p) &&
    if first < last then begin < first && comp(p, s[first]) && NoneLarger(comp, s, begin + 1, first, p)
    else NoneLarger(comp, s, begin + 1, last + 1, p)
  }

  method FirstPairLeft<T(!new)>(a: array<T>, begin: nat, end: nat, pivot: T, comp: (T, T) -> bool)
    returns (first: nat, last: nat)
    requires begin < end <= a.Length && (exists g :: begin < g < end && !comp(pivot, a[g])) && a[begin] == pivot
    ensures LeftPair(comp, a[..], begin, first, last, end, pivot)
  {
    ghost var g :| begin < g < end && !comp(pivot, a[g]);
    last := ScanDownLarger(a, end, pivot, g, comp);
    first := begin;
    if last + 1 == end {
      while first < last
        invariant begin <= first <= last && NoneLarger(comp, a[..], begin + 1, first + 1, pivot)
      {
        first := first + 1;
        if comp(pivot, a[first]) {
          break;
        }
      }
    } else {
      first := ScanUpNotLarger(a, begin, pivot, last + 1, comp);
    }
  }

  lemma PairSwappedLeft<T(!new)>(comp: (T, T) -> bool, s: seq<T>, begin: nat, first: nat, last: nat, end: nat, p: T)
    requires begin < first < last < end <= |s| && !comp(p, s[last]) && comp(p, s[first])
    requires NoneLarger(comp, s, begin + 1, first, p) && AllLarger(comp, s, last + 1, end, p)
    ensures ghost var t := Swapped(s, first, last);
      NoneLarger(comp, t, begin + 1, first + 1, p) && AllLarger(comp, t, last, end, p) &&
        Rearranged(s, t, begin, end) &&
      t[begin] == s[begin]
  {
    SwappedRearranged(s, first, last, begin, end);
    hide Rearranged;
  }

  lemma PivotPlacedLeft<T(!new)>(comp: (T, T) -> bool, s: seq<T>, begin: nat, last: nat, end: nat)
    requires StrictWeak(comp) && begin < last < end <= |s|
    requires NoneLarger(comp, s, begin + 1, last + 1, s[begin]) && AllLarger(comp, s, last + 1, end, s[begin])
    ensures SplitLeft(comp, Swapped(s, begin, last), begin, last, end)
    ensures Rearranged(s, Swapped(s, begin, last), begin, end)
  {
    SwappedRearranged(s, begin, last, begin, end);
    hide StrictWeak, Rearranged;
  }

  lemma ScansDoneLeft<T>(comp: (T, T) -> bool, s: seq<T>, begin: nat, first0: nat, first: nat, last: nat, last0: nat,
                         end: nat, p: T)
    requires begin < first0 < first <= last0 < end <= |s| && first0 <= last < last0 && s[begin] == p
    requires NoneLarger(comp, s, begin + 1, first0 + 1, p) && NoneLarger(comp, s, first0 + 1, first, p) &&
      comp(p, s[first])
    requires AllLarger(comp, s, last0, end, p) && AllLarger(comp, s, last + 1, last0, p) && !comp(p, s[last])
    ensures LeftPair(comp, s, begin, first, last, end, p)
  {
  }

  method NextPairLeft<T(!new)>(a: array<T>, begin: nat, end: nat, first0: nat, last0: nat, pivot: T,
                               comp: (T, T) -> bool)
    returns (first: nat, last: nat)
    requires end <= a.Length && first0 < last0 && LeftPair(comp, a[..], begin, first0, last0, end, pivot)
    modifies a
    ensures first0 < first && last < last0 && LeftPair(comp, a[..], begin, first, last, end, pivot)
    ensures Rearranged(old(a[..]), a[..], begin, end)
  {
    ghost var t := a[..];
    PairSwappedLeft(comp, t, begin, first0, last0, end, pivot);
    hide NoneLarger, AllLarger, Rearranged, LeftPair;
    Swap(a, first0, last0);
    last := ScanDownLarger(a, last0, pivot, first0, comp);
    first := ScanUpNotLarger(a, first0, pivot, last0, comp);
    ScansDoneLeft(comp, a[..], begin, first0, first, last, last0, end, pivot);
  }

  lemma PairsMetLeft<T(!new)>(comp: (T, T) -> bool, s: seq<T>, begin: nat, first: nat, last: nat, end: nat, p: T)
    requires StrictWeak(comp) && LeftPair(comp, s, begin, first, last, end, p) && first >= last
    ensures begin < last < end <= |s| && s[begin] == p && SplitLeft(comp, Swapped(s, begin, last), begin, last, end)
    ensures Rearranged(s, Swapped(s, begin, last), begin, end)
  {
    PivotPlacedLeft(comp, s, begin, last, end);
  }

  /** partition_left */
  method PartitionLeft<T(!new)>(a: array<T>, begin: nat, end: nat, comp: (T, T) -> bool) returns (pos: nat)
    requires StrictWeak(comp) && begin < end <= a.Length && exists g :: begin < g < end && !comp(a[begin], a[g])
    modifies a
    ensures SplitLeft(comp, a[..], begin, pos, end) && Rearranged(old(a[..]), a[..], begin, end)
    ensures pos < a.Length && a[pos] == old(a[begin])
  {
    hide StrictWeak, LeftPair, Rearranged, SplitLeft, Swapped;
    ghost var s := a[..];
    var pivot := a[begin];
    var first, last := FirstPairLeft(a, begin, end, pivot, comp);
    RearrangedSame(s, begin, end);
    while first < last
      invariant LeftPair(comp, a[..], begin, first, last, end, pivot) && Rearranged(s, a[..], begin, end)
      decreases last
    {
      ghost var t := a[..];
      first, last := NextPairLeft(a, begin, end, first, last, pivot, comp);
      RearrangedTrans(s, t, a[..], begin, end);
    }
    PairsMetLeft(comp, a[..], begin, first, last, end, pivot);
    pos := last;
    ghost var t := a[..];
    PlacePivot(a, begin, pos, pivot);
    SwappedAt(t, begin, pos);
    RearrangedTrans(s, t, a[..], begin, end);
  }

  lemma SwappedAt<T>(s: seq<T>, i: nat, j: nat)
    requires i < |s| && j < |s|
    ensures Swapped(s, i, j)[j] == s[i] && |Swapped(s, i, j)| == |s|
  {
  }
}
