/** pdqsort: pattern-defeating quicksort over an array, with a strict weak order. */
module Pdqsort {
  import opened SortRanges
  import opened PdqInsertion
  import opened PdqPartition
  import opened PdqBlockPartition

  const INSERTION_SORT_THRESHOLD: nat := 24
  const NINTHER_THRESHOLD: nat := 128

  function Log2(n: nat): nat
    requires n > 0
  {
    if n == 1 then 0 else 1 + Log2(n / 2)
  }

  method SwapIn<T>(a: array<T>, i: nat, j: nat, ghost lo: nat, ghost hi: nat, ghost s: seq<T>)
    requires lo <= i < hi <= a.Length && lo <= j < hi && Rearranged(s, a[..], lo, hi)
    modifies a
    ensures a[..] == Swapped(old(a[..]), i, j) && Rearranged(s, a[..], lo, hi)
  {
    hide Rearranged;
    SwappedRearranged(a[..], i, j, lo, hi);
    RearrangedTrans(s, a[..], Swapped(a[..], i, j), lo, hi);
    Swap(a, i, j);
  }

  /** The median of three elements, or a median of medians of nine, goes to the first place. One element behind it is
      not smaller and one is not larger: these stop the scans of the partitions. */
  method ChoosePivot<T(!new)>(a: array<T>, begin: nat, end: nat, comp: (T, T) -> bool)
    returns (ghost g: nat, ghost h: nat)
    requires StrictWeak(comp) && begin + INSERTION_SORT_THRESHOLD <= end <= a.Length
    modifies a
    ensures Rearranged(old(a[..]), a[..], begin, end)
    ensures begin < g < end && !comp(a[g], a[begin]) && begin < h < end && !comp(a[begin], a[h])
  {
    hide StrictWeak, Rearranged;
    var size := end - begin;
    var s2 := size / 2;
    ghost var s := a[..];
    if size > NINTHER_THRESHOLD {
      Sort3(a, begin, begin + s2, end - 1, begin, end, comp);
      ghost var t := a[..];
      Sort3(a, begin + 1, begin + (s2 - 1), end - 2, begin, end, comp);
      RearrangedTrans(s, t, a[..], begin, end);
      t := a[..];
      Sort3(a, begin + 2, begin + (s2 + 1), end - 3, begin, end, comp);
      RearrangedTrans(s, t, a[..], begin, end);
      t := a[..];
      Sort3(a, begin + (s2 - 1), begin + s2, begin + (s2 + 1), begin, end, comp);
      RearrangedTrans(s, t, a[..], begin, end);
      SwapIn(a, begin, begin + s2, begin, end, s);
      g, h := begin + (s2 + 1), begin + (s2 - 1);
    } else {
      Sort3(a, begin + s2, begin, end - 1, begin, end, comp);
      g, h := end - 1, begin + s2;
    }
  }

  /** Swaps some elements of the left part of a highly unbalanced partition. */
  method ShuffleLeft<T>(a: array<T>, begin: nat, pos: nat)
    requires begin <= pos <= a.Length
    modifies a
    ensures Rearranged(old(a[..]), a[..], begin, pos)
  {
    hide Rearranged, Swapped;
    ghost var s := a[..];
    RearrangedSame(s, begin, pos);
    var size := pos - begin;
    if size >= INSERTION_SORT_THRESHOLD {
      SwapIn(a, begin, begin + size / 4, begin, pos, s);
      SwapIn(a, pos - 1, pos - size / 4, begin, pos, s);
      if size > NINTHER_THRESHOLD {
        SwapIn(a, begin + 1, begin + (size / 4 + 1), begin, pos, s);
        SwapIn(a, begin + 2, begin + (size / 4 + 2), begin, pos, s);
        SwapIn(a, pos - 2, pos - (size / 4 + 1), begin, pos, s);
        SwapIn(a, pos - 3, pos - (size / 4 + 2), begin, pos, s);
      }
    }
  }

  /** The same for the right part. */
  method ShuffleRight<T>(a: array<T>, pos: nat, end: nat)
    requires pos < end <= a.Length
    modifies a
    ensures Rearranged(old(a[..]), a[..], pos + 1, end)
  {
    hide Rearranged, Swapped;
    ghost var s, lo := a[..], pos + 1;
    RearrangedSame(s, lo, end);
    var size := end - (pos + 1);
    if size >= INSERTION_SORT_THRESHOLD {
      SwapIn(a, pos + 1, pos + (1 + size / 4), lo, end, s);
      SwapIn(a, end - 1, end - size / 4, lo, end, s);
      if size > NINTHER_THRESHOLD {
        SwapIn(a, pos + 2, pos + (2 + size / 4), lo, end, s);
        SwapIn(a, pos + 3, pos + (3 + size / 4), lo, end, s);
        SwapIn(a, end - 2, end - (1 + size / 4), lo, end, s);
        SwapIn(a, end - 3, end - (2 + size / 4), lo, end, s);
      }
    }
  }

  // ---- what is sorted so far -------------------------------------------------------------------------------

  /** The elements before begin are sorted, and none of those from begin on is smaller than any of them. */
  ghost predicate Done<T>(comp: (T, T) -> bool, s: seq<T>, begin0: nat, begin: nat, end: nat) {
    begin0 <= begin <= end <= |s| && Sorted(comp, s, begin0, begin) &&
    forall i :: begin0 <= i < begin ==> NoneLess(comp, s, begin, end, s[i])
  }

  lemma DoneRearranged<T(!new)>(comp: (T, T) -> bool, s: seq<T>, t: seq<T>, begin0: nat, begin: nat, end: nat)
    requires Done(comp, s, begin0, begin, end) && Rearranged(s, t, begin, end)
    ensures Done(comp, t, begin0, begin, end)
  {
    forall i | begin0 <= i < begin ensures NoneLess(comp, t, begin, end, t[i]) {
      BoundsKept(comp, s, t, begin, end, begin, end, s[i]);
    }
    hide NoneLess;
  }

  lemma DoneSorted<T(!new)>(comp: (T, T) -> bool, s: seq<T>, begin0: nat, begin: nat, end: nat)
    requires Done(comp, s, begin0, begin, end) && Sorted(comp, s, begin, end)
    ensures Sorted(comp, s, begin0, end)
  {
    forall i, j | begin0 <= i < j < end ensures !comp(s[j], s[i]) {
      if i < begin <= j {
        assert NoneLess(comp, s, begin, end, s[i]);
      }
    }
  }

  /** With the left part sorted, everything up to the pivot is done. */
  lemma DoneRight<T(!new)>(comp: (T, T) -> bool, s: seq<T>, begin0: nat, begin: nat, pos: nat, end: nat)
    requires StrictWeak(comp) && Done(comp, s, begin0, begin, end) && SplitRight(comp, s, begin, pos, end)
    requires Sorted(comp, s, begin, pos)
    ensures Done(comp, s, begin0, pos + 1, end) && NoneLess(comp, s, pos + 1, end, s[pos])
  {
    hide StrictWeak;
    forall i, j | begin0 <= i < j < pos + 1 ensures !comp(s[j], s[i]) {
      if i < begin <= j {
        assert NoneLess(comp, s, begin, end, s[i]);
      } else if begin <= i && j == pos {
        Asymmetric(comp, s[i], s[pos]);
      }
    }
    forall i, j | begin0 <= i < pos + 1 && pos + 1 <= j < end ensures !comp(s[j], s[i]) {
      if i < begin {
        assert NoneLess(comp, s, begin, end, s[i]);
      } else if i < pos {
        Asymmetric(comp, s[i], s[pos]);
        NotLessTrans(comp, s[i], s[pos], s[j]);
      }
    }
  }

  /** If no element is smaller than p and the pivot is not larger than p, all left of the pivot are equal. */
  lemma DoneLeft<T(!new)>(comp: (T, T) -> bool, s: seq<T>, begin0: nat, begin: nat, pos: nat, end: nat, p: T)
    requires StrictWeak(comp) && Done(comp, s, begin0, begin, end) && SplitLeft(comp, s, begin, pos, end)
    requires NoneLess(comp, s, begin, end, p) && !comp(p, s[pos])
    ensures Done(comp, s, begin0, pos + 1, end) && NoneLess(comp, s, pos + 1, end, s[pos])
  {
    hide StrictWeak;
    forall i, j | begin <= i <= pos && begin <= j < end ensures !comp(s[j], s[i]) {
      Irreflexive(comp, s[pos]);
      NotLessTrans(comp, s[i], s[pos], p);
      NotLessTrans(comp, s[i], p, s[j]);
    }
    forall i, j | begin0 <= i < begin && begin <= j < end ensures !comp(s[j], s[i]) {
      assert NoneLess(comp, s, begin, end, s[i]);
    }
  }

  /** Rearranging either part of a partition keeps it. */
  lemma SplitKept<T(!new)>(comp: (T, T) -> bool, s: seq<T>, t: seq<T>, begin: nat, pos: nat, end: nat)
    requires SplitRight(comp, s, begin, pos, end) && (Rearranged(s, t, begin, pos) || Rearranged(s, t, pos + 1, end))
    ensures SplitRight(comp, t, begin, pos, end) && Rearranged(s, t, begin, end)
  {
    if Rearranged(s, t, begin, pos) {
      BoundsKept(comp, s, t, begin, pos, begin, pos, s[pos]);
    } else {
      BoundsKept(comp, s, t, pos + 1, end, pos + 1, end, s[pos]);
    }
  }

  lemma SortedKept<T>(comp: (T, T) -> bool, s: seq<T>, t: seq<T>, begin: nat, pos: nat, end: nat)
    requires Sorted(comp, s, begin, pos) && Rearranged(s, t, pos + 1, end)
    ensures Sorted(comp, t, begin, pos)
  {
  }

  lemma SplitShape<T>(comp: (T, T) -> bool, s: seq<T>, begin: nat, pos: nat, end: nat)
    requires SplitRight(comp, s, begin, pos, end)
    ensures begin <= pos < end <= |s|
  {
  }

  /** A lower bound for all elements of a range, as the place before it. */
  lemma FenceKept<T(!new)>(comp: (T, T) -> bool, s: seq<T>, t: seq<T>, begin: nat, end: nat, end': nat)
    requires Rearranged(s, t, begin, end) && begin > 0 && NoneLess(comp, s, begin, end, s[begin - 1]) && end' <= end
    ensures |t| == |s| && t[begin - 1] == s[begin - 1] && NoneLess(comp, t, begin, end', t[begin - 1])
    ensures NoneLess(comp, t, begin, end, t[begin - 1])
  {
    BoundsKept(comp, s, t, begin, end, begin, end, s[begin - 1]);
  }

  // ---- the loop --------------------------------------------------------------------------------------------

  /** make_heap and sort_heap by their contract. */
  method HeapSort<T(!new)>(a: array<T>, begin: nat, end: nat, comp: (T, T) -> bool)
    requires StrictWeak(comp) && begin <= end <= a.Length
    modifies a
    ensures Sorted(comp, a[..], begin, end) && Rearranged(old(a[..]), a[..], begin, end)
  {
    InsertionSort(a, begin, end, true, comp);
  }

  /** Both partial insertion sorts after a balanced partition of a range that was partitioned already. */
  method TryFinish<T(!new)>(a: array<T>, begin: nat, pos: nat, end: nat, comp: (T, T) -> bool) returns (ok: bool)
    requires StrictWeak(comp) && end <= a.Length && SplitRight(comp, a[..], begin, pos, end)
    modifies a
    ensures SplitRight(comp, a[..], begin, pos, end) && Rearranged(old(a[..]), a[..], begin, end)
    ensures ok ==> Sorted(comp, a[..], begin, pos) && Sorted(comp, a[..], pos + 1, end)
  {
    hide StrictWeak, SplitRight, Rearranged, Sorted;
    ghost var s := a[..];
    SplitShape(comp, s, begin, pos, end);
    ok := PartialInsertionSort(a, begin, pos, comp);
    ghost var t := a[..];
    SplitKept(comp, s, t, begin, pos, end);
    if ok {
      ok := PartialInsertionSort(a, pos + 1, end, comp);
      SplitKept(comp, t, a[..], begin, pos, end);
      RearrangedTrans(s, t, a[..], begin, end);
      SortedKept(comp, t, a[..], begin, pos, end);
    }
  }

  method Shuffle<T(!new)>(a: array<T>, begin: nat, pos: nat, end: nat, comp: (T, T) -> bool)
    requires StrictWeak(comp) && end <= a.Length && SplitRight(comp, a[..], begin, pos, end)
    modifies a
    ensures SplitRight(comp, a[..], begin, pos, end) && Rearranged(old(a[..]), a[..], begin, end)
  {
    hide StrictWeak, SplitRight, Rearranged;
    ghost var s := a[..];
    SplitShape(comp, s, begin, pos, end);
    ShuffleLeft(a, begin, pos);
    ghost var t := a[..];
    SplitKept(comp, s, t, begin, pos, end);
    ShuffleRight(a, pos, end);
    SplitKept(comp, t, a[..], begin, pos, end);
    RearrangedTrans(s, t, a[..], begin, end);
  }

  /** pdqsort_loop: sorts the range. Unless it is the leftmost one, no element is smaller than the one before it. */
  method PdqsortLoop<T(!new)>(a: array<T>, begin0: nat, end: nat, comp: (T, T) -> bool, badAllowed0: int,
                              leftmost0: bool, branchless: bool)
    requires StrictWeak(comp) && begin0 <= end <= a.Length
    requires leftmost0 || (begin0 > 0 && NoneLess(comp, a[..], begin0, end, a[begin0 - 1]))
    modifies a
    ensures Sorted(comp, a[..], begin0, end) && Rearranged(old(a[..]), a[..], begin0, end)
    decreases end - begin0
  {
    hide StrictWeak, Sorted, NoneLess, Rearranged, Done, SplitRight, SplitLeft, Swapped;
    ghost var s := a[..];
    RearrangedSame(s, begin0, end);
    DoneStart(comp, s, begin0, end);
    var begin, badAllowed, leftmost := begin0, badAllowed0, leftmost0;
    while true
      invariant begin0 <= begin <= end && Done(comp, a[..], begin0, begin, end) && Rearranged(s, a[..], begin0, end)
      invariant leftmost || (begin > 0 && NoneLess(comp, a[..], begin, end, a[begin - 1]))
      decreases end - begin
    {
      var size := end - begin;
      ghost var t := a[..];
      if size < INSERTION_SORT_THRESHOLD {
        InsertionSort(a, begin, end, leftmost, comp);
        RangeSorted(comp, s, t, a[..], begin0, begin, end);
        return;
      }
      ghost var g, h := ChoosePivot(a, begin, end, comp);
      StepKept(comp, s, t, a[..], begin0, begin, end);
      if !leftmost {
        FenceKept(comp, t, a[..], begin, end, end);
        if !comp(a[begin - 1], a[begin]) {
          ghost var p, u := a[begin - 1], a[..];
          var pos := PartitionLeft(a, begin, end, comp);
          FenceKept(comp, u, a[..], begin, end, end);
          StepKept(comp, s, u, a[..], begin0, begin, end);
          SplitLeftShape(comp, a[..], begin, pos, end);
          DoneLeft(comp, a[..], begin0, begin, pos, end, p);
          begin := pos + 1;
          continue;
        }
      }
      var finished;
      begin, badAllowed, finished := SortStep(a, begin0, begin, end, comp, badAllowed, leftmost, branchless, s);
      if finished {
        return;
      }
      leftmost := false;
    }
  }

  /** The rest of one turn of the loop: partition around the pivot, sort the left part. */
  method SortStep<T(!new)>(a: array<T>, ghost begin0: nat, begin: nat, end: nat, comp: (T, T) -> bool, badAllowed0: int,
                           leftmost: bool, branchless: bool, ghost s: seq<T>)
    returns (begin': nat, badAllowed: int, finished: bool)
    requires StrictWeak(comp) && begin < end <= a.Length && Done(comp, a[..], begin0, begin, end)
    requires Rearranged(s, a[..], begin0, end) && exists g :: begin < g < end && !comp(a[g], a[begin])
    requires leftmost || (begin > 0 && NoneLess(comp, a[..], begin, end, a[begin - 1]))
    requires begin0 <= begin
    modifies a
    ensures Rearranged(s, a[..], begin0, end)
    ensures finished ==> Sorted(comp, a[..], begin0, end)
    ensures !finished ==> begin < begin' <= end && Done(comp, a[..], begin0, begin', end) &&
                          NoneLess(comp, a[..], begin', end, a[begin' - 1])
    decreases end - begin, 0
  {
    hide StrictWeak, Sorted, NoneLess, Rearranged, Done, SplitRight, Swapped;
    var size := end - begin;
    badAllowed := badAllowed0;
    ghost var t := a[..];
    var pos, already;
    if branchless {
      pos, already := PartitionRightBranchless(a, begin, end, comp);
    } else {
      pos, already := PartitionRight(a, begin, end, comp);
    }
    SplitShape(comp, a[..], begin, pos, end);
    var lSize, rSize := pos - begin, end - (pos + 1);
    ghost var u := a[..];
    if lSize < size / 8 || rSize < size / 8 {
      badAllowed := badAllowed - 1;
      if badAllowed == 0 {
        HeapSort(a, begin, end, comp);
        RearrangedTrans(t, u, a[..], begin, end);
        RangeSorted(comp, s, t, a[..], begin0, begin, end);
        return begin, badAllowed, true;
      }
      Shuffle(a, begin, pos, end, comp);
      RearrangedTrans(t, u, a[..], begin, end);
    } else if already {
      finished := TryFinish(a, begin, pos, end, comp);
      RearrangedTrans(t, u, a[..], begin, end);
      if finished {
        StepKept(comp, s, t, a[..], begin0, begin, end);
        DoneRight(comp, a[..], begin0, begin, pos, end);
        DoneSorted(comp, a[..], begin0, pos + 1, end);
        return begin, badAllowed, true;
      }
    }
    ghost var v := a[..];
    if !leftmost {
      FenceKept(comp, t, v, begin, end, pos);
    }
    PdqsortLoop(a, begin, pos, comp, badAllowed, leftmost, branchless);
    SplitKept(comp, v, a[..], begin, pos, end);
    RearrangedTrans(t, v, a[..], begin, end);
    StepKept(comp, s, t, a[..], begin0, begin, end);
    DoneRight(comp, a[..], begin0, begin, pos, end);
    begin', finished := pos + 1, false;
  }

  lemma DoneStart<T>(comp: (T, T) -> bool, s: seq<T>, begin: nat, end: nat)
    requires begin <= end <= |s|
    ensures Done(comp, s, begin, begin, end)
  {
  }

  lemma StepKept<T(!new)>(comp: (T, T) -> bool, s: seq<T>, t: seq<T>, u: seq<T>, begin0: nat, begin: nat, end: nat)
    requires Done(comp, t, begin0, begin, end) && Rearranged(s, t, begin0, end) && Rearranged(t, u, begin, end)
    requires begin0 <= begin
    ensures Done(comp, u, begin0, begin, end) && Rearranged(s, u, begin0, end)
  {
    hide Done;
    DoneRearranged(comp, t, u, begin0, begin, end);
    RearrangedWider(t, u, begin, end, begin0, end);
    RearrangedTrans(s, t, u, begin0, end);
  }

  lemma RangeSorted<T(!new)>(comp: (T, T) -> bool, s: seq<T>, t: seq<T>, u: seq<T>, begin0: nat, begin: nat, end: nat)
    requires Done(comp, t, begin0, begin, end) && Rearranged(s, t, begin0, end) && Rearranged(t, u, begin, end)
    requires begin0 <= begin && Sorted(comp, u, begin, end)
    ensures Sorted(comp, u, begin0, end) && Rearranged(s, u, begin0, end)
  {
    hide Done, Sorted;
    StepKept(comp, s, t, u, begin0, begin, end);
    DoneSorted(comp, u, begin0, begin, end);
  }

  lemma SplitLeftShape<T>(comp: (T, T) -> bool, s: seq<T>, begin: nat, pos: nat, end: nat)
    requires SplitLeft(comp, s, begin, pos, end)
    ensures begin <= pos < end <= |s|
  {
  }

  /** pdqsort: for every strict weak order the range ends up sorted, with the same elements, all others untouched. */
  method Sort<T(!new)>(a: array<T>, begin: nat, end: nat, comp: (T, T) -> bool, branchless: bool)
    requires StrictWeak(comp) && begin <= end <= a.Length
    modifies a
    ensures Sorted(comp, a[..], begin, end) && Rearranged(old(a[..]), a[..], begin, end)
  {
    if begin == end {
      return;
    }
    PdqsortLoop(a, begin, end, comp, Log2(end - begin), true, branchless);
  }
}
