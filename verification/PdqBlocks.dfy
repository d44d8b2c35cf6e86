/** pdqsort's branchless partition: two buffers collect the offsets of elements on the wrong side, and equally many
    of each are exchanged at a time. */
module PdqBlocks {
  import opened Counting
  import opened SortRanges
  import opened PdqInsertion

  const BLOCK_SIZE: nat := 64

  ghost predicate Increasing(offsets: seq<nat>) {
    forall i, j :: 0 <= i < j < |offsets| ==> offsets[i] < offsets[j]
  }

  /** Of the elements from base to first exactly those at the offsets are not smaller than the pivot p. */
  ghost predicate LeftBlock<T>(comp: (T, T) -> bool, s: seq<T>, base: nat, first: nat, offsets: seq<nat>, p: T) {
    base <= first <= |s| && Increasing(offsets) &&
    (forall k :: 0 <= k < |offsets| ==> offsets[k] < first - base && !comp(s[base + offsets[k]], p)) &&
    (forall i :: base <= i < first && i - base !in offsets ==> comp(s[i], p))
  }

  /** Of the elements from last to base exactly those at the offsets, counted down, are smaller than the pivot p. */
  ghost predicate RightBlock<T>(comp: (T, T) -> bool, s: seq<T>, last: nat, base: nat, offsets: seq<nat>, p: T) {
    last <= base <= |s| && Increasing(offsets) &&
    (forall k :: 0 <= k < |offsets| ==> 1 <= offsets[k] <= base - last && comp(s[base - offsets[k]], p)) &&
    (forall i :: last <= i < base && base - i !in offsets ==> !comp(s[i], p))
  }

  // ---- filling ---------------------------------------------------------------------------------------------

  lemma LeftMore<T>(comp: (T, T) -> bool, s: seq<T>, base: nat, first: nat, offsets: seq<nat>, p: T)
    requires LeftBlock(comp, s, base, first, offsets, p) && first < |s|
    ensures comp(s[first], p) ==> LeftBlock(comp, s, base, first + 1, offsets, p)
    ensures !comp(s[first], p) ==> LeftBlock(comp, s, base, first + 1, offsets + [first - base], p)
  {
    var more := offsets + [first - base];
    if !comp(s[first], p) {
      forall i | base <= i < first + 1 && i - base !in more ensures comp(s[i], p) {
        assert forall k :: 0 <= k < |offsets| ==> more[k] == offsets[k];
        assert more[|offsets|] == first - base;
      }
    }
  }

  lemma RightMore<T>(comp: (T, T) -> bool, s: seq<T>, last: nat, base: nat, offsets: seq<nat>, p: T)
    requires RightBlock(comp, s, last, base, offsets, p) && last > 0
    ensures !comp(s[last - 1], p) ==> RightBlock(comp, s, last - 1, base, offsets, p)
    ensures comp(s[last - 1], p) ==> RightBlock(comp, s, last - 1, base, offsets + [base - last + 1], p)
  {
    var more := offsets + [base - last + 1];
    if comp(s[last - 1], p) {
      forall i | last - 1 <= i < base && base - i !in more ensures !comp(s[i], p) {
        assert forall k :: 0 <= k < |offsets| ==> more[k] == offsets[k];
        assert more[|offsets|] == base - last + 1;
      }
    }
  }

  /** Looks at count elements from first on: every offset is written, and kept by advancing over it if its element
      is on the wrong side. */
  method FillLeft<T>(a: array<T>, first: nat, count: nat, offsets: array<nat>, pivot: T, comp: (T, T) -> bool)
    returns (num: nat)
    requires a as object != offsets && first + count <= a.Length && count <= offsets.Length
    modifies offsets
    ensures num <= count && LeftBlock(comp, a[..], first, first + count, offsets[..num], pivot)
  {
    hide LeftBlock;
    num := 0;
    LeftEmpty(comp, a[..], first, pivot);
    for i := 0 to count
      invariant num <= i && LeftBlock(comp, a[..], first, first + i, offsets[..num], pivot)
      invariant a[..] == old(a[..])
    {
      LeftMore(comp, a[..], first, first + i, offsets[..num], pivot);
      ghost var before := offsets[..num];
      offsets[num] := i;
      assert offsets[..num] == before && offsets[..num + 1] == before + [i];
      num := num + if comp(a[first + i], pivot) then 0 else 1;
    }
  }

  method FillRight<T>(a: array<T>, last: nat, count: nat, offsets: array<nat>, pivot: T, comp: (T, T) -> bool)
    returns (num: nat)
    requires a as object != offsets && count <= last <= a.Length && count <= offsets.Length
    modifies offsets
    ensures num <= count && RightBlock(comp, a[..], last - count, last, offsets[..num], pivot)
  {
    hide RightBlock;
    num := 0;
    RightEmpty(comp, a[..], last, pivot);
    for i := 0 to count
      invariant num <= i && RightBlock(comp, a[..], last - i, last, offsets[..num], pivot)
      invariant a[..] == old(a[..])
    {
      RightMore(comp, a[..], last - i, last, offsets[..num], pivot);
      ghost var before := offsets[..num];
      offsets[num] := i + 1;
      assert offsets[..num] == before && offsets[..num + 1] == before + [i + 1];
      num := num + if comp(a[last - i - 1], pivot) then 1 else 0;
    }
  }

  lemma LeftEmpty<T>(comp: (T, T) -> bool, s: seq<T>, base: nat, p: T)
    requires base <= |s|
    ensures LeftBlock(comp, s, base, base, [], p)
  {
  }

  lemma RightEmpty<T>(comp: (T, T) -> bool, s: seq<T>, base: nat, p: T)
    requires base <= |s|
    ensures RightBlock(comp, s, base, base, [], p)
  {
  }

  // ---- swap_offsets ----------------------------------------------------------------------------------------

  /** The places on the left side and those on the right side of mid, equally many of each. */
  ghost predicate Apart(n: nat, xs: seq<nat>, ys: seq<nat>, mid: nat) {
    mid <= n && |xs| == |ys| && Distinct(xs) && Distinct(ys) &&
    forall k :: 0 <= k < |xs| ==> xs[k] < mid <= ys[k] < n
  }

  /** Outside the first i pairs of places t is s. */
  ghost predicate SameElsewhere<T>(s: seq<T>, t: seq<T>, xs: seq<nat>, ys: seq<nat>, i: nat)
    requires i <= |xs| == |ys|
  {
    |t| == |s| && forall m :: 0 <= m < |s| && m !in xs[..i] && m !in ys[..i] ==> t[m] == s[m]
  }

  /** The first i pairs have changed places. */
  ghost predicate PairsSwapped<T>(s: seq<T>, t: seq<T>, xs: seq<nat>, ys: seq<nat>, mid: nat, i: nat) {
    Apart(|s|, xs, ys, mid) && i <= |xs| && SameElsewhere(s, t, xs, ys, i) &&
    forall k :: 0 <= k < i ==> t[xs[k]] == s[ys[k]] && t[ys[k]] == s[xs[k]]
  }

  /** The left places have got the right elements, the right places but the last of them the next left element, and
      that one the first left element. */
  ghost predicate CycleMoved<T>(s: seq<T>, t: seq<T>, xs: seq<nat>, ys: seq<nat>, mid: nat, i: nat) {
    Apart(|s|, xs, ys, mid) && 0 < i <= |xs| && SameElsewhere(s, t, xs, ys, i) && CycleOrder(s, t, xs, ys, i)
  }

  ghost predicate CycleOrder<T>(s: seq<T>, t: seq<T>, xs: seq<nat>, ys: seq<nat>, i: nat)
    requires 0 < i <= |xs| == |ys| && |t| == |s| && forall k :: 0 <= k < |xs| ==> xs[k] < |s| && ys[k] < |s|
  {
    (forall k :: 0 <= k < i ==> t[xs[k]] == s[ys[k]]) &&
    (forall k {:trigger xs[k]} :: 0 < k < i ==> t[ys[k - 1]] == s[xs[k]]) && t[ys[i - 1]] == s[xs[0]]
  }

  lemma CycleOrderStep<T>(s: seq<T>, t: seq<T>, u: seq<T>, xs: seq<nat>, ys: seq<nat>, mid: nat, i: nat)
    requires Apart(|s|, xs, ys, mid) && 0 < i < |xs| && |t| == |s| == |u| && CycleOrder(s, t, xs, ys, i)
    requires t[xs[i]] == s[xs[i]] && t[ys[i]] == s[ys[i]]
    requires u[ys[i - 1]] == t[xs[i]] && u[xs[i]] == t[ys[i]] && u[ys[i]] == t[ys[i - 1]]
    requires forall m :: 0 <= m < |t| && m != ys[i - 1] && m != xs[i] && m != ys[i] ==> u[m] == t[m]
    ensures CycleOrder(s, u, xs, ys, i + 1)
  {
    forall k | 0 < k < i + 1 ensures u[ys[k - 1]] == s[xs[k]] {
      if k < i {
        assert ys[k - 1] != ys[i - 1] && ys[k - 1] != ys[i] && ys[k - 1] >= mid > xs[i];
      }
    }
  }

  lemma PlacesAt(n: nat, xs: seq<nat>, ys: seq<nat>, mid: nat, i: nat)
    requires Apart(n, xs, ys, mid) && i < |xs|
    ensures |ys| == |xs| && xs[i] < mid <= ys[i] < n && (i > 0 ==> ys[i - 1] != ys[i])
    ensures xs[i] !in xs[..i] && xs[i] !in ys[..i] && ys[i] !in xs[..i] && ys[i] !in ys[..i]
    ensures xs[..i + 1] == xs[..i] + [xs[i]] && ys[..i + 1] == ys[..i] + [ys[i]]
  {
  }

  lemma MoreElsewhere<T>(s: seq<T>, t: seq<T>, u: seq<T>, xs: seq<nat>, ys: seq<nat>, mid: nat, i: nat)
    requires Apart(|s|, xs, ys, mid) && i < |xs| && SameElsewhere(s, t, xs, ys, i) && |u| == |t|
    requires forall m :: 0 <= m < |t| && m != xs[i] && m != ys[i] && (i > 0 ==> m != ys[i - 1]) ==> u[m] == t[m]
    ensures SameElsewhere(s, u, xs, ys, i + 1)
  {
    PlacesAt(|s|, xs, ys, mid, i);
    assert i > 0 ==> ys[i - 1] in ys[..i];
  }

  lemma PairStep<T>(s: seq<T>, t: seq<T>, xs: seq<nat>, ys: seq<nat>, mid: nat, i: nat)
    requires PairsSwapped(s, t, xs, ys, mid, i) && i < |xs|
    ensures xs[i] < mid <= ys[i] < |t| == |s|
    ensures PairsSwapped(s, Swapped(t, xs[i], ys[i]), xs, ys, mid, i + 1)
  {
    var u := Swapped(t, xs[i], ys[i]);
    PlacesAt(|s|, xs, ys, mid, i);
    assert t[xs[i]] == s[xs[i]] && t[ys[i]] == s[ys[i]];
    MoreElsewhere(s, t, u, xs, ys, mid, i);
    hide SameElsewhere;
  }

  /** One step of the cycle: the hole moves from the last right place over the next left place to the next right
      place. */
  function Cycled<T>(t: seq<T>, hole: nat, x: nat, y: nat): (u: seq<T>)
    requires hole < |t| && x < |t| && y < |t|
  {
    t[hole := t[x]][x := t[y]][y := t[hole]]
  }

  lemma CycledRearranged<T>(t: seq<T>, hole: nat, x: nat, y: nat, lo: nat, hi: nat)
    requires lo <= hole < hi <= |t| && lo <= x < hi && lo <= y < hi && hole != x && hole != y && x != y
    ensures Rearranged(t, Cycled(t, hole, x, y), lo, hi)
  {
  }

  lemma CycledAt<T>(t: seq<T>, hole: nat, x: nat, y: nat)
    requires hole < |t| && x < |t| && y < |t| && hole != x && hole != y && x != y
    ensures ghost var u := Cycled(t, hole, x, y);
      |u| == |t| && u[hole] == t[x] && u[x] == t[y] && u[y] == t[hole] &&
      forall m :: 0 <= m < |t| && m != hole && m != x && m != y ==> u[m] == t[m]
  {
  }

  lemma CycleStep<T>(s: seq<T>, t: seq<T>, xs: seq<nat>, ys: seq<nat>, mid: nat, i: nat)
    requires CycleMoved(s, t, xs, ys, mid, i) && i < |xs|
    ensures xs[i] < mid <= ys[i] < |t| == |s| && mid <= ys[i - 1] < |t| && ys[i - 1] != ys[i]
    ensures CycleMoved(s, Cycled(t, ys[i - 1], xs[i], ys[i]), xs, ys, mid, i + 1)
  {
    hide Cycled, CycleOrder;
    var u := Cycled(t, ys[i - 1], xs[i], ys[i]);
    PlacesAt(|s|, xs, ys, mid, i);
    PlacesAt(|s|, xs, ys, mid, i - 1);
    CycledAt(t, ys[i - 1], xs[i], ys[i]);
    assert t[xs[i]] == s[xs[i]] && t[ys[i]] == s[ys[i]];
    MoreElsewhere(s, t, u, xs, ys, mid, i);
    CycleOrderStep(s, t, u, xs, ys, mid, i);
    hide SameElsewhere, CycleOrder;
  }

  lemma SwapStart<T>(s: seq<T>, xs: seq<nat>, ys: seq<nat>, mid: nat)
    requires Apart(|s|, xs, ys, mid)
    ensures PairsSwapped(s, s, xs, ys, mid, 0)
  {
  }

  lemma CycleStart<T>(s: seq<T>, xs: seq<nat>, ys: seq<nat>, mid: nat)
    requires Apart(|s|, xs, ys, mid) && xs != []
    ensures |xs| == |ys| && xs[0] < mid <= ys[0] < |s|
    ensures CycleMoved(s, Swapped(s, xs[0], ys[0]), xs, ys, mid, 1)
  {
    SwapStart(s, xs, ys, mid);
    PairStep(s, s, xs, ys, mid, 0);
  }

  /** swap_offsets exchanges the elements at the places, pair by pair or in one cycle. */
  ghost predicate Exchanged<T>(s: seq<T>, t: seq<T>, xs: seq<nat>, ys: seq<nat>, mid: nat, useSwaps: bool) {
    if useSwaps then PairsSwapped(s, t, xs, ys, mid, |xs|)
    else if xs == [] then s == t
    else CycleMoved(s, t, xs, ys, mid, |xs|)
  }

  /** The places that the offsets from start on stand for. */
  ghost predicate PlacesOf(bl: nat, br: nat, offsetsL: seq<nat>, startL: nat, offsetsR: seq<nat>, startR: nat,
                           xs: seq<nat>, ys: seq<nat>)
  {
    startL + |xs| <= |offsetsL| && startR + |ys| <= |offsetsR| && |xs| == |ys| &&
    (forall k :: 0 <= k < |xs| ==> xs[k] == bl + offsetsL[startL + k]) &&
    (forall k :: 0 <= k < |ys| ==> ys[k] == br - offsetsR[startR + k] && ys[k] < br)
  }

  lemma PlaceOf(bl: nat, br: nat, offsetsL: seq<nat>, startL: nat, offsetsR: seq<nat>, startR: nat,
                xs: seq<nat>, ys: seq<nat>, i: nat)
    requires PlacesOf(bl, br, offsetsL, startL, offsetsR, startR, xs, ys) && i < |xs|
    ensures startL + i < |offsetsL| && startR + i < |offsetsR| && |xs| == |ys|
    ensures xs[i] == bl + offsetsL[startL + i] && ys[i] == br - offsetsR[startR + i] && ys[i] < br
  {
  }

  method SwapPairs<T>(a: array<T>, bl: nat, br: nat, offsetsL: array<nat>, startL: nat, offsetsR: array<nat>,
                      startR: nat, num: nat, ghost xs: seq<nat>, ghost ys: seq<nat>, ghost mid: nat)
    requires a as object != offsetsL && a as object != offsetsR && bl <= br <= a.Length && num == |xs|
    requires PlacesOf(bl, br, offsetsL[..], startL, offsetsR[..], startR, xs, ys) && Apart(a.Length, xs, ys, mid)
    modifies a
    ensures PairsSwapped(old(a[..]), a[..], xs, ys, mid, num) && Rearranged(old(a[..]), a[..], bl, br)
  {
    hide Apart, PairsSwapped, Rearranged, PlacesOf, Swapped;
    ghost var s := a[..];
    RearrangedSame(s, bl, br);
    SwapStart(s, xs, ys, mid);
    for i := 0 to num
      invariant PairsSwapped(s, a[..], xs, ys, mid, i) && Rearranged(s, a[..], bl, br)
    {
      ghost var t := a[..];
      PlaceOf(bl, br, offsetsL[..], startL, offsetsR[..], startR, xs, ys, i);
      PairStep(s, t, xs, ys, mid, i);
      SwappedRearranged(t, xs[i], ys[i], bl, br);
      RearrangedTrans(s, t, Swapped(t, xs[i], ys[i]), bl, br);
      Swap(a, bl + offsetsL[startL + i], br - offsetsR[startR + i]);
    }
  }

  /** The first left element is kept aside and its place takes the first right one, whose place is the hole. */
  method OpenHole<T>(a: array<T>, left: nat, right: nat) returns (tmp: T)
    requires left < a.Length && right < a.Length && left != right
    modifies a
    ensures a[..][right := tmp] == Swapped(old(a[..]), left, right)
  {
    tmp := a[left];
    a[left] := a[right];
  }

  /** The hole takes the next left element, whose place takes the next right one. */
  method MoveHole<T>(a: array<T>, hole: nat, left: nat, right: nat, tmp: T)
    requires hole < a.Length && left < a.Length && right < a.Length && hole != left && left != right && hole != right
    modifies a
    ensures a[..][right := tmp] == Cycled(old(a[..][hole := tmp]), hole, left, right)
  {
    ghost var t := a[..];
    a[hole] := a[left];
    a[left] := a[right];
    assert a[..] == t[hole := t[left]][left := t[right]];
    CycledHole(t, hole, left, right, tmp);
  }

  method SwapCycle<T>(a: array<T>, bl: nat, br: nat, offsetsL: array<nat>, startL: nat, offsetsR: array<nat>,
                      startR: nat, num: nat, ghost xs: seq<nat>, ghost ys: seq<nat>, ghost mid: nat)
    requires a as object != offsetsL && a as object != offsetsR && bl <= br <= a.Length && num == |xs| > 0
    requires PlacesOf(bl, br, offsetsL[..], startL, offsetsR[..], startR, xs, ys) && Apart(a.Length, xs, ys, mid)
    modifies a
    ensures CycleMoved(old(a[..]), a[..], xs, ys, mid, num) && Rearranged(old(a[..]), a[..], bl, br)
  {
    hide Apart, CycleMoved, Rearranged, PlacesOf, Cycled, Swapped;
    ghost var s := a[..];
    PlaceOf(bl, br, offsetsL[..], startL, offsetsR[..], startR, xs, ys, 0);
    CycleStart(s, xs, ys, mid);
    SwappedRearranged(s, xs[0], ys[0], bl, br);
    var left, right := bl + offsetsL[startL], br - offsetsR[startR];
    var tmp := OpenHole(a, left, right);
    for i := 1 to num
      invariant bl <= right < br && |ys| == |xs| && right == ys[i - 1]
      invariant CycleMoved(s, a[..][right := tmp], xs, ys, mid, i) && Rearranged(s, a[..][right := tmp], bl, br)
    {
      ghost var f := a[..][right := tmp];
      PlaceOf(bl, br, offsetsL[..], startL, offsetsR[..], startR, xs, ys, i);
      CycleStep(s, f, xs, ys, mid, i);
      CycledRearranged(f, right, xs[i], ys[i], bl, br);
      RearrangedTrans(s, f, Cycled(f, right, xs[i], ys[i]), bl, br);
      var hole := right;
      left := bl + offsetsL[startL + i];
      right := br - offsetsR[startR + i];
      MoveHole(a, hole, left, right, tmp);
    }
    ghost var f := a[..][right := tmp];
    a[right] := tmp;
    assert a[..] == f;
  }

  lemma CycledHole<T>(t: seq<T>, hole: nat, x: nat, y: nat, tmp: T)
    requires hole < |t| && x < |t| && y < |t| && hole != x && hole != y && x != y
    ensures Cycled(t[hole := tmp], hole, x, y) == t[hole := t[x]][x := t[y]][y := tmp]
  {
  }

  /** swap_offsets */
  method SwapOffsets<T>(a: array<T>, bl: nat, br: nat, offsetsL: array<nat>, startL: nat, offsetsR: array<nat>,
                        startR: nat, num: nat, useSwaps: bool, ghost xs: seq<nat>, ghost ys: seq<nat>, ghost mid: nat)
    requires a as object != offsetsL && a as object != offsetsR && bl <= br <= a.Length && num == |xs|
    requires PlacesOf(bl, br, offsetsL[..], startL, offsetsR[..], startR, xs, ys) && Apart(a.Length, xs, ys, mid)
    modifies a
    ensures Exchanged(old(a[..]), a[..], xs, ys, mid, useSwaps) && Rearranged(old(a[..]), a[..], bl, br)
  {
    hide Apart, PairsSwapped, CycleMoved, PlacesOf;
    if useSwaps {
      SwapPairs(a, bl, br, offsetsL, startL, offsetsR, startR, num, xs, ys, mid);
    } else if num > 0 {
      SwapCycle(a, bl, br, offsetsL, startL, offsetsR, startR, num, xs, ys, mid);
    }
  }
}
