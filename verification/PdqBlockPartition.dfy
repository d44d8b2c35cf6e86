/** The loop of pdqsort's branchless partition: fills the empty offset buffers, exchanges what it can, and in the end
    moves the leftovers of one buffer to the boundary. */
module PdqBlockPartition {
  import opened Counting
  import opened SortRanges
  import opened PdqInsertion
  import opened PdqPartition
  import opened PdqBlocks

  /** Left of bl all is smaller than the pivot, right of br nothing is; between them the blocks say which elements
      are on the wrong side, and from first to last nothing is known. */
  ghost predicate Blocks<T>(comp: (T, T) -> bool, s: seq<T>, begin: nat, end: nat, bl: nat, first: nat, l: seq<nat>,
                            last: nat, br: nat, r: seq<nat>, p: T)
  {
    begin < bl <= first <= last <= br <= end <= |s| && s[begin] == p && AllLess(comp, s, begin + 1, bl, p) &&
    NoneLess(comp, s, br, end, p) && LeftBlock(comp, s, bl, first, l, p) && RightBlock(comp, s, last, br, r, p)
  }

  lemma BlocksStart<T>(comp: (T, T) -> bool, s: seq<T>, begin: nat, end: nat, first: nat, last: nat, p: T)
    requires begin < first <= last <= end <= |s| && s[begin] == p
    requires AllLess(comp, s, begin + 1, first, p) && NoneLess(comp, s, last, end, p)
    ensures Blocks(comp, s, begin, end, first, first, [], last, last, [], p)
  {
  }

  lemma FilledLeft<T>(comp: (T, T) -> bool, s: seq<T>, begin: nat, end: nat, first: nat, l: seq<nat>, first': nat,
                      l': seq<nat>, last: nat, br: nat, r: seq<nat>, p: T)
    requires Blocks(comp, s, begin, end, first, first, l, last, br, r, p) && first' <= last
    requires LeftBlock(comp, s, first, first', l', p)
    ensures Blocks(comp, s, begin, end, first, first', l', last, br, r, p)
  {
  }

  lemma FilledRight<T>(comp: (T, T) -> bool, s: seq<T>, begin: nat, end: nat, bl: nat, first: nat, l: seq<nat>,
                       last: nat, r: seq<nat>, last': nat, r': seq<nat>, p: T)
    requires Blocks(comp, s, begin, end, bl, first, l, last, last, r, p) && first <= last'
    requires RightBlock(comp, s, last', last, r', p)
    ensures Blocks(comp, s, begin, end, bl, first, l, last', last, r', p)
  {
  }

  /** A left block with nothing on the wrong side joins what is smaller than the pivot. */
  lemma LeftDone<T>(comp: (T, T) -> bool, s: seq<T>, begin: nat, end: nat, bl: nat, first: nat,
                    last: nat, br: nat, r: seq<nat>, p: T)
    requires Blocks(comp, s, begin, end, bl, first, [], last, br, r, p)
    ensures Blocks(comp, s, begin, end, first, first, [], last, br, r, p)
  {
  }

  lemma RightDone<T>(comp: (T, T) -> bool, s: seq<T>, begin: nat, end: nat, bl: nat, first: nat, l: seq<nat>,
                     last: nat, br: nat, p: T)
    requires Blocks(comp, s, begin, end, bl, first, l, last, br, [], p)
    ensures Blocks(comp, s, begin, end, bl, first, l, last, last, [], p)
  {
  }

  // ---- exchanging ------------------------------------------------------------------------------------------

  ghost function LeftPlaces(bl: nat, l: seq<nat>): (xs: seq<nat>) {
    seq(|l|, k requires 0 <= k < |l| => bl + l[k])
  }

  ghost function RightPlaces(br: nat, r: seq<nat>): (ys: seq<nat>)
    requires forall k :: 0 <= k < |r| ==> r[k] <= br
  {
    seq(|r|, k requires 0 <= k < |r| => br - r[k])
  }

  /** All places that were exchanged now hold an element of the other side. */
  lemma SidesExchanged<T>(comp: (T, T) -> bool, s: seq<T>, t: seq<T>, xs: seq<nat>, ys: seq<nat>, mid: nat,
                          useSwaps: bool, p: T)
    requires Exchanged(s, t, xs, ys, mid, useSwaps) && Apart(|s|, xs, ys, mid)
    requires forall k :: 0 <= k < |xs| ==> !comp(s[xs[k]], p) && comp(s[ys[k]], p)
    ensures SameElsewhere(s, t, xs, ys, |xs|)
    ensures forall k :: 0 <= k < |xs| ==> comp(t[xs[k]], p) && !comp(t[ys[k]], p)
  {
    if !useSwaps && xs != [] {
      forall k | 0 <= k < |xs| ensures !comp(t[ys[k]], p) {
        if k < |xs| - 1 {
          assert t[ys[k + 1 - 1]] == s[xs[k + 1]];
        }
      }
    }
  }

  lemma InFront(l: seq<nat>, num: nat, x: int) returns (k: nat)
    requires num <= |l| && x in l && x !in l[num..]
    ensures k < num && l[k] == x
  {
    assert l == l[..num] + l[num..];
    assert x in l[..num];
    k :| 0 <= k < num && l[..num][k] == x;
  }

  lemma SamePlace<T>(s: seq<T>, t: seq<T>, xs: seq<nat>, ys: seq<nat>, m: nat)
    requires |xs| == |ys| && SameElsewhere(s, t, xs, ys, |xs|) && m < |s|
    requires forall k :: 0 <= k < |xs| ==> xs[k] != m && ys[k] != m
    ensures t[m] == s[m]
  {
  }

  lemma LeftExchanged<T>(comp: (T, T) -> bool, s: seq<T>, t: seq<T>, bl: nat, first: nat, l: seq<nat>, num: nat,
                         xs: seq<nat>, ys: seq<nat>, p: T)
    requires LeftBlock(comp, s, bl, first, l, p) && num <= |l| && |t| == |s|
    requires |ys| == |xs| == num && (forall k :: 0 <= k < num ==> xs[k] == bl + l[k])
    requires forall k :: 0 <= k < num ==> first <= ys[k]
    requires SameElsewhere(s, t, xs, ys, num) && forall k :: 0 <= k < num ==> xs[k] < |t| && comp(t[xs[k]], p)
    ensures LeftBlock(comp, t, bl, first, l[num..], p)
  {
    hide SameElsewhere;
    var l' := l[num..];
    forall k | 0 <= k < |l'| ensures l'[k] < first - bl && !comp(t[bl + l'[k]], p) {
      assert l'[k] == l[num + k] && forall j :: 0 <= j < num ==> l[j] < l[num + k];
      SamePlace(s, t, xs, ys, bl + l'[k]);
    }
    forall i | bl <= i < first && i - bl !in l' ensures comp(t[i], p) {
      if i - bl in l {
        var k := InFront(l, num, i - bl);
        assert xs[k] == i;
      } else {
        assert forall k :: 0 <= k < num ==> l[k] in l;
        SamePlace(s, t, xs, ys, i);
      }
    }
  }

  lemma RightExchanged<T>(comp: (T, T) -> bool, s: seq<T>, t: seq<T>, last: nat, br: nat, r: seq<nat>, num: nat,
                          xs: seq<nat>, ys: seq<nat>, p: T)
    requires RightBlock(comp, s, last, br, r, p) && num <= |r| && |t| == |s|
    requires |ys| == |xs| == num && (forall k :: 0 <= k < num ==> ys[k] == br - r[k])
    requires forall k :: 0 <= k < num ==> xs[k] < last
    requires SameElsewhere(s, t, xs, ys, num) && forall k :: 0 <= k < num ==> ys[k] < |t| && !comp(t[ys[k]], p)
    ensures RightBlock(comp, t, last, br, r[num..], p)
  {
    hide SameElsewhere;
    var r' := r[num..];
    forall k | 0 <= k < |r'| ensures 1 <= r'[k] <= br - last && comp(t[br - r'[k]], p) {
      assert r'[k] == r[num + k] && forall j :: 0 <= j < num ==> r[j] < r[num + k];
      SamePlace(s, t, xs, ys, br - r'[k]);
    }
    forall i | last <= i < br && br - i !in r' ensures !comp(t[i], p) {
      if br - i in r {
        var k := InFront(r, num, br - i);
        assert ys[k] == i;
      } else {
        assert forall k :: 0 <= k < num ==> r[k] in r;
        SamePlace(s, t, xs, ys, i);
      }
    }
  }

  lemma LeftPlacesAt<T>(comp: (T, T) -> bool, s: seq<T>, bl: nat, first: nat, l: seq<nat>, p: T, num: nat)
    requires LeftBlock(comp, s, bl, first, l, p) && num <= |l|
    ensures ghost var xs := LeftPlaces(bl, l[..num]);
      |xs| == num && Distinct(xs) &&
      forall k :: 0 <= k < num ==> xs[k] == bl + l[k] < first <= |s| && !comp(s[xs[k]], p)
  {
    forall i, j | 0 <= i < j < num ensures bl + l[i] != bl + l[j] {
      assert l[i] < l[j];
    }
  }

  lemma RightPlacesAt<T>(comp: (T, T) -> bool, s: seq<T>, last: nat, br: nat, r: seq<nat>, p: T, num: nat)
    requires RightBlock(comp, s, last, br, r, p) && num <= |r|
    ensures forall k :: 0 <= k < |r| ==> r[k] <= br
    ensures ghost var ys := RightPlaces(br, r[..num]);
      |ys| == num && Distinct(ys) &&
      forall k :: 0 <= k < num ==> ys[k] == br - r[k] && last <= ys[k] < br <= |s| && comp(s[ys[k]], p)
  {
    forall i, j | 0 <= i < j < num ensures br - r[i] != br - r[j] {
      assert r[i] < r[j];
    }
  }

  /** The places of the first num offsets on each side. */
  lemma PlacesApart<T>(comp: (T, T) -> bool, s: seq<T>, begin: nat, end: nat, bl: nat, first: nat, l: seq<nat>,
                       last: nat, br: nat, r: seq<nat>, p: T, num: nat)
    returns (xs: seq<nat>, ys: seq<nat>)
    requires Blocks(comp, s, begin, end, bl, first, l, last, br, r, p) && num <= |l| && num <= |r|
    ensures Apart(|s|, xs, ys, first) && |xs| == |ys| == num
    ensures forall k :: 0 <= k < num ==>
      xs[k] == bl + l[k] && ys[k] == br - r[k] && xs[k] < first && last <= ys[k] < br <= |s|
    ensures forall k :: 0 <= k < num ==> !comp(s[xs[k]], p) && comp(s[ys[k]], p)
  {
    hide LeftBlock, RightBlock, LeftPlaces, RightPlaces;
    LeftPlacesAt(comp, s, bl, first, l, p, num);
    RightPlacesAt(comp, s, last, br, r, p, num);
    xs, ys := LeftPlaces(bl, l[..num]), RightPlaces(br, r[..num]);
  }

  lemma BlocksExchanged<T>(comp: (T, T) -> bool, s: seq<T>, t: seq<T>, begin: nat, end: nat, bl: nat, first: nat,
                           l: seq<nat>, last: nat, br: nat, r: seq<nat>, p: T, num: nat, xs: seq<nat>, ys: seq<nat>,
                           useSwaps: bool)
    requires Blocks(comp, s, begin, end, bl, first, l, last, br, r, p) && num <= |l| && num <= |r|
    requires Apart(|s|, xs, ys, first) && |xs| == |ys| == num
    requires forall k :: 0 <= k < num ==> xs[k] == bl + l[k] && ys[k] == br - r[k] && xs[k] < first && last <= ys[k]
    requires forall k :: 0 <= k < num ==> !comp(s[xs[k]], p) && comp(s[ys[k]], p)
    requires Exchanged(s, t, xs, ys, first, useSwaps) && Rearranged(s, t, bl, br)
    ensures Blocks(comp, t, begin, end, bl, first, l[num..], last, br, r[num..], p)
  {
    hide Exchanged, LeftBlock, RightBlock, SameElsewhere, Apart;
    SidesExchanged(comp, s, t, xs, ys, first, useSwaps, p);
    PlacesBelow(|s|, xs, ys, first);
    LeftExchanged(comp, s, t, bl, first, l, num, xs, ys, p);
    RightExchanged(comp, s, t, last, br, r, num, xs, ys, p);
  }

  lemma PlacesBelow(n: nat, xs: seq<nat>, ys: seq<nat>, mid: nat)
    requires Apart(n, xs, ys, mid)
    ensures forall k :: 0 <= k < |xs| ==> xs[k] < n && ys[k] < n
  {
  }

  lemma BlocksShape<T>(comp: (T, T) -> bool, s: seq<T>, begin: nat, end: nat, bl: nat, first: nat, l: seq<nat>,
                       last: nat, br: nat, r: seq<nat>, p: T)
    requires Blocks(comp, s, begin, end, bl, first, l, last, br, r, p)
    ensures begin < bl <= first <= last <= br <= end <= |s| && s[begin] == p
    ensures AllLess(comp, s, begin + 1, bl, p) && NoneLess(comp, s, br, end, p)
    ensures LeftBlock(comp, s, bl, first, l, p) && RightBlock(comp, s, last, br, r, p)
  {
  }

  lemma SlicePlaces(bl: nat, br: nat, ol: seq<nat>, sl: nat, nl: nat, or: seq<nat>, sr: nat, nr: nat, num: nat,
                    xs: seq<nat>, ys: seq<nat>)
    requires sl + nl <= |ol| && sr + nr <= |or| && num <= nl && num <= nr && |xs| == |ys| == num
    requires forall k :: 0 <= k < num ==>
      xs[k] == bl + ol[sl..sl + nl][k] && ys[k] == br - or[sr..sr + nr][k] && ys[k] < br
    ensures PlacesOf(bl, br, ol, sl, or, sr, xs, ys)
    ensures ol[sl..sl + nl][num..] == ol[sl + num..sl + nl] && or[sr..sr + nr][num..] == or[sr + num..sr + nr]
  {
  }

  // ---- the leftovers ---------------------------------------------------------------------------------------

  lemma BeyondLast(l: seq<nat>, k: nat, x: int)
    requires Increasing(l) && |l| == k + 1
    ensures x > l[k] ==> x !in l
    ensures forall j :: 0 <= j < k ==> l[j] < l[k]
    ensures forall y: int :: y in l ==> y in l[..k] || y == l[k]
    ensures Increasing(l[..k])
  {
    assert l == l[..k] + [l[k]];
  }

  lemma LastLeft<T>(comp: (T, T) -> bool, s: seq<T>, bl: nat, last: nat, l: seq<nat>, k: nat, p: T, end: nat)
    requires LeftBlock(comp, s, bl, last, l, p) && |l| == k + 1 && NoneLess(comp, s, last, end, p)
    ensures bl + l[k] < last <= |s|
    ensures LeftBlock(comp, Swapped(s, bl + l[k], last - 1), bl, last - 1, l[..k], p)
    ensures NoneLess(comp, Swapped(s, bl + l[k], last - 1), last - 1, end, p)
  {
    var t, l' := Swapped(s, bl + l[k], last - 1), l[..k];
    BeyondLast(l, k, last - 1 - bl);
    forall j | 0 <= j < k ensures l'[j] < last - 1 - bl && !comp(t[bl + l'[j]], p) {
      assert l'[j] == l[j];
    }
    forall i | bl <= i < last - 1 && i - bl !in l' ensures comp(t[i], p) {
      assert i != bl + l[k] ==> t[i] == s[i];
    }
  }

  lemma LastRight<T>(comp: (T, T) -> bool, s: seq<T>, first: nat, br: nat, r: seq<nat>, k: nat, p: T, begin: nat)
    requires RightBlock(comp, s, first, br, r, p) && |r| == k + 1 && AllLess(comp, s, begin, first, p) && begin <= first
    ensures first <= br - r[k] < br <= |s|
    ensures RightBlock(comp, Swapped(s, br - r[k], first), first + 1, br, r[..k], p)
    ensures AllLess(comp, Swapped(s, br - r[k], first), begin, first + 1, p)
  {
    var t, r' := Swapped(s, br - r[k], first), r[..k];
    BeyondLast(r, k, br - first);
    forall j | 0 <= j < k ensures 1 <= r'[j] <= br - (first + 1) && comp(t[br - r'[j]], p) {
      assert r'[j] == r[j];
    }
    forall i | first + 1 <= i < br && br - i !in r' ensures !comp(t[i], p) {
      assert i != br - r[k] ==> t[i] == s[i];
    }
  }

  lemma LeftOver<T>(comp: (T, T) -> bool, s: seq<T>, bl: nat, last: nat, p: T, begin: nat)
    requires LeftBlock(comp, s, bl, last, [], p) && AllLess(comp, s, begin, bl, p)
    ensures AllLess(comp, s, begin, last, p) && last <= |s|
  {
  }

  lemma RightOver<T>(comp: (T, T) -> bool, s: seq<T>, first: nat, br: nat, p: T, end: nat)
    requires RightBlock(comp, s, first, br, [], p) && NoneLess(comp, s, br, end, p)
    ensures NoneLess(comp, s, first, end, p)
  {
  }

  /** Rearranging between two ranges touches neither. */
  lemma BoundsAround<T>(comp: (T, T) -> bool, s: seq<T>, t: seq<T>, bl: nat, br: nat, begin: nat, end: nat, p: T)
    requires Rearranged(s, t, bl, br) && begin < bl && s[begin] == p
    ensures |t| == |s| && t[begin] == p
    ensures AllLess(comp, s, begin + 1, bl, p) ==> AllLess(comp, t, begin + 1, bl, p)
    ensures NoneLess(comp, s, br, end, p) ==> NoneLess(comp, t, br, end, p)
  {
  }

  /** What is still on the wrong side in the left buffer goes to the boundary, from the last one on. */
  method FlushLeft<T(!new)>(a: array<T>, begin: nat, end: nat, bl: nat, last0: nat, offsets: array<nat>, start: nat,
                            num: nat, pivot: T, comp: (T, T) -> bool) returns (first: nat)
    requires a as object != offsets && begin < bl <= last0 <= end <= a.Length && start + num <= offsets.Length
    requires LeftBlock(comp, a[..], bl, last0, offsets[start..start + num], pivot) && a[begin] == pivot
    requires AllLess(comp, a[..], begin + 1, bl, pivot) && NoneLess(comp, a[..], last0, end, pivot)
    modifies a
    ensures bl <= first <= last0 && AllLess(comp, a[..], begin + 1, first, pivot) &&
      NoneLess(comp, a[..], first, end, pivot)
    ensures Rearranged(old(a[..]), a[..], bl, last0)
  {
    hide LeftBlock, AllLess, NoneLess, Rearranged, Swapped;
    ghost var s, l := a[..], offsets[start..start + num];
    RearrangedSame(s, bl, last0);
    var last, num' := last0, num;
    assert l[..num] == l;
    while num' > 0
      invariant 0 <= num' <= num && bl <= last <= last0 && Rearranged(s, a[..], bl, last0)
      invariant LeftBlock(comp, a[..], bl, last, l[..num'], pivot) && NoneLess(comp, a[..], last, end, pivot)
    {
      num' := num' - 1;
      ghost var t := a[..];
      assert l[..num' + 1][..num'] == l[..num'];
      LastLeft(comp, t, bl, last, l[..num' + 1], num', pivot, end);
      last := last - 1;
      SwappedRearranged(t, bl + l[num'], last, bl, last0);
      RearrangedTrans(s, t, Swapped(t, bl + l[num'], last), bl, last0);
      Swap(a, bl + offsets[start + num'], last);
    }
    BoundsAround(comp, s, a[..], bl, last0, begin, end, pivot);
    assert l[..0] == [];
    LeftOver(comp, a[..], bl, last, pivot, begin + 1);
    first := last;
  }

  method FlushRight<T(!new)>(a: array<T>, begin: nat, end: nat, first0: nat, br: nat, offsets: array<nat>, start: nat,
                             num: nat, pivot: T, comp: (T, T) -> bool) returns (first: nat)
    requires a as object != offsets && begin < first0 <= br <= end <= a.Length && start + num <= offsets.Length
    requires RightBlock(comp, a[..], first0, br, offsets[start..start + num], pivot) && a[begin] == pivot
    requires AllLess(comp, a[..], begin + 1, first0, pivot) && NoneLess(comp, a[..], br, end, pivot)
    modifies a
    ensures first0 <= first <= br && AllLess(comp, a[..], begin + 1, first, pivot) &&
      NoneLess(comp, a[..], first, end, pivot)
    ensures Rearranged(old(a[..]), a[..], first0, br)
  {
    hide RightBlock, AllLess, NoneLess, Rearranged, Swapped;
    ghost var s, r := a[..], offsets[start..start + num];
    RearrangedSame(s, first0, br);
    first := first0;
    var num' := num;
    assert r[..num] == r;
    while num' > 0
      invariant 0 <= num' <= num && first0 <= first <= br && Rearranged(s, a[..], first0, br)
      invariant RightBlock(comp, a[..], first, br, r[..num'], pivot) && AllLess(comp, a[..], begin + 1, first, pivot)
    {
      num' := num' - 1;
      ghost var t := a[..];
      assert r[..num' + 1][..num'] == r[..num'];
      LastRight(comp, t, first, br, r[..num' + 1], num', pivot, begin + 1);
      SwappedRearranged(t, br - r[num'], first, first0, br);
      RearrangedTrans(s, t, Swapped(t, br - r[num'], first), first0, br);
      Swap(a, br - offsets[start + num'], first);
      first := first + 1;
    }
    BoundsAround(comp, s, a[..], first0, br, begin, end, pivot);
    assert r[..0] == [];
    RightOver(comp, a[..], first, br, pivot, end);
  }

  // ---- the loop --------------------------------------------------------------------------------------------

  /** The offsets in use, from start on. */
  ghost predicate InUse(offsets: array<nat>, start: nat, num: nat, l: seq<nat>)
    reads offsets
  {
    offsets.Length == BLOCK_SIZE && start + num <= BLOCK_SIZE && l == offsets[start..start + num]
  }

  lemma InUseStart(offsets: array<nat>)
    requires offsets.Length == BLOCK_SIZE
    ensures InUse(offsets, 0, 0, [])
  {
  }

  lemma InUseReset(offsets: array<nat>, start: nat, l: seq<nat>)
    requires InUse(offsets, start, 0, l)
    ensures l == [] && InUse(offsets, 0, 0, l)
  {
  }

  /** One block on each side whose buffer is empty. */
  method FillBlocks<T(!new)>(a: array<T>, ghost begin: nat, ghost end: nat, bl: nat, first0: nat, offsetsL: array<nat>,
                             numL0: nat, ghost l0: seq<nat>, last0: nat, br: nat, offsetsR: array<nat>, numR0: nat,
                             ghost r0: seq<nat>, startL: nat, startR: nat, pivot: T, comp: (T, T) -> bool)
    returns (first: nat, numL: nat, ghost l: seq<nat>, last: nat, numR: nat, ghost r: seq<nat>)
    requires a as object != offsetsL && a as object != offsetsR && offsetsL != offsetsR
    requires first0 < last0 && Blocks(comp, a[..], begin, end, bl, first0, l0, last0, br, r0, pivot)
    requires InUse(offsetsL, startL, numL0, l0) && InUse(offsetsR, startR, numR0, r0) && (numL0 == 0 || numR0 == 0)
    requires (numL0 == 0 ==> bl == first0 && startL == 0) && (numR0 == 0 ==> br == last0 && startR == 0)
    modifies offsetsL, offsetsR
    ensures first0 <= first <= last <= last0 && last - first < last0 - first0
    ensures Blocks(comp, a[..], begin, end, bl, first, l, last, br, r, pivot) && a[..] == old(a[..])
    ensures InUse(offsetsL, startL, numL, l) && InUse(offsetsR, startR, numR, r)
  {
    hide Blocks, LeftBlock, RightBlock;
    BlocksShape(comp, a[..], begin, end, bl, first0, l0, last0, br, r0, pivot);
    var numUnknown := last0 - first0;
    var leftSplit := if numL0 == 0 then (if numR0 == 0 then numUnknown / 2 else numUnknown) else 0;
    var rightSplit := if numR0 == 0 then numUnknown - leftSplit else 0;
    first, numL, l, last, numR, r := first0, numL0, l0, last0, numR0, r0;
    if numL0 == 0 {
      var count := if leftSplit >= BLOCK_SIZE then BLOCK_SIZE else leftSplit;
      numL := FillLeft(a, first0, count, offsetsL, pivot, comp);
      first, l := first0 + count, offsetsL[..numL];
      FilledLeft(comp, a[..], begin, end, first0, l0, first, l, last, br, r, pivot);
    }
    if numR0 == 0 {
      var count := if rightSplit >= BLOCK_SIZE then BLOCK_SIZE else rightSplit;
      numR := FillRight(a, last0, count, offsetsR, pivot, comp);
      last, r := last0 - count, offsetsR[..numR];
      FilledRight(comp, a[..], begin, end, bl, first, l, last0, r0, last, r, pivot);
    }
  }

  /** Exchanges as many as both buffers have. */
  method ExchangeBlocks<T(!new)>(a: array<T>, ghost begin: nat, ghost end: nat, bl: nat, ghost first: nat,
                                 offsetsL: array<nat>,
                                 startL: nat, numL: nat, ghost l: seq<nat>, ghost last: nat, br: nat,
                                 offsetsR: array<nat>,
                                 startR: nat, numR: nat, ghost r: seq<nat>, pivot: T, comp: (T, T) -> bool)
    returns (num: nat, ghost l': seq<nat>, ghost r': seq<nat>)
    requires a as object != offsetsL && a as object != offsetsR && end <= a.Length
    requires Blocks(comp, a[..], begin, end, bl, first, l, last, br, r, pivot)
    requires InUse(offsetsL, startL, numL, l) && InUse(offsetsR, startR, numR, r)
    modifies a
    ensures num == (if numL < numR then numL else numR) && Rearranged(old(a[..]), a[..], bl, br)
    ensures Blocks(comp, a[..], begin, end, bl, first, l', last, br, r', pivot)
    ensures InUse(offsetsL, startL + num, numL - num, l') && InUse(offsetsR, startR + num, numR - num, r')
  {
    hide Blocks, Rearranged, Exchanged, Apart, PlacesOf;
    num := if numL < numR then numL else numR;
    BlocksShape(comp, a[..], begin, end, bl, first, l, last, br, r, pivot);
    ghost var s := a[..];
    ghost var xs, ys := PlacesApart(comp, s, begin, end, bl, first, l, last, br, r, pivot, num);
    SlicePlaces(bl, br, offsetsL[..], startL, numL, offsetsR[..], startR, numR, num, xs, ys);
    SwapOffsets(a, bl, br, offsetsL, startL, offsetsR, startR, num, numL == numR, xs, ys, first);
    BlocksExchanged(comp, s, a[..], begin, end, bl, first, l, last, br, r, pivot, num, xs, ys, numL == numR);
    l', r' := l[num..], r[num..];
  }

  /** When nothing is unknown any more, the rest of the one buffer in use is moved to the boundary. */
  method FlushBlocks<T(!new)>(a: array<T>, begin: nat, end: nat, bl: nat, first0: nat, offsetsL: array<nat>,
                              startL: nat,
                              numL: nat, ghost l: seq<nat>, br: nat, offsetsR: array<nat>, startR: nat, numR: nat,
                              ghost r: seq<nat>, pivot: T, comp: (T, T) -> bool)
    returns (first: nat)
    requires a as object != offsetsL && a as object != offsetsR && end <= a.Length
    requires Blocks(comp, a[..], begin, end, bl, first0, l, first0, br, r, pivot) && (numL == 0 || numR == 0)
    requires InUse(offsetsL, startL, numL, l) && InUse(offsetsR, startR, numR, r)
    requires (numL == 0 ==> bl == first0) && (numR == 0 ==> br == first0)
    modifies a
    ensures bl <= first <= br && AllLess(comp, a[..], begin + 1, first, pivot) &&
      NoneLess(comp, a[..], first, end, pivot)
    ensures Rearranged(old(a[..]), a[..], bl, br)
  {
    hide Blocks, Rearranged, LeftBlock, RightBlock, AllLess, NoneLess;
    ghost var t := a[..];
    BlocksShape(comp, t, begin, end, bl, first0, l, first0, br, r, pivot);
    RearrangedSame(t, bl, br);
    first := first0;
    if numL > 0 {
      first := FlushLeft(a, begin, end, bl, first0, offsetsL, startL, numL, pivot, comp);
    } else if numR > 0 {
      first := FlushRight(a, begin, end, first0, br, offsetsR, startR, numR, pivot, comp);
    }
  }

  /** Partitions what lies between first0 and last0. */
  method PartitionBlocks<T(!new)>(a: array<T>, begin: nat, end: nat, first0: nat, last0: nat, pivot: T,
                                  comp: (T, T) -> bool)
    returns (first: nat)
    requires begin < first0 <= last0 <= end <= a.Length && a[begin] == pivot
    requires AllLess(comp, a[..], begin + 1, first0, pivot) && NoneLess(comp, a[..], last0, end, pivot)
    modifies a
    ensures first0 <= first <= last0 && AllLess(comp, a[..], begin + 1, first, pivot) &&
      NoneLess(comp, a[..], first, end, pivot)
    ensures Rearranged(old(a[..]), a[..], first0, last0)
  {
    hide Blocks, Rearranged, LeftBlock, RightBlock, AllLess, NoneLess, InUse;
    var offsetsL, offsetsR := new nat[BLOCK_SIZE], new nat[BLOCK_SIZE];
    ghost var s, l, r := a[..], [], [];
    first := first0;
    var last, bl, br := last0, first0, last0;
    var numL, numR, startL, startR := 0, 0, 0, 0;
    InUseStart(offsetsL);
    InUseStart(offsetsR);
    BlocksStart(comp, s, begin, end, first, last, pivot);
    RearrangedSame(s, first0, last0);
    while first < last
      invariant first0 <= bl <= first <= last <= br <= last0
      invariant Blocks(comp, a[..], begin, end, bl, first, l, last, br, r, pivot) && Rearranged(s, a[..], first0, last0)
      invariant 0 <= numL && 0 <= numR && 0 <= startL && 0 <= startR && (numL == 0 || numR == 0)
      invariant InUse(offsetsL, startL, numL, l) && InUse(offsetsR, startR, numR, r)
      invariant (numL == 0 ==> bl == first && startL == 0) && (numR == 0 ==> br == last && startR == 0)
      decreases last - first
    {
      first, numL, l, last, numR, r := FillBlocks(a, begin, end, bl, first, offsetsL, numL, l, last, br, offsetsR,
                                                  numR, r, startL, startR, pivot, comp);
      ghost var t := a[..];
      var num;
      num, l, r := ExchangeBlocks(a, begin, end, bl, first, offsetsL, startL, numL, l, last, br, offsetsR, startR,
                                  numR, r, pivot, comp);
      RearrangedWider(t, a[..], bl, br, first0, last0);
      RearrangedTrans(s, t, a[..], first0, last0);
      numL, numR, startL, startR := numL - num, numR - num, startL + num, startR + num;
      if numL == 0 {
        InUseReset(offsetsL, startL, l);
        LeftDone(comp, a[..], begin, end, bl, first, last, br, r, pivot);
        startL, bl := 0, first;
      }
      if numR == 0 {
        InUseReset(offsetsR, startR, r);
        RightDone(comp, a[..], begin, end, bl, first, l, last, br, pivot);
        startR, br := 0, last;
      }
    }
    ghost var t := a[..];
    first := FlushBlocks(a, begin, end, bl, first, offsetsL, startL, numL, l, br, offsetsR, startR, numR, r, pivot,
                         comp);
    RearrangedWider(t, a[..], bl, br, first0, last0);
    RearrangedTrans(s, t, a[..], first0, last0);
  }

  /** partition_right_branchless */
  method PartitionRightBranchless<T(!new)>(a: array<T>, begin: nat, end: nat, comp: (T, T) -> bool)
    returns (pos: nat, already: bool)
    requires StrictWeak(comp) && begin < end <= a.Length && exists g :: begin < g < end && !comp(a[g], a[begin])
    modifies a
    ensures SplitRight(comp, a[..], begin, pos, end) && Rearranged(old(a[..]), a[..], begin, end)
    ensures already ==> a[..] == Swapped(old(a[..]), begin, pos)
    ensures already <==> PartitionedAt(comp, old(a[..]), begin, pos, end)
  {
    hide StrictWeak, RightPair, Rearranged, SplitRight, Swapped, AllLess, NoneLess, PartitionedAt;
    ghost var s := a[..];
    var pivot := a[begin];
    var first, last := FirstPair(a, begin, end, pivot, comp);
    already := first >= last;
    ghost var first0, last0 := first, last;
    RearrangedSame(s, begin, end);
    if already {
      PairsMet(comp, s, begin, first, last, end, pivot);
    } else {
      PairFound(comp, s, begin, first, last, end, pivot);
      PairSwapped(comp, s, begin, first, last, end, pivot);
      Swap(a, first, last);
      ghost var t := a[..];
      var first' := first + 1;
      first := PartitionBlocks(a, begin, end, first', last, pivot, comp);
      RearrangedWider(t, a[..], first', last, begin, end);
      RearrangedTrans(s, t, a[..], begin, end);
      PivotKept(t, a[..], first', last, begin);
      PivotPlaced(comp, a[..], begin, first, end);
    }
    pos := first - 1;
    MetAtOnce(comp, s, begin, first0, last0, end, pivot, pos);
    ghost var t := a[..];
    PlacePivot(a, begin, pos, pivot);
    RearrangedTrans(s, t, a[..], begin, end);
  }

  lemma PairFound<T>(comp: (T, T) -> bool, s: seq<T>, begin: nat, first: nat, last: nat, end: nat, p: T)
    requires RightPair(comp, s, begin, first, last, end, p) && first < last
    ensures begin < first < last < end <= |s| && s[begin] == p && comp(s[last], p) && !comp(s[first], p)
    ensures AllLess(comp, s, begin + 1, first, p) && NoneLess(comp, s, last + 1, end, p)
  {
  }

  lemma PivotKept<T>(s: seq<T>, t: seq<T>, lo: nat, hi: nat, begin: nat)
    requires Rearranged(s, t, lo, hi) && begin < lo
    ensures t[begin] == s[begin]
  {
  }
}
