/** pdqsort's insertion sorts: guarded, unguarded behind a smaller-or-equal element, and the attempt that gives up
    after a few moves; and the sorting of three elements. */
module PdqInsertion {
  import opened SortRanges

  const PARTIAL_INSERTION_SORT_LIMIT: nat := 8

  /** Element h of f is on its way down: the others up to cur are in order, and those above h are larger. */
  ghost predicate SiftOrder<T>(comp: (T, T) -> bool, f: seq<T>, begin: nat, cur: nat, h: nat) {
    begin <= h <= cur < |f| &&
    (forall i, j :: begin <= i < j <= cur && i != h && j != h ==> !comp(f[j], f[i])) &&
    (forall j :: h < j <= cur ==> comp(f[h], f[j]))
  }

  ghost predicate Sifting<T>(comp: (T, T) -> bool, s: seq<T>, f: seq<T>, begin: nat, cur: nat, h: nat) {
    cur < |s| && Rearranged(s, f, begin, cur + 1) && SiftOrder(comp, f, begin, cur, h)
  }

  lemma SiftStart<T>(comp: (T, T) -> bool, s: seq<T>, begin: nat, cur: nat)
    requires Sorted(comp, s, begin, cur) && cur < |s|
    ensures Sifting(comp, s, s, begin, cur, cur)
  {
  }

  lemma SiftOrderStep<T>(comp: (T, T) -> bool, f: seq<T>, g: seq<T>, begin: nat, cur: nat, h: nat)
    requires SiftOrder(comp, f, begin, cur, h) && begin < h && comp(f[h], f[h - 1])
    requires |g| == |f| && g[h - 1] == f[h] && g[h] == f[h - 1]
    requires forall i :: 0 <= i < |f| && i != h - 1 && i != h ==> g[i] == f[i]
    ensures SiftOrder(comp, g, begin, cur, h - 1)
  {
    forall i, j | begin <= i < j <= cur && i != h - 1 && j != h - 1 ensures !comp(g[j], g[i]) {
      var i', j' := if i == h then h - 1 else i, if j == h then h - 1 else j;
      assert g[i] == f[i'] && g[j] == f[j'];
    }
    forall j | h - 1 < j <= cur ensures comp(g[h - 1], g[j]) {
      assert j > h ==> g[j] == f[j];
    }
  }

  lemma SiftStep<T>(comp: (T, T) -> bool, s: seq<T>, f: seq<T>, begin: nat, cur: nat, h: nat)
    requires Sifting(comp, s, f, begin, cur, h) && begin < h && comp(f[h], f[h - 1])
    ensures Sifting(comp, s, Swapped(f, h - 1, h), begin, cur, h - 1)
  {
    hide Rearranged;
    SiftOrderStep(comp, f, Swapped(f, h - 1, h), begin, cur, h);
    SwappedRearranged(f, h - 1, h, begin, cur + 1);
    RearrangedTrans(s, f, Swapped(f, h - 1, h), begin, cur + 1);
    hide SiftOrder, Swapped;
  }

  lemma SiftEnd<T(!new)>(comp: (T, T) -> bool, s: seq<T>, f: seq<T>, begin: nat, cur: nat, h: nat)
    requires StrictWeak(comp) && Sifting(comp, s, f, begin, cur, h) && (h == begin || !comp(f[h], f[h - 1]))
    ensures Sorted(comp, f, begin, cur + 1) && Rearranged(s, f, begin, cur + 1)
  {
    hide StrictWeak;
    forall i, j | begin <= i < j < cur + 1 ensures !comp(f[j], f[i]) {
      if i == h {
        Asymmetric(comp, f[h], f[j]);
      } else if j == h && i < h - 1 {
        NotLessTrans(comp, f[i], f[h - 1], f[h]);
      }
    }
  }

  /** Moves element cur down to its place. Unguarded, the element before begin stops it. */
  method SiftDown<T(!new)>(a: array<T>, begin: nat, cur: nat, guarded: bool, comp: (T, T) -> bool) returns (sift: nat)
    requires StrictWeak(comp) && begin < cur < a.Length && Sorted(comp, a[..], begin, cur)
    requires guarded || (begin > 0 && !comp(a[cur], a[begin - 1]))
    modifies a
    ensures begin <= sift <= cur
    ensures !comp(old(a[cur]), old(a[cur - 1])) ==> sift == cur && a[..] == old(a[..])
    ensures Sorted(comp, a[..], begin, cur + 1) && Rearranged(old(a[..]), a[..], begin, cur + 1)
  {
    hide StrictWeak, Sorted, Sifting, Rearranged;
    ghost var s := a[..];
    SiftStart(comp, s, begin, cur);
    sift := cur;
    if comp(a[sift], a[sift - 1]) {
      var tmp := a[sift];
      ghost var f := s;
      while true
        invariant begin < sift <= cur && comp(tmp, a[sift - 1])
        invariant Sifting(comp, s, f, begin, cur, sift) && f == a[..][sift := tmp]
        invariant begin > 0 ==> a[begin - 1] == s[begin - 1]
        decreases sift
      {
        SiftStep(comp, s, f, begin, cur, sift);
        a[sift] := a[sift - 1];
        f := Swapped(f, sift - 1, sift);
        sift := sift - 1;
        assert f == a[..][sift := tmp];
        if (guarded && sift == begin) || !comp(tmp, a[sift - 1]) {
          break;
        }
      }
      SiftEnd(comp, s, f, begin, cur, sift);
      a[sift] := tmp;
      assert a[..] == f;
    } else {
      SiftEnd(comp, s, s, begin, cur, cur);
    }
  }

  /** insertion_sort and, with guarded false, unguarded_insertion_sort: the latter needs an element before begin that
      no element of the range is smaller than. */
  method InsertionSort<T(!new)>(a: array<T>, begin: nat, end: nat, guarded: bool, comp: (T, T) -> bool)
    requires StrictWeak(comp) && begin <= end <= a.Length
    requires guarded || (begin > 0 && NoneLess(comp, a[..], begin, end, a[begin - 1]))
    modifies a
    ensures Sorted(comp, a[..], begin, end) && Rearranged(old(a[..]), a[..], begin, end)
  {
    hide StrictWeak;
    if begin == end {
      return;
    }
    ghost var s := a[..];
    for cur := begin + 1 to end
      invariant Sorted(comp, a[..], begin, cur) && Rearranged(s, a[..], begin, end)
      invariant guarded || (a[begin - 1] == s[begin - 1] && NoneLess(comp, a[..], begin, end, a[begin - 1]))
    {
      ghost var t := a[..];
      var sift := SiftDown(a, begin, cur, guarded, comp);
      RearrangedWider(t, a[..], begin, cur + 1, begin, end);
      RearrangedTrans(s, t, a[..], begin, end);
      if !guarded {
        BoundsKept(comp, t, a[..], begin, end, begin, end, t[begin - 1]);
      }
    }
  }

  /** partial_insertion_sort: true only if the range is sorted; either way only rearranged, and a range that was sorted
      is found to be so without moving anything. */
  method PartialInsertionSort<T(!new)>(a: array<T>, begin: nat, end: nat, comp: (T, T) -> bool) returns (ok: bool)
    requires StrictWeak(comp) && begin <= end <= a.Length
    modifies a
    ensures Rearranged(old(a[..]), a[..], begin, end) && (ok ==> Sorted(comp, a[..], begin, end))
    ensures Sorted(comp, old(a[..]), begin, end) ==> ok && a[..] == old(a[..])
  {
    hide StrictWeak;
    if begin == end {
      return true;
    }
    ghost var s := a[..];
    var limit := 0;
    for cur := begin + 1 to end
      invariant Sorted(comp, a[..], begin, cur) && Rearranged(s, a[..], begin, end)
      invariant Sorted(comp, s, begin, end) ==> limit == 0 && a[..] == s
    {
      ghost var t := a[..];
      var sift := SiftDown(a, begin, cur, true, comp);
      RearrangedWider(t, a[..], begin, cur + 1, begin, end);
      RearrangedTrans(s, t, a[..], begin, end);
      limit := limit + (cur - sift);
      if limit > PARTIAL_INSERTION_SORT_LIMIT {
        return false;
      }
    }
    ok := true;
  }

  method Swap<T>(a: array<T>, i: nat, j: nat)
    requires i < a.Length && j < a.Length
    modifies a
    ensures a[..] == Swapped(old(a[..]), i, j)
  {
    a[i], a[j] := a[j], a[i];
  }

  /** sort2: the smaller one first. */
  method Sort2<T(!new)>(a: array<T>, i: nat, j: nat, lo: nat, hi: nat, comp: (T, T) -> bool)
    requires StrictWeak(comp) && lo <= i < hi <= a.Length && lo <= j < hi && i != j
    modifies a
    ensures Rearranged(old(a[..]), a[..], lo, hi) && !comp(a[j], a[i])
    ensures if comp(old(a[j]), old(a[i])) then a[i] == old(a[j]) && a[j] == old(a[i])
            else a[i] == old(a[i]) && a[j] == old(a[j])
    ensures forall m :: 0 <= m < a.Length && m != i && m != j ==> a[m] == old(a[m])
  {
    hide StrictWeak, Rearranged;
    ghost var s := a[..];
    SwappedRearranged(s, i, j, lo, hi);
    SwappedRearranged(s, i, i, lo, hi);
    if comp(a[j], a[i]) {
      Asymmetric(comp, a[j], a[i]);
      Swap(a, i, j);
    } else {
      assert Swapped(s, i, i) == s;
    }
  }

  /** sort3: the three elements end up in order; all others stay. */
  method Sort3<T(!new)>(a: array<T>, i: nat, j: nat, k: nat, lo: nat, hi: nat, comp: (T, T) -> bool)
    requires StrictWeak(comp) && i != j && i != k && j != k
    requires lo <= i < hi && lo <= j < hi && lo <= k < hi <= a.Length
    modifies a
    ensures !comp(a[j], a[i]) && !comp(a[k], a[j]) && Rearranged(old(a[..]), a[..], lo, hi)
    ensures forall m :: 0 <= m < a.Length && m != i && m != j && m != k ==> a[m] == old(a[m])
  {
    hide StrictWeak, Rearranged;
    ghost var s := a[..];
    Sort2(a, i, j, lo, hi, comp);
    ghost var t := a[..];
    Sort2(a, j, k, lo, hi, comp);
    ghost var u := a[..];
    RearrangedTrans(s, t, u, lo, hi);
    if !comp(u[j], u[i]) {
      NotLessTrans(comp, u[i], u[j], u[k]);
    }
    Sort2(a, i, j, lo, hi, comp);
    RearrangedTrans(s, u, a[..], lo, hi);
  }
}
