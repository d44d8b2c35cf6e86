/** The usage of a memory pool at a time, told from the events alone, and what the plot shows of it: at every time the
    last point not later is right whatever the order of simultaneous changes, and the lowest point of a time is
    known. */
module MemoryUsage {
  import opened MemoryEvents
  import opened MemoryOrder

  predicate FreedBy(e: MemEvent, t: int) {
    IsFreed(e) && e.timeFree <= t
  }

  /** The size of all events in use at time t, after everything that happens then. */
  function InUse(data: seq<MemEvent>, t: int): (n: nat) {
    if data == [] then 0
    else
      var e := data[|data| - 1];
      InUse(data[..|data| - 1], t) + if e.timeAlloc <= t && !FreedBy(e, t) then e.size else 0
  }

  /** The size of the events allocated before time t and not freed by then. */
  function Standing(data: seq<MemEvent>, t: int): (n: nat) {
    if data == [] then 0
    else
      var e := data[|data| - 1];
      Standing(data[..|data| - 1], t) + if e.timeAlloc < t && !FreedBy(e, t) then e.size else 0
  }

  /** The size of the events allocated and freed at time t. */
  function Brief(data: seq<MemEvent>, t: int): (n: nat) {
    if data == [] then 0
    else
      var e := data[|data| - 1];
      Brief(data[..|data| - 1], t) + if e.timeAlloc == t && IsFreed(e) && e.timeFree == t then e.size else 0
  }

  // ---- usage after a part of the changes -------------------------------------------------------------------

  /** An order of exactly the changes the events have been through. */
  ghost predicate Complete(data: seq<MemEvent>, order: seq<Change>) {
    Indexed(data, order) && (forall i, j :: 0 <= i < j < |order| ==> order[i] != order[j]) &&
    forall i :: 0 <= i < |data| ==> Alloc(i) in order && (Free(i) in order <==> IsFreed(data[i]))
  }

  function Share(e: MemEvent, alloc: bool, free: bool): int {
    (if alloc then e.size else 0) - if free then e.size else 0
  }

  /** What the changes come to, event by event. */
  ghost function Taken(data: seq<MemEvent>, order: seq<Change>): int {
    if data == [] then 0
    else
      var n := |data| - 1;
      Taken(data[..n], order) + Share(data[n], Alloc(n) in order, Free(n) in order)
  }

  lemma {:induction false} TakenNone(data: seq<MemEvent>)
    ensures Taken(data, []) == 0
    decreases |data|
  {
    if data != [] {
      TakenNone(data[..|data| - 1]);
    }
  }

  lemma {:induction false} TakenSnoc(data: seq<MemEvent>, order: seq<Change>, c: Change)
    requires c !in order
    ensures Taken(data, order + [c]) == Taken(data, order) + if c.idx < |data| then Delta(data, c) else 0
    decreases |data|
  {
    if data != [] {
      var n := |data| - 1;
      TakenSnoc(data[..n], order, c);
      assert forall d :: d in order + [c] <==> d in order || d == c;
    }
  }

  lemma {:induction false} UsageIsTaken(data: seq<MemEvent>, order: seq<Change>)
    requires Indexed(data, order) && forall i, j :: 0 <= i < j < |order| ==> order[i] != order[j]
    ensures UsageAfter(data, order) == Taken(data, order)
    decreases |order|
  {
    if order == [] {
      TakenNone(data);
    } else {
      var n := |order| - 1;
      hide Taken;
      UsageIsTaken(data, order[..n]);
      assert order == order[..n] + [order[n]];
      TakenSnoc(data, order[..n], order[n]);
    }
  }

  lemma {:induction false} TakenInUse(data: seq<MemEvent>, order: seq<Change>, t: int)
    requires Consistent(data)
    requires forall i :: 0 <= i < |data| ==>
      (Alloc(i) in order <==> data[i].timeAlloc <= t) && (Free(i) in order <==> FreedBy(data[i], t))
    ensures Taken(data, order) == InUse(data, t)
    decreases |data|
  {
    if data != [] {
      TakenInUse(data[..|data| - 1], order, t);
    }
  }

  lemma {:induction false} TakenAtLeast(data: seq<MemEvent>, order: seq<Change>, t: int)
    requires Consistent(data)
    requires forall i :: 0 <= i < |data| ==>
      (data[i].timeAlloc < t ==> Alloc(i) in order) && (Free(i) in order ==> FreedBy(data[i], t))
    requires forall i :: 0 <= i < |data| && Free(i) in order ==> IsFreed(data[i])
    ensures Taken(data, order) >= Standing(data, t) - Brief(data, t)
    ensures (forall i :: 0 <= i < |data| ==>
               (Alloc(i) in order ==> data[i].timeAlloc < t) && (FreedBy(data[i], t) ==> Free(i) in order)) ==>
            Taken(data, order) == Standing(data, t) - Brief(data, t)
    decreases |data|
  {
    if data != [] {
      TakenAtLeast(data[..|data| - 1], order, t);
    }
  }

  // ---- the plot as steps -----------------------------------------------------------------------------------

  /** What a plot shows at time t: its last point not later. */
  function Shown(plot: seq<Point>, t: int): (v: int) {
    if plot == [] then 0
    else if plot[|plot| - 1].time <= t then plot[|plot| - 1].val
    else Shown(plot[..|plot| - 1], t)
  }

  /** The changes up to time t are the first k. */
  ghost predicate Split(data: seq<MemEvent>, order: seq<Change>, t: int, k: nat) {
    Indexed(data, order) && k <= |order| &&
    (forall i :: 0 <= i < k ==> TimeOf(data, order[i]) <= t) &&
    forall i :: k <= i < |order| ==> TimeOf(data, order[i]) > t
  }

  lemma {:induction false} FindSplit(data: seq<MemEvent>, order: seq<Change>, t: int, k0: nat) returns (k: nat)
    requires Indexed(data, order) && NotFalling(data, order) && k0 <= |order|
    requires forall i :: k0 <= i < |order| ==> TimeOf(data, order[i]) > t
    ensures Split(data, order, t, k)
    decreases k0
  {
    if k0 > 0 && TimeOf(data, order[k0 - 1]) > t {
      k := FindSplit(data, order, t, k0 - 1);
    } else {
      k := k0;
    }
  }

  lemma InPrefix(order: seq<Change>, c: Change, k: nat)
    requires k <= |order|
    ensures c in order[..k] <==> exists i :: 0 <= i < k && order[i] == c
  {
  }

  /** A part of the changes that is exactly those up to time t leaves the usage of time t. */
  lemma SplitUsage(data: seq<MemEvent>, order: seq<Change>, t: int, k: nat)
    requires Complete(data, order) && Consistent(data) && Split(data, order, t, k)
    ensures UsageAfter(data, order[..k]) == InUse(data, t)
  {
    hide InUse, UsageAfter, Taken;
    forall i | 0 <= i < |data|
      ensures Alloc(i) in order[..k] <==> data[i].timeAlloc <= t
      ensures Free(i) in order[..k] <==> FreedBy(data[i], t)
    {
      InPrefix(order, Alloc(i), k);
      InPrefix(order, Free(i), k);
    }
    UsageIsTaken(data, order[..k]);
    TakenInUse(data, order[..k], t);
  }

  lemma {:induction false} ShownUsage(data: seq<MemEvent>, order: seq<Change>, first: int, t: int, k: nat, l: nat)
    requires Indexed(data, order) && Split(data, order, t, k) && k <= l <= |order|
    ensures Shown([Point(first, 0)] + Points(data, order[..l]), t) == UsageAfter(data, order[..k])
    decreases l
  {
    hide Points;
    PointsLength(data, order[..l]);
    var plot := [Point(first, 0)] + Points(data, order[..l]);
    if l == 0 {
      assert plot == [Point(first, 0)] && plot[..0] == [];
    } else {
      PointAt(data, order[..l], l - 1);
      assert order[..l][..l] == order[..l] && order[..l][..l - 1] == order[..l - 1];
      if k < l {
        ShownUsage(data, order, first, t, k, l - 1);
        PointsFront(data, order[..l]);
        assert plot[..l] == [Point(first, 0)] + Points(data, order[..l - 1]);
      }
    }
  }

  lemma PointsFront(data: seq<MemEvent>, order: seq<Change>)
    requires Indexed(data, order) && order != []
    ensures |Points(data, order)| == |order| && Points(data, order)[..|order| - 1] == Points(data, order[..|order| - 1])
  {
    PointsLength(data, order);
    PointsLength(data, order[..|order| - 1]);
  }

  /** At every time the plot shows the usage, whichever of simultaneous changes it takes first. */
  lemma ShowsUsage(data: seq<MemEvent>, order: seq<Change>, first: int, t: int)
    requires Complete(data, order) && Consistent(data) && NotFalling(data, order)
    ensures Shown([Point(first, 0)] + Points(data, order), t) == InUse(data, t)
  {
    hide InUse, Shown, Points, UsageAfter;
    var k := FindSplit(data, order, t, |order|);
    SplitUsage(data, order, t, k);
    ShownUsage(data, order, first, t, k, |order|);
    assert order[..|order|] == order;
  }

  // ---- negative points -------------------------------------------------------------------------------------

  /** The changes before time t and the frees at it are the first k. */
  ghost predicate SplitLow(data: seq<MemEvent>, order: seq<Change>, t: int, k: nat) {
    Indexed(data, order) && k <= |order| &&
    (forall i :: 0 <= i < k ==> Early(data, order[i], t)) && forall i :: k <= i < |order| ==> !Early(data, order[i], t)
  }

  predicate Early(data: seq<MemEvent>, c: Change, t: int)
    requires c.idx < |data|
  {
    TimeOf(data, c) < t || (TimeOf(data, c) == t && c.Free?)
  }

  lemma {:induction false} FindSplitLow(data: seq<MemEvent>, order: seq<Change>, t: int, k0: nat) returns (k: nat)
    requires FreesFirst(data, order) && k0 <= |order|
    requires forall i :: k0 <= i < |order| ==> !Early(data, order[i], t)
    ensures SplitLow(data, order, t, k)
    decreases k0
  {
    if k0 > 0 && !Early(data, order[k0 - 1], t) {
      k := FindSplitLow(data, order, t, k0 - 1);
    } else {
      k := k0;
      if k > 0 {
        forall i | 0 <= i < k ensures Early(data, order[i], t) {
          assert i < k - 1 ==> MayPrecede(data, order[i], order[k - 1]);
        }
      }
    }
  }

  /** The usage after the frees of time t, which is the lowest of that time. */
  lemma LowestUsage(data: seq<MemEvent>, order: seq<Change>, t: int, k: nat)
    requires Complete(data, order) && Consistent(data) && SplitLow(data, order, t, k)
    ensures UsageAfter(data, order[..k]) == Standing(data, t) - Brief(data, t)
  {
    hide Standing, Brief, UsageAfter, Taken;
    forall i | 0 <= i < |data|
      ensures Alloc(i) in order[..k] <==> data[i].timeAlloc < t
      ensures Free(i) in order[..k] <==> FreedBy(data[i], t)
    {
      InPrefix(order, Alloc(i), k);
      InPrefix(order, Free(i), k);
    }
    UsageIsTaken(data, order[..k]);
    TakenAtLeast(data, order[..k], t);
  }

  /** No point of a time is lower. */
  lemma UsageAtLeast(data: seq<MemEvent>, order: seq<Change>, k: nat)
    requires Complete(data, order) && Consistent(data) && FreesFirst(data, order) && k < |order|
    ensures ghost var t := TimeOf(data, order[k]);
      UsageAfter(data, order[..k + 1]) >= Standing(data, t) - Brief(data, t)
  {
    hide Standing, Brief, UsageAfter, Taken;
    var t := TimeOf(data, order[k]);
    forall i | 0 <= i < |data|
      ensures data[i].timeAlloc < t ==> Alloc(i) in order[..k + 1]
      ensures Free(i) in order[..k + 1] ==> FreedBy(data[i], t)
    {
      InPrefix(order, Alloc(i), k + 1);
      InPrefix(order, Free(i), k + 1);
      assert forall j :: k < j < |order| ==> MayPrecede(data, order[k], order[j]);
      assert forall j :: 0 <= j < k ==> MayPrecede(data, order[j], order[k]);
    }
    UsageIsTaken(data, order[..k + 1]);
    TakenAtLeast(data, order[..k + 1], t);
  }

  /** Whatever is freed at the time of its allocation is covered by what stands. */
  ghost predicate Covered(data: seq<MemEvent>) {
    forall t :: Brief(data, t) <= Standing(data, t)
  }

  /** The rebuilt plot is never negative exactly if at every time the events allocated and freed at that time are no
      larger than those allocated before and not freed by then. */
  lemma NeverNegative(data: seq<MemEvent>, order: seq<Change>, first: int)
    requires Complete(data, order) && Consistent(data) && FreesFirst(data, order)
    ensures ghost var plot := [Point(first, 0)] + Points(data, order);
      (forall k :: 0 <= k < |plot| ==> plot[k].val >= 0) <==> Covered(data)
  {
    hide Standing, Brief, UsageAfter, Points, Complete, Consistent, FreesFirst;
    OrderedIndexed(data, order);
    var plot := [Point(first, 0)] + Points(data, order);
    PointsLength(data, order);
    if Covered(data) {
      forall k | 0 <= k < |plot| ensures plot[k].val >= 0 {
        if k > 0 {
          PointAt(data, order, k - 1);
          UsageAtLeast(data, order, k - 1);
          var t := TimeOf(data, order[k - 1]);
          assert Brief(data, t) <= Standing(data, t);
        }
      }
    }
    if forall k :: 0 <= k < |plot| ==> plot[k].val >= 0 {
      forall t ensures Brief(data, t) <= Standing(data, t) {
        var k := FindSplitLow(data, order, t, |order|);
        LowestUsage(data, order, t, k);
        if k > 0 {
          PointAt(data, order, k - 1);
          assert plot[k].val >= 0;
        } else {
          NoUsage(data, order);
        }
      }
    }
  }

  /** An event freed at the same time is no cover, although it was in use until then. */
  lemma {:induction false} NoCoverFromFreed()
    ensures ghost var data := [MemEvent(1, 5, 1, 2), MemEvent(2, 3, 2, 2)];
      InUse(data, 1) == 5 && Brief(data, 2) == 3 && Standing(data, 2) == 0 && !Covered(data)
  {
    var data := [MemEvent(1, 5, 1, 2), MemEvent(2, 3, 2, 2)];
    assert data[..1] == [data[0]] && data[..1][..0] == [];
    assert Brief(data[..1], 2) == 0 && Standing(data[..1], 2) == 0 && InUse(data[..1], 1) == 5;
    assert Brief(data, 2) > Standing(data, 2);
  }

  lemma NoUsage(data: seq<MemEvent>, order: seq<Change>)
    ensures Indexed(data, order[..0]) && UsageAfter(data, order[..0]) == 0
  {
  }

  lemma OrderedIndexed(data: seq<MemEvent>, order: seq<Change>)
    requires FreesFirst(data, order)
    ensures Indexed(data, order)
  {
  }
}
