/** The usage plot rebuilt from a loaded pool: its allocations and its frees, sorted by time, are merged. */
module MemoryPlot {
  import opened MemoryEvents
  import opened MemoryOrder
  import opened MemoryUsage
  import opened SortRanges
  import Pdqsort

  // ---- sorting the frees -----------------------------------------------------------------------------------

  function FreeTime(data: seq<MemEvent>, i: nat): int {
    if i < |data| then data[i].timeFree else 0
  }

  function ByFreeTime(data: seq<MemEvent>): (nat, nat) -> bool {
    (x: nat, y: nat) => FreeTime(data, x) < FreeTime(data, y)
  }

  ghost predicate Rising(data: seq<MemEvent>, frees: seq<nat>) {
    (forall i :: 0 <= i < |frees| ==> frees[i] < |data|) &&
    forall i, j :: 0 <= i < j < |frees| ==> data[frees[i]].timeFree <= data[frees[j]].timeFree
  }

  lemma SortedRising(data: seq<MemEvent>, t: seq<nat>)
    requires Sorted(ByFreeTime(data), t, 0, |t|) && forall i :: 0 <= i < |t| ==> t[i] < |data|
    ensures Rising(data, t)
  {
    var comp := ByFreeTime(data);
    forall i, j | 0 <= i < j < |t| ensures data[t[i]].timeFree <= data[t[j]].timeFree {
      assert !comp(t[j], t[i]);
    }
  }

  /** The sort at the start of ReconstructMemAllocPlot: by the time of the free, ties in any order. */
  method SortFrees(data: seq<MemEvent>, frees0: seq<nat>) returns (frees: seq<nat>)
    requires forall i :: 0 <= i < |frees0| ==> frees0[i] < |data|
    ensures Rising(data, frees) && multiset(frees) == multiset(frees0) && |frees| == |frees0|
  {
    var comp := ByFreeTime(data);
    var a := new nat[|frees0|](i requires 0 <= i < |frees0| => frees0[i]);
    assert a[..] == frees0;
    assert StrictWeak(comp);
    Pdqsort.Sort(a, 0, a.Length, comp, false);
    frees := a[..];
    assert multiset(frees) == multiset(frees0);
    assert |multiset(frees)| == |frees| && |multiset(frees0)| == |frees0|;
    forall i | 0 <= i < |frees| ensures frees[i] < |data| {
      assert frees[i] in multiset(frees0);
    }
    SortedRising(data, frees);
  }

  // ---- merging ---------------------------------------------------------------------------------------------

  function UpTo(n: nat): (r: seq<nat>) {
    seq(n, i requires 0 <= i < n => i)
  }

  lemma UpToMore(n: nat)
    ensures UpTo(n + 1) == UpTo(n) + [n] && UpTo(0) == []
  {
  }

  /** After ai allocations and fi frees the changes taken are in order, and none must come after one still to be
      taken. */
  ghost predicate Merging(data: seq<MemEvent>, frees: seq<nat>, ai: nat, fi: nat, order: seq<Change>) {
    FreesFirst(data, order) && ai <= |data| && fi <= |frees| && Allocs(order) == UpTo(ai) &&
      Frees(order) == frees[..fi] &&
    |order| == ai + fi && (forall i :: 0 <= i < |frees| ==> frees[i] < |data|) &&
    forall i :: 0 <= i < |order| ==>
      (ai < |data| ==> MayPrecede(data, order[i], Alloc(ai))) &&
        (fi < |frees| ==> MayPrecede(data, order[i], Free(frees[fi])))
  }

  ghost predicate AllocsRising(data: seq<MemEvent>) {
    forall i, j :: 0 <= i < j < |data| ==> data[i].timeAlloc <= data[j].timeAlloc
  }

  lemma MergingNone(data: seq<MemEvent>, frees: seq<nat>)
    requires Rising(data, frees)
    ensures Merging(data, frees, 0, 0, [])
  {
  }

  lemma MergingBounds(data: seq<MemEvent>, frees: seq<nat>, ai: nat, fi: nat, order: seq<Change>)
    requires Merging(data, frees, ai, fi, order)
    ensures Indexed(data, order) && |order| == ai + fi && ai <= |data| && fi <= |frees|
    ensures forall i :: 0 <= i < |frees| ==> frees[i] < |data|
  {
  }

  lemma OrderedMore(data: seq<MemEvent>, order: seq<Change>, c: Change)
    requires FreesFirst(data, order) && c.idx < |data| && forall i :: 0 <= i < |order| ==> MayPrecede(data, order[i], c)
    ensures FreesFirst(data, order + [c])
  {
  }

  lemma TakeAlloc(data: seq<MemEvent>, frees: seq<nat>, ai: nat, fi: nat, order: seq<Change>)
    requires Merging(data, frees, ai, fi, order) && Rising(data, frees) && AllocsRising(data) && ai < |data|
    requires fi == |frees| || data[ai].timeAlloc < data[frees[fi]].timeFree
    ensures Merging(data, frees, ai + 1, fi, order + [Alloc(ai)])
  {
    hide Allocs, Frees;
    OrderedMore(data, order, Alloc(ai));
    ProjectionsSnoc(order, Alloc(ai));
    UpToMore(ai);
  }

  lemma TakeFree(data: seq<MemEvent>, frees: seq<nat>, ai: nat, fi: nat, order: seq<Change>)
    requires Merging(data, frees, ai, fi, order) && Rising(data, frees) && AllocsRising(data) && fi < |frees|
    requires ai == |data| || data[frees[fi]].timeFree <= data[ai].timeAlloc
    ensures Merging(data, frees, ai, fi + 1, order + [Free(frees[fi])])
  {
    hide Allocs, Frees;
    OrderedMore(data, order, Free(frees[fi]));
    ProjectionsSnoc(order, Free(frees[fi]));
    assert frees[..fi + 1] == frees[..fi] + [frees[fi]];
  }

  /** The points of the changes taken so far are drawn. */
  ghost predicate Drawn(data: seq<MemEvent>, order: seq<Change>, first: int, plot: seq<Point>, usage: int) {
    Indexed(data, order) && |order| < |plot| && usage == UsageAfter(data, order) &&
    plot[..|order| + 1] == [Point(first, 0)] + Points(data, order)
  }

  lemma DrawnNone(data: seq<MemEvent>, first: int, plot: seq<Point>)
    requires plot != [] && plot[0] == Point(first, 0)
    ensures Drawn(data, [], first, plot, 0)
  {
    assert plot[..1] == [plot[0]];
  }

  lemma DrawnMore(data: seq<MemEvent>, order: seq<Change>, first: int, plot: seq<Point>, usage: int, c: Change)
    requires Drawn(data, order, first, plot, usage) && c.idx < |data| && |order| + 1 < |plot|
    ensures ghost var u := usage + Delta(data, c);
      Drawn(data, order + [c], first, plot[|order| + 1 := Point(TimeOf(data, c), u)], u)
  {
    hide Points, UsageAfter;
    var k := |order|;
    PointsSnoc(data, order, c);
    var next := plot[k + 1 := Point(TimeOf(data, c), usage + Delta(data, c))];
    Associate(Point(first, 0), Points(data, order), next[k + 1]);
    assert next[..k + 2] == plot[..k + 1] + [next[k + 1]];
  }

  lemma DrawnAll(data: seq<MemEvent>, order: seq<Change>, first: int, plot: seq<Point>, usage: int)
    requires Drawn(data, order, first, plot, usage) && |plot| == |order| + 1
    ensures Indexed(data, order) && plot == [Point(first, 0)] + Points(data, order)
  {
    assert plot[..|order| + 1] == plot;
  }

  /** ReconstructMemAllocPlot: one point for each allocation and each free and one more, in the order of time with the
      frees of a time before its allocations. Nothing is asked of the events but that they are in the order they were
      allocated in. */
  method ReconstructMemAllocPlot(data: seq<MemEvent>, frees0: seq<nat>, first: int)
    returns (plot: array<Point>, ghost order: seq<Change>)
    requires AllocsRising(data) && forall i :: 0 <= i < |frees0| ==> frees0[i] < |data|
    ensures fresh(plot) && plot.Length == |data| + |frees0| + 1
    ensures FreesFirst(data, order) && Allocs(order) == UpTo(|data|) && multiset(Frees(order)) == multiset(frees0)
    ensures plot[..] == [Point(first, 0)] + Points(data, order)
  {
    hide Merging, Drawn, Points, UsageAfter, Allocs, Frees, Rising, AllocsRising, FreesFirst;
    var frees := SortFrees(data, frees0);
    order := [];
    MergingNone(data, frees);
    MergingBounds(data, frees, 0, 0, order);
    plot := new Point[|data| + |frees| + 1](_ => Point(first, 0));
    var ai, fi, usage, at := 0, 0, 0, 1;
    DrawnNone(data, first, plot[..]);
    if ai != |data| && fi != |frees| {
      while true
        invariant 0 <= ai < |data| && 0 <= fi < |frees| && at == ai + fi + 1 == |order| + 1
        invariant Merging(data, frees, ai, fi, order) && Drawn(data, order, first, plot[..], usage)
        decreases |data| + |frees| - ai - fi
      {
        if data[ai].timeAlloc < data[frees[fi]].timeFree {
          TakeAlloc(data, frees, ai, fi, order);
          DrawnMore(data, order, first, plot[..], usage, Alloc(ai));
          order := order + [Alloc(ai)];
          usage := usage + data[ai].size;
          PutPoint(plot, at, Point(data[ai].timeAlloc, usage));
          at, ai := at + 1, ai + 1;
          if ai == |data| {
            break;
          }
        } else {
          TakeFree(data, frees, ai, fi, order);
          DrawnMore(data, order, first, plot[..], usage, Free(frees[fi]));
          order := order + [Free(frees[fi])];
          usage := usage - data[frees[fi]].size;
          PutPoint(plot, at, Point(data[frees[fi]].timeFree, usage));
          at, fi := at + 1, fi + 1;
          if fi == |frees| {
            break;
          }
        }
      }
    }
    while ai != |data|
      invariant 0 <= ai <= |data| && 0 <= fi <= |frees| && at == ai + fi + 1 == |order| + 1 &&
        (ai == |data| || fi == |frees|)
      invariant Merging(data, frees, ai, fi, order) && Drawn(data, order, first, plot[..], usage)
      decreases |data| - ai
    {
      TakeAlloc(data, frees, ai, fi, order);
      DrawnMore(data, order, first, plot[..], usage, Alloc(ai));
      order := order + [Alloc(ai)];
      usage := usage + data[ai].size;
      PutPoint(plot, at, Point(data[ai].timeAlloc, usage));
      at, ai := at + 1, ai + 1;
    }
    while fi != |frees|
      invariant 0 <= fi <= |frees| && ai == |data| && at == ai + fi + 1 == |order| + 1
      invariant Merging(data, frees, ai, fi, order) && Drawn(data, order, first, plot[..], usage)
      decreases |frees| - fi
    {
      TakeFree(data, frees, ai, fi, order);
      DrawnMore(data, order, first, plot[..], usage, Free(frees[fi]));
      order := order + [Free(frees[fi])];
      usage := usage - data[frees[fi]].size;
      PutPoint(plot, at, Point(data[frees[fi]].timeFree, usage));
      at, fi := at + 1, fi + 1;
    }
    DrawnAll(data, order, first, plot[..], usage);
    MergedAll(data, frees, order);
  }

  method PutPoint(plot: array<Point>, at: nat, p: Point)
    requires at < plot.Length
    modifies plot
    ensures plot[..] == old(plot[..])[at := p]
  {
    plot[at] := p;
  }

  lemma MergedAll(data: seq<MemEvent>, frees: seq<nat>, order: seq<Change>)
    requires Merging(data, frees, |data|, |frees|, order)
    ensures FreesFirst(data, order) && Allocs(order) == UpTo(|data|) && Frees(order) == frees
  {
    assert frees[..|frees|] == frees;
  }

  // ---- what it means for a pool ----------------------------------------------------------------------------

  lemma {:induction false} NoRepeats<T>(s: seq<T>)
    requires forall x :: multiset(s)[x] <= 1
    ensures forall i, j :: 0 <= i < j < |s| ==> s[i] != s[j]
    decreases |s|
  {
    if s != [] {
      var n := |s| - 1;
      assert s == s[..n] + [s[n]];
      assert forall x :: multiset(s)[x] == multiset(s[..n])[x] + if x == s[n] then 1 else 0;
      NoRepeats(s[..n]);
      forall i | 0 <= i < n ensures s[i] != s[n] {
        assert s[..n][i] in multiset(s[..n]);
      }
    }
  }

  lemma {:induction false} Repeats<T>(s: seq<T>, x: T)
    requires forall i, j :: 0 <= i < j < |s| ==> s[i] != s[j]
    ensures multiset(s)[x] <= 1
    decreases |s|
  {
    if s != [] {
      var n := |s| - 1;
      assert s == s[..n] + [s[n]];
      Repeats(s[..n], x);
    }
  }

  lemma CompleteHistory(data: seq<MemEvent>, frees: seq<nat>, active: map<nat, nat>, usage: int, hist: seq<Change>)
    requires PoolOk(data, frees, active, usage) && HistOk(data, frees, usage, hist)
    ensures Complete(data, hist) && Allocs(hist) == UpTo(|data|)
    ensures forall i :: 0 <= i < |frees| ==> frees[i] < |data|
  {
    hide ActiveSize, UsageAfter, Allocs, Frees;
    forall c: Change ensures multiset(hist)[c] <= 1 {
      Multiplicities(hist, c.idx);
      Repeats(Allocs(hist), c.idx);
      Repeats(frees, c.idx);
    }
    NoRepeats(hist);
    forall i | 0 <= i < |data| ensures Alloc(i) in hist && (Free(i) in hist <==> IsFreed(data[i])) {
      Multiplicities(hist, i);
      assert Allocs(hist)[i] == i;
      assert Alloc(i) in multiset(hist) <==> i in multiset(Allocs(hist));
      assert Free(i) in multiset(hist) <==> i in multiset(frees);
    }
  }

  lemma CompleteOrder(data: seq<MemEvent>, hist: seq<Change>, order: seq<Change>)
    requires Complete(data, hist) && multiset(order) == multiset(hist)
    ensures Complete(data, order)
  {
    forall c: Change ensures multiset(order)[c] <= 1 {
      Repeats(hist, c);
    }
    NoRepeats(order);
    forall c: Change ensures c in order <==> c in hist {
      assert c in multiset(order) <==> c in multiset(hist);
    }
    forall i | 0 <= i < |order| ensures order[i].idx < |data| {
      assert order[i] in order;
    }
    forall i | 0 <= i < |data| ensures Alloc(i) in order && (Free(i) in order <==> IsFreed(data[i])) {
      assert Alloc(i) in hist && (Free(i) in hist <==> IsFreed(data[i]));
    }
  }

  lemma PoolOrder(pool: MemoryPool, order: seq<Change>)
    requires pool.Valid() && FreesFirst(pool.data, order)
    requires Allocs(order) == UpTo(|pool.data|) && multiset(Frees(order)) == multiset(pool.frees)
    ensures PlotOrder(pool.data, pool.hist, order) && Complete(pool.data, pool.hist) && Complete(pool.data, order)
    ensures Consistent(pool.data) && NotFalling(pool.data, pool.hist) && NotFalling(pool.data, order)
  {
    hide Allocs, Frees, ActiveSize, UsageAfter, Points;
    CompleteHistory(pool.data, pool.frees, pool.active, pool.usage, pool.hist);
    SameChanges(pool.hist, order);
    CompleteOrder(pool.data, pool.hist, order);
  }

  /** The plot rebuilt from a pool shows the usage at every time, as the live plot does. It is never negative exactly
      if at every time what is allocated and freed then is covered by what stands, and it is the live plot if ties
      match. */
  method RebuildPlot(pool: MemoryPool) returns (plot: array<Point>, ghost order: seq<Change>)
    requires pool.Valid()
    ensures PlotOrder(pool.data, pool.hist, order) && Indexed(pool.data, order) && Indexed(pool.data, pool.hist)
    ensures plot[..] == [Point(pool.firstTime, 0)] + Points(pool.data, order)
    ensures plot.Length == |pool.data| + |pool.frees| + 1
    ensures forall t :: Shown(plot[..], t) == InUse(pool.data, t) == Shown(pool.plot, t)
    ensures (forall k :: 0 <= k < plot.Length ==> plot[k].val >= 0) <==> Covered(pool.data)
    ensures pool.hist != [] && TiesMatch(pool.data, pool.hist) ==> plot[..] == pool.plot
  {
    hide Points, UsageAfter, Allocs, Frees, FreesFirst, PlotOrder, Shown, InUse, Complete, Consistent, NotFalling,
      TiesMatch, Covered;
    PoolBounds(pool);
    plot, order := ReconstructMemAllocPlot(pool.data, pool.frees, pool.firstTime);
    PoolOrder(pool, order);
    NeverNegative(pool.data, order, pool.firstTime);
    OrderIndexed(pool.data, pool.hist, order);
    forall t ensures Shown(plot[..], t) == InUse(pool.data, t) == Shown(pool.plot, t) {
      ShowsUsage(pool.data, order, pool.firstTime, t);
      LiveShows(pool, t);
    }
    if pool.hist != [] && TiesMatch(pool.data, pool.hist) {
      OrdersAgree(pool.data, pool.hist, order);
      LivePlot(pool);
    }
  }

  lemma PoolBounds(pool: MemoryPool)
    requires pool.Valid()
    ensures AllocsRising(pool.data) && Indexed(pool.data, pool.hist)
    ensures forall i :: 0 <= i < |pool.frees| ==> pool.frees[i] < |pool.data|
  {
    hide ActiveSize, UsageAfter, Points, Allocs, Frees;
  }

  lemma LivePlot(pool: MemoryPool)
    requires pool.Valid()
    ensures Indexed(pool.data, pool.hist)
    ensures pool.plot == if pool.hist == [] then [] else [Point(pool.firstTime, 0)] + Points(pool.data, pool.hist)
  {
    hide ActiveSize, UsageAfter, Points, Allocs, Frees;
  }

  lemma LiveShows(pool: MemoryPool, t: int)
    requires pool.Valid() && Complete(pool.data, pool.hist) && Consistent(pool.data)
    ensures Shown(pool.plot, t) == InUse(pool.data, t)
  {
    hide ActiveSize, UsageAfter, Allocs, Frees, Complete, Consistent, NotFalling;
    LivePlot(pool);
    LiveNotFalling(pool);
    ShowsUsage(pool.data, pool.hist, pool.firstTime, t);
    if pool.hist == [] {
      PointsNone(pool.data);
      ShownFirst(Point(pool.firstTime, 0), t);
      assert [Point(pool.firstTime, 0)] + Points(pool.data, []) == [Point(pool.firstTime, 0)];
    }
  }

  lemma LiveNotFalling(pool: MemoryPool)
    requires pool.Valid()
    ensures Indexed(pool.data, pool.hist) && NotFalling(pool.data, pool.hist)
  {
    hide ActiveSize, UsageAfter, Points, Allocs, Frees;
  }

  lemma ShownFirst(p: Point, t: int)
    requires p.val == 0
    ensures Shown([p], t) == 0 == Shown([], t)
  {
    assert [p][..0] == [];
  }

  // ---- special cases ---------------------------------------------------------------------------------------

  /** Changes in time leave no doubt: ties match. */
  lemma InTimeMatches(data: seq<MemEvent>, hist: seq<Change>)
    requires Indexed(data, hist) && InTime(data, hist)
    ensures NotFalling(data, hist) && TiesMatch(data, hist)
  {
  }

  /** Changes at times that all differ are in time. */
  lemma DistinctTimes(data: seq<MemEvent>, hist: seq<Change>)
    requires Indexed(data, hist)
    requires forall i, j :: 0 <= i < j < |hist| ==>
      TimeOf(data, hist[i]) <= TimeOf(data, hist[j]) && TimeOf(data, hist[i]) != TimeOf(data, hist[j])
    ensures InTime(data, hist)
  {
  }

  /** With sizes above zero and no two frees at one time, ties match exactly if the changes are in time. */
  lemma InTimeIsNeeded(data: seq<MemEvent>, hist: seq<Change>)
    requires Indexed(data, hist) && NotFalling(data, hist) && forall i :: 0 <= i < |hist| ==> data[hist[i].idx].size > 0
    requires forall i, j :: 0 <= i < j < |hist| && hist[i].Free? && hist[j].Free? ==>
      TimeOf(data, hist[i]) != TimeOf(data, hist[j])
    ensures TiesMatch(data, hist) <==> InTime(data, hist)
  {
  }

  /** All frees of a discard have one effect on usage, and so has what happened before at the same time. */
  ghost predicate Alike(data: seq<MemEvent>, hist: seq<Change>, discard: seq<Change>, time: int)
    requires Indexed(data, hist) && Indexed(data, discard)
  {
    (forall i, j :: 0 <= i < j < |discard| ==> data[discard[i].idx].size == data[discard[j].idx].size) &&
    forall i, j :: 0 <= i < |hist| && TimeOf(data, hist[i]) == time && 0 <= j < |discard| ==>
      Delta(data, hist[i]) == Delta(data, discard[j])
  }

  /** Discarding events keeps ties matching exactly if all events discarded have one size, and whatever happened before
      at that time has the same effect. */
  lemma DiscardMatches(data: seq<MemEvent>, hist: seq<Change>, discard: seq<Change>, time: int)
    requires Indexed(data, hist) && Indexed(data, discard) && TiesMatch(data, hist)
    requires forall i :: 0 <= i < |hist| ==> TimeOf(data, hist[i]) <= time
    requires forall i :: 0 <= i < |discard| ==> discard[i].Free? && TimeOf(data, discard[i]) == time
    ensures Indexed(data, hist + discard) && (TiesMatch(data, hist + discard) <==> Alike(data, hist, discard, time))
  {
    var all := hist + discard;
    assert forall i :: 0 <= i < |discard| ==> all[|hist| + i] == discard[i];
    if TiesMatch(data, all) {
      forall i, j | 0 <= i < j < |discard| ensures data[discard[i].idx].size == data[discard[j].idx].size {
        assert Delta(data, all[|hist| + i]) == Delta(data, all[|hist| + j]);
      }
      forall i, j | 0 <= i < |hist| && TimeOf(data, hist[i]) == time && 0 <= j < |discard|
        ensures Delta(data, hist[i]) == Delta(data, discard[j])
      {
        assert Delta(data, all[i]) == Delta(data, all[|hist| + j]);
      }
    }
  }

  /** Events that are freed later do not change what happened before. */
  lemma TiesKept(data: seq<MemEvent>, data': seq<MemEvent>, frees: seq<nat>, usage: int, hist: seq<Change>)
    requires HistOk(data, frees, usage, hist) && |data'| == |data| && forall k :: 0 <= k < |frees| ==> frees[k] < |data|
    requires forall i :: 0 <= i < |data| ==>
      data'[i] == data[i] || (i !in frees && data'[i] == data[i].(timeFree := data'[i].timeFree))
    ensures Indexed(data, hist) && Indexed(data', hist) && (TiesMatch(data', hist) <==> TiesMatch(data, hist))
    ensures forall k :: 0 <= k < |hist| ==>
      TimeOf(data', hist[k]) == TimeOf(data, hist[k]) && Delta(data', hist[k]) == Delta(data, hist[k])
  {
    forall k | 0 <= k < |hist|
      ensures TimeOf(data', hist[k]) == TimeOf(data, hist[k]) && Delta(data', hist[k]) == Delta(data, hist[k])
    {
      FreeInFrees(hist, k);
    }
  }

  /** Discarding all active events and rebuilding the plot: the ties match still, and the rebuilt plot is the live one,
      exactly if all events discarded are alike. */
  method DiscardAndRebuild(pool: MemoryPool, time: int) returns (plot: array<Point>, ghost discard: seq<Change>)
    requires pool.Valid() && time >= pool.now && Indexed(pool.data, pool.hist) && TiesMatch(pool.data, pool.hist)
    modifies pool
    ensures pool.Valid() && pool.active == map[] && pool.hist == old(pool.hist) + discard
    ensures Discards(old(pool.data), old(pool.active), map[], discard)
    ensures Indexed(pool.data, pool.hist) && Indexed(pool.data, old(pool.hist)) && Indexed(pool.data, discard)
    ensures TiesMatch(pool.data, pool.hist) <==> Alike(pool.data, old(pool.hist), discard, time)
    ensures pool.hist != [] && Alike(pool.data, old(pool.hist), discard, time) ==> plot[..] == pool.plot
  {
    hide PoolOk, PlotOk, TimesOk, HistOk, TiesMatch, Alike, Discards, PlotOrder, Points, Shown, InUse, Covered;
    ghost var data, hist, frees, usage, active := pool.data, pool.hist, pool.frees, pool.usage, pool.active;
    PoolParts(pool);
    discard := pool.ProcessMemDiscard(time);
    TiesKept(data, pool.data, frees, usage, hist);
    DiscardTimes(data, pool.data, active, discard, time);
    DiscardMatches(pool.data, hist, discard, time);
    ghost var order;
    plot, order := RebuildPlot(pool);
  }

  lemma PoolParts(pool: MemoryPool)
    requires pool.Valid()
    ensures HistOk(pool.data, pool.frees, pool.usage, pool.hist) && Indexed(pool.data, pool.hist)
    ensures forall k :: 0 <= k < |pool.frees| ==> pool.frees[k] < |pool.data|
    ensures forall i :: 0 <= i < |pool.data| ==> (IsFreed(pool.data[i]) <==> i in pool.frees)
    ensures forall k :: 0 <= k < |pool.hist| ==> TimeOf(pool.data, pool.hist[k]) <= pool.now
  {
    hide ActiveSize, UsageAfter, Points, Allocs, Frees;
  }

  lemma DiscardTimes(data: seq<MemEvent>, data': seq<MemEvent>, active: map<nat, nat>, discard: seq<Change>, time: int)
    requires Discards(data, active, map[], discard) && |data'| == |data|
    requires forall i :: 0 <= i < |data| && !IsFreed(data[i]) ==> data'[i] == data[i].(timeFree := time)
    ensures Indexed(data', discard)
    ensures forall k :: 0 <= k < |discard| ==> discard[k].Free? && TimeOf(data', discard[k]) == time
  {
  }

  /** A pool in which one event is freed at the time it was allocated: drawn live its usage is never below zero, but the
      rebuilt plot takes the free first. */
  method FreedAtOnce(first: int, time: int, size: nat) returns (pool: MemoryPool, plot: array<Point>)
    requires time >= 0 && size > 0
    ensures pool.Valid() && pool.plot == [Point(first, 0), Point(time, size), Point(time, 0)]
    ensures plot[..] == [Point(first, 0), Point(time, -(size as int)), Point(time, 0)]
    ensures !Covered(pool.data) && Brief(pool.data, time) == size && Standing(pool.data, time) == 0
  {
    hide PlotOrder, Points, UsageAfter, Shown, InUse, Covered, TiesMatch, Brief, Standing, PoolOk, HistOk, PlotOk,
      TimesOk;
    pool := new MemoryPool(first, false);
    var done := pool.ProcessMemAlloc(1, size, time);
    done := pool.ProcessMemFree(1, time);
    ghost var data, hist := pool.data, pool.hist;
    assert data == [MemEvent(1, size, time, time)] && hist == [Alloc(0), Free(0)];
    ghost var order;
    plot, order := RebuildPlot(pool);
    OrderAtOnce(data, hist, order);
    PointsAtOnce(data, first, time);
    LivePlot(pool);
    SumsAtOnce(data[0], time);
    assert data == [data[0]];
    NotCovered(data, time);
  }

  lemma {:induction false} PointsAtOnce(data: seq<MemEvent>, first: int, time: int)
    requires |data| == 1 && data[0].timeAlloc == data[0].timeFree == time
    ensures Indexed(data, [Alloc(0), Free(0)]) && Indexed(data, [Free(0), Alloc(0)])
    ensures [Point(first, 0)] + Points(data, [Alloc(0), Free(0)]) ==
            [Point(first, 0), Point(time, data[0].size), Point(time, 0)]
    ensures [Point(first, 0)] + Points(data, [Free(0), Alloc(0)]) ==
            [Point(first, 0), Point(time, -(data[0].size as int)), Point(time, 0)]
  {
    TwoPoints(data, Alloc(0), Free(0));
    TwoPoints(data, Free(0), Alloc(0));
  }

  lemma {:induction false} SumsAtOnce(e: MemEvent, time: int)
    requires e.timeAlloc == e.timeFree == time >= 0
    ensures Brief([e], time) == e.size && Standing([e], time) == 0
  {
    assert [e][..0] == [];
  }

  lemma NotCovered(data: seq<MemEvent>, time: int)
    requires Brief(data, time) > Standing(data, time)
    ensures !Covered(data)
  {
  }

  lemma OrderAtOnce(data: seq<MemEvent>, hist: seq<Change>, order: seq<Change>)
    requires |data| == 1 && data[0].timeAlloc == data[0].timeFree && hist == [Alloc(0), Free(0)]
    requires PlotOrder(data, hist, order)
    ensures order == [Free(0), Alloc(0)]
  {
    assert |multiset(order)| == |order| && |multiset(hist)| == 2;
    var i := OrderMember(order, hist, 0);
    var j := OrderMember(order, hist, 1);
    assert MayPrecede(data, order[0], order[1]);
  }

  lemma {:induction false} TwoPoints(data: seq<MemEvent>, c: Change, d: Change)
    requires c.idx < |data| && d.idx < |data|
    ensures Indexed(data, [c, d])
    ensures Points(data, [c, d]) ==
            [Point(TimeOf(data, c), Delta(data, c)), Point(TimeOf(data, d), Delta(data, c) + Delta(data, d))]
  {
    assert [] + [c] == [c] && [c] + [d] == [c, d];
    PointsNone(data);
    PointsSnoc(data, [], c);
    PointsSnoc(data, [c], d);
  }
}
