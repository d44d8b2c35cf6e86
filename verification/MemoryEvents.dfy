/** A memory pool's events: allocations, frees, discarding all that is allocated, the running usage and its plot; and
    the plot rebuilt after loading. */
module MemoryEvents {
  /** timeFree is -1 until the event is freed. */
  datatype MemEvent = MemEvent(ptr: nat, size: nat, timeAlloc: int, timeFree: int)

  datatype Point = Point(time: int, val: int)

  /** What happened, in order; idx is the event's index. */
  datatype Change = Alloc(idx: nat) | Free(idx: nat)

  // ---- usage -----------------------------------------------------------------------------------------------

  predicate IsFreed(e: MemEvent) {
    e.timeFree >= 0
  }

  /** The sizes of all events that are not freed. */
  function ActiveSize(data: seq<MemEvent>): (n: nat) {
    if data == [] then 0
    else ActiveSize(data[..|data| - 1]) + if IsFreed(data[|data| - 1]) then 0 else data[|data| - 1].size
  }

  lemma {:induction false} ActiveSizeFreed(data: seq<MemEvent>, i: nat, time: int)
    requires i < |data| && !IsFreed(data[i]) && time >= 0
    ensures ActiveSize(data[i := data[i].(timeFree := time)]) == ActiveSize(data) - data[i].size
    decreases |data|
  {
    var last := |data| - 1;
    var freed := data[i].(timeFree := time);
    if i < last {
      ActiveSizeFreed(data[..last], i, time);
      assert data[i := freed][..last] == data[..last][i := freed];
    } else {
      assert data[i := freed][..last] == data[..last];
    }
  }

  lemma ActiveSizeMore(data: seq<MemEvent>, e: MemEvent)
    ensures ActiveSize(data + [e]) == ActiveSize(data) + if IsFreed(e) then 0 else e.size
  {
    assert (data + [e])[..|data|] == data;
  }

  lemma {:induction false} AllFreed(data: seq<MemEvent>)
    requires forall i :: 0 <= i < |data| ==> IsFreed(data[i])
    ensures ActiveSize(data) == 0
    decreases |data|
  {
    if data != [] {
      AllFreed(data[..|data| - 1]);
    }
  }

  // ---- history ---------------------------------------------------------------------------------------------

  function Allocs(hist: seq<Change>): (r: seq<nat>) {
    if hist == [] then []
    else Allocs(hist[..|hist| - 1]) + if hist[|hist| - 1].Alloc? then [hist[|hist| - 1].idx] else []
  }

  function Frees(hist: seq<Change>): (r: seq<nat>) {
    if hist == [] then []
    else Frees(hist[..|hist| - 1]) + if hist[|hist| - 1].Free? then [hist[|hist| - 1].idx] else []
  }

  lemma ProjectionsSnoc(hist: seq<Change>, c: Change)
    ensures Allocs(hist + [c]) == Allocs(hist) + if c.Alloc? then [c.idx] else []
    ensures Frees(hist + [c]) == Frees(hist) + if c.Free? then [c.idx] else []
  {
    assert (hist + [c])[..|hist|] == hist;
  }

  function TimeOf(data: seq<MemEvent>, c: Change): int
    requires c.idx < |data|
  {
    if c.Alloc? then data[c.idx].timeAlloc else data[c.idx].timeFree
  }

  function Delta(data: seq<MemEvent>, c: Change): int
    requires c.idx < |data|
  {
    if c.Alloc? then data[c.idx].size else -(data[c.idx].size as int)
  }

  ghost predicate Indexed(data: seq<MemEvent>, hist: seq<Change>) {
    forall i :: 0 <= i < |hist| ==> hist[i].idx < |data|
  }

  /** Times do not fall, and no change before a free has the free's time. Changes at times that all differ are in time,
      and so is freeing an address and allocating it again at once. */
  ghost predicate InTime(data: seq<MemEvent>, hist: seq<Change>)
    requires Indexed(data, hist)
  {
    forall i, j :: 0 <= i < j < |hist| ==>
      TimeOf(data, hist[i]) < TimeOf(data, hist[j]) ||
        (TimeOf(data, hist[i]) == TimeOf(data, hist[j]) && hist[j].Alloc?)
  }

  /** Events are allocated in the order of the data, and freed no earlier than allocated. */
  ghost predicate Consistent(data: seq<MemEvent>) {
    (forall i :: 0 <= i < |data| && IsFreed(data[i]) ==> data[i].timeAlloc <= data[i].timeFree) &&
    forall i, j :: 0 <= i < j < |data| ==> data[i].timeAlloc <= data[j].timeAlloc
  }

  ghost predicate NotFalling(data: seq<MemEvent>, hist: seq<Change>)
    requires Indexed(data, hist)
  {
    forall i, j :: 0 <= i < j < |hist| ==> TimeOf(data, hist[i]) <= TimeOf(data, hist[j])
  }

  function UsageAfter(data: seq<MemEvent>, hist: seq<Change>): int
    requires Indexed(data, hist)
  {
    if hist == [] then 0 else UsageAfter(data, hist[..|hist| - 1]) + Delta(data, hist[|hist| - 1])
  }

  /** The usage after each of the changes. */
  function Points(data: seq<MemEvent>, hist: seq<Change>): (r: seq<Point>)
    requires Indexed(data, hist)
  {
    if hist == [] then []
    else Points(data, hist[..|hist| - 1]) + [Point(TimeOf(data, hist[|hist| - 1]), UsageAfter(data, hist))]
  }

  lemma PointsSnoc(data: seq<MemEvent>, hist: seq<Change>, c: Change)
    requires Indexed(data, hist) && c.idx < |data|
    ensures Indexed(data, hist + [c])
    ensures Points(data, hist + [c]) ==
            Points(data, hist) + [Point(TimeOf(data, c), UsageAfter(data, hist) + Delta(data, c))]
    ensures UsageAfter(data, hist + [c]) == UsageAfter(data, hist) + Delta(data, c)
  {
    assert (hist + [c])[..|hist|] == hist;
  }

  /** Points depend only on the sizes and the times of what happened. */
  lemma {:induction false} PointsSame(data: seq<MemEvent>, data': seq<MemEvent>, hist: seq<Change>)
    requires Indexed(data, hist) && Indexed(data', hist)
    requires forall i :: 0 <= i < |hist| ==>
      TimeOf(data', hist[i]) == TimeOf(data, hist[i]) && Delta(data', hist[i]) == Delta(data, hist[i])
    ensures Points(data', hist) == Points(data, hist) && UsageAfter(data', hist) == UsageAfter(data, hist)
    decreases |hist|
  {
    if hist != [] {
      PointsSame(data, data', hist[..|hist| - 1]);
    }
  }

  // ---- the pool --------------------------------------------------------------------------------------------

  /** The active events and the freed ones share out the indices, and the usage is the size of the active ones. */
  ghost predicate PoolOk(data: seq<MemEvent>, frees: seq<nat>, active: map<nat, nat>, usage: int) {
    usage == ActiveSize(data) &&
    (forall p :: p in active ==> active[p] < |data| && data[active[p]].ptr == p && !IsFreed(data[active[p]])) &&
    (forall i :: 0 <= i < |data| ==> (IsFreed(data[i]) <==> i in frees)) &&
    (forall i :: 0 <= i < |data| && !IsFreed(data[i]) ==> data[i].ptr in active && active[data[i].ptr] == i) &&
    (forall k :: 0 <= k < |frees| ==> frees[k] < |data|) &&
      (forall j, k :: 0 <= j < k < |frees| ==> frees[j] != frees[k])
  }

  /** The changes are all allocations in the order of the data and all frees in the order of frees. */
  ghost predicate HistOk(data: seq<MemEvent>, frees: seq<nat>, usage: int, hist: seq<Change>) {
    Indexed(data, hist) && |Allocs(hist)| == |data| && (forall k :: 0 <= k < |data| ==> Allocs(hist)[k] == k) &&
    Frees(hist) == frees && UsageAfter(data, hist) == usage
  }

  /** The plot has a point for every change, behind the one it begins with. */
  ghost predicate PlotOk(data: seq<MemEvent>, hist: seq<Change>, plot: seq<Point>, first: int)
    requires Indexed(data, hist)
  {
    plot == (if hist == [] then [] else [Point(first, 0)] + Points(data, hist)) &&
    forall k :: 0 <= k < |plot| ==> plot[k].val >= 0
  }

  /** Everything has happened in the order of time, and by now. */
  ghost predicate TimesOk(data: seq<MemEvent>, hist: seq<Change>, now: int)
    requires Indexed(data, hist)
  {
    Consistent(data) && NotFalling(data, hist) && (forall i :: 0 <= i < |data| ==> data[i].timeAlloc <= now) &&
    forall i :: 0 <= i < |hist| ==> TimeOf(data, hist[i]) <= now
  }

  /** MemAllocChanged */
  function Plotted(plot: seq<Point>, first: int, time: int, usage: int): (r: seq<Point>) {
    (if plot == [] then [Point(first, 0)] else plot) + [Point(time, usage)]
  }

  lemma Associate(p: Point, s: seq<Point>, q: Point)
    ensures [p] + (s + [q]) == ([p] + s) + [q]
  {
  }

  lemma PlottedOk(data: seq<MemEvent>, hist: seq<Change>, c: Change, plot: seq<Point>, first: int)
    requires Indexed(data, hist) && PlotOk(data, hist, plot, first) && c.idx < |data|
    requires UsageAfter(data, hist) + Delta(data, c) >= 0
    ensures Indexed(data, hist + [c])
    ensures PlotOk(data, hist + [c], Plotted(plot, first, TimeOf(data, c), UsageAfter(data, hist) + Delta(data, c)),
                   first)
  {
    hide Points, UsageAfter;
    PointsNone(data);
    PointsSnoc(data, hist, c);
    Associate(Point(first, 0), Points(data, hist), Point(TimeOf(data, c), UsageAfter(data, hist) + Delta(data, c)));
  }

  lemma PointsNone(data: seq<MemEvent>)
    ensures Points(data, []) == [] && UsageAfter(data, []) == 0
  {
  }

  lemma PlotSame(data: seq<MemEvent>, data': seq<MemEvent>, hist: seq<Change>, plot: seq<Point>, first: int)
    requires Indexed(data, hist) && Indexed(data', hist) && PlotOk(data, hist, plot, first)
    requires Points(data', hist) == Points(data, hist)
    ensures PlotOk(data', hist, plot, first)
  {
    hide Points;
  }

  lemma {:induction false} FreeInFrees(hist: seq<Change>, i: nat)
    requires i < |hist|
    ensures hist[i].Free? ==> hist[i].idx in Frees(hist)
    ensures hist[i].Alloc? ==> hist[i].idx in Allocs(hist)
    decreases |hist|
  {
    if i < |hist| - 1 {
      FreeInFrees(hist[..|hist| - 1], i);
    }
  }

  /** Freeing an active event. */
  lemma FreePool(data: seq<MemEvent>, frees: seq<nat>, active: map<nat, nat>, usage: int, ptr: nat, time: int)
    requires PoolOk(data, frees, active, usage) && ptr in active && time >= 0
    ensures active[ptr] < |data| && !IsFreed(data[active[ptr]]) && active[ptr] !in frees &&
      data[active[ptr]].size <= usage
    ensures ghost var i := active[ptr];
      PoolOk(data[i := data[i].(timeFree := time)], frees + [i], active - {ptr}, usage - data[i].size)
  {
    ActiveSizeFreed(data, active[ptr], time);
    hide ActiveSize;
  }

  lemma FreeHist(data: seq<MemEvent>, frees: seq<nat>, usage: int, hist: seq<Change>, i: nat, time: int,
                 plot: seq<Point>, first: int)
    requires HistOk(data, frees, usage, hist) && i < |data| && i !in frees && data[i].size <= usage
    requires PlotOk(data, hist, plot, first)
    ensures ghost var data', hist' := data[i := data[i].(timeFree := time)], hist + [Free(i)];
      HistOk(data', frees + [i], usage - data[i].size, hist') &&
      PlotOk(data', hist', Plotted(plot, first, time, usage - data[i].size), first)
  {
    hide Points, UsageAfter, Allocs, Frees, PlotOk;
    var data', c := data[i := data[i].(timeFree := time)], Free(i);
    forall k | 0 <= k < |hist|
      ensures TimeOf(data', hist[k]) == TimeOf(data, hist[k]) && Delta(data', hist[k]) == Delta(data, hist[k])
    {
      FreeInFrees(hist, k);
    }
    PointsSame(data, data', hist);
    PlotSame(data, data', hist, plot, first);
    PlottedOk(data', hist, c, plot, first);
    PointsSnoc(data', hist, c);
    ProjectionsSnoc(hist, c);
  }

  /** The data after event i has been freed. */
  function FreedAt(data: seq<MemEvent>, i: nat, time: int): (r: seq<MemEvent>)
    requires i < |data|
  {
    data[i := data[i].(timeFree := time)]
  }

  lemma FreeTimes(data: seq<MemEvent>, frees: seq<nat>, usage: int, hist: seq<Change>, now: int, i: nat, time: int)
    requires HistOk(data, frees, usage, hist) && i < |data| && i !in frees && TimesOk(data, hist, now) && now <= time
    ensures Indexed(FreedAt(data, i, time), hist + [Free(i)])
    ensures TimesOk(FreedAt(data, i, time), hist + [Free(i)], time)
  {
    var data' := FreedAt(data, i, time);
    forall k | 0 <= k < |hist| ensures TimeOf(data', hist[k]) == TimeOf(data, hist[k]) {
      FreeInFrees(hist, k);
    }
  }

  lemma AllocTimes(data: seq<MemEvent>, hist: seq<Change>, now: int, e: MemEvent)
    requires Indexed(data, hist) && TimesOk(data, hist, now) && now <= e.timeAlloc && !IsFreed(e)
    ensures Indexed(data + [e], hist + [Alloc(|data|)])
    ensures TimesOk(data + [e], hist + [Alloc(|data|)], e.timeAlloc)
  {
    forall k | 0 <= k < |hist| ensures TimeOf(data + [e], hist[k]) == TimeOf(data, hist[k]) {
    }
  }

  /** A new event. */
  lemma AllocPool(data: seq<MemEvent>, frees: seq<nat>, active: map<nat, nat>, usage: int, e: MemEvent)
    requires PoolOk(data, frees, active, usage) && e.ptr !in active && !IsFreed(e)
    ensures PoolOk(data + [e], frees, active[e.ptr := |data|], usage + e.size) && usage >= 0
  {
    ActiveSizeMore(data, e);
    hide ActiveSize;
  }

  lemma AllocHist(data: seq<MemEvent>, frees: seq<nat>, usage: int, hist: seq<Change>, e: MemEvent, plot: seq<Point>,
                  first: int)
    requires HistOk(data, frees, usage, hist) && usage >= 0 && PlotOk(data, hist, plot, first)
    ensures ghost var data', hist' := data + [e], hist + [Alloc(|data|)];
      HistOk(data', frees, usage + e.size, hist') &&
      PlotOk(data', hist', Plotted(plot, first, e.timeAlloc, usage + e.size), first)
  {
    hide Points, UsageAfter, Allocs, Frees, PlotOk;
    var data', c := data + [e], Alloc(|data|);
    assert Indexed(data', hist);
    PointsSame(data, data', hist);
    PlotSame(data, data', hist, plot, first);
    PlottedOk(data', hist, c, plot, first);
    PointsSnoc(data', hist, c);
    ProjectionsSnoc(hist, c);
  }

  lemma HistoryIndexed(data: seq<MemEvent>, frees: seq<nat>, usage: int, hist: seq<Change>)
    requires HistOk(data, frees, usage, hist)
    ensures Indexed(data, hist)
  {
  }

  /** The frees so far of a discard: exactly the events that are not active any more, each once. */
  ghost predicate Discards(data: seq<MemEvent>, active: map<nat, nat>, left: map<nat, nat>, discard: seq<Change>) {
    left.Keys <= active.Keys && (forall p :: p in left ==> left[p] == active[p]) && |discard| == |active| - |left| &&
    (forall k :: 0 <= k < |discard| ==>
      discard[k].Free? && discard[k].idx < |data| && !IsFreed(data[discard[k].idx]) &&
      exists p :: p in active && p !in left && active[p] == discard[k].idx) &&
    forall p :: p in active && p !in left ==> Change.Free(active[p]) in discard
  }

  lemma DiscardsNone(data: seq<MemEvent>, active: map<nat, nat>)
    ensures Discards(data, active, active, [])
  {
  }

  lemma DiscardsMore(data: seq<MemEvent>, active: map<nat, nat>, left: map<nat, nat>, discard: seq<Change>, p: nat)
    requires Discards(data, active, left, discard) && p in left && left[p] < |data| && !IsFreed(data[left[p]])
    ensures Discards(data, active, left - {p}, discard + [Change.Free(left[p])])
  {
    var discard' := discard + [Change.Free(left[p])];
    assert left.Keys == (left - {p}).Keys + {p};
    forall k | 0 <= k < |discard'| ensures exists q :: q in active && q !in left - {p} && active[q] == discard'[k].idx {
      if k < |discard| {
        assert discard'[k] == discard[k];
        var q :| q in active && q !in left && active[q] == discard[k].idx;
        assert q !in left - {p};
      } else {
        assert p !in left - {p};
      }
    }
    assert forall q :: q in active && q !in left ==> Change.Free(active[q]) in discard;
    assert discard'[|discard|] == Change.Free(left[p]);
  }

  datatype Outcome = Done | AllocTwice | NotAllocated | NullPointer

  class MemoryPool {
    var data: seq<MemEvent>
    var frees: seq<nat>
    var active: map<nat, nat>
    var usage: int
    var plot: seq<Point>
    const firstTime: int
    const ignoreMemAllocFaults: bool
    ghost var hist: seq<Change>
    ghost var now: int

    ghost predicate Valid()
      reads this
    {
      now >= 0 && PoolOk(data, frees, active, usage) && HistOk(data, frees, usage, hist) &&
      PlotOk(data, hist, plot, firstTime) && TimesOk(data, hist, now)
    }

    constructor (firstTime: int, ignoreMemAllocFaults: bool)
      ensures Valid() && data == [] && hist == [] && now == 0
      ensures this.firstTime == firstTime && this.ignoreMemAllocFaults == ignoreMemAllocFaults
    {
      this.firstTime, this.ignoreMemAllocFaults := firstTime, ignoreMemAllocFaults;
      data, frees, active, usage, plot, hist, now := [], [], map[], 0, [], [], 0;
    }

    method MemAllocChanged(time: int)
      modifies this`plot
      ensures plot == Plotted(old(plot), firstTime, time, usage)
    {
      if plot == [] {
        plot := [Point(firstTime, 0)];
      }
      plot := plot + [Point(time, usage)];
    }

    /** MemDataFree and the plot point for it. */
    method Free(ptr: nat, time: int)
      requires Valid() && ptr in active && time >= now
      modifies this
      ensures Valid() && now == time && hist == old(hist) + [Change.Free(old(active[ptr]))]
      ensures active == old(active) - {ptr} && frees == old(frees) + [old(active[ptr])]
      ensures old(active[ptr]) < |old(data)| && !IsFreed(old(data[active[ptr]]))
      ensures data == FreedAt(old(data), old(active[ptr]), time) && usage == old(usage - data[active[ptr]].size)
    {
      hide PoolOk, HistOk, PlotOk, Plotted, TimesOk;
      var i := active[ptr];
      HistoryIndexed(data, frees, usage, hist);
      FreePool(data, frees, active, usage, ptr, time);
      FreeHist(data, frees, usage, hist, i, time, plot, firstTime);
      FreeTimes(data, frees, usage, hist, now, i, time);
      frees := frees + [i];
      usage := usage - data[i].size;
      data := data[i := data[i].(timeFree := time)];
      active := active - {ptr};
      hist := hist + [Change.Free(i)];
      now := time;
      MemAllocChanged(time);
    }

    /** ProcessMemAlloc: an address that is still in use is an error, or is freed first if faults are ignored. */
    method ProcessMemAlloc(ptr: nat, size: nat, time: int) returns (r: Outcome)
      requires Valid() && time >= now
      modifies this
      ensures Valid()
      ensures r == AllocTwice <==> ptr in old(active) && !ignoreMemAllocFaults
      ensures r == AllocTwice ==> data == old(data) && hist == old(hist) && active == old(active)
      ensures r != AllocTwice ==> r == Done && now == time && active == old(active)[ptr := |old(data)|]
      ensures r != AllocTwice ==>
        hist == old(hist) + (if ptr in old(active) then [Change.Free(old(active)[ptr])] else []) + [Alloc(|old(data)|)]
      ensures ptr in old(active) ==> old(active[ptr]) < |old(data)|
      ensures r != AllocTwice ==>
        data == (if ptr in old(active) then FreedAt(old(data), old(active[ptr]), time) else old(data)) +
                [MemEvent(ptr, size, time, -1)]
    {
      hide PoolOk, HistOk, PlotOk, TimesOk;
      ActiveIndex(ptr);
      if ptr in active {
        if !ignoreMemAllocFaults {
          return AllocTwice;
        }
        Free(ptr, time);
      }
      Append(MemEvent(ptr, size, time, -1));
      assert active == old(active)[ptr := |old(data)|];
      r := Done;
    }

    method Append(e: MemEvent)
      requires Valid() && e.ptr !in active && !IsFreed(e) && e.timeAlloc >= now
      modifies this
      ensures Valid() && now == e.timeAlloc && data == old(data) + [e] && active == old(active)[e.ptr := |old(data)|]
      ensures hist == old(hist) + [Alloc(|old(data)|)]
    {
      hide PoolOk, HistOk, PlotOk, Plotted, TimesOk;
      HistoryIndexed(data, frees, usage, hist);
      AllocPool(data, frees, active, usage, e);
      AllocHist(data, frees, usage, hist, e, plot, firstTime);
      AllocTimes(data, hist, now, e);
      active := active[e.ptr := |data|];
      hist := hist + [Alloc(|data|)];
      data := data + [e];
      usage := usage + e.size;
      now := e.timeAlloc;
      MemAllocChanged(e.timeAlloc);
    }

    /** ProcessMemFree: freeing address 0 is nothing, freeing one not in use an error. */
    method ProcessMemFree(ptr: nat, time: int) returns (r: Outcome)
      requires Valid() && time >= now
      modifies this
      ensures Valid()
      ensures r == (if ptr in old(active) then Done else if ptr == 0 then NullPointer else NotAllocated)
      ensures r == Done ==>
        active == old(active) - {ptr} && hist == old(hist) + [Change.Free(old(active)[ptr])] && now == time
      ensures ptr in old(active) ==> old(active[ptr]) < |old(data)|
      ensures data == if r == Done then FreedAt(old(data), old(active[ptr]), time) else old(data)
      ensures r != Done ==> hist == old(hist) && active == old(active)
    {
      hide PoolOk, HistOk, PlotOk, TimesOk;
      ActiveIndex(ptr);
      if ptr !in active {
        return if ptr == 0 then NullPointer else NotAllocated;
      }
      Free(ptr, time);
      r := Done;
    }

    lemma ActiveIndex(ptr: nat)
      requires Valid()
      ensures ptr in active ==> active[ptr] < |data|
    {
    }

    /** ProcessMemDiscard: everything active is freed now, each once, and nothing is in use any more. */
    method ProcessMemDiscard(time: int) returns (ghost discard: seq<Change>)
      requires Valid() && time >= now
      modifies this
      ensures Valid() && active == map[] && usage == 0 && |data| == |old(data)| &&
        (old(active) != map[] ==> now == time)
      ensures forall i :: 0 <= i < |data| ==>
        IsFreed(data[i]) && data[i] == if old(IsFreed(data[i])) then old(data[i]) else old(data[i]).(timeFree := time)
      ensures hist == old(hist) + discard && Discards(old(data), old(active), active, discard)
    {
      hide PoolOk, HistOk, PlotOk, TimesOk, Discards;
      discard := [];
      DiscardsNone(data, active);
      assert hist + [] == hist;
      while active != map[]
        invariant Valid() && time >= now && |data| == |old(data)| && (active != old(active) ==> now == time)
        invariant forall i :: 0 <= i < |data| && data[i] != old(data[i]) ==>
          !old(IsFreed(data[i])) && data[i] == old(data[i]).(timeFree := time)
        invariant hist == old(hist) + discard && Discards(old(data), old(active), active, discard)
        decreases |active|
      {
        var p :| p in active;
        assert active.Keys == (active - {p}).Keys + {p};
        ghost var left, i := active, active[p];
        Free(p, time);
        assert !old(IsFreed(data[i]));
        DiscardsMore(old(data), old(active), left, discard, p);
        discard := discard + [Change.Free(i)];
      }
      NothingActive();
    }

    lemma NothingActive()
      requires Valid() && active == map[]
      ensures usage == 0 && forall i :: 0 <= i < |data| ==> IsFreed(data[i])
    {
      AllFreed(data);
    }
  }
}
