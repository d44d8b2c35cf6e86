/** What the statistics of a source location say about the zones: their number, and the sum, the least and the greatest
    of their spans and self times, once more for the zones that are not inside one of the same location. */
module ZoneFigures {
  import opened ZoneStatistics
  import opened ZoneTimeline

  /** A zone, and the locations of the zones around it from outside in. */
  datatype Place = Place(zone: Zone, around: seq<int>)

  /** All zones in the order in which they end. */
  function Places(vec: seq<Zone>, around: seq<int>): (ps: seq<Place>)
    decreases vec
  {
    if vec == [] then []
    else
      Places(vec[0].children, around + [vec[0].srcloc]) + [Place(vec[0], around)] + Places(vec[1..], around)
  }

  function Duration(z: Zone): int {
    z.end - z.start
  }

  /** The time not spent in children. */
  function OwnTime(z: Zone): int {
    Duration(z) - Spans(z.children)
  }

  /** Whether a zone counts as not inside one of its own location: by the depth counted in a byte, or as meant. */
  predicate Outermost(p: Place, inByte: bool) {
    if inByte then CountOf(p.around, p.zone.srcloc) % 256 == 0 else p.zone.srcloc !in p.around
  }

  // The numbers of the zones of one location that have a duration.

  function DurationsAt(ps: seq<Place>, srcloc: int): (xs: seq<int>) {
    if ps == [] then []
    else
      var z := ps[|ps| - 1].zone;
      DurationsAt(ps[..|ps| - 1], srcloc) + if z.srcloc == srcloc && Duration(z) > 0 then [Duration(z)] else []
  }

  function OwnTimesAt(ps: seq<Place>, srcloc: int): (xs: seq<int>) {
    if ps == [] then []
    else
      var z := ps[|ps| - 1].zone;
      OwnTimesAt(ps[..|ps| - 1], srcloc) + if z.srcloc == srcloc && Duration(z) > 0 then [OwnTime(z)] else []
  }

  function OutermostAt(ps: seq<Place>, srcloc: int, inByte: bool): (xs: seq<int>) {
    if ps == [] then []
    else
      var p := ps[|ps| - 1];
      OutermostAt(ps[..|ps| - 1], srcloc, inByte) +
      if p.zone.srcloc == srcloc && Duration(p.zone) > 0 && Outermost(p, inByte) then [Duration(p.zone)] else []
  }

  function Sum(xs: seq<int>): int {
    if xs == [] then 0 else Sum(xs[..|xs| - 1]) + xs[|xs| - 1]
  }

  predicate IsLeast(m: int, xs: seq<int>) {
    m in xs && forall x :: x in xs ==> m <= x
  }

  predicate IsGreatest(m: int, xs: seq<int>) {
    m in xs && forall x :: x in xs ==> x <= m
  }

  /** The least and the greatest start from the ends of the 64 bit numbers. */
  predicate Measures(count: nat, min: int, max: int, total: int, xs: seq<int>) {
    count == |xs| && total == Sum(xs) && IsLeast(min, xs + [INT64_MAX]) && IsGreatest(max, xs + [INT64_MIN])
  }

  predicate Describes(f: Figures, durations: seq<int>, ownTimes: seq<int>, outermost: seq<int>) {
    Measures(f.count, f.min, f.max, f.total, durations) &&
    Measures(f.count, f.selfMin, f.selfMax, f.selfTotal, ownTimes) &&
    Measures(f.nonReentrantCount, f.nonReentrantMin, f.nonReentrantMax, f.nonReentrantTotal, outermost) &&
    f.threadCnt == |durations|
  }

  predicate DescribesAt(stats: Stats, ps: seq<Place>, srcloc: int, inByte: bool) {
    if srcloc in stats
    then Describes(stats[srcloc], DurationsAt(ps, srcloc), OwnTimesAt(ps, srcloc), OutermostAt(ps, srcloc, inByte))
    else DurationsAt(ps, srcloc) == []
  }

  /** The statistics are those of the given zones. */
  ghost predicate Tells(stats: Stats, ps: seq<Place>, inByte: bool) {
    forall srcloc :: DescribesAt(stats, ps, srcloc, inByte)
  }

  lemma MeasuresNone()
    ensures Measures(0, INT64_MAX, INT64_MIN, 0, [])
  {
    assert [] + [INT64_MAX] == [INT64_MAX] && [] + [INT64_MIN] == [INT64_MIN];
  }

  lemma MeasuresSnoc(count: nat, min: int, max: int, total: int, xs: seq<int>, x: int)
    requires Measures(count, min, max, total, xs)
    ensures Measures(count + 1, Least(min, x), Most(max, x), total + x, xs + [x])
  {
    assert (xs + [x])[..|xs|] == xs;
    assert forall y :: y in xs + [x] + [INT64_MAX] <==> y in xs + [INT64_MAX] || y == x;
    assert forall y :: y in xs + [x] + [INT64_MIN] <==> y in xs + [INT64_MIN] || y == x;
  }

  predicate In64Bits(xs: seq<int>) {
    forall x :: x in xs ==> INT64_MIN <= x <= INT64_MAX
  }

  /** Numbers of 64 bits attain their least and greatest. */
  lemma MeasuresAttained(count: nat, min: int, max: int, total: int, xs: seq<int>)
    requires Measures(count, min, max, total, xs) && xs != [] && In64Bits(xs)
    ensures IsLeast(min, xs) && IsGreatest(max, xs)
  {
    assert forall x :: x in xs ==> x in xs + [INT64_MAX] && x in xs + [INT64_MIN];
    var x := xs[0];
    assert x in xs;
    assert (min in xs || min == INT64_MAX) && min <= x;
    assert (max in xs || max == INT64_MIN) && x <= max;
  }

  lemma {:induction false} NothingCounted(ps: seq<Place>, srcloc: int, inByte: bool)
    requires DurationsAt(ps, srcloc) == []
    ensures OwnTimesAt(ps, srcloc) == [] && OutermostAt(ps, srcloc, inByte) == []
    decreases |ps|
  {
    if ps != [] {
      NothingCounted(ps[..|ps| - 1], srcloc, inByte);
    }
  }

  lemma DescribesMore(f: Figures, s: Share, durations: seq<int>, ownTimes: seq<int>, outermost: seq<int>)
    requires Describes(f, durations, ownTimes, outermost)
    ensures Describes(Increased(f, s), durations + [s.span], ownTimes + [s.self],
                      if s.reentry then outermost else outermost + [s.span])
  {
    hide Measures;
    MeasuresSnoc(f.count, f.min, f.max, f.total, durations, s.span);
    MeasuresSnoc(f.count, f.selfMin, f.selfMax, f.selfTotal, ownTimes, s.self);
    MeasuresSnoc(f.nonReentrantCount, f.nonReentrantMin, f.nonReentrantMax, f.nonReentrantTotal, outermost, s.span);
  }

  /** The share of a zone at its place, with the depth counted in a byte or as meant. */
  function ShareAt(p: Place, inByte: bool): (s: Share) {
    if inByte then ShareOf(p.zone, p.around) else PlainShare(p.zone, p.around)
  }

  lemma TellsMore(stats: Stats, ps: seq<Place>, p: Place, inByte: bool)
    requires Tells(stats, ps, inByte)
    ensures Tells(Added(stats, ShareAt(p, inByte)), ps + [p], inByte)
  {
    hide Describes, Increased;
    var s, qs := ShareAt(p, inByte), ps + [p];
    assert qs[..|qs| - 1] == ps && s.span == Duration(p.zone) && s.self == OwnTime(p.zone);
    assert s.reentry == !Outermost(p, inByte);
    forall srcloc ensures DescribesAt(Added(stats, s), qs, srcloc, inByte) {
      assert DescribesAt(stats, ps, srcloc, inByte);
      var durations, ownTimes, outermost :=
        DurationsAt(ps, srcloc), OwnTimesAt(ps, srcloc), OutermostAt(ps, srcloc, inByte);
      assert durations + [] == durations && ownTimes + [] == ownTimes && outermost + [] == outermost;
      if p.zone.srcloc == srcloc && s.span > 0 {
        if srcloc in stats {
          DescribesMore(stats[srcloc], s, durations, ownTimes, outermost);
        } else {
          NothingCounted(ps, srcloc, inByte);
          DescribesNone();
          DescribesMore(NoFigures(), s, [], [], []);
        }
      }
    }
  }

  lemma DescribesNone()
    ensures Describes(NoFigures(), [], [], [])
  {
    MeasuresNone();
  }

  lemma Regrouped(ps: seq<Place>, inner: seq<Place>, p: Place, rest: seq<Place>)
    ensures ps + inner + [p] + rest == ps + (inner + [p] + rest)
  {
  }

  /** Counting zones as they end makes the statistics those of all zones. */
  lemma {:induction false} LiveTells(stats: Stats, ps: seq<Place>, vec: seq<Zone>, around: seq<int>)
    requires Tells(stats, ps, true)
    ensures Tells(Live(stats, vec, around), ps + Places(vec, around), true)
    decreases vec
  {
    hide Tells, Added, ShareOf;
    if vec == [] {
      assert ps + [] == ps;
    } else {
      var p, inner := Place(vec[0], around), Places(vec[0].children, around + [vec[0].srcloc]);
      var below := Live(stats, vec[0].children, around + [vec[0].srcloc]);
      LiveTells(stats, ps, vec[0].children, around + [vec[0].srcloc]);
      TellsMore(below, ps + inner, p, true);
      LiveTells(Added(below, ShareOf(vec[0], around)), ps + inner + [p], vec[1..], around);
      Regrouped(ps, inner, p, Places(vec[1..], around));
    }
  }

  /** The same with the plain meaning of being inside a zone of the same location. */
  lemma {:induction false} PlainTells(stats: Stats, ps: seq<Place>, vec: seq<Zone>, around: seq<int>)
    requires Tells(stats, ps, false)
    ensures Tells(Plain(stats, vec, around), ps + Places(vec, around), false)
    decreases vec
  {
    hide Tells, Added, PlainShare;
    if vec == [] {
      assert ps + [] == ps;
    } else {
      var p, inner := Place(vec[0], around), Places(vec[0].children, around + [vec[0].srcloc]);
      var below := Plain(stats, vec[0].children, around + [vec[0].srcloc]);
      PlainTells(stats, ps, vec[0].children, around + [vec[0].srcloc]);
      TellsMore(below, ps + inner, p, false);
      PlainTells(Added(below, PlainShare(vec[0], around)), ps + inner + [p], vec[1..], around);
      Regrouped(ps, inner, p, Places(vec[1..], around));
    }
  }

  lemma NothingTold(inByte: bool)
    ensures Tells(map[], [], inByte)
  {
  }

  /** Of a whole timeline: live or rebuilt, the figures of each location are the number, sum, least and greatest over
      its zones. The plain ones differ only in which zones count as not inside another of their location. */
  lemma StatisticsOf(vec: seq<Zone>)
    ensures Tells(Live(map[], vec, []), Places(vec, []), true)
    ensures Tells(Rebuilt(map[], vec, []), Places(vec, []), true)
    ensures Tells(Plain(map[], vec, []), Places(vec, []), false)
  {
    hide Tells;
    NothingTold(true);
    NothingTold(false);
    LiveTells(map[], [], vec, []);
    PlainTells(map[], [], vec, []);
    RebuiltIsLive(map[], vec, []);
    assert [] + Places(vec, []) == Places(vec, []);
  }

  /** The least and greatest kept for a location are durations and self times of its zones, as soon as there are any. */
  lemma FiguresAttained(stats: Stats, ps: seq<Place>, srcloc: int, inByte: bool)
    requires Tells(stats, ps, inByte) && DurationsAt(ps, srcloc) != []
    requires In64Bits(DurationsAt(ps, srcloc)) && In64Bits(OwnTimesAt(ps, srcloc))
    ensures srcloc in stats
    ensures ghost var f, durations := stats[srcloc], DurationsAt(ps, srcloc);
      IsLeast(f.min, durations) && IsGreatest(f.max, durations)
    ensures ghost var f, ownTimes := stats[srcloc], OwnTimesAt(ps, srcloc);
      IsLeast(f.selfMin, ownTimes) && IsGreatest(f.selfMax, ownTimes)
    ensures ghost var f, outermost := stats[srcloc], OutermostAt(ps, srcloc, inByte);
      outermost != [] ==> IsLeast(f.nonReentrantMin, outermost) && IsGreatest(f.nonReentrantMax, outermost)
  {
    hide IsLeast, IsGreatest;
    var durations, ownTimes, outermost :=
      DurationsAt(ps, srcloc), OwnTimesAt(ps, srcloc), OutermostAt(ps, srcloc, inByte);
    assert DescribesAt(stats, ps, srcloc, inByte);
    var f := stats[srcloc];
    MeasuresAttained(f.count, f.min, f.max, f.total, durations);
    MeasuresAttained(f.count, f.selfMin, f.selfMax, f.selfTotal, ownTimes);
    OutermostAmong(ps, srcloc, inByte);
    if outermost != [] {
      MeasuresAttained(f.nonReentrantCount, f.nonReentrantMin, f.nonReentrantMax, f.nonReentrantTotal, outermost);
    }
  }

  lemma {:induction false} OutermostAmong(ps: seq<Place>, srcloc: int, inByte: bool)
    ensures forall x :: x in OutermostAt(ps, srcloc, inByte) ==> x in DurationsAt(ps, srcloc)
    decreases |ps|
  {
    if ps != [] {
      OutermostAmong(ps[..|ps| - 1], srcloc, inByte);
    }
  }

  /** Among the durations of a location are exactly those of its zones. */
  lemma {:induction false} DurationsOf(ps: seq<Place>, srcloc: int, d: int)
    ensures d in DurationsAt(ps, srcloc) <==>
            d > 0 && exists i :: 0 <= i < |ps| && ps[i].zone.srcloc == srcloc && Duration(ps[i].zone) == d
    decreases |ps|
  {
    if ps != [] {
      var last := |ps| - 1;
      DurationsOf(ps[..last], srcloc, d);
      if d > 0 && exists i :: 0 <= i < |ps| && ps[i].zone.srcloc == srcloc && Duration(ps[i].zone) == d {
        var i :| 0 <= i < |ps| && ps[i].zone.srcloc == srcloc && Duration(ps[i].zone) == d;
        assert i < last ==> ps[..last][i] == ps[i];
      }
    }
  }
}
