/** Statistics per source location. Live, a zone is counted when it ends, after its children; rebuilt from a saved
    timeline, before them. Both come to the same, and the self times of all zones add up to the spans of the roots. */
module ZoneStatistics {
  import opened Counting
  import opened ZoneTimeline

  const INT64_MAX: int := 0x7fff_ffff_ffff_ffff
  const INT64_MIN: int := -0x8000_0000_0000_0000

  /** What is kept for a source location. */
  datatype Figures = Figures(count: nat, min: int, max: int, total: int, selfMin: int, selfMax: int, selfTotal: int,
                             nonReentrantCount: nat, nonReentrantMin: int, nonReentrantMax: int, nonReentrantTotal: int,
                             threadCnt: nat)

  type Stats = map<int, Figures>

  /** One zone's share: its span, the part of it not spent in children, and whether it is inside another zone of the
      same source location. */
  datatype Share = Share(srcloc: int, span: int, self: int, reentry: bool)

  function NoFigures(): Figures {
    Figures(0, INT64_MAX, INT64_MIN, 0, INT64_MAX, INT64_MIN, 0, 0, INT64_MAX, INT64_MIN, 0, 0)
  }

  function FiguresOf(stats: Stats, srcloc: int): Figures {
    if srcloc in stats then stats[srcloc] else NoFigures()
  }

  function Least(x: int, y: int): int {
    if x > y then y else x
  }

  function Most(x: int, y: int): int {
    if x < y then y else x
  }

  function Increased(f: Figures, s: Share): (r: Figures) {
    var g := Figures(f.count + 1, Least(f.min, s.span), Most(f.max, s.span), f.total + s.span,
                     Least(f.selfMin, s.self), Most(f.selfMax, s.self), f.selfTotal + s.self,
                     f.nonReentrantCount, f.nonReentrantMin, f.nonReentrantMax, f.nonReentrantTotal, f.threadCnt + 1);
    if s.reentry then g
    else g.(nonReentrantCount := f.nonReentrantCount + 1, nonReentrantMin := Least(f.nonReentrantMin, s.span),
            nonReentrantMax := Most(f.nonReentrantMax, s.span), nonReentrantTotal := f.nonReentrantTotal + s.span)
  }

  /** Zones without duration are not counted. */
  function Added(stats: Stats, s: Share): (r: Stats) {
    if s.span > 0 then stats[s.srcloc := Increased(FiguresOf(stats, s.srcloc), s)] else stats
  }

  lemma AddedCommutes(stats: Stats, s: Share, t: Share)
    ensures Added(Added(stats, s), t) == Added(Added(stats, t), s)
  {
    assert Increased(Increased(FiguresOf(stats, s.srcloc), s),
                     t) == Increased(Increased(FiguresOf(stats, s.srcloc), t), s);
  }

  // ---- shares ----------------------------------------------------------------------------------------------

  function Span(z: Zone): int {
    if z.end - z.start > 0 then z.end - z.start else 0
  }

  function Spans(vec: seq<Zone>): int {
    if vec == [] then 0 else Spans(vec[..|vec| - 1]) + Span(vec[|vec| - 1])
  }

  function CountOf(locs: seq<int>, srcloc: int): nat {
    if locs == [] then 0 else CountOf(locs[..|locs| - 1], srcloc) + if locs[|locs| - 1] == srcloc then 1 else 0
  }

  /** The depth of a source location is counted in a byte, so a zone inside 256 zones of its own location, or 512 and so
      on, counts as not inside one. */
  predicate Reentry(open: seq<int>, srcloc: int) {
    CountOf(open, srcloc) % 256 != 0
  }

  function ShareOf(z: Zone, open: seq<int>): (s: Share) {
    Share(z.srcloc, z.end - z.start, z.end - z.start - Spans(z.children), Reentry(open, z.srcloc))
  }

  /** As rebuilt from a timeline: a zone, then its children; open are the locations of the zones around. */
  function Rebuilt(stats: Stats, vec: seq<Zone>, open: seq<int>): (r: Stats)
    decreases vec
  {
    if vec == [] then stats
    else
      var own := Added(stats, ShareOf(vec[0], open));
      Rebuilt(Rebuilt(own, vec[0].children, open + [vec[0].srcloc]), vec[1..], open)
  }

  /** As counted live: the children, then the zone. */
  function Live(stats: Stats, vec: seq<Zone>, open: seq<int>): (r: Stats)
    decreases vec
  {
    if vec == [] then stats
    else
      var below := Live(stats, vec[0].children, open + [vec[0].srcloc]);
      Live(Added(below, ShareOf(vec[0], open)), vec[1..], open)
  }

  lemma {:induction false} LiveAdded(stats: Stats, s: Share, vec: seq<Zone>, open: seq<int>)
    ensures Live(Added(stats, s), vec, open) == Added(Live(stats, vec, open), s)
    decreases vec
  {
    if vec != [] {
      var z := vec[0];
      var below := Live(stats, z.children, open + [z.srcloc]);
      LiveAdded(stats, s, z.children, open + [z.srcloc]);
      AddedCommutes(below, s, ShareOf(z, open));
      LiveAdded(Added(below, ShareOf(z, open)), s, vec[1..], open);
    }
  }

  /** Both orders give the same statistics. */
  lemma {:induction false} RebuiltIsLive(stats: Stats, vec: seq<Zone>, open: seq<int>)
    ensures Rebuilt(stats, vec, open) == Live(stats, vec, open)
    decreases vec
  {
    if vec != [] {
      var z := vec[0];
      RebuiltIsLive(Added(stats, ShareOf(z, open)), z.children, open + [z.srcloc]);
      LiveAdded(stats, ShareOf(z, open), z.children, open + [z.srcloc]);
      RebuiltIsLive(Added(Live(stats, z.children, open + [z.srcloc]), ShareOf(z, open)), vec[1..], open);
    }
  }

  lemma {:induction false} LiveSnoc(stats: Stats, vec: seq<Zone>, z: Zone, open: seq<int>)
    ensures Live(stats, vec + [z], open) ==
            Added(Live(Live(stats, vec, open), z.children, open + [z.srcloc]), ShareOf(z, open))
    decreases |vec|
  {
    if vec == [] {
      assert ([] + [z])[1..] == [] && vec + [z] == [z];
    } else {
      var below := Live(stats, vec[0].children, open + [vec[0].srcloc]);
      assert (vec + [z])[1..] == vec[1..] + [z] && (vec + [z])[0] == vec[0];
      LiveSnoc(Added(below, ShareOf(vec[0], open)), vec[1..], z, open);
    }
  }

  lemma {:induction false} RebuiltSnoc(stats: Stats, vec: seq<Zone>, i: nat, open: seq<int>)
    requires i < |vec|
    ensures Rebuilt(stats, vec[..i + 1], open) ==
            Rebuilt(Added(Rebuilt(stats, vec[..i], open), ShareOf(vec[i], open)), vec[i].children,
                    open + [vec[i].srcloc])
    decreases i
  {
    if i == 0 {
      assert vec[..1][1..] == [] && vec[..0] == [];
    } else {
      assert vec[..i + 1][1..] == vec[1..][..i] && vec[..i][1..] == vec[1..][..i - 1];
      var own := Added(stats, ShareOf(vec[0], open));
      RebuiltSnoc(Rebuilt(own, vec[0].children, open + [vec[0].srcloc]), vec[1..], i - 1, open);
    }
  }

  // ---- conservation ----------------------------------------------------------------------------------------

  /** The zones follow each other between lo and hi, and so do the children inside each of them. */
  ghost predicate Nested(vec: seq<Zone>, lo: int, hi: int)
    decreases vec
  {
    if vec == [] then lo <= hi
    else
      lo <= vec[0].start <= vec[0].end && Nested(vec[0].children, vec[0].start, vec[0].end) &&
      Nested(vec[1..], vec[0].end, hi)
  }

  lemma {:induction false} NestedBounds(vec: seq<Zone>, lo: int, hi: int)
    requires Nested(vec, lo, hi)
    ensures lo <= hi && 0 <= Spans(vec) <= hi - lo
    decreases |vec|
  {
    if vec != [] {
      NestedBounds(vec[1..], vec[0].end, hi);
      SpansCons(vec);
    }
  }

  lemma {:induction false} SpansCons(vec: seq<Zone>)
    requires vec != []
    ensures Spans(vec) == Span(vec[0]) + Spans(vec[1..])
    decreases |vec|
  {
    if |vec| > 1 {
      SpansCons(vec[..|vec| - 1]);
      assert vec[..|vec| - 1][1..] == vec[1..][..|vec| - 2];
    } else {
      assert vec[..0] == [] && vec[1..] == [];
    }
  }

  /** The self times of all zones that are counted. */
  function SelfTimes(vec: seq<Zone>): int
    decreases vec
  {
    if vec == [] then 0
    else
      (if vec[0].end - vec[0].start > 0 then vec[0].end - vec[0].start - Spans(vec[0].children) else 0) +
      SelfTimes(vec[0].children) + SelfTimes(vec[1..])
  }

  lemma {:induction false} SelfTimesAreSpans(vec: seq<Zone>, lo: int, hi: int)
    requires Nested(vec, lo, hi)
    ensures SelfTimes(vec) == Spans(vec)
    decreases vec
  {
    if vec != [] {
      SpansCons(vec);
      NestedBounds(vec[0].children, vec[0].start, vec[0].end);
      SelfTimesAreSpans(vec[0].children, vec[0].start, vec[0].end);
      SelfTimesAreSpans(vec[1..], vec[0].end, hi);
    }
  }

  function SelfTotals(stats: Stats, locs: seq<int>): int {
    if locs == [] then 0 else SelfTotals(stats, locs[..|locs| - 1]) + FiguresOf(stats, locs[|locs| - 1]).selfTotal
  }

  lemma {:induction false} SelfTotalsAdded(stats: Stats, s: Share, locs: seq<int>)
    requires Distinct(locs)
    ensures SelfTotals(Added(stats, s), locs) ==
            SelfTotals(stats, locs) + if s.span > 0 && s.srcloc in locs then s.self else 0
    decreases |locs|
  {
    if locs != [] {
      var last := |locs| - 1;
      SelfTotalsAdded(stats, s, locs[..last]);
      assert locs == locs[..last] + [locs[last]];
    }
  }

  /** All source locations of the zones are among locs. */
  predicate Covered(vec: seq<Zone>, locs: seq<int>)
    decreases vec
  {
    vec == [] || (vec[0].srcloc in locs && Covered(vec[0].children, locs) && Covered(vec[1..], locs))
  }

  lemma {:induction false} SelfTotalsLive(stats: Stats, vec: seq<Zone>, open: seq<int>, locs: seq<int>)
    requires Distinct(locs) && Covered(vec, locs)
    ensures SelfTotals(Live(stats, vec, open), locs) == SelfTotals(stats, locs) + SelfTimes(vec)
    decreases vec
  {
    if vec != [] {
      var z := vec[0];
      var below := Live(stats, z.children, open + [z.srcloc]);
      SelfTotalsLive(stats, z.children, open + [z.srcloc], locs);
      SelfTotalsAdded(below, ShareOf(z, open), locs);
      SelfTotalsLive(Added(below, ShareOf(z, open)), vec[1..], open, locs);
    }
  }

  lemma {:induction false} NoSelfTotals(locs: seq<int>)
    ensures SelfTotals(map[], locs) == 0
    decreases |locs|
  {
    if locs != [] {
      NoSelfTotals(locs[..|locs| - 1]);
    }
  }

  /** No time is lost or counted twice: the self times kept for all source locations add up to the spans of the
      root zones. */
  lemma SelfTimeConserved(vec: seq<Zone>, lo: int, hi: int, locs: seq<int>)
    requires Nested(vec, lo, hi) && Distinct(locs) && Covered(vec, locs)
    ensures SelfTotals(Live(map[], vec, []), locs) == Spans(vec)
  {
    SelfTotalsLive(map[], vec, [], locs);
    NoSelfTotals(locs);
    SelfTimesAreSpans(vec, lo, hi);
  }
  // ---- the depth counter in a byte -------------------------------------------------------------------------

  /** What the non-reentrant figures are for: a zone is reentrant if its location is among those around it. */
  function PlainShare(z: Zone, open: seq<int>): (s: Share) {
    ShareOf(z, open).(reentry := z.srcloc in open)
  }

  function Plain(stats: Stats, vec: seq<Zone>, open: seq<int>): (r: Stats)
    decreases vec
  {
    if vec == [] then stats
    else
      var below := Plain(stats, vec[0].children, open + [vec[0].srcloc]);
      Plain(Added(below, PlainShare(vec[0], open)), vec[1..], open)
  }

  /** A zone that is counted, in a depth of zones of its own location that the byte counts as none. */
  predicate Wraps(z: Zone, open: seq<int>) {
    z.end - z.start > 0 && CountOf(open, z.srcloc) > 0 && CountOf(open, z.srcloc) % 256 == 0
  }

  predicate NoneWraps(vec: seq<Zone>, open: seq<int>)
    decreases vec
  {
    vec == [] ||
    (!Wraps(vec[0], open) && NoneWraps(vec[0].children, open + [vec[0].srcloc]) && NoneWraps(vec[1..], open))
  }

  /** How many zones of the location wrap. */
  function Wrapped(vec: seq<Zone>, open: seq<int>, srcloc: int): (n: nat)
    decreases vec
  {
    if vec == [] then 0
    else
      (if vec[0].srcloc == srcloc && Wraps(vec[0], open) then 1 else 0) +
      Wrapped(vec[0].children, open + [vec[0].srcloc], srcloc) + Wrapped(vec[1..], open, srcloc)
  }

  lemma {:induction false} CountAmong(locs: seq<int>, srcloc: int)
    ensures CountOf(locs, srcloc) > 0 <==> srcloc in locs
    decreases |locs|
  {
    if locs != [] {
      CountAmong(locs[..|locs| - 1], srcloc);
      assert locs == locs[..|locs| - 1] + [locs[|locs| - 1]];
    }
  }

  /** The two shares differ in nothing, or in that a zone inside others counts as not inside one. */
  lemma ShareIsPlain(z: Zone, open: seq<int>)
    requires z.end - z.start > 0
    ensures if Wraps(z, open)
            then PlainShare(z, open).reentry && ShareOf(z, open) == PlainShare(z, open).(reentry := false)
            else ShareOf(z, open) == PlainShare(z, open)
  {
    CountAmong(open, z.srcloc);
  }

  lemma {:induction false} NoneWrapsPlain(stats: Stats, vec: seq<Zone>, open: seq<int>)
    requires NoneWraps(vec, open)
    ensures Live(stats, vec, open) == Plain(stats, vec, open)
    decreases vec
  {
    if vec != [] {
      var z := vec[0];
      NoneWrapsPlain(stats, z.children, open + [z.srcloc]);
      if z.end - z.start > 0 {
        ShareIsPlain(z, open);
      }
      var below := Live(stats, z.children, open + [z.srcloc]);
      assert Added(below, ShareOf(z, open)) == Added(below, PlainShare(z, open));
      NoneWrapsPlain(Added(below, ShareOf(z, open)), vec[1..], open);
    }
  }

  /** The statistics of a location with two shares that differ as above. */
  lemma AddedCounts(a: Stats, b: Stats, z: Zone, open: seq<int>, srcloc: int, n: nat)
    requires FiguresOf(a, srcloc).nonReentrantCount == FiguresOf(b, srcloc).nonReentrantCount + n
    ensures FiguresOf(Added(a, ShareOf(z, open)), srcloc).nonReentrantCount ==
            FiguresOf(Added(b, PlainShare(z, open)), srcloc).nonReentrantCount + n +
            if z.srcloc == srcloc && Wraps(z, open) then 1 else 0
  {
    if z.end - z.start > 0 {
      ShareIsPlain(z, open);
    }
  }

  /** Each zone that wraps is one too many among the non-reentrant ones of its location. */
  lemma {:induction false} WrappedCounts(a: Stats, b: Stats, vec: seq<Zone>, open: seq<int>, srcloc: int, n: nat)
    requires FiguresOf(a, srcloc).nonReentrantCount == FiguresOf(b, srcloc).nonReentrantCount + n
    ensures FiguresOf(Live(a, vec, open), srcloc).nonReentrantCount ==
            FiguresOf(Plain(b, vec, open), srcloc).nonReentrantCount + n + Wrapped(vec, open, srcloc)
    decreases vec
  {
    if vec != [] {
      hide Added;
      var z := vec[0];
      var inner := open + [z.srcloc];
      WrappedCounts(a, b, z.children, inner, srcloc, n);
      var m := n + Wrapped(z.children, inner, srcloc);
      AddedCounts(Live(a, z.children, inner), Plain(b, z.children, inner), z, open, srcloc, m);
      WrappedCounts(Added(Live(a, z.children, inner), ShareOf(z, open)),
                    Added(Plain(b, z.children, inner), PlainShare(z, open)),
                    vec[1..], open, srcloc, m + if z.srcloc == srcloc && Wraps(z, open) then 1 else 0);
    }
  }

  lemma {:induction false} SomeWraps(vec: seq<Zone>, open: seq<int>) returns (srcloc: int)
    requires !NoneWraps(vec, open)
    ensures Wrapped(vec, open, srcloc) > 0
    decreases vec
  {
    if Wraps(vec[0], open) {
      srcloc := vec[0].srcloc;
    } else if !NoneWraps(vec[0].children, open + [vec[0].srcloc]) {
      srcloc := SomeWraps(vec[0].children, open + [vec[0].srcloc]);
    } else {
      srcloc := SomeWraps(vec[1..], open);
    }
  }

  function NonReentrant(f: Figures): (nat, int, int, int) {
    (f.nonReentrantCount, f.nonReentrantMin, f.nonReentrantMax, f.nonReentrantTotal)
  }

  ghost predicate SameNonReentrant(a: Stats, b: Stats) {
    forall srcloc :: NonReentrant(FiguresOf(a, srcloc)) == NonReentrant(FiguresOf(b, srcloc))
  }

  /** The non-reentrant figures are those of the zones not inside one of their own location exactly if no zone that is
      counted lies in a positive multiple of 256 zones of its location. */
  lemma NonReentrantExact(stats: Stats, vec: seq<Zone>, open: seq<int>)
    ensures SameNonReentrant(Live(stats, vec, open), Plain(stats, vec, open)) <==> NoneWraps(vec, open)
  {
    if NoneWraps(vec, open) {
      NoneWrapsPlain(stats, vec, open);
    } else {
      var srcloc := SomeWraps(vec, open);
      WrappedCounts(stats, stats, vec, open, srcloc, 0);
      assert NonReentrant(FiguresOf(Live(stats, vec, open), srcloc)) !=
             NonReentrant(FiguresOf(Plain(stats, vec, open), srcloc));
    }
  }

  /** Fewer than 256 zones of one location around any zone. */
  predicate Shallow(vec: seq<Zone>, open: seq<int>)
    decreases vec
  {
    vec == [] ||
    (CountOf(open, vec[0].srcloc) < 256 && Shallow(vec[0].children, open + [vec[0].srcloc]) && Shallow(vec[1..], open))
  }

  lemma {:induction false} ShallowExact(stats: Stats, vec: seq<Zone>, open: seq<int>)
    requires Shallow(vec, open)
    ensures NoneWraps(vec, open) && SameNonReentrant(Live(stats, vec, open), Plain(stats, vec, open))
    decreases vec
  {
    if vec != [] {
      ShallowExact(stats, vec[0].children, open + [vec[0].srcloc]);
      ShallowExact(stats, vec[1..], open);
    }
    NonReentrantExact(stats, vec, open);
  }

  // A recursion 257 calls deep: the innermost call is inside 256 others.

  function Recursion(srcloc: int, depth: nat): (z: Zone)
    requires depth > 0
  {
    Zone(srcloc, 0, 1, 0, if depth == 1 then [] else [Recursion(srcloc, depth - 1)])
  }

  lemma {:induction false} RepeatedCount(locs: seq<int>, srcloc: int)
    requires forall i :: 0 <= i < |locs| ==> locs[i] == srcloc
    ensures CountOf(locs, srcloc) == |locs|
    decreases |locs|
  {
    if locs != [] {
      RepeatedCount(locs[..|locs| - 1], srcloc);
    }
  }

  lemma {:induction false} RecursionWraps(srcloc: int, depth: nat, open: seq<int>)
    requires depth > 0 && |open| + depth <= 257 && forall i :: 0 <= i < |open| ==> open[i] == srcloc
    ensures Wrapped([Recursion(srcloc, depth)], open, srcloc) == if |open| + depth == 257 then 1 else 0
    decreases depth
  {
    var z := Recursion(srcloc, depth);
    RepeatedCount(open, srcloc);
    assert [z][1..] == [] && [z][0] == z;
    if depth > 1 {
      RecursionWraps(srcloc, depth - 1, open + [srcloc]);
    }
  }

  lemma {:induction false} RecursionPlain(stats: Stats, srcloc: int, depth: nat, open: seq<int>)
    requires depth > 0 && open != [] && forall i :: 0 <= i < |open| ==> open[i] == srcloc
    ensures FiguresOf(Plain(stats, [Recursion(srcloc, depth)], open), srcloc).nonReentrantCount ==
            FiguresOf(stats, srcloc).nonReentrantCount
    decreases depth
  {
    var z := Recursion(srcloc, depth);
    assert [z][1..] == [] && [z][0] == z && open[0] in open;
    if depth > 1 {
      RecursionPlain(stats, srcloc, depth - 1, open + [srcloc]);
    }
  }

  /** Of a recursion 257 calls deep one call is not inside another, but two are counted. */
  lemma {:induction false} DeepRecursion(srcloc: int)
    ensures ghost var vec := [Recursion(srcloc, 257)];
      FiguresOf(Plain(map[], vec, []), srcloc).nonReentrantCount == 1 &&
      FiguresOf(Live(map[], vec, []), srcloc).nonReentrantCount == 2 && !NoneWraps(vec, [])
  {
    var z := Recursion(srcloc, 257);
    assert [z][1..] == [] && [z][0] == z && [] + [srcloc] == [srcloc];
    RecursionPlain(map[], srcloc, 256, [srcloc]);
    RecursionWraps(srcloc, 257, []);
    WrappedCounts(map[], map[], [z], [], srcloc, 0);
    if NoneWraps([z], []) {
      NoneWrapsPlain(map[], [z], []);
    }
  }

  /** Inside exactly 256 zones of its location a zone counts as inside none. */
  lemma ReentryAt256(srcloc: int)
    ensures ghost var open := seq(256, _ => srcloc);
      srcloc in open && CountOf(open, srcloc) == 256 && !Reentry(open, srcloc)
  {
    var open := seq(256, _ => srcloc);
    RepeatedCount(open, srcloc);
    assert open[0] == srcloc;
  }
}
