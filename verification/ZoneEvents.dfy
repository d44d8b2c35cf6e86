/** The begin and end events of one thread as the worker processes them, and the statistics rebuilt from a loaded
    timeline. */
module ZoneEvents {
  import opened Counting
  import opened ZoneFigures
  import opened ZoneStatistics
  import opened ZoneTimeline

  /** A zone that has begun and not ended, with its children so far. */
  datatype OpenZone = OpenZone(srcloc: int, start: int, extra: nat, children: seq<Zone>)

  datatype EndResult = Ended | DoubleEnd | StackFailure

  function Locs(stack: seq<OpenZone>): (locs: seq<int>) {
    seq(|stack|, i requires 0 <= i < |stack| => stack[i].srcloc)
  }

  /** The statistics of all zones that have ended: the roots, then the children of the open zones from outside in. */
  ghost function Tally(timeline: seq<Zone>, stack: seq<OpenZone>): Stats {
    if stack == [] then Live(map[], timeline, [])
    else Live(Tally(timeline, stack[..|stack| - 1]), stack[|stack| - 1].children, Locs(stack))
  }

  /** The zones that have ended, in the same order. */
  ghost function EndedPlaces(timeline: seq<Zone>, stack: seq<OpenZone>): seq<Place> {
    if stack == [] then Places(timeline, [])
    else EndedPlaces(timeline, stack[..|stack| - 1]) + Places(stack[|stack| - 1].children, Locs(stack))
  }

  /** What is kept for each location are the figures of its zones that have ended. */
  lemma {:induction false} TallyTells(timeline: seq<Zone>, stack: seq<OpenZone>)
    ensures Tells(Tally(timeline, stack), EndedPlaces(timeline, stack), true)
    decreases |stack|
  {
    hide Tells;
    if stack == [] {
      StatisticsOf(timeline);
    } else {
      var outer := stack[..|stack| - 1];
      TallyTells(timeline, outer);
      LiveTells(Tally(timeline, outer), EndedPlaces(timeline, outer), stack[|stack| - 1].children, Locs(stack));
    }
  }

  /** All zones lie inside each other, the open ones around what has ended inside them. */
  ghost predicate NestedOpen(timeline: seq<Zone>, stack: seq<OpenZone>, origin: int, now: int) {
    if stack == [] then Nested(timeline, origin, now)
    else
      NestedOpen(timeline, stack[..|stack| - 1], origin, stack[|stack| - 1].start) &&
      Nested(stack[|stack| - 1].children, stack[|stack| - 1].start, now)
  }

  lemma {:induction false} NestedLater(vec: seq<Zone>, lo: int, hi: int, hi': int)
    requires Nested(vec, lo, hi) && hi <= hi'
    ensures Nested(vec, lo, hi')
    decreases |vec|
  {
    if vec != [] {
      NestedLater(vec[1..], vec[0].end, hi, hi');
    }
  }

  lemma {:induction false} NestedSnoc(vec: seq<Zone>, z: Zone, lo: int)
    requires Nested(vec, lo, z.start) && z.start <= z.end && Nested(z.children, z.start, z.end)
    ensures Nested(vec + [z], lo, z.end)
    decreases |vec|
  {
    NestedBounds(vec, lo, z.start);
    if vec == [] {
      assert ([] + [z])[1..] == [] && vec + [z] == [z];
    } else {
      assert (vec + [z])[1..] == vec[1..] + [z] && (vec + [z])[0] == vec[0];
      NestedSnoc(vec[1..], z, vec[0].end);
    }
  }

  lemma SpansSnoc(vec: seq<Zone>, z: Zone)
    ensures Spans(vec + [z]) == Spans(vec) + Span(z)
  {
    assert (vec + [z])[..|vec|] == vec;
  }

  lemma CountSnoc(locs: seq<int>, loc: int, srcloc: int)
    ensures CountOf(locs + [loc], srcloc) == CountOf(locs, srcloc) + if loc == srcloc then 1 else 0
  {
    assert (locs + [loc])[..|locs|] == locs;
  }

  lemma LocsSnoc(stack: seq<OpenZone>)
    requires stack != []
    ensures Locs(stack) == Locs(stack[..|stack| - 1]) + [stack[|stack| - 1].srcloc]
  {
  }

  /** Ending the innermost zone: it becomes the last child of the one around it, or the last root. */
  lemma EndTally(timeline: seq<Zone>, stack: seq<OpenZone>, z: Zone)
    requires stack != [] && z.srcloc == stack[|stack| - 1].srcloc && z.children == stack[|stack| - 1].children
    ensures ghost var outer := stack[..|stack| - 1];
      ghost var stats := Added(Tally(timeline, stack), ShareOf(z, Locs(outer)));
      if outer == [] then stats == Tally(timeline + [z], [])
      else stats == Tally(timeline, WithChild(outer, z))
  {
    var outer := stack[..|stack| - 1];
    LocsSnoc(stack);
    if outer == [] {
      LiveSnoc(map[], timeline, z, []);
      assert Locs(outer) == [];
    } else {
      var top := |outer| - 1;
      LiveSnoc(Tally(timeline, outer[..top]), outer[top].children, z, Locs(outer));
      assert WithChild(outer, z)[..top] == outer[..top] && Locs(WithChild(outer, z)) == Locs(outer);
    }
  }

  function WithChild(stack: seq<OpenZone>, z: Zone): (r: seq<OpenZone>)
    requires stack != []
  {
    stack[|stack| - 1 := stack[|stack| - 1].(children := stack[|stack| - 1].children + [z])]
  }

  lemma EndNested(timeline: seq<Zone>, stack: seq<OpenZone>, origin: int, now: int, z: Zone)
    requires stack != [] && NestedOpen(timeline, stack, origin, now)
    requires z.start == stack[|stack| - 1].start && z.children == stack[|stack| - 1].children && z.end >= now
    ensures z.start <= now
    ensures ghost var outer := stack[..|stack| - 1];
      if outer == [] then NestedOpen(timeline + [z], [], origin, z.end)
      else NestedOpen(timeline, WithChild(outer, z), origin, z.end)
  {
    var outer := stack[..|stack| - 1];
    NestedBounds(z.children, z.start, now);
    NestedLater(z.children, z.start, now, z.end);
    if outer == [] {
      NestedSnoc(timeline, z, origin);
    } else {
      var top := |outer| - 1;
      NestedSnoc(outer[top].children, z, outer[top].start);
      assert WithChild(outer, z)[..top] == outer[..top];
    }
  }

  function CountIn(counts: map<int, nat>, srcloc: int): nat {
    if srcloc in counts then counts[srcloc] else 0
  }

  /** The counts are those of the locations, each in a byte. */
  ghost predicate Counters(counts: map<int, nat>, locs: seq<int>) {
    forall srcloc :: CountIn(counts, srcloc) == CountOf(locs, srcloc) % 256
  }

  function Counted(counts: map<int, nat>, srcloc: int): (r: map<int, nat>) {
    counts[srcloc := (CountIn(counts, srcloc) + 1) % 256]
  }

  function Discounted(counts: map<int, nat>, srcloc: int): (r: map<int, nat>) {
    counts[srcloc := (CountIn(counts, srcloc) + 255) % 256]
  }

  lemma CountersEnter(counts: map<int, nat>, locs: seq<int>, srcloc: int)
    requires Counters(counts, locs)
    ensures Counters(Counted(counts, srcloc), locs + [srcloc])
  {
    forall loc ensures CountIn(Counted(counts, srcloc), loc) == CountOf(locs + [srcloc], loc) % 256 {
      CountSnoc(locs, srcloc, loc);
    }
  }

  lemma CountersExit(counts: map<int, nat>, locs: seq<int>, srcloc: int)
    requires Counters(counts, locs + [srcloc])
    ensures Counters(Discounted(counts, srcloc), locs)
    ensures CountIn(Discounted(counts, srcloc), srcloc) != 0 <==> Reentry(locs, srcloc)
  {
    forall loc ensures CountIn(Discounted(counts, srcloc), loc) == CountOf(locs, loc) % 256 {
      CountSnoc(locs, srcloc, loc);
      assert CountIn(counts, loc) == CountOf(locs + [srcloc], loc) % 256;
    }
  }

  /** Each open zone's entry is the time its children have taken so far. */
  ghost predicate ChildTimes(times: seq<int>, stack: seq<OpenZone>) {
    |times| == |stack| && forall k :: 0 <= k < |stack| ==> times[k] == Spans(stack[k].children)
  }

  lemma ChildTimesBegin(times: seq<int>, stack: seq<OpenZone>, o: OpenZone)
    requires ChildTimes(times, stack) && o.children == []
    ensures ChildTimes(times + [0], stack + [o])
  {
  }

  lemma ChildTimesEnd(times: seq<int>, stack: seq<OpenZone>, z: Zone)
    requires ChildTimes(times, stack) && stack != [] && |times| == |stack|
    ensures times[|stack| - 1] == Spans(stack[|stack| - 1].children)
    ensures ghost var top := |stack| - 1;
      if top == 0 then ChildTimes([], []) && times[..top] == [] && stack[..top] == []
      else ChildTimes(times[..top][top - 1 := times[top - 1] + Span(z)], WithChild(stack[..top], z))
  {
    var top := |stack| - 1;
    if top > 0 {
      SpansSnoc(stack[top - 1].children, z);
      hide Spans, Span;
    }
  }

  ghost predicate StateOk(timeline: seq<Zone>, stack: seq<OpenZone>, times: seq<int>, counts: map<int, nat>,
                          stats: Stats, origin: int, now: int)
  {
    ChildTimes(times, stack) && Counters(counts, Locs(stack)) && stats == Tally(timeline, stack) &&
    NestedOpen(timeline, stack, origin, now)
  }

  function EndShare(o: OpenZone, time: int, childTime: int, isReentry: bool): (s: Share) {
    Share(o.srcloc, time - o.start, time - o.start - childTime, isReentry)
  }

  function EndedZone(o: OpenZone, time: int): (z: Zone) {
    Zone(o.srcloc, o.start, time, o.extra, o.children)
  }

  /** The state after the innermost zone has ended. */
  lemma EndOk(timeline: seq<Zone>, stack: seq<OpenZone>, times: seq<int>, counts: map<int, nat>, stats: Stats,
              origin: int, now: int, time: int, top: nat)
    requires StateOk(timeline, stack, times, counts, stats, origin, now) && time >= now
    requires |stack| == |times| == top + 1
    ensures ghost var o, counts' := stack[top], Discounted(counts, stack[top].srcloc);
      ghost var stats' := Added(stats, EndShare(o, time, times[top], CountIn(counts', o.srcloc) != 0));
      if top == 0 then StateOk(timeline + [EndedZone(o, time)], [], [], counts', stats', origin, time)
      else StateOk(timeline, WithChild(stack[..top], EndedZone(o, time)),
                   times[..top][top - 1 := times[top - 1] + Span(EndedZone(o, time))], counts', stats', origin, time)
  {
    hide Counters, ChildTimes, Live, Nested, Tally, NestedOpen, Spans, Reentry, CountIn, Discounted, CountOf, Span,
      Added;
    var o := stack[top];
    var z := EndedZone(o, time);
    LocsSnoc(stack);
    CountersExit(counts, Locs(stack[..top]), o.srcloc);
    ChildTimesEnd(times, stack, z);
    EndTally(timeline, stack, z);
    EndNested(timeline, stack, origin, now, z);
    if top > 0 {
      assert Locs(WithChild(stack[..top], z)) == Locs(stack[..top]);
    } else {
      assert Locs(stack[..top]) == Locs([]) && stack[..top] == [];
    }
  }

  class ThreadEvents {
    var timeline: seq<Zone>
    var stack: seq<OpenZone>
    var childTimeStack: seq<int>
    var stackCount: map<int, nat>
    var zoneIdStack: seq<nat>
    var nextZoneId: nat
    var stats: Stats
    ghost const origin: int
    ghost var now: int

    ghost predicate Valid()
      reads this
    {
      |zoneIdStack| == |stack| && StateOk(timeline, stack, childTimeStack, stackCount, stats, origin, now)
    }

    constructor (time: int)
      ensures Valid() && timeline == [] && stack == [] && now == time == origin
    {
      timeline, stack, childTimeStack, stackCount, zoneIdStack, nextZoneId, stats := [], [], [], map[], [], 0, map[];
      origin, now := time, time;
    }

    /** NewZone */
    method NewZone(srcloc: int, time: int, extra: nat)
      requires Valid() && time >= now
      modifies this
      ensures Valid() && now == time && timeline == old(timeline) && stats == old(stats)
      ensures stack == old(stack) + [OpenZone(srcloc, time, extra, [])]
      ensures zoneIdStack == old(zoneIdStack + [nextZoneId]) && nextZoneId == 0
    {
      hide Counters, ChildTimes, Live, Nested, Locs;
      ghost var outer := stack;
      var zone := OpenZone(srcloc, time, extra, []);
      NowLater(timeline, stack, origin, now, time);
      CountersEnter(stackCount, Locs(stack), srcloc);
      ChildTimesBegin(childTimeStack, stack, zone);
      BeginTally(timeline, stack, origin, zone);
      stackCount := Counted(stackCount, srcloc);
      stack := stack + [zone];
      zoneIdStack := zoneIdStack + [nextZoneId];
      nextZoneId := 0;
      childTimeStack := childTimeStack + [0];
      now := time;
      assert stack[..|stack| - 1] == outer;
      LocsSnoc(stack);
    }

    lemma BeginTally(timeline: seq<Zone>, stack: seq<OpenZone>, origin: int, zone: OpenZone)
      requires zone.children == [] && NestedOpen(timeline, stack, origin, zone.start)
      ensures Tally(timeline, stack + [zone]) == Tally(timeline, stack)
      ensures NestedOpen(timeline, stack + [zone], origin, zone.start)
    {
      assert (stack + [zone])[..|stack|] == stack;
    }

    lemma NowLater(timeline: seq<Zone>, stack: seq<OpenZone>, origin: int, now: int, time: int)
      requires NestedOpen(timeline, stack, origin, now) && time >= now
      ensures NestedOpen(timeline, stack, origin, time)
    {
      if stack == [] {
        NestedLater(timeline, origin, now, time);
      } else {
        NestedLater(stack[|stack| - 1].children, stack[|stack| - 1].start, now, time);
      }
    }

    /** ProcessZoneEnd. Ended: the innermost zone got its end, and the statistics count it. A wrong id is reported when
        its entry is already off the stack of ids, and nothing else changes. */
    method ProcessZoneEnd(time: int) returns (r: EndResult)
      requires Valid() && time >= now
      modifies this
      ensures r == DoubleEnd <==> old(stack) == []
      ensures r == StackFailure <==> old(stack != [] && zoneIdStack[|zoneIdStack| - 1] != nextZoneId)
      ensures r == Ended ==> Valid() && now == time && nextZoneId == 0 && old(stack) != []
      ensures r == Ended ==>
        ghost var outer, z := old(stack[..|stack| - 1]), EndedZone(old(stack[|stack| - 1]), time);
        if outer == [] then timeline == old(timeline) + [z] && stack == []
        else timeline == old(timeline) && stack == WithChild(outer, z)
      ensures r == Ended ==> Tells(stats, EndedPlaces(timeline, stack), true)
      ensures r != Ended ==> unchanged(`timeline, `stack, `childTimeStack, `stackCount, `nextZoneId, `stats, `now)
      ensures r == DoubleEnd ==> Valid() && zoneIdStack == old(zoneIdStack)
      ensures r == StackFailure ==> zoneIdStack == old(zoneIdStack[..|zoneIdStack| - 1]) && !Valid()
    {
      hide StateOk;
      if zoneIdStack == [] {
        return DoubleEnd;
      }
      var top := |stack| - 1;
      var zoneId := zoneIdStack[top];
      zoneIdStack := zoneIdStack[..top];
      if zoneId != nextZoneId {
        return StackFailure;
      }
      EndZone(time);
      StatsTell();
      r := Ended;
    }

    /** ProcessZoneEnd once the end has been found to match. */
    method EndZone(time: int)
      requires StateOk(timeline, stack, childTimeStack, stackCount, stats, origin, now) && time >= now && stack != []
      requires |zoneIdStack| == |stack| - 1
      modifies this
      ensures Valid() && now == time && nextZoneId == 0
      ensures ghost var outer, z := old(stack[..|stack| - 1]), EndedZone(old(stack[|stack| - 1]), time);
        if outer == [] then timeline == old(timeline) + [z] && stack == []
        else timeline == old(timeline) && stack == WithChild(outer, z)
    {
      hide StateOk, CountIn, Discounted;
      StateLengths();
      var top := |stack| - 1;
      EndOk(timeline, stack, childTimeStack, stackCount, stats, origin, now, time, top);
      nextZoneId := 0;
      var zone := stack[top];
      stack := stack[..top];
      stackCount := Discounted(stackCount, zone.srcloc);
      var isReentry := CountIn(stackCount, zone.srcloc) != 0;
      var timeSpan := time - zone.start;
      var childTime := childTimeStack[top];
      childTimeStack := childTimeStack[..top];
      if timeSpan > 0 {
        stats := Added(stats, EndShare(zone, time, childTime, isReentry));
        if childTimeStack != [] {
          childTimeStack := childTimeStack[top - 1 := childTimeStack[top - 1] + timeSpan];
        }
      } else {
        assert top > 0 ==> childTimeStack[top - 1 := childTimeStack[top - 1]] == childTimeStack;
      }
      if stack == [] {
        timeline := timeline + [EndedZone(zone, time)];
      } else {
        stack := WithChild(stack, EndedZone(zone, time));
      }
      now := time;
    }

    lemma StateLengths()
      requires StateOk(timeline, stack, childTimeStack, stackCount, stats, origin, now)
      ensures |childTimeStack| == |stack|
    {
    }

    lemma StatsTell()
      requires Valid()
      ensures Tells(stats, EndedPlaces(timeline, stack), true)
    {
      hide Tells;
      TallyTells(timeline, stack);
    }

    /** When all zones have ended, the live statistics are those rebuilt from the timeline and the figures of all its
        zones, and the self times in them add up to the spans of the roots; the non-reentrant figures are right exactly
        if no zone wraps. */
    lemma LiveIsRebuilt(locs: seq<int>)
      requires Valid() && stack == []
      ensures stats == Rebuilt(map[], timeline, []) && Tells(stats, Places(timeline, []), true)
      ensures Distinct(locs) && Covered(timeline, locs) ==> SelfTotals(stats, locs) == Spans(timeline)
      ensures SameNonReentrant(stats, Plain(map[], timeline, [])) <==> NoneWraps(timeline, [])
    {
      hide Tells;
      NonReentrantExact(map[], timeline, []);
      RebuiltIsLive(map[], timeline, []);
      StatisticsOf(timeline);
      if Distinct(locs) && Covered(timeline, locs) {
        SelfTimeConserved(timeline, origin, now, locs);
      }
    }
  }

  class Reconstruction {
    var stats: Stats
    var countMap: map<int, nat>
    ghost var open: seq<int>

    ghost predicate Valid()
      reads this
    {
      Counters(countMap, open)
    }

    constructor ()
      ensures Valid() && stats == map[] && open == []
    {
      stats, countMap, open := map[], map[], [];
    }

    /** ReconstructZoneStatistics. What was told of some zones is now told of one more. */
    method ReconstructZoneStatistics(zone: Zone)
      requires Valid()
      modifies this`stats
      ensures stats == Added(old(stats), ShareOf(zone, open))
      ensures forall ps :: Tells(old(stats), ps, true) ==> Tells(stats, ps + [Place(zone, open)], true)
    {
      hide Tells;
      forall ps | Tells(stats, ps, true)
        ensures Tells(Added(stats, ShareOf(zone, open)), ps + [Place(zone, open)], true)
      {
        TellsMore(stats, ps, Place(zone, open), true);
      }
      var timeSpan := zone.end - zone.start;
      if timeSpan > 0 {
        var self := timeSpan;
        for i := 0 to |zone.children|
          invariant self == timeSpan - Spans(zone.children[..i])
        {
          var v := zone.children[i];
          var childSpan := if v.end - v.start > 0 then v.end - v.start else 0;
          assert zone.children[..i + 1][..i] == zone.children[..i];
          self := self - childSpan;
        }
        assert zone.children[..|zone.children|] == zone.children;
        stats := Added(stats, Share(zone.srcloc, timeSpan, self, CountIn(countMap, zone.srcloc) != 0));
      }
    }

    /** ProcessTimeline: every zone, then its children with the zone's location counted once more. */
    method ProcessTimeline(vec: seq<Zone>)
      requires Valid()
      modifies this
      ensures Valid() && open == old(open) && stats == Rebuilt(old(stats), vec, open)
      ensures forall ps :: Tells(old(stats), ps, true) ==> Tells(stats, ps + Places(vec, open), true)
      decreases vec
    {
      hide Tells;
      ghost var open0, stats0 := open, stats;
      for i := 0 to |vec|
        invariant Valid() && open == open0 && stats == Rebuilt(stats0, vec[..i], open0)
      {
        var zone := vec[i];
        assert zone in vec;
        ReconstructZoneStatistics(zone);
        RebuiltSnoc(stats0, vec, i, open0);
        if zone.children != [] {
          Enter(zone.srcloc);
          ProcessTimeline(zone.children);
          Exit(zone.srcloc);
        }
      }
      assert vec[..|vec|] == vec;
      RebuiltIsLive(stats0, vec, open);
      forall ps | Tells(stats0, ps, true) ensures Tells(stats, ps + Places(vec, open), true) {
        LiveTells(stats0, ps, vec, open);
      }
    }

    method Enter(srcloc: int)
      requires Valid()
      modifies this`countMap, this`open
      ensures Valid() && open == old(open) + [srcloc]
    {
      CountersEnter(countMap, open, srcloc);
      countMap := Counted(countMap, srcloc);
      open := open + [srcloc];
    }

    method Exit(srcloc: int)
      requires Valid() && open != [] && open[|open| - 1] == srcloc
      modifies this`countMap, this`open
      ensures Valid() && open == old(open[..|open| - 1])
    {
      assert open == open[..|open| - 1] + [srcloc];
      CountersExit(countMap, open[..|open| - 1], srcloc);
      countMap := Discounted(countMap, srcloc);
      open := open[..|open| - 1];
    }
  }
}
