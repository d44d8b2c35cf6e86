/** How many CPUs ran threads of the traced program, and of others, at every time: a sweep over the switches of all
    CPUs. */
module ContextSwitches {

  /** A thread ran on the CPU from start to end; end is -1 while it still does. own: a thread of the program. */
  datatype Switch = Switch(start: int, end: int, own: bool)

  datatype Usage = Usage(time: int, other: nat, own: nat)

  predicate IsOpen(s: Switch) {
    s.end < 0
  }

  /** The switches of one CPU follow each other, and only the last one may be open. */
  ghost predicate Ordered(cs: seq<Switch>) {
    (forall j :: 0 <= j < |cs| ==> 0 <= cs[j].start) &&
    (forall j :: 0 <= j < |cs| ==> IsOpen(cs[j]) || cs[j].start <= cs[j].end) &&
    (forall j, k :: 0 <= j < k < |cs| ==> !IsOpen(cs[j]) && cs[j].end <= cs[k].start)
  }

  // ---- the meaning -----------------------------------------------------------------------------------------

  predicate RunsIn(s: Switch, t: int) {
    s.start <= t && (IsOpen(s) || t < s.end)
  }

  ghost predicate Runs(cs: seq<Switch>, t: int, own: bool) {
    exists j :: 0 <= j < |cs| && RunsIn(cs[j], t) && cs[j].own == own
  }

  /** The number of CPUs that run own or other threads at time t. */
  ghost function Running(cpus: seq<seq<Switch>>, t: int, own: bool): (n: nat)
    ensures n <= |cpus|
  {
    if cpus == [] then 0
    else Running(cpus[..|cpus| - 1], t, own) + if Runs(cpus[|cpus| - 1], t, own) then 1 else 0
  }

  /** The entry in force at time t: the last one not later. */
  function EntryAt(vec: seq<Usage>, t: int): (u: Usage)
    requires vec != []
  {
    if |vec| == 1 || vec[|vec| - 1].time <= t then vec[|vec| - 1] else EntryAt(vec[..|vec| - 1], t)
  }

  // ---- where the sweep is on one CPU -----------------------------------------------------------------------

  datatype Cursor = Cursor(it: nat, startDone: bool)

  predicate Within(cs: seq<Switch>, c: Cursor) {
    c.it <= |cs| && (c.startDone ==> c.it < |cs| && !IsOpen(cs[c.it]))
  }

  function NextTime(cs: seq<Switch>, c: Cursor): int
    requires c.it < |cs|
  {
    if !c.startDone then cs[c.it].start else cs[c.it].end
  }

  /** The switch that is running after what the sweep has seen. */
  predicate Current(cs: seq<Switch>, c: Cursor, own: bool)
    requires Within(cs, c)
  {
    if c.startDone then cs[c.it].own == own else c.it > 0 && IsOpen(cs[c.it - 1]) && cs[c.it - 1].own == own
  }

  /** All that the sweep has seen on the CPU happened by time t, and what comes next does not. */
  ghost predicate UpTo(cs: seq<Switch>, c: Cursor, t: int) {
    Within(cs, c) && (c.it < |cs| ==> NextTime(cs, c) > t) &&
    (c.startDone ==> cs[c.it].start <= t) &&
    (!c.startDone && c.it > 0 ==> if IsOpen(cs[c.it - 1]) then cs[c.it - 1].start <= t else cs[c.it - 1].end <= t)
  }

  /** At time t no other switch runs than the one the cursor is in, or the one just behind it. */
  lemma RunsOnlyThere(cs: seq<Switch>, c: Cursor, t: int, j: nat)
    requires Ordered(cs) && UpTo(cs, c, t) && j < |cs| && j != if c.startDone then c.it else c.it - 1
    ensures !RunsIn(cs[j], t)
  {
    if j > c.it {
      assert cs[c.it].end <= cs[j].start;
    } else if j < c.it && c.startDone {
      assert cs[j].end <= cs[c.it].start;
    } else if j < c.it {
      assert cs[j].end <= cs[c.it - 1].start;
    }
  }

  /** So the cursor says what runs at time t. */
  lemma CurrentRuns(cs: seq<Switch>, c: Cursor, t: int, own: bool)
    requires Ordered(cs) && UpTo(cs, c, t)
    ensures Runs(cs, t, own) <==> Current(cs, c, own)
  {
    var cur := if c.startDone then c.it else c.it - 1;
    forall j | 0 <= j < |cs| && j != cur ensures !RunsIn(cs[j], t) {
      RunsOnlyThere(cs, c, t, j);
    }
    if Current(cs, c, own) {
      assert RunsIn(cs[cur], t);
    }
  }

  lemma UpToLater(cs: seq<Switch>, c: Cursor, t: int, t': int)
    requires UpTo(cs, c, t) && t <= t' && (c.it < |cs| ==> NextTime(cs, c) > t')
    ensures UpTo(cs, c, t')
  {
  }

  // ---- all CPUs --------------------------------------------------------------------------------------------

  ghost predicate AllWithin(cpus: seq<seq<Switch>>, cursors: seq<Cursor>) {
    |cursors| == |cpus| && forall i :: 0 <= i < |cpus| ==> Within(cpus[i], cursors[i])
  }

  function CurrentCount(cpus: seq<seq<Switch>>, cursors: seq<Cursor>, own: bool): (n: nat)
    requires |cursors| == |cpus| && forall i :: 0 <= i < |cpus| ==> Within(cpus[i], cursors[i])
    ensures n <= |cpus|
  {
    if cpus == [] then 0
    else
      var last := |cpus| - 1;
      CurrentCount(cpus[..last], cursors[..last], own) + if Current(cpus[last], cursors[last], own) then 1 else 0
  }

  lemma {:induction false} CountChanged(cpus: seq<seq<Switch>>, cursors: seq<Cursor>, i: nat, c: Cursor, own: bool)
    requires AllWithin(cpus, cursors) && i < |cpus| && Within(cpus[i], c)
    ensures AllWithin(cpus, cursors[i := c])
    ensures CurrentCount(cpus, cursors[i := c], own) + (if Current(cpus[i], cursors[i], own) then 1 else 0) ==
            CurrentCount(cpus, cursors, own) + if Current(cpus[i], c, own) then 1 else 0
    decreases |cpus|
  {
    var last := |cpus| - 1;
    if i < last {
      CountChanged(cpus[..last], cursors[..last], i, c, own);
      assert cursors[i := c][..last] == cursors[..last][i := c];
    } else {
      assert cursors[i := c][..last] == cursors[..last];
    }
  }

  lemma {:induction false} CountsRunning(cpus: seq<seq<Switch>>, cursors: seq<Cursor>, t: int, own: bool)
    requires |cursors| == |cpus| && forall i :: 0 <= i < |cpus| ==> Ordered(cpus[i]) && UpTo(cpus[i], cursors[i], t)
    ensures AllWithin(cpus, cursors) && CurrentCount(cpus, cursors, own) == Running(cpus, t, own)
    decreases |cpus|
  {
    if cpus != [] {
      var last := |cpus| - 1;
      CountsRunning(cpus[..last], cursors[..last], t, own);
      CurrentRuns(cpus[last], cursors[last], t, own);
    }
  }

  /** The events left on all CPUs. */
  function Left(cpus: seq<seq<Switch>>, cursors: seq<Cursor>): (n: nat)
    requires |cursors| == |cpus| && forall i :: 0 <= i < |cpus| ==> Within(cpus[i], cursors[i])
  {
    if cpus == [] then 0
    else
      var last := |cpus| - 1;
      Left(cpus[..last], cursors[..last]) + LeftOn(cpus[last], cursors[last])
  }

  function LeftOn(cs: seq<Switch>, c: Cursor): (n: nat)
    requires Within(cs, c)
  {
    2 * (|cs| - c.it) - if c.startDone then 1 else 0
  }

  lemma {:induction false} LeftChanged(cpus: seq<seq<Switch>>, cursors: seq<Cursor>, i: nat, c: Cursor)
    requires AllWithin(cpus, cursors) && i < |cpus| && Within(cpus[i], c)
    ensures AllWithin(cpus, cursors[i := c])
    ensures Left(cpus, cursors[i := c]) + LeftOn(cpus[i], cursors[i]) == Left(cpus, cursors) + LeftOn(cpus[i], c)
    decreases |cpus|
  {
    var last := |cpus| - 1;
    if i < last {
      LeftChanged(cpus[..last], cursors[..last], i, c);
      assert cursors[i := c][..last] == cursors[..last][i := c];
    } else {
      assert cursors[i := c][..last] == cursors[..last];
    }
  }

  // ---- the sweep -------------------------------------------------------------------------------------------

  /** The usage so far is right for every time from 0 to before `until`. */
  ghost predicate RightUntil(cpus: seq<seq<Switch>>, vec: seq<Usage>, until: int) {
    vec != [] && forall t :: 0 <= t < until ==>
      EntryAt(vec, t).own == Running(cpus, t, true) && EntryAt(vec, t).other == Running(cpus, t, false)
  }

  ghost predicate RightAlways(cpus: seq<seq<Switch>>, vec: seq<Usage>) {
    vec != [] && forall t :: 0 <= t ==>
      EntryAt(vec, t).own == Running(cpus, t, true) && EntryAt(vec, t).other == Running(cpus, t, false)
  }

  predicate SameNumbers(u: Usage, v: Usage) {
    u.own == v.own && u.other == v.other
  }

  /** The list starts with nothing running at time 0; every further entry has other numbers than the one before, at a
      later time, but for one at time 0 itself. */
  ghost predicate Changing(vec: seq<Usage>) {
    vec != [] && vec[0] == Usage(0, 0, 0) &&
    forall i :: 0 < i < |vec| ==>
      !SameNumbers(vec[i - 1], vec[i]) && (vec[i - 1].time < vec[i].time || (i == 1 && vec[1].time == 0))
  }

  lemma ChangingOne(vec: seq<Usage>)
    requires vec == [Usage(0, 0, 0)]
    ensures Changing(vec)
  {
  }

  lemma ChangingMore(vec: seq<Usage>, u: Usage)
    requires Changing(vec) && !SameNumbers(vec[|vec| - 1], u)
    requires vec[|vec| - 1].time < u.time || (|vec| == 1 && u.time == 0)
    ensures Changing(vec + [u])
  {
  }

  lemma {:induction false} ChangingFront(vec: seq<Usage>)
    requires Changing(vec) && |vec| > 1
    ensures ghost var n := |vec| - 1;
      Changing(vec[..n]) && 0 <= vec[n - 1].time <= vec[n].time && !SameNumbers(vec[n - 1], vec[n]) &&
      (vec[n].time == 0 ==> n == 1) && (vec[n].time > 0 ==> vec[n - 1].time < vec[n].time)
    decreases |vec|
  {
    if |vec| > 2 {
      assert vec[..|vec| - 1][|vec| - 2] == vec[|vec| - 2];
      ChangingFront(vec[..|vec| - 1]);
    }
  }

  /** An entry that is the last at its time is the one in force then. */
  lemma {:induction false} InForce(vec: seq<Usage>, i: nat)
    requires Changing(vec) && i < |vec| && (i + 1 < |vec| ==> vec[i + 1].time > vec[i].time)
    ensures 0 <= vec[i].time && EntryAt(vec, vec[i].time) == vec[i]
    decreases |vec|
  {
    if |vec| > 1 {
      ChangingFront(vec);
      var front := vec[..|vec| - 1];
      if i < |front| {
        InForce(front, i);
        if i + 1 < |front| {
          NotLater(vec, i + 1, |front|);
        }
      }
    }
  }

  lemma {:induction false} NotLater(vec: seq<Usage>, i: nat, j: nat)
    requires Changing(vec) && i <= j < |vec|
    ensures vec[i].time <= vec[j].time
    decreases j
  {
    if i < j {
      NotLater(vec, i, j - 1);
    }
  }

  /** So it has the numbers of CPUs at its own time. */
  lemma EntriesRight(cpus: seq<seq<Switch>>, vec: seq<Usage>, i: nat)
    requires RightAlways(cpus, vec) && Changing(vec) && i < |vec| && (i + 1 < |vec| ==> vec[i + 1].time > vec[i].time)
    ensures vec[i].own == Running(cpus, vec[i].time, true) && vec[i].other == Running(cpus, vec[i].time, false)
  {
    InForce(vec, i);
  }

  /** There is only one such list with the same numbers at all times. */
  lemma {:induction false} SameUsage(v: seq<Usage>, w: seq<Usage>, until: int)
    requires Changing(v) && Changing(w) && v[|v| - 1].time < until && w[|w| - 1].time < until
    requires forall t :: 0 <= t < until ==> SameNumbers(EntryAt(v, t), EntryAt(w, t))
    ensures v == w
    decreases |v|
  {
    var x, y := v[|v| - 1], w[|w| - 1];
    LastTimes(v, w, until);
    assert SameNumbers(EntryAt(v, x.time), EntryAt(w, x.time));
    if |v| > 1 {
      ChangingFront(v);
    }
    if |w| > 1 {
      ChangingFront(w);
    }
    if x.time > 0 {
      var v', w' := v[..|v| - 1], w[..|w| - 1];
      forall t | 0 <= t < x.time ensures SameNumbers(EntryAt(v', t), EntryAt(w', t)) {
        assert SameNumbers(EntryAt(v, t), EntryAt(w, t));
      }
      SameUsage(v', w', x.time);
      assert v == v' + [x] && w == w' + [y];
    }
  }

  lemma LastTimes(v: seq<Usage>, w: seq<Usage>, until: int)
    requires Changing(v) && Changing(w) && v[|v| - 1].time < until && w[|w| - 1].time < until
    requires forall t :: 0 <= t < until ==> SameNumbers(EntryAt(v, t), EntryAt(w, t))
    ensures v[|v| - 1].time == w[|w| - 1].time >= 0
  {
    NotBefore(v, w, until);
    NotBefore(w, v, until);
    InForce(v, |v| - 1);
  }

  lemma NotBefore(v: seq<Usage>, w: seq<Usage>, until: int)
    requires Changing(v) && Changing(w) && v[|v| - 1].time < until && w[|w| - 1].time < until
    requires forall t :: 0 <= t < until ==> SameNumbers(EntryAt(v, t), EntryAt(w, t))
    ensures v[|v| - 1].time >= w[|w| - 1].time
  {
    var x, y := v[|v| - 1], w[|w| - 1];
    InForce(v, |v| - 1);
    if x.time < y.time {
      ChangingFront(w);
      InForce(w[..|w| - 1], |w| - 2);
      var t := if w[|w| - 2].time < x.time then x.time else w[|w| - 2].time;
      assert SameNumbers(EntryAt(v, y.time), EntryAt(w, y.time));
      var last := EntryAt(w, t);
    }
  }

  /** What is right at all times and changes like that is therefore the list. */
  lemma UsageOnce(cpus: seq<seq<Switch>>, v: seq<Usage>, w: seq<Usage>)
    requires RightAlways(cpus, v) && RightAlways(cpus, w) && Changing(v) && Changing(w)
    ensures v == w
  {
    hide Running;
    SameUsage(v, w, 1 + if v[|v| - 1].time < w[|w| - 1].time then w[|w| - 1].time else v[|v| - 1].time);
  }

  ghost predicate AllOrdered(cpus: seq<seq<Switch>>) {
    forall i :: 0 <= i < |cpus| ==> Ordered(cpus[i])
  }

  /** Every CPU has been followed up to time t. */
  ghost predicate AllUpTo(cpus: seq<seq<Switch>>, cursors: seq<Cursor>, t: int) {
    |cursors| == |cpus| && forall i :: 0 <= i < |cpus| ==> UpTo(cpus[i], cursors[i], t)
  }

  /** The first loop of a round: the time of the next event on any CPU. */
  method FindNextTime(cpus: seq<seq<Switch>>, cursors: seq<Cursor>) returns (atEnd: bool, nextTime: int, ghost at: nat)
    requires AllWithin(cpus, cursors)
    ensures atEnd <==> forall i :: 0 <= i < |cpus| ==> cursors[i].it == |cpus[i]|
    ensures !atEnd ==> at < |cpus| && cursors[at].it < |cpus[at]| && NextTime(cpus[at], cursors[at]) == nextTime
    ensures !atEnd ==>
      forall i :: 0 <= i < |cpus| && cursors[i].it < |cpus[i]| ==> NextTime(cpus[i], cursors[i]) >= nextTime
  {
    atEnd, nextTime, at := true, 0, 0;
    for i := 0 to |cpus|
      invariant atEnd <==> forall j :: 0 <= j < i ==> cursors[j].it == |cpus[j]|
      invariant !atEnd ==> at < i && cursors[at].it < |cpus[at]| && NextTime(cpus[at], cursors[at]) == nextTime
      invariant !atEnd ==>
        forall j :: 0 <= j < i && cursors[j].it < |cpus[j]| ==> NextTime(cpus[j], cursors[j]) >= nextTime
    {
      if cursors[i].it != |cpus[i]| {
        var ct := NextTime(cpus[i], cursors[i]);
        if atEnd || ct < nextTime {
          nextTime, at := ct, i;
        }
        atEnd := false;
      }
    }
  }

  /** One event of a CPU. */
  function Stepped(cs: seq<Switch>, c: Cursor): (r: Cursor)
    requires Within(cs, c) && c.it < |cs|
  {
    if c.startDone then Cursor(c.it + 1, false)
    else if IsOpen(cs[c.it]) then Cursor(c.it + 1, false)
    else Cursor(c.it, true)
  }

  /** All that the sweep has seen on the CPU happened by time t. */
  ghost predicate SeenBy(cs: seq<Switch>, c: Cursor, t: int) {
    Within(cs, c) && (c.startDone ==> cs[c.it].start <= t) &&
    (!c.startDone && c.it > 0 ==> if IsOpen(cs[c.it - 1]) then cs[c.it - 1].start <= t else cs[c.it - 1].end <= t)
  }

  lemma SteppedSeen(cs: seq<Switch>, c: Cursor, t: int)
    requires Ordered(cs) && SeenBy(cs, c, t) && c.it < |cs| && NextTime(cs, c) == t
    ensures SeenBy(cs, Stepped(cs, c), t) && LeftOn(cs, Stepped(cs, c)) < LeftOn(cs, c)
    ensures Stepped(cs, c).it < |cs| ==> NextTime(cs, Stepped(cs, c)) >= t
    ensures ghost var own := cs[c.it].own;
      if c.startDone then Current(cs, c, own) && !Current(cs, c, !own) && !Current(cs, Stepped(cs, c), own) &&
                          !Current(cs, Stepped(cs, c), !own)
      else !Current(cs, c, own) && !Current(cs, c, !own) && Current(cs, Stepped(cs, c), own) &&
           !Current(cs, Stepped(cs, c), !own)
  {
  }

  class UsageSweep {
    const cpus: seq<seq<Switch>>
    var cursors: seq<Cursor>
    var own: nat
    var other: nat
    var vec: seq<Usage>

    constructor (cpus: seq<seq<Switch>>)
      ensures this.cpus == cpus && |cursors| == |cpus| && own == other == 0 && vec == []
      ensures forall i :: 0 <= i < |cpus| ==> cursors[i] == Cursor(0, false)
    {
      this.cpus, cursors, own, other, vec := cpus, seq(|cpus|, _ => Cursor(0, false)), 0, 0, [];
    }

    ghost predicate Counting()
      reads this
    {
      AllWithin(cpus, cursors) && own == CurrentCount(cpus, cursors, true) &&
        other == CurrentCount(cpus, cursors, false)
    }

    /** The inner loop for CPU i: all its events at this time. */
    method Advance(i: nat, nextTime: int)
      requires i < |cpus| && Counting() && Ordered(cpus[i]) && SeenBy(cpus[i], cursors[i], nextTime)
      requires cursors[i].it < |cpus[i]| ==> NextTime(cpus[i], cursors[i]) >= nextTime
      modifies this`cursors, this`own, this`other
      ensures Counting() && UpTo(cpus[i], cursors[i], nextTime)
      ensures forall j :: 0 <= j < |cpus| && j != i ==> cursors[j] == old(cursors[j])
      ensures Left(cpus, cursors) <= old(Left(cpus, cursors))
      ensures old(cursors[i].it < |cpus[i]| && NextTime(cpus[i], cursors[i]) == nextTime) ==>
        Left(cpus, cursors) < old(Left(cpus, cursors))
    {
      hide CurrentCount, Left;
      while cursors[i].it != |cpus[i]| && nextTime == NextTime(cpus[i], cursors[i])
        invariant Counting() && SeenBy(cpus[i], cursors[i], nextTime)
        invariant cursors[i].it < |cpus[i]| ==> NextTime(cpus[i], cursors[i]) >= nextTime
        invariant forall j :: 0 <= j < |cpus| && j != i ==> cursors[j] == old(cursors[j])
        invariant Left(cpus, cursors) <= old(Left(cpus, cursors))
        invariant cursors[i] != old(cursors[i]) ==> Left(cpus, cursors) < old(Left(cpus, cursors))
        decreases Left(cpus, cursors)
      {
        StepOne(i, nextTime);
      }
    }

    method StepOne(i: nat, ghost nextTime: int)
      requires i < |cpus| && Counting() && Ordered(cpus[i]) && SeenBy(cpus[i], cursors[i], nextTime)
      requires cursors[i].it < |cpus[i]| && NextTime(cpus[i], cursors[i]) == nextTime
      modifies this`cursors, this`own, this`other
      ensures Counting() && SeenBy(cpus[i], cursors[i], nextTime)
      ensures cursors == old(cursors)[i := Stepped(cpus[i], old(cursors[i]))]
      ensures cursors[i].it < |cpus[i]| ==> NextTime(cpus[i], cursors[i]) >= nextTime
      ensures Left(cpus, cursors) < old(Left(cpus, cursors))
    {
      hide CurrentCount, Left, Current, LeftOn;
      var c := cursors[i];
      var isOwn := cpus[i][c.it].own;
      ghost var r := Stepped(cpus[i], c);
      SteppedSeen(cpus[i], c, nextTime);
      CountChanged(cpus, cursors, i, r, true);
      CountChanged(cpus, cursors, i, r, false);
      LeftChanged(cpus, cursors, i, r);
      if !c.startDone {
        if isOwn {
          own := own + 1;
        } else {
          other := other + 1;
        }
        if IsOpen(cpus[i][c.it]) {
          cursors := cursors[i := c.(it := c.it + 1)];
        } else {
          cursors := cursors[i := c.(startDone := true)];
        }
      } else {
        if isOwn {
          own := own - 1;
        } else {
          other := other - 1;
        }
        cursors := cursors[i := Cursor(c.it + 1, false)];
      }
    }

    /** The second loop of a round: every CPU's events at this time. */
    method AdvanceAll(nextTime: int, ghost t0: int, ghost at: nat)
      requires Counting() && AllOrdered(cpus) && AllUpTo(cpus, cursors, t0) && t0 < nextTime
      requires forall i :: 0 <= i < |cpus| && cursors[i].it < |cpus[i]| ==> NextTime(cpus[i], cursors[i]) >= nextTime
      requires at < |cpus| && cursors[at].it < |cpus[at]| && NextTime(cpus[at], cursors[at]) == nextTime
      modifies this`cursors, this`own, this`other
      ensures Counting() && AllUpTo(cpus, cursors, nextTime) && Left(cpus, cursors) < old(Left(cpus, cursors))
    {
      hide CurrentCount, Left, UpTo, Ordered;
      for i := 0 to |cpus|
        invariant Counting() && Left(cpus, cursors) <= old(Left(cpus, cursors))
        invariant forall j :: 0 <= j < i ==> UpTo(cpus[j], cursors[j], nextTime)
        invariant forall j :: i <= j < |cpus| ==> cursors[j] == old(cursors[j])
        invariant i > at ==> Left(cpus, cursors) < old(Left(cpus, cursors))
      {
        SeenByThen(cpus[i], cursors[i], t0, nextTime);
        Advance(i, nextTime);
      }
    }

    lemma SeenByThen(cs: seq<Switch>, c: Cursor, t: int, t': int)
      requires UpTo(cs, c, t) && t <= t'
      ensures SeenBy(cs, c, t')
    {
    }

    /** ReconstructContextSwitchUsage: the last entry not later than t gives the numbers of CPUs running own and other
        threads at t, for every t, and each entry is there because the numbers change. */
    method Reconstruct()
      requires AllOrdered(cpus) && |cpus| < 256 && own == other == 0 && vec == [] && |cursors| == |cpus|
      requires forall i :: 0 <= i < |cpus| ==> cursors[i] == Cursor(0, false)
      modifies this
      ensures RightAlways(cpus, vec) && Changing(vec)
    {
      hide CurrentCount, Left, UpTo, Running, EntryAt, Runs, Changing;
      Starting();
      vec := [Usage(0, 0, 0)];
      ghost var t0 := -1;
      RightNowhere(vec);
      ChangingOne(vec);
      while true
        invariant Counting() && AllUpTo(cpus, cursors, t0) && own <= |cpus| && other <= |cpus|
        invariant vec != [] && vec[|vec| - 1].own == own && vec[|vec| - 1].other == other
        invariant vec[|vec| - 1].time <= (if t0 < 0 then 0 else t0) && t0 >= -1
        invariant RightUntil(cpus, vec, t0) && Changing(vec) && (t0 < 0 ==> |vec| == 1)
        decreases Left(cpus, cursors)
      {
        var atEnd, nextTime, at := FindNextTime(cpus, cursors);
        if atEnd {
          break;
        }
        NextLater(at, t0);
        RightOn(t0, nextTime);
        ghost var before := vec;
        AdvanceAll(nextTime, t0, at);
        CountBounds();
        var back := vec[|vec| - 1];
        if back.other != other || back.own != own {
          vec := vec + [Usage(nextTime, other, own)];
          RightMore(before, vec, nextTime);
          ChangingMore(before, Usage(nextTime, other, own));
        }
        t0 := nextTime;
      }
      RightToTheEnd(t0);
    }

    lemma Starting()
      requires AllOrdered(cpus) && own == other == 0 && |cursors| == |cpus|
      requires forall i :: 0 <= i < |cpus| ==> cursors[i] == Cursor(0, false)
      ensures Counting() && AllUpTo(cpus, cursors, -1)
    {
      NoneCurrent(cpus, cursors, true);
      NoneCurrent(cpus, cursors, false);
    }

    lemma {:induction false} NoneCurrent(cpus: seq<seq<Switch>>, cursors: seq<Cursor>, own: bool)
      requires |cursors| == |cpus| && forall i :: 0 <= i < |cpus| ==> cursors[i] == Cursor(0, false)
      ensures AllWithin(cpus, cursors) && CurrentCount(cpus, cursors, own) == 0
      decreases |cpus|
    {
      if cpus != [] {
        NoneCurrent(cpus[..|cpus| - 1], cursors[..|cpus| - 1], own);
      }
    }

    lemma CountBounds()
      requires Counting()
      ensures own <= |cpus| && other <= |cpus|
    {
    }

    lemma NextLater(at: nat, t0: int)
      requires AllUpTo(cpus, cursors, t0) && at < |cpus| && cursors[at].it < |cpus[at]|
      ensures NextTime(cpus[at], cursors[at]) > t0
    {
    }

    lemma RightNowhere(vec: seq<Usage>)
      requires vec != []
      ensures RightUntil(cpus, vec, -1)
    {
    }

    /** At time t, after everything that has happened by then, the last entry is right. */
    lemma RightNow(t: int, t0: int)
      requires Counting() && AllOrdered(cpus) && AllUpTo(cpus, cursors, t0) && t0 <= t && 0 <= t
      requires forall i :: 0 <= i < |cpus| && cursors[i].it < |cpus[i]| ==> NextTime(cpus[i], cursors[i]) > t
      requires vec != [] && vec[|vec| - 1].own == own && vec[|vec| - 1].other == other
      requires vec[|vec| - 1].time <= (if t0 < 0 then 0 else t0)
      ensures EntryAt(vec, t).own == Running(cpus, t, true) && EntryAt(vec, t).other == Running(cpus, t, false)
    {
      forall i | 0 <= i < |cpus| ensures UpTo(cpus[i], cursors[i], t) {
        UpToLater(cpus[i], cursors[i], t0, t);
      }
      CountsRunning(cpus, cursors, t, true);
      CountsRunning(cpus, cursors, t, false);
    }

    lemma RightOn(t0: int, until: int)
      requires Counting() && AllOrdered(cpus) && AllUpTo(cpus, cursors, t0) && t0 < until && RightUntil(cpus, vec, t0)
      requires forall i :: 0 <= i < |cpus| && cursors[i].it < |cpus[i]| ==> NextTime(cpus[i], cursors[i]) >= until
      requires vec != [] && vec[|vec| - 1].own == own && vec[|vec| - 1].other == other
      requires vec[|vec| - 1].time <= (if t0 < 0 then 0 else t0)
      ensures RightUntil(cpus, vec, until)
    {
      forall t | 0 <= t < until
        ensures EntryAt(vec, t).own == Running(cpus, t, true) && EntryAt(vec, t).other == Running(cpus, t, false)
      {
        if t >= t0 {
          RightNow(t, t0);
        }
      }
    }

    lemma RightMore(before: seq<Usage>, after: seq<Usage>, until: int)
      requires RightUntil(cpus, before, until) && after == before + [Usage(until, other, own)]
      ensures RightUntil(cpus, after, until)
    {
      assert after[..|before|] == before;
      hide Running;
    }

    lemma RightToTheEnd(t0: int)
      requires Counting() && AllOrdered(cpus) && AllUpTo(cpus, cursors, t0) && RightUntil(cpus, vec, t0)
      requires forall i :: 0 <= i < |cpus| ==> cursors[i].it == |cpus[i]|
      requires vec != [] && vec[|vec| - 1].own == own && vec[|vec| - 1].other == other
      requires vec[|vec| - 1].time <= (if t0 < 0 then 0 else t0)
      ensures RightAlways(cpus, vec)
    {
      forall t | 0 <= t
        ensures EntryAt(vec, t).own == Running(cpus, t, true) && EntryAt(vec, t).other == Running(cpus, t, false)
      {
        if t >= t0 {
          RightNow(t, t0);
        }
      }
    }
  }
}
