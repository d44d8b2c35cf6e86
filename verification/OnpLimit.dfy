/** What becomes of a comparison whose coordinates run out: where each search stops, how often it is begun anew, and how
    long the script is, all told from the two sequences. */
module OnpLimit {
  import opened Subsequences
  import opened OnpSearch

  /** The number of coordinates after which compose gives up on the current search. */
  const MAX_CORDINATES_SIZE: nat := 2000000

  /** The fewest x-only moves any path from corner to corner makes. */
  ghost function FewestXMoves<E(!new)>(a: seq<E>, b: seq<E>): (p: nat)
    ensures p <= |a|
  {
    |a| - LcsLen(a, b, |a|, |b|)
  }

  lemma FewestReach<E(!new)>(a: seq<E>, b: seq<E>, v: int)
    requires |a| <= |b|
    ensures Reach(a, b, |b| - |a|, |b|, v) <==> FewestXMoves(a, b) <= v
  {
  }

  /** The number of coordinates that p sweeps record. */
  function Coordinates(delta: nat, p: nat): nat {
    p * (delta + p)
  }

  lemma NoCoordinates(delta: nat)
    ensures Coordinates(delta, 0) == 0
  {
  }

  lemma FirstCoordinate()
    ensures Coordinates(0, 1) == 1
  {
  }

  lemma MoreCoordinates(delta: nat, p: nat)
    ensures Coordinates(delta, p + 1) == Coordinates(delta, p) + delta + 2 * p + 1
  {
  }

  lemma CoordinatesGrow(delta: nat, x: nat, y: nat)
    requires x <= y
    ensures Coordinates(delta, x) <= Coordinates(delta, y)
  {
    assert x * (delta + x) <= y * (delta + x) <= y * (delta + y);
  }

  /** One search gets to the corner before the coordinates run out: what a longest common subsequence leaves of a times
      what it leaves of b is below the limit. */
  ghost predicate FitsLimit<E(!new)>(a: seq<E>, b: seq<E>)
    requires |a| <= |b|
  {
    Coordinates(|b| - |a|, FewestXMoves(a, b)) < MAX_CORDINATES_SIZE
  }

  // ---- where a search stops --------------------------------------------------------------------------------

  /** In sweep p the coordinates run out. */
  predicate RunsOut(delta: nat, p: nat) {
    Coordinates(delta, p) < MAX_CORDINATES_SIZE <= Coordinates(delta, p + 1)
  }

  lemma {:induction false} SweepFrom(delta: nat, p: nat) returns (q: nat)
    requires p <= Coordinates(delta, p) < MAX_CORDINATES_SIZE
    ensures RunsOut(delta, q)
    decreases MAX_CORDINATES_SIZE - p
  {
    MoreCoordinates(delta, p);
    hide Coordinates;
    if Coordinates(delta, p + 1) < MAX_CORDINATES_SIZE {
      q := SweepFrom(delta, p + 1);
    } else {
      q := p;
    }
  }

  lemma SweepExists(delta: nat)
    ensures exists p: nat :: RunsOut(delta, p)
  {
    NoCoordinates(delta);
    var p := SweepFrom(delta, 0);
  }

  /** The sweep in which a search stops that does not get to the corner. */
  ghost function LastSweep(delta: nat): (p: nat)
    ensures RunsOut(delta, p)
  {
    SweepExists(delta);
    var p: nat :| RunsOut(delta, p);
    p
  }

  lemma LastSweepIs(delta: nat, p: nat)
    requires RunsOut(delta, p)
    ensures p == LastSweep(delta)
  {
    var q := LastSweep(delta);
    if p < q {
      CoordinatesGrow(delta, p + 1, q);
    } else if q < p {
      CoordinatesGrow(delta, q + 1, p);
    }
  }

  /** That is before the corner can be reached, and after at least one move. */
  lemma LastSweepEarly<E(!new)>(a: seq<E>, b: seq<E>)
    requires |a| <= |b| && !FitsLimit(a, b)
    ensures LastSweep(|b| - |a|) < FewestXMoves(a, b) && |b| - |a| + LastSweep(|b| - |a|) > 0
  {
    var delta := |b| - |a|;
    var p := LastSweep(delta);
    FirstCoordinate();
    hide Coordinates;
    if FewestXMoves(a, b) <= p {
      CoordinatesGrow(delta, FewestXMoves(a, b), p);
    }
  }

  lemma {:induction false} FurthestBelow<E(!new)>(a: seq<E>, b: seq<E>, k: int, v: int, y: int, top: int)
    returns (f: int)
    requires Reach(a, b, k, y, v) && y <= top && forall z :: top < z ==> !Reach(a, b, k, z, v)
    ensures f >= y && Furthest(a, b, k, v, f)
    decreases top - y
  {
    hide Reach;
    if Reach(a, b, k, top, v) {
      f := top;
    } else {
      f := FurthestBelow(a, b, k, v, y, top - 1);
    }
  }

  /** The search stops at y on the main diagonal. */
  ghost predicate StopsAt<E(!new)>(a: seq<E>, b: seq<E>, y: int)
    requires |a| <= |b|
  {
    |b| - |a| <= y < |b| && 0 < y && Furthest(a, b, |b| - |a|, LastSweep(|b| - |a|), y)
  }

  lemma StopExists<E(!new)>(a: seq<E>, b: seq<E>)
    requires |a| <= |b| && !FitsLimit(a, b)
    ensures exists y: nat :: StopsAt(a, b, y)
  {
    LastSweepEarly(a, b);
    var delta, p := |b| - |a|, LastSweep(|b| - |a|);
    FewestReach(a, b, p);
    assert Reach(a, b, delta, delta + p, p);
    var f := FurthestBelow(a, b, delta, p, delta + p, |b|);
    assert StopsAt(a, b, f);
  }

  /** How far the search gets in the longer sequence. */
  ghost function StopY<E(!new)>(a: seq<E>, b: seq<E>): (y: nat)
    requires |a| <= |b| && !FitsLimit(a, b)
    ensures StopsAt(a, b, y)
  {
    StopExists(a, b);
    var y: nat :| StopsAt(a, b, y);
    y
  }

  lemma StopIs<E(!new)>(a: seq<E>, b: seq<E>, p: nat, y: int)
    requires |a| <= |b| && !FitsLimit(a, b) && RunsOut(|b| - |a|, p) && Furthest(a, b, |b| - |a|, p, y)
    ensures p == LastSweep(|b| - |a|) && y == StopY(a, b)
  {
    LastSweepIs(|b| - |a|, p);
    assert StopsAt(a, b, StopY(a, b));
    hide Reach, FitsLimit;
  }

  /** What is left of the shorter sequence when the search stops, ... */
  ghost function RestA<E(!new)>(a: seq<E>, b: seq<E>): (r: seq<E>)
    requires |a| <= |b| && !FitsLimit(a, b)
    ensures 0 < |r| == |RestB(a, b)|
  {
    a[StopY(a, b) - (|b| - |a|)..]
  }

  /** ... and of the longer one. */
  ghost function RestB<E(!new)>(a: seq<E>, b: seq<E>): (r: seq<E>)
    requires |a| <= |b| && !FitsLimit(a, b)
    ensures |r| < |b|
  {
    b[StopY(a, b)..]
  }

  /** Up to where it stops the search has found a shortest script. */
  lemma StopIsShortest<E(!new)>(a: seq<E>, b: seq<E>)
    requires |a| <= |b| && !FitsLimit(a, b)
    ensures ghost var y, delta := StopY(a, b), |b| - |a|;
      LastSweep(delta) == y - delta - LcsLen(a, b, y - delta, y)
  {
    var y, delta := StopY(a, b), |b| - |a|;
    var p := LastSweep(delta);
    assert StopsAt(a, b, y);
    LcsLenMonotone(a, b, y - delta, y, y - delta + 1, y + 1);
    assert !Reach(a, b, delta, y + 1, p);
  }

  // ---- the whole comparison --------------------------------------------------------------------------------

  /** How often the search is begun anew. */
  ghost function Restarts<E(!new)>(a: seq<E>, b: seq<E>): (n: nat)
    requires |a| <= |b|
    decreases |b|
  {
    if FitsLimit(a, b) then 0 else 1 + Restarts(RestA(a, b), RestB(a, b))
  }

  /** The length of the script: that of shortest scripts for the parts the searches get through. */
  ghost function ScriptLength<E(!new)>(a: seq<E>, b: seq<E>): int
    requires |a| <= |b|
    decreases |b|
  {
    if FitsLimit(a, b) then |a| + |b| - 2 * LcsLen(a, b, |a|, |b|)
    else
      var y := StopY(a, b);
      var x := y - (|b| - |a|);
      x + y - 2 * LcsLen(a, b, x, y) + ScriptLength(RestA(a, b), RestB(a, b))
  }

  /** One search is enough, or one more for the rest is. */
  ghost predicate OnceIsEnough<E(!new)>(a: seq<E>, b: seq<E>)
    requires |a| <= |b|
  {
    FitsLimit(a, b) || FitsLimit(RestA(a, b), RestB(a, b))
  }

  lemma OnceIsEnoughIs<E(!new)>(a: seq<E>, b: seq<E>)
    requires |a| <= |b|
    ensures OnceIsEnough(a, b) <==> Restarts(a, b) <= 1
  {
    hide FitsLimit, RestA, RestB;
    if !FitsLimit(a, b) {
      assert Restarts(a, b) == 1 + Restarts(RestA(a, b), RestB(a, b));
    }
  }

  // ---- sequences with nothing in common --------------------------------------------------------------------

  /** What one search gets through of two sequences of equal length with nothing in common. */
  const APART_STRETCH: nat := 1414

  ghost predicate Apart<E(!new)>(a: seq<E>, b: seq<E>) {
    forall i, j :: 0 <= i < |a| && 0 <= j < |b| ==> a[i] != b[j]
  }

  lemma {:induction false} ApartLcs<E(!new)>(a: seq<E>, b: seq<E>, x: nat, y: nat)
    requires Apart(a, b) && x <= |a| && y <= |b|
    ensures LcsLen(a, b, x, y) == 0
    decreases x + y
  {
    if x > 0 && y > 0 {
      ApartLcs(a, b, x - 1, y);
      ApartLcs(a, b, x, y - 1);
    }
  }

  lemma ApartStretch(p: nat)
    requires RunsOut(0, p)
    ensures p == APART_STRETCH
  {
    if p < APART_STRETCH {
      CoordinatesGrow(0, p + 1, APART_STRETCH);
    } else if p > APART_STRETCH {
      CoordinatesGrow(0, APART_STRETCH + 1, p);
    }
  }

  lemma ApartReach<E(!new)>(a: seq<E>, b: seq<E>, y: nat, p: nat)
    requires Apart(a, b) && |a| == |b|
    ensures Reach(a, b, 0, y, p) <==> y <= |a| && y <= p
  {
    if y <= |a| {
      ApartLcs(a, b, y, y);
    }
  }

  lemma ApartRest<E(!new)>(a: seq<E>, b: seq<E>, y: nat)
    requires Apart(a, b) && y <= |a| && y <= |b|
    ensures Apart(a[y..], b[y..])
  {
  }

  /** A search among them stops after one stretch. */
  lemma ApartStop<E(!new)>(a: seq<E>, b: seq<E>)
    requires Apart(a, b) && |a| == |b| && !FitsLimit(a, b)
    ensures StopY(a, b) == APART_STRETCH && Apart(RestA(a, b), RestB(a, b))
  {
    hide Apart, FitsLimit, Reach, RunsOut, FewestXMoves;
    var p, y := LastSweep(0), StopY(a, b);
    ApartStretch(p);
    LastSweepEarly(a, b);
    assert StopsAt(a, b, y);
    ApartReach(a, b, y, p);
    ApartReach(a, b, p, p);
    ApartRest(a, b, y);
  }

  lemma ApartFits<E(!new)>(a: seq<E>, b: seq<E>)
    requires Apart(a, b) && |a| == |b|
    ensures FitsLimit(a, b) <==> |a| <= APART_STRETCH
  {
    ApartLcs(a, b, |a|, |b|);
    if |a| > APART_STRETCH {
      CoordinatesGrow(0, APART_STRETCH + 1, |a|);
    } else {
      CoordinatesGrow(0, |a|, APART_STRETCH);
    }
  }

  lemma {:induction false} ApartRestarts<E(!new)>(a: seq<E>, b: seq<E>)
    requires Apart(a, b) && 0 < |a| == |b|
    ensures Restarts(a, b) == (|a| - 1) / APART_STRETCH
    decreases |b|
  {
    hide Apart, FitsLimit;
    ApartFits(a, b);
    if !FitsLimit(a, b) {
      ApartStop(a, b);
      ApartRestarts(RestA(a, b), RestB(a, b));
    }
  }

  lemma ApartOnce<E(!new)>(a: seq<E>, b: seq<E>)
    requires Apart(a, b) && 0 < |a| == |b|
    ensures OnceIsEnough(a, b) <==> |a| <= 2 * APART_STRETCH
  {
    hide Apart, OnceIsEnough;
    ApartRestarts(a, b);
    OnceIsEnoughIs(a, b);
  }
}
