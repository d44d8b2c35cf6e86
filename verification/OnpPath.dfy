/** The recorded coordinates of the O(NP) comparison: every record ends a snake and names the record it came
    from, so following the names back from the corner gives an edit path. */
module OnpPath {
  import opened Subsequences
  import opened OnpSearch

  datatype Point = Point(x: int, y: int, k: int)

  /** A walk along a diagonal over equal elements. */
  ghost predicate Diagonal<E(!new)>(a: seq<E>, b: seq<E>, x: int, y: int, p: Point) {
    0 <= x <= p.x <= |a| && 0 <= y <= p.y <= |b| && p.x - x == p.y - y &&
    forall j :: y <= j < p.y ==> a[j - (y - x)] == b[j]
  }

  /** One insertion or one x-only move, then a diagonal walk. */
  ghost predicate Hop<E(!new)>(a: seq<E>, b: seq<E>, q: Point, p: Point) {
    Diagonal(a, b, q.x, q.y + 1, p) || Diagonal(a, b, q.x + 1, q.y, p)
  }

  /** A path given from its end back to its start, as compose collects it. */
  ghost predicate IsPath<E(!new)>(a: seq<E>, b: seq<E>, v: seq<Point>) {
    v != [] &&
    if |v| == 1 then Diagonal(a, b, 0, 0, v[0])
    else Hop(a, b, v[1], v[0]) && IsPath(a, b, v[1..])
  }

  /** The number of x-only moves of such a path. */
  function XMoves(v: seq<Point>): nat {
    if |v| <= 1 then 0 else XMoves(v[1..]) + XMove(v[1], v[0])
  }

  function XMove(q: Point, p: Point): nat {
    if p.y - p.x < q.y - q.x then 1 else 0
  }

  /** A path read from the middle: where record n comes from, and what it adds to the cost. */
  lemma {:induction false} PathAt<E(!new)>(a: seq<E>, b: seq<E>, v: seq<Point>, n: nat)
    requires IsPath(a, b, v) && n < |v|
    ensures IsPath(a, b, v[n..])
    ensures n + 1 == |v| ==> Diagonal(a, b, 0, 0, v[n]) && XMoves(v[n..]) == 0
    ensures n + 1 < |v| ==> Hop(a, b, v[n + 1], v[n]) && XMoves(v[n..]) == XMoves(v[n + 1..]) + XMove(v[n + 1], v[n])
  {
    if n == 0 {
      assert v[0..] == v;
    } else {
      PathAt(a, b, v[1..], n - 1);
      assert v[1..][n - 1..] == v[n..] && v[1..][n..] == v[n + 1..];
    }
  }

  ghost predicate Recorded<E(!new)>(a: seq<E>, b: seq<E>, pc: seq<Point>) {
    forall i :: 0 <= i < |pc| ==> RecordedAt(a, b, pc, i)
  }

  ghost predicate RecordedAt<E(!new)>(a: seq<E>, b: seq<E>, pc: seq<Point>, i: nat)
    requires i < |pc|
  {
    if pc[i].k == -1 then Diagonal(a, b, 0, 0, pc[i])
    else 0 <= pc[i].k < i && Hop(a, b, pc[pc[i].k], pc[i])
  }

  /** The records from number r back to the start. */
  function Trace(pc: seq<Point>, r: int): seq<Point>
    decreases r
  {
    if 0 <= r < |pc| then
      [pc[r]] + if pc[r].k < r then Trace(pc, pc[r].k) else []
    else []
  }

  lemma {:induction false} TraceIsPath<E(!new)>(a: seq<E>, b: seq<E>, pc: seq<Point>, r: nat)
    requires Recorded(a, b, pc) && r < |pc|
    ensures IsPath(a, b, Trace(pc, r)) && Trace(pc, r)[0] == pc[r]
    decreases r
  {
    assert RecordedAt(a, b, pc, r);
    if pc[r].k != -1 {
      TraceIsPath(a, b, pc, pc[r].k);
      assert Trace(pc, r)[1..] == Trace(pc, pc[r].k);
    }
  }

  lemma {:induction false} TraceExtends(pc: seq<Point>, p: Point, r: int)
    requires r < |pc|
    ensures Trace(pc + [p], r) == Trace(pc, r)
    decreases r
  {
    if 0 <= r && pc[r].k < r {
      TraceExtends(pc, p, pc[r].k);
    }
  }

  lemma TraceStep(pc: seq<Point>, p: Point)
    requires 0 <= p.k < |pc|
    ensures XMoves(Trace(pc + [p], |pc|)) == XMoves(Trace(pc, p.k)) + XMove(pc[p.k], p)
  {
    TraceExtends(pc, p, p.k);
    assert Trace(pc + [p], |pc|)[1..] == Trace(pc, p.k);
  }

  lemma RecordedExtends<E(!new)>(a: seq<E>, b: seq<E>, pc: seq<Point>, p: Point)
    requires Recorded(a, b, pc)
    requires if p.k == -1 then Diagonal(a, b, 0, 0, p) else 0 <= p.k < |pc| && Hop(a, b, pc[p.k], p)
    ensures Recorded(a, b, pc + [p])
  {
    forall i | 0 <= i < |pc + [p]| ensures RecordedAt(a, b, pc + [p], i) {
      if i < |pc| {
        assert RecordedAt(a, b, pc, i);
      }
    }
  }

  /** What the search knows of diagonal k under budget v: its furthest point f, and the record r that reaches it
      with just so many x-only moves. */
  ghost predicate Searched<E(!new)>(a: seq<E>, b: seq<E>, k: int, v: int, f: int, r: int, pc: seq<Point>) {
    Furthest(a, b, k, v, f) &&
    if f == -1 then r == -1
    else 0 <= r < |pc| && pc[r].x == f - k && pc[r].y == f && XMoves(Trace(pc, r)) == v
  }

  lemma SearchedExtends<E(!new)>(a: seq<E>, b: seq<E>, k: int, v: int, f: int, r: int, pc: seq<Point>, p: Point)
    requires Searched(a, b, k, v, f, r, pc)
    ensures Searched(a, b, k, v, f, r, pc + [p])
  {
    if f != -1 {
      TraceExtends(pc, p, r);
    }
  }

  /** The state of a sweep: diagonals below lo and above hi are done for sweep p, the rest still belong to the
      sweep before. Diagonal k sits at index k + |a| + 1. */
  ghost predicate Sweeping<E(!new)>(a: seq<E>, b: seq<E>, p: int, lo: int, hi: int,
                                    fp: seq<int>, path: seq<int>, pc: seq<Point>)
  {
    |a| <= |b| && |fp| == |path| == |a| + |b| + 3 && Recorded(a, b, pc) &&
    forall i :: 0 <= i < |fp| ==> SearchedAt(a, b, p, lo, hi, fp, path, pc, i)
  }

  ghost predicate SearchedAt<E(!new)>(a: seq<E>, b: seq<E>, p: int, lo: int, hi: int,
                                      fp: seq<int>, path: seq<int>, pc: seq<Point>, i: nat)
    requires i < |fp| && i < |path|
  {
    var k := i - |a| - 1;
    Searched(a, b, k, Budget(|b| - |a|, k, if k < lo || hi < k then p else p - 1), fp[i], path[i], pc)
  }

  lemma SweepingLengths<E(!new)>(a: seq<E>, b: seq<E>, p: int, lo: int, hi: int,
                                 fp: seq<int>, path: seq<int>, pc: seq<Point>)
    requires Sweeping(a, b, p, lo, hi, fp, path, pc)
    ensures |a| <= |b| && |fp| == |path| == |a| + |b| + 3
  {
    hide SearchedAt, Recorded;
  }

  /** Before the first sweep nothing is reachable. */
  lemma SweepingInit<E(!new)>(a: seq<E>, b: seq<E>, fp: seq<int>, path: seq<int>)
    requires |a| <= |b| && |fp| == |path| == |a| + |b| + 3
    requires forall i :: 0 <= i < |fp| ==> fp[i] == -1
    requires forall i :: 0 <= i < |fp| ==> path[i] == -1
    ensures Sweeping(a, b, 0, -|a| - 1, |b| + 1, fp, path, [])
  {
    var lo, hi := -|a| - 1, |b| + 1;
    forall i | 0 <= i < |fp| ensures SearchedAt(a, b, 0, lo, hi, fp, path, [], i) {
    }
  }

  /** The diagonals a sweep leaves out are out of its reach. */
  lemma SweepingOutside<E(!new)>(a: seq<E>, b: seq<E>, p: int, lo: int, hi: int, lo': int, hi': int,
                                 fp: seq<int>, path: seq<int>, pc: seq<Point>)
    requires Sweeping(a, b, p, lo, hi, fp, path, pc) && p >= 0
    requires lo' == lo || (lo < lo' == -p)
    requires hi' == hi || (|b| - |a| + p == hi' < hi)
    ensures Sweeping(a, b, p, lo', hi', fp, path, pc)
  {
    forall i | 0 <= i < |fp| ensures SearchedAt(a, b, p, lo', hi', fp, path, pc, i) {
      assert SearchedAt(a, b, p, lo, hi, fp, path, pc, i);
      var k := i - |a| - 1;
      if lo <= k <= hi && (k < lo' || hi' < k) {
        OutOfReach(a, b, k, Budget(|b| - |a|, k, p));
        OutOfReach(a, b, k, Budget(|b| - |a|, k, p - 1));
      }
    }
  }

  /** When all diagonals are done, the next sweep can begin. */
  lemma SweepingNext<E(!new)>(a: seq<E>, b: seq<E>, p: int, fp: seq<int>, path: seq<int>, pc: seq<Point>)
    requires Sweeping(a, b, p, |b| - |a| + 1, |b| - |a|, fp, path, pc)
    ensures Sweeping(a, b, p + 1, -|a| - 1, |b| + 1, fp, path, pc)
  {
    var q, lo, hi, d := p + 1, -|a| - 1, |b| + 1, |b| - |a|;
    forall i | 0 <= i < |fp| ensures SearchedAt(a, b, q, lo, hi, fp, path, pc, i) {
      assert SearchedAt(a, b, p, d + 1, d, fp, path, pc, i);
    }
  }

  /** One snake finishes one more diagonal. */
  lemma SweepingStep<E(!new)>(a: seq<E>, b: seq<E>, p: int, lo: int, hi: int, lo': int, hi': int, k: int,
                              fp: seq<int>, path: seq<int>, pc: seq<Point>, y: int, pt: Point)
    requires Sweeping(a, b, p, lo, hi, fp, path, pc)
    requires -|a| - 1 <= k <= |b| + 1
    requires Searched(a, b, k, Budget(|b| - |a|, k, p), y, |pc|, pc + [pt]) && Recorded(a, b, pc + [pt])
    requires (lo' == lo + 1 == k + 1 && hi' == hi) || (lo' == lo && hi' == hi - 1 == k - 1)
    requires lo <= k <= hi
    ensures Sweeping(a, b, p, lo', hi', fp[k + |a| + 1 := y], path[k + |a| + 1 := |pc|], pc + [pt])
  {
    hide Furthest, Trace, XMoves, Recorded;
    var fp', path', pc' := fp[k + |a| + 1 := y], path[k + |a| + 1 := |pc|], pc + [pt];
    forall i | 0 <= i < |fp'| ensures SearchedAt(a, b, p, lo', hi', fp', path', pc', i) {
      assert SearchedAt(a, b, p, lo, hi, fp, path, pc, i);
      if i - |a| - 1 != k {
        SearchedAtExtends(a, b, p, lo, hi, fp, path, pc, i, pt);
        assert fp'[i] == fp[i] && path'[i] == path[i];
      }
    }
  }

  lemma SearchedAtExtends<E(!new)>(a: seq<E>, b: seq<E>, p: int, lo: int, hi: int,
                                   fp: seq<int>, path: seq<int>, pc: seq<Point>, i: nat, pt: Point)
    requires i < |fp| && i < |path|
    requires SearchedAt(a, b, p, lo, hi, fp, path, pc, i)
    ensures SearchedAt(a, b, p, lo, hi, fp, path, pc + [pt], i)
  {
    hide Searched;
    var k := i - |a| - 1;
    SearchedExtends(a, b, k, Budget(|b| - |a|, k, if k < lo || hi < k then p else p - 1), fp[i], path[i], pc, pt);
  }

  /** Where a snake ends is the furthest point of its diagonal. */
  lemma SnakeFurthest<E(!new)>(a: seq<E>, b: seq<E>, k: int, p: nat, f0: int, f1: int, pt: Point)
    requires |a| <= |b| && p <= |a| && -(p as int) <= k <= |b| - |a| + p
    requires Furthest(a, b, k - 1, Budget(|b| - |a|, k, p), f0)
    requires Furthest(a, b, k + 1, Budget(|b| - |a|, k, p) - 1, f1)
    requires !Reach(a, b, |b| - |a|, |b|, p - 1)
    requires Diagonal(a, b, Max(f0 + 1, f1) - k, Max(f0 + 1, f1), pt)
    requires pt.y < |b| && pt.x < |a| ==> a[pt.x] != b[pt.y]
    ensures Furthest(a, b, k, Budget(|b| - |a|, k, p), pt.y)
  {
    var v, y := Budget(|b| - |a|, k, p), Max(f0 + 1, f1);
    SnakeStart(a, b, k, p, f0, f1);
    assert forall j :: y <= j < pt.y ==> a[j - k] == b[j];
    SnakeReach(a, b, k, y, pt.y, v);
    SnakeStop(a, b, k, v, f0, f1, pt.y);
  }

  /** The record a snake leaves continues the neighbour it came from and uses up the budget. */
  lemma SnakeRecord<E(!new)>(a: seq<E>, b: seq<E>, k: int, p: nat, f0: int, f1: int, r0: int, r1: int,
                             pc: seq<Point>, pt: Point)
    requires |a| <= |b| && p <= |a| && -(p as int) <= k <= |b| - |a| + p
    requires Recorded(a, b, pc)
    requires Searched(a, b, k - 1, Budget(|b| - |a|, k, p), f0, r0, pc)
    requires Searched(a, b, k + 1, Budget(|b| - |a|, k, p) - 1, f1, r1, pc)
    requires !Reach(a, b, |b| - |a|, |b|, p - 1)
    requires pt.k == if f0 + 1 > f1 then r0 else r1
    requires Diagonal(a, b, Max(f0 + 1, f1) - k, Max(f0 + 1, f1), pt)
    requires pt.y < |b| && pt.x < |a| ==> a[pt.x] != b[pt.y]
    ensures Recorded(a, b, pc + [pt])
    ensures Searched(a, b, k, Budget(|b| - |a|, k, p), pt.y, |pc|, pc + [pt])
  {
    var y := Max(f0 + 1, f1);
    SnakeFurthest(a, b, k, p, f0, f1, pt);
    assert (f0 + 1 > f1 && f0 == -1 ==> k == 0) && (f0 + 1 <= f1 ==> f1 >= 0) by {
      SnakeStart(a, b, k, p, f0, f1);
    }
    SnakeHop(a, b, k, f0, f1, r0, r1, pc, pt);
    RecordedExtends(a, b, pc, pt);
    if pt.k != -1 {
      TraceStep(pc, pt);
    } else if a != [] {
      OriginOnly(a, b, p);
    }
  }

  /** The first snake, from the origin, belongs to the first sweep. */
  lemma OriginOnly<E(!new)>(a: seq<E>, b: seq<E>, p: nat)
    requires a != [] && Furthest(a, b, -1, p, -1)
    ensures p == 0
  {
    assert !Reach(a, b, -1, 0, p);
  }

  lemma SnakeHop<E(!new)>(a: seq<E>, b: seq<E>, k: int, f0: int, f1: int, r0: int, r1: int, pc: seq<Point>, pt: Point)
    requires if f0 == -1 then r0 == -1 else 0 <= r0 < |pc| && pc[r0].x == f0 - k + 1 && pc[r0].y == f0
    requires if f1 == -1 then r1 == -1 else 0 <= r1 < |pc| && pc[r1].x == f1 - k - 1 && pc[r1].y == f1
    requires f0 + 1 > f1 && f0 == -1 ==> k == 0
    requires f0 + 1 <= f1 ==> f1 >= 0
    requires pt.k == if f0 + 1 > f1 then r0 else r1
    requires Diagonal(a, b, Max(f0 + 1, f1) - k, Max(f0 + 1, f1), pt)
    ensures if pt.k == -1 then Diagonal(a, b, 0, 0, pt) else 0 <= pt.k < |pc| && Hop(a, b, pc[pt.k], pt)
    ensures pt.k != -1 ==> XMove(pc[pt.k], pt) == if f0 + 1 > f1 then 0 else 1
    ensures pt.x == pt.y - k
  {
  }

  /** The order of the snakes in a sweep: upwards to the main diagonal, downwards to it, then the main one. */
  predicate Turn(delta: int, k: int, lo: int, hi: int) {
    (lo == k && k <= delta <= hi && (k == delta ==> hi == delta)) || (hi == k && lo == delta < k)
  }

  function NextLo(k: int, lo: int): int {
    if lo == k then k + 1 else lo
  }

  function NextHi(k: int, lo: int, hi: int): int {
    if lo == k then hi else k - 1
  }

  /** In that order both neighbours of a diagonal hold what its snake needs of them. */
  lemma Neighbours<E(!new)>(a: seq<E>, b: seq<E>, p: nat, lo: int, hi: int, k: int,
                            fp: seq<int>, path: seq<int>, pc: seq<Point>)
    requires Sweeping(a, b, p, lo, hi, fp, path, pc) && Turn(|b| - |a|, k, lo, hi)
    requires -|a| <= k <= |b|
    ensures Searched(a, b, k - 1, Budget(|b| - |a|, k, p), fp[k + |a|], path[k + |a|], pc)
    ensures Searched(a, b, k + 1, Budget(|b| - |a|, k, p) - 1, fp[k + |a| + 2], path[k + |a| + 2], pc)
  {
    hide Sweeping, Searched, Turn, Budget;
    SweepingLengths(a, b, p, lo, hi, fp, path, pc);
    NeighbourAt(a, b, p, lo, hi, k, k - 1, fp, path, pc);
    NeighbourAt(a, b, p, lo, hi, k, k + 1, fp, path, pc);
  }

  lemma NeighbourAt<E(!new)>(a: seq<E>, b: seq<E>, p: nat, lo: int, hi: int, k: int, j: int,
                             fp: seq<int>, path: seq<int>, pc: seq<Point>)
    requires Sweeping(a, b, p, lo, hi, fp, path, pc) && Turn(|b| - |a|, k, lo, hi)
    requires -|a| <= k <= |b| && (j == k - 1 || j == k + 1)
    ensures Searched(a, b, j, Budget(|b| - |a|, k, p) - (if j < k then 0 else 1), fp[j + |a| + 1], path[j + |a| + 1],
                     pc)
  {
    hide Searched, Recorded;
    assert SearchedAt(a, b, p, lo, hi, fp, path, pc, j + |a| + 1);
    assert Budget(|b| - |a|, j, if j < lo || hi < j then p else p - 1) ==
           Budget(|b| - |a|, k, p) - if j < k then 0 else 1;
  }

  /** One snake, started where the neighbours say and run to its end, advances the sweep by one diagonal. */
  lemma SweepingSnake<E(!new)>(a: seq<E>, b: seq<E>, p: nat, lo: int, hi: int, k: int,
                               fp: seq<int>, path: seq<int>, pc: seq<Point>, pt: Point)
    requires Sweeping(a, b, p, lo, hi, fp, path, pc) && Turn(|b| - |a|, k, lo, hi)
    requires p <= |a| && -(p as int) <= k <= |b| - |a| + p && !Reach(a, b, |b| - |a|, |b|, p - 1)
    requires pt.k == if fp[k + |a|] + 1 > fp[k + |a| + 2] then path[k + |a|] else path[k + |a| + 2]
    requires ghost var y := Max(fp[k + |a|] + 1, fp[k + |a| + 2]); Diagonal(a, b, y - k, y, pt)
    requires pt.y < |b| && pt.x < |a| ==> a[pt.x] != b[pt.y]
    ensures Sweeping(a, b, p, NextLo(k, lo), NextHi(k, lo, hi), fp[k + |a| + 1 := pt.y], path[k + |a| + 1 := |pc|],
                     pc + [pt])
  {
    Neighbours(a, b, p, lo, hi, k, fp, path, pc);
    SnakeRecord(a, b, k, p, fp[k + |a|], fp[k + |a| + 2], path[k + |a|], path[k + |a| + 2], pc, pt);
    SweepingStep(a, b, p, lo, hi, NextLo(k, lo), NextHi(k, lo, hi), k, fp, path, pc, pt.y, pt);
  }

  lemma SnakeStartsOnGrid<E(!new)>(a: seq<E>, b: seq<E>, p: nat, lo: int, hi: int, k: int,
                                   fp: seq<int>, path: seq<int>, pc: seq<Point>)
    requires Sweeping(a, b, p, lo, hi, fp, path, pc) && Turn(|b| - |a|, k, lo, hi)
    requires p <= |a| && -(p as int) <= k <= |b| - |a| + p && !Reach(a, b, |b| - |a|, |b|, p - 1)
    ensures ghost var y := Max(fp[k + |a|] + 1, fp[k + |a| + 2]); 0 <= y <= |b| && 0 <= y - k <= |a|
  {
    Neighbours(a, b, p, lo, hi, k, fp, path, pc);
    SnakeStartOnGrid(a, b, k, p, fp[k + |a|], fp[k + |a| + 2]);
  }
}
