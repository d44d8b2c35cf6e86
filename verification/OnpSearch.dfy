/** The search space of the O(NP) comparison: points (x, y) of the |a| by |b| grid on diagonals k == y - x,
    and, for each diagonal, the furthest point that a given number of x-only moves reaches. */
module OnpSearch {
  import opened Subsequences

  /** A path to (x, y) exists with at most v x-only moves, where x == y - k: every path to (x, y) makes
      x - LcsLen(a, b, x, y) of them or more. */
  ghost predicate Reach<E(!new)>(a: seq<E>, b: seq<E>, k: int, y: int, v: int) {
    0 <= y <= |b| && 0 <= y - k <= |a| && y - k - LcsLen(a, b, y - k, y) <= v
  }

  /** f is the largest y reachable on diagonal k with v x-only moves, or -1 when none is. */
  ghost predicate Furthest<E(!new)>(a: seq<E>, b: seq<E>, k: int, v: int, f: int) {
    (f == -1 || Reach(a, b, k, f, v)) && forall y :: f < y ==> !Reach(a, b, k, y, v)
  }

  /** The x-only moves sweep p allows on diagonal k. */
  function Budget(delta: int, k: int, p: int): int {
    p - if k > delta then k - delta else 0
  }

  /** What is reachable on a diagonal is reachable up to there. */
  lemma {:induction false} ReachDown<E(!new)>(a: seq<E>, b: seq<E>, k: int, y: int, y': int, v: int)
    requires Reach(a, b, k, y', v)
    requires 0 <= y <= y' && 0 <= y - k
    ensures Reach(a, b, k, y, v)
    decreases y' - y
  {
    if y < y' {
      var x := y' - k;
      LcsLenSteps(a, b, x - 1, y' - 1);
      LcsLenSteps(a, b, x - 1, y');
      ReachDown(a, b, k, y, y' - 1, v);
    }
  }

  /** A diagonal is out of reach when its distance to the main corner exceeds the budget. */
  lemma OutOfReach<E(!new)>(a: seq<E>, b: seq<E>, k: int, v: int)
    requires v < 0 || -k > v || k > |b| || -k > |a|
    ensures Furthest(a, b, k, v, -1)
  {
  }

  /** The corner (|a|, |b|) takes no fewer x-only moves than any point before it does, not counting the moves
      still needed from there. */
  lemma CornerFromEdge<E(!new)>(a: seq<E>, b: seq<E>, k: int, y: int, v: int)
    requires Reach(a, b, k, y, v)
    requires y - k == |a| || y == |b|
    ensures Reach(a, b, |b| - |a|, |b|, v + |a| - (y - k))
  {
    LcsLenMonotone(a, b, y - k, y, |a|, |b|);
  }

  /** Where the snake on diagonal k starts, given the neighbouring diagonals: always a reachable grid point,
      so long as the corner was not yet within reach. */
  lemma SnakeStart<E(!new)>(a: seq<E>, b: seq<E>, k: int, p: nat, f0: int, f1: int)
    requires |a| <= |b| && p <= |a|
    requires -(p as int) <= k <= |b| - |a| + p
    requires Furthest(a, b, k - 1, Budget(|b| - |a|, k, p), f0)
    requires Furthest(a, b, k + 1, Budget(|b| - |a|, k, p) - 1, f1)
    requires !Reach(a, b, |b| - |a|, |b|, p - 1)
    ensures Reach(a, b, k, Max(f0 + 1, f1), Budget(|b| - |a|, k, p))
    ensures f0 + 1 > f1 && f0 == -1 ==> k == 0
    ensures f0 + 1 <= f1 ==> f1 >= 0
  {
    hide LcsLen, Reach;
    SnakeStartOnGrid(a, b, k, p, f0, f1);
    SnakeStartFloor(a, b, k, Budget(|b| - |a|, k, p));
    if f0 + 1 > f1 {
      StepFromAbove(a, b, k, f0, Budget(|b| - |a|, k, p));
    } else {
      StepFromBelow(a, b, k, f1, Budget(|b| - |a|, k, p));
    }
  }

  /** The first points of the neighbouring diagonals are reachable. */
  lemma SnakeStartFloor<E(!new)>(a: seq<E>, b: seq<E>, k: int, v: int)
    requires -|a| <= k <= |b| + 1 && (k >= 0 ==> v >= 0) && v + k >= 0
    ensures k > 0 ==> Reach(a, b, k - 1, k - 1, v)
    ensures k < 0 ==> Reach(a, b, k + 1, 0, v - 1)
  {
  }

  lemma StepFromAbove<E(!new)>(a: seq<E>, b: seq<E>, k: int, f: int, v: int)
    requires f == -1 ==> k == 0 && v >= 0
    requires f != -1 ==> Reach(a, b, k - 1, f, v)
    requires f + 1 <= |b| && 0 <= f + 1 - k <= |a|
    ensures Reach(a, b, k, f + 1, v)
  {
    if f != -1 {
      LcsLenSteps(a, b, f + 1 - k, f);
    }
  }

  lemma StepFromBelow<E(!new)>(a: seq<E>, b: seq<E>, k: int, f: int, v: int)
    requires Reach(a, b, k + 1, f, v - 1)
    requires f - k <= |a|
    ensures Reach(a, b, k, f, v)
  {
    LcsLenSteps(a, b, f - k - 1, f);
  }

  lemma SnakeStartOnGrid<E(!new)>(a: seq<E>, b: seq<E>, k: int, p: nat, f0: int, f1: int)
    requires |a| <= |b| && p <= |a|
    requires -(p as int) <= k <= |b| - |a| + p
    requires Furthest(a, b, k - 1, Budget(|b| - |a|, k, p), f0)
    requires Furthest(a, b, k + 1, Budget(|b| - |a|, k, p) - 1, f1)
    requires !Reach(a, b, |b| - |a|, |b|, p - 1)
    ensures 0 <= Max(f0 + 1, f1) <= |b| && 0 <= Max(f0 + 1, f1) - k <= |a|
    ensures f0 >= -1 && f1 >= -1
  {
    var delta := |b| - |a|;
    var v := Budget(delta, k, p);
    if k > 0 {
      assert Reach(a, b, k - 1, k - 1, v) by { assert LcsLen(a, b, 0, k - 1) == 0; }
      assert f0 >= k - 1;
    }
    if f0 >= 0 && f0 == |b| {
      CornerFromEdge(a, b, k - 1, f0, v);
    }
    if f1 >= 0 && f1 - k - 1 == |a| {
      CornerFromEdge(a, b, k + 1, f1, v - 1);
    }
  }

  /** A diagonal walk over equal elements costs nothing. */
  lemma {:induction false} SnakeReach<E(!new)>(a: seq<E>, b: seq<E>, k: int, y: int, y': int, v: int)
    requires Reach(a, b, k, y, v) && y <= y' <= |b| && y' - k <= |a|
    requires forall j :: y <= j < y' ==> a[j - k] == b[j]
    ensures Reach(a, b, k, y', v)
    decreases y' - y
  {
    if y < y' {
      SnakeReach(a, b, k, y, y' - 1, v);
    }
  }

  /** Where the snake stops is the furthest reachable point: anything further would have come over one of the
      neighbouring diagonals, from further than their furthest. */
  lemma SnakeStop<E(!new)>(a: seq<E>, b: seq<E>, k: int, v: int, f0: int, f1: int, y: int)
    requires Furthest(a, b, k - 1, v, f0) && Furthest(a, b, k + 1, v - 1, f1)
    requires Reach(a, b, k, y, v) && y >= f0 + 1 && y >= f1
    requires y < |b| && y - k < |a| ==> a[y - k] != b[y]
    ensures Furthest(a, b, k, v, y)
  {
    forall y' | y < y' ensures !Reach(a, b, k, y', v) {
      if Reach(a, b, k, y', v) {
        ReachDown(a, b, k, y + 1, y', v);
        ReachFromNeighbour(a, b, k, y, v);
      }
    }
  }

  /** A point that no diagonal step ends in is reached by an insertion or by an x-only move. */
  lemma ReachFromNeighbour<E(!new)>(a: seq<E>, b: seq<E>, k: int, y: int, v: int)
    requires 0 <= y && 0 <= y - k && Reach(a, b, k, y + 1, v)
    requires a[y - k] != b[y]
    ensures Reach(a, b, k - 1, y, v) || Reach(a, b, k + 1, y + 1, v - 1)
  {
  }
}
