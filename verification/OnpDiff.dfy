/** dtl::Diff: compose finds a shortest edit script and a longest common subsequence with the O(NP) algorithm
    of Wu, Manber and Myers. */
module OnpDiff {
  import opened Subsequences
  import opened EditScript
  import opened OnpSearch
  import opened OnpPath
  import opened OnpLimit

  /** A script between what is recorded of A and of B, in the order the sequences came in. */
  ghost predicate Recording<E(!new)>(script: seq<Edit<E>>, swapped: bool, recA: seq<E>, recB: seq<E>) {
    if swapped then IsScript(script, recB, recA) else IsScript(script, recA, recB)
  }

  /** The recorded positions are right as long as the search was begun anew at most once: after that only the elements
      of the search just before are counted, and every element of B gets a wrong position. */
  ghost predicate Numbered<E(!new)>(script: seq<Edit<E>>, ox: nat, oy: nat, doneA: seq<E>, doneB: seq<E>, restarts: nat,
                                    y: int)
  {
    (restarts == 0 ==> doneA == [] && doneB == []) && (restarts > 0 ==> doneB != []) &&
    if restarts <= 1 then Indexed(script) && ox == |doneA| && oy == |doneB|
    else oy < |doneB| && (y > 0 || restarts > 2 ==> !Indexed(script))
  }

  lemma NumberedAnew<E(!new)>(script: seq<Edit<E>>, ox: nat, oy: nat, doneA: seq<E>, doneB: seq<E>, restarts: nat,
                              moreA: seq<E>, moreB: seq<E>)
    requires Numbered(script, ox, oy, doneA, doneB, restarts, |moreB|) && moreB != []
    ensures Numbered(script, |moreA|, |moreB|, doneA + moreA, doneB + moreB, restarts + 1, 0)
  {
    hide Indexed;
  }

  class Diff<E(==, !new)> {
    ghost const before: seq<E>
    ghost const after: seq<E>
    /** What is still to be compared, the shorter sequence as A. */
    var A: seq<E>
    var B: seq<E>
    var M: nat
    var N: nat
    var delta: nat
    var offset: nat
    const swapped: bool
    const ses: Ses<E>
    var fp: array<int>
    var path: array<int>
    var pathCordinates: seq<Point>
    var editDistance: nat
    var lcs: seq<E>
    /** The numbers of elements recorded by the search before this one. */
    var ox: nat
    var oy: nat
    /** How often the search has been begun anew, which the original does not count, and what all searches before this
        one have recorded. */
    var restarts: nat
    ghost var doneA: seq<E>
    ghost var doneB: seq<E>
    ghost var doneKept: nat

    ghost predicate Shape()
      reads `A, `B, `M, `N, `delta, `offset
    {
      M == |A| && N == |B| && M <= N && delta == N - M && offset == M + 1
    }

    /** Both sequences are made up of what is recorded and what is still to be compared. */
    ghost predicate Parts()
      reads `A, `B, `doneA, `doneB
    {
      doneA + A == (if swapped then after else before) && doneB + B == (if swapped then before else after)
    }

    /** Nothing recorded yet. */
    ghost predicate Unused()
      reads this, ses
    {
      RecordedTo(0, 0, 0) && restarts == 0 && doneA == [] && doneB == [] && doneKept == 0 && editDistance == 0 &&
        pathCordinates == []
    }

    /** init: the shorter sequence plays A; equally long sequences are swapped too. */
    constructor (a: seq<E>, b: seq<E>, deletesFirst: bool)
      ensures Shape() && Parts() && Unused() && before == a && after == b && ses.deletesFirst == deletesFirst
      ensures fresh(ses) && (swapped <==> |a| >= |b|)
    {
      before, after := a, b;
      var swap := !(|a| < |b|);
      swapped := swap;
      A, B := if swap then b else a, if swap then a else b;
      M, N := if swap then |b| else |a|, if swap then |a| else |b|;
      delta := if swap then |a| - |b| else |b| - |a|;
      offset := (if swap then |b| else |a|) + 1;
      ses := new Ses(deletesFirst);
      fp, path := new int[0], new int[0];
      pathCordinates, editDistance, lcs, ox, oy := [], 0, [], 0, 0;
      restarts, doneA, doneB, doneKept := 0, [], [], 0;
    }

    /** The loop of snake. */
    method FollowDiagonal(x0: nat, y0: nat, ghost r: int) returns (x: nat, y: nat)
      requires Shape() && x0 <= M && y0 <= N
      ensures Diagonal(A, B, x0, y0, Point(x, y, r))
      ensures y < N && x < M ==> A[x] != B[y]
    {
      x, y := x0, y0;
      while x < M && y < N && A[x] == B[y]
        invariant x <= M && Diagonal(A, B, x0, y0, Point(x, y, r))
        decreases N - y
      {
        x, y := x + 1, y + 1;
      }
    }

    /** Follows equal elements from the better of the two neighbouring diagonals and records where it stopped.
        Every element it compares lies inside the grid. */
    method Snake(k: int, above: int, below: int, ghost p: nat, ghost lo: int, ghost hi: int) returns (y: int)
      requires Shape() && fp != path && Sweeping(A, B, p, lo, hi, fp[..], path[..], pathCordinates)
      requires p <= M && -(p as int) <= k <= delta + p && !Reach(A, B, delta, N, p - 1)
      requires above == fp[k - 1 + offset] + 1 && below == fp[k + 1 + offset]
      requires Turn(delta, k, lo, hi)
      modifies this`pathCordinates, path
      ensures |pathCordinates| == |old(pathCordinates)| + 1
      ensures Sweeping(A, B, p, NextLo(k, lo), NextHi(k, lo, hi), fp[..][k + offset := y], path[..], pathCordinates)
    {
      hide Sweeping, Reach, Turn, Diagonal;
      ghost var f, g := fp[..], path[..];
      SweepingLengths(A, B, p, lo, hi, f, g, pathCordinates);
      var r := if above > below then path[k - 1 + offset] else path[k + 1 + offset];
      y := Max(above, below);
      var x := y - k;
      assert above == f[k + M] + 1 && below == f[k + M + 2] && r == if above > below then g[k + M] else g[k + M + 2];
      SnakeStartsOnGrid(A, B, p, lo, hi, k, f, g, pathCordinates);
      x, y := FollowDiagonal(x, y, r);
      assert k + M + 1 == k + offset;
      SweepingSnake(A, B, p, lo, hi, k, f, g, pathCordinates, Point(x, y, r));
      path[k + offset] := |pathCordinates|;
      assert path[..] == g[k + offset := |pathCordinates|] && fp[..] == f;
      pathCordinates := pathCordinates + [Point(x, y, r)];
    }

    /** One sweep of compose's search loop: diagonals -p up to delta - 1, delta + p down to delta + 1, then delta. */
    method Sweep(p: nat)
      requires Shape() && fp != path && p <= M
      requires Sweeping(A, B, p, -(M as int) - 1, N + 1, fp[..], path[..], pathCordinates)
      requires !Reach(A, B, delta, N, p - 1)
      modifies this`pathCordinates, fp, path
      ensures Sweeping(A, B, p + 1, -(M as int) - 1, N + 1, fp[..], path[..], pathCordinates)
      ensures |pathCordinates| == |old(pathCordinates)| + delta + 2 * p + 1
    {
      hide Sweeping, Reach;
      var k := -(p as int);
      SweepingOutside(A, B, p, -(M as int) - 1, N + 1, k, delta + p, fp[..], path[..], pathCordinates);
      while k < delta
        invariant -(p as int) <= k <= delta && Sweeping(A, B, p, k, delta + p, fp[..], path[..], pathCordinates)
        invariant |pathCordinates| == |old(pathCordinates)| + k + p
      {
        SetDiagonal(k, p, k, delta + p);
        k := k + 1;
      }
      k := delta + p;
      while k > delta
        invariant delta <= k <= delta + p && Sweeping(A, B, p, delta, k, fp[..], path[..], pathCordinates)
        invariant |pathCordinates| == |old(pathCordinates)| + delta + p + (delta + p - k)
      {
        SetDiagonal(k, p, delta, k);
        k := k - 1;
      }
      SetDiagonal(delta, p, delta, delta);
      SweepingNext(A, B, p, fp[..], path[..], pathCordinates);
    }

    /** fp[k + offset] = snake(k, fp[k - 1 + offset] + 1, fp[k + 1 + offset]) */
    method SetDiagonal(k: int, ghost p: nat, ghost lo: int, ghost hi: int)
      requires Shape() && fp != path && Sweeping(A, B, p, lo, hi, fp[..], path[..], pathCordinates)
      requires p <= M && -(p as int) <= k <= delta + p && !Reach(A, B, delta, N, p - 1)
      requires Turn(delta, k, lo, hi)
      modifies this`pathCordinates, fp, path
      ensures Sweeping(A, B, p, NextLo(k, lo), NextHi(k, lo, hi), fp[..], path[..], pathCordinates)
      ensures |pathCordinates| == |old(pathCordinates)| + 1
    {
      var y := Snake(k, fp[k - 1 + offset] + 1, fp[k + 1 + offset], p, lo, hi);
      ghost var was := fp[..];
      fp[k + offset] := y;
      assert fp[..] == was[k + offset := y];
    }

    /** The script recorded so far is complete up to (x, y), and of A[..x] it keeps all but d elements. */
    ghost predicate RecordedTo(x: int, y: int, d: int)
      reads ses, `lcs, `A, `B, `ox, `oy, `doneA, `doneB, `doneKept, `restarts
    {
      ses.Valid() && 0 <= x <= |A| && 0 <= y <= |B| && Numbered(ses.sequence, ox, oy, doneA, doneB, restarts, y) &&
      Recording(ses.sequence, swapped, doneA + A[..x], doneB + B[..y]) &&
      lcs == Kept(ses.sequence) && |lcs| + d == doneKept + x
    }

    /** recordSequence's three branches: an element of B alone, ... */
    method RecordY(px: nat, py: nat, ghost d: int)
      requires Shape() && RecordedTo(px, py, d) && py < N
      modifies ses
      ensures RecordedTo(px, py + 1, d)
    {
      hide Before, After, Kept, EditCount, Indexed, Only;
      assert doneB + B[..py + 1] == doneB + B[..py] + [B[py]];
      if !swapped {
        ses.AddSequence(B[py], 0, py + 1 + oy, Add);
      } else {
        ses.AddSequence(B[py], py + 1 + oy, 0, Delete);
      }
    }

    /** ... an element of A alone, ... */
    method RecordX(px: nat, py: nat, ghost d: int)
      requires Shape() && RecordedTo(px, py, d) && px < M
      modifies ses
      ensures RecordedTo(px + 1, py, d + 1)
    {
      hide Before, After, Kept, EditCount, Indexed, Only;
      assert doneA + A[..px + 1] == doneA + A[..px] + [A[px]];
      if !swapped {
        ses.AddSequence(A[px], px + 1 + ox, 0, Delete);
      } else {
        ses.AddSequence(A[px], 0, px + 1 + ox, Add);
      }
    }

    /** ... or an element common to both. */
    method RecordBoth(px: nat, py: nat, ghost d: int)
      requires Shape() && RecordedTo(px, py, d) && px < M && py < N && A[px] == B[py]
      modifies ses, this`lcs
      ensures RecordedTo(px + 1, py + 1, d)
    {
      hide Before, After, Kept, EditCount, Indexed, Only;
      assert doneA + A[..px + 1] == doneA + A[..px] + [A[px]];
      assert doneB + B[..py + 1] == doneB + B[..py] + [B[py]];
      if !swapped {
        lcs := lcs + [A[px]];
        ses.AddSequence(A[px], px + 1 + ox, py + 1 + oy, Common);
      } else {
        lcs := lcs + [B[py]];
        ses.AddSequence(B[py], py + 1 + oy, px + 1 + ox, Common);
      }
    }

    /** The loops of recordSequence: replay a path, from its start at the back of v, as script entries. */
    method ReplayPath(v: seq<Point>) returns (px: nat, py: nat)
      requires Shape() && RecordedTo(0, 0, 0) && IsPath(A, B, v)
      modifies ses, this`lcs
      ensures RecordedTo(px, py, XMoves(v)) && px == v[0].x && py == v[0].y
    {
      hide RecordedTo, IsPath, Shape;
      px, py := 0, 0;
      for n := |v| downto 0
        invariant n < |v| ==> RecordedTo(px, py, XMoves(v[n..])) && px == v[n].x && py == v[n].y
        invariant n == |v| ==> RecordedTo(px, py, 0) && px == 0 && py == 0
      {
        ghost var d := if n + 1 < |v| then XMoves(v[n + 1..]) else 0;
        PathTowards(v, n, px, py);
        px, py := RecordHop(v[n], px, py, d, XMoves(v[n..]));
      }
      assert v[0..] == v;
      PathEnds(v);
    }

    lemma PathEnds(v: seq<Point>)
      requires IsPath(A, B, v)
      ensures v != [] && 0 <= v[0].x <= |A| && 0 <= v[0].y <= |B|
    {
    }

    /** (x, y) is at most one move away from the diagonal that ends in t, where the cost so far will be total. */
    ghost predicate Towards(x: int, y: int, t: Point, d: int, total: int)
      reads `A, `B
    {
      x <= t.x && y <= t.y &&
      ((Diagonal(A, B, x, y, t) && total == d) || (Diagonal(A, B, x, y + 1, t) && total == d) ||
       (Diagonal(A, B, x + 1, y, t) && total == d + 1))
    }

    lemma PathTowards(v: seq<Point>, n: nat, x: int, y: int)
      requires IsPath(A, B, v) && n < |v|
      requires if n + 1 < |v| then x == v[n + 1].x && y == v[n + 1].y else x == 0 && y == 0
      ensures Towards(x, y, v[n], if n + 1 < |v| then XMoves(v[n + 1..]) else 0, XMoves(v[n..]))
    {
      PathAt(A, B, v, n);
    }

    lemma TowardsStep(x: nat, y: nat, t: Point, d: int, total: int)
      requires Shape() && Towards(x, y, t, d, total)
      ensures t.y - t.x > y - x ==> y < N && Towards(x, y + 1, t, d, total)
      ensures t.y - t.x < y - x ==> x < M && Towards(x + 1, y, t, d + 1, total)
      ensures t.y - t.x == y - x && (x < t.x || y < t.y) ==>
                x < M && y < N && A[x] == B[y] && Towards(x + 1, y + 1, t, d, total)
      ensures x <= t.x && y <= t.y && (x == t.x && y == t.y ==> d == total)
    {
    }

    /** The inner loop of recordSequence: from the end of one record of the path to the end of the next. */
    method RecordHop(t: Point, x: nat, y: nat, ghost d0: int, ghost total: int) returns (px: nat, py: nat)
      requires Shape() && RecordedTo(x, y, d0) && Towards(x, y, t, d0, total)
      modifies ses, this`lcs
      ensures RecordedTo(px, py, total) && px == t.x && py == t.y
    {
      hide RecordedTo, Towards, Shape;
      TowardsStep(x, y, t, d0, total);
      px, py := x, y;
      ghost var d := d0;
      while px < t.x || py < t.y
        invariant RecordedTo(px, py, d) && Towards(px, py, t, d, total) && px <= t.x && py <= t.y
        decreases t.x + t.y - px - py
      {
        TowardsStep(px, py, t, d, total);
        if t.y - t.x > py - px {
          RecordY(px, py, d);
          py := py + 1;
        } else if t.y - t.x < py - px {
          RecordX(px, py, d);
          px := px + 1;
          d := d + 1;
        } else {
          RecordBoth(px, py, d);
          px, py := px + 1, py + 1;
        }
      }
      TowardsStep(px, py, t, d, total);
    }

    /** recordSequence: records a path; if it does not end in the corner, the rest is to be compared anew. */
    method RecordSequence(v: seq<Point>, ghost p: nat) returns (complete: bool)
      requires Shape() && Parts() && RecordedTo(0, 0, 0) && IsPath(A, B, v) && XMoves(v) == p
      requires v[0].y - v[0].x == delta && (v[0].x < M ==> v[0].y > 0)
      modifies this`A, this`B, this`M, this`N, this`delta, this`offset, this`ox, this`oy, this`lcs, ses
      modifies this`restarts, this`doneA, this`doneB, this`doneKept
      ensures Shape() && Parts() && complete == (v[0].x == old(M))
      ensures complete ==>
        unchanged(`A, `B, `M, `N, `delta, `restarts, `doneA, `doneB, `doneKept) && RecordedTo(M, N, p)
      ensures !complete ==>
        RecordedTo(0, 0, 0) && restarts == old(restarts) + 1 && 0 < N < old(N) && Done() == old(Done() + delta) + 2 * p
      ensures !complete ==>
        0 <= v[0].x <= |old(A)| && 0 <= v[0].y <= |old(B)| && A == old(A)[v[0].x..] && B == old(B)[v[0].y..]
      ensures !complete ==> delta == 0
    {
      hide RecordedTo, IsPath;
      PathEnds(v);
      var px, py := ReplayPath(v);
      complete := px + 1 > M && py + 1 > N;
      if !complete {
        Restart(px, py, p);
      }
    }

    /** The edits recorded by the searches before this one. */
    ghost function Done(): int
      reads `doneA, `doneB, `doneKept
    {
      |doneA| + |doneB| - 2 * doneKept
    }

    /** The end of recordSequence: goes on with what is not recorded yet. The arrays follow when the search begins. */
    method Restart(x: nat, y: nat, ghost p: nat)
      requires Shape() && Parts() && RecordedTo(x, y, p) && x < M && y - x == delta && y > 0
      modifies this`A, this`B, this`M, this`N, this`delta, this`offset, this`ox, this`oy
      modifies this`restarts, this`doneA, this`doneB, this`doneKept
      ensures Shape() && Parts() && RecordedTo(0, 0, 0) && restarts == old(restarts) + 1 && 0 < N < old(N)
      ensures Done() == old(Done() + delta) + 2 * p
      ensures x <= |old(A)| && y <= |old(B)| && A == old(A)[x..] && B == old(B)[y..] && delta == 0
    {
      hide RecordedTo, Parts, Kept, Numbered, Recording;
      ghost var recA, recB, restA, restB := RecordedSoFar(x, y, p);
      TakeRest(x, y);
      restarts := restarts + 1;
      doneA, doneB, doneKept := recA, recB, |lcs|;
      RecordedAnew();
    }

    method TakeRest(x: nat, y: nat)
      requires Shape() && x <= M && y <= N && N - y >= M - x
      modifies this`A, this`B, this`M, this`N, this`delta, this`offset, this`ox, this`oy
      ensures Shape() && A == old(A)[x..] && B == old(B)[y..] && ox == x && oy == y
    {
      A, B := A[x..], B[y..];
      M, N := |A|, |B|;
      delta := N - M;
      offset := M + 1;
      ox, oy := x, y;
    }

    /** What has been recorded in all searches so far, and what has not. */
    lemma RecordedSoFar(x: nat, y: nat, d: int) returns (recA: seq<E>, recB: seq<E>, restA: seq<E>, restB: seq<E>)
      requires Parts() && RecordedTo(x, y, d) && y > 0
      ensures x <= |A| && y <= |B| && restA == A[x..] && restB == B[y..]
      ensures recA + restA == (if swapped then after else before) && recB + restB == (if swapped then before else after)
      ensures |recA| == |doneA| + x && |recB| == |doneB| + y
      ensures ses.Valid() && Numbered(ses.sequence, x, y, recA, recB, restarts + 1, 0)
      ensures Recording(ses.sequence, swapped, recA, recB)
      ensures lcs == Kept(ses.sequence) && |lcs| + d == doneKept + x
    {
      hide Numbered, Recording, Kept, Ses.Valid;
      recA, recB, restA, restB := doneA + A[..x], doneB + B[..y], A[x..], B[y..];
      Rejoined(doneA, A, x);
      Rejoined(doneB, B, y);
      NumberedAnew(ses.sequence, ox, oy, doneA, doneB, restarts, A[..x], B[..y]);
    }

    lemma RecordedAnew()
      requires ses.Valid() && Numbered(ses.sequence, ox, oy, doneA, doneB, restarts, 0)
      requires Recording(ses.sequence, swapped, doneA, doneB) && lcs == Kept(ses.sequence) && |lcs| == doneKept
      requires doneA + A == (if swapped then after else before) && doneB + B == (if swapped then before else after)
      ensures RecordedTo(0, 0, 0) && Parts()
    {
      assert doneA + A[..0] == doneA && doneB + B[..0] == doneB;
    }

    /** The result of a comparison: a script between the two sequences, and what it keeps. */
    ghost predicate Composed()
      reads this, ses
    {
      ses.Valid() && IsScript(ses.sequence, before, after) && IsCommonSubsequence(lcs, before, after) &&
      lcs == Kept(ses.sequence) && EditCount(ses.sequence) == editDistance
    }

    /** compose: finds an edit script. It is the shortest, found by one search, unless the search outgrows
        MAX_CORDINATES_SIZE, which happens exactly when the product of the two numbers of one-sided entries of a
        shortest script reaches it; then the rest is compared anew. */
    method Compose()
      requires Shape() && Parts() && Unused()
      modifies this, ses
      ensures Composed()
      ensures restarts == Restarts(old(A), old(B)) && editDistance == ScriptLength(old(A), old(B))
      ensures Indexed(ses.sequence) <==> OnceIsEnough(old(A), old(B))
      ensures FitsLimit(old(A), old(B)) ==> forall s :: IsScript(s, before, after) ==> editDistance <= EditCount(s)
      ensures FitsLimit(old(A), old(B)) ==> forall t :: IsCommonSubsequence(t, before, after) ==> |t| <= |lcs|
    {
      hide RecordedTo, LcsLen, IsSubsequence, Indexed, FitsLimit, FewestXMoves, RestA, RestB, ScriptLength, Continues;
      ghost var a, b := A, B;
      ContinuesStart(a, b);
      OnceIsEnoughIs(a, b);
      while true
        invariant Shape() && Parts() && RecordedTo(0, 0, 0) && pathCordinates == [] && editDistance == Done()
        invariant restarts > 0 ==> N > 0
        invariant Continues(a, b, A, B, restarts, editDistance)
        decreases N
      {
        ghost var a1, b1, n, d := A, B, restarts, editDistance;
        var complete := OneSearch();
        if complete {
          Finished(FewestXMoves(A, B));
          ContinuesEnd(a, b, A, B, restarts, d);
          if restarts == 0 {
            Shortest(FewestXMoves(A, B));
          }
          return;
        }
        ContinuesStep(a, b, a1, b1, n, d, editDistance);
      }
    }

    /** One turn of compose: a search and the record of the path it found. */
    method OneSearch() returns (complete: bool)
      requires Shape() && Parts() && RecordedTo(0, 0, 0) && pathCordinates == [] && editDistance == Done()
      modifies this, ses
      ensures Shape() && Parts() && (complete <==> FitsLimit(old(A), old(B)))
      ensures complete ==> unchanged(`A, `B, `M, `N, `delta, `restarts) && RecordedTo(M, N, FewestXMoves(A, B))
      ensures complete ==> editDistance == Done() + delta + 2 * FewestXMoves(A, B)
      ensures complete ==> editDistance == old(editDistance) + ScriptLength(A, B)
      ensures !complete ==> RecordedTo(0, 0, 0) && restarts == old(restarts) + 1 && 0 < N < old(N)
      ensures !complete ==> A == RestA(old(A), old(B)) && B == RestB(old(A), old(B))
      ensures !complete ==> pathCordinates == [] && editDistance == Done()
      ensures !complete ==> editDistance + ScriptLength(A, B) == old(editDistance) + ScriptLength(old(A), old(B))
    {
      hide RecordedTo, FewestXMoves, FitsLimit, StopsAt, RestA, RestB, ScriptLength, IsPath, Parts, Coordinates;
      ghost var a, b := A, B;
      SearchLength(a, b);
      var v, p := FindPath();
      complete := RecordSequence(v, p);
      if !complete {
        pathCordinates := [];
      }
    }

    /** The search, and the path it found to the furthest point of the main diagonal. */
    method FindPath() returns (v: seq<Point>, ghost p: nat)
      requires Shape() && pathCordinates == []
      modifies this`fp, this`path, this`pathCordinates, this`editDistance
      ensures IsPath(A, B, v) && XMoves(v) == p && editDistance == old(editDistance) + delta + 2 * p
      ensures v != [] && v[0].y - v[0].x == delta && (v[0].x == M <==> FitsLimit(A, B))
      ensures if FitsLimit(A, B) then p == FewestXMoves(A, B) else p == LastSweep(delta) && v[0].y == StopY(A, B)
    {
      hide FewestXMoves, Sweeping, Recorded, IsPath, Trace, XMoves, Coordinates, Furthest, Reach;
      var q := Search();
      p := q;
      SweepingLengths(A, B, p + 1, -(M as int) - 1, N + 1, fp[..], path[..], pathCordinates);
      MainPath(A, B, p, fp[..], path[..], pathCordinates);
      CornerReached(A, B, p, fp[..], path[..], pathCordinates);
      editDistance := editDistance + delta + 2 * q;
      v := Collect(path[delta + offset]);
      PathEnds(v);
      if !FitsLimit(A, B) {
        StopIs(A, B, p, v[0].y);
      }
    }

    /** The search loop of compose: sweeps until the corner is reached or the coordinates run out. */
    method Search() returns (p: nat)
      requires Shape() && pathCordinates == []
      modifies this`fp, this`path, this`pathCordinates
      ensures Sweeping(A, B, p + 1, -(M as int) - 1, N + 1, fp[..], path[..], pathCordinates)
      ensures p <= FewestXMoves(A, B)
      ensures p == FewestXMoves(A, B) <==> FitsLimit(A, B)
      ensures p < FewestXMoves(A, B) ==> RunsOut(delta, p)
    {
      hide Sweeping, Reach, LcsLen, FewestXMoves, Coordinates;
      ghost var best := FewestXMoves(A, B);
      Begin();
      p := 0;
      NoCoordinates(delta);
      while true
        invariant fp != path && fresh(fp) && fresh(path) && p <= best && fp.Length == M + N + 3
        invariant Sweeping(A, B, p, -(M as int) - 1, N + 1, fp[..], path[..], pathCordinates)
        invariant |pathCordinates| == Coordinates(delta, p) < MAX_CORDINATES_SIZE
        decreases best - p
      {
        FewestReach(A, B, p - 1);
        Sweep(p);
        MoreCoordinates(delta, p);
        CornerReached(A, B, p, fp[..], path[..], pathCordinates);
        if !(fp[delta + offset] != N && |pathCordinates| < MAX_CORDINATES_SIZE) {
          if p < best {
            CoordinatesGrow(delta, p + 1, best);
          }
          return;
        }
        p := p + 1;
      }
    }

    /** Fills the arrays for a search. */
    method Begin()
      requires Shape() && pathCordinates == []
      modifies this`fp, this`path
      ensures fresh(fp) && fresh(path) && fp != path && fp.Length == M + N + 3
      ensures Sweeping(A, B, 0, -(M as int) - 1, N + 1, fp[..], path[..], pathCordinates)
    {
      hide Sweeping;
      fp := new int[M + N + 3](_ => -1);
      path := new int[M + N + 3](_ => -1);
      SweepingInit(A, B, fp[..], path[..]);
    }

    /** Follows the records back from number r to the start. */
    method Collect(r: int) returns (epc: seq<Point>)
      requires Recorded(A, B, pathCordinates) && 0 <= r < |pathCordinates|
      ensures epc == Trace(pathCordinates, r)
    {
      var i := r;
      epc := [];
      while i != -1
        invariant -1 <= i < |pathCordinates|
        invariant epc + Trace(pathCordinates, i) == Trace(pathCordinates, r)
        decreases i
      {
        assert RecordedAt(A, B, pathCordinates, i);
        epc := epc + [pathCordinates[i]];
        i := pathCordinates[i].k;
      }
    }

    /** When both sequences are recorded to their ends the script is complete. */
    lemma Finished(p: nat)
      requires Shape() && Parts() && RecordedTo(M, N, p) && editDistance == Done() + delta + 2 * p
      ensures Composed() && (restarts > 0 ==> N > 0 ==> (Indexed(ses.sequence) <==> restarts <= 1))
      ensures restarts == 0 ==> Indexed(ses.sequence)
    {
      assert A[..M] == A && B[..N] == B;
      KeptIsCommon(ses.sequence);
    }

    /** A recorded script that makes no more x-only moves than any path must is as short as a script can be. */
    lemma Shortest(p: nat)
      requires Shape() && Parts() && RecordedTo(M, N, p) && Composed() && restarts == 0
      requires p == FewestXMoves(A, B) && editDistance == Done() + delta + 2 * p
      ensures forall s :: IsScript(s, before, after) ==> editDistance <= EditCount(s)
      ensures forall t :: IsCommonSubsequence(t, before, after) ==> |t| <= |lcs|
    {
      assert A == (if swapped then after else before) && B == (if swapped then before else after);
      hide RecordedTo, Parts, IsSubsequence;
      LcsLenSymmetric(A, B, M, N);
      forall t | IsCommonSubsequence(t, before, after) ensures |t| <= LcsLen(A, B, M, N) {
        CommonSubsequenceBoundAll(t, before, after);
      }
      forall s | IsScript(s, before, after) ensures editDistance <= EditCount(s) {
        ScriptBound(s, before, after);
      }
    }
  }

  lemma Rejoined<T>(done: seq<T>, s: seq<T>, x: nat)
    requires x <= |s|
    ensures done + s[..x] + s[x..] == done + s
  {
    assert s[..x] + s[x..] == s;
  }

  /** What a search records, by where it stops. */
  lemma SearchLength<E(!new)>(a: seq<E>, b: seq<E>)
    requires |a| <= |b|
    ensures FitsLimit(a, b) ==> ScriptLength(a, b) == |b| - |a| + 2 * FewestXMoves(a, b)
    ensures !FitsLimit(a, b) ==>
      StopsAt(a, b, StopY(a, b)) && 0 < StopY(a, b) < |b| && StopY(a, b) >= |b| - |a| &&
      RestA(a, b) == a[StopY(a, b) - (|b| - |a|)..] && RestB(a, b) == b[StopY(a, b)..] &&
      ScriptLength(a, b) ==
      |b| - |a| + 2 * LastSweep(|b| - |a|) + ScriptLength(RestA(a, b), RestB(a, b))
  {
    if !FitsLimit(a, b) {
      StopIsShortest(a, b);
    }
  }

  /** Of the comparison of a with b, the rest a1 and b1 is left after n restarts and d edits. */
  ghost predicate Continues<E(!new)>(a: seq<E>, b: seq<E>, a1: seq<E>, b1: seq<E>, n: nat, d: int)
    requires |a| <= |b|
  {
    |a1| <= |b1| && n + Restarts(a1, b1) == Restarts(a, b) && d + ScriptLength(a1, b1) == ScriptLength(a, b) &&
    (n == 0 ==> a1 == a && b1 == b)
  }

  lemma ContinuesStart<E(!new)>(a: seq<E>, b: seq<E>)
    requires |a| <= |b|
    ensures Continues(a, b, a, b, 0, 0)
  {
  }

  lemma ContinuesStep<E(!new)>(a: seq<E>, b: seq<E>, a1: seq<E>, b1: seq<E>, n: nat, d: int, d': int)
    requires |a| <= |b| && Continues(a, b, a1, b1, n, d) && |a1| <= |b1| && !FitsLimit(a1, b1)
    requires d' + ScriptLength(RestA(a1, b1), RestB(a1, b1)) == d + ScriptLength(a1, b1)
    ensures Continues(a, b, RestA(a1, b1), RestB(a1, b1), n + 1, d')
  {
    hide RestA, RestB, ScriptLength, FitsLimit;
  }

  lemma ContinuesEnd<E(!new)>(a: seq<E>, b: seq<E>, a1: seq<E>, b1: seq<E>, n: nat, d: int)
    requires |a| <= |b| && Continues(a, b, a1, b1, n, d) && |a1| <= |b1| && FitsLimit(a1, b1)
    ensures n == Restarts(a, b) && d + ScriptLength(a1, b1) == ScriptLength(a, b)
    ensures FitsLimit(a, b) <==> n == 0
    ensures n == 0 ==> a1 == a && b1 == b
  {
    hide RestA, RestB, ScriptLength, FitsLimit;
  }

  /** After sweep p the main diagonal has reached the corner exactly when p x-only moves suffice, ... */
  lemma CornerReached<E(!new)>(a: seq<E>, b: seq<E>, p: nat, fp: seq<int>, path: seq<int>, pc: seq<Point>)
    requires Sweeping(a, b, p + 1, -|a| - 1, |b| + 1, fp, path, pc)
    ensures fp[|b| + 1] == |b| <==> FewestXMoves(a, b) <= p
  {
    CornerSearched(a, b, p, fp, path, pc);
    FewestReach(a, b, p);
  }

  /** Its record is a path with p of them, to the furthest point of the diagonal. */
  lemma MainPath<E(!new)>(a: seq<E>, b: seq<E>, p: nat, fp: seq<int>, path: seq<int>, pc: seq<Point>)
    requires Sweeping(a, b, p + 1, -|a| - 1, |b| + 1, fp, path, pc) && p <= |a|
    ensures Furthest(a, b, |b| - |a|, p, fp[|b| + 1]) && 0 <= path[|b| + 1] < |pc| && Recorded(a, b, pc)
    ensures ghost var v := Trace(pc, path[|b| + 1]);
      IsPath(a, b, v) && v[0].y == fp[|b| + 1] <= |b| && v[0].y - v[0].x == |b| - |a| && XMoves(v) == p
  {
    CornerSearched(a, b, p, fp, path, pc);
    assert Reach(a, b, |b| - |a|, |b| - |a| + p, p);
    TraceIsPath(a, b, pc, path[|b| + 1]);
  }

  lemma CornerSearched<E(!new)>(a: seq<E>, b: seq<E>, p: nat, fp: seq<int>, path: seq<int>, pc: seq<Point>)
    requires Sweeping(a, b, p + 1, -|a| - 1, |b| + 1, fp, path, pc)
    ensures Searched(a, b, |b| - |a|, p, fp[|b| + 1], path[|b| + 1], pc)
  {
    hide Searched, Recorded;
    assert SearchedAt(a, b, p + 1, -|a| - 1, |b| + 1, fp, path, pc, |b| + 1);
  }
}
