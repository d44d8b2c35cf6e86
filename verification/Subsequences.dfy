/** Common subsequences of two sequences: the declarative notion, and the length of a longest one as a
    function of two prefix lengths. The diff computes neither directly; both say what it should compute. */
module Subsequences {

  /** s can be obtained from t by dropping elements. */
  ghost predicate IsSubsequence<E(!new)>(s: seq<E>, t: seq<E>)
    decreases |t|
  {
    s == [] ||
    (t != [] &&
     ((s[|s| - 1] == t[|t| - 1] && IsSubsequence(s[..|s| - 1], t[..|t| - 1])) ||
      IsSubsequence(s, t[..|t| - 1])))
  }

  ghost predicate IsCommonSubsequence<E(!new)>(s: seq<E>, a: seq<E>, b: seq<E>) {
    IsSubsequence(s, a) && IsSubsequence(s, b)
  }

  /** The length of a longest common subsequence of a[..x] and b[..y]. */
  ghost function LcsLen<E(!new)>(a: seq<E>, b: seq<E>, x: nat, y: nat): (n: nat)
    requires x <= |a| && y <= |b|
    ensures n <= x && n <= y
    decreases x + y
  {
    if x == 0 || y == 0 then 0
    else if a[x - 1] == b[y - 1] then LcsLen(a, b, x - 1, y - 1) + 1
    else Max(LcsLen(a, b, x - 1, y), LcsLen(a, b, x, y - 1))
  }

  function Max(m: int, n: int): int {
    if m < n then n else m
  }

  /** One more element on either side lengthens a longest common subsequence by at most one, never shortens it. */
  lemma {:induction false} LcsLenSteps<E(!new)>(a: seq<E>, b: seq<E>, x: nat, y: nat)
    requires x <= |a| && y <= |b|
    ensures x < |a| ==> LcsLen(a, b, x, y) <= LcsLen(a, b, x + 1, y) <= LcsLen(a, b, x, y) + 1
    ensures y < |b| ==> LcsLen(a, b, x, y) <= LcsLen(a, b, x, y + 1) <= LcsLen(a, b, x, y) + 1
    decreases x + y
  {
    if x > 0 {
      LcsLenSteps(a, b, x - 1, y);
    }
    if y > 0 {
      LcsLenSteps(a, b, x, y - 1);
    }
    if x > 0 && y > 0 {
      LcsLenSteps(a, b, x - 1, y - 1);
    }
  }

  lemma {:induction false} LcsLenMonotone<E(!new)>(a: seq<E>, b: seq<E>, x: nat, y: nat, x': nat, y': nat)
    requires x <= x' <= |a| && y <= y' <= |b|
    ensures LcsLen(a, b, x, y) <= LcsLen(a, b, x', y')
    decreases x' + y' - x - y
  {
    LcsLenSteps(a, b, x, y);
    if x < x' {
      LcsLenMonotone(a, b, x + 1, y, x', y');
    } else if y < y' {
      LcsLenMonotone(a, b, x, y + 1, x', y');
    }
  }

  lemma {:induction false} LcsLenSymmetric<E(!new)>(a: seq<E>, b: seq<E>, x: nat, y: nat)
    requires x <= |a| && y <= |b|
    ensures LcsLen(a, b, x, y) == LcsLen(b, a, y, x)
    decreases x + y
  {
    if x > 0 && y > 0 {
      LcsLenSymmetric(a, b, x - 1, y - 1);
      LcsLenSymmetric(a, b, x - 1, y);
      LcsLenSymmetric(a, b, x, y - 1);
    }
  }

  /** No common subsequence is longer than LcsLen says. */
  lemma {:induction false} CommonSubsequenceBound<E(!new)>(s: seq<E>, a: seq<E>, b: seq<E>, x: nat, y: nat)
    requires x <= |a| && y <= |b|
    requires IsSubsequence(s, a[..x]) && IsSubsequence(s, b[..y])
    ensures |s| <= LcsLen(a, b, x, y)
    decreases x + y
  {
    if s != [] {
      var s' := s[..|s| - 1];
      assert a[..x][..x - 1] == a[..x - 1] && b[..y][..y - 1] == b[..y - 1];
      if !(s[|s| - 1] == a[x - 1] && IsSubsequence(s', a[..x - 1])) {
        CommonSubsequenceBound(s, a, b, x - 1, y);
        LcsLenSteps(a, b, x - 1, y);
      } else if !(s[|s| - 1] == b[y - 1] && IsSubsequence(s', b[..y - 1])) {
        CommonSubsequenceBound(s, a, b, x, y - 1);
        LcsLenSteps(a, b, x, y - 1);
      } else {
        CommonSubsequenceBound(s', a, b, x - 1, y - 1);
      }
    }
  }

  lemma CommonSubsequenceBoundAll<E(!new)>(s: seq<E>, a: seq<E>, b: seq<E>)
    requires IsCommonSubsequence(s, a, b)
    ensures |s| <= LcsLen(a, b, |a|, |b|)
  {
    assert a[..|a|] == a && b[..|b|] == b;
    CommonSubsequenceBound(s, a, b, |a|, |b|);
  }

  lemma SubsequenceSnoc<E(!new)>(s: seq<E>, t: seq<E>, e: E)
    requires IsSubsequence(s, t)
    ensures IsSubsequence(s, t + [e]) && IsSubsequence(s + [e], t + [e])
  {
    assert (t + [e])[..|t|] == t;
    assert (s + [e])[..|s|] == s;
  }
}
