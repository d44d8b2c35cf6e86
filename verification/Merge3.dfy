/** dtl::Diff3: merging the changes two scripts make to the same sequence B. A script is read gap by gap: what it
    inserts before B[i], and whether it keeps B[i]. */
module Merge3 {
  import opened EditScript

  /** What a script inserts when k elements of B have been consumed. */
  function Inserted<E>(s: seq<Edit<E>>, k: nat): seq<E> {
    if s == [] then []
    else
      var p, l := s[..|s| - 1], s[|s| - 1];
      if l.kind == Add && |Before(p)| == k then Inserted(p, k) + [l.elem] else Inserted(p, k)
  }

  /** The script keeps element k of B. */
  ghost predicate Keeps<E>(s: seq<Edit<E>>, k: nat) {
    exists j :: 0 <= j < |s| && KeepsAt(s, k, j)
  }

  predicate KeepsAt<E>(s: seq<Edit<E>>, k: nat, j: nat)
    requires j < |s|
  {
    s[j].kind == Common && |Before(s[..j])| == k
  }

  /** Both scripts' insertions at one place, equal ones once. */
  function Longer<E>(p: seq<E>, q: seq<E>): seq<E> {
    if |p| < |q| then q else p
  }

  /** The changes at place k contradict each other: the insertions differ, or one script deletes the element
      behind insertions that only the other one makes. */
  ghost predicate ConflictAt<E>(s: seq<Edit<E>>, t: seq<Edit<E>>, n: nat, k: nat) {
    var p, q := Inserted(s, k), Inserted(t, k);
    !(p <= q || q <= p) || (k < n && ((|q| < |p| && !Keeps(t, k)) || (|p| < |q| && !Keeps(s, k))))
  }

  ghost predicate Conflict<E(!new)>(s: seq<Edit<E>>, t: seq<Edit<E>>, n: nat) {
    exists k: nat :: k <= n && ConflictAt(s, t, n, k)
  }

  /** The merged sequence up to element k of b: all insertions, and the elements both scripts keep. */
  ghost function MergedTo<E(!new)>(s: seq<Edit<E>>, t: seq<Edit<E>>, b: seq<E>, k: nat): seq<E>
    requires k <= |b|
  {
    if k == 0 then []
    else
      var m := MergedTo(s, t, b, k - 1) + Longer(Inserted(s, k - 1), Inserted(t, k - 1));
      if Keeps(s, k - 1) && Keeps(t, k - 1) then m + [b[k - 1]] else m
  }

  ghost function Merged<E(!new)>(s: seq<Edit<E>>, t: seq<Edit<E>>, b: seq<E>): seq<E> {
    MergedTo(s, t, b, |b|) + Longer(Inserted(s, |b|), Inserted(t, |b|))
  }

  // ---- reading a script gap by gap ------------------------------------------------------------------------

  lemma InsertedStep<E>(s: seq<Edit<E>>, i: nat, k: nat)
    requires i < |s|
    ensures Inserted(s[..i + 1], k) ==
            if s[i].kind == Add && |Before(s[..i])| == k then Inserted(s[..i], k) + [s[i].elem] else Inserted(s[..i], k)
  {
    assert s[..i + 1][..i] == s[..i];
  }

  /** Nothing is inserted at a place the script has not come to. */
  lemma {:induction false} InsertedAhead<E>(s: seq<Edit<E>>, k: nat)
    requires |Before(s)| < k
    ensures Inserted(s, k) == []
  {
    if s != [] {
      InsertedAhead(s[..|s| - 1], k);
    }
  }

  /** The insertions at a place are complete when the script goes on past it, and a prefix of them before. */
  lemma {:induction false} InsertedPrefix<E>(s: seq<Edit<E>>, i: nat, n: nat, k: nat)
    requires i <= n <= |s|
    ensures Inserted(s[..i], k) <= Inserted(s[..n], k)
    ensures |Before(s[..i])| <= |Before(s[..n])|
    ensures |Before(s[..i])| > k ==> Inserted(s[..i], k) == Inserted(s[..n], k)
    decreases n - i
  {
    hide Before, Inserted;
    if i < n {
      InsertedPrefix(s, i, n - 1, k);
      InsertedStep(s, n - 1, k);
      assert |Before(s[..n - 1])| <= |Before(s[..n])| by {
        NextPrefix(s, n - 1);
      }
      PrefixTransitive(Inserted(s[..i], k), Inserted(s[..n - 1], k), [s[n - 1].elem]);
    }
  }

  lemma PrefixTransitive<E>(p: seq<E>, q: seq<E>, r: seq<E>)
    requires p <= q
    ensures p <= q + r
  {
  }

  /** At an entry that is no insertion the gap before it is complete, and the entry decides what is kept. */
  lemma GapClosed<E>(s: seq<Edit<E>>, i: nat)
    requires i < |s| && s[i].kind != Add
    ensures ghost var k := |Before(s[..i])|;
      |Before(s[..i + 1])| == k + 1 && Inserted(s, k) == Inserted(s[..i], k) && Inserted(s[..i + 1], k + 1) == [] &&
      k < |Before(s)| && Before(s)[k] == s[i].elem &&
      (Keeps(s, k) <==> s[i].kind == Common)
  {
    var k := |Before(s[..i])|;
    NextLine(s, i, Before(s));
    assert s[..|s|] == s;
    InsertedStep(s, i, k);
    InsertedPrefix(s, i + 1, |s|, k);
    InsertedStep(s, i, k + 1);
    InsertedAhead(s[..i], k + 1);
    KeepsHere(s, i);
  }

  lemma KeepsHere<E>(s: seq<Edit<E>>, i: nat)
    requires i < |s| && s[i].kind != Add
    ensures Keeps(s, |Before(s[..i])|) <==> s[i].kind == Common
  {
    hide Before, Inserted;
    var k := |Before(s[..i])|;
    if s[i].kind == Common {
      assert KeepsAt(s, k, i);
    }
    forall j | 0 <= j < |s| && j != i ensures !KeepsAt(s, k, j) {
      if s[j].kind == Common {
        NextPrefix(s, if i < j then i else j);
        InsertedPrefix(s, (if i < j then i else j) + 1, if i < j then j else i, 0);
      }
    }
  }

  /** A script read up to entry i stands at element k of what it starts from, having inserted p there. */
  ghost predicate At<E>(s: seq<Edit<E>>, i: nat, k: nat, p: seq<E>) {
    i <= |s| && |Before(s[..i])| == k && Inserted(s[..i], k) == p
  }

  lemma AtStart<E>(s: seq<Edit<E>>)
    ensures At(s, 0, 0, [])
  {
    assert s[..0] == [];
  }

  lemma AtAdd<E>(s: seq<Edit<E>>, i: nat, k: nat, p: seq<E>)
    requires At(s, i, k, p) && i < |s| && s[i].kind == Add
    ensures At(s, i + 1, k, p + [s[i].elem])
    ensures |p| < |Inserted(s, k)| && Inserted(s, k)[..|p|] == p && Inserted(s, k)[|p|] == s[i].elem
  {
    NextPrefix(s, i);
    InsertedStep(s, i, k);
    InsertedPrefix(s, i + 1, |s|, k);
    assert s[..|s|] == s;
    hide Before, Inserted;
    assert p + [s[i].elem] <= Inserted(s, k);
  }

  lemma AtPast<E>(s: seq<Edit<E>>, i: nat, k: nat, p: seq<E>)
    requires At(s, i, k, p) && i < |s| && s[i].kind != Add
    ensures At(s, i + 1, k + 1, []) && Inserted(s, k) == p
    ensures k < |Before(s)| && Before(s)[k] == s[i].elem && (Keeps(s, k) <==> s[i].kind == Common)
  {
    GapClosed(s, i);
  }

  lemma AtEnd<E>(s: seq<Edit<E>>, i: nat, k: nat, p: seq<E>)
    requires At(s, i, k, p)
    ensures k <= |Before(s)| && p <= Inserted(s, k)
    ensures i == |s| ==> k == |Before(s)| && p == Inserted(s, k)
    ensures k == |Before(s)| && i < |s| ==> s[i].kind == Add
  {
    InsertedPrefix(s, i, |s|, k);
    assert s[..|s|] == s;
    if i < |s| && s[i].kind != Add {
      AtPast(s, i, k, p);
    }
  }

  // ---- merge_ ----------------------------------------------------------------------------------------------

  /** Where merge_ stands: both scripts at element k of b, with insertions p and q there. */
  datatype Place<E> = Place(i: nat, j: nat, k: nat, p: seq<E>, q: seq<E>)

  /** The state of merge_: both scripts stand at the same element of b, everything before it is merged without
      conflict, and only a script whose next entry keeps that element may lag behind. */
  ghost predicate Merging<E(!new)>(s: seq<Edit<E>>, t: seq<Edit<E>>, b: seq<E>, w: Place<E>, out: seq<E>) {
    At(s, w.i, w.k, w.p) && At(t, w.j, w.k, w.q) && Before(s) == Before(t) == b && w.k <= |b| &&
    InGap(s, t, w) && Unconflicted(s, t, |b|, w.k) &&
    out == MergedTo(s, t, b, w.k) + Longer(w.p, w.q)
  }

  ghost predicate Unconflicted<E(!new)>(s: seq<Edit<E>>, t: seq<Edit<E>>, n: nat, k: nat) {
    forall l: nat :: l < k ==> !ConflictAt(s, t, n, l)
  }

  /** How far the two scripts may be apart within a gap. */
  ghost predicate InGap<E>(s: seq<Edit<E>>, t: seq<Edit<E>>, w: Place<E>) {
    w.p == w.q || (w.q < w.p && w.j < |t| && t[w.j].kind == Common) || (w.p < w.q && w.i < |s| && s[w.i].kind == Common)
  }

  lemma MergingNone<E(!new)>(s: seq<Edit<E>>, t: seq<Edit<E>>, b: seq<E>)
    requires Before(s) == Before(t) == b
    ensures Merging(s, t, b, Place(0, 0, 0, [], []), [])
  {
    AtStart(s);
    AtStart(t);
  }

  /** Both scripts pass an element of b together. */
  lemma MergingPast<E(!new)>(s: seq<Edit<E>>, t: seq<Edit<E>>, b: seq<E>, w: Place<E>, out: seq<E>)
    requires Merging(s, t, b, w, out) && w.i < |s| && w.j < |t| && s[w.i].kind != Add && t[w.j].kind != Add
    ensures s[w.i].elem == t[w.j].elem
    ensures Merging(s, t, b, Place(w.i + 1, w.j + 1, w.k + 1, [], []),
                    if s[w.i].kind == Common && t[w.j].kind == Common then out + [s[w.i].elem] else out)
  {
    AtPast(s, w.i, w.k, w.p);
    AtPast(t, w.j, w.k, w.q);
    assert !ConflictAt(s, t, |b|, w.k);
    assert MergedTo(s, t, b, w.k + 1) ==
           if s[w.i].kind == Common && t[w.j].kind == Common then out + [b[w.k]] else out;
    hide At, Before, Inserted, Keeps, ConflictAt, MergedTo;
  }

  /** An insertion the other script does not make, before an element the other script keeps, ... */
  lemma MergingLeft<E(!new)>(s: seq<Edit<E>>, t: seq<Edit<E>>, b: seq<E>, w: Place<E>, out: seq<E>)
    requires Merging(s, t, b, w, out) && w.i < |s| && w.j < |t| && s[w.i].kind == Add && t[w.j].kind == Common
    ensures Merging(s, t, b, w.(i := w.i + 1, p := w.p + [s[w.i].elem]), out + [s[w.i].elem])
  {
    AtAdd(s, w.i, w.k, w.p);
    hide At, Before, Inserted, Unconflicted, MergedTo;
    assert Longer(w.p + [s[w.i].elem], w.q) == Longer(w.p, w.q) + [s[w.i].elem];
  }

  /** ... and the same with the two scripts exchanged. */
  lemma MergingRight<E(!new)>(s: seq<Edit<E>>, t: seq<Edit<E>>, b: seq<E>, w: Place<E>, out: seq<E>)
    requires Merging(s, t, b, w, out) && w.i < |s| && w.j < |t| && s[w.i].kind == Common && t[w.j].kind == Add
    ensures Merging(s, t, b, w.(j := w.j + 1, q := w.q + [t[w.j].elem]), out + [t[w.j].elem])
  {
    AtAdd(t, w.j, w.k, w.q);
    hide At, Before, Inserted, Unconflicted, MergedTo;
    assert Longer(w.p, w.q + [t[w.j].elem]) == Longer(w.p, w.q) + [t[w.j].elem];
  }

  /** The same insertion on both sides. */
  lemma MergingSame<E(!new)>(s: seq<Edit<E>>, t: seq<Edit<E>>, b: seq<E>, w: Place<E>, out: seq<E>)
    requires Merging(s, t, b, w, out) && w.i < |s| && w.j < |t| && s[w.i].kind == Add && t[w.j].kind == Add
    requires s[w.i].elem == t[w.j].elem
    ensures Merging(s, t, b, w.(i := w.i + 1, j := w.j + 1, p := w.p + [s[w.i].elem], q := w.q + [s[w.i].elem]),
                    out + [s[w.i].elem])
  {
    AtAdd(s, w.i, w.k, w.p);
    AtAdd(t, w.j, w.k, w.q);
    hide At, Before, Inserted, Unconflicted, MergedTo;
  }

  /** Every other pair of entries is a conflict of the two scripts, not of the order they are read in. */
  lemma MergingConflict<E(!new)>(s: seq<Edit<E>>, t: seq<Edit<E>>, b: seq<E>, w: Place<E>, out: seq<E>)
    requires Merging(s, t, b, w, out) && w.i < |s| && w.j < |t|
    requires s[w.i].kind != Common && t[w.j].kind != Common && (s[w.i].kind == Add || t[w.j].kind == Add)
    requires s[w.i].kind == Add && t[w.j].kind == Add ==> s[w.i].elem != t[w.j].elem
    ensures Conflict(s, t, |b|)
  {
    assert w.p == w.q;
    if s[w.i].kind == Add {
      AtAdd(s, w.i, w.k, w.p);
    } else {
      AtPast(s, w.i, w.k, w.p);
    }
    if t[w.j].kind == Add {
      AtAdd(t, w.j, w.k, w.q);
    } else {
      AtPast(t, w.j, w.k, w.q);
    }
    hide At, Before, Inserted, MergedTo, Keeps;
    assert ConflictAt(s, t, |b|, w.k);
  }

  /** When one script has ended, the other one's remaining insertions complete the merge. */
  ghost predicate Finishing<E(!new)>(s: seq<Edit<E>>, t: seq<Edit<E>>, b: seq<E>, j: nat, q: seq<E>, out: seq<E>) {
    Before(s) == Before(t) == b && At(t, j, |b|, q) && Inserted(s, |b|) <= q &&
    out == MergedTo(s, t, b, |b|) + q && Unconflicted(s, t, |b|, |b|)
  }

  lemma FinishingBegins<E(!new)>(s: seq<Edit<E>>, t: seq<Edit<E>>, b: seq<E>, w: Place<E>, out: seq<E>)
    requires Merging(s, t, b, w, out) && w.i == |s|
    ensures Finishing(s, t, b, w.j, w.q, out)
  {
    AtEnd(s, w.i, w.k, w.p);
    AtEnd(t, w.j, w.k, w.q);
    hide At, Before, Inserted, MergedTo, Unconflicted;
  }

  lemma FinishingStep<E(!new)>(s: seq<Edit<E>>, t: seq<Edit<E>>, b: seq<E>, j: nat, q: seq<E>, out: seq<E>)
    requires Finishing(s, t, b, j, q, out) && j < |t|
    ensures t[j].kind == Add && Finishing(s, t, b, j + 1, q + [t[j].elem], out + [t[j].elem])
  {
    AtEnd(t, j, |b|, q);
    AtAdd(t, j, |b|, q);
    hide At, Before, Inserted, MergedTo, Unconflicted;
  }

  lemma Finished<E(!new)>(s: seq<Edit<E>>, t: seq<Edit<E>>, b: seq<E>, q: seq<E>, out: seq<E>)
    requires Finishing(s, t, b, |t|, q, out)
    ensures !Conflict(s, t, |b|) && out == Merged(s, t, b)
  {
    AtEnd(t, |t|, |b|, q);
    assert !ConflictAt(s, t, |b|, |b|);
    hide At, Before, Inserted, MergedTo, ConflictAt;
  }

  // ---- properties of merging -------------------------------------------------------------------------------

  /** Whether two scripts conflict, and what they merge to, does not depend on which is called A and which C. */
  lemma {:induction false} MergedToSymmetric<E(!new)>(s: seq<Edit<E>>, t: seq<Edit<E>>, b: seq<E>, k: nat)
    requires k <= |b|
    requires forall l: nat :: l < k ==> !ConflictAt(s, t, |b|, l)
    ensures MergedTo(s, t, b, k) == MergedTo(t, s, b, k)
  {
    if k > 0 {
      MergedToSymmetric(s, t, b, k - 1);
      assert !ConflictAt(s, t, |b|, k - 1);
      LongerSymmetric(Inserted(s, k - 1), Inserted(t, k - 1));
    }
  }

  lemma LongerSymmetric<E>(p: seq<E>, q: seq<E>)
    requires p <= q || q <= p
    ensures Longer(p, q) == Longer(q, p)
  {
  }

  lemma MergeSymmetric<E(!new)>(s: seq<Edit<E>>, t: seq<Edit<E>>, b: seq<E>)
    ensures Conflict(s, t, |b|) <==> Conflict(t, s, |b|)
    ensures !Conflict(s, t, |b|) ==> Merged(s, t, b) == Merged(t, s, b)
  {
    assert forall k: nat :: ConflictAt(s, t, |b|, k) <==> ConflictAt(t, s, |b|, k);
    if !Conflict(s, t, |b|) {
      MergedToSymmetric(s, t, b, |b|);
      assert !ConflictAt(s, t, |b|, |b|);
      LongerSymmetric(Inserted(s, |b|), Inserted(t, |b|));
    }
  }

  /** Merging a script with itself never conflicts and gives what the script gives: reading a script gap by gap
      loses nothing. */
  lemma MergeSame<E(!new)>(s: seq<Edit<E>>)
    ensures !Conflict(s, s, |Before(s)|) && Merged(s, s, Before(s)) == After(s)
  {
    var b := Before(s);
    hide Merging, Conflict;
    MergingNone(s, s, b);
    assert s[..0] == [] && s[..|s|] == s;
    var w := Place(0, 0, 0, [], []);
    for i := 0 to |s|
      invariant Merging(s, s, b, w, After(s[..i])) && w.i == w.j == i
    {
      NextPrefix(s, i);
      if s[i].kind == Add {
        MergingSame(s, s, b, w, After(s[..i]));
        w := w.(i := w.i + 1, j := w.j + 1, p := w.p + [s[w.i].elem], q := w.q + [s[w.i].elem]);
      } else {
        MergingPast(s, s, b, w, After(s[..i]));
        w := Place(w.i + 1, w.j + 1, w.k + 1, [], []);
      }
    }
    FinishingBegins(s, s, b, w, After(s));
    Finished(s, s, b, w.q, After(s));
  }

  /** A script without edits changes nothing: it conflicts with no other and leaves the other's result. */
  lemma MergeUnchanged<E(!new)>(s: seq<Edit<E>>, t: seq<Edit<E>>)
    requires EditCount(s) == 0 && Before(s) == Before(t)
    ensures After(s) == Before(s)
    ensures !Conflict(s, t, |Before(s)|) && Merged(s, t, Before(s)) == After(t)
  {
    var b := Before(s);
    NoEdits(s);
    MergeSame(t);
    assert forall k: nat {:trigger Inserted(s, k)} :: k <= |b| ==>
      Inserted(s, k) == [] && (k < |b| ==> Keeps(s, k)) by {
      forall k: nat | k <= |b| ensures Inserted(s, k) == [] && (k < |b| ==> Keeps(s, k)) {
        NoEditsAt(s, k);
      }
    }
    hide Inserted, Keeps;
    assert !Conflict(s, t, |b|);
    UnchangedMergedTo(s, t, b, |b|);
  }

  lemma {:induction false} UnchangedMergedTo<E(!new)>(s: seq<Edit<E>>, t: seq<Edit<E>>, b: seq<E>, k: nat)
    requires k <= |b|
    requires forall l: nat {:trigger Inserted(s, l)} :: l <= |b| ==> Inserted(s, l) == [] && (l < |b| ==> Keeps(s, l))
    ensures MergedTo(s, t, b, k) == MergedTo(t, t, b, k)
  {
    if k > 0 {
      UnchangedMergedTo(s, t, b, k - 1);
      assert Inserted(s, k - 1) == [];
    }
  }

  lemma {:induction false} NoEdits<E(!new)>(s: seq<Edit<E>>)
    requires EditCount(s) == 0
    ensures Only(s, Common) && |Before(s)| == |s| && After(s) == Before(s)
  {
    if s != [] {
      NoEdits(s[..|s| - 1]);
    }
  }

  lemma {:induction false} NoEditsAt<E(!new)>(s: seq<Edit<E>>, k: nat)
    requires EditCount(s) == 0
    ensures Inserted(s, k) == [] && (k < |Before(s)| ==> Keeps(s, k))
  {
    NoEdits(s);
    if s != [] {
      NoEditsAt(s[..|s| - 1], k);
      if k < |s| {
        NoEdits(s[..k]) by {
          NoEditsPrefix(s, k);
        }
        assert KeepsAt(s, k, k);
      }
    }
  }

  lemma {:induction false} NoEditsPrefix<E>(s: seq<Edit<E>>, k: nat)
    requires EditCount(s) == 0 && k <= |s|
    ensures EditCount(s[..k]) == 0
    decreases |s|
  {
    if k == |s| {
      assert s[..k] == s;
    } else {
      NoEditsPrefix(s[..|s| - 1], k);
      assert s[..|s| - 1][..k] == s[..k];
    }
  }

  // ---- the operations --------------------------------------------------------------------------------------

  class Diff3<E(==, !new)> {
    const A: seq<E>
    const B: seq<E>
    const C: seq<E>
    var S: seq<E>
    var conflict: bool

    constructor (a: seq<E>, b: seq<E>, c: seq<E>)
      ensures A == a && B == b && C == c && !conflict
    {
      A, B, C, S, conflict := a, b, c, [], false;
    }

    /** merge_: walks both scripts at once. It stops at a conflict exactly when the two scripts conflict, and
        otherwise builds their merge; no pair of entries leaves it without progress. */
    method MergeScripts(sesBa: seq<Edit<E>>, sesBc: seq<Edit<E>>) returns (merged: seq<E>)
      requires IsScript(sesBa, B, A) && IsScript(sesBc, B, C) && !conflict
      modifies this`conflict
      ensures conflict <==> Conflict(sesBa, sesBc, |B|)
      ensures merged == if conflict then B else Merged(sesBa, sesBc, B)
    {
      hide Merging, Finishing, Conflict, Merged;
      var out: seq<E> := [];
      var i, j := 0, 0;
      ghost var w: Place<E> := Place(0, 0, 0, [], []);
      MergingNone(sesBa, sesBc, B);
      while i < |sesBa| || j < |sesBc|
        invariant i <= |sesBa| && j <= |sesBc| && !conflict
        invariant Merging(sesBa, sesBc, B, w, out) && w.i == i && w.j == j
        decreases |sesBa| + |sesBc| - i - j
      {
        ghost var i0, j0 := i, j;
        while i < |sesBa| && j < |sesBc| && sesBa[i].elem == sesBc[j].elem &&
              sesBa[i].kind == Common && sesBc[j].kind == Common
          invariant i <= |sesBa| && j <= |sesBc| && i + j >= i0 + j0 && !conflict
          invariant Merging(sesBa, sesBc, B, w, out) && w.i == i && w.j == j
          decreases |sesBa| - i
        {
          MergingPast(sesBa, sesBc, B, w, out);
          out := out + [sesBa[i].elem];
          i, j := i + 1, j + 1;
          w := Place(i, j, w.k + 1, [], []);
        }
        if i == |sesBa| || j == |sesBc| {
          break;
        }
        var ba, bc := sesBa[i], sesBc[j];
        if ba.kind == Common && bc.kind == Delete {
          MergingPast(sesBa, sesBc, B, w, out);
          i, j := i + 1, j + 1;
          w := Place(i, j, w.k + 1, [], []);
        } else if ba.kind == Common && bc.kind == Add {
          MergingRight(sesBa, sesBc, B, w, out);
          out := out + [bc.elem];
          j := j + 1;
          w := w.(j := j, q := w.q + [bc.elem]);
        } else if ba.kind == Delete && bc.kind == Common {
          MergingPast(sesBa, sesBc, B, w, out);
          i, j := i + 1, j + 1;
          w := Place(i, j, w.k + 1, [], []);
        } else if ba.kind == Delete && bc.kind == Delete {
          MergingPast(sesBa, sesBc, B, w, out);
          if ba.elem == bc.elem {
            i, j := i + 1, j + 1;
            w := Place(i, j, w.k + 1, [], []);
          } else {
            // the original reports a conflict here
            assert false;
          }
        } else if ba.kind == Delete && bc.kind == Add {
          MergingConflict(sesBa, sesBc, B, w, out);
          conflict := true;
          return B;
        } else if ba.kind == Add && bc.kind == Common {
          MergingLeft(sesBa, sesBc, B, w, out);
          out := out + [ba.elem];
          i := i + 1;
          w := w.(i := i, p := w.p + [ba.elem]);
        } else if ba.kind == Add && bc.kind == Delete {
          MergingConflict(sesBa, sesBc, B, w, out);
          conflict := true;
          return B;
        } else if ba.kind == Add && bc.kind == Add {
          if ba.elem == bc.elem {
            MergingSame(sesBa, sesBc, B, w, out);
            out := out + [ba.elem];
            i, j := i + 1, j + 1;
            w := w.(i := i, j := j, p := w.p + [ba.elem], q := w.q + [ba.elem]);
          } else {
            MergingConflict(sesBa, sesBc, B, w, out);
            conflict := true;
            return B;
          }
        } else {
          // two different kept elements: no branch of the original advances
          MergingPast(sesBa, sesBc, B, w, out);
          assert false;
        }
      }
      if i == |sesBa| {
        FinishingBegins(sesBa, sesBc, B, w, out);
        out := AddDecentSequence(sesBc, j, out, sesBa, w.q);
      } else if j == |sesBc| {
        MergingSwapped(sesBa, sesBc, B, w, out);
        FinishingBegins(sesBc, sesBa, B, Place(w.j, w.i, w.k, w.q, w.p), out);
        out := AddDecentSequence(sesBa, i, out, sesBc, w.p);
        MergeSymmetric(sesBc, sesBa, B);
      }
      merged := out;
    }

    /** addDecentSequence: appends the insertions a script has left. */
    method AddDecentSequence(rest: seq<Edit<E>>, from: nat, seq0: seq<E>, ghost ended: seq<Edit<E>>, ghost q0: seq<E>)
      returns (out: seq<E>)
      requires Finishing(ended, rest, B, from, q0, seq0)
      ensures !Conflict(ended, rest, |B|) && out == Merged(ended, rest, B)
    {
      hide Finishing, Conflict, Merged;
      out := seq0;
      var it := from;
      ghost var q := q0;
      FinishingInRange(ended, rest, B, from, q, seq0);
      while it < |rest|
        invariant it <= |rest| && Finishing(ended, rest, B, it, q, out)
      {
        FinishingStep(ended, rest, B, it, q, out);
        if rest[it].kind == Add {
          out := out + [rest[it].elem];
          q := q + [rest[it].elem];
        }
        it := it + 1;
      }
      Finished(ended, rest, B, q, out);
    }

    /** merge: the shortcuts for unchanged sides agree with the walk over both scripts. */
    method Merge(sesBa: seq<Edit<E>>, sesBc: seq<Edit<E>>) returns (ok: bool)
      requires IsScript(sesBa, B, A) && IsScript(sesBc, B, C) && !conflict
      modifies this
      ensures ok == !conflict && (conflict <==> Conflict(sesBa, sesBc, |B|))
      ensures S == if conflict then B else Merged(sesBa, sesBc, B)
    {
      hide Conflict, Merged;
      if EditCount(sesBa) == 0 {
        MergeUnchanged(sesBa, sesBc);
        if EditCount(sesBc) == 0 {
          MergeUnchanged(sesBc, sesBa);
          S := B;
          return true;
        }
        S := C;
        return true;
      } else if EditCount(sesBc) == 0 {
        MergeUnchanged(sesBc, sesBa);
        MergeSymmetric(sesBc, sesBa, B);
        S := A;
        return true;
      } else {
        S := MergeScripts(sesBa, sesBc);
        if conflict {
          return false;
        }
      }
      return true;
    }
  }

  lemma MergingSwapped<E(!new)>(s: seq<Edit<E>>, t: seq<Edit<E>>, b: seq<E>, w: Place<E>, out: seq<E>)
    requires Merging(s, t, b, w, out)
    ensures Merging(t, s, b, Place(w.j, w.i, w.k, w.q, w.p), out)
  {
    MergedToSymmetric(s, t, b, w.k);
    LongerSymmetric(w.p, w.q);
    forall l: nat | l < w.k ensures !ConflictAt(t, s, |b|, l) {
      assert !ConflictAt(s, t, |b|, l);
    }
    hide At, Before, Inserted, MergedTo, ConflictAt;
  }

  lemma FinishingInRange<E(!new)>(s: seq<Edit<E>>, t: seq<Edit<E>>, b: seq<E>, j: nat, q: seq<E>, out: seq<E>)
    requires Finishing(s, t, b, j, q, out)
    ensures j <= |t|
  {
  }
}
