/** Comparing two sequences and patching one with the result. */
module DiffAndPatch {
  import opened EditScript
  import opened OnpDiff
  import opened OnpLimit
  import opened UnifiedHunks

  /** The two sequences in the order the comparison puts them. */
  function Shorter<E>(a: seq<E>, b: seq<E>): seq<E> {
    if |a| < |b| then a else b
  }

  function Longer<E>(a: seq<E>, b: seq<E>): seq<E> {
    if |a| < |b| then b else a
  }

  lemma Ordered<E(!new)>(diff: Diff<E>)
    requires diff.Parts() && diff.Unused() && (diff.swapped <==> |diff.before| >= |diff.after|)
    ensures diff.A == Shorter(diff.before, diff.after) && diff.B == Longer(diff.before, diff.after)
  {
    hide Diff.RecordedTo;
    assert [] + diff.A == diff.A && [] + diff.B == diff.B;
  }

  /** compose, then patch: a comparison of a with b turns a into b, whatever a and b are. */
  method ComposeAndPatch<E(==, !new)>(a: seq<E>, b: seq<E>, deletesFirst: bool) returns (patched: seq<E>)
    ensures patched == b
  {
    hide Before, After;
    var diff := new Diff(a, b, deletesFirst);
    diff.Compose();
    patched := Patch(diff.ses.sequence, a);
  }

  /** compose, composeUnifiedHunks with the comparison's own order of the two sequences, then uniPatch. The positions
      in the script are right exactly if two searches are enough; then a becomes b. */
  method ComposeAndUniPatch<E(==, !new)>(a: seq<E>, b: seq<E>, deletesFirst: bool)
    returns (numbered: bool, patched: seq<E>)
    ensures numbered <==> OnceIsEnough(Shorter(a, b), Longer(a, b))
    ensures numbered ==> patched == b
  {
    hide Before, After, Describe, Indexed, OnceIsEnough;
    var diff := new Diff(a, b, deletesFirst);
    Ordered(diff);
    OnceIsEnoughIs(diff.A, diff.B);
    diff.Compose();
    numbered := diff.restarts <= 1;
    patched := a;
    if numbered {
      var format := new UnifiedFormat(diff.swapped);
      ghost var gaps, tail, skipped, rest := format.ComposeUnifiedHunks(diff.ses.sequence);
      patched := format.UniPatch(a, gaps, tail, b);
    }
  }

  lemma ZerosOnes(ones: seq<nat>, zeros: seq<nat>)
    requires (forall i :: 0 <= i < |ones| ==> ones[i] == 1) && forall i :: 0 <= i < |zeros| ==> zeros[i] == 0
    ensures Apart(ones, zeros)
  {
  }

  /** Comparing n zeros with n ones: the positions in the script are right exactly for n up to 2828. */
  method CompareApart(n: nat) returns (diff: Diff<nat>)
    requires n > 0
    ensures fresh(diff) && diff.before == seq(n, _ => 0) && diff.after == seq(n, _ => 1) && diff.Composed()
    ensures Indexed(diff.ses.sequence) <==> n <= 2 * APART_STRETCH
  {
    hide Indexed, OnceIsEnough, Apart, Restarts, ScriptLength, FitsLimit;
    var zeros, ones := seq(n, _ => 0), seq(n, _ => 1);
    ZerosOnes(ones, zeros);
    ApartOnce(ones, zeros);
    diff := new Diff(zeros, ones, false);
    Ordered(diff);
    diff.Compose();
  }
}
