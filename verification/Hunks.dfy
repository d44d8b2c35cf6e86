/** Hunks of a unified diff and how much a hunk takes in: a stretch of unchanged lines separates two hunks exactly
    when it has five lines or more, and a hunk keeps three of them on either side. */
module Hunks {
  import opened EditScript

  const DTL_SEPARATE_SIZE: nat := 3
  const DTL_CONTEXT_SIZE: nat := 3

  /** @@ -a,b +c,d @@ */
  datatype Hunk<E> = Hunk(a: int, b: int, c: int, d: int, common0: seq<Edit<E>>, change: seq<Edit<E>>,
                          common1: seq<Edit<E>>, incDecCount: int)

  function Script<E>(h: Hunk<E>): seq<Edit<E>> {
    h.common0 + h.change + h.common1
  }

  /** What composeUnifiedHunks holds of the hunk it is working on. */
  datatype Draft<E> = Draft(common0: seq<Edit<E>>, change: seq<Edit<E>>, deletes: seq<Edit<E>>, adds: seq<Edit<E>>,
                            a: int, b: int, c: int, d: int, incDecCount: int)
  {
    function Body(): seq<Edit<E>> {
      common0 + change + (deletes + adds)
    }

    predicate Changing() {
      change != [] || deletes != [] || adds != []
    }
  }

  // ---- runs of unchanged lines -----------------------------------------------------------------------------

  /** How many unchanged entries a list ends with. */
  function Run<E>(s: seq<Edit<E>>): nat {
    if s == [] || s[|s| - 1].kind != Common then 0 else Run(s[..|s| - 1]) + 1
  }

  /** Nowhere more than four unchanged entries in a row. */
  ghost predicate Compact<E(!new)>(s: seq<Edit<E>>) {
    forall n: nat {:trigger s[..n]} :: n <= |s| ==> Run(s[..n]) <= DTL_SEPARATE_SIZE + 1
  }

  /** Entry k is there and unchanged. */
  predicate Unchanged<E>(ses: seq<Edit<E>>, k: int) {
    0 <= k < |ses| && ses[k].kind == Common
  }

  lemma CompactSnoc<E(!new)>(s: seq<Edit<E>>, e: Edit<E>)
    requires Compact(s) && (e.kind == Common ==> Run(s) <= DTL_SEPARATE_SIZE)
    ensures Compact(s + [e]) && Run(s + [e]) == if e.kind == Common then Run(s) + 1 else 0
  {
    var r := s + [e];
    assert r[..|s|] == s && r[..|r|] == r;
    forall n: nat | n <= |r| ensures Run(r[..n]) <= DTL_SEPARATE_SIZE + 1 {
      if n <= |s| {
        assert r[..n] == s[..n];
      }
    }
  }

  lemma {:induction false} CompactChanges<E(!new)>(s: seq<Edit<E>>, t: seq<Edit<E>>)
    requires Compact(s) && forall k :: 0 <= k < |t| ==> t[k].kind != Common
    ensures Compact(s + t) && Run(s + t) == if t == [] then Run(s) else 0
  {
    if t == [] {
      assert s + t == s;
    } else {
      var m := |t| - 1;
      CompactChanges(s, t[..m]);
      CompactSnoc(s + t[..m], t[m]);
      assert s + t[..m] + [t[m]] == s + t;
    }
  }

  // ---- where a script is cut ---------------------------------------------------------------------------------

  /** The hunk starts with up to three unchanged lines, three if it skipped any, and goes on with a change; inside
      the change no five unchanged lines follow each other. Between two hunks two or more lines are unchanged,
      besides those the first one ends with. */
  ghost predicate Cut<E(!new)>(gap: seq<E>, h: Hunk<E>, first: bool) {
    |h.common0| <= DTL_CONTEXT_SIZE && Only(h.common0, Common) && h.common1 == [] &&
    (gap != [] ==> |h.common0| == DTL_CONTEXT_SIZE) && (first || |gap| + |h.common0| >= 2) &&
    h.change != [] && h.change[0].kind != Common && Compact(h.change)
  }

  /** All hunks are cut like that, and each that something follows ends with three unchanged lines. */
  ghost predicate CutUp<E(!new)>(gaps: seq<seq<E>>, hunks: seq<Hunk<E>>, followed: bool) {
    |gaps| == |hunks| && (forall j :: 0 <= j < |hunks| ==> Cut(gaps[j], hunks[j], j == 0)) &&
    forall j :: 0 <= j < |hunks| && (j + 1 < |hunks| || followed) ==> Run(hunks[j].change) == DTL_SEPARATE_SIZE
  }

  /** After a hunk was closed early the next two lines are unchanged: have of them are already taken. */
  ghost predicate Ahead<E(!new)>(ses: seq<Edit<E>>, i: nat, have: nat) {
    (have == 0 ==> Unchanged(ses, i) && Unchanged(ses, i + 1)) && (have == 1 ==> Unchanged(ses, i))
  }

  /** The unchanged lines at the end of the pending change, as middle counts them: a third one that could not
      close the hunk starts the count over, and the hunk will not be closed before the next change. */
  ghost predicate Counting<E(!new)>(ses: seq<Edit<E>>, i: nat, w: Draft<E>, middle: nat) {
    Compact(w.change) && Only(w.deletes, Delete) && Only(w.adds, Add) &&
    (w.change != [] ==> w.change[0].kind != Common) &&
    var r := if w.deletes == [] && w.adds == [] then Run(w.change) else 0;
    r <= DTL_SEPARATE_SIZE + 1 && (r < DTL_SEPARATE_SIZE ==> middle == r) &&
      (r >= DTL_SEPARATE_SIZE ==> middle == r - 3) &&
    (r == DTL_SEPARATE_SIZE ==> !(Unchanged(ses, i) && Unchanged(ses, i + 1))) &&
    (r > DTL_SEPARATE_SIZE ==> !Unchanged(ses, i))
  }

  /** The state of composeUnifiedHunks before entry i, as far as the extent of hunks is concerned. */
  ghost predicate Cutting<E(!new)>(ses: seq<Edit<E>>, i: nat, gaps: seq<seq<E>>, hunks: seq<Hunk<E>>, tail: seq<E>,
                                   w: Draft<E>, middle: nat)
  {
    var have := |tail| + |w.common0|;
    i <= |ses| && CutUp(gaps, hunks, i < |ses| || have > 0) &&
    |w.common0| <= DTL_CONTEXT_SIZE && Only(w.common0, Common) && (tail != [] ==> |w.common0| == DTL_CONTEXT_SIZE) &&
    Counting(ses, i, w, middle) &&
    (hunks != [] && w.Changing() ==> have >= 2) && (hunks != [] && !w.Changing() && i < |ses| ==> Ahead(ses, i, have))
  }

  lemma CuttingNone<E(!new)>(ses: seq<Edit<E>>)
    ensures Cutting(ses, 0, [], [], [], Draft([], [], [], [], 0, 0, 0, 0, 0), 0)
  {
  }

  /** An unchanged line before any change: context, of which the last three are kept. */
  lemma CuttingContext<E(!new)>(ses: seq<Edit<E>>, i: nat, gaps: seq<seq<E>>, hunks: seq<Hunk<E>>, tail: seq<E>,
                                w: Draft<E>, middle: nat, tail': seq<E>, w': Draft<E>)
    requires Cutting(ses, i, gaps, hunks, tail, w, middle) && Unchanged(ses, i) && !w.Changing() && !w'.Changing()
    requires if |w.common0| < DTL_CONTEXT_SIZE then w'.common0 == w.common0 + [ses[i]] && tail' == tail
             else w'.common0 == w.common0[1..] + [ses[i]] && tail' == tail + [w.common0[0].elem]
    ensures Cutting(ses, i + 1, gaps, hunks, tail', w', middle)
  {
  }

  /** An insertion or a deletion. */
  lemma CuttingChange<E(!new)>(ses: seq<Edit<E>>, i: nat, gaps: seq<seq<E>>, hunks: seq<Hunk<E>>, tail: seq<E>,
                               w: Draft<E>, middle: nat, w': Draft<E>)
    requires Cutting(ses, i, gaps, hunks, tail, w, middle) && i < |ses| && ses[i].kind != Common
    requires w'.common0 == w.common0 && w'.change == w.change
    requires if ses[i].kind == Add then w'.adds == w.adds + [ses[i]] && w'.deletes == w.deletes
             else w'.deletes == w.deletes + [ses[i]] && w'.adds == w.adds
    ensures Cutting(ses, i + 1, gaps, hunks, tail, w', 0)
  {
  }

  /** The pending insertions and deletions join the change. */
  lemma ChangesJoined<E(!new)>(w: Draft<E>)
    requires Compact(w.change) && Only(w.deletes, Delete) && Only(w.adds, Add)
    requires w.change != [] ==> w.change[0].kind != Common
    ensures ghost var s := w.change + w.deletes + w.adds;
      Compact(s) && Run(s) == (if w.deletes == [] && w.adds == [] then Run(w.change) else 0) &&
      (s != [] ==> s[0].kind != Common)
  {
    CompactChanges(w.change, w.deletes + w.adds);
    assert w.change + (w.deletes + w.adds) == w.change + w.deletes + w.adds;
  }

  /** An unchanged line behind a change; the count may reach three. */
  ghost predicate Joined<E(!new)>(ses: seq<Edit<E>>, i: nat, gaps: seq<seq<E>>, hunks: seq<Hunk<E>>, tail: seq<E>,
                                  w: Draft<E>, middle: nat)
  {
    0 < i <= |ses| && CutUp(gaps, hunks, true) && w.deletes == w.adds == [] &&
    Cut(tail, Hunk(0, 0, 0, 0, w.common0, w.change, [], 0), hunks == []) &&
    ((ses[i - 1].kind != Common && i == |ses|) ||
     (ses[i - 1].kind == Common &&
      ((Run(w.change) <= DTL_SEPARATE_SIZE && middle == Run(w.change)) ||
       (Run(w.change) == DTL_SEPARATE_SIZE + 1 && middle == 1 && !Unchanged(ses, i)))))
  }

  lemma CuttingJoin<E(!new)>(ses: seq<Edit<E>>, i: nat, gaps: seq<seq<E>>, hunks: seq<Hunk<E>>, tail: seq<E>,
                             w: Draft<E>, middle: nat, w': Draft<E>)
    requires Cutting(ses, i, gaps, hunks, tail, w, middle) && Unchanged(ses, i) && w.Changing()
    requires w'.common0 == w.common0 && w'.change == w.change + w.deletes + w.adds + [ses[i]]
    requires w'.deletes == w'.adds == []
    ensures Joined(ses, i + 1, gaps, hunks, tail, w', middle + 1)
  {
    ChangesJoined(w);
    CompactSnoc(w.change + w.deletes + w.adds, ses[i]);
  }

  /** At the end of the script what is pending joins the change too. */
  lemma CuttingLast<E(!new)>(ses: seq<Edit<E>>, gaps: seq<seq<E>>, hunks: seq<Hunk<E>>, tail: seq<E>,
                             w: Draft<E>, w0: Draft<E>, middle: nat, w': Draft<E>)
    requires ses != [] && ses[|ses| - 1].kind != Common && Cutting(ses, |ses| - 1, gaps, hunks, tail, w0, middle)
    requires w.common0 == w0.common0 && w.change == w0.change
    requires if ses[|ses| - 1].kind == Add then w.adds == w0.adds + [ses[|ses| - 1]] && w.deletes == w0.deletes
             else w.deletes == w0.deletes + [ses[|ses| - 1]] && w.adds == w0.adds
    requires w'.common0 == w.common0 && w'.change == w.change + w.deletes + w.adds && w'.deletes == w'.adds == []
    ensures Joined(ses, |ses|, gaps, hunks, tail, w', 0)
  {
    CuttingChange(ses, |ses| - 1, gaps, hunks, tail, w0, middle, w);
    ChangesJoined(w);
  }

  /** A hunk that stays open: two unchanged lines at most are counted, or the third cannot close it. */
  lemma JoinedOpen<E(!new)>(ses: seq<Edit<E>>, i: nat, gaps: seq<seq<E>>, hunks: seq<Hunk<E>>, tail: seq<E>,
                            w: Draft<E>, middle: nat, middle': nat)
    requires Joined(ses, i, gaps, hunks, tail, w, middle) && i < |ses|
    requires if middle < DTL_SEPARATE_SIZE then middle' == middle
             else middle' == 0 && !(Unchanged(ses, i) && Unchanged(ses, i + 1))
    ensures Cutting(ses, i, gaps, hunks, tail, w, middle')
  {
  }

  /** Closing a hunk, at the end of the script or before two more unchanged lines. */
  lemma JoinedClosed<E(!new)>(ses: seq<Edit<E>>, i: nat, gaps: seq<seq<E>>, hunks: seq<Hunk<E>>, tail: seq<E>,
                              w: Draft<E>, middle: nat, h: Hunk<E>)
    requires Joined(ses, i, gaps, hunks, tail, w, middle)
    requires h.common0 == w.common0 && h.change == w.change && h.common1 == []
    requires i < |ses| ==> middle >= DTL_SEPARATE_SIZE && Unchanged(ses, i) && Unchanged(ses, i + 1)
    ensures Cutting(ses, i, gaps + [tail], hunks + [h], [], Draft([], [], [], [], 0, 0, 0, 0, 0), 0)
  {
    forall j | 0 <= j <= |hunks| ensures Cut((gaps + [tail])[j], (hunks + [h])[j], j == 0) {
      if j < |hunks| {
        assert Cut(gaps[j], hunks[j], j == 0);
      }
    }
  }

  lemma CuttingDone<E(!new)>(ses: seq<Edit<E>>, gaps: seq<seq<E>>, hunks: seq<Hunk<E>>, tail: seq<E>,
                             w: Draft<E>, middle: nat)
    requires Cutting(ses, |ses|, gaps, hunks, tail, w, middle)
    ensures CutUp(gaps, hunks, tail + Before(w.common0) != [])
  {
  }
}
