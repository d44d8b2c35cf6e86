/** Unified format: composeUnifiedHunks cuts a script into hunks with a little context, uniPatch replays the
    hunks. Between hunks lie gaps of unchanged elements that no hunk mentions. */
module UnifiedHunks {
  import opened EditScript
  import opened HunkEntries
  import opened Hunks

  /** The first n hunks with the gaps before them, as they were before the change ... */
  ghost function WovenBefore<E>(gaps: seq<seq<E>>, hunks: seq<Hunk<E>>, n: nat): seq<E>
    requires n <= |hunks| && |gaps| == |hunks|
  {
    if n == 0 then [] else WovenBefore(gaps, hunks, n - 1) + gaps[n - 1] + Before(Script(hunks[n - 1]))
  }

  /** ... and after it. */
  ghost function WovenAfter<E>(gaps: seq<seq<E>>, hunks: seq<Hunk<E>>, n: nat): seq<E>
    requires n <= |hunks| && |gaps| == |hunks|
  {
    if n == 0 then [] else WovenAfter(gaps, hunks, n - 1) + gaps[n - 1] + After(Script(hunks[n - 1]))
  }

  /** A hunk's header says exactly where its lines lie on either side, and how many there are. */
  ghost predicate Placed<E(!new)>(gaps: seq<seq<E>>, hunks: seq<Hunk<E>>) {
    |gaps| == |hunks| && forall j :: 0 <= j < |hunks| ==> PlacedAt(gaps, hunks, j)
  }

  ghost predicate PlacedAt<E(!new)>(gaps: seq<seq<E>>, hunks: seq<Hunk<E>>, j: nat)
    requires j < |hunks| && |gaps| == |hunks|
  {
    var h := hunks[j];
    h.a == |WovenBefore(gaps, hunks, j)| + |gaps[j]| + 1 && h.b == |Before(Script(h))| &&
    h.c == |WovenAfter(gaps, hunks, j)| + |gaps[j]| + 1 && h.d == |After(Script(h))| &&
    h.incDecCount == h.d - h.b
  }

  /** The hunks describe the change from s to t: both are the hunks' lines with the same gaps between them. */
  ghost predicate Describe<E(!new)>(hunks: seq<Hunk<E>>, gaps: seq<seq<E>>, tail: seq<E>, s: seq<E>, t: seq<E>) {
    Placed(gaps, hunks) &&
    s == WovenBefore(gaps, hunks, |hunks|) + tail &&
    t == WovenAfter(gaps, hunks, |hunks|) + tail
  }

  lemma {:induction false} WovenExtends<E>(gaps: seq<seq<E>>, hunks: seq<Hunk<E>>, g: seq<E>, h: Hunk<E>, n: nat)
    requires n <= |hunks| && |gaps| == |hunks|
    ensures WovenBefore(gaps + [g], hunks + [h], n) == WovenBefore(gaps, hunks, n)
    ensures WovenAfter(gaps + [g], hunks + [h], n) == WovenAfter(gaps, hunks, n)
  {
    if n > 0 {
      WovenExtends(gaps, hunks, g, h, n - 1);
    }
  }

  lemma {:induction false} WovenPrefix<E>(gaps: seq<seq<E>>, hunks: seq<Hunk<E>>, m: nat, n: nat)
    requires m <= n <= |hunks| && |gaps| == |hunks|
    ensures WovenBefore(gaps, hunks, m) <= WovenBefore(gaps, hunks, n)
  {
    if m < n {
      WovenPrefix(gaps, hunks, m, n - 1);
      var p, g, h := WovenBefore(gaps, hunks, n - 1), gaps[n - 1], Before(Script(hunks[n - 1]));
      assert WovenBefore(gaps, hunks, n) == p + g + h;
      assert p <= p + g <= p + g + h;
      hide WovenBefore, Before;
    }
  }

  lemma PlacedExtends<E(!new)>(gaps: seq<seq<E>>, hunks: seq<Hunk<E>>, g: seq<E>, h: Hunk<E>)
    requires Placed(gaps, hunks)
    requires h.a == |WovenBefore(gaps, hunks, |hunks|)| + |g| + 1 && h.b == |Before(Script(h))|
    requires h.c == |WovenAfter(gaps, hunks, |hunks|)| + |g| + 1 && h.d == |After(Script(h))|
    requires h.incDecCount == h.d - h.b
    ensures Placed(gaps + [g], hunks + [h])
  {
    hide WovenBefore, WovenAfter, Before, After, Script;
    forall j | 0 <= j < |hunks| + 1 ensures PlacedAt(gaps + [g], hunks + [h], j) {
      WovenExtends(gaps, hunks, g, h, j);
      if j < |hunks| {
        assert PlacedAt(gaps, hunks, j);
      }
    }
  }

  // ---- composeUnifiedHunks -------------------------------------------------------------------------------

  /** The counters of a draft count its own lines. */
  ghost predicate Counted<E(!new)>(w: Draft<E>) {
    w.b == |Before(w.Body())| && w.d == |After(w.Body())| && w.incDecCount == w.d - w.b &&
    Only(w.common0, Common) && |w.common0| <= DTL_CONTEXT_SIZE && Only(w.deletes, Delete) && Only(w.adds, Add)
  }

  /** The first n entries of the script are the closed hunks, the lines skipped since, and the draft. */
  ghost predicate Covers<E(!new)>(ses: seq<Edit<E>>, n: nat, gaps: seq<seq<E>>, hunks: seq<Hunk<E>>, tail: seq<E>,
                                  w: Draft<E>)
    requires n <= |ses| && |gaps| == |hunks|
  {
    Before(ses[..n]) == WovenBefore(gaps, hunks, |hunks|) + tail + Before(w.Body()) &&
    After(ses[..n]) == WovenAfter(gaps, hunks, |hunks|) + tail + After(w.Body())
  }

  /** The draft's two start positions; they trade places when the sequences were swapped. */
  ghost predicate Located<E(!new)>(swapped: bool, gaps: seq<seq<E>>, hunks: seq<Hunk<E>>, tail: seq<E>, w: Draft<E>)
    requires |gaps| == |hunks|
  {
    if w.common0 == [] then w.a == 0 && w.c == 0 && tail == []
    else
      (if swapped then w.c else w.a) == |WovenBefore(gaps, hunks, |hunks|)| + |tail| + 1 &&
      (if swapped then w.a else w.c) == |WovenAfter(gaps, hunks, |hunks|)| + |tail| + 1
  }

  /** Only the first hunk can open without context: a hunk is closed early only before unchanged lines. */
  ghost predicate ContextAhead<E(!new)>(ses: seq<Edit<E>>, n: nat, hunks: seq<Hunk<E>>, w: Draft<E>)
    requires n <= |ses|
  {
    hunks != [] && w.common0 == [] ==> !w.Changing() && (n < |ses| ==> ses[n].kind == Common)
  }

  ghost predicate Drafting<E(!new)>(ses: seq<Edit<E>>, n: nat, swapped: bool, gaps: seq<seq<E>>, hunks: seq<Hunk<E>>,
                                    tail: seq<E>, w: Draft<E>)
  {
    n <= |ses| && Placed(gaps, hunks) && Counted(w) && Covers(ses, n, gaps, hunks, tail, w) &&
    Located(swapped, gaps, hunks, tail, w) && ContextAhead(ses, n, hunks, w)
  }

  lemma BodyEnds<E(!new)>(w: Draft<E>)
    requires Only(w.deletes, Delete) && Only(w.adds, Add)
    ensures Before(w.Body()) == Before(w.common0) + Before(w.change) + Before(w.deletes)
    ensures After(w.Body()) == After(w.common0) + After(w.change) + After(w.adds)
  {
    JoinedEnds(w.common0 + w.change, w.deletes + w.adds);
    JoinedEnds(w.common0, w.change);
    JoinedEnds(w.deletes, w.adds);
    AllAddEnds(w.adds);
    AllDeleteEnds(w.deletes);
  }

  lemma {:induction false} AllDeleteEnds<E(!new)>(s: seq<Edit<E>>)
    requires Only(s, Delete)
    ensures After(s) == [] && |Before(s)| == |s|
  {
    if s != [] {
      AllDeleteEnds(s[..|s| - 1]);
    }
  }

  /** The draft's lines take one more entry at the end, whichever list it is kept in. */
  ghost predicate Grown<E(!new)>(w: Draft<E>, e: Edit<E>, w': Draft<E>) {
    Before(w'.Body()) == (if e.kind == Add then Before(w.Body()) else Before(w.Body()) + [e.elem]) &&
    After(w'.Body()) == (if e.kind == Delete then After(w.Body()) else After(w.Body()) + [e.elem])
  }

  lemma CoversGrown<E(!new)>(ses: seq<Edit<E>>, n: nat, gaps: seq<seq<E>>, hunks: seq<Hunk<E>>, tail: seq<E>,
                             w: Draft<E>, w': Draft<E>)
    requires n < |ses| && |gaps| == |hunks| && Covers(ses, n, gaps, hunks, tail, w)
    requires Grown(w, ses[n], w')
    ensures Covers(ses, n + 1, gaps, hunks, tail, w')
  {
    NextPrefix(ses, n);
    var e := [ses[n].elem];
    Associate(WovenBefore(gaps, hunks, |hunks|) + tail, Before(w.Body()), e);
    Associate(WovenAfter(gaps, hunks, |hunks|) + tail, After(w.Body()), e);
  }

  lemma GrownSnoc<E(!new)>(w: Draft<E>, e: Edit<E>, w': Draft<E>)
    requires w'.Body() == w.Body() + [e]
    ensures Grown(w, e, w')
  {
    Snoc(w.Body(), e);
  }

  lemma GrownChange<E(!new)>(w: Draft<E>, e: Edit<E>, w': Draft<E>)
    requires Only(w.deletes, Delete) && Only(w.adds, Add) && e.kind != Common
    requires w'.common0 == w.common0 && w'.change == w.change
    requires if e.kind == Add then w'.adds == w.adds + [e] && w'.deletes == w.deletes
             else w'.adds == w.adds && w'.deletes == w.deletes + [e]
    ensures Grown(w, e, w') && Only(w'.deletes, Delete) && Only(w'.adds, Add)
  {
    hide Before, After;
    BodyEnds(w);
    BodyEnds(w');
    if e.kind == Add {
      Snoc(w.adds, e);
    } else {
      Snoc(w.deletes, e);
    }
  }

  /** An insertion or a deletion joins the pending changes. */
  lemma DraftChange<E(!new)>(ses: seq<Edit<E>>, n: nat, swapped: bool, gaps: seq<seq<E>>, hunks: seq<Hunk<E>>,
                             tail: seq<E>, w: Draft<E>, w': Draft<E>)
    requires Drafting(ses, n, swapped, gaps, hunks, tail, w) && n < |ses| && ses[n].kind != Common
    requires w' == if ses[n].kind == Add
                   then w.(adds := w.adds + [ses[n]], d := w.d + 1, incDecCount := w.incDecCount + 1)
                   else w.(deletes := w.deletes + [ses[n]], b := w.b + 1, incDecCount := w.incDecCount - 1)
    ensures Drafting(ses, n + 1, swapped, gaps, hunks, tail, w')
  {
    GrownChange(w, ses[n], w');
    CoversGrown(ses, n, gaps, hunks, tail, w, w');
  }

  /** A common entry after a change ends the pending changes and joins them. */
  lemma DraftJoin<E(!new)>(ses: seq<Edit<E>>, n: nat, swapped: bool, gaps: seq<seq<E>>, hunks: seq<Hunk<E>>,
                           tail: seq<E>, w: Draft<E>, w': Draft<E>)
    requires Drafting(ses, n, swapped, gaps, hunks, tail, w) && n < |ses| && ses[n].kind == Common && w.Changing()
    requires w' == w.(change := w.change + w.deletes + w.adds + [ses[n]], deletes := [], adds := [],
                      b := w.b + 1, d := w.d + 1)
    ensures Drafting(ses, n + 1, swapped, gaps, hunks, tail, w')
  {
    assert w'.Body() == w.Body() + [ses[n]];
    GrownSnoc(w, ses[n], w');
    CoversGrown(ses, n, gaps, hunks, tail, w, w');
  }

  /** A common entry before any change is context, ... */
  lemma DraftContext<E(!new)>(ses: seq<Edit<E>>, n: nat, swapped: bool, gaps: seq<seq<E>>, hunks: seq<Hunk<E>>,
                              tail: seq<E>, w: Draft<E>, w': Draft<E>)
    requires Indexed(ses)
    requires Drafting(ses, n, swapped, gaps, hunks, tail, w) && n < |ses| && ses[n].kind == Common && !w.Changing()
    requires |w.common0| < DTL_CONTEXT_SIZE
    requires w'.common0 == w.common0 + [ses[n]] && w'.change == w'.deletes == w'.adds == []
    requires w'.b == w.b + 1 && w'.d == w.d + 1 && w'.incDecCount == w.incDecCount
    requires if w.a == 0 && w.c == 0
             then w'.a == (if swapped then ses[n].afterIdx else ses[n].beforeIdx) &&
                  w'.c == (if swapped then ses[n].beforeIdx else ses[n].afterIdx)
             else w'.a == w.a && w'.c == w.c
    ensures Drafting(ses, n + 1, swapped, gaps, hunks, tail, w')
  {
    assert w'.Body() == w.Body() + [ses[n]];
    GrownSnoc(w, ses[n], w');
    CoversGrown(ses, n, gaps, hunks, tail, w, w');
    if w.common0 == [] {
      assert IndexedAt(ses, n);
      assert w.Body() == [];
    }
  }

  /** ... of which only the last few lines are kept. */
  lemma DraftRotate<E(!new)>(ses: seq<Edit<E>>, n: nat, swapped: bool, gaps: seq<seq<E>>, hunks: seq<Hunk<E>>,
                             tail: seq<E>, w: Draft<E>, w': Draft<E>)
    requires Indexed(ses)
    requires Drafting(ses, n, swapped, gaps, hunks, tail, w) && n < |ses| && ses[n].kind == Common && !w.Changing()
    requires |w.common0| == DTL_CONTEXT_SIZE
    requires w' == w.(common0 := w.common0[1..] + [ses[n]], a := w.a + 1, c := w.c + 1)
    ensures Drafting(ses, n + 1, swapped, gaps, hunks, tail + [w.common0[0].elem], w')
  {
    var u := w.(common0 := w.common0[1..], a := w.a + 1, c := w.c + 1, b := w.b - 1, d := w.d - 1);
    DraftDrop(ses, n, swapped, gaps, hunks, tail, w, u);
    DraftContext(ses, n, swapped, gaps, hunks, tail + [w.common0[0].elem], u, w');
  }

  lemma DraftDrop<E(!new)>(ses: seq<Edit<E>>, n: nat, swapped: bool, gaps: seq<seq<E>>, hunks: seq<Hunk<E>>,
                           tail: seq<E>, w: Draft<E>, u: Draft<E>)
    requires Drafting(ses, n, swapped, gaps, hunks, tail, w) && !w.Changing() && |w.common0| >= 2
    requires u == w.(common0 := w.common0[1..], a := w.a + 1, c := w.c + 1, b := w.b - 1, d := w.d - 1)
    ensures Drafting(ses, n, swapped, gaps, hunks, tail + [w.common0[0].elem], u) && u.a + u.c > 0
  {
    assert w.Body() == w.common0 && u.Body() == w.common0[1..];
    CoversDropped(ses, n, gaps, hunks, tail, w, u);
    hide Before, After, WovenBefore, WovenAfter, Covers;
  }

  lemma CoversDropped<E(!new)>(ses: seq<Edit<E>>, n: nat, gaps: seq<seq<E>>, hunks: seq<Hunk<E>>, tail: seq<E>,
                               w: Draft<E>, u: Draft<E>)
    requires n <= |ses| && |gaps| == |hunks| && Covers(ses, n, gaps, hunks, tail, w)
    requires w.Body() != [] && w.Body()[0].kind == Common && u.Body() == w.Body()[1..]
    ensures Covers(ses, n, gaps, hunks, tail + [w.Body()[0].elem], u)
    ensures |Before(u.Body())| == |Before(w.Body())| - 1 && |After(u.Body())| == |After(w.Body())| - 1
  {
    hide Before, After;
    var e := [w.Body()[0].elem];
    CommonFront(w.Body());
    Dropped(WovenBefore(gaps, hunks, |hunks|), tail, e, Before(u.Body()));
    Dropped(WovenAfter(gaps, hunks, |hunks|), tail, e, After(u.Body()));
  }

  lemma Dropped<T>(p: seq<T>, q: seq<T>, r: seq<T>, s: seq<T>)
    ensures p + q + (r + s) == p + (q + r) + s
  {
  }

  lemma CommonFront<E(!new)>(s: seq<Edit<E>>)
    requires s != [] && s[0].kind == Common
    ensures Before(s) == [s[0].elem] + Before(s[1..]) && After(s) == [s[0].elem] + After(s[1..])
  {
    assert s == [s[0]] + s[1..];
    JoinedEnds([s[0]], s[1..]);
  }

  /** Closing a hunk: the draft's lines become the hunk, the skipped lines the gap before it. */
  lemma DraftClose<E(!new)>(ses: seq<Edit<E>>, n: nat, swapped: bool, gaps: seq<seq<E>>, hunks: seq<Hunk<E>>,
                            tail: seq<E>, w: Draft<E>, h: Hunk<E>)
    requires Drafting(ses, n, swapped, gaps, hunks, tail, w) && n > 0
    requires w.Changing() && (n < |ses| ==> ses[n].kind == Common)
    requires Script(h) == w.Body() && h.b == w.b && h.d == w.d && h.incDecCount == w.incDecCount
    requires h.a == (if (if swapped then w.c else w.a) == 0 then 1 else if swapped then w.c else w.a)
    requires h.c == (if (if swapped then w.a else w.c) == 0 then 1 else if swapped then w.a else w.c)
    ensures Drafting(ses, n, swapped, gaps + [tail], hunks + [h], [], Draft([], [], [], [], 0, 0, 0, 0, 0))
  {
    WovenExtends(gaps, hunks, tail, h, |hunks|);
    PlacedExtends(gaps, hunks, tail, h);
  }

  // ---- the two operations --------------------------------------------------------------------------------

  class UnifiedFormat<E(!new)> {
    const swapped: bool
    var uniHunks: seq<Hunk<E>>

    constructor (swapped: bool)
      ensures this.swapped == swapped && uniHunks == []
    {
      this.swapped, uniHunks := swapped, [];
    }

    /** Counts the unchanged ones of the next three entries from entry i: all three are there and unchanged, or not. */
    static method Lookahead(ses: seq<Edit<E>>, i: nat) returns (cnt: nat)
      requires i < |ses|
      ensures cnt >= DTL_SEPARATE_SIZE <==> Unchanged(ses, i) && Unchanged(ses, i + 1) && Unchanged(ses, i + 2)
    {
      cnt := 0;
      var n, cit := 0, i;
      while n < DTL_SEPARATE_SIZE && cit < |ses|
        invariant cit == i + n <= |ses| && cnt <= n <= DTL_SEPARATE_SIZE
        invariant cnt == n <==> forall k :: i <= k < cit ==> Unchanged(ses, k)
      {
        assert Unchanged(ses, cit) <==> ses[cit].kind == Common;
        if ses[cit].kind == Common {
          cnt := cnt + 1;
        }
        n, cit := n + 1, cit + 1;
      }
    }

    /** Unchanged lines before a change: the last three are kept as context. */
    method TakeContext(ses: seq<Edit<E>>, i: nat, w: Draft<E>, ghost gaps: seq<seq<E>>, ghost tail: seq<E>,
                       ghost skipped: seq<seq<Edit<E>>>, ghost rest: seq<Edit<E>>, ghost middle: nat)
      returns (w': Draft<E>, ghost tail': seq<E>, ghost rest': seq<Edit<E>>)
      requires i < |ses| && Indexed(ses) && ses[i].kind == Common
      requires Drafting(ses, i, swapped, gaps, uniHunks, tail, w) && !w.Changing()
      requires Cutting(ses, i, gaps, uniHunks, tail, w, middle)
      requires Arranging(ses, i, gaps, tail, skipped, rest, uniHunks, w)
      ensures Drafting(ses, i + 1, swapped, gaps, uniHunks, tail', w') && !w'.Changing()
      ensures Cutting(ses, i + 1, gaps, uniHunks, tail', w', middle)
      ensures Arranging(ses, i + 1, gaps, tail', skipped, rest', uniHunks, w')
    {
      hide Cutting, Arranging;
      if |w.common0| < DTL_CONTEXT_SIZE {
        var a, c := w.a, w.c;
        if a == 0 && c == 0 {
          if !swapped {
            a, c := ses[i].beforeIdx, ses[i].afterIdx;
          } else {
            a, c := ses[i].afterIdx, ses[i].beforeIdx;
          }
        }
        w' := w.(common0 := w.common0 + [ses[i]], a := a, c := c, b := w.b + 1, d := w.d + 1);
        tail', rest' := tail, rest;
        DraftContext(ses, i, swapped, gaps, uniHunks, tail, w, w');
      } else {
        w' := w.(common0 := w.common0[1..] + [ses[i]], a := w.a + 1, c := w.c + 1);
        tail', rest' := tail + [w.common0[0].elem], rest + [w.common0[0]];
        DraftRotate(ses, i, swapped, gaps, uniHunks, tail, w, w');
      }
      CuttingContext(ses, i, gaps, uniHunks, tail, w, middle, tail', w');
      ArrangingContext(ses, i, gaps, tail, skipped, rest, uniHunks, w, tail', rest', w');
    }

    /** An insertion or a deletion; the last entry of the script joins the pending changes at once. */
    method TakeChange(ses: seq<Edit<E>>, i: nat, w0: Draft<E>, ghost gaps: seq<seq<E>>, ghost tail: seq<E>,
                      ghost skipped: seq<seq<Edit<E>>>, ghost rest: seq<Edit<E>>, ghost middle: nat)
      returns (w: Draft<E>, isAfter: bool)
      requires i < |ses| && ses[i].kind != Common
      requires Drafting(ses, i, swapped, gaps, uniHunks, tail, w0) && Cutting(ses, i, gaps, uniHunks, tail, w0, middle)
      requires Arranging(ses, i, gaps, tail, skipped, rest, uniHunks, w0)
      ensures Drafting(ses, i + 1, swapped, gaps, uniHunks, tail, w) && w.Changing()
      ensures isAfter <==> i + 1 == |ses|
      ensures !isAfter ==> Cutting(ses, i + 1, gaps, uniHunks, tail, w, 0)
      ensures isAfter ==> Joined(ses, i + 1, gaps, uniHunks, tail, w, 0) && w.change != [] && w.deletes == w.adds == []
      ensures Arranging(ses, i + 1, gaps, tail, skipped, rest, uniHunks, w)
    {
      hide Drafting, Cutting, Joined, Arranging;
      w := if ses[i].kind == Add
           then w0.(adds := w0.adds + [ses[i]], d := w0.d + 1, incDecCount := w0.incDecCount + 1)
           else w0.(deletes := w0.deletes + [ses[i]], b := w0.b + 1, incDecCount := w0.incDecCount - 1);
      DraftChange(ses, i, swapped, gaps, uniHunks, tail, w0, w);
      CuttingChange(ses, i, gaps, uniHunks, tail, w0, middle, w);
      ArrangingChange(ses, i, gaps, tail, skipped, rest, uniHunks, w0, w);
      isAfter := i + 1 >= |ses|;
      if isAfter {
        ghost var w1 := w;
        DraftPendingJoined(ses, i + 1, swapped, gaps, uniHunks, tail, w);
        w := w.(change := w.change + w.deletes + w.adds, deletes := [], adds := []);
        CuttingLast(ses, gaps, uniHunks, tail, w1, w0, middle, w);
        ArrangingPending(ses, i + 1, gaps, tail, skipped, rest, uniHunks, w1, w);
      }
    }

    /** Completes the header of a finished hunk and appends it. */
    method CloseHunk(ghost ses: seq<Edit<E>>, ghost n: nat, w: Draft<E>, ghost gaps: seq<seq<E>>, ghost tail: seq<E>,
                     ghost skipped: seq<seq<Edit<E>>>, ghost rest: seq<Edit<E>>, ghost middle: nat)
      requires Drafting(ses, n, swapped, gaps, uniHunks, tail, w) && n > 0
      requires w.Changing() && (n < |ses| ==> ses[n].kind == Common) && w.deletes == [] && w.adds == []
      requires Joined(ses, n, gaps, uniHunks, tail, w, middle)
      requires n < |ses| ==> middle >= DTL_SEPARATE_SIZE && Unchanged(ses, n) && Unchanged(ses, n + 1)
      requires Arranging(ses, n, gaps, tail, skipped, rest, uniHunks, w)
      modifies this`uniHunks
      ensures ghost var last := |old(uniHunks)|;
        |uniHunks| == last + 1 && uniHunks[..last] == old(uniHunks) && uniHunks[last].common0 == w.common0 &&
        uniHunks[last].change == w.change && uniHunks[last].common1 == []
      ensures Drafting(ses, n, swapped, gaps + [tail], uniHunks, [], Draft([], [], [], [], 0, 0, 0, 0, 0))
      ensures Cutting(ses, n, gaps + [tail], uniHunks, [], Draft([], [], [], [], 0, 0, 0, 0, 0), 0)
      ensures Arranging(ses, n, gaps + [tail], [], skipped + [rest], [], uniHunks,
                        Draft([], [], [], [], 0, 0, 0, 0, 0))
    {
      hide Drafting, Cutting, Joined, Arranging;
      var a, c, common0 := w.a, w.c, w.common0;
      DraftContextSize(ses, n, swapped, gaps, uniHunks, tail, w);
      if |common0| >= DTL_SEPARATE_SIZE {
        var c0size := |common0|;
        common0 := common0[c0size - DTL_SEPARATE_SIZE..];
        a := a + (c0size - DTL_SEPARATE_SIZE);
        c := c + (c0size - DTL_SEPARATE_SIZE);
      }
      if a == 0 {
        a := 1;
      }
      if c == 0 {
        c := 1;
      }
      if swapped {
        a, c := c, a;
      }
      var hunk := Hunk(a, w.b, c, w.d, common0, w.change, [], w.incDecCount);
      ScriptIsBody(hunk, w);
      DraftClose(ses, n, swapped, gaps, uniHunks, tail, w, hunk);
      JoinedClosed(ses, n, gaps, uniHunks, tail, w, middle, hunk);
      ArrangingClose(ses, n, gaps, tail, skipped, rest, uniHunks, w, hunk);
      uniHunks := uniHunks + [hunk];
    }

    /** composeUnifiedHunks: whatever the script, the hunks describe the change it makes with the script's own entries,
        and a new hunk is begun exactly where five or more unchanged lines follow each other. The lists and counters
        the original clears together after each hunk are the fields of w. */
    method ComposeUnifiedHunks(ses: seq<Edit<E>>)
      returns (ghost gaps: seq<seq<E>>, ghost tail: seq<E>, ghost skipped: seq<seq<Edit<E>>>, ghost rest: seq<Edit<E>>)
      requires Indexed(ses) && uniHunks == []
      modifies this`uniHunks
      ensures Describe(uniHunks, gaps, tail, Before(ses), After(ses))
      ensures CutUp(gaps, uniHunks, tail != [])
      ensures Carry(uniHunks, skipped, rest, ses) && Skips(gaps, tail, skipped, rest)
    {
      hide Drafting, Cutting, Joined, Arranging;
      var w: Draft<E> := Draft([], [], [], [], 0, 0, 0, 0, 0);
      var middle, isMiddle, isAfter := 0, false, false;
      gaps, tail, skipped, rest := [], [], [], [];
      DraftNone(ses, swapped);
      CuttingNone(ses);
      ArrangingNone(ses);
      var i := 0;
      while i < |ses|
        invariant i <= |ses| && Drafting(ses, i, swapped, gaps, uniHunks, tail, w)
        invariant Cutting(ses, i, gaps, uniHunks, tail, w, middle)
        invariant Arranging(ses, i, gaps, tail, skipped, rest, uniHunks, w)
        invariant !isAfter && (isMiddle <==> w.Changing()) && (i == |ses| ==> !isMiddle)
      {
        ghost var w0, middle0 := w, middle;
        if ses[i].kind != Common {
          middle := 0;
          w, isAfter := TakeChange(ses, i, w, gaps, tail, skipped, rest, middle0);
          isMiddle := true;
        } else {
          if w.adds == [] && w.deletes == [] && w.change == [] {
            w, tail, rest := TakeContext(ses, i, w, gaps, tail, skipped, rest, middle);
          }
          if isMiddle && !isAfter {
            middle := middle + 1;
            w := w.(change := w.change + w.deletes + w.adds + [ses[i]], deletes := [], adds := [],
                    b := w.b + 1, d := w.d + 1);
            DraftJoin(ses, i, swapped, gaps, uniHunks, tail, w0, w);
            CuttingJoin(ses, i, gaps, uniHunks, tail, w0, middle0, w);
            ArrangingJoin(ses, i, gaps, tail, skipped, rest, uniHunks, w0, w);
            if middle >= DTL_SEPARATE_SIZE || i + 1 >= |ses| {
              isAfter := true;
            } else {
              JoinedOpen(ses, i + 1, gaps, uniHunks, tail, w, middle, middle);
            }
          }
        }
        i := i + 1;
        if isAfter && w.change != [] {
          var cnt := Lookahead(ses, i - 1);
          if cnt < DTL_SEPARATE_SIZE && i < |ses| {
            JoinedOpen(ses, i, gaps, uniHunks, tail, w, middle, 0);
            middle := 0;
            isAfter := false;
            continue;
          }
          CloseHunk(ses, i, w, gaps, tail, skipped, rest, middle);
          gaps, tail, skipped, rest := gaps + [tail], [], skipped + [rest], [];
          w := Draft([], [], [], [], 0, 0, 0, 0, 0);
          middle, isMiddle, isAfter := 0, false, false;
        }
      }
      DraftDone(ses, swapped, gaps, uniHunks, tail, w);
      CuttingDone(ses, gaps, uniHunks, tail, w, middle);
      ArrangingDone(ses, gaps, tail, skipped, rest, uniHunks, w);
      tail, rest := tail + Before(w.common0), rest + w.common0;
    }

    /** The inner loop of uniPatch: replays one hunk at the cursor. */
    static method ReplayHunk(lst0: seq<E>, it0: nat, shunk: seq<Edit<E>>) returns (lst: seq<E>, it: nat)
      requires it0 <= |lst0| && Before(shunk) <= lst0[it0..]
      ensures lst == lst0[..it0] + After(shunk) + lst0[it0 + |Before(shunk)|..] && it == it0 + |After(shunk)|
    {
      hide Before, After, CursorAt;
      lst, it := lst0, it0;
      ghost var x, y := lst0[..it0], lst0[it0..];
      ReplayStart(shunk, lst0, it0);
      ghost var p: nat, q := 0, x;
      for n := 0 to |shunk|
        invariant p == |Before(shunk[..n])| <= |y| && q == x + After(shunk[..n])
        invariant it == |q| && CursorAt(lst, it, q, y[p..])
      {
        var e := shunk[n];
        NextLine(shunk, n, y);
        AppendedAfter(x, After(shunk[..n]), e.elem);
        CursorEnds(lst, it, q, y[p..]);
        if e.kind == Add {
          CursorInsert(lst, it, q, y[p..], e.elem);
          lst := lst[..it] + [e.elem] + lst[it..];
          it := it + 1;
          q := q + [e.elem];
        } else {
          DroppedFront(y, p);
          if it != |lst| {
            if e.kind == Delete {
              CursorErase(lst, it, q, y[p..]);
              lst := lst[..it] + lst[it + 1..];
            } else {
              CursorPass(lst, it, q, y[p..]);
              it := it + 1;
              q := q + [e.elem];
            }
          }
          p := p + 1;
        }
      }
      CursorEnds(lst, it, q, y[p..]);
      ReplayEnd(shunk, lst0, it0, p);
    }

    /** uniPatch: replaying the hunks on the sequence they start from gives the one they end with. The start
        positions in the headers are shifted in place by what the hunks before them added. */
    method UniPatch(s: seq<E>, ghost gaps: seq<seq<E>>, ghost tail: seq<E>, ghost t: seq<E>) returns (patched: seq<E>)
      requires Describe(uniHunks, gaps, tail, s, t)
      modifies this`uniHunks
      ensures patched == t
    {
      hide Passed, Placed, Before, After, WovenBefore, WovenAfter;
      ghost var hunks := uniHunks;
      var lst, it := s, 0;
      var incDecTotal, gap := 0, 1;
      PassedNone(gaps, hunks, s);
      var j := 0;
      while j < |uniHunks|
        invariant j <= |uniHunks| == |hunks| && forall k :: j <= k < |hunks| ==> uniHunks[k] == hunks[k]
        invariant Passed(gaps, hunks, s, j, lst, it, incDecTotal) && gap == it + 1
      {
        var h := uniHunks[j];
        var shunk := h.common0 + h.change + h.common1;
        HunkInPlace(gaps, hunks, tail, s, j, lst, it, incDecTotal);
        h := h.(a := h.a + incDecTotal);
        uniHunks := uniHunks[j := h];
        incDecTotal := incDecTotal + h.incDecCount;
        ghost var lst0, it0 := lst, it;
        var n := 0;
        while n < h.a - gap
          invariant 0 <= n <= |gaps[j]| && it == it0 + n
        {
          it := it + 1;
          n := n + 1;
        }
        gap := h.a + h.b + h.incDecCount;
        lst, it := ReplayHunk(lst, it, shunk);
        j := j + 1;
      }
      PassedAll(gaps, hunks, tail, s, t, lst, it, incDecTotal);
      patched := lst;
    }
  }

  lemma ReplayStart<E>(s: seq<Edit<E>>, lst: seq<E>, it: nat)
    requires it <= |lst|
    ensures Before(s[..0]) == [] && After(s[..0]) == []
    ensures CursorAt(lst, it, lst[..it], lst[it..][0..]) && lst[..it] == lst[..it] + After(s[..0])
  {
  }

  lemma ReplayEnd<E>(s: seq<Edit<E>>, lst: seq<E>, it: nat, p: nat)
    requires it + p <= |lst|
    ensures s[..|s|] == s && lst[it..][p..] == lst[it + p..]
  {
  }

  lemma AppendedAfter<T>(x: seq<T>, y: seq<T>, e: T)
    ensures (x + y) + [e] == x + (y + [e])
  {
  }

  /** uniPatch after j hunks: the list is patched up to the cursor and untouched behind it. */
  ghost predicate Passed<E(!new)>(gaps: seq<seq<E>>, hunks: seq<Hunk<E>>, s: seq<E>, j: nat, lst: seq<E>, it: nat,
                                  incDecTotal: int)
    requires j <= |hunks| == |gaps|
  {
    |WovenBefore(gaps, hunks, j)| <= |s| &&
    lst == WovenAfter(gaps, hunks, j) + s[|WovenBefore(gaps, hunks, j)|..] &&
    it == |WovenAfter(gaps, hunks, j)| &&
    incDecTotal == |WovenAfter(gaps, hunks, j)| - |WovenBefore(gaps, hunks, j)|
  }

  lemma PassedNone<E(!new)>(gaps: seq<seq<E>>, hunks: seq<Hunk<E>>, s: seq<E>)
    requires Placed(gaps, hunks)
    ensures |hunks| == |gaps| && Passed(gaps, hunks, s, 0, s, 0, 0)
  {
  }

  lemma PassedAll<E(!new)>(gaps: seq<seq<E>>, hunks: seq<Hunk<E>>, tail: seq<E>, s: seq<E>, t: seq<E>,
                           lst: seq<E>, it: nat, incDecTotal: int)
    requires Describe(hunks, gaps, tail, s, t) && Passed(gaps, hunks, s, |hunks|, lst, it, incDecTotal)
    ensures lst == t
  {
  }

  /** Where the cursor of uniPatch stands when it has passed the gap before hunk j, and what replaying the hunk
      there leaves. */
  lemma HunkInPlace<E(!new)>(gaps: seq<seq<E>>, hunks: seq<Hunk<E>>, tail: seq<E>, s: seq<E>, j: nat,
                             lst: seq<E>, it: nat, incDecTotal: int)
    requires Placed(gaps, hunks) && j < |hunks| && s == WovenBefore(gaps, hunks, |hunks|) + tail
    requires Passed(gaps, hunks, s, j, lst, it, incDecTotal)
    ensures ghost var h, g := hunks[j], |gaps[j]|;
      h.a + incDecTotal == it + 1 + g && h.incDecCount == |After(Script(h))| - |Before(Script(h))| &&
      h.b == |Before(Script(h))| && it + g <= |lst| && Before(Script(h)) <= lst[it + g..] &&
      it + g + |Before(Script(h))| <= |lst| &&
      Passed(gaps, hunks, s, j + 1, lst[..it + g] + After(Script(h)) + lst[it + g + |Before(Script(h))|..],
             it + g + |After(Script(h))|, incDecTotal + h.incDecCount)
  {
    assert PlacedAt(gaps, hunks, j);
    WovenPrefix(gaps, hunks, j + 1, |hunks|);
    var wb, wa, g, h := WovenBefore(gaps, hunks, j), WovenAfter(gaps, hunks, j), gaps[j], Script(hunks[j]);
    SplicedGap(s, wb, wa, g, Before(h), After(h));
    assert WovenBefore(gaps, hunks, j + 1) == wb + g + Before(h) && WovenAfter(gaps, hunks, j + 1) == wa + g + After(h);
    hide WovenBefore, WovenAfter, Before, After, Placed;
  }

  lemma SplicedGap<T>(s: seq<T>, wb: seq<T>, wa: seq<T>, g: seq<T>, b: seq<T>, a: seq<T>)
    requires wb + g + b <= s
    ensures ghost var lst, it := wa + s[|wb|..], |wa| + |g|;
      it <= |lst| && b <= lst[it..] && it + |b| <= |lst| &&
      lst[..it] + a + lst[it + |b|..] == wa + g + a + s[|wb + g + b|..]
  {
    var rest := s[|wb + g + b|..];
    assert s == wb + g + b + rest;
    assert s[|wb|..] == g + (b + rest);
    var lst, it := wa + s[|wb|..], |wa| + |g|;
    assert lst == (wa + g) + (b + rest);
    assert lst[..it] == wa + g && lst[it..] == b + rest && lst[it + |b|..] == rest;
  }

  /** At the end of the script no change is pending: the context that is left is unchanged too. */
  lemma DraftDone<E(!new)>(ses: seq<Edit<E>>, swapped: bool, gaps: seq<seq<E>>, hunks: seq<Hunk<E>>, tail: seq<E>,
                           w: Draft<E>)
    requires Drafting(ses, |ses|, swapped, gaps, hunks, tail, w) && !w.Changing()
    ensures Describe(hunks, gaps, tail + Before(w.common0), Before(ses), After(ses))
  {
    assert ses[..|ses|] == ses;
    assert w.Body() == w.common0;
    CommonEnds(w.common0);
    Associate(WovenBefore(gaps, hunks, |hunks|), tail, Before(w.common0));
    Associate(WovenAfter(gaps, hunks, |hunks|), tail, After(w.common0));
  }

  /** Joining the pending changes at the end of the script moves no line. */
  lemma DraftPendingJoined<E(!new)>(ses: seq<Edit<E>>, n: nat, swapped: bool, gaps: seq<seq<E>>, hunks: seq<Hunk<E>>,
                                    tail: seq<E>, w: Draft<E>)
    requires Drafting(ses, n, swapped, gaps, hunks, tail, w) && w.Changing()
    ensures ghost var w' := w.(change := w.change + w.deletes + w.adds, deletes := [], adds := []);
      Drafting(ses, n, swapped, gaps, hunks, tail, w') && w'.change != []
  {
    var w' := w.(change := w.change + w.deletes + w.adds, deletes := [], adds := []);
    assert w'.Body() == w.Body();
  }

  lemma DraftContextSize<E(!new)>(ses: seq<Edit<E>>, n: nat, swapped: bool, gaps: seq<seq<E>>, hunks: seq<Hunk<E>>,
                                  tail: seq<E>, w: Draft<E>)
    requires Drafting(ses, n, swapped, gaps, hunks, tail, w)
    ensures |w.common0| <= DTL_CONTEXT_SIZE && w.common0[0..] == w.common0
  {
  }

  lemma ScriptIsBody<E>(h: Hunk<E>, w: Draft<E>)
    requires h.common0 == w.common0 && h.change == w.change && h.common1 == w.deletes == w.adds == []
    ensures Script(h) == w.Body()
  {
  }

  /** Before the first entry. */
  lemma DraftNone<E(!new)>(ses: seq<Edit<E>>, swapped: bool)
    ensures Drafting(ses, 0, swapped, [], [], [], Draft([], [], [], [], 0, 0, 0, 0, 0))
  {
  }

  lemma {:induction false} CommonEnds<E(!new)>(s: seq<Edit<E>>)
    requires Only(s, Common)
    ensures Before(s) == After(s)
  {
    if s != [] {
      CommonEnds(s[..|s| - 1]);
    }
  }
}
