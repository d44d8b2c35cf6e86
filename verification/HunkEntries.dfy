/** The entries hunks are made of: those of the script and no others, with deletions moved before the insertions they
    stand next to. */
module HunkEntries {
  import opened EditScript
  import opened Hunks

  /** The first n hunks with the skipped entries before them. */
  ghost function WovenEntries<E>(skipped: seq<seq<Edit<E>>>, hunks: seq<Hunk<E>>, n: nat): seq<Edit<E>>
    requires n <= |hunks| && |skipped| == |hunks|
  {
    if n == 0 then [] else WovenEntries(skipped, hunks, n - 1) + skipped[n - 1] + Script(hunks[n - 1])
  }

  /** The lines of the gaps are those of the skipped entries, which are all unchanged. */
  ghost predicate Skips<E(!new)>(gaps: seq<seq<E>>, tail: seq<E>, skipped: seq<seq<Edit<E>>>, rest: seq<Edit<E>>) {
    |gaps| == |skipped| && Only(rest, Common) && tail == Before(rest) &&
    forall j :: 0 <= j < |gaps| ==> Only(skipped[j], Common) && gaps[j] == Before(skipped[j])
  }

  /** The hunks, with the skipped entries between them, carry the script's own entries, and put deletions first. */
  ghost predicate Carry<E(!new)>(hunks: seq<Hunk<E>>, skipped: seq<seq<Edit<E>>>, rest: seq<Edit<E>>,
                                 ses: seq<Edit<E>>)
  {
    |skipped| == |hunks| && Arranged(WovenEntries(skipped, hunks, |hunks|) + rest, ses)
  }

  /** Nothing, or it ends with an unchanged entry. */
  predicate Settled<E>(s: seq<Edit<E>>) {
    s == [] || s[|s| - 1].kind == Common
  }

  /** All entries that composeUnifiedHunks has taken and put in order; the pending changes come behind them. */
  ghost function Taken<E>(skipped: seq<seq<Edit<E>>>, hunks: seq<Hunk<E>>, rest: seq<Edit<E>>, w: Draft<E>):
      seq<Edit<E>>
    requires |skipped| == |hunks|
  {
    WovenEntries(skipped, hunks, |hunks|) + rest + (w.common0 + w.change)
  }

  /** The state before entry i, as far as the entries are concerned. */
  ghost predicate Arranging<E(!new)>(ses: seq<Edit<E>>, i: nat, gaps: seq<seq<E>>, tail: seq<E>,
                                     skipped: seq<seq<Edit<E>>>, rest: seq<Edit<E>>, hunks: seq<Hunk<E>>, w: Draft<E>)
  {
    i <= |ses| && |skipped| == |hunks| && Skips(gaps, tail, skipped, rest) &&
    Only(w.common0, Common) && Only(w.deletes, Delete) && Only(w.adds, Add) &&
    Arranged(Taken(skipped, hunks, rest, w) + (w.deletes + w.adds), ses[..i]) &&
    (i < |ses| ==> Settled(Taken(skipped, hunks, rest, w)))
  }

  lemma ArrangingNone<E(!new)>(ses: seq<Edit<E>>)
    ensures Arranging(ses, 0, [], [], [], [], [], Draft([], [], [], [], 0, 0, 0, 0, 0))
  {
    assert ses[..0] == [];
  }

  lemma ArrangedSnoc<E(!new)>(r: seq<Edit<E>>, s: seq<Edit<E>>, e: Edit<E>)
    requires Arranged(r, s) && (e.kind == Delete ==> r == [] || r[|r| - 1].kind != Add)
    ensures Arranged(r + [e], s + [e])
  {
    forall kind ensures Without(r, kind) == Without(s, kind) ==> Without(r + [e], kind) == Without(s + [e], kind) {
      WithoutSnoc(r, e, kind);
      WithoutSnoc(s, e, kind);
    }
    hide Without;
  }

  lemma BetweenPending<T>(p: seq<T>, d: seq<T>, a: seq<T>, e: T)
    ensures ghost var r, n := p + (d + a), |p| + |d|;
      r[..n] + [e] + r[n..] == p + (d + [e] + a) && r[n..] == a
  {
  }

  lemma LeadBetween<E(!new)>(p: seq<Edit<E>>, deletes: seq<Edit<E>>, adds: seq<Edit<E>>, e: Edit<E>)
    requires DeletesLead(p + (deletes + adds)) && Settled(p) && e.kind == Delete
    requires Only(deletes, Delete) && Only(adds, Add)
    ensures DeletesLead(p + (deletes + [e] + adds))
  {
    var r, n, q := p + (deletes + adds), |p| + |deletes|, p + (deletes + [e] + adds);
    forall i | 0 < i < |q| && q[i].kind == Delete ensures q[i - 1].kind != Add {
      if i < n {
        assert q[i] == r[i] && q[i - 1] == r[i - 1];
      }
    }
  }

  /** A deletion goes before the pending insertions. */
  lemma ArrangedDelete<E(!new)>(p: seq<Edit<E>>, deletes: seq<Edit<E>>, adds: seq<Edit<E>>, s: seq<Edit<E>>, e: Edit<E>)
    requires Arranged(p + (deletes + adds), s) && Settled(p) && e.kind == Delete
    requires Only(deletes, Delete) && Only(adds, Add)
    ensures Arranged(p + (deletes + [e] + adds), s + [e])
  {
    hide Without, Only, DeletesLead, Settled;
    var r, n, q := p + (deletes + adds), |p| + |deletes|, p + (deletes + [e] + adds);
    BetweenPending(p, deletes, adds, e);
    LeadBetween(p, deletes, adds, e);
    forall kind | kind != Common ensures Without(q, kind) == Without(s + [e], kind) {
      WithoutInserted(r, n, e, kind);
      WithoutSnoc(r, e, kind);
      WithoutSnoc(s, e, kind);
    }
  }

  /** An insertion or a deletion joins the pending changes. */
  lemma ArrangingChange<E(!new)>(ses: seq<Edit<E>>, i: nat, gaps: seq<seq<E>>, tail: seq<E>,
                                 skipped: seq<seq<Edit<E>>>, rest: seq<Edit<E>>, hunks: seq<Hunk<E>>, w: Draft<E>,
                                 w': Draft<E>)
    requires Arranging(ses, i, gaps, tail, skipped, rest, hunks, w) && i < |ses| && ses[i].kind != Common
    requires w'.common0 == w.common0 && w'.change == w.change
    requires if ses[i].kind == Add then w'.adds == w.adds + [ses[i]] && w'.deletes == w.deletes
             else w'.deletes == w.deletes + [ses[i]] && w'.adds == w.adds
    ensures Arranging(ses, i + 1, gaps, tail, skipped, rest, hunks, w')
  {
    hide WovenEntries, Arranged, Skips;
    var p, e := Taken(skipped, hunks, rest, w), ses[i];
    assert ses[..i + 1] == ses[..i] + [e];
    if e.kind == Add {
      ArrangedSnoc(p + (w.deletes + w.adds), ses[..i], e);
      assert p + (w.deletes + w.adds) + [e] == p + (w'.deletes + w'.adds);
    } else {
      ArrangedDelete(p, w.deletes, w.adds, ses[..i], e);
    }
  }

  /** An unchanged entry ends the pending changes and joins them. */
  lemma ArrangingJoin<E(!new)>(ses: seq<Edit<E>>, i: nat, gaps: seq<seq<E>>, tail: seq<E>,
                               skipped: seq<seq<Edit<E>>>, rest: seq<Edit<E>>, hunks: seq<Hunk<E>>, w: Draft<E>,
                               w': Draft<E>)
    requires Arranging(ses, i, gaps, tail, skipped, rest, hunks, w) && i < |ses| && ses[i].kind == Common
    requires w'.common0 == w.common0 && w'.change == w.change + w.deletes + w.adds + [ses[i]]
    requires w'.deletes == w'.adds == []
    ensures Arranging(ses, i + 1, gaps, tail, skipped, rest, hunks, w')
  {
    hide WovenEntries, Arranged, Skips;
    var p, e := Taken(skipped, hunks, rest, w), ses[i];
    assert ses[..i + 1] == ses[..i] + [e];
    ArrangedSnoc(p + (w.deletes + w.adds), ses[..i], e);
    JoinedOrder(WovenEntries(skipped, hunks, |hunks|) + rest, w.common0, w.change, w.deletes, w.adds, e);
  }

  lemma JoinedOrder<T>(p: seq<T>, c: seq<T>, g: seq<T>, d: seq<T>, a: seq<T>, e: T)
    ensures p + (c + g) + (d + a) + [e] == p + (c + (g + d + a + [e])) + ([] + [])
    ensures p + (c + (g + d + a + [e])) == p + (c + (g + d + a)) + [e]
  {
  }

  /** At the end of the script the pending changes join the change as they are. */
  lemma ArrangingPending<E(!new)>(ses: seq<Edit<E>>, i: nat, gaps: seq<seq<E>>, tail: seq<E>,
                                  skipped: seq<seq<Edit<E>>>, rest: seq<Edit<E>>, hunks: seq<Hunk<E>>, w: Draft<E>,
                                  w': Draft<E>)
    requires Arranging(ses, i, gaps, tail, skipped, rest, hunks, w) && i == |ses|
    requires w'.common0 == w.common0 && w'.change == w.change + w.deletes + w.adds && w'.deletes == w'.adds == []
    ensures Arranging(ses, i, gaps, tail, skipped, rest, hunks, w')
  {
    hide WovenEntries, Arranged, Skips;
    assert Taken(skipped, hunks, rest, w) + (w.deletes + w.adds) ==
           Taken(skipped, hunks, rest, w') + (w'.deletes + w'.adds);
  }

  /** An unchanged entry before any change becomes the last of the context; the context may give up its first. */
  lemma ArrangingContext<E(!new)>(ses: seq<Edit<E>>, i: nat, gaps: seq<seq<E>>, tail: seq<E>,
                                  skipped: seq<seq<Edit<E>>>, rest: seq<Edit<E>>, hunks: seq<Hunk<E>>, w: Draft<E>,
                                  tail': seq<E>, rest': seq<Edit<E>>, w': Draft<E>)
    requires Arranging(ses, i, gaps, tail, skipped, rest, hunks, w) && i < |ses| && ses[i].kind == Common
    requires !w.Changing() && !w'.Changing()
    requires if w'.common0 == w.common0 + [ses[i]] then rest' == rest && tail' == tail
             else w.common0 != [] && w'.common0 == w.common0[1..] + [ses[i]] &&
                  rest' == rest + [w.common0[0]] && tail' == tail + [w.common0[0].elem]
    ensures Arranging(ses, i + 1, gaps, tail', skipped, rest', hunks, w')
  {
    hide WovenEntries, Arranged, Skips, Taken;
    var p, e, q := Taken(skipped, hunks, rest, w), ses[i], Taken(skipped, hunks, rest', w');
    assert ses[..i + 1] == ses[..i] + [e];
    ArrangedSnoc(p + (w.deletes + w.adds), ses[..i], e);
    TakenContext(skipped, hunks, rest, w, rest', w', e);
    if rest' != rest {
      SkipsMore(gaps, tail, skipped, rest, w.common0[0]);
    }
  }

  lemma SkipsMore<E(!new)>(gaps: seq<seq<E>>, tail: seq<E>, skipped: seq<seq<Edit<E>>>, rest: seq<Edit<E>>, e: Edit<E>)
    requires Skips(gaps, tail, skipped, rest) && e.kind == Common
    ensures Skips(gaps, tail + [e.elem], skipped, rest + [e])
  {
    Snoc(rest, e);
    hide Before;
  }

  lemma TakenContext<E(!new)>(skipped: seq<seq<Edit<E>>>, hunks: seq<Hunk<E>>, rest: seq<Edit<E>>, w: Draft<E>,
                              rest': seq<Edit<E>>, w': Draft<E>, e: Edit<E>)
    requires |skipped| == |hunks| && !w.Changing() && !w'.Changing() && e.kind == Common
    requires if w'.common0 == w.common0 + [e] then rest' == rest
             else w.common0 != [] && w'.common0 == w.common0[1..] + [e] && rest' == rest + [w.common0[0]]
    ensures ghost var p, q := Taken(skipped, hunks, rest, w), Taken(skipped, hunks, rest', w');
      p + (w.deletes + w.adds) + [e] == q + (w'.deletes + w'.adds) && Settled(q)
  {
    hide WovenEntries;
    assert Taken(skipped, hunks, rest, w) + (w.deletes + w.adds) + [e] ==
           Taken(skipped, hunks, rest', w') + (w'.deletes + w'.adds);
    assert Taken(skipped, hunks, rest', w') == Taken(skipped, hunks, rest, w) + [e];
  }

  /** Closing a hunk: the skipped entries are those before it. */
  lemma ArrangingClose<E(!new)>(ses: seq<Edit<E>>, i: nat, gaps: seq<seq<E>>, tail: seq<E>,
                                skipped: seq<seq<Edit<E>>>, rest: seq<Edit<E>>, hunks: seq<Hunk<E>>, w: Draft<E>,
                                h: Hunk<E>)
    requires Arranging(ses, i, gaps, tail, skipped, rest, hunks, w) && w.deletes == w.adds == []
    requires h.common0 == w.common0 && h.change == w.change && h.common1 == []
    ensures Arranging(ses, i, gaps + [tail], [], skipped + [rest], [], hunks + [h],
                      Draft([], [], [], [], 0, 0, 0, 0, 0))
  {
    EntriesExtend(skipped, hunks, rest, h, |hunks|);
    var woven := WovenEntries(skipped + [rest], hunks + [h], |hunks| + 1);
    hide WovenEntries, Arranged;
    assert woven == Taken(skipped, hunks, rest, w) == Taken(skipped, hunks, rest, w) + (w.deletes + w.adds);
    assert woven + [] + ([] + []) == woven && woven + [] + ([] + []) + ([] + []) == woven;
  }

  lemma {:induction false} EntriesExtend<E>(skipped: seq<seq<Edit<E>>>, hunks: seq<Hunk<E>>, rest: seq<Edit<E>>,
                                            h: Hunk<E>, n: nat)
    requires n <= |hunks| && |skipped| == |hunks|
    ensures WovenEntries(skipped + [rest], hunks + [h], n) == WovenEntries(skipped, hunks, n)
  {
    if n > 0 {
      EntriesExtend(skipped, hunks, rest, h, n - 1);
    }
  }

  /** At the end of the script no change is pending: the context that is left is skipped too. */
  lemma ArrangingDone<E(!new)>(ses: seq<Edit<E>>, gaps: seq<seq<E>>, tail: seq<E>, skipped: seq<seq<Edit<E>>>,
                               rest: seq<Edit<E>>, hunks: seq<Hunk<E>>, w: Draft<E>)
    requires Arranging(ses, |ses|, gaps, tail, skipped, rest, hunks, w) && !w.Changing()
    ensures Carry(hunks, skipped, rest + w.common0, ses)
    ensures Skips(gaps, tail + Before(w.common0), skipped, rest + w.common0)
  {
    hide WovenEntries, Arranged;
    assert ses[..|ses|] == ses;
    JoinedEnds(rest, w.common0);
    hide Before;
    assert Taken(skipped, hunks, rest, w) + (w.deletes + w.adds) ==
           WovenEntries(skipped, hunks, |hunks|) + (rest + w.common0);
  }

  /** What the hunks and the entries between them say together: they keep the same elements with as many edits as the
      script, and have its entries. */
  lemma CarriedKeeps<E(!new)>(hunks: seq<Hunk<E>>, skipped: seq<seq<Edit<E>>>, rest: seq<Edit<E>>, ses: seq<Edit<E>>)
    requires Carry(hunks, skipped, rest, ses)
    ensures ghost var r := WovenEntries(skipped, hunks, |hunks|) + rest;
      multiset(r) == multiset(ses) && Kept(r) == Kept(ses) && EditCount(r) == EditCount(ses)
    ensures forall j, e :: 0 <= j < |hunks| && e in Script(hunks[j]) ==> e in ses
  {
    var r := WovenEntries(skipped, hunks, |hunks|) + rest;
    ArrangedKeeps(r, ses);
    forall j, e | 0 <= j < |hunks| && e in Script(hunks[j]) ensures e in ses {
      EntryWoven(skipped, hunks, |hunks|, j, e);
      assert e in multiset(r);
    }
  }

  lemma {:induction false} EntryWoven<E>(skipped: seq<seq<Edit<E>>>, hunks: seq<Hunk<E>>, n: nat, j: nat, e: Edit<E>)
    requires j < n <= |hunks| && |skipped| == |hunks| && e in Script(hunks[j])
    ensures e in WovenEntries(skipped, hunks, n)
  {
    if j < n - 1 {
      EntryWoven(skipped, hunks, n - 1, j, e);
    }
  }
}
