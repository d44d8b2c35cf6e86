/** The order in which the rebuilt plot takes the changes of a pool, and what it makes of the plot: when it is never
    negative, when it is the plot drawn live, and that it shows the usage of every time in any case. */
module MemoryOrder {
  import opened MemoryEvents

  // ---- orders of changes -----------------------------------------------------------------------------------

  /** By time, and at one time the frees before the allocations. */
  predicate MayPrecede(data: seq<MemEvent>, c: Change, d: Change)
    requires c.idx < |data| && d.idx < |data|
  {
    TimeOf(data, c) < TimeOf(data, d) || (TimeOf(data, c) == TimeOf(data, d) && !(c.Alloc? && d.Free?))
  }

  ghost predicate FreesFirst(data: seq<MemEvent>, order: seq<Change>) {
    Indexed(data, order) && forall i, j :: 0 <= i < j < |order| ==> MayPrecede(data, order[i], order[j])
  }

  /** An order the merge of allocations and frees can come to: the sort of the frees is not stable, so frees at one
      time may be taken in any order. */
  ghost predicate PlotOrder(data: seq<MemEvent>, hist: seq<Change>, order: seq<Change>) {
    FreesFirst(data, order) && multiset(order) == multiset(hist) && Allocs(order) == Allocs(hist)
  }

  lemma OrderMember(hist: seq<Change>, order: seq<Change>, i: nat) returns (j: nat)
    requires multiset(order) == multiset(hist) && i < |order|
    ensures j < |hist| && hist[j] == order[i] && |order| == |hist|
  {
    assert order[i] in multiset(hist);
    assert |multiset(order)| == |order| && |multiset(hist)| == |hist|;
    j :| 0 <= j < |hist| && hist[j] == order[i];
  }

  lemma {:induction false} Multiplicities(order: seq<Change>, x: nat)
    ensures multiset(order)[Alloc(x)] == multiset(Allocs(order))[x]
    ensures multiset(order)[Free(x)] == multiset(Frees(order))[x]
    decreases |order|
  {
    if order == [] {
      assert Allocs(order) == Frees(order) == [];
    } else {
      hide Allocs, Frees;
      var n := |order| - 1;
      assert order == order[..n] + [order[n]];
      Multiplicities(order[..n], x);
      ProjectionsSnoc(order[..n], order[n]);
    }
  }

  /** The allocations and the frees make up the changes. */
  lemma SameChanges(hist: seq<Change>, order: seq<Change>)
    requires Allocs(order) == Allocs(hist) && multiset(Frees(order)) == multiset(Frees(hist))
    ensures multiset(order) == multiset(hist)
  {
    forall c ensures multiset(order)[c] == multiset(hist)[c] {
      Multiplicities(order, c.idx);
      Multiplicities(hist, c.idx);
    }
  }

  // ---- points ----------------------------------------------------------------------------------------------

  lemma {:induction false} PointAt(data: seq<MemEvent>, order: seq<Change>, k: nat)
    requires Indexed(data, order) && k < |order|
    ensures |Points(data, order)| == |order|
    ensures Points(data, order)[k] == Point(TimeOf(data, order[k]), UsageAfter(data, order[..k + 1]))
    decreases |order|
  {
    var n := |order| - 1;
    if k < n {
      PointAt(data, order[..n], k);
      assert order[..n][..k + 1] == order[..k + 1];
    } else {
      assert order[..k + 1] == order;
      PointsLength(data, order);
    }
  }

  lemma {:induction false} PointsLength(data: seq<MemEvent>, order: seq<Change>)
    requires Indexed(data, order)
    ensures |Points(data, order)| == |order|
    decreases |order|
  {
    if order != [] {
      PointsLength(data, order[..|order| - 1]);
    }
  }

  lemma UsageStep(data: seq<MemEvent>, order: seq<Change>, k: nat)
    requires Indexed(data, order) && k < |order|
    ensures UsageAfter(data, order[..k + 1]) == UsageAfter(data, order[..k]) + Delta(data, order[k])
  {
    assert order[..k + 1][..k] == order[..k];
  }

  /** Points depend only on the times and the differences in usage. */
  lemma {:induction false} PointsByKeys(data: seq<MemEvent>, a: seq<Change>, b: seq<Change>)
    requires Indexed(data, a) && Indexed(data, b) && |a| == |b|
    requires forall k :: 0 <= k < |a| ==>
      TimeOf(data, a[k]) == TimeOf(data, b[k]) && Delta(data, a[k]) == Delta(data, b[k])
    ensures Points(data, a) == Points(data, b) && UsageAfter(data, a) == UsageAfter(data, b)
    decreases |a|
  {
    if a != [] {
      PointsByKeys(data, a[..|a| - 1], b[..|b| - 1]);
    }
  }

  /** Equal points mean equal usages all the way. */
  lemma SameUsage(data: seq<MemEvent>, a: seq<Change>, b: seq<Change>, k: nat)
    requires Indexed(data, a) && Indexed(data, b) && Points(data, a) == Points(data, b) && k <= |a|
    ensures |a| == |b| && UsageAfter(data, a[..k]) == UsageAfter(data, b[..k])
  {
    PointsLength(data, a);
    PointsLength(data, b);
    if k > 0 {
      PointAt(data, a, k - 1);
      PointAt(data, b, k - 1);
    }
  }

  // ---- when the rebuilt plot is the live one ---------------------------------------------------------------

  /** Of two changes at one time of which the later is a free, it does not matter to the plot which comes first: they
      are frees of the same size, or both of size zero. */
  ghost predicate TiesMatch(data: seq<MemEvent>, hist: seq<Change>)
    requires Indexed(data, hist)
  {
    forall i, j :: 0 <= i < j < |hist| && TimeOf(data, hist[i]) == TimeOf(data, hist[j]) && hist[j].Free? ==>
      Delta(data, hist[i]) == Delta(data, hist[j])
  }

  ghost predicate Without(m: seq<Change>, p: nat, r: seq<Change>) {
    p < |m| && r == m[..p] + m[p + 1..]
  }

  lemma NoProjections()
    ensures Allocs([]) == [] && Frees([]) == []
  {
  }

  lemma Joined<T>(a: seq<T>, b: seq<T>, c: seq<T>)
    ensures (a + b) + c == a + (b + c)
  {
  }

  lemma {:induction false} JoinedProjections(a: seq<Change>, b: seq<Change>)
    ensures Allocs(a + b) == Allocs(a) + Allocs(b) && Frees(a + b) == Frees(a) + Frees(b)
    decreases |b|
  {
    hide Allocs, Frees;
    if b == [] {
      NoProjections();
      assert a + b == a;
    } else {
      var n := |b| - 1;
      var c := b[n];
      JoinedProjections(a, b[..n]);
      assert b == b[..n] + [c];
      Joined(a, b[..n], [c]);
      ProjectionsSnoc(a + b[..n], c);
      ProjectionsSnoc(b[..n], c);
      Joined(Allocs(a), Allocs(b[..n]), if c.Alloc? then [c.idx] else []);
      Joined(Frees(a), Frees(b[..n]), if c.Free? then [c.idx] else []);
    }
  }

  lemma WithoutParts(m: seq<Change>, p: nat, r: seq<Change>)
    requires Without(m, p, r)
    ensures m == m[..p] + [m[p]] + m[p + 1..] && multiset(m) == multiset(r) + multiset{m[p]} && |r| == |m| - 1
  {
    assert m == m[..p] + [m[p]] + m[p + 1..];
  }

  lemma WithoutFree(m: seq<Change>, p: nat, r: seq<Change>)
    requires Without(m, p, r) && m[p].Free?
    ensures Allocs(r) == Allocs(m)
  {
    hide Allocs, Frees;
    var a, b := m[..p], m[p + 1..];
    WithoutParts(m, p, r);
    JoinedProjections(a, b);
    JoinedProjections(a + [m[p]], b);
    ProjectionsSnoc(a, m[p]);
  }

  lemma WithoutOrder(data: seq<MemEvent>, m: seq<Change>, p: nat, r: seq<Change>)
    requires Without(m, p, r) && FreesFirst(data, m)
    ensures FreesFirst(data, r)
  {
    forall i | 0 <= i < |r| ensures r[i] == m[if i < p then i else i + 1] {
    }
  }

  /** What comes last in time may as well be taken out of the middle, if all behind it look like it. */
  lemma TakenLast(data: seq<MemEvent>, m: seq<Change>, p: nat, r: seq<Change>)
    requires Indexed(data, m) && Without(m, p, r)
    requires forall k :: p < k < |m| ==>
      TimeOf(data, m[k]) == TimeOf(data, m[p]) && Delta(data, m[k]) == Delta(data, m[p])
    ensures Indexed(data, r) && Points(data, m) == Points(data, r + [m[p]])
  {
    var s := r + [m[p]];
    forall k | 0 <= k < |m| ensures TimeOf(data, m[k]) == TimeOf(data, s[k]) && Delta(data, m[k]) == Delta(data, s[k]) {
    }
    PointsByKeys(data, m, s);
  }

  lemma HistoryFront(data: seq<MemEvent>, hist: seq<Change>)
    requires Indexed(data, hist) && NotFalling(data, hist) && TiesMatch(data, hist) && hist != []
    ensures ghost var h := hist[..|hist| - 1];
      Indexed(data, h) && NotFalling(data, h) && TiesMatch(data, h) &&
      multiset(hist) == multiset(h) + multiset{hist[|hist| - 1]}
  {
    assert hist == hist[..|hist| - 1] + [hist[|hist| - 1]];
  }

  /** If the last change is an allocation, every order takes it last. */
  lemma LastAlloc(data: seq<MemEvent>, hist: seq<Change>, m: seq<Change>)
    requires Indexed(data, hist) && NotFalling(data, hist) && PlotOrder(data, hist, m) && hist != []
    requires hist[|hist| - 1].Alloc?
    ensures |m| == |hist| && m[|m| - 1] == hist[|hist| - 1]
  {
    var c := hist[|hist| - 1];
    var q := OrderMember(m, hist, |hist| - 1);
    var last := |m| - 1;
    var j := OrderMember(hist, m, last);
    assert TimeOf(data, m[last]) <= TimeOf(data, c);
    assert q == last || MayPrecede(data, m[q], m[last]);
    assert m[last].Alloc? ==> Allocs(m)[|Allocs(m)| - 1] == m[last].idx;
  }

  /** Whatever follows a free that happened last looks like it. */
  lemma BehindLastFree(data: seq<MemEvent>, hist: seq<Change>, m: seq<Change>, p: nat, k: nat)
    requires Indexed(data, hist) && NotFalling(data, hist) && TiesMatch(data, hist) && PlotOrder(data, hist, m) &&
      hist != []
    requires p < k < |m| && m[p] == hist[|hist| - 1] && m[p].Free?
    ensures TimeOf(data, m[k]) == TimeOf(data, m[p]) && Delta(data, m[k]) == Delta(data, m[p])
  {
    var j := OrderMember(hist, m, k);
    assert MayPrecede(data, m[p], m[k]);
    assert j < |hist| - 1 || m[k] == m[p];
  }

  /** The change that happened last, taken out of an order of the merge. */
  lemma LastTakenOut(data: seq<MemEvent>, hist: seq<Change>, m: seq<Change>) returns (p: nat, r: seq<Change>)
    requires Indexed(data, hist) && NotFalling(data, hist) && TiesMatch(data, hist) && PlotOrder(data, hist, m) &&
      hist != []
    ensures Without(m, p, r) && m[p] == hist[|hist| - 1] && FreesFirst(data, r)
    ensures Allocs(r) == Allocs(hist[..|hist| - 1]) && Indexed(data, m)
    ensures forall k :: p < k < |m| ==>
      TimeOf(data, m[k]) == TimeOf(data, m[p]) && Delta(data, m[k]) == Delta(data, m[p])
  {
    hide TiesMatch, NotFalling, MayPrecede, Allocs, Frees;
    var n := |hist| - 1;
    var c := hist[n];
    assert hist == hist[..n] + [c];
    ProjectionsSnoc(hist[..n], c);
    if c.Alloc? {
      LastAlloc(data, hist, m);
      p, r := n, m[..n];
      assert m == r + [c] && r == m[..p] + m[p + 1..];
      ProjectionsSnoc(r, c);
      SameFront(Allocs(r), Allocs(hist[..n]), c.idx);
    } else {
      p := OrderMember(m, hist, n);
      r := m[..p] + m[p + 1..];
      WithoutFree(m, p, r);
      forall k | p < k < |m|
        ensures TimeOf(data, m[k]) == TimeOf(data, m[p]) && Delta(data, m[k]) == Delta(data, m[p])
      {
        BehindLastFree(data, hist, m, p, k);
      }
    }
    WithoutOrder(data, m, p, r);
  }

  /** If ties match, every order of the merge gives the points drawn live. */
  lemma {:induction false} OrdersAgree(data: seq<MemEvent>, hist: seq<Change>, m: seq<Change>)
    requires Indexed(data, hist) && NotFalling(data, hist) && TiesMatch(data, hist) && PlotOrder(data, hist, m)
    ensures Points(data, m) == Points(data, hist)
    decreases |hist|
  {
    hide Points, UsageAfter, TiesMatch, NotFalling, Allocs, Frees, FreesFirst, MayPrecede;
    assert |multiset(m)| == |m| && |multiset(hist)| == |hist|;
    if hist == [] {
      assert m == hist;
    } else {
      var n := |hist| - 1;
      var h, c := hist[..n], hist[n];
      HistoryFront(data, hist);
      var p, r := LastTakenOut(data, hist, m);
      WithoutParts(m, p, r);
      SameLess(multiset(r), multiset(h), c);
      OrdersAgree(data, h, r);
      TakenLast(data, m, p, r);
      SameAfter(data, h, r);
      assert hist == h + [c];
      PointsSnoc(data, h, c);
      PointsSnoc(data, r, c);
    }
  }

  lemma SameFront<T>(a: seq<T>, b: seq<T>, c: T)
    requires a + [c] == b + [c]
    ensures a == b
  {
    assert (a + [c])[..|a|] == a && (b + [c])[..|b|] == b;
    assert |a + [c]| == |b + [c]|;
  }

  lemma SameLess<T>(a: multiset<T>, b: multiset<T>, c: T)
    requires a + multiset{c} == b + multiset{c}
    ensures a == b
  {
    forall x ensures a[x] == b[x] {
      assert (a + multiset{c})[x] == (b + multiset{c})[x];
    }
  }

  lemma SameAfter(data: seq<MemEvent>, a: seq<Change>, b: seq<Change>)
    requires Indexed(data, a) && Indexed(data, b) && Points(data, a) == Points(data, b)
    ensures UsageAfter(data, a) == UsageAfter(data, b)
  {
    SameUsage(data, a, b, |a|);
    assert a[..|a|] == a && b[..|b|] == b;
  }
  // ---- and when it is not ----------------------------------------------------------------------------------

  /** The usage along a is nowhere above that along b. */
  ghost predicate Below(data: seq<MemEvent>, a: seq<Change>, b: seq<Change>) {
    Indexed(data, a) && Indexed(data, b) && |a| == |b| &&
    forall k :: 0 <= k <= |a| ==> UsageAfter(data, a[..k]) <= UsageAfter(data, b[..k])
  }

  ghost predicate AllocTies(data: seq<MemEvent>, hist: seq<Change>)
    requires Indexed(data, hist)
  {
    forall i, j ::
      0 <= i < j < |hist| && TimeOf(data, hist[i]) == TimeOf(data, hist[j]) && hist[i].Alloc? && hist[j].Free? ==>
        Delta(data, hist[i]) == Delta(data, hist[j])
  }

  /** From p on there are only allocations at the time, and none just before p. */
  ghost predicate AllocsFrom(data: seq<MemEvent>, m: seq<Change>, time: int, p: nat) {
    Indexed(data, m) && p <= |m| && (forall k :: p <= k < |m| ==> m[k].Alloc? && TimeOf(data, m[k]) == time) &&
    (p > 0 ==> m[p - 1].Free? || TimeOf(data, m[p - 1]) != time)
  }

  lemma {:induction false} FindAllocs(data: seq<MemEvent>, m: seq<Change>, time: int, p0: nat) returns (p: nat)
    requires Indexed(data, m) && p0 <= |m| && forall k :: p0 <= k < |m| ==> m[k].Alloc? && TimeOf(data, m[k]) == time
    ensures AllocsFrom(data, m, time, p)
    decreases p0
  {
    if p0 > 0 && m[p0 - 1].Alloc? && TimeOf(data, m[p0 - 1]) == time {
      p := FindAllocs(data, m, time, p0 - 1);
    } else {
      p := p0;
    }
  }

  /** m is m0 with a free that happened last put before the allocations at its time. */
  ghost predicate PutIn(data: seq<MemEvent>, m0: seq<Change>, c: Change, p: nat, m: seq<Change>) {
    FreesFirst(data, m0) && c.Free? && c.idx < |data| &&
      (forall k :: 0 <= k < |m0| ==> TimeOf(data, m0[k]) <= TimeOf(data, c)) &&
    AllocsFrom(data, m0, TimeOf(data, c), p) && m == m0[..p] + [c] + m0[p..]
  }

  /** All allocations at its time are behind it. */
  lemma PutBefore(data: seq<MemEvent>, m0: seq<Change>, c: Change, p: nat, m: seq<Change>, q: nat)
    requires PutIn(data, m0, c, p, m) && q < |m0|
    ensures q < p ==> TimeOf(data, m0[q]) < TimeOf(data, c) || m0[q].Free?
  {
    if q < p - 1 {
      assert MayPrecede(data, m0[q], m0[p - 1]);
    }
  }

  lemma PutAt(m0: seq<Change>, c: Change, p: nat, i: nat)
    requires p <= |m0| && i <= |m0|
    ensures ghost var m := m0[..p] + [c] + m0[p..];
      |m| == |m0| + 1 && m[i] == if i < p then m0[i] else if i == p then c else m0[i - 1]
  {
  }

  lemma PutPair(data: seq<MemEvent>, m0: seq<Change>, c: Change, p: nat, m: seq<Change>, i: nat, j: nat)
    requires PutIn(data, m0, c, p, m) && i < j < |m|
    ensures m[i].idx < |data| && m[j].idx < |data| && MayPrecede(data, m[i], m[j])
  {
    PutAt(m0, c, p, i);
    PutAt(m0, c, p, j);
    if i < p {
      PutBefore(data, m0, c, p, m, i);
    }
  }

  lemma PutInOrder(data: seq<MemEvent>, m0: seq<Change>, c: Change, p: nat, m: seq<Change>)
    requires PutIn(data, m0, c, p, m)
    ensures FreesFirst(data, m) && Without(m, p, m0) && m[p] == c
  {
    assert m[..p] + m[p + 1..] == m0;
    hide PutIn, MayPrecede;
    forall i, j | 0 <= i < j < |m| ensures m[i].idx < |data| && m[j].idx < |data| && MayPrecede(data, m[i], m[j]) {
      PutPair(data, m0, c, p, m, i, j);
    }
    forall i | 0 <= i < |m| ensures m[i].idx < |data| {
      PutIndexed(data, m0, c, p, m, i);
    }
  }

  lemma PutIndexed(data: seq<MemEvent>, m0: seq<Change>, c: Change, p: nat, m: seq<Change>, i: nat)
    requires PutIn(data, m0, c, p, m) && i < |m|
    ensures m[i].idx < |data|
  {
    PutAt(m0, c, p, i);
  }

  lemma {:induction false} PutInUsage(data: seq<MemEvent>, m0: seq<Change>, c: Change, p: nat, m: seq<Change>, k: nat)
    requires PutIn(data, m0, c, p, m) && k <= |m|
    ensures Indexed(data, m) && |m| == |m0| + 1
    ensures UsageAfter(data, m[..k]) ==
            if k <= p then UsageAfter(data, m0[..k]) else UsageAfter(data, m0[..k - 1]) + Delta(data, c)
    decreases k
  {
    hide UsageAfter, FreesFirst;
    if k <= p {
      assert m[..k] == m0[..k];
    } else {
      PutInUsage(data, m0, c, p, m, k - 1);
      UsageStep(data, m, k - 1);
      if k - 1 > p {
        UsageStep(data, m0, k - 2);
      }
    }
  }

  /** Behind it the usage is lower, by its size and that of the allocation it was put before. */
  lemma PutInLower(data: seq<MemEvent>, m0: seq<Change>, c: Change, p: nat, m: seq<Change>, k: nat)
    requires PutIn(data, m0, c, p, m) && k <= |m0|
    ensures Indexed(data, m) && |m| == |m0| + 1
    ensures k <= p ==> UsageAfter(data, m[..k]) == UsageAfter(data, m0[..k])
    ensures k > p ==> UsageAfter(data, m[..k]) == UsageAfter(data, m0[..k]) - Delta(data, m0[k - 1]) + Delta(data, c)
    ensures UsageAfter(data, m[..k]) <= UsageAfter(data, m0[..k])
  {
    hide UsageAfter, FreesFirst;
    PutInUsage(data, m0, c, p, m, k);
    if k > p {
      UsageStep(data, m0, k - 1);
    }
  }

  /** One more free at the end, and where the order of the merge takes it. */
  lemma BelowPut(data: seq<MemEvent>, hist: seq<Change>, m0: seq<Change>, p: nat, m: seq<Change>)
    requires hist != [] && Indexed(data, hist)
    requires PutIn(data, m0, hist[|hist| - 1], p, m) && Below(data, m0, hist[..|hist| - 1])
    ensures Below(data, m, hist) && (Below(data, hist, m) ==> Below(data, hist[..|hist| - 1], m0))
  {
    hide UsageAfter, PutIn;
    var n := |hist| - 1;
    var h, c := hist[..n], hist[n];
    PutInUsage(data, m0, c, p, m, 0);
    forall k | 0 <= k <= |m| ensures UsageAfter(data, m[..k]) <= UsageAfter(data, hist[..k]) {
      if k <= n {
        PutInLower(data, m0, c, p, m, k);
        assert hist[..k] == h[..k];
      } else {
        PutAll(data, m0, c, p, m);
        UsageStep(data, hist, n);
        assert m[..k] == m && m0[..n] == m0 && h[..n] == h;
      }
    }
    if Below(data, hist, m) {
      forall k | 0 <= k <= n ensures UsageAfter(data, h[..k]) <= UsageAfter(data, m0[..k]) {
        PutInLower(data, m0, c, p, m, k);
        assert hist[..k] == h[..k];
      }
    }
  }

  lemma PutAll(data: seq<MemEvent>, m0: seq<Change>, c: Change, p: nat, m: seq<Change>)
    requires PutIn(data, m0, c, p, m)
    ensures Indexed(data, m) && UsageAfter(data, m) == UsageAfter(data, m0) + Delta(data, c)
  {
    PutInUsage(data, m0, c, p, m, |m|);
    assert m[..|m|] == m && m0[..|m0|] == m0;
  }

  lemma TieAtPut(data: seq<MemEvent>, hist: seq<Change>, m0: seq<Change>, p: nat, m: seq<Change>, i: nat)
    requires hist != [] && Indexed(data, hist) && i < |hist| - 1
    requires PutIn(data, m0, hist[|hist| - 1], p, m) && Below(data, m0, hist[..|hist| - 1]) && Below(data, hist, m)
    requires multiset(m0) == multiset(hist[..|hist| - 1])
    requires hist[i].Alloc? && TimeOf(data, hist[i]) == TimeOf(data, hist[|hist| - 1])
    ensures Delta(data, hist[i]) == Delta(data, hist[|hist| - 1])
  {
    hide UsageAfter;
    var n := |hist| - 1;
    var h := hist[..n];
    var q := OrderMember(m0, h, i);
    assert h[i] == hist[i];
    PutBefore(data, m0, hist[n], p, m, q);
    PutInLower(data, m0, hist[n], p, m, q + 1);
    assert hist[..q + 1] == h[..q + 1];
    assert UsageAfter(data, m0[..q + 1]) <= UsageAfter(data, h[..q + 1]);
    assert UsageAfter(data, hist[..q + 1]) <= UsageAfter(data, m[..q + 1]);
  }

  /** The order that takes the frees as they happened. Its usage is nowhere above that of the history, and the same
      everywhere only if no allocation precedes a free at its time, except for sizes of zero. */
  lemma {:induction false} NormalOrder(data: seq<MemEvent>, hist: seq<Change>) returns (m: seq<Change>)
    requires Indexed(data, hist) && NotFalling(data, hist)
    ensures PlotOrder(data, hist, m) && Below(data, m, hist)
    ensures Below(data, hist, m) ==> AllocTies(data, hist)
    decreases |hist|
  {
    if hist == [] {
      m := [];
    } else {
      hide UsageAfter, Allocs, Frees, FreesFirst, MayPrecede;
      var n := |hist| - 1;
      var h, c := hist[..n], hist[n];
      var m0 := NormalOrder(data, h);
      assert hist == h + [c];
      ProjectionsSnoc(h, c);
      forall k | 0 <= k < |m0| ensures TimeOf(data, m0[k]) <= TimeOf(data, c) {
        var j := OrderMember(h, m0, k);
        assert h[j] == hist[j];
      }
      if c.Alloc? {
        m := m0 + [c];
        ProjectionsSnoc(m0, c);
        AllocLast(data, hist, m0);
      } else {
        m := PutFree(data, hist, m0);
      }
    }
  }

  lemma PutFree(data: seq<MemEvent>, hist: seq<Change>, m0: seq<Change>) returns (m: seq<Change>)
    requires Indexed(data, hist) && hist != [] && hist[|hist| - 1].Free?
    requires PlotOrder(data, hist[..|hist| - 1], m0) && Below(data, m0, hist[..|hist| - 1])
    requires forall k :: 0 <= k < |m0| ==> m0[k].idx < |data| && TimeOf(data, m0[k]) <= TimeOf(data, hist[|hist| - 1])
    requires Below(data, hist[..|hist| - 1], m0) ==> AllocTies(data, hist[..|hist| - 1])
    ensures PlotOrder(data, hist, m) && Below(data, m, hist) && (Below(data, hist, m) ==> AllocTies(data, hist))
  {
    hide UsageAfter, Allocs, Frees, FreesFirst, MayPrecede, Below, AllocTies;
    var n := |hist| - 1;
    var h, c := hist[..n], hist[n];
    assert hist == h + [c];
    ProjectionsSnoc(h, c);
    OrderIndexed(data, h, m0);
    var p := FindAllocs(data, m0, TimeOf(data, c), |m0|);
    m := m0[..p] + [c] + m0[p..];
    PutInOrder(data, m0, c, p, m);
    WithoutFree(m, p, m0);
    WithoutParts(m, p, m0);
    BelowPut(data, hist, m0, p, m);
    if Below(data, hist, m) {
      forall i | 0 <= i < n && hist[i].Alloc? && TimeOf(data, hist[i]) == TimeOf(data, c)
        ensures Delta(data, hist[i]) == Delta(data, c)
      {
        TieAtPut(data, hist, m0, p, m, i);
      }
      AllocTiesMore(data, hist);
    }
  }

  lemma OrderIndexed(data: seq<MemEvent>, hist: seq<Change>, m: seq<Change>)
    requires PlotOrder(data, hist, m)
    ensures Indexed(data, m)
  {
  }

  lemma AllocTiesMore(data: seq<MemEvent>, hist: seq<Change>)
    requires Indexed(data, hist) && hist != [] && AllocTies(data, hist[..|hist| - 1])
    requires forall i ::
      0 <= i < |hist| - 1 && hist[i].Alloc? && TimeOf(data, hist[i]) == TimeOf(data, hist[|hist| - 1]) ==>
        hist[|hist| - 1].Alloc? || Delta(data, hist[i]) == Delta(data, hist[|hist| - 1])
    ensures AllocTies(data, hist)
  {
    var h := hist[..|hist| - 1];
    assert forall i :: 0 <= i < |h| ==> h[i] == hist[i];
  }

  lemma AllocLast(data: seq<MemEvent>, hist: seq<Change>, m0: seq<Change>)
    requires Indexed(data, hist) && hist != [] && hist[|hist| - 1].Alloc? && FreesFirst(data, m0)
    requires forall k :: 0 <= k < |m0| ==> m0[k].idx < |data| && TimeOf(data, m0[k]) <= TimeOf(data, hist[|hist| - 1])
    requires Below(data, m0, hist[..|hist| - 1])
    requires Below(data, hist[..|hist| - 1], m0) ==> AllocTies(data, hist[..|hist| - 1])
    ensures ghost var m := m0 + [hist[|hist| - 1]];
      FreesFirst(data, m) && Below(data, m, hist) && (Below(data, hist, m) ==> AllocTies(data, hist))
  {
    hide UsageAfter;
    var n := |hist| - 1;
    var h, c, m := hist[..n], hist[n], m0 + [hist[n]];
    assert forall k :: 0 <= k <= n ==> m[..k] == m0[..k] && hist[..k] == h[..k];
    UsageStep(data, hist, n);
    UsageStep(data, m, n);
    assert m[..n] == m0 && m0[..n] == m0 && hist[..n] == h;
    if Below(data, hist, m) {
      forall k | 0 <= k <= n ensures UsageAfter(data, h[..k]) <= UsageAfter(data, m0[..k]) {
        assert UsageAfter(data, hist[..k]) <= UsageAfter(data, m[..k]);
      }
      AllocTiesMore(data, hist);
    }
  }

  /** Two frees at one time may change places. */
  lemma FreesExchanged(data: seq<MemEvent>, hist: seq<Change>, m: seq<Change>, p: nat, q: nat)
    requires PlotOrder(data, hist, m) && p < q < |m| && m[p].Free? && m[q].Free?
    requires m[p].idx < |data| && m[q].idx < |data| && TimeOf(data, m[p]) == TimeOf(data, m[q])
    ensures PlotOrder(data, hist, m[p := m[q]][q := m[p]])
  {
    var m' := m[p := m[q]][q := m[p]];
    forall i, j | 0 <= i < j < |m| ensures MayPrecede(data, m'[i], m'[j]) {
      assert MayPrecede(data, m[i], m[j]);
      assert i < p ==> MayPrecede(data, m[i], m[p]) && MayPrecede(data, m[i], m[q]);
      assert p < i < q ==> MayPrecede(data, m[p], m[i]) && MayPrecede(data, m[i], m[q]);
      assert p < j < q ==> MayPrecede(data, m[p], m[j]) && MayPrecede(data, m[j], m[q]);
      assert q < j ==> MayPrecede(data, m[p], m[j]) && MayPrecede(data, m[q], m[j]);
    }
    FreeReplaced(m, p, m[q]);
    FreeReplaced(m[p := m[q]], q, m[p]);
  }

  lemma FreeReplaced(m: seq<Change>, p: nat, c: Change)
    requires p < |m| && m[p].Free? && c.Free?
    ensures Allocs(m[p := c]) == Allocs(m)
  {
    var m' := m[p := c];
    var r := m[..p] + m[p + 1..];
    assert r == m'[..p] + m'[p + 1..];
    WithoutFree(m, p, r);
    WithoutFree(m', p, r);
  }

  /** If every order of the merge gives the points drawn live, two frees at one time have the same size. */
  lemma FreeTies(data: seq<MemEvent>, hist: seq<Change>, m: seq<Change>, i: nat, j: nat)
    requires Indexed(data, hist) && PlotOrder(data, hist, m) && i < j < |hist| && hist[i].Free? && hist[j].Free?
    requires TimeOf(data, hist[i]) == TimeOf(data, hist[j])
    requires forall o :: PlotOrder(data, hist, o) ==> Indexed(data, o) && Points(data, o) == Points(data, hist)
    ensures Delta(data, hist[i]) == Delta(data, hist[j])
  {
    hide Points, UsageAfter, FreesFirst, Allocs;
    OrderIndexed(data, hist, m);
    var x := OrderMember(m, hist, i);
    var y := OrderMember(m, hist, j);
    if x != y {
      var p, q := if x < y then x else y, if x < y then y else x;
      var m' := m[p := m[q]][q := m[p]];
      FreesExchanged(data, hist, m, p, q);
      SameUsage(data, m, m', p);
      SameUsage(data, m, m', p + 1);
      UsageStep(data, m, p);
      UsageStep(data, m', p);
    }
  }

  /** The rebuilt plot is the one drawn live, whatever order the sort leaves ties of the frees in, exactly if ties
      match: before a free, at its time, there are only frees of its size, or, if that is zero, allocations of zero. */
  lemma RebuiltIsLive(data: seq<MemEvent>, hist: seq<Change>)
    requires Indexed(data, hist) && NotFalling(data, hist)
    ensures (forall m :: PlotOrder(data, hist, m) ==> Indexed(data, m) && Points(data, m) == Points(data, hist)) <==>
            TiesMatch(data, hist)
  {
    hide Points, UsageAfter, FreesFirst, Allocs, PlotOrder;
    if TiesMatch(data, hist) {
      forall m | PlotOrder(data, hist, m) ensures Indexed(data, m) && Points(data, m) == Points(data, hist) {
        OrderIndexed(data, hist, m);
        OrdersAgree(data, hist, m);
      }
    }
    if forall m :: PlotOrder(data, hist, m) ==> Indexed(data, m) && Points(data, m) == Points(data, hist) {
      var m := NormalOrder(data, hist);
      SameMeansBelow(data, hist, m);
      forall i, j | 0 <= i < j < |hist| && TimeOf(data, hist[i]) == TimeOf(data, hist[j]) && hist[j].Free?
        ensures Delta(data, hist[i]) == Delta(data, hist[j])
      {
        if hist[i].Free? {
          FreeTies(data, hist, m, i, j);
        }
      }
    }
  }

  lemma SameMeansBelow(data: seq<MemEvent>, a: seq<Change>, b: seq<Change>)
    requires Indexed(data, a) && Indexed(data, b) && Points(data, a) == Points(data, b)
    ensures Below(data, a, b)
  {
    hide Points, UsageAfter;
    SameUsage(data, a, b, 0);
    forall k | 0 <= k <= |a| ensures UsageAfter(data, a[..k]) <= UsageAfter(data, b[..k]) {
      SameUsage(data, a, b, k);
    }
  }
}
