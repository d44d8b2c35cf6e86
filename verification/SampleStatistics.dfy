/** Call stack samples counted per symbol: at once when all frames of the stack are known, and later when frames have
    become known, without losing or doubling any. */
module SampleStatistics {
  import opened MapSums

  type Sym = nat

  /** One frame's symbols, innermost inlined one first. */
  type Frame = seq<Sym>

  datatype SymbolStats = SymbolStats(incl: nat, excl: nat, wasExecuting: map<nat, nat>, wasExecutingBase: map<nat, nat>,
                                     wasReached: map<nat, nat>, wasReachedNonReentrant: map<nat, nat>)

  function NoStats(): SymbolStats {
    SymbolStats(0, 0, map[], map[], map[], map[])
  }

  /** UpdateEntry */
  function Counted(m: map<nat, nat>, idx: nat, count: nat): (r: map<nat, nat>) {
    m[idx := ValueAt(m, idx) + count]
  }

  lemma SumCounted(m: map<nat, nat>, idx: nat, count: nat)
    ensures Sum(Counted(m, idx, count)) == Sum(m) + count
  {
    SumUpdated(m, idx, ValueAt(m, idx) + count);
  }

  ghost function Excls(stats: map<Sym, SymbolStats>): (m: map<nat, nat>) {
    map s | s in stats :: stats[s].excl
  }

  /** All samples charged to the symbols that were executing. */
  ghost function TotalExcl(stats: map<Sym, SymbolStats>): nat {
    Sum(Excls(stats))
  }

  function StatsOf(stats: map<Sym, SymbolStats>, s: Sym): SymbolStats {
    if s in stats then stats[s] else NoStats()
  }

  lemma TotalExclChanged(stats: map<Sym, SymbolStats>, s: Sym, r: SymbolStats)
    ensures TotalExcl(stats[s := r]) == TotalExcl(stats) - StatsOf(stats, s).excl + r.excl
  {
    assert Excls(stats[s := r]) == Excls(stats)[s := r.excl];
    SumUpdated(Excls(stats), s, r.excl);
  }

  // ---- what holds of each symbol ---------------------------------------------------------------------------

  /** The entry counts add up to the symbol's totals. */
  ghost predicate Balanced(r: SymbolStats) {
    r.incl == Sum(r.wasReachedNonReentrant) && r.excl == Sum(r.wasExecuting) == Sum(r.wasExecutingBase)
  }

  ghost predicate AllBalanced(stats: map<Sym, SymbolStats>) {
    forall s :: s in stats ==> Balanced(stats[s])
  }

  /** The entry counts lack the sample being counted where it says so. */
  ghost predicate HalfBalanced(r: SymbolStats, count: nat, entryMissing: bool, executingMissing: bool) {
    r.incl == Sum(r.wasReachedNonReentrant) + (if entryMissing then count else 0) &&
    r.excl == Sum(r.wasExecuting) + (if executingMissing then count else 0) &&
    r.excl == Sum(r.wasExecutingBase) + (if executingMissing then count else 0)
  }

  /** In the middle of counting a sample: the symbols in pending have their inclusive count but not yet their entry,
      and so has the executing symbol, if any. */
  ghost predicate Halfway(stats: map<Sym, SymbolStats>, count: nat, pending: set<Sym>, executing: set<Sym>) {
    pending <= stats.Keys && executing <= stats.Keys &&
    forall s :: s in stats ==> HalfBalanced(stats[s], count, s in pending, s in executing)
  }

  lemma HalfwayStart(stats: map<Sym, SymbolStats>, count: nat)
    requires AllBalanced(stats)
    ensures Halfway(stats, count, {}, {})
  {
  }

  lemma HalfwayEnd(stats: map<Sym, SymbolStats>, count: nat)
    requires Halfway(stats, count, {}, {})
    ensures AllBalanced(stats)
  {
  }

  /** The symbols of a call stack. */
  function Symbols(frames: seq<Frame>): (r: set<Sym>) {
    set i, j | 0 <= i < |frames| && 0 <= j < |frames[i]| :: frames[i][j]
  }

  function FrameSymbols(f: Frame, n: nat): (r: set<Sym>)
    requires n <= |f|
  {
    set j | 0 <= j < n :: f[j]
  }

  /** How often each symbol is on a call stack. */
  ghost function Occurrences(frames: seq<Frame>): multiset<Sym> {
    if frames == [] then multiset{} else multiset(frames[0]) + Occurrences(frames[1..])
  }

  // ---- where symbols were called from ----------------------------------------------------------------------

  /** The number a stack of callers, or the remaining inlined frames and the callers, are interned as. */
  datatype Interned = Interned(stack: nat, from: nat, inlined: seq<Sym>)

  /** The symbols of a stack, innermost first. */
  ghost function Flat(fs: seq<Frame>): seq<Sym> {
    if fs == [] then [] else fs[0] + Flat(fs[1..])
  }

  /** Where place (c, j) is among them. */
  ghost function Position(fs: seq<Frame>, c: nat, j: nat): nat
    requires c < |fs|
  {
    |Flat(fs[..c])| + j
  }

  /** The symbols that an entry names: those of the synthetic frame, and those of the rest of the stack. */
  ghost function Named(i: Interned, fs: seq<Frame>): seq<Sym>
    requires i.from <= |fs|
  {
    i.inlined + Flat(fs[i.from..])
  }

  /** The entry names the stack below the place's frame, and in all exactly the symbols behind the place. */
  ghost predicate NamesCallers(i: Interned, callstack: nat, fs: seq<Frame>, c: nat, j: nat)
    requires c < |fs| && j < |fs[c]|
  {
    i.stack == callstack && i.from == c + 1 && Position(fs, c, j) < |Flat(fs)| &&
    Named(i, fs) == Flat(fs)[Position(fs, c, j) + 1..]
  }

  lemma {:induction false} FlatAt(fs: seq<Frame>, c: nat)
    requires c < |fs|
    ensures Flat(fs) == Flat(fs[..c]) + (fs[c] + Flat(fs[c + 1..]))
    decreases c
  {
    if c == 0 {
      assert fs[..0] == [] && [] + (fs[0] + Flat(fs[1..])) == fs[0] + Flat(fs[1..]);
    } else {
      FlatAt(fs[1..], c - 1);
      assert fs[1..][..c - 1] == fs[..c][1..] && fs[1..][c..] == fs[c + 1..];
      assert fs[0] + (Flat(fs[..c][1..]) + (fs[c] + Flat(fs[c + 1..]))) ==
             fs[0] + Flat(fs[..c][1..]) + (fs[c] + Flat(fs[c + 1..]));
    }
  }

  lemma Behind(p: seq<Sym>, f: Frame, rest: seq<Sym>, j: nat)
    requires j < |f|
    ensures ghost var s := p + (f + rest);
      s[|p| + j] == f[j] && s[|p| + j + 1..] == f[j + 1..] + rest
  {
  }

  /** There is one such entry for each place. At the last place of a frame it has no synthetic frame. */
  lemma CallersNamed(i: Interned, callstack: nat, fs: seq<Frame>, c: nat, j: nat)
    requires c < |fs| && j < |fs[c]|
    ensures NamesCallers(i, callstack, fs, c, j) <==> i == Interned(callstack, c + 1, fs[c][j + 1..])
    ensures NamesCallers(i, callstack, fs, c, j) ==> (i.inlined == [] <==> j == |fs[c]| - 1)
    ensures Position(fs, c, j) < |Flat(fs)| && Flat(fs)[Position(fs, c, j)] == fs[c][j]
  {
    var p, f, rest := Flat(fs[..c]), fs[c], Flat(fs[c + 1..]);
    FlatAt(fs, c);
    Behind(p, f, rest, j);
    if NamesCallers(i, callstack, fs, c, j) {
      SameFront(i.inlined, f[j + 1..], rest);
    }
  }

  lemma SameFront(p: seq<Sym>, q: seq<Sym>, rest: seq<Sym>)
    requires p + rest == q + rest
    ensures p == q
  {
    assert |p| == |q|;
    assert p == (p + rest)[..|p|] && q == (q + rest)[..|q|];
  }

  /** The number entered for symbol j of frame c. */
  ghost predicate NumbersCallers(idx: nat, intern: Interned -> nat, callstack: nat, fs: seq<Frame>, c: nat, j: nat)
    requires c < |fs| && j < |fs[c]|
  {
    exists i :: NamesCallers(i, callstack, fs, c, j) && idx == intern(i)
  }

  /** What symbol j of frame c was called from: the stack below its frame, together with the frames it is inlined in. */
  ghost function CallerOf(intern: Interned -> nat, callstack: nat, fs: seq<Frame>, c: nat, j: nat): (idx: nat)
    requires c < |fs| && j < |fs[c]|
    ensures NumbersCallers(idx, intern, callstack, fs, c, j)
  {
    var i := Interned(callstack, c + 1, fs[c][j + 1..]);
    CallersNamed(i, callstack, fs, c, j);
    intern(i)
  }

  /** The symbols of frame c from the j-th on, each with what it was called from. */
  ghost function FrameCalls(intern: Interned -> nat, callstack: nat, fs: seq<Frame>, c: nat, j: nat):
      multiset<(Sym, nat)>
    requires c < |fs|
    decreases |fs[c]| - j
  {
    if j >= |fs[c]| then multiset{}
    else FrameCalls(intern, callstack, fs, c, j + 1) + multiset{(fs[c][j], CallerOf(intern, callstack, fs, c, j))}
  }

  /** All symbols of the frames from c on, each as often as it is there, with what it was called from. */
  ghost function Calls(intern: Interned -> nat, callstack: nat, fs: seq<Frame>, c: nat): multiset<(Sym, nat)>
    decreases |fs| - c
  {
    if c >= |fs| then multiset{}
    else Calls(intern, callstack, fs, c + 1) + FrameCalls(intern, callstack, fs, c, 0)
  }

  /** Place (c', j') is (c, j) or farther out. */
  predicate FartherOut(c': nat, j': nat, c: nat, j: nat) {
    c' > c || (c' == c && j' >= j)
  }

  predicate On(fs: seq<Frame>, s: Sym, c: nat, j: nat) {
    c < |fs| && j < |fs[c]| && fs[c][j] == s
  }

  /** The outermost place of a symbol on the stack. */
  ghost predicate Outermost(fs: seq<Frame>, s: Sym, c: nat, j: nat) {
    On(fs, s, c, j) && forall c': nat, j': nat :: On(fs, s, c', j') ==> FartherOut(c, j, c', j')
  }

  ghost function WithFirst(firsts: map<Sym, nat>, s: Sym, idx: nat): map<Sym, nat> {
    if s in firsts then firsts else firsts[s := idx]
  }

  /** What the symbols on the stack from place (c, j) outwards were called from at their outermost places. */
  ghost predicate Firsts(intern: Interned -> nat, callstack: nat, fs: seq<Frame>, c: nat, j: nat,
                         firsts: map<Sym, nat>)
  {
    (forall s, c': nat, j': nat :: On(fs, s, c', j') && FartherOut(c', j', c, j) ==> s in firsts) &&
    forall s :: s in firsts ==> FirstAt(intern, callstack, fs, s, c, j, firsts[s])
  }

  ghost predicate FirstAt(intern: Interned -> nat, callstack: nat, fs: seq<Frame>, s: Sym, c: nat, j: nat, idx: nat) {
    exists c': nat, j': nat ::
      Outermost(fs, s, c', j') && FartherOut(c', j', c, j) && idx == CallerOf(intern, callstack, fs, c', j')
  }

  lemma FirstsNone(intern: Interned -> nat, callstack: nat, fs: seq<Frame>)
    ensures Firsts(intern, callstack, fs, |fs|, 0, map[])
  {
  }

  /** From the end of a frame to the start of the next one out there is no symbol. */
  lemma FirstsFrame(intern: Interned -> nat, callstack: nat, fs: seq<Frame>, c: nat, firsts: map<Sym, nat>)
    requires c < |fs| && Firsts(intern, callstack, fs, c + 1, 0, firsts)
    ensures Firsts(intern, callstack, fs, c, |fs[c]|, firsts)
  {
    hide CallerOf;
    forall s | s in firsts ensures FirstAt(intern, callstack, fs, s, c, |fs[c]|, firsts[s]) {
      assert FirstAt(intern, callstack, fs, s, c + 1, 0, firsts[s]);
    }
  }

  lemma FirstsStep(intern: Interned -> nat, callstack: nat, fs: seq<Frame>, c: nat, j: nat, firsts: map<Sym, nat>)
    requires c < |fs| && j < |fs[c]| && Firsts(intern, callstack, fs, c, j + 1, firsts)
    ensures ghost var s := fs[c][j];
      Firsts(intern, callstack, fs, c, j, WithFirst(firsts, s, CallerOf(intern, callstack, fs, c, j)))
  {
    hide CallerOf;
    var s := fs[c][j];
    var firsts' := WithFirst(firsts, s, CallerOf(intern, callstack, fs, c, j));
    forall r, c': nat, j': nat | On(fs, r, c', j') && FartherOut(c', j', c, j) ensures r in firsts' {
      if c' == c && j' == j {
        assert r == s;
      } else {
        assert FartherOut(c', j', c, j + 1);
      }
    }
    forall r | r in firsts' ensures FirstAt(intern, callstack, fs, r, c, j, firsts'[r]) {
      if r in firsts {
        assert FirstAt(intern, callstack, fs, r, c, j + 1, firsts[r]);
      } else {
        assert On(fs, s, c, j);
        forall c': nat, j': nat | On(fs, s, c', j') ensures FartherOut(c, j, c', j') {
          assert !FartherOut(c', j', c, j + 1);
        }
        assert Outermost(fs, s, c, j);
      }
    }
  }

  lemma CallsJoined(a: multiset<(Sym, nat)>, b: multiset<(Sym, nat)>, c: multiset<(Sym, nat)>)
    ensures a + (b + c) == a + b + c
  {
  }

  lemma CallsNone(intern: Interned -> nat, callstack: nat, fs: seq<Frame>)
    ensures Calls(intern, callstack, fs, |fs|) == multiset{}
  {
  }

  lemma CallsFrame(intern: Interned -> nat, callstack: nat, fs: seq<Frame>, c: nat)
    requires c < |fs|
    ensures Calls(intern, callstack, fs, c) ==
            Calls(intern, callstack, fs, c + 1) + FrameCalls(intern, callstack, fs, c, 0)
    ensures FrameCalls(intern, callstack, fs, c, |fs[c]|) == multiset{}
  {
  }

  lemma FrameCallsStep(intern: Interned -> nat, callstack: nat, fs: seq<Frame>, c: nat, j: nat)
    requires c < |fs| && j < |fs[c]|
    ensures FrameCalls(intern, callstack, fs, c, j) ==
            FrameCalls(intern, callstack, fs, c, j + 1) +
            multiset{(fs[c][j], CallerOf(intern, callstack, fs, c, j))}
  {
  }

  // ---- the entries of one sample ---------------------------------------------------------------------------

  /** From a to b the calls have been entered, each as often as it is there, and for the symbols in firsts the call
      given there as not reentrant. */
  ghost predicate Traced(a: map<Sym, SymbolStats>, b: map<Sym, SymbolStats>, count: nat, calls: multiset<(Sym, nat)>,
                         firsts: map<Sym, nat>)
  {
    forall s :: TracedFor(StatsOf(a, s), StatsOf(b, s), s, count, calls, firsts)
  }

  ghost predicate TracedFor(a: SymbolStats, b: SymbolStats, s: Sym, count: nat, calls: multiset<(Sym, nat)>,
                            firsts: map<Sym, nat>)
  {
    (forall idx: nat :: ValueAt(b.wasReached, idx) == ValueAt(a.wasReached, idx) + count * calls[(s, idx)]) &&
    b.wasReachedNonReentrant == if s in firsts then Counted(a.wasReachedNonReentrant, firsts[s], count)
                                else a.wasReachedNonReentrant
  }

  lemma TracedNone(a: map<Sym, SymbolStats>, b: map<Sym, SymbolStats>, count: nat)
    requires SameEntries(a, b)
    ensures Traced(a, b, count, multiset{}, map[])
  {
  }

  lemma TracedOne(a: map<Sym, SymbolStats>, b: map<Sym, SymbolStats>, count: nat, calls: multiset<(Sym, nat)>,
                  firsts: map<Sym, nat>, s: Sym, idx: nat, base: nat, first: bool, executes: bool)
    requires Traced(a, b, count, calls, firsts) && s in b && first == (s !in firsts)
    ensures Traced(a, b[s := Entered(b[s], idx, base, count, first, executes)], count,
                   calls + multiset{(s, idx)}, WithFirst(firsts, s, idx))
  {
    hide TracedFor;
    var b' := b[s := Entered(b[s], idx, base, count, first, executes)];
    var calls', firsts' := calls + multiset{(s, idx)}, WithFirst(firsts, s, idx);
    forall r ensures TracedFor(StatsOf(a, r), StatsOf(b', r), r, count, calls', firsts') {
      assert TracedFor(StatsOf(a, r), StatsOf(b, r), r, count, calls, firsts);
      if r == s {
        TracedForOne(StatsOf(a, s), b[s], s, count, calls, firsts, idx, base, first, executes);
      } else {
        TracedForOther(StatsOf(a, r), StatsOf(b, r), r, count, calls, firsts, s, idx);
      }
    }
  }

  lemma TracedForOne(a: SymbolStats, b: SymbolStats, s: Sym, count: nat, calls: multiset<(Sym, nat)>,
                     firsts: map<Sym, nat>, idx: nat, base: nat, first: bool, executes: bool)
    requires TracedFor(a, b, s, count, calls, firsts) && first == (s !in firsts)
    ensures TracedFor(a, Entered(b, idx, base, count, first, executes), s, count, calls + multiset{(s, idx)},
                      WithFirst(firsts, s, idx))
  {
    var calls', r := calls + multiset{(s, idx)}, Entered(b, idx, base, count, first, executes);
    forall i: nat ensures ValueAt(r.wasReached, i) == ValueAt(a.wasReached, i) + count * calls'[(s, i)] {
      assert ValueAt(b.wasReached, i) == ValueAt(a.wasReached, i) + count * calls[(s, i)];
      if i == idx {
        OnceMore(count, calls[(s, idx)]);
      } else {
        assert calls'[(s, i)] == calls[(s, i)];
      }
    }
  }

  lemma TracedForOther(a: SymbolStats, b: SymbolStats, r: Sym, count: nat, calls: multiset<(Sym, nat)>,
                       firsts: map<Sym, nat>, s: Sym, idx: nat)
    requires TracedFor(a, b, r, count, calls, firsts) && r != s
    ensures TracedFor(a, b, r, count, calls + multiset{(s, idx)}, WithFirst(firsts, s, idx))
  {
    assert forall i: nat :: (calls + multiset{(s, idx)})[(r, i)] == calls[(r, i)];
  }

  /** From start to b the stack has been entered from place (c, j) outwards. */
  ghost predicate Entering(start: map<Sym, SymbolStats>, b: map<Sym, SymbolStats>, intern: Interned -> nat,
                           callstack: nat, fs: seq<Frame>, c: nat, j: nat, count: nat, met: multiset<Sym>, x: Execution,
                           done: bool, firsts: map<Sym, nat>)
    requires c < |fs| && j <= |fs[c]|
  {
    Noted(start, b, count, met + multiset(fs[c][j..]), x, done) &&
    Traced(start, b, count, Calls(intern, callstack, fs, c + 1) + FrameCalls(intern, callstack, fs, c, j), firsts) &&
    Firsts(intern, callstack, fs, c, j, firsts)
  }

  lemma EnteringFrame(start: map<Sym, SymbolStats>, b: map<Sym, SymbolStats>, intern: Interned -> nat, callstack: nat,
                      fs: seq<Frame>, c: nat, count: nat, met: multiset<Sym>, x: Execution, firsts: map<Sym, nat>)
    requires c < |fs| && Noted(start, b, count, met, x, false)
    requires Traced(start, b, count, Calls(intern, callstack, fs, c + 1), firsts)
    requires Firsts(intern, callstack, fs, c + 1, 0, firsts)
    ensures Entering(start, b, intern, callstack, fs, c, |fs[c]|, count, met, x, false, firsts)
  {
    hide Noted, Traced, Firsts, Calls, FrameCalls;
    FirstsFrame(intern, callstack, fs, c, firsts);
    CallsFrame(intern, callstack, fs, c);
    assert met + multiset(fs[c][|fs[c]|..]) == met;
    assert Calls(intern, callstack, fs, c + 1) + multiset{} == Calls(intern, callstack, fs, c + 1);
  }

  lemma EnteringStep(start: map<Sym, SymbolStats>, b: map<Sym, SymbolStats>, intern: Interned -> nat, callstack: nat,
                     fs: seq<Frame>, c: nat, j: nat, count: nat, met: multiset<Sym>, x: Execution,
                     firsts: map<Sym, nat>, idx: nat, base: nat, first: bool, executes: bool)
    requires c < |fs| && j < |fs[c]| && fs[c][j] in b && idx == CallerOf(intern, callstack, fs, c, j)
    requires Entering(start, b, intern, callstack, fs, c, j + 1, count, met, x, false, firsts)
    requires first == (fs[c][j] !in firsts) && (executes ==> x == Execution(fs[c][j], idx, base))
    ensures ghost var s := fs[c][j];
      Entering(start, b[s := Entered(b[s], idx, base, count, first, executes)], intern, callstack, fs, c, j, count,
               met, x, executes, WithFirst(firsts, s, idx))
  {
    hide Noted, Traced, Firsts, Calls, FrameCalls, CallerOf, Entered, WithFirst;
    var f, s, outer := fs[c], fs[c][j], Calls(intern, callstack, fs, c + 1);
    NotedOne(start, b, count, met + multiset(f[j + 1..]), x, s, idx, base, first, executes);
    MetFront(f, j, met);
    TracedOne(start, b, count, outer + FrameCalls(intern, callstack, fs, c, j + 1), firsts, s, idx, base, first,
              executes);
    FrameCallsStep(intern, callstack, fs, c, j);
    CallsJoined(outer, FrameCalls(intern, callstack, fs, c, j + 1), multiset{(s, idx)});
    FirstsStep(intern, callstack, fs, c, j, firsts);
  }

  lemma EnteringEnds(start: map<Sym, SymbolStats>, b: map<Sym, SymbolStats>, intern: Interned -> nat, callstack: nat,
                     fs: seq<Frame>, c: nat, count: nat, met: multiset<Sym>, x: Execution, done: bool,
                     firsts: map<Sym, nat>)
    requires c < |fs| && Entering(start, b, intern, callstack, fs, c, 0, count, met, x, done, firsts)
    ensures Noted(start, b, count, met + multiset(fs[c]), x, done)
    ensures Traced(start, b, count, Calls(intern, callstack, fs, c), firsts)
    ensures Firsts(intern, callstack, fs, c, 0, firsts)
  {
    hide Noted, Traced, Firsts, FrameCalls;
    assert fs[c][0..] == fs[c];
  }

  lemma MetFront(f: Frame, j: nat, met: multiset<Sym>)
    requires j < |f|
    ensures met + multiset(f[j + 1..]) + multiset{f[j]} == met + multiset(f[j..])
  {
    assert f[j..] == [f[j]] + f[j + 1..];
  }

  /** The entries of one whole stack: every symbol is entered once for each of its places, with what it was called from
      there, and as not reentrant with what it was called from at its outermost place. */
  ghost predicate Entries(a: map<Sym, SymbolStats>, b: map<Sym, SymbolStats>, intern: Interned -> nat, callstack: nat,
                          fs: seq<Frame>, count: nat)
  {
    forall s ::
      (forall idx: nat :: ValueAt(StatsOf(b, s).wasReached, idx) ==
                          ValueAt(StatsOf(a, s).wasReached, idx) + count * Calls(intern, callstack, fs, 0)[(s, idx)]) &&
      if s in Symbols(fs) then FirstEntry(StatsOf(a, s), StatsOf(b, s), intern, callstack, fs, s, count)
      else StatsOf(b, s).wasReachedNonReentrant == StatsOf(a, s).wasReachedNonReentrant
  }

  ghost predicate FirstEntry(a: SymbolStats, b: SymbolStats, intern: Interned -> nat, callstack: nat, fs: seq<Frame>,
                             s: Sym, count: nat)
  {
    exists c: nat, j: nat :: Outermost(fs, s, c, j) &&
      b.wasReachedNonReentrant == Counted(a.wasReachedNonReentrant, CallerOf(intern, callstack, fs, c, j), count)
  }

  lemma EntriesMade(a: map<Sym, SymbolStats>, b: map<Sym, SymbolStats>, intern: Interned -> nat, callstack: nat,
                    fs: seq<Frame>, count: nat, firsts: map<Sym, nat>)
    requires Traced(a, b, count, Calls(intern, callstack, fs, 0), firsts)
    requires Firsts(intern, callstack, fs, 0, 0, firsts)
    ensures Entries(a, b, intern, callstack, fs, count)
  {
    hide Calls, CallerOf, Counted;
    forall s
      ensures forall idx: nat :: ValueAt(StatsOf(b, s).wasReached, idx) ==
                ValueAt(StatsOf(a, s).wasReached, idx) + count * Calls(intern, callstack, fs, 0)[(s, idx)]
      ensures if s in Symbols(fs) then FirstEntry(StatsOf(a, s), StatsOf(b, s), intern, callstack, fs, s, count)
              else StatsOf(b, s).wasReachedNonReentrant == StatsOf(a, s).wasReachedNonReentrant
    {
      assert TracedFor(StatsOf(a, s), StatsOf(b, s), s, count, Calls(intern, callstack, fs, 0), firsts);
      if s in Symbols(fs) {
        var c, j :| 0 <= c < |fs| && 0 <= j < |fs[c]| && fs[c][j] == s;
        assert On(fs, s, c, j) && FartherOut(c, j, 0, 0);
      }
      if s in firsts {
        assert FirstAt(intern, callstack, fs, s, 0, 0, firsts[s]);
        var c: nat, j: nat :| Outermost(fs, s, c, j) && FartherOut(c, j, 0, 0) &&
          firsts[s] == CallerOf(intern, callstack, fs, c, j);
        assert fs[c][j] == s;
      }
    }
  }

  /** A symbol has one outermost place. */
  lemma OutermostOnce(fs: seq<Frame>, s: Sym, c: nat, j: nat, c': nat, j': nat)
    requires Outermost(fs, s, c, j) && Outermost(fs, s, c', j')
    ensures c == c' && j == j'
  {
  }

  /** No entry count differs. */
  ghost predicate SameEntries(a: map<Sym, SymbolStats>, b: map<Sym, SymbolStats>) {
    forall s :: StatsOf(b, s).wasReached == StatsOf(a, s).wasReached &&
                StatsOf(b, s).wasReachedNonReentrant == StatsOf(a, s).wasReachedNonReentrant &&
                StatsOf(b, s).wasExecuting == StatsOf(a, s).wasExecuting &&
                StatsOf(b, s).wasExecutingBase == StatsOf(a, s).wasExecutingBase
  }

  /** Where the executing symbol s was called from: idx, or base beside the frames inlined in its own. */
  datatype Execution = Execution(s: Sym, idx: nat, base: nat)

  /** From a to b the symbols in met have been entered, each as often as it is there, and the executing symbol has
      got its two entries if done says so. */
  ghost predicate Noted(a: map<Sym, SymbolStats>, b: map<Sym, SymbolStats>, count: nat, met: multiset<Sym>,
                        x: Execution, done: bool)
  {
    forall s :: NotedFor(StatsOf(a, s), StatsOf(b, s), count * met[s], count, x, done && s == x.s)
  }

  ghost predicate NotedFor(a: SymbolStats, b: SymbolStats, reached: nat, count: nat, x: Execution, executed: bool) {
    Sum(b.wasReached) == Sum(a.wasReached) + reached &&
    b.wasExecuting == (if executed then Counted(a.wasExecuting, x.idx, count) else a.wasExecuting) &&
    b.wasExecutingBase == if executed then Counted(a.wasExecutingBase, x.base, count) else a.wasExecutingBase
  }

  lemma NotedNone(a: map<Sym, SymbolStats>, b: map<Sym, SymbolStats>, count: nat, x: Execution)
    requires SameEntries(a, b)
    ensures Noted(a, b, count, multiset{}, x, false)
  {
  }

  lemma NotedOne(a: map<Sym, SymbolStats>, b: map<Sym, SymbolStats>, count: nat, met: multiset<Sym>, x: Execution,
                 s: Sym, idx: nat, base: nat, first: bool, executes: bool)
    requires Noted(a, b, count, met, x, false) && s in b && (executes ==> x == Execution(s, idx, base))
    ensures Noted(a, b[s := Entered(b[s], idx, base, count, first, executes)], count, met + multiset{s}, x, executes)
  {
    hide Sum, NotedFor;
    var b' := b[s := Entered(b[s], idx, base, count, first, executes)];
    forall r
      ensures NotedFor(StatsOf(a, r), StatsOf(b', r), count * (met + multiset{s})[r], count, x, executes && r == x.s)
    {
      assert NotedFor(StatsOf(a, r), StatsOf(b, r), count * met[r], count, x, false);
      if r == s {
        OnceMore(count, met[s]);
        NotedForOne(StatsOf(a, s), b[s], count * met[s], count, x, idx, base, first, executes);
      }
    }
  }

  lemma NotedForOne(a: SymbolStats, b: SymbolStats, reached: nat, count: nat, x: Execution, idx: nat, base: nat,
                    first: bool, executes: bool)
    requires NotedFor(a, b, reached, count, x, false) && (executes ==> x.idx == idx && x.base == base)
    ensures NotedFor(a, Entered(b, idx, base, count, first, executes), reached + count, count, x, executes)
  {
    SumCounted(b.wasReached, idx, count);
  }

  lemma OnceMore(count: nat, n: nat)
    ensures count * (n + 1) == count * n + count
  {
  }

  function Entered(r: SymbolStats, idx: nat, base: nat, count: nat, first: bool, executes: bool): SymbolStats {
    var reached := r.(wasReached := Counted(r.wasReached, idx, count));
    var once :=
      if first then reached.(wasReachedNonReentrant := Counted(r.wasReachedNonReentrant, idx, count)) else reached;
    if executes then once.(wasExecuting := Counted(r.wasExecuting, idx, count),
                           wasExecutingBase := Counted(r.wasExecutingBase, base, count))
    else once
  }

  class Samples {
    /** The known frames, the call stacks, and what stacks below a frame are interned as. */
    var frames: map<nat, Frame>
    const callstacks: map<nat, seq<nat>>
    const intern: Interned -> nat
    var symbolStats: map<Sym, SymbolStats>
    var postponed: map<nat, nat>
    /** The samples taken, and those of them dropped for an unknown frame. */
    ghost var total: nat
    ghost var lost: nat

    /** Every sample taken is either charged to a symbol, postponed or lost, once. */
    ghost predicate Valid()
      reads this
    {
      AllBalanced(symbolStats) && TotalExcl(symbolStats) + Sum(postponed) + lost == total &&
      (forall c :: c in callstacks ==> callstacks[c] != []) && (forall f :: f in frames ==> frames[f] != []) &&
      (forall c :: c in postponed ==> c in callstacks)
    }

    constructor (callstacks: map<nat, seq<nat>>, intern: Interned -> nat)
      requires forall c :: c in callstacks ==> callstacks[c] != []
      ensures Valid() && total == 0 && lost == 0 && symbolStats == map[] && postponed == map[] &&
        this.callstacks == callstacks
    {
      this.callstacks, this.intern := callstacks, intern;
      frames, symbolStats, postponed, total, lost := map[], map[], map[], 0, 0;
    }

    predicate Known(callstack: nat)
      requires callstack in callstacks
      reads this`frames
    {
      forall i :: 0 <= i < |callstacks[callstack]| ==> callstacks[callstack][i] in frames
    }

    /** A frame becomes known. */
    method AddFrame(id: nat, f: Frame)
      requires Valid() && f != []
      modifies this`frames
      ensures Valid() && frames == old(frames)[id := f]
    {
      frames := frames[id := f];
    }

    /** The frames of a stack all of whose frames are known. */
    function StackOf(callstack: nat): (fs: seq<Frame>)
      requires callstack in callstacks && Known(callstack)
      reads this`frames
      ensures |fs| == |callstacks[callstack]| && forall i :: 0 <= i < |fs| ==> fs[i] == frames[callstacks[callstack][i]]
    {
      var known, cs := frames, callstacks[callstack];
      seq(|cs|, i requires 0 <= i < |cs| && cs[i] in known => known[cs[i]])
    }

    /** The frames of a stack, or none as soon as one is unknown. */
    method FramesOf(callstack: nat) returns (known: bool, fs: seq<Frame>)
      requires Valid() && callstack in callstacks
      ensures known == Known(callstack)
      ensures known ==> fs == StackOf(callstack) && fs != [] && forall i :: 0 <= i < |fs| ==> fs[i] != []
    {
      hide AllBalanced, TotalExcl, Sum;
      var cs := callstacks[callstack];
      fs := [];
      for i := 0 to |cs|
        invariant |fs| == i && forall j :: 0 <= j < i ==> cs[j] in frames && fs[j] == frames[cs[j]] != []
      {
        if cs[i] !in frames {
          return false, [];
        }
        fs := fs + [frames[cs[i]]];
      }
      known := true;
    }

    /** UpdateSampleStatistics: counts now if all frames are known; otherwise postpones, if it may. Samples are lost
        exactly when it may not. */
    method UpdateSampleStatistics(callstack: nat, count: nat, canPostpone: bool) returns (counted: bool)
      requires Valid() && callstack in callstacks
      modifies this`symbolStats, this`postponed, this`total, this`lost
      ensures Valid() && counted == old(Known(callstack))
      ensures total == old(total) + count && lost == old(lost) + if counted || canPostpone then 0 else count
      ensures !counted ==> symbolStats == old(symbolStats)
      ensures counted ==>
        Charged(old(symbolStats), symbolStats, callstack, old(StackOf(callstack)),
                count + if canPostpone then old(ValueAt(postponed, callstack)) else 0)
      ensures postponed == if !canPostpone then old(postponed)
                           else if counted then old(postponed) - {callstack}
                           else Counted(old(postponed), callstack, count)
    {
      hide AllBalanced, TotalExcl, Sum, Symbols, Known, Charged;
      var fs;
      counted, fs := FramesOf(callstack);
      total := total + count;
      if !counted {
        if canPostpone {
          SumCounted(postponed, callstack, count);
          postponed := Counted(postponed, callstack, count);
        } else {
          lost := lost + count;
        }
        return;
      }
      var n := count;
      if canPostpone {
        if callstack in postponed {
          SumWithout(postponed, callstack);
          n := n + postponed[callstack];
        }
        assert callstack !in postponed ==> postponed - {callstack} == postponed;
        postponed := postponed - {callstack};
      }
      Charge(callstack, fs, n);
    }

    /** One stack after the other has been charged, each with the count it had been postponed with. */
    ghost predicate InTurn(stages: seq<map<Sym, SymbolStats>>, handled: seq<nat>, counts: map<nat, nat>)
      reads this`frames
    {
      |stages| == |handled| + 1 &&
      forall k :: 0 <= k < |handled| ==> ChargedNext(stages[k], stages[k + 1], handled[k], counts)
    }

    ghost predicate ChargedNext(a: map<Sym, SymbolStats>, b: map<Sym, SymbolStats>, c: nat, counts: map<nat, nat>)
      reads this`frames
    {
      c in callstacks && c in counts && Known(c) && Charged(a, b, c, StackOf(c), counts[c])
    }

    /** The stacks handled so far are those with all frames known, each once; the others stay as they are. */
    ghost predicate Sorted(handled: seq<nat>, before: map<nat, nat>, now: map<nat, nat>, left: map<nat, nat>)
      reads this`frames
    {
      left.Keys <= now.Keys <= before.Keys && (forall c :: c in now ==> now[c] == before[c]) &&
      (forall c :: c in before && c !in left && c in callstacks ==> (c in now <==> !Known(c))) &&
      (forall k :: 0 <= k < |handled| ==> handled[k] in before && handled[k] !in now) &&
      (forall j, k :: 0 <= j < k < |handled| ==> handled[j] != handled[k]) &&
      forall c :: c in before && c !in now ==> c in handled
    }

    lemma SortedStart(before: map<nat, nat>)
      ensures Sorted([], before, before, before)
    {
    }

    lemma SortedStep(handled: seq<nat>, before: map<nat, nat>, now: map<nat, nat>, left: map<nat, nat>, c: nat)
      requires Sorted(handled, before, now, left) && c in left && c in callstacks
      ensures Known(c) ==> Sorted(handled + [c], before, now - {c}, left - {c})
      ensures !Known(c) ==> Sorted(handled, before, now, left - {c})
    {
      assert (handled + [c])[|handled|] == c;
      if Known(c) {
        forall d | d in before && d !in now - {c} ensures d in handled + [c] {
          if d != c {
            assert d in handled;
          }
        }
      }
    }

    /** HandlePostponedSamples: counts every postponed stack whose frames are all known by now. */
    method HandlePostponedSamples() returns (ghost handled: seq<nat>, ghost stages: seq<map<Sym, SymbolStats>>)
      requires Valid()
      modifies this`symbolStats, this`postponed
      ensures Valid() && total == old(total)
      ensures forall c :: c in postponed <==> c in old(postponed) && c in callstacks && !Known(c)
      ensures forall c :: c in postponed ==> postponed[c] == old(postponed)[c]
      ensures forall c :: c in old(postponed) && c !in postponed <==> c in handled
      ensures forall j, k :: 0 <= j < k < |handled| ==> handled[j] != handled[k]
      ensures InTurn(stages, handled, old(postponed))
      ensures stages[0] == old(symbolStats) && stages[|handled|] == symbolStats
    {
      hide AllBalanced, TotalExcl, Sum, Known, Charged, Sorted;
      var left := postponed;
      handled, stages := [], [symbolStats];
      SortedStart(postponed);
      while left != map[]
        invariant Valid() && Sorted(handled, old(postponed), postponed, left)
        invariant InTurn(stages, handled, old(postponed))
        invariant stages[0] == old(symbolStats) && stages[|handled|] == symbolStats
        decreases left.Keys
      {
        var c :| c in left;
        ghost var rest, now, stats := left.Keys, postponed, symbolStats;
        SortedBounds(handled, old(postponed), postponed, left);
        SortedStep(handled, old(postponed), postponed, left, c);
        UpdatePostponed(c);
        left := left - {c};
        assert left.Keys == rest - {c};
        if Known(c) {
          InTurnMore(stages, handled, old(postponed), c, symbolStats);
          handled, stages := handled + [c], stages + [symbolStats];
        }
      }
      SortedEnd(handled, old(postponed), postponed);
    }

    lemma SortedBounds(handled: seq<nat>, before: map<nat, nat>, now: map<nat, nat>, left: map<nat, nat>)
      requires Sorted(handled, before, now, left)
      ensures left.Keys <= now.Keys <= before.Keys && forall c :: c in now ==> now[c] == before[c]
    {
    }

    lemma SortedEnd(handled: seq<nat>, before: map<nat, nat>, now: map<nat, nat>)
      requires Sorted(handled, before, now, map[])
      ensures now.Keys <= before.Keys && (forall c :: c in now ==> now[c] == before[c])
      ensures forall c :: c in before && c in callstacks ==> (c in now <==> !Known(c))
      ensures forall c :: c in before && c !in now <==> c in handled
      ensures forall j, k :: 0 <= j < k < |handled| ==> handled[j] != handled[k]
    {
    }

    lemma InTurnMore(stages: seq<map<Sym, SymbolStats>>, handled: seq<nat>, counts: map<nat, nat>, c: nat,
                     stats: map<Sym, SymbolStats>)
      requires InTurn(stages, handled, counts) && ChargedNext(stages[|handled|], stats, c, counts)
      ensures InTurn(stages + [stats], handled + [c], counts)
    {
    }

    /** UpdateSampleStatisticsPostponed */
    method UpdatePostponed(callstack: nat)
      requires Valid() && callstack in postponed
      modifies this`symbolStats, this`postponed
      ensures Valid()
      ensures callstack in callstacks
      ensures postponed == if old(Known(callstack)) then old(postponed) - {callstack} else old(postponed)
      ensures if old(Known(callstack))
              then Charged(old(symbolStats), symbolStats, callstack, old(StackOf(callstack)), old(postponed[callstack]))
              else symbolStats == old(symbolStats)
    {
      hide AllBalanced, TotalExcl, Sum, Symbols, Known, Charged;
      var known, fs := FramesOf(callstack);
      if known {
        SumWithout(postponed, callstack);
        var count := postponed[callstack];
        postponed := postponed - {callstack};
        Charge(callstack, fs, count);
      }
    }

    /** From a to b one stack has been charged count times: its innermost symbol was executing, every symbol on it was
        reached, once however often it is on it, and has got as many entries as it is on it. */
    ghost predicate Charged(a: map<Sym, SymbolStats>, b: map<Sym, SymbolStats>, callstack: nat, fs: seq<Frame>,
                            count: nat)
    {
      fs != [] && fs[0] != [] &&
      (forall s :: StatsOf(b, s).excl == StatsOf(a, s).excl + if s == fs[0][0] then count else 0) &&
      (forall s :: StatsOf(b, s).incl == StatsOf(a, s).incl + if s in Symbols(fs) then count else 0) &&
      Entries(a, b, intern, callstack, fs, count) &&
      Noted(a, b, count, Occurrences(fs),
            Execution(fs[0][0], CallerOf(intern, callstack, fs, 0, 0), intern(Interned(callstack, 1, []))), true)
    }

    /** UpdateSampleStatisticsImpl */
    method Charge(callstack: nat, fs: seq<Frame>, count: nat)
      requires AllBalanced(symbolStats) && fs != [] && forall i :: 0 <= i < |fs| ==> fs[i] != []
      modifies this`symbolStats
      ensures AllBalanced(symbolStats) && TotalExcl(symbolStats) == old(TotalExcl(symbolStats)) + count
      ensures Charged(old(symbolStats), symbolStats, callstack, fs, count)
    {
      hide Halfway, AllBalanced, TotalExcl, Sum, Symbols, SameTotals, SameEntries, Noted, Occurrences, Entries;
      ghost var before := symbolStats;
      HalfwayStart(symbolStats, count);
      Inclusive(fs, count);
      ghost var middle := symbolStats;
      EnterCallers(callstack, fs, count, before);
      SameSums(middle, symbolStats);
      HalfwayEnd(symbolStats, count);
    }

    /** The first pass: exclusive and inclusive counts. */
    method Inclusive(fs: seq<Frame>, count: nat)
      requires Halfway(symbolStats, count, {}, {}) && fs != [] && forall i :: 0 <= i < |fs| ==> fs[i] != []
      modifies this`symbolStats
      ensures Halfway(symbolStats, count, Symbols(fs), {fs[0][0]})
      ensures TotalExcl(symbolStats) == old(TotalExcl(symbolStats)) + count
      ensures forall s :: StatsOf(symbolStats, s).excl ==
                          old(StatsOf(symbolStats, s).excl) + if s == fs[0][0] then count else 0
      ensures forall s :: StatsOf(symbolStats, s).incl ==
                          old(StatsOf(symbolStats, s).incl) + if s in Symbols(fs) then count else 0
      ensures SameEntries(old(symbolStats), symbolStats)
    {
      hide Halfway, TotalExcl, Sum, Symbols, FrameSymbols, SameEntries;
      var s0 := fs[0][0];
      var r := StatsOf(symbolStats, s0);
      ExecutingStarted(symbolStats, count, s0);
      TotalExclChanged(symbolStats, s0, r.(excl := r.excl + count, incl := r.incl + count));
      ghost var before := symbolStats;
      EntriesKept(before, before, s0, r.excl + count, r.incl + count);
      symbolStats := symbolStats[s0 := r.(excl := r.excl + count, incl := r.incl + count)];
      var seen := {s0};
      SymbolsStart(fs);
      for i := 0 to |fs|
        invariant seen == Symbols(fs[..i]) + {s0} && Halfway(symbolStats, count, seen, {s0})
        invariant TotalExcl(symbolStats) == old(TotalExcl(symbolStats)) + count
        invariant forall s :: StatsOf(symbolStats, s).excl == StatsOf(before, s).excl + if s == s0 then count else 0
        invariant forall s :: StatsOf(symbolStats, s).incl == StatsOf(before, s).incl + if s in seen then count else 0
        invariant SameEntries(before, symbolStats)
      {
        seen := IncludeFrame(fs[i], count, seen, s0, before);
        SymbolsSnoc(fs, i);
      }
      SymbolsAll(fs);
      assert Symbols(fs) + {s0} == Symbols(fs);
    }

    /** One frame of the first pass: each symbol not seen before is counted. */
    method IncludeFrame(f: Frame, count: nat, seen0: set<Sym>, ghost s0: Sym, ghost before: map<Sym, SymbolStats>)
      returns (seen: set<Sym>)
      requires Halfway(symbolStats, count, seen0, {s0}) && SameEntries(before, symbolStats)
      modifies this`symbolStats
      ensures seen == seen0 + FrameSymbols(f, |f|) && Halfway(symbolStats, count, seen, {s0})
      ensures TotalExcl(symbolStats) == old(TotalExcl(symbolStats))
      ensures forall s :: StatsOf(symbolStats, s).excl == old(StatsOf(symbolStats, s).excl)
      ensures forall s :: StatsOf(symbolStats, s).incl ==
                          old(StatsOf(symbolStats, s).incl) + if s in seen && s !in seen0 then count else 0
      ensures SameEntries(before, symbolStats)
    {
      hide Halfway, TotalExcl, Sum, SameEntries;
      seen := seen0;
      for j := 0 to |f|
        invariant seen == seen0 + FrameSymbols(f, j) && Halfway(symbolStats, count, seen, {s0})
        invariant TotalExcl(symbolStats) == old(TotalExcl(symbolStats))
        invariant forall s :: StatsOf(symbolStats, s).excl == old(StatsOf(symbolStats, s).excl)
        invariant forall s :: StatsOf(symbolStats, s).incl ==
                              old(StatsOf(symbolStats, s).incl) + if s in seen && s !in seen0 then count else 0
        invariant SameEntries(before, symbolStats)
      {
        assert FrameSymbols(f, j + 1) == FrameSymbols(f, j) + {f[j]};
        if f[j] in seen {
          continue;
        }
        var r := StatsOf(symbolStats, f[j]);
        Reached(symbolStats, count, seen, {s0}, f[j]);
        TotalExclChanged(symbolStats, f[j], r.(incl := r.incl + count));
        EntriesKept(before, symbolStats, f[j], r.excl, r.incl + count);
        symbolStats := symbolStats[f[j] := r.(incl := r.incl + count)];
        seen := seen + {f[j]};
      }
    }

    lemma EntriesKept(a: map<Sym, SymbolStats>, b: map<Sym, SymbolStats>, s: Sym, excl: nat, incl: nat)
      requires a == b || SameEntries(a, b)
      ensures SameEntries(a, b[s := StatsOf(b, s).(excl := excl, incl := incl)])
    {
      var b' := b[s := StatsOf(b, s).(excl := excl, incl := incl)];
      forall r ensures StatsOf(b', r) == if r == s then b'[s] else StatsOf(b, r) {
      }
    }

    lemma ExecutingStarted(stats: map<Sym, SymbolStats>, count: nat, s: Sym)
      requires Halfway(stats, count, {}, {})
      ensures ghost var r := StatsOf(stats, s);
        Halfway(stats[s := r.(excl := r.excl + count, incl := r.incl + count)], count, {s}, {s})
    {
    }

    lemma Reached(stats: map<Sym, SymbolStats>, count: nat, pending: set<Sym>, executing: set<Sym>, s: Sym)
      requires Halfway(stats, count, pending, executing) && s !in pending
      ensures ghost var r := StatsOf(stats, s);
        Halfway(stats[s := r.(incl := r.incl + count)], count, pending + {s}, executing)
    {
    }

    lemma SymbolsStart(fs: seq<Frame>)
      ensures Symbols(fs[..0]) == {}
    {
    }

    lemma SymbolsSnoc(fs: seq<Frame>, i: nat)
      requires i < |fs|
      ensures Symbols(fs[..i + 1]) == Symbols(fs[..i]) + FrameSymbols(fs[i], |fs[i]|)
    {
      var x, y := Symbols(fs[..i + 1]), Symbols(fs[..i]) + FrameSymbols(fs[i], |fs[i]|);
      forall s | s in y ensures s in x {
        if s in Symbols(fs[..i]) {
          var a, b :| 0 <= a < i && 0 <= b < |fs[..i][a]| && fs[..i][a][b] == s;
          assert fs[..i + 1][a][b] == s;
        } else {
          var b :| 0 <= b < |fs[i]| && fs[i][b] == s;
          assert fs[..i + 1][i][b] == s;
        }
      }
      forall s | s in x ensures s in y {
        var a, b :| 0 <= a < i + 1 && 0 <= b < |fs[..i + 1][a]| && fs[..i + 1][a][b] == s;
        if a < i {
          assert fs[..i][a][b] == s;
        }
      }
    }

    lemma SymbolsAll(fs: seq<Frame>)
      requires fs != [] && fs[0] != []
      ensures fs[..|fs|] == fs && fs[0][0] in Symbols(fs)
    {
    }

    /** The second pass, from the outermost frame in: what the symbols were called from. A symbol's first entry counts
        as not reentrant; the innermost symbol was executing. */
    method EnterCallers(callstack: nat, fs: seq<Frame>, count: nat, ghost start: map<Sym, SymbolStats>)
      requires fs != [] && (forall i :: 0 <= i < |fs| ==> fs[i] != []) &&
        Halfway(symbolStats, count, Symbols(fs), {fs[0][0]})
      requires SameEntries(start, symbolStats)
      modifies this`symbolStats
      ensures Halfway(symbolStats, count, {}, {}) && SameTotals(old(symbolStats), symbolStats)
      ensures Noted(start, symbolStats, count, Occurrences(fs),
                    Execution(fs[0][0], CallerOf(intern, callstack, fs, 0, 0),
                              intern(Interned(callstack, 1, []))), true)
      ensures Entries(start, symbolStats, intern, callstack, fs, count)
    {
      hide Halfway, Sum, Symbols, FrameTail, SameTotals, SameEntries, Noted, Occurrences, Traced, Firsts, Calls,
        Entries;
      PendingStats(symbolStats, count, Symbols(fs), {fs[0][0]});
      SameAlready(symbolStats);
      ghost var before := symbolStats;
      ghost var x := Execution(fs[0][0], CallerOf(intern, callstack, fs, 0, 0), intern(Interned(callstack, 1, [])));
      NotedNone(start, before, count, x);
      TracedNone(start, before, count);
      ghost var firsts: map<Sym, nat> := map[];
      FirstsNone(intern, callstack, fs);
      var suffixIdx := intern(Interned(callstack, |fs|, []));
      var seen := {};
      SymbolsNone(fs);
      SymbolsMinus(fs, {});
      OccurrencesNone(fs);
      CallsNone(intern, callstack, fs);
      for c := |fs| downto 0
        invariant seen == Symbols(fs[c..]) && Symbols(fs) <= symbolStats.Keys
        invariant Halfway(symbolStats, count, Symbols(fs) - seen, if c == 0 then {} else {fs[0][0]})
        invariant SameTotals(before, symbolStats) && (c > 0 ==> suffixIdx == intern(Interned(callstack, c, [])))
        invariant Noted(start, symbolStats, count, Occurrences(fs[c..]), x, c == 0)
        invariant Traced(start, symbolStats, count, Calls(intern, callstack, fs, c), firsts)
        invariant Firsts(intern, callstack, fs, c, 0, firsts) && firsts.Keys == seen
      {
        SymbolsFront(fs, c);
        FrameIn(fs, c);
        OccurrencesFront(fs, c);
        ghost var middle := symbolStats;
        seen, firsts :=
          FrameEntries(callstack, fs, c, count, suffixIdx, seen, start, Occurrences(fs[c + 1..]), firsts);
        SameChained(before, middle, symbolStats);
        if c > 0 {
          suffixIdx := intern(Interned(callstack, c, []));
        }
      }
      assert fs[0..] == fs && Symbols(fs) - Symbols(fs) == {};
      EntriesMade(start, symbolStats, intern, callstack, fs, count, firsts);
    }

    /** The entries for the symbols of one frame, outermost inlined one first. */
    method FrameEntries(callstack: nat, fs: seq<Frame>, c: nat, count: nat, suffixIdx: nat, seen0: set<Sym>,
                        ghost start: map<Sym, SymbolStats>, ghost met0: multiset<Sym>, ghost firsts0: map<Sym, nat>)
      returns (seen: set<Sym>, ghost firsts: map<Sym, nat>)
      requires c < |fs| && fs[c] != [] && fs[0] != [] && FrameTail(fs[c], 0) <= Symbols(fs) <= symbolStats.Keys
      requires Halfway(symbolStats, count, Symbols(fs) - seen0, {fs[0][0]})
      requires suffixIdx == intern(Interned(callstack, c + 1, []))
      requires Noted(start, symbolStats, count, met0,
                     Execution(fs[0][0], CallerOf(intern, callstack, fs, 0, 0),
                               intern(Interned(callstack, 1, []))), false)
      requires Traced(start, symbolStats, count, Calls(intern, callstack, fs, c + 1), firsts0)
      requires Firsts(intern, callstack, fs, c + 1, 0, firsts0) && firsts0.Keys == seen0
      modifies this`symbolStats
      ensures seen == seen0 + FrameTail(fs[c], 0) && Symbols(fs) <= symbolStats.Keys
      ensures Halfway(symbolStats, count, Symbols(fs) - seen, if c == 0 then {} else {fs[0][0]})
      ensures SameTotals(old(symbolStats), symbolStats)
      ensures Noted(start, symbolStats, count, met0 + multiset(fs[c]),
                    Execution(fs[0][0], CallerOf(intern, callstack, fs, 0, 0),
                              intern(Interned(callstack, 1, []))), c == 0)
      ensures Traced(start, symbolStats, count, Calls(intern, callstack, fs, c), firsts)
      ensures Firsts(intern, callstack, fs, c, 0, firsts) && firsts.Keys == seen
    {
      hide Halfway, Symbols, SameTotals, Noted, Traced, Firsts, Calls, FrameCalls, Entering, Entered, WithFirst;
      var f := fs[c];
      seen, firsts := seen0, firsts0;
      SameAlready(symbolStats);
      ghost var before := symbolStats;
      ghost var x := Execution(fs[0][0], CallerOf(intern, callstack, fs, 0, 0), intern(Interned(callstack, 1, [])));
      EnteringFrame(start, symbolStats, intern, callstack, fs, c, count, met0, x, firsts);
      assert seen0 + FrameTail(f, |f|) == seen0;
      for j := |f| downto 0
        invariant seen == seen0 + FrameTail(f, j) && Symbols(fs) <= symbolStats.Keys && firsts.Keys == seen
        invariant Halfway(symbolStats, count, Symbols(fs) - seen, if c == 0 && j == 0 then {} else {fs[0][0]})
        invariant SameTotals(before, symbolStats)
        invariant Entering(start, symbolStats, intern, callstack, fs, c, j, count, met0, x, c == 0 && j == 0, firsts)
      {
        var s := f[j];
        assert s in FrameTail(f, 0);
        assert FrameTail(f, j) == FrameTail(f, j + 1) + {s};
        var idx := if j == |f| - 1 then suffixIdx else intern(Interned(callstack, c + 1, f[j + 1..]));
        assert j == |f| - 1 ==> f[j + 1..] == [];
        var first := s !in seen;
        var executes := c == 0 && j == 0;
        EntryKeeps(symbolStats, count, Symbols(fs) - seen, {fs[0][0]}, s, idx, suffixIdx, first, executes);
        EnteringStep(start, symbolStats, intern, callstack, fs, c, j, count, met0, x, firsts, idx, suffixIdx, first,
                     executes);
        WithFirstKeys(firsts, s, idx);
        ghost var middle := symbolStats;
        symbolStats := symbolStats[s := Entered(symbolStats[s], idx, suffixIdx, count, first, executes)];
        SameChained(before, middle, symbolStats);
        EntryRest(Symbols(fs), seen, s, first);
        ExecutingRest(fs[0][0], s, executes);
        firsts := WithFirst(firsts, s, idx);
        seen := seen + {s};
      }
      EnteringEnds(start, symbolStats, intern, callstack, fs, c, count, met0, x, c == 0, firsts);
    }

    lemma WithFirstKeys(firsts: map<Sym, nat>, s: Sym, idx: nat)
      ensures WithFirst(firsts, s, idx).Keys == firsts.Keys + {s}
    {
    }

    lemma OccurrencesFront(fs: seq<Frame>, c: nat)
      requires c < |fs|
      ensures Occurrences(fs[c..]) == Occurrences(fs[c + 1..]) + multiset(fs[c])
    {
      assert fs[c..][0] == fs[c] && fs[c..][1..] == fs[c + 1..];
    }

    lemma OccurrencesNone(fs: seq<Frame>)
      ensures Occurrences(fs[|fs|..]) == multiset{}
    {
    }

    lemma EntryRest(all: set<Sym>, seen: set<Sym>, s: Sym, first: bool)
      requires first == (s !in seen)
      ensures (all - seen) - (if first then {s} else {}) == all - (seen + {s})
    {
    }

    lemma ExecutingRest(s0: Sym, s: Sym, executes: bool)
      requires executes ==> s == s0
      ensures {s0} - (if executes then {s} else {}) == if executes then {} else {s0}
    {
    }

    function FrameTail(f: Frame, n: nat): (r: set<Sym>) {
      set j | n <= j < |f| :: f[j]
    }

    /** The symbols' totals are as they were. */
    ghost predicate SameTotals(a: map<Sym, SymbolStats>, b: map<Sym, SymbolStats>) {
      a.Keys == b.Keys && forall s :: s in a ==> a[s].incl == b[s].incl && a[s].excl == b[s].excl
    }

    lemma SameAlready(a: map<Sym, SymbolStats>)
      ensures SameTotals(a, a)
    {
    }

    lemma SameChained(a: map<Sym, SymbolStats>, b: map<Sym, SymbolStats>, c: map<Sym, SymbolStats>)
      requires SameTotals(a, b) && SameTotals(b, c)
      ensures SameTotals(a, c)
    {
    }

    lemma SameSums(a: map<Sym, SymbolStats>, b: map<Sym, SymbolStats>)
      requires SameTotals(a, b)
      ensures TotalExcl(a) == TotalExcl(b)
      ensures forall s :: StatsOf(a, s).incl == StatsOf(b, s).incl && StatsOf(a, s).excl == StatsOf(b, s).excl
    {
      assert Excls(a) == Excls(b);
    }

    lemma EntryKeeps(stats: map<Sym, SymbolStats>, count: nat, pending: set<Sym>, executing: set<Sym>, s: Sym, idx: nat,
                     base: nat, first: bool, executes: bool)
      requires Halfway(stats, count, pending, executing) && s in stats
      requires (first ==> s in pending) && (executes ==> s in executing)
      ensures ghost var after := stats[s := Entered(stats[s], idx, base, count, first, executes)];
        SameTotals(stats, after) && after.Keys == stats.Keys &&
        Halfway(after, count, pending - (if first then {s} else {}), executing - if executes then {s} else {})
    {
      hide HalfBalanced;
      EnteredBalanced(stats[s], count, s in pending, s in executing, idx, base, first, executes);
    }

    lemma EnteredBalanced(r: SymbolStats, count: nat, entry: bool, executing: bool, idx: nat, base: nat, first: bool,
                          executes: bool)
      requires HalfBalanced(r, count, entry, executing) && (first ==> entry) && (executes ==> executing)
      ensures HalfBalanced(Entered(r, idx, base, count, first, executes), count, entry && !first, executing &&
                           !executes)
    {
      hide Sum, Counted;
      SumCounted(r.wasReachedNonReentrant, idx, count);
      SumCounted(r.wasExecuting, idx, count);
      SumCounted(r.wasExecutingBase, base, count);
    }

    lemma PendingStats(stats: map<Sym, SymbolStats>, count: nat, pending: set<Sym>, executing: set<Sym>)
      requires Halfway(stats, count, pending, executing)
      ensures pending <= stats.Keys
    {
    }

    lemma SymbolsNone(fs: seq<Frame>)
      ensures Symbols(fs[|fs|..]) == {}
    {
    }

    lemma SymbolsMinus(fs: seq<Frame>, s: set<Sym>)
      requires s == {}
      ensures Symbols(fs) - s == Symbols(fs)
    {
    }

    lemma FrameIn(fs: seq<Frame>, c: nat)
      requires c < |fs|
      ensures FrameTail(fs[c], 0) <= Symbols(fs)
    {
    }

    lemma SymbolsFront(fs: seq<Frame>, c: nat)
      requires c < |fs|
      ensures Symbols(fs[c..]) == Symbols(fs[c + 1..]) + FrameTail(fs[c], 0)
    {
      var x, y := Symbols(fs[c..]), Symbols(fs[c + 1..]) + FrameTail(fs[c], 0);
      forall s | s in y ensures s in x {
        if s in FrameTail(fs[c], 0) {
          var b :| 0 <= b < |fs[c]| && fs[c][b] == s;
          assert fs[c..][0][b] == s;
        } else {
          var a, b :| 0 <= a < |fs[c + 1..]| && 0 <= b < |fs[c + 1..][a]| && fs[c + 1..][a][b] == s;
          assert fs[c..][a + 1][b] == s;
        }
      }
      forall s | s in x ensures s in y {
        var a, b :| 0 <= a < |fs[c..]| && 0 <= b < |fs[c..][a]| && fs[c..][a][b] == s;
        if a > 0 {
          assert fs[c + 1..][a - 1][b] == s;
        }
      }
    }
  }
}
