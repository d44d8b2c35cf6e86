/** Edit scripts: what they say about the sequence before and after, how they are recorded (Ses::addSequence)
    and how they are replayed (Diff::patch). */
module EditScript {
  import opened Subsequences

  datatype EditKind = Delete | Common | Add

  /** One entry of a script; positions are 1-based, 0 on the side the entry does not touch. */
  datatype Edit<E> = Edit(elem: E, beforeIdx: nat, afterIdx: nat, kind: EditKind)

  /** The sequence a script starts from. */
  function Before<E>(s: seq<Edit<E>>): seq<E> {
    if s == [] then []
    else
      var p, l := Before(s[..|s| - 1]), s[|s| - 1];
      if l.kind == Add then p else p + [l.elem]
  }

  /** The sequence a script ends with. */
  function After<E>(s: seq<Edit<E>>): seq<E> {
    if s == [] then []
    else
      var p, l := After(s[..|s| - 1]), s[|s| - 1];
      if l.kind == Delete then p else p + [l.elem]
  }

  /** The script turns a into b. */
  ghost predicate IsScript<E(!new)>(s: seq<Edit<E>>, a: seq<E>, b: seq<E>) {
    Before(s) == a && After(s) == b
  }

  /** The elements a script keeps. */
  function Kept<E>(s: seq<Edit<E>>): seq<E> {
    if s == [] then []
    else
      var p, l := Kept(s[..|s| - 1]), s[|s| - 1];
      if l.kind == Common then p + [l.elem] else p
  }

  /** The number of insertions and deletions of a script. */
  function EditCount<E>(s: seq<Edit<E>>): nat {
    if s == [] then 0
    else EditCount(s[..|s| - 1]) + if s[|s| - 1].kind == Common then 0 else 1
  }

  /** Every entry carries its 1-based position in the sequence before and in the sequence after. */
  ghost predicate Indexed<E(!new)>(s: seq<Edit<E>>) {
    forall i :: 0 <= i < |s| ==> IndexedAt(s, i)
  }

  ghost predicate IndexedAt<E(!new)>(s: seq<Edit<E>>, i: nat)
    requires i < |s|
  {
    s[i].beforeIdx == (if s[i].kind == Add then 0 else |Before(s[..i])| + 1) &&
    s[i].afterIdx == (if s[i].kind == Delete then 0 else |After(s[..i])| + 1)
  }

  lemma Snoc<E>(s: seq<Edit<E>>, e: Edit<E>)
    ensures Before(s + [e]) == if e.kind == Add then Before(s) else Before(s) + [e.elem]
    ensures After(s + [e]) == if e.kind == Delete then After(s) else After(s) + [e.elem]
    ensures Kept(s + [e]) == if e.kind == Common then Kept(s) + [e.elem] else Kept(s)
    ensures EditCount(s + [e]) == EditCount(s) + (if e.kind == Common then 0 else 1)
  {
    assert (s + [e])[..|s|] == s;
  }

  lemma NothingEnds<E>()
    ensures Before<E>([]) == [] && After<E>([]) == [] && Kept<E>([]) == [] && EditCount<E>([]) == 0
  {
  }

  lemma Associate<T>(p: seq<T>, q: seq<T>, r: seq<T>)
    ensures (p + q) + r == p + (q + r)
  {
  }

  lemma {:induction false} JoinedEnds<E>(s: seq<Edit<E>>, t: seq<Edit<E>>)
    ensures Before(s + t) == Before(s) + Before(t)
    ensures After(s + t) == After(s) + After(t)
  {
    hide Before, After, Kept, EditCount;
    if t == [] {
      NothingEnds<E>();
      assert s + t == s;
    } else {
      var t', l := t[..|t| - 1], t[|t| - 1];
      JoinedEnds(s, t');
      assert s + t == s + t' + [l] && t == t' + [l];
      Snoc(s + t', l);
      Snoc(t', l);
      Associate(Before(s), Before(t'), [l.elem]);
      Associate(After(s), After(t'), [l.elem]);
    }
  }

  lemma {:induction false} JoinedCounts<E>(s: seq<Edit<E>>, t: seq<Edit<E>>)
    ensures Kept(s + t) == Kept(s) + Kept(t)
    ensures EditCount(s + t) == EditCount(s) + EditCount(t)
  {
    hide Before, After, Kept, EditCount;
    if t == [] {
      NothingEnds<E>();
      assert s + t == s;
    } else {
      var t', l := t[..|t| - 1], t[|t| - 1];
      JoinedCounts(s, t');
      assert s + t == s + t' + [l] && t == t' + [l];
      Snoc(s + t', l);
      Snoc(t', l);
      Associate(Kept(s), Kept(t'), [l.elem]);
    }
  }

  /** One step along a script: what its next prefix contributes to either end. */
  lemma NextPrefix<E>(s: seq<Edit<E>>, i: nat)
    requires i < |s|
    ensures Before(s[..i + 1]) == if s[i].kind == Add then Before(s[..i]) else Before(s[..i]) + [s[i].elem]
    ensures After(s[..i + 1]) == if s[i].kind == Delete then After(s[..i]) else After(s[..i]) + [s[i].elem]
  {
    assert s[..i + 1] == s[..i] + [s[i]];
    Snoc(s[..i], s[i]);
  }

  lemma PrefixEnds<E>(s: seq<Edit<E>>, p: seq<Edit<E>>, q: seq<Edit<E>>)
    requires s == p + q
    ensures Before(p) <= Before(s) && After(p) <= After(s)
  {
    JoinedEnds(p, q);
  }

  /** Any script keeps a common subsequence of its two ends, and pays for everything else. */
  lemma {:induction false} KeptIsCommon<E(!new)>(s: seq<Edit<E>>)
    ensures IsSubsequence(Kept(s), Before(s)) && IsSubsequence(Kept(s), After(s))
    ensures |Before(s)| + |After(s)| == EditCount(s) + 2 * |Kept(s)|
  {
    if s != [] {
      var s', l := s[..|s| - 1], s[|s| - 1];
      KeptIsCommon(s');
      match l.kind
      case Common =>
        SubsequenceSnoc(Kept(s'), Before(s'), l.elem);
        SubsequenceSnoc(Kept(s'), After(s'), l.elem);
      case Delete => SubsequenceSnoc(Kept(s'), Before(s'), l.elem);
      case Add => SubsequenceSnoc(Kept(s'), After(s'), l.elem);
    }
  }

  /** No script from a to b has fewer edits than |a| + |b| - 2 * LcsLen. */
  lemma ScriptBound<E(!new)>(s: seq<Edit<E>>, a: seq<E>, b: seq<E>)
    requires IsScript(s, a, b)
    ensures EditCount(s) >= |a| + |b| - 2 * LcsLen(a, b, |a|, |b|)
  {
    KeptIsCommon(s);
    CommonSubsequenceBoundAll(Kept(s), a, b);
  }

  /** Every entry of the script is of one kind. */
  ghost predicate Only<E(!new)>(s: seq<Edit<E>>, kind: EditKind) {
    forall i :: 0 <= i < |s| ==> s[i].kind == kind
  }

  lemma {:induction false} AllAddEnds<E(!new)>(s: seq<Edit<E>>)
    requires Only(s, Add)
    ensures Before(s) == [] && |After(s)| == |s| && Kept(s) == [] && EditCount(s) == |s|
  {
    if s != [] {
      AllAddEnds(s[..|s| - 1]);
    }
  }

  lemma OnlyInserted<E(!new)>(s: seq<Edit<E>>, n: nat, e: Edit<E>, kind: EditKind)
    requires n <= |s|
    ensures Only(s[..n] + [e] + s[n..], kind) <==> Only(s, kind) && e.kind == kind
  {
    var r := s[..n] + [e] + s[n..];
    assert r[n] == e;
    assert forall i :: 0 <= i < |s| ==> s[i] == r[if i < n then i else i + 1];
  }

  /** A deletion commutes with the insertions before it: both ends of the script survive. */
  lemma DeleteBeforeAdds<E(!new)>(s: seq<Edit<E>>, n: nat, e: Edit<E>)
    requires n <= |s| && Only(s[n..], Add) && e.kind == Delete
    ensures var r := s[..n] + [e] + s[n..];
            Before(r) == Before(s) + [e.elem] && After(r) == After(s) && Kept(r) == Kept(s) &&
            EditCount(r) == EditCount(s) + 1
  {
    hide Before, After, Kept, EditCount;
    var p, q := s[..n], s[n..];
    AllAddEnds(q);
    Snoc(p, e);
    JoinedEnds(p + [e], q);
    JoinedCounts(p + [e], q);
    assert p + q == s;
    JoinedEnds(p, q);
    JoinedCounts(p, q);
  }

  /** The entry carries its positions in the two sequences if it is recorded at the end of a script. */
  ghost predicate WellPlaced<E(!new)>(s: seq<Edit<E>>, e: Edit<E>) {
    e.beforeIdx == (if e.kind == Add then 0 else |Before(s)| + 1) &&
    e.afterIdx == (if e.kind == Delete then 0 else |After(s)| + 1)
  }

  /** ... and so do the recorded positions. */
  lemma DeleteBeforeAddsIndexed<E(!new)>(s: seq<Edit<E>>, n: nat, e: Edit<E>)
    requires n <= |s| && Only(s[n..], Add) && e.kind == Delete
    ensures Indexed(s[..n] + [e] + s[n..]) <==> Indexed(s) && WellPlaced(s, e)
  {
    hide WellPlaced, IndexedAt;
    var r := s[..n] + [e] + s[n..];
    if Indexed(r) {
      forall j | 0 <= j < |s| ensures IndexedAt(s, j) {
        var i := if j < n then j else j + 1;
        assert IndexedAt(r, i);
        DeleteBeforeAddsIndexedAt(s, n, e, i);
      }
      DeleteBeforeAddsIndexedAt(s, n, e, n);
      assert IndexedAt(r, n);
    }
    if Indexed(s) && WellPlaced(s, e) {
      forall i | 0 <= i < |r| ensures IndexedAt(r, i) {
        DeleteBeforeAddsIndexedAt(s, n, e, i);
      }
    }
  }

  lemma DeleteBeforeAddsIndexedAt<E(!new)>(s: seq<Edit<E>>, n: nat, e: Edit<E>, i: nat)
    requires n <= |s| && Only(s[n..], Add) && e.kind == Delete && i <= |s|
    ensures IndexedAt(s[..n] + [e] + s[n..], i) <==>
      if i < n then IndexedAt(s, i) else if i == n then WellPlaced(s, e) else IndexedAt(s, i - 1)
  {
    var p, q := s[..n], s[n..];
    var r := p + [e] + q;
    if i < n {
      assert r[..i] == s[..i] && r[i] == s[i];
    } else if i == n {
      assert r[..i] == p && r[i] == e;
      AllAddEnds(q);
      assert p + q == s;
      JoinedEnds(p, q);
    } else {
      ShiftedAddIndexed(s, n, e, i - 1);
    }
  }

  lemma ShiftedAddIndexed<E(!new)>(s: seq<Edit<E>>, n: nat, e: Edit<E>, j: nat)
    requires n <= j < |s| && Only(s[n..], Add) && e.kind == Delete
    ensures IndexedAt(s[..n] + [e] + s[n..], j + 1) <==> IndexedAt(s, j)
  {
    var r, u := s[..n] + [e] + s[n..], s[..j];
    assert s[j] == s[n..][j - n] == r[j + 1];
    assert u[n..] == s[n..][..j - n];
    DeleteBeforeAdds(u, n, e);
    assert r[..j + 1] == u[..n] + [e] + u[n..];
  }

  /** What one recorded entry adds to a script, at the end or, for a deletion, before trailing insertions. */
  ghost predicate Extends<E(!new)>(s: seq<Edit<E>>, e: Edit<E>, r: seq<Edit<E>>) {
    Before(r) == (if e.kind == Add then Before(s) else Before(s) + [e.elem]) &&
    After(r) == (if e.kind == Delete then After(s) else After(s) + [e.elem]) &&
    Kept(r) == (if e.kind == Common then Kept(s) + [e.elem] else Kept(s)) &&
    EditCount(r) == EditCount(s) + (if e.kind == Common then 0 else 1) &&
    forall k :: Only(r, k) <==> Only(s, k) && e.kind == k
  }

  lemma InsertedExtends<E(!new)>(s: seq<Edit<E>>, n: nat, e: Edit<E>)
    requires n == |s| || (n <= |s| && Only(s[n..], Add) && e.kind == Delete)
    ensures Extends(s, e, s[..n] + [e] + s[n..])
    ensures Indexed(s[..n] + [e] + s[n..]) <==> Indexed(s) && WellPlaced(s, e)
  {
    forall k ensures Only(s[..n] + [e] + s[n..], k) <==> Only(s, k) && e.kind == k {
      OnlyInserted(s, n, e, k);
    }
    hide Indexed, WellPlaced;
    if n == |s| {
      assert s[..n] + [e] + s[n..] == s + [e];
      Snoc(s, e);
      IndexedSnoc(s, e);
    } else {
      DeleteBeforeAdds(s, n, e);
      DeleteBeforeAddsIndexed(s, n, e);
    }
  }

  /** No deletion directly follows an insertion: each change starts with its deletions. */
  ghost predicate DeletesLead<E(!new)>(s: seq<Edit<E>>) {
    forall i :: 0 < i < |s| && s[i].kind == Delete ==> s[i - 1].kind != Add
  }

  /** The entries that are not of one kind. */
  function Without<E>(s: seq<Edit<E>>, kind: EditKind): (r: seq<Edit<E>>) {
    if s == [] then []
    else
      var p, l := Without(s[..|s| - 1], kind), s[|s| - 1];
      if l.kind == kind then p else p + [l]
  }

  /** No entry is changed, left out or invented, and none passes another but a deletion an insertion: what is not
      inserted keeps its order, so does what is not deleted, and no deletion directly follows an insertion. */
  ghost predicate Arranged<E(!new)>(r: seq<Edit<E>>, s: seq<Edit<E>>) {
    Without(r, Add) == Without(s, Add) && Without(r, Delete) == Without(s, Delete) && DeletesLead(r)
  }

  lemma WithoutSnoc<E>(s: seq<Edit<E>>, e: Edit<E>, kind: EditKind)
    ensures Without(s + [e], kind) == if e.kind == kind then Without(s, kind) else Without(s, kind) + [e]
  {
    assert (s + [e])[..|s|] == s;
  }

  lemma {:induction false} WithoutJoin<E>(s: seq<Edit<E>>, t: seq<Edit<E>>, kind: EditKind)
    ensures Without(s + t, kind) == Without(s, kind) + Without(t, kind)
  {
    if t == [] {
      assert s + t == s;
    } else {
      var t', l := t[..|t| - 1], t[|t| - 1];
      WithoutJoin(s, t', kind);
      assert s + t == s + t' + [l];
      WithoutSnoc(s + t', l, kind);
    }
  }

  lemma {:induction false} WithoutOnly<E(!new)>(s: seq<Edit<E>>, own: EditKind, kind: EditKind)
    requires Only(s, own)
    ensures Without(s, kind) == if own == kind then [] else s
  {
    if s != [] {
      WithoutOnly(s[..|s| - 1], own, kind);
    }
  }

  lemma {:induction false} WithoutEntries<E>(s: seq<Edit<E>>, kind: EditKind, e: Edit<E>)
    ensures multiset(Without(s, kind))[e] == if e.kind == kind then 0 else multiset(s)[e]
  {
    if s != [] {
      WithoutEntries(s[..|s| - 1], kind, e);
      assert s == s[..|s| - 1] + [s[|s| - 1]];
    }
  }

  lemma {:induction false} WithoutCounts<E>(s: seq<Edit<E>>)
    ensures Kept(Without(s, Add)) == Kept(s)
    ensures EditCount(s) == EditCount(Without(s, Add)) + EditCount(Without(s, Delete))
    ensures Before(Without(s, Add)) == Before(s) && After(Without(s, Delete)) == After(s)
  {
    if s != [] {
      var s', l := s[..|s| - 1], s[|s| - 1];
      WithoutCounts(s');
      Snoc(Without(s', Add), l);
      Snoc(Without(s', Delete), l);
    }
  }

  /** Putting a deletion before the insertions at the end passes nothing else. */
  lemma WithoutInserted<E(!new)>(s: seq<Edit<E>>, n: nat, e: Edit<E>, kind: EditKind)
    requires n <= |s| && Only(s[n..], Add) && e.kind == Delete && kind != Common
    ensures Without(s[..n] + [e] + s[n..], kind) == Without(s + [e], kind)
  {
    hide Without;
    var p, q := s[..n], s[n..];
    assert p + q == s;
    WithoutJoin(p, q, kind);
    WithoutJoin(p + [e], q, kind);
    WithoutSnoc(p, e, kind);
    WithoutSnoc(s, e, kind);
    WithoutOnly(q, Add, kind);
    if kind == Add {
      Nothing(Without(p, kind));
      Nothing(Without(p, kind) + [e]);
    }
  }

  lemma Nothing<T>(s: seq<T>)
    ensures s + [] == s
  {
  }

  /** An arrangement has the same entries, keeps the same elements with as many edits, and has the same two ends. */
  lemma ArrangedKeeps<E(!new)>(r: seq<Edit<E>>, s: seq<Edit<E>>)
    requires Arranged(r, s)
    ensures multiset(r) == multiset(s) && Kept(r) == Kept(s) && EditCount(r) == EditCount(s)
    ensures Before(r) == Before(s) && After(r) == After(s)
  {
    hide Before, After, Kept, EditCount;
    WithoutCounts(r);
    WithoutCounts(s);
    forall e ensures multiset(r)[e] == multiset(s)[e] {
      var kind := if e.kind == Add then Delete else Add;
      WithoutEntries(r, kind, e);
      WithoutEntries(s, kind, e);
    }
  }

  /** There is just one arrangement of a script. */
  lemma {:induction false} ArrangedOnce<E(!new)>(r: seq<Edit<E>>, r': seq<Edit<E>>)
    requires DeletesLead(r) && DeletesLead(r')
    requires Without(r, Add) == Without(r', Add) && Without(r, Delete) == Without(r', Delete)
    ensures r == r'
    decreases |r|
  {
    hide Without, DeletesLead;
    if r == [] || r' == [] {
      NothingWithout(r);
      NothingWithout(r');
    } else {
      var p, l, p', l' := r[..|r| - 1], r[|r| - 1], r'[..|r'| - 1], r'[|r'| - 1];
      LastEntry(r);
      LastEntry(r');
      LeadFront(r);
      LeadFront(r');
      SameRest(p, p', l, Add);
      SameRest(p, p', l, Delete);
      ArrangedOnce(p, p');
    }
  }

  lemma NothingWithout<E>(r: seq<Edit<E>>)
    ensures r == [] <==> Without(r, Add) == [] && Without(r, Delete) == []
  {
  }

  lemma LeadFront<E(!new)>(r: seq<Edit<E>>)
    requires DeletesLead(r) && r != []
    ensures DeletesLead(r[..|r| - 1]) && r == r[..|r| - 1] + [r[|r| - 1]]
  {
  }

  /** The last entry of an arrangement is known from what is not inserted and what is not deleted. */
  lemma {:induction false} LastEntry<E(!new)>(r: seq<Edit<E>>)
    requires DeletesLead(r) && r != []
    ensures ghost var kept, came := Without(r, Add), Without(r, Delete);
      if came != [] && came[|came| - 1].kind == Add then r[|r| - 1] == came[|came| - 1]
      else kept != [] && r[|r| - 1] == kept[|kept| - 1]
    decreases |r|
  {
    var p := r[..|r| - 1];
    if p != [] {
      LastEntry(p);
    }
  }

  lemma SameRest<E>(p: seq<Edit<E>>, p': seq<Edit<E>>, l: Edit<E>, kind: EditKind)
    requires Without(p + [l], kind) == Without(p' + [l], kind)
    ensures Without(p, kind) == Without(p', kind)
  {
    hide Without;
    WithoutSnoc(p, l, kind);
    WithoutSnoc(p', l, kind);
    var q, q' := Without(p, kind), Without(p', kind);
    if l.kind != kind {
      assert q == (q + [l])[..|q|] && q' == (q' + [l])[..|q'|];
    }
  }

  /** Deletions lead, and next is where the last change's next deletion belongs: before its insertions. */
  ghost predicate DeletesLeadTo<E(!new)>(s: seq<Edit<E>>, next: nat) {
    DeletesLead(s) && next <= |s| && Only(s[next..], Add) && (next > 0 ==> s[next - 1].kind != Add)
  }

  lemma DeletesLeadInserted<E(!new)>(s: seq<Edit<E>>, next: nat, e: Edit<E>)
    requires DeletesLeadTo(s, next) && e.kind == Delete
    ensures DeletesLeadTo(s[..next] + [e] + s[next..], next + 1)
  {
    var r := s[..next] + [e] + s[next..];
    assert r[next + 1..] == s[next..];
    forall i | 0 < i < |r| && r[i].kind == Delete ensures r[i - 1].kind != Add {
    }
  }

  lemma DeletesLeadSnoc<E(!new)>(s: seq<Edit<E>>, next: nat, e: Edit<E>)
    requires DeletesLeadTo(s, next) && e.kind != Delete
    ensures DeletesLeadTo(s + [e], if e.kind == Add then next else |s| + 1)
  {
    assert (s + [e])[next..] == s[next..] + [e];
    assert (s + [e])[|s| + 1..] == [];
  }

  /** A recorded script (Ses): entries arrive in order; on request the deletions of each change are put first. */
  class Ses<E(!new)> {
    var sequence: seq<Edit<E>>
    var onlyAdd: bool
    var onlyDelete: bool
    var onlyCopy: bool
    const deletesFirst: bool
    var nextDeleteIdx: nat

    ghost predicate Valid()
      reads this
    {
      (deletesFirst ==> DeletesLeadTo(sequence, nextDeleteIdx)) &&
      (onlyAdd <==> Only(sequence, Add)) &&
      (onlyDelete <==> Only(sequence, Delete)) &&
      (onlyCopy <==> Only(sequence, Common))
    }

    constructor (moveDel: bool)
      ensures Valid() && sequence == [] && deletesFirst == moveDel
    {
      sequence, nextDeleteIdx, deletesFirst := [], 0, moveDel;
      onlyAdd, onlyDelete, onlyCopy := true, true, true;
    }

    /** Records one entry that continues the script at both ends, whatever order the entries are kept in. All
        positions are right afterwards exactly if they were and the new ones are. */
    method AddSequence(e: E, beforeIdx: nat, afterIdx: nat, kind: EditKind)
      requires Valid()
      modifies this
      ensures Valid()
      ensures Indexed(sequence) <==>
        Indexed(old(sequence)) && WellPlaced(old(sequence), Edit(e, beforeIdx, afterIdx, kind))
      ensures Extends(old(sequence), Edit(e, beforeIdx, afterIdx, kind), sequence)
      ensures !deletesFirst ==> sequence == old(sequence) + [Edit(e, beforeIdx, afterIdx, kind)]
      ensures deletesFirst ==> Arranged(sequence, old(sequence) + [Edit(e, beforeIdx, afterIdx, kind)])
    {
      hide Without, Indexed, WellPlaced, Only, DeletesLead, Before, After, Kept, EditCount;
      var pe := Edit(e, beforeIdx, afterIdx, kind);
      ghost var s := sequence;
      ghost var n := if deletesFirst && kind == Delete then nextDeleteIdx else |s|;
      ghost var r := s[..n] + [pe] + s[n..];
      InsertedExtends(s, n, pe);
      AtEnd(s, pe);
      if deletesFirst {
        if kind == Delete {
          DeletesLeadInserted(s, nextDeleteIdx, pe);
          WithoutInserted(s, nextDeleteIdx, pe, Add);
          WithoutInserted(s, nextDeleteIdx, pe, Delete);
        } else {
          DeletesLeadSnoc(s, nextDeleteIdx, pe);
        }
      }
      if !deletesFirst {
        sequence := sequence + [pe];
      }
      match kind {
        case Delete =>
          onlyCopy, onlyAdd := false, false;
          if deletesFirst {
            sequence := sequence[..nextDeleteIdx] + [pe] + sequence[nextDeleteIdx..];
            nextDeleteIdx := nextDeleteIdx + 1;
          }
        case Common =>
          onlyAdd, onlyDelete := false, false;
          if deletesFirst {
            sequence := sequence + [pe];
            nextDeleteIdx := |sequence|;
          }
        case Add =>
          onlyDelete, onlyCopy := false, false;
          if deletesFirst {
            sequence := sequence + [pe];
          }
      }
      assert sequence == r;
    }
  }

  lemma AtEnd<T>(s: seq<T>, e: T)
    ensures s[..|s|] + [e] + s[|s|..] == s + [e]
  {
  }

  lemma IndexedSnoc<E(!new)>(s: seq<Edit<E>>, e: Edit<E>)
    ensures Indexed(s + [e]) <==> Indexed(s) && WellPlaced(s, e)
  {
    var r := s + [e];
    forall i | 0 <= i < |s| ensures IndexedAt(r, i) <==> IndexedAt(s, i) {
      assert r[..i] == s[..i] && r[i] == s[i];
    }
    assert r[..|s|] == s;
    assert IndexedAt(r, |s|) <==> WellPlaced(s, e);
  }

  /** What a list that starts with a script's old lines holds where the replay has got to. */
  lemma NextLine<E>(s: seq<Edit<E>>, n: nat, y: seq<E>)
    requires n < |s| && Before(s) <= y
    ensures Before(s[..n + 1]) == if s[n].kind == Add then Before(s[..n]) else Before(s[..n]) + [s[n].elem]
    ensures After(s[..n + 1]) == if s[n].kind == Delete then After(s[..n]) else After(s[..n]) + [s[n].elem]
    ensures |Before(s[..n])| <= |y|
    ensures s[n].kind != Add ==> |Before(s[..n])| < |y| && y[|Before(s[..n])|] == s[n].elem
  {
    hide Before, After;
    NextPrefix(s, n);
    PrefixEnds(s, s[..n + 1], s[n + 1..]);
  }

  /** A list with a cursor between what is done and the rest. */
  predicate CursorAt<T(==)>(lst: seq<T>, it: nat, q: seq<T>, rest: seq<T>) {
    lst == q + rest && it == |q|
  }

  lemma CursorInsert<T>(lst: seq<T>, it: nat, q: seq<T>, rest: seq<T>, e: T)
    requires CursorAt(lst, it, q, rest)
    ensures it <= |lst| && CursorAt(lst[..it] + [e] + lst[it..], it + 1, q + [e], rest)
  {
  }

  lemma CursorErase<T>(lst: seq<T>, it: nat, q: seq<T>, rest: seq<T>)
    requires CursorAt(lst, it, q, rest) && rest != []
    ensures it < |lst| && CursorAt(lst[..it] + lst[it + 1..], it, q, rest[1..])
  {
  }

  lemma CursorPass<T>(lst: seq<T>, it: nat, q: seq<T>, rest: seq<T>)
    requires CursorAt(lst, it, q, rest) && rest != []
    ensures it < |lst| && lst[it] == rest[0] && CursorAt(lst, it + 1, q + [rest[0]], rest[1..])
  {
  }

  lemma CursorEnds<T>(lst: seq<T>, it: nat, q: seq<T>, rest: seq<T>)
    requires CursorAt(lst, it, q, rest)
    ensures lst == q + rest && it == |q| && (rest == [] ==> lst == q)
  {
  }

  lemma DroppedFront<T>(y: seq<T>, p: nat)
    requires p < |y|
    ensures y[p..] != [] && y[p..][0] == y[p] && y[p..][1..] == y[p + 1..]
  {
  }

  lemma PatchStart<E>(script: seq<Edit<E>>, s: seq<E>)
    ensures script[..0] == [] && Before(script[..0]) == [] && After(script[..0]) == []
    ensures s[0..] == s && CursorAt(s, 0, [], s[0..])
  {
  }

  /** Diff::patch: replays a script on a list through a cursor. Deletions and common entries only move or
      erase at the cursor, so the list needs exactly the length the script expects: erasing or stepping past
      the end never happens. */
  method Patch<E(!new)>(script: seq<Edit<E>>, s: seq<E>) returns (patched: seq<E>)
    requires |s| == |Before(script)|
    ensures Before(script) == s ==> patched == After(script)
    ensures |patched| == |After(script)|
  {
    hide Before, After, CursorAt;
    var lst, it := s, 0;
    ghost var p: nat, q: seq<E> := 0, [];
    PatchStart(script, s);
    for i := 0 to |script|
      invariant p == |Before(script[..i])| <= |s| && |q| == |After(script[..i])|
      invariant CursorAt(lst, it, q, s[p..]) && (Before(script) == s ==> q == After(script[..i]))
    {
      var e := script[i];
      NextLine(script, i, Before(script));
      if e.kind != Add {
        DroppedFront(s, p);
      }
      match e.kind {
        case Add =>
          CursorInsert(lst, it, q, s[p..], e.elem);
          lst := lst[..it] + [e.elem] + lst[it..];
          it := it + 1;
          q := q + [e.elem];
        case Delete =>
          CursorErase(lst, it, q, s[p..]);
          lst := lst[..it] + lst[it + 1..];
          p := p + 1;
        case Common =>
          CursorPass(lst, it, q, s[p..]);
          it := it + 1;
          q := q + [s[p]];
          p := p + 1;
      }
    }
    assert script[..|script|] == script;
    CursorEnds(lst, it, q, s[p..]);
    patched := lst;
  }
}
